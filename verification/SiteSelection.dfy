/**
 Credential sites: which site lists a candidate may have, and the site and endpoint a target
 selects. The resolver sorts the matching sites by base path and takes the first; the redirect
 selector does the same but denies when the first two tie.

 Identifiers arrive validated and URLs parsed; each selector reads the URL's host its own way.
 */
module SiteSelection {
  import opened Common
  import T = AddressText
  import H = HostNames

  datatype Choice = Inherit | NoCredential | Reference(id: string)

  datatype Selector = ById(id: string) | ByRoute(verb: string, path: string)

  datatype Endpoint = Endpoint(selector: Selector, credential: Choice)

  datatype Match = Match(scheme: string, host: string, port: int, basePath: string)

  datatype Site = Site(id: string, asset: string, matching: Match, allowedHosts: seq<string>, credential: Choice,
                       endpoints: seq<Endpoint>)

  datatype RawEndpoint = RawEndpoint(id: Option<string>, verb: Option<string>, path: Option<string>, credential: Choice)

  datatype RawSite = RawSite(id: string, asset: string, matching: Match, allowedHosts: seq<string>, credential: Choice,
                             endpoints: seq<RawEndpoint>)

  datatype Target = Target(scheme: string, host: string, port: int, path: string)

  // A URL that both selectors accept.
  datatype Url = Url(scheme: string, host: H.UrlHost, port: int, path: string)

  const MAX_SITES := 128
  const MAX_ENDPOINTS_PER_SITE := 256
  const MAX_ENDPOINTS := 2048
  const MAX_ALLOWED_HOSTS := 64
  const VERBS := {"GET", "POST", "PUT", "PATCH", "DELETE", "HEAD", "OPTIONS", "TRACE"}

  function Upper(s: string): string {
    seq(|s|, i requires 0 <= i < |s| => if 'a' <= s[i] <= 'z' then s[i] - 'a' + 'A' else s[i])
  }

  // ----- Paths -----

  predicate RouteChar(c: char) {
    '\U{20}' < c && c != '\U{7F}' && c !in "\\%?#"
  }

  predicate IsRoute(path: string) {
    && 1 <= |path| <= 2048 && path[0] == '/' && (forall i :: 0 <= i < |path| ==> RouteChar(path[i]))
    && (forall i :: 1 <= i < |path| ==> path[i - 1] != '/' || path[i] != '/')
    && "." !in T.Split(path, '/') && ".." !in T.Split(path, '/')
  }

  function BasePath(path: string): string {
    if |path| > 1 && path[|path| - 1] == '/' then path[..|path| - 1] else path
  }

  predicate NormalBase(base: string) {
    base != [] && base[0] == '/' && (base == "/" || base[|base| - 1] != '/')
  }

  lemma BaseIsNormal(path: string)
    requires IsRoute(path)
    ensures NormalBase(BasePath(path))
    ensures BasePath(path) == path || BasePath(path) + "/" == path
  {
    if |path| > 1 && path[|path| - 1] == '/' {
      assert path[|path| - 2] != '/';
    }
  }

  predicate Within(base: string, path: string) {
    base == "/" || path == base || base + "/" <= path
  }

  // ----- Validation -----

  function EndpointOf(raw: RawEndpoint): Option<Endpoint> {
    if raw.id.Some? then
      if raw.verb.Some? || raw.path.Some? then None else Some(Endpoint(ById(raw.id.value), raw.credential))
    else if raw.verb.None? || raw.path.None? then None
    else if |raw.verb.value| > 16 || Upper(raw.verb.value) !in VERBS || !IsRoute(raw.path.value) then None
    else Some(Endpoint(ByRoute(Upper(raw.verb.value), raw.path.value), raw.credential))
  }

  ghost predicate GoodEndpoints(raws: seq<RawEndpoint>) {
    && |raws| <= MAX_ENDPOINTS_PER_SITE && (forall i :: 0 <= i < |raws| ==> EndpointOf(raws[i]).Some?)
    && (forall i, j :: 0 <= i < j < |raws| ==> EndpointOf(raws[i]).value.selector != EndpointOf(raws[j]).value.selector)
  }

  ghost function EndpointsOf(raws: seq<RawEndpoint>): seq<Endpoint>
    requires GoodEndpoints(raws)
  {
    seq(|raws|, i requires 0 <= i < |raws| => EndpointOf(raws[i]).value)
  }

  function Normalized(m: Match): Match {
    var host := H.SiteHost(m.host);
    m.(host := if host.Some? then host.value else m.host, basePath := BasePath(m.basePath))
  }

  predicate HostsPass(list: seq<string>) {
    forall i :: 0 <= i < |list| ==> H.SiteHost(list[i]).Some?
  }

  function HostsOf(list: seq<string>): (hosts: seq<string>)
    requires HostsPass(list)
    ensures |hosts| == |list|
  {
    seq(|list|, i requires 0 <= i < |list| => H.SiteHost(list[i]).value)
  }

  predicate GoodHosts(host: string, allowed: seq<string>) {
    && H.SiteHost(host).Some? && |allowed| <= MAX_ALLOWED_HOSTS && HostsPass(allowed)
    && Distinct(HostsOf(allowed)) && H.SiteHost(host).value in HostsOf(allowed)
  }

  ghost predicate GoodSite(raw: RawSite) {
    && raw.matching.scheme in {"http", "https"} && 1 <= raw.matching.port <= 65535 && IsRoute(raw.matching.basePath)
    && GoodHosts(raw.matching.host, raw.allowedHosts) && GoodEndpoints(raw.endpoints)
  }

  // What must not be shared: a site's id, and its asset together with its match.
  datatype Mark = Mark(id: string, asset: string, matching: Match)

  function MarkOf(raw: RawSite): Mark {
    Mark(raw.id, raw.asset, Normalized(raw.matching))
  }

  function Marks(raws: seq<RawSite>): (marks: seq<Mark>)
    ensures |marks| == |raws|
  {
    seq(|raws|, i requires 0 <= i < |raws| => MarkOf(raws[i]))
  }

  predicate Apart(a: Mark, b: Mark) {
    a.id != b.id && (a.asset, a.matching) != (b.asset, b.matching)
  }

  ghost predicate AllApart(marks: seq<Mark>) {
    forall i, j :: 0 <= i < j < |marks| ==> Apart(marks[i], marks[j])
  }

  ghost predicate ApartFrom(marks: seq<Mark>, x: Mark) {
    forall i :: 0 <= i < |marks| ==> Apart(marks[i], x)
  }

  lemma ApartSnoc(marks: seq<Mark>, x: Mark)
    ensures AllApart(marks + [x]) <==> AllApart(marks) && ApartFrom(marks, x)
  {
    var all := marks + [x];
    assert forall i :: 0 <= i < |marks| ==> all[i] == marks[i];
    if AllApart(all) {
      forall i | 0 <= i < |marks|
        ensures Apart(marks[i], x)
      {
        assert Apart(all[i], all[|marks|]);
      }
    }
  }

  ghost predicate AllGood(raws: seq<RawSite>) {
    forall i :: 0 <= i < |raws| ==> GoodSite(raws[i])
  }

  lemma GoodSnoc(raws: seq<RawSite>, x: RawSite)
    ensures AllGood(raws + [x]) <==> AllGood(raws) && GoodSite(x)
  {
    var all := raws + [x];
    assert forall i :: 0 <= i < |raws| ==> all[i] == raws[i];
    assert all[|raws|] == x;
    if AllGood(all) {
      forall i | 0 <= i < |raws|
        ensures GoodSite(raws[i])
      {
        assert GoodSite(all[i]);
      }
      assert GoodSite(all[|raws|]);
    }
  }

  function EndpointCount(raws: seq<RawSite>): nat {
    if raws == [] then 0 else EndpointCount(raws[..|raws| - 1]) + |raws[|raws| - 1].endpoints|
  }

  ghost predicate GoodSites(raws: seq<RawSite>) {
    && |raws| <= MAX_SITES && EndpointCount(raws) <= MAX_ENDPOINTS
    && AllGood(raws) && AllApart(Marks(raws))
  }

  ghost function SiteOf(raw: RawSite): Site
    requires GoodSite(raw)
  {
    Site(raw.id, raw.asset, Normalized(raw.matching), HostsOf(raw.allowedHosts), raw.credential, EndpointsOf(raw.endpoints))
  }

  // `before` endpoints have been counted on earlier sites.
  method ValidateEndpoints(raws: seq<RawEndpoint>, before: nat) returns (r: Option<seq<Endpoint>>)
    ensures r.Some? <==> GoodEndpoints(raws) && (raws == [] || before + |raws| <= MAX_ENDPOINTS)
    ensures r.Some? ==> r.value == EndpointsOf(raws)
  {
    if |raws| > MAX_ENDPOINTS_PER_SITE {
      return None;
    }
    var endpoints: seq<Endpoint> := [];
    var selectors: set<Selector> := {};
    for i := 0 to |raws|
      invariant |endpoints| == i && (i == 0 || before + i <= MAX_ENDPOINTS)
      invariant forall k :: 0 <= k < i ==>
                  EndpointOf(raws[k]) == Some(endpoints[k]) && endpoints[k].selector in selectors
      invariant forall s :: s in selectors ==> exists k :: 0 <= k < i && endpoints[k].selector == s
      invariant forall k, l :: 0 <= k < l < i ==> endpoints[k].selector != endpoints[l].selector
    {
      if before + i + 1 > MAX_ENDPOINTS {
        return None;
      }
      var e := EndpointOf(raws[i]);
      if e.None? || e.value.selector in selectors {
        return None;
      }
      selectors := selectors + {e.value.selector};
      endpoints := endpoints + [e.value];
    }
    r := Some(endpoints);
  }

  function Ids(marks: seq<Mark>): set<string> {
    if marks == [] then {} else Ids(marks[..|marks| - 1]) + {marks[|marks| - 1].id}
  }

  function Keys(marks: seq<Mark>): set<(string, Match)> {
    if marks == [] then {} else Keys(marks[..|marks| - 1]) + {(marks[|marks| - 1].asset, marks[|marks| - 1].matching)}
  }

  predicate Taken(marks: seq<Mark>, x: Mark) {
    x.id in Ids(marks) || (x.asset, x.matching) in Keys(marks)
  }

  lemma {:induction false} TakenIsClash(marks: seq<Mark>, x: Mark)
    ensures Taken(marks, x) <==> !ApartFrom(marks, x)
  {
    if marks != [] {
      var n := |marks| - 1;
      TakenIsClash(marks[..n], x);
      assert ApartFrom(marks, x) <==> ApartFrom(marks[..n], x) && Apart(marks[n], x) by {
        assert forall k :: 0 <= k < n ==> marks[..n][k] == marks[k];
      }
    }
  }

  method ValidateSite(raw: RawSite, before: nat) returns (r: Option<Site>)
    ensures r.Some? <==> GoodSite(raw) && (raw.endpoints == [] || before + |raw.endpoints| <= MAX_ENDPOINTS)
    ensures r.Some? ==> r.value == SiteOf(raw)
  {
    if raw.matching.scheme !in {"http", "https"} || raw.matching.port < 1 || raw.matching.port > 65535 || !IsRoute(raw.matching.basePath) {
      return None;
    }
    if !GoodHosts(raw.matching.host, raw.allowedHosts) {
      return None;
    }
    var endpoints := ValidateEndpoints(raw.endpoints, before);
    if endpoints.None? {
      return None;
    }
    r := Some(Site(raw.id, raw.asset, Normalized(raw.matching), HostsOf(raw.allowedHosts), raw.credential, endpoints.value));
  }

  // Site by site: well formed, its id and selector not taken before, and room for its endpoints.
  ghost predicate Accepts(raws: seq<RawSite>) {
    raws == [] ||
    var front, last := raws[..|raws| - 1], raws[|raws| - 1];
    && Accepts(front) && !Taken(Marks(front), MarkOf(last))
    && GoodSite(last) && EndpointCount(raws) <= MAX_ENDPOINTS
  }

  ghost function SitesOf(raws: seq<RawSite>): (sites: seq<Site>)
    requires Accepts(raws)
    ensures |sites| == |raws|
  {
    if raws == [] then [] else SitesOf(raws[..|raws| - 1]) + [SiteOf(raws[|raws| - 1])]
  }

  lemma {:induction false} PrefixAccepted(raws: seq<RawSite>, n: nat)
    requires n <= |raws| && Accepts(raws)
    ensures Accepts(raws[..n])
  {
    if n == |raws| {
      assert raws[..n] == raws;
    } else {
      assert raws[..|raws| - 1][..n] == raws[..n];
      PrefixAccepted(raws[..|raws| - 1], n);
    }
  }

  lemma MarksSnoc(raws: seq<RawSite>)
    requires raws != []
    ensures Marks(raws) == Marks(raws[..|raws| - 1]) + [MarkOf(raws[|raws| - 1])]
  {
  }

  /** The list is accepted exactly when every site is well formed and no two share their id or
      their asset and match. */
  lemma {:induction false} AcceptsExactly(raws: seq<RawSite>)
    requires |raws| <= MAX_SITES
    ensures Accepts(raws) <==> GoodSites(raws)
  {
    if raws != [] {
      var front, last := raws[..|raws| - 1], raws[|raws| - 1];
      assert raws == front + [last];
      AcceptsExactly(front);
      MarksSnoc(raws);
      TakenIsClash(Marks(front), MarkOf(last));
      ApartSnoc(Marks(front), MarkOf(last));
      GoodSnoc(front, last);
    }
  }

  lemma {:induction false} SiteAt(raws: seq<RawSite>, i: nat)
    requires Accepts(raws) && i < |raws|
    ensures GoodSite(raws[i]) && SitesOf(raws)[i] == SiteOf(raws[i])
  {
    if i < |raws| - 1 {
      SiteAt(raws[..|raws| - 1], i);
    }
  }

  lemma KeysSnoc(marks: seq<Mark>, m: Mark)
    ensures Ids(marks + [m]) == Ids(marks) + {m.id} && Keys(marks + [m]) == Keys(marks) + {(m.asset, m.matching)}
  {
    assert (marks + [m])[..|marks|] == marks;
  }

  lemma AcceptsNext(raws: seq<RawSite>, i: nat)
    requires i < |raws| && Accepts(raws[..i])
    ensures EndpointCount(raws[..i + 1]) == EndpointCount(raws[..i]) + |raws[i].endpoints|
    ensures Marks(raws[..i + 1]) == Marks(raws[..i]) + [MarkOf(raws[i])]
    ensures Accepts(raws[..i + 1]) <==>
            !Taken(Marks(raws[..i]), MarkOf(raws[i])) && GoodSite(raws[i]) && EndpointCount(raws[..i + 1]) <= MAX_ENDPOINTS
    ensures Accepts(raws[..i + 1]) ==> SitesOf(raws[..i + 1]) == SitesOf(raws[..i]) + [SiteOf(raws[i])]
    ensures Accepts(raws) ==> Accepts(raws[..i + 1])
  {
    assert raws[..i + 1][..i] == raws[..i];
    MarksSnoc(raws[..i + 1]);
    if Accepts(raws) {
      PrefixAccepted(raws, i + 1);
    }
  }

  // The running collections after some sites.
  ghost predicate Collected(raws: seq<RawSite>, sites: seq<Site>, ids: set<string>, selectors: set<(string, Match)>, count: nat) {
    && Accepts(raws) && sites == SitesOf(raws) && count == EndpointCount(raws) <= MAX_ENDPOINTS
    && ids == Ids(Marks(raws)) && selectors == Keys(Marks(raws))
  }

  // One more site is let in.
  ghost predicate Fits(raw: RawSite, ids: set<string>, selectors: set<(string, Match)>, count: nat) {
    && raw.id !in ids && (raw.asset, Normalized(raw.matching)) !in selectors
    && GoodSite(raw) && count + |raw.endpoints| <= MAX_ENDPOINTS
  }

  // The outcome of admitting one site.
  ghost predicate Admitted(raw: RawSite, ids: set<string>, selectors: set<(string, Match)>, count: nat, site: Option<Site>) {
    (site.Some? <==> Fits(raw, ids, selectors, count)) && (site.Some? ==> site.value == SiteOf(raw))
  }

  lemma CollectedNext(raws: seq<RawSite>, i: nat, sites: seq<Site>, ids: set<string>, selectors: set<(string, Match)>, count: nat,
                      site: Option<Site>)
    requires i < |raws| && Collected(raws[..i], sites, ids, selectors, count)
    requires Admitted(raws[i], ids, selectors, count, site)
    ensures site.None? ==> !Accepts(raws)
    ensures site.Some? ==> Collected(raws[..i + 1], sites + [site.value], ids + {raws[i].id},
                                     selectors + {(raws[i].asset, site.value.matching)}, count + |raws[i].endpoints|)
  {
    AcceptsNext(raws, i);
    KeysSnoc(Marks(raws[..i]), MarkOf(raws[i]));
  }

  method AdmitSite(raw: RawSite, ids: set<string>, selectors: set<(string, Match)>, count: nat) returns (r: Option<Site>)
    requires count <= MAX_ENDPOINTS
    ensures Admitted(raw, ids, selectors, count, r)
  {
    if raw.id in ids || (raw.asset, Normalized(raw.matching)) in selectors {
      return None;
    }
    r := ValidateSite(raw, count);
  }

  method ValidateSites(raws: seq<RawSite>) returns (r: Option<seq<Site>>)
    ensures r.Some? <==> |raws| <= MAX_SITES && Accepts(raws)
    ensures r.Some? ==> r.value == SitesOf(raws)
  {
    if |raws| > MAX_SITES {
      return None;
    }
    var sites: seq<Site> := [];
    var ids: set<string>, selectors: set<(string, Match)>, count: nat := {}, {}, 0;
    for i := 0 to |raws|
      invariant Collected(raws[..i], sites, ids, selectors, count)
    {
      var site := AdmitSite(raws[i], ids, selectors, count);
      CollectedNext(raws, i, sites, ids, selectors, count, site);
      if site.None? {
        return None;
      }
      ids := ids + {raws[i].id};
      selectors := selectors + {(raws[i].asset, site.value.matching)};
      count := count + |raws[i].endpoints|;
      sites := sites + [site.value];
    }
    assert raws[..|raws|] == raws;
    r := Some(sites);
  }

  // What validation leaves of a site list.
  ghost predicate Normal(sites: seq<Site>) {
    forall i :: 0 <= i < |sites| ==> NormalBase(sites[i].matching.basePath) && sites[i].matching.host in sites[i].allowedHosts
  }

  ghost predicate SelectorsDiffer(sites: seq<Site>) {
    forall i, j :: 0 <= i < j < |sites| ==> (sites[i].asset, sites[i].matching) != (sites[j].asset, sites[j].matching)
  }

  lemma ValidatedIsNormal(raws: seq<RawSite>)
    requires |raws| <= MAX_SITES && Accepts(raws)
    ensures Normal(SitesOf(raws)) && SelectorsDiffer(SitesOf(raws))
  {
    AcceptsExactly(raws);
    var sites := SitesOf(raws);
    forall i | 0 <= i < |sites|
      ensures NormalBase(sites[i].matching.basePath) && sites[i].matching.host in sites[i].allowedHosts
    {
      SiteAt(raws, i);
      BaseIsNormal(raws[i].matching.basePath);
    }
    forall i, j | 0 <= i < j < |sites|
      ensures (sites[i].asset, sites[i].matching) != (sites[j].asset, sites[j].matching)
    {
      SiteAt(raws, i);
      SiteAt(raws, j);
      assert Apart(Marks(raws)[i], Marks(raws)[j]);
    }
  }

  // ----- Selection -----

  predicate Serves(site: Site, asset: string, t: Target) {
    && site.asset == asset && site.matching.scheme == t.scheme && site.matching.host == t.host && site.matching.port == t.port
    && t.host in site.allowedHosts && Within(site.matching.basePath, t.path)
  }

  function Serving(sites: seq<Site>, asset: string, t: Target): seq<Site> {
    if sites == [] then []
    else
      var before := Serving(sites[..|sites| - 1], asset, t);
      if Serves(sites[|sites| - 1], asset, t) then before + [sites[|sites| - 1]] else before
  }

  // `sort` by decreasing base path length is stable.
  function Inserted(sorted: seq<Site>, x: Site): seq<Site> {
    if sorted == [] || |sorted[|sorted| - 1].matching.basePath| >= |x.matching.basePath| then sorted + [x]
    else Inserted(sorted[..|sorted| - 1], x) + [sorted[|sorted| - 1]]
  }

  function Sorted(sites: seq<Site>): seq<Site> {
    if sites == [] then [] else Inserted(Sorted(sites[..|sites| - 1]), sites[|sites| - 1])
  }

  function ResolverSite(sites: seq<Site>, asset: string, t: Target): Option<Site> {
    var sorted := Sorted(Serving(sites, asset, t));
    if sorted == [] then None else Some(sorted[0])
  }

  predicate Ambiguous(sites: seq<Site>, asset: string, t: Target) {
    var sorted := Sorted(Serving(sites, asset, t));
    |sorted| > 1 && |sorted[0].matching.basePath| == |sorted[1].matching.basePath|
  }

  function RedirectSite(sites: seq<Site>, asset: string, t: Target): Option<Site> {
    var sorted := Sorted(Serving(sites, asset, t));
    if sorted == [] || Ambiguous(sites, asset, t) then None else Some(sorted[0])
  }

  ghost predicate Descending(sites: seq<Site>) {
    forall i, j :: 0 <= i < j < |sites| ==> |sites[i].matching.basePath| >= |sites[j].matching.basePath|
  }

  lemma {:induction false} InsertAdds(sorted: seq<Site>, x: Site)
    ensures multiset(Inserted(sorted, x)) == multiset(sorted) + multiset{x}
  {
    if sorted != [] && |sorted[|sorted| - 1].matching.basePath| < |x.matching.basePath| {
      var front, last := sorted[..|sorted| - 1], sorted[|sorted| - 1];
      InsertAdds(front, x);
      assert sorted == front + [last];
      assert Inserted(sorted, x) == Inserted(front, x) + [last];
    }
  }

  lemma InsertIsLong(sorted: seq<Site>, x: Site, n: nat)
    requires |x.matching.basePath| >= n && forall i :: 0 <= i < |sorted| ==> |sorted[i].matching.basePath| >= n
    ensures forall i :: 0 <= i < |Inserted(sorted, x)| ==> |Inserted(sorted, x)[i].matching.basePath| >= n
  {
    InsertAdds(sorted, x);
    var all := Inserted(sorted, x);
    forall i | 0 <= i < |all|
      ensures |all[i].matching.basePath| >= n
    {
      assert all[i] in multiset(all);
    }
  }

  lemma DescendingSnoc(sorted: seq<Site>, last: Site)
    requires Descending(sorted) && forall i :: 0 <= i < |sorted| ==> |sorted[i].matching.basePath| >= |last.matching.basePath|
    ensures Descending(sorted + [last])
  {
  }

  lemma {:induction false} InsertKeeps(sorted: seq<Site>, x: Site)
    requires Descending(sorted)
    ensures Descending(Inserted(sorted, x))
  {
    if sorted != [] && |sorted[|sorted| - 1].matching.basePath| < |x.matching.basePath| {
      var front, last := sorted[..|sorted| - 1], sorted[|sorted| - 1];
      InsertKeeps(front, x);
      InsertIsLong(front, x, |last.matching.basePath|);
      DescendingSnoc(Inserted(front, x), last);
    }
  }

  lemma {:induction false} SortKeeps(sites: seq<Site>)
    ensures Descending(Sorted(sites)) && multiset(Sorted(sites)) == multiset(sites)
  {
    if sites != [] {
      SortKeeps(sites[..|sites| - 1]);
      InsertKeeps(Sorted(sites[..|sites| - 1]), sites[|sites| - 1]);
      InsertAdds(Sorted(sites[..|sites| - 1]), sites[|sites| - 1]);
      assert sites == sites[..|sites| - 1] + [sites[|sites| - 1]];
    }
  }

  lemma {:induction false} ServingCounts(sites: seq<Site>, asset: string, t: Target, x: Site)
    ensures multiset(Serving(sites, asset, t))[x] == if Serves(x, asset, t) then multiset(sites)[x] else 0
  {
    if sites != [] {
      ServingCounts(sites[..|sites| - 1], asset, t, x);
      assert sites == sites[..|sites| - 1] + [sites[|sites| - 1]];
    }
  }

  ghost predicate Longest(sites: seq<Site>, asset: string, t: Target, x: Site) {
    && x in sites && Serves(x, asset, t)
    && forall y :: y in sites && Serves(y, asset, t) ==> |y.matching.basePath| <= |x.matching.basePath|
  }

  lemma TakesLongestServing(sites: seq<Site>, asset: string, t: Target)
    ensures var r := ResolverSite(sites, asset, t);
            && (r.Some? ==> Longest(sites, asset, t, r.value))
            && (r.None? ==> forall x :: x in sites ==> !Serves(x, asset, t))
  {
    var serving := Serving(sites, asset, t);
    var sorted := Sorted(serving);
    SortKeeps(serving);
    forall x
      ensures x in sorted <==> x in sites && Serves(x, asset, t)
    {
      ServingCounts(sites, asset, t, x);
      assert x in sorted <==> x in multiset(sorted);
      assert x in sites <==> x in multiset(sites);
    }
  }

  // The segments of the base path are the first segments of the path.
  predicate LeadsTo(base: string, path: string) {
    base == "/" || T.Split(base, '/') <= T.Split(path, '/')
  }

  /** A path is within a base path exactly when the segments of the base lead its own. */
  lemma WithinExactly(base: string, path: string)
    ensures Within(base, path) <==> LeadsTo(base, path)
  {
    if base + "/" <= path {
      LongerPath(base, path);
    }
    if T.Split(base, '/') <= T.Split(path, '/') {
      LeadingSegments(base, path);
    }
  }

  lemma LongerPath(base: string, path: string)
    requires base + "/" <= path
    ensures T.Split(base, '/') <= T.Split(path, '/')
  {
    var rest := path[|base| + 1..];
    T.SplitAppend(base, rest, '/');
    assert path == base + ['/'] + rest;
  }

  lemma LeadingSegments(base: string, path: string)
    requires T.Split(base, '/') <= T.Split(path, '/')
    ensures path == base || base + "/" <= path
  {
    var b, p := T.Split(base, '/'), T.Split(path, '/');
    T.JoinSplit(base, '/');
    T.JoinSplit(path, '/');
    if |b| < |p| {
      assert p == b + p[|b|..];
      T.JoinAppend(b, p[|b|..], '/');
    } else {
      assert p == b;
    }
  }

  // The site is the asset's, for this origin and allowed host, and its base path leads to the target.
  ghost predicate Covers(site: Site, asset: string, t: Target) {
    && site.asset == asset
    && site.matching.scheme == t.scheme && site.matching.host == t.host && site.matching.port == t.port
    && (exists k :: 0 <= k < |site.allowedHosts| && site.allowedHosts[k] == t.host)
    && LeadsTo(site.matching.basePath, t.path)
  }

  /** So a site serves a target exactly when it covers it. */
  lemma ServesExactly(site: Site, asset: string, t: Target)
    ensures Serves(site, asset, t) <==> Covers(site, asset, t)
  {
    WithinExactly(site.matching.basePath, t.path);
  }

  /** Whatever the site list, the resolver takes a site that covers the target, with the longest base
      path of those that do, and finds none only when no site does. */
  lemma ResolverTakesLongest(sites: seq<Site>, asset: string, t: Target)
    ensures var r := ResolverSite(sites, asset, t);
            && (r.Some? ==>
                  && r.value in sites && Covers(r.value, asset, t)
                  && forall y :: y in sites && Covers(y, asset, t) ==> |y.matching.basePath| <= |r.value.matching.basePath|)
            && (r.None? ==> forall x :: x in sites ==> !Covers(x, asset, t))
  {
    TakesLongestServing(sites, asset, t);
    forall x | x in sites
      ensures Serves(x, asset, t) <==> Covers(x, asset, t)
    {
      ServesExactly(x, asset, t);
    }
  }

  lemma SameBaseSameSite(a: Site, b: Site, asset: string, t: Target)
    requires NormalBase(a.matching.basePath) && NormalBase(b.matching.basePath)
    requires Serves(a, asset, t) && Serves(b, asset, t) && |a.matching.basePath| == |b.matching.basePath|
    ensures (a.asset, a.matching) == (b.asset, b.matching)
  {
    var p, q, n := a.matching.basePath, b.matching.basePath, |a.matching.basePath|;
    if n == 1 {
      assert p == q == "/";
    } else {
      assert p == t.path[..n] && q == t.path[..n] by {
        assert (p + "/")[..n] == p && (q + "/")[..n] == q;
      }
    }
  }

  lemma CountOne(sites: seq<Site>, x: Site)
    requires SelectorsDiffer(sites)
    ensures multiset(sites)[x] <= 1
  {
    if multiset(sites)[x] > 0 {
      assert x in sites;
      var i :| 0 <= i < |sites| && sites[i] == x;
      assert sites == sites[..i] + [x] + sites[i + 1..];
      assert x !in sites[..i] && x !in sites[i + 1..];
    }
  }

  lemma CountTwo(sorted: seq<Site>)
    requires |sorted| > 1 && sorted[0] == sorted[1]
    ensures multiset(sorted)[sorted[0]] >= 2
  {
    assert sorted == [sorted[0], sorted[1]] + sorted[2..];
  }

  /** In a validated list at most one serving site has the longest base path. */
  lemma OneLongest(sites: seq<Site>, asset: string, t: Target, i: nat, j: nat)
    requires Normal(sites) && SelectorsDiffer(sites) && i < |sites| && j < |sites|
    requires Longest(sites, asset, t, sites[i]) && Longest(sites, asset, t, sites[j])
    ensures i == j
  {
    SameBaseSameSite(sites[i], sites[j], asset, t);
  }

  lemma NeverAmbiguous(sites: seq<Site>, asset: string, t: Target)
    requires Normal(sites) && SelectorsDiffer(sites)
    ensures !Ambiguous(sites, asset, t)
  {
    var serving := Serving(sites, asset, t);
    var sorted := Sorted(serving);
    SortKeeps(serving);
    if Ambiguous(sites, asset, t) {
      var a, b := sorted[0], sorted[1];
      assert a in multiset(sorted) && b in multiset(sorted);
      ServingCounts(sites, asset, t, a);
      ServingCounts(sites, asset, t, b);
      SameBaseSameSite(a, b, asset, t);
      var i :| 0 <= i < |sites| && sites[i] == a;
      var j :| 0 <= j < |sites| && sites[j] == b;
      CountTwo(sorted);
      CountOne(sites, a);
      assert false;
    }
  }

  function CountLong(sites: seq<Site>, n: nat): nat {
    if sites == [] then 0
    else CountLong(sites[..|sites| - 1], n) + (if |sites[|sites| - 1].matching.basePath| >= n then 1 else 0)
  }

  lemma {:induction false} LongInserted(sorted: seq<Site>, x: Site, n: nat)
    ensures CountLong(Inserted(sorted, x), n) == CountLong(sorted + [x], n)
  {
    var front := sorted[..|sorted| - (if sorted == [] then 0 else 1)];
    assert (sorted + [x])[..|sorted|] == sorted;
    if sorted != [] && |sorted[|sorted| - 1].matching.basePath| < |x.matching.basePath| {
      LongInserted(front, x, n);
      assert (front + [x])[..|front|] == front;
      assert Inserted(sorted, x)[..|Inserted(sorted, x)| - 1] == Inserted(front, x);
    }
  }

  lemma {:induction false} LongSorted(sites: seq<Site>, n: nat)
    ensures CountLong(Sorted(sites), n) == CountLong(sites, n)
  {
    if sites != [] {
      var front, x := sites[..|sites| - 1], sites[|sites| - 1];
      LongSorted(front, n);
      LongInserted(Sorted(front), x, n);
      assert (Sorted(front) + [x])[..|Sorted(front)|] == Sorted(front);
    }
  }

  lemma {:induction false} LongServing(sites: seq<Site>, asset: string, t: Target, i: nat, n: nat)
    requires i < |sites| && Serves(sites[i], asset, t) && |sites[i].matching.basePath| >= n
    ensures CountLong(Serving(sites, asset, t), n) >= 1
  {
    var k := |sites| - 1;
    var s := Serving(sites, asset, t);
    if i < k {
      LongServing(sites[..k], asset, t, i, n);
    }
    assert Serves(sites[k], asset, t) ==> s[..|s| - 1] == Serving(sites[..k], asset, t);
  }

  lemma {:induction false} TwoLongServing(sites: seq<Site>, asset: string, t: Target, i: nat, j: nat, n: nat)
    requires i < j < |sites| && Serves(sites[i], asset, t) && Serves(sites[j], asset, t)
    requires |sites[i].matching.basePath| >= n && |sites[j].matching.basePath| >= n
    ensures CountLong(Serving(sites, asset, t), n) >= 2
  {
    var k := |sites| - 1;
    var s := Serving(sites, asset, t);
    if j < k {
      TwoLongServing(sites[..k], asset, t, i, j, n);
    } else {
      LongServing(sites[..k], asset, t, i, n);
    }
    assert Serves(sites[k], asset, t) ==> s[..|s| - 1] == Serving(sites[..k], asset, t);
  }

  lemma {:induction false} LongComeFirst(s: seq<Site>, n: nat)
    requires Descending(s)
    ensures CountLong(s, n) <= |s| && forall k :: 0 <= k < CountLong(s, n) ==> |s[k].matching.basePath| >= n
  {
    if s != [] {
      LongComeFirst(s[..|s| - 1], n);
    }
  }

  /** Two sites with one selector do tie, on the target made of that selector. */
  lemma SharedSelectorTies(sites: seq<Site>, i: nat, j: nat)
    requires Normal(sites) && i < j < |sites| && (sites[i].asset, sites[i].matching) == (sites[j].asset, sites[j].matching)
    ensures var m := sites[i].matching; Ambiguous(sites, sites[i].asset, Target(m.scheme, m.host, m.port, m.basePath))
  {
    var m, asset := sites[i].matching, sites[i].asset;
    var t, n := Target(m.scheme, m.host, m.port, m.basePath), |m.basePath|;
    var serving := Serving(sites, asset, t);
    var sorted := Sorted(serving);
    SortKeeps(serving);
    TwoLongServing(sites, asset, t, i, j, n);
    LongSorted(serving, n);
    LongComeFirst(sorted, n);
    forall k | 0 <= k < 2
      ensures |sorted[k].matching.basePath| == n
    {
      assert sorted[k] in multiset(sorted);
      ServingCounts(sites, asset, t, sorted[k]);
    }
  }

  /** The redirect selector is free of ambiguity on every target exactly when no two sites share
      their asset and match, which is what validation demands. */
  lemma UnambiguousExactly(sites: seq<Site>)
    requires Normal(sites)
    ensures SelectorsDiffer(sites) <==> forall asset, t :: !Ambiguous(sites, asset, t)
  {
    if SelectorsDiffer(sites) {
      forall asset, t
        ensures !Ambiguous(sites, asset, t)
      {
        NeverAmbiguous(sites, asset, t);
      }
    } else {
      var i, j :| 0 <= i < j < |sites| && (sites[i].asset, sites[i].matching) == (sites[j].asset, sites[j].matching);
      SharedSelectorTies(sites, i, j);
    }
  }

  /** On one target of a validated candidate the redirect selector picks the resolver's site. */
  lemma SameTargetAgrees(raws: seq<RawSite>, asset: string, t: Target)
    requires |raws| <= MAX_SITES && Accepts(raws)
    ensures RedirectSite(SitesOf(raws), asset, t) == ResolverSite(SitesOf(raws), asset, t)
  {
    ValidatedIsNormal(raws);
    NeverAmbiguous(SitesOf(raws), asset, t);
  }

  function ResolverTarget(u: Url): Target {
    Target(u.scheme, H.ResolverHost(u.host), u.port, u.path)
  }

  function RedirectTarget(u: Url): Target {
    Target(u.scheme, H.RedirectHost(u.host), u.port, u.path)
  }

  // Some site serves the target.
  ghost predicate Served(sites: seq<Site>, asset: string, t: Target) {
    exists x :: x in sites && Serves(x, asset, t)
  }

  lemma BracketsAreNotServed(raws: seq<RawSite>, asset: string, t: Target)
    requires Accepts(raws) && '[' in t.host
    ensures !Served(SitesOf(raws), asset, t)
  {
    var sites := SitesOf(raws);
    forall i | 0 <= i < |sites|
      ensures !Serves(sites[i], asset, t)
    {
      SiteAt(raws, i);
      H.SiteHostChars(raws[i].matching.host);
    }
  }

  /** For one URL the two selectors pick the same site of a validated candidate if and only if its
      host is no IPv6 literal or no site serves it under the redirect selector's reading: on a
      served literal the resolver, which keeps the brackets, finds nothing. */
  lemma RedirectAgreesExactly(raws: seq<RawSite>, asset: string, u: Url)
    requires |raws| <= MAX_SITES && Accepts(raws)
    ensures ResolverSite(SitesOf(raws), asset, ResolverTarget(u)) == RedirectSite(SitesOf(raws), asset, RedirectTarget(u))
       <==> u.host.Name? || !Served(SitesOf(raws), asset, RedirectTarget(u))
  {
    var sites := SitesOf(raws);
    SameTargetAgrees(raws, asset, RedirectTarget(u));
    if u.host.V6? {
      assert H.ResolverHost(u.host)[0] == '[';
      BracketsAreNotServed(raws, asset, ResolverTarget(u));
      TakesLongestServing(sites, asset, ResolverTarget(u));
      TakesLongestServing(sites, asset, RedirectTarget(u));
    }
  }

  lemma RootIsRoute()
    ensures IsRoute("/") && BasePath("/") == "/"
  {
    assert T.IndexOf("/", '/') == 0;
    assert "/"[..0] == "" && "/"[1..] == "";
    assert T.Split("/", '/') == [""] + T.Split("", '/') == ["", ""];
  }

  function RootSite(host: string): RawSite {
    RawSite("site", "asset", Match("http", host, 80, "/"), [host], NoCredential, [])
  }

  lemma RootSiteIsGood(host: string)
    requires H.SiteHost(host) == Some(host)
    ensures GoodSite(RootSite(host)) && SiteOf(RootSite(host)).matching == Match("http", host, 80, "/")
    ensures SiteOf(RootSite(host)).asset == "asset" && SiteOf(RootSite(host)).allowedHosts == [host]
  {
    RootIsRoute();
    assert HostsOf([host]) == [host];
  }

  lemma OneIsAccepted(raw: RawSite)
    requires GoodSite(raw) && raw.endpoints == []
    ensures Accepts([raw]) && SitesOf([raw]) == [SiteOf(raw)]
  {
    assert [raw][..0] == [] && [raw][..1] == [raw];
    AcceptsNext([raw], 0);
  }

  lemma OneIsSelected(site: Site, asset: string, t: Target)
    requires Serves(site, asset, t)
    ensures RedirectSite([site], asset, t) == Some(site)
  {
    assert [site][..0] == [];
    assert Serving([site], asset, t) == [site];
    assert Sorted([site]) == [site];
  }

  /** There is such a site for every IPv6 literal, `[::1]` among them. */
  lemma EveryLiteralCanBeMissed(value: nat) returns (raws: seq<RawSite>)
    requires value < T.MAX_V6
    ensures |raws| == 1 && Accepts(raws)
    ensures var u := Url("http", H.V6(value), 80, "/");
            && ResolverSite(SitesOf(raws), "asset", ResolverTarget(u)) == None
            && RedirectSite(SitesOf(raws), "asset", RedirectTarget(u)) == Some(SitesOf(raws)[0])
  {
    var host, u := H.RedirectHost(H.V6(value)), Url("http", H.V6(value), 80, "/");
    H.ReadingIsSiteHost(value);
    RootSiteIsGood(host);
    OneIsAccepted(RootSite(host));
    raws := [RootSite(host)];
    OneIsSelected(SiteOf(RootSite(host)), "asset", RedirectTarget(u));
    assert H.ResolverHost(u.host)[0] == '[';
    BracketsAreNotServed(raws, "asset", ResolverTarget(u));
    TakesLongestServing(SitesOf(raws), "asset", ResolverTarget(u));
  }

  /** The order in which a validated candidate lists its sites does not matter. */
  lemma OrderIsIrrelevant(sites: seq<Site>, other: seq<Site>, asset: string, t: Target)
    requires Normal(sites) && SelectorsDiffer(sites) && multiset(other) == multiset(sites)
    ensures ResolverSite(other, asset, t) == ResolverSite(sites, asset, t)
  {
    forall x
      ensures x in other <==> x in sites
    {
      assert x in other <==> x in multiset(other);
      assert x in sites <==> x in multiset(sites);
    }
    TakesLongestServing(sites, asset, t);
    TakesLongestServing(other, asset, t);
    var r, q := ResolverSite(sites, asset, t), ResolverSite(other, asset, t);
    if r.Some? && q.Some? {
      var i :| 0 <= i < |sites| && sites[i] == r.value;
      var j :| 0 <= j < |sites| && sites[j] == q.value;
      OneLongest(sites, asset, t, i, j);
    }
  }

  // ----- The endpoint of a site -----

  function Find(endpoints: seq<Endpoint>, selector: Selector): Option<Choice> {
    if endpoints == [] then None
    else if endpoints[0].selector == selector then Some(endpoints[0].credential)
    else Find(endpoints[1..], selector)
  }

  datatype SelectionError = SelectorAmbiguous | InvalidInput | PolicyUnresolved

  // `safe` tells that the path passed the resolver's own character checks.
  function SelectionFor(site: Site, id: Option<string>, verb: Option<string>, path: Option<string>, safe: bool)
    : Result<Choice, SelectionError>
  {
    if (id.Some? && (verb.Some? || path.Some?)) || verb.Some? != path.Some? then Err(SelectorAmbiguous)
    else if verb.Some? && (Upper(verb.value) !in VERBS || !safe) then Err(InvalidInput)
    else
      var found :=
        if id.Some? then Find(site.endpoints, ById(id.value))
        else if verb.Some? then Find(site.endpoints, ByRoute(Upper(verb.value), path.value))
        else None;
      var selected := if found.None? || found == Some(Inherit) then site.credential else found.value;
      if selected.Inherit? then Err(PolicyUnresolved) else Ok(selected)
  }

  lemma {:induction false} FindsTheOnly(endpoints: seq<Endpoint>, i: nat)
    requires i < |endpoints|
    requires forall k, l :: 0 <= k < l < |endpoints| ==> endpoints[k].selector != endpoints[l].selector
    ensures Find(endpoints, endpoints[i].selector) == Some(endpoints[i].credential)
  {
    if i > 0 {
      FindsTheOnly(endpoints[1..], i - 1);
    }
  }

  lemma FindsItsOwn(raws: seq<RawEndpoint>, i: nat)
    requires GoodEndpoints(raws) && i < |raws|
    ensures var e := EndpointsOf(raws)[i]; Find(EndpointsOf(raws), e.selector) == Some(e.credential)
  {
    FindsTheOnly(EndpointsOf(raws), i);
  }

  lemma RouteIsAccepted(raw: RawEndpoint)
    requires EndpointOf(raw).Some? && EndpointOf(raw).value.selector.ByRoute?
    ensures var verb := EndpointOf(raw).value.selector.verb; Upper(verb) == verb && verb in VERBS
  {
    UpperTwice(raw.verb.value);
  }

  // The credential that an endpoint's own leads to.
  function Effective(site: Site, own: Choice): Result<Choice, SelectionError> {
    if !own.Inherit? then Ok(own)
    else if !site.credential.Inherit? then Ok(site.credential)
    else Err(PolicyUnresolved)
  }

  // The request that names the endpoint by its own selector.
  function SelectionBy(site: Site, s: Selector, safe: bool): Result<Choice, SelectionError> {
    match s
    case ById(id) => SelectionFor(site, Some(id), None, None, safe)
    case ByRoute(verb, path) => SelectionFor(site, None, Some(verb), Some(path), true)
  }

  lemma FoundIsSelected(site: Site, e: Endpoint, safe: bool)
    requires Find(site.endpoints, e.selector) == Some(e.credential)
    requires e.selector.ByRoute? ==> Upper(e.selector.verb) == e.selector.verb && e.selector.verb in VERBS
    ensures SelectionBy(site, e.selector, safe) == Effective(site, e.credential)
  {
  }

  /** Each endpoint of a validated site is reached by its own selector, and its credential is the
      one selected unless it inherits the site's. */
  lemma EndpointIsReached(raw: RawSite, i: nat, safe: bool)
    requires GoodSite(raw) && i < |raw.endpoints|
    ensures var site := SiteOf(raw); var e := site.endpoints[i];
            SelectionBy(site, e.selector, safe) == Effective(site, e.credential)
  {
    var site := SiteOf(raw);
    FindsItsOwn(raw.endpoints, i);
    if site.endpoints[i].selector.ByRoute? {
      RouteIsAccepted(raw.endpoints[i]);
    }
    FoundIsSelected(site, site.endpoints[i], safe);
  }

  lemma UpperTwice(s: string)
    ensures Upper(Upper(s)) == Upper(s)
  {
  }
}
