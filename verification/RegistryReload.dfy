/**
 What a reload does, step by step and over whole runs: what ends it and with which error, and that
 one that nothing disturbs activates its candidate.
 */
module RegistryReload {
  import opened Common
  import opened CredentialRegistry
  import HP = HeaderPolicy
  import HL = HeaderLedger

  // ----- What a candidate's policies are -----

  // An endpoint has a policy of its own as soon as it or its site states one.
  predicate HasPolicy(site: Site, e: Endpoint) {
    site.policy.Some? || e.policy.Some?
  }

  ghost predicate EndpointPasses(site: Site, e: Endpoint, cred: set<string>, hist: set<string>) {
    HasPolicy(site, e) ==> HP.Accepts(e.policy, site.policy, cred, hist)
  }

  ghost predicate SitePasses(site: Site, cred: set<string>, hist: set<string>) {
    && (site.policy.Some? ==> HP.Accepts(site.policy, None, cred, hist))
    && FirstPass(site, |site.endpoints|, cred, hist)
  }

  // Every one of the first n endpoints passes.
  ghost predicate FirstPass(site: Site, n: nat, cred: set<string>, hist: set<string>)
    requires n <= |site.endpoints|
  {
    n == 0 || (FirstPass(site, n - 1, cred, hist) && EndpointPasses(site, site.endpoints[n - 1], cred, hist))
  }

  lemma EndpointExactly(site: Site, e: Endpoint, m: Policies, cred: set<string>, hist: set<string>)
    ensures CompileEndpoint(site, e, m, cred, hist).Some? <==> EndpointPasses(site, e, cred, hist)
  {
  }

  lemma {:induction false} EndpointsExactly(site: Site, n: nat, m: Policies, cred: set<string>, hist: set<string>)
    requires n <= |site.endpoints|
    ensures CompileEndpoints(site, n, m, cred, hist).Some? <==> FirstPass(site, n, cred, hist)
  {
    if n > 0 {
      EndpointsExactly(site, n - 1, m, cred, hist);
      var before := CompileEndpoints(site, n - 1, m, cred, hist);
      if before.Some? {
        EndpointExactly(site, site.endpoints[n - 1], before.value, cred, hist);
      }
    }
  }

  // Every site passes.
  ghost predicate AllPass(sites: seq<Site>, cred: set<string>, hist: set<string>) {
    sites == [] || (AllPass(sites[..|sites| - 1], cred, hist) && SitePasses(sites[|sites| - 1], cred, hist))
  }

  lemma SiteExactly(site: Site, m: Policies, cred: set<string>, hist: set<string>)
    ensures CompileSite(site, m, cred, hist).Some? <==> SitePasses(site, cred, hist)
  {
    EndpointsExactly(site, |site.endpoints|, m, cred, hist);
    if site.policy.Some? {
      EndpointsExactly(site, |site.endpoints|, m[Key(site.id, None) := HP.Combined(site.policy, None)], cred, hist);
    }
  }

  /** A candidate compiles if and only if the policy of every site, and of every endpoint that has
      one or inherits one, is acceptable. */
  lemma {:induction false} CandidateExactly(sites: seq<Site>, cred: set<string>, hist: set<string>)
    ensures CompileAll(sites, cred, hist).Some? <==> AllPass(sites, cred, hist)
  {
    if sites != [] {
      var front := sites[..|sites| - 1];
      CandidateExactly(front, cred, hist);
      var before := CompileAll(front, cred, hist);
      if before.Some? {
        SiteExactly(sites[|sites| - 1], before.value, cred, hist);
      }
    }
  }

  function At(m: Option<Policies>, k: Key): Option<HP.Compiled> {
    if m.Some? && k in m.value then Some(m.value[k]) else None
  }

  function EndpointKey(site: Site, j: nat): Key
    requires j < |site.endpoints|
  {
    Key(site.id, Some(site.endpoints[j].selector))
  }

  lemma {:induction false} EndpointsElsewhere(site: Site, n: nat, m: Policies, cred: set<string>, hist: set<string>, k: Key)
    requires n <= |site.endpoints| && CompileEndpoints(site, n, m, cred, hist).Some?
    requires forall j :: 0 <= j < n ==> EndpointKey(site, j) != k
    ensures At(CompileEndpoints(site, n, m, cred, hist), k) == At(Some(m), k)
  {
    if n > 0 {
      assert EndpointKey(site, n - 1) != k;
      EndpointsElsewhere(site, n - 1, m, cred, hist, k);
    }
  }

  ghost predicate SelectorsDiffer(site: Site) {
    forall i, j :: 0 <= i < j < |site.endpoints| ==> site.endpoints[i].selector != site.endpoints[j].selector
  }

  lemma {:induction false} EndpointsHere(site: Site, n: nat, m: Policies, cred: set<string>, hist: set<string>, j: nat)
    requires j < n <= |site.endpoints| && SelectorsDiffer(site) && CompileEndpoints(site, n, m, cred, hist).Some?
    requires EndpointKey(site, j) !in m
    ensures At(CompileEndpoints(site, n, m, cred, hist), EndpointKey(site, j)) == Stated(site, site.endpoints[j])
  {
    if j < n - 1 {
      EndpointsHere(site, n - 1, m, cred, hist, j);
    } else {
      EndpointsElsewhere(site, n - 1, m, cred, hist, EndpointKey(site, j));
    }
  }

  // The policy of an endpoint: its own lists, each replaced by the site's where it states none.
  function Stated(site: Site, e: Endpoint): Option<HP.Compiled> {
    if HasPolicy(site, e) then Some(HP.Combined(e.policy, site.policy)) else None
  }

  function StatedForSite(site: Site): Option<HP.Compiled> {
    if site.policy.Some? then Some(HP.Combined(site.policy, None)) else None
  }

  lemma SiteElsewhere(site: Site, m: Policies, cred: set<string>, hist: set<string>, k: Key)
    requires CompileSite(site, m, cred, hist).Some? && k.site != site.id
    ensures At(CompileSite(site, m, cred, hist), k) == At(Some(m), k)
  {
    var c := Unit(site.policy, None, cred, hist);
    if site.policy.None? {
      EndpointsElsewhere(site, |site.endpoints|, m, cred, hist, k);
    } else {
      EndpointsElsewhere(site, |site.endpoints|, m[Key(site.id, None) := c.value], cred, hist, k);
    }
  }

  ghost predicate Serves(site: Site, m: Option<Policies>) {
    && At(m, Key(site.id, None)) == StatedForSite(site)
    && forall j :: 0 <= j < |site.endpoints| ==> At(m, EndpointKey(site, j)) == Stated(site, site.endpoints[j])
  }

  lemma SiteHere(site: Site, m: Policies, cred: set<string>, hist: set<string>)
    requires CompileSite(site, m, cred, hist).Some? && SelectorsDiffer(site) && forall k :: k in m ==> k.site != site.id
    ensures Serves(site, CompileSite(site, m, cred, hist))
  {
    var c := Unit(site.policy, None, cred, hist);
    var start := if site.policy.None? then m else m[Key(site.id, None) := c.value];
    EndpointsElsewhere(site, |site.endpoints|, start, cred, hist, Key(site.id, None));
    forall j | 0 <= j < |site.endpoints|
      ensures At(CompileSite(site, m, cred, hist), EndpointKey(site, j)) == Stated(site, site.endpoints[j])
    {
      EndpointsHere(site, |site.endpoints|, start, cred, hist, j);
    }
  }

  ghost predicate SitesDiffer(sites: seq<Site>) {
    && (forall i :: 0 <= i < |sites| ==> SelectorsDiffer(sites[i]))
    && forall i, j :: 0 <= i < j < |sites| ==> sites[i].id != sites[j].id
  }

  lemma FrontDiffers(sites: seq<Site>)
    requires SitesDiffer(sites) && sites != []
    ensures SitesDiffer(sites[..|sites| - 1])
    ensures forall i :: 0 <= i < |sites| - 1 ==> sites[i].id != sites[|sites| - 1].id
  {
  }

  lemma {:induction false} OnlyListedSites(sites: seq<Site>, cred: set<string>, hist: set<string>, k: Key)
    requires CompileAll(sites, cred, hist).Some? && forall i :: 0 <= i < |sites| ==> sites[i].id != k.site
    ensures At(CompileAll(sites, cred, hist), k) == None
  {
    if sites != [] {
      var front, last := sites[..|sites| - 1], sites[|sites| - 1];
      OnlyListedSites(front, cred, hist, k);
      SiteElsewhere(last, CompileAll(front, cred, hist).value, cred, hist, k);
    }
  }

  /** A candidate that compiles serves, for each site and for each of its endpoints, exactly the
      policy stated there. */
  lemma {:induction false} CandidateServes(sites: seq<Site>, cred: set<string>, hist: set<string>, i: nat)
    requires CompileAll(sites, cred, hist).Some? && SitesDiffer(sites) && i < |sites|
    ensures Serves(sites[i], CompileAll(sites, cred, hist))
  {
    var front, last := sites[..|sites| - 1], sites[|sites| - 1];
    var m := CompileAll(front, cred, hist).value;
    if i < |front| {
      CandidateServes(front, cred, hist, i);
      SiteElsewhere(last, m, cred, hist, Key(sites[i].id, None));
      forall j | 0 <= j < |sites[i].endpoints|
        ensures At(CompileAll(sites, cred, hist), EndpointKey(sites[i], j)) == Stated(sites[i], sites[i].endpoints[j])
      {
        SiteElsewhere(last, m, cred, hist, EndpointKey(sites[i], j));
      }
    } else {
      forall k | k in m
        ensures k.site != last.id
      {
        if k.site == last.id {
          OnlyListedSites(front, cred, hist, k);
        }
      }
      SiteHere(last, m, cred, hist);
    }
  }

  /** In every run the active snapshot serves for an endpoint the policy stated for it, or else its
      site's; and for the site itself, or an endpoint it does not list, the site's. */
  lemma ServedExactly(s: System, es: seq<Event>, r: nat, i: nat, endpoint: Option<string>)
    requires IsRun(s, es) && r < |After(s, es).regs| && After(s, es).regs[r].core.active.Some?
    requires SitesDiffer(After(s, es).regs[r].core.active.value.candidate.sites)
    requires i < |After(s, es).regs[r].core.active.value.candidate.sites|
    ensures var active := After(s, es).regs[r].core.active.value; var site := active.candidate.sites[i];
            && (forall j :: 0 <= j < |site.endpoints| && endpoint == Some(site.endpoints[j].selector) ==>
                  Registry.GetHeaderPolicy(active, site.id, endpoint) ==
                  if HasPolicy(site, site.endpoints[j]) then Some(HP.Combined(site.endpoints[j].policy, site.policy)) else None)
            && ((forall j :: 0 <= j < |site.endpoints| ==> endpoint != Some(site.endpoints[j].selector)) ==>
                  Registry.GetHeaderPolicy(active, site.id, endpoint) ==
                  if site.policy.Some? then Some(HP.Combined(site.policy, None)) else None)
  {
    EveryRun(s, es);
    var g := After(s, es).regs[r];
    assert RegInv(g, After(s, es).row);
    var active := g.core.active.value;
    var sites, cred, hist := active.candidate.sites, active.candidate.credentialNames, active.historical;
    CandidateServes(sites, cred, hist, i);
    forall j | 0 <= j < |sites[i].endpoints|
      ensures At(Some(active.policies), EndpointKey(sites[i], j)) == Stated(sites[i], sites[i].endpoints[j])
    {
    }
    if endpoint.Some? && forall j :: 0 <= j < |sites[i].endpoints| ==> endpoint != Some(sites[i].endpoints[j].selector) {
      Unlisted(sites, cred, hist, i, endpoint);
    }
  }

  // Nothing is kept for an endpoint that its site does not list.
  lemma {:induction false} Unlisted(sites: seq<Site>, cred: set<string>, hist: set<string>, i: nat, endpoint: Option<string>)
    requires CompileAll(sites, cred, hist).Some? && SitesDiffer(sites) && i < |sites| && endpoint.Some?
    requires forall j :: 0 <= j < |sites[i].endpoints| ==> endpoint != Some(sites[i].endpoints[j].selector)
    ensures At(CompileAll(sites, cred, hist), Key(sites[i].id, endpoint)) == None
  {
    var front, last, k := sites[..|sites| - 1], sites[|sites| - 1], Key(sites[i].id, endpoint);
    var m := CompileAll(front, cred, hist).value;
    FrontDiffers(sites);
    if i < |front| {
      Unlisted(front, cred, hist, i, endpoint);
      SiteElsewhere(last, m, cred, hist, k);
    } else {
      OnlyListedSites(front, cred, hist, k);
      SiteUnlisted(last, m, cred, hist, endpoint);
    }
  }

  lemma SiteUnlisted(site: Site, m: Policies, cred: set<string>, hist: set<string>, endpoint: Option<string>)
    requires CompileSite(site, m, cred, hist).Some? && endpoint.Some? && Key(site.id, endpoint) !in m
    requires forall j :: 0 <= j < |site.endpoints| ==> endpoint != Some(site.endpoints[j].selector)
    ensures At(CompileSite(site, m, cred, hist), Key(site.id, endpoint)) == None
  {
    var c := Unit(site.policy, None, cred, hist);
    if site.policy.None? {
      EndpointsElsewhere(site, |site.endpoints|, m, cred, hist, Key(site.id, endpoint));
    } else {
      EndpointsElsewhere(site, |site.endpoints|, m[Key(site.id, None) := c.value], cred, hist, Key(site.id, endpoint));
    }
  }

  // ----- What ends a reload -----

  // The reload ended with this error and left everything else alone.
  predicate Fails(g: Reg, h: Reg, e: Error) {
    h == Reg(g.core.(reloading := false, lastError := Some(e)), Idle, g.tries)
  }

  // The captured provider generation, if there is one, is no longer live.
  predicate Gone(live: set<nat>, capture: Option<nat>) {
    capture.Some? && capture.value !in live
  }

  // How an attempt starts: the capture, the environment and the revision are checked in this order.
  predicate Attempts(g: Reg, h: Reg, c: Candidate, attempt: nat, capture: Option<nat>, live: set<nat>) {
    if Gone(live, capture) then Fails(g, h, SecretResolutionFailed)
    else if c.environment != g.core.environment then Fails(g, h, EnvironmentMismatch)
    else if g.core.active.Some? && g.core.active.value.candidate.revision == c.revision then Fails(g, h, RevisionAlreadyActive)
    else h == g.(phase := Preparing(c, attempt, capture))
  }

  ghost function Next(s: System, es: seq<Event>, e: Event, r: nat): Reg
    requires IsRun(s, es) && Enabled(After(s, es), e) && Touches(e, r) && r < |After(s, es).regs|
  {
    OwnStepOnly(After(s, es), e, r);
    Apply(After(s, es), e).regs[r]
  }

  /** A reload is refused, changing nothing, while another runs; else it begins with its capture, or
      fails with it. */
  lemma BegunExactly(s: System, es: seq<Event>, r: nat, capture: Result<Option<nat>, ()>)
    requires IsRun(s, es) && Enabled(After(s, es), Begin(r, capture))
    ensures var g, h := After(s, es).regs[r], Next(s, es, Begin(r, capture), r);
            if g.core.reloading then h == g
            else if capture.Err? then Fails(g, h, SecretResolutionFailed)
            else h == Reg(g.core.(reloading := true), Loading(capture.value), 0)
  {
  }

  /** A loaded candidate is taken up if and only if the captured generation is live, the environment
      is the registry's, and no snapshot of that revision is active; each failing guard, the first of
      them, gives its error. */
  lemma LoadedExactly(s: System, es: seq<Event>, r: nat, loaded: Result<Candidate, Error>)
    requires IsRun(s, es) && Enabled(After(s, es), CandidateLoaded(r, loaded))
    ensures var g, h := After(s, es).regs[r], Next(s, es, CandidateLoaded(r, loaded), r);
            if loaded.Err? then Fails(g, h, loaded.error)
            else Attempts(g, h, loaded.value, 0, g.phase.capture, After(s, es).live)
  {
  }

  // The names a candidate is compiled against: the ledger's, the registry's and its own.
  function Retired(c: Core, row: Option<HL.Row>, candidate: Candidate): set<string> {
    (if c.durable then HL.NamesOf(row) else {}) + c.historical + candidate.credentialNames
  }

  ghost predicate Compiles(candidate: Candidate, hist: set<string>) {
    AllPass(candidate.sites, candidate.credentialNames, hist)
  }

  // The candidate went on to its checks, compiled against these names at this revision of the ledger.
  ghost predicate Drafts(g: Reg, h: Reg, c: Candidate, hist: set<string>, version: nat)
    requires g.phase.Preparing?
  {
    && h.phase.Checking? && h == g.(phase := Checking(c, g.phase.attempt, g.phase.capture, version, h.phase.draft))
    && h.phase.draft.historical == hist && CompileAll(c.sites, c.credentialNames, hist) == Some(h.phase.draft.policies)
  }

  /** A candidate is compiled against the union of the names retired so far and its own; that fails
      if the ledger cannot be read, the union exceeds the limit, or a policy is not acceptable. */
  lemma PreparedExactly(s: System, es: seq<Event>, r: nat, ok: bool)
    requires IsRun(s, es) && Enabled(After(s, es), HistoryLoaded(r, ok))
    ensures var t := After(s, es); var g, h := t.regs[r], Next(s, es, HistoryLoaded(r, ok), r);
            var c := g.phase.candidate; var hist := Retired(g.core, t.row, c);
            if (g.core.durable && !ok) || |hist| > HL.MAX_NAMES then Fails(g, h, HistoryUnavailable)
            else if !Compiles(c, hist) then Fails(g, h, CandidateRejected)
            else Drafts(g, h, c, hist, if g.core.durable then HL.Revision(t.row) else 0)
  {
    var t, e := After(s, es), HistoryLoaded(r, ok);
    OwnStepOnly(t, e, r);
    PreparedStep(t.regs[r], e, t.row, t.live);
  }

  lemma PreparedStep(g: Reg, e: Event, row: Option<HL.Row>, live: set<nat>)
    requires e.HistoryLoaded? && g.phase.Preparing?
    ensures var h, c := RegStep(g, e, row, live), g.phase.candidate; var hist := Retired(g.core, row, c);
            if (g.core.durable && !e.ok) || |hist| > HL.MAX_NAMES then Fails(g, h, HistoryUnavailable)
            else if !Compiles(c, hist) then Fails(g, h, CandidateRejected)
            else Drafts(g, h, c, hist, if g.core.durable then HL.Revision(row) else 0)
  {
    var c := g.phase.candidate;
    CandidateExactly(c.sites, c.credentialNames, Retired(g.core, row, c));
  }

  function Draws(g: Reg): Snapshot
    requires g.phase.Checking?
  {
    var p := g.phase;
    Snapshot(if g.core.active.Some? then g.core.active.value.generation + 1 else 1, p.candidate, p.draft.historical, p.draft.policies)
  }

  // The snapshot is active, one generation up, with its names as the history.
  predicate Activates(g: Reg, h: Reg, s: Snapshot) {
    h == Reg(g.core.(active := Some(s), historical := s.historical, reloading := false, lastError := None), Idle, g.tries)
  }

  /** After the secret and ownership checks a reload goes to its commit, or activates if there is no
      ledger, unless a check failed, the captured generation is gone or the watcher was stopped. */
  lemma CheckedExactly(s: System, es: seq<Event>, r: nat, fault: Option<Error>, allowed: bool)
    requires IsRun(s, es) && Enabled(After(s, es), ChecksDone(r, fault, allowed))
    ensures var t := After(s, es); var g, h := t.regs[r], Next(s, es, ChecksDone(r, fault, allowed), r); var p := g.phase;
            if fault.Some? then Fails(g, h, fault.value)
            else if Gone(t.live, p.capture) then Fails(g, h, SecretResolutionFailed)
            else if !allowed then Fails(g, h, WatchStopped)
            else if g.core.durable then h == Reg(g.core, Committing(p.attempt, p.capture, p.version, Draws(g)), g.tries + 1)
            else Activates(g, h, Draws(g))
  {
    var t, e := After(s, es), ChecksDone(r, fault, allowed);
    OwnStepOnly(t, e, r);
    CheckedStep(t.regs[r], e, t.row, t.live);
  }

  lemma CheckedStep(g: Reg, e: Event, row: Option<HL.Row>, live: set<nat>)
    requires e.ChecksDone? && g.phase.Checking?
    ensures var h, p := RegStep(g, e, row, live), g.phase;
            if e.fault.Some? then Fails(g, h, e.fault.value)
            else if Gone(live, p.capture) then Fails(g, h, SecretResolutionFailed)
            else if !e.allowed then Fails(g, h, WatchStopped)
            else if g.core.durable then h == Reg(g.core, Committing(p.attempt, p.capture, p.version, Draws(g)), g.tries + 1)
            else Activates(g, h, Draws(g))
  {
  }

  /** The commit's read goes on only at the revision the candidate was compiled at; another revision
      is a conflict, and a failed read or an exhausted revision number ends the reload. */
  lemma ReadExactly(s: System, es: seq<Event>, r: nat, ok: bool)
    requires IsRun(s, es) && Enabled(After(s, es), CommitRead(r, ok))
    ensures var t := After(s, es); var g, h := t.regs[r], Next(s, es, CommitRead(r, ok), r); var p := g.phase;
            if !ok || p.version >= HL.MAX_REVISION then Fails(g, h, HistoryUnavailable)
            else if HL.Revision(t.row) == p.version then h == g.(phase := Holding(p.attempt, p.capture, p.version, p.snapshot, t.row))
            else h == g.(phase := Answered(p.attempt, p.capture, p.snapshot, false))
  {
  }

  /** Its write succeeds if and only if the row is still the one it read, and nothing is committed
      otherwise. */
  lemma WrittenExactly(s: System, es: seq<Event>, r: nat, ok: bool)
    requires IsRun(s, es) && Enabled(After(s, es), CommitWrite(r, ok))
    ensures var t := After(s, es); var g, h := t.regs[r], Next(s, es, CommitWrite(r, ok), r); var p := g.phase;
            var size := |HL.NamesOf(p.previous) + p.snapshot.historical|;
            if !ok || size > HL.MAX_NAMES then Fails(g, h, HistoryUnavailable)
            else h == g.(phase := Answered(p.attempt, p.capture, p.snapshot, t.row == p.previous))
  {
    EveryRun(s, es);
    var t := After(s, es);
    assert RegInv(t.regs[r], t.row);
    var p := t.regs[r].phase;
    HL.WriteIsCas(t.row, p.previous, p.version, p.snapshot.historical);
  }

  /** After a commit the snapshot is activated unless the captured generation is gone. After a
      conflict the candidate is compiled anew, as on a first attempt, unless it was the third or the
      watcher was stopped. */
  lemma ResumedExactly(s: System, es: seq<Event>, r: nat, allowed: bool)
    requires IsRun(s, es) && Enabled(After(s, es), Resumed(r, allowed))
    ensures var t := After(s, es); var g, h := t.regs[r], Next(s, es, Resumed(r, allowed), r); var p := g.phase;
            if p.committed then
              if Gone(t.live, p.capture) then Fails(g, h, SecretResolutionFailed) else Activates(g, h, p.snapshot)
            else if p.attempt >= 2 then Fails(g, h, HistoryConflict)
            else if !allowed then Fails(g, h, WatchStopped)
            else Attempts(g, h, p.snapshot.candidate, p.attempt + 1, p.capture, t.live)
  {
  }

  // ----- A reload that nothing disturbs -----

  // The snapshot such a reload is to activate.
  ghost function Goal(c: Core, row: Option<HL.Row>, candidate: Candidate): Snapshot {
    var hist := Retired(c, row, candidate);
    var policies := CompileAll(candidate.sites, candidate.credentialNames, hist);
    Snapshot(if c.active.Some? then c.active.value.generation + 1 else 1, candidate, hist,
             if policies.Some? then policies.value else map[])
  }

  // What a candidate must be like for it, given the registry and the ledger at the start.
  ghost predicate Loadable(c: Core, row: Option<HL.Row>, candidate: Candidate) {
    && candidate.environment == c.environment
    && (c.active.Some? ==> c.active.value.candidate.revision != candidate.revision)
    && |Retired(c, row, candidate)| <= HL.MAX_NAMES && Compiles(candidate, Retired(c, row, candidate))
    && (c.durable ==> HL.Revision(row) < HL.MAX_REVISION)
  }

  // The number of its own steps after which it is over.
  function Length(c: Core): nat {
    if c.durable then 6 else 3
  }

  // The registry after k of them; c and row are its fields and the ledger at the start.
  ghost predicate AtStage(g: Reg, c: Core, row: Option<HL.Row>, candidate: Candidate, capture: Option<nat>, k: nat)
  {
    var goal, loading := Goal(c, row, candidate), c.(reloading := true);
    var version := if c.durable then HL.Revision(row) else 0;
    if k == Length(c) then g.phase == Idle && g.core == c.(active := Some(goal), historical := goal.historical, reloading := false, lastError := None)
    else if k == 0 then g == Reg(loading, Loading(capture), 0)
    else if k == 1 then g == Reg(loading, Preparing(candidate, 0, capture), 0)
    else if k == 2 then g == Reg(loading, Checking(candidate, 0, capture, version, Draft(goal.historical, goal.policies)), 0)
    else if k == 3 then g == Reg(loading, Committing(0, capture, version, goal), 1)
    else if k == 4 then g == Reg(loading, Holding(0, capture, version, goal, row), 1)
    else k == 5 && g == Reg(loading, Answered(0, capture, goal, true), 1)
  }

  // A callback of the reload that succeeds.
  predicate Succeeds(e: Event, candidate: Candidate) {
    match e
    case CandidateLoaded(_, loaded) => loaded == Ok(candidate)
    case HistoryLoaded(_, ok) => ok
    case ChecksDone(_, fault, allowed) => fault.None? && allowed
    case CommitRead(_, ok) => ok
    case CommitWrite(_, ok) => ok
    case Resumed(_, _) => true
    case _ => false
  }

  // A step that does not disturb the reload of registry r: a success of its own, or one by which
  // nobody else writes to the ledger and the captured generation stays live.
  ghost predicate Quiet(s: System, e: Event, r: nat, candidate: Candidate, capture: Option<nat>)
    requires Enabled(s, e)
  {
    if Touches(e, r) then Succeeds(e, candidate) else Apply(s, e).row == s.row && !Gone(Apply(s, e).live, capture)
  }

  ghost predicate QuietSince(s: System, es: seq<Event>, n: nat, r: nat, candidate: Candidate, capture: Option<nat>)
    requires IsRun(s, es)
  {
    |es| <= n || (QuietSince(s, es[..|es| - 1], n, r, candidate, capture)
                  && Quiet(After(s, es[..|es| - 1]), es[|es| - 1], r, candidate, capture))
  }

  // How many steps of registry r there were after the first n.
  function Own(es: seq<Event>, n: nat, r: nat): nat {
    if |es| <= n then 0 else Own(es[..|es| - 1], n, r) + (if Touches(es[|es| - 1], r) then 1 else 0)
  }

  // The row a registry at this stage has to find: the one it started from, until it has written.
  ghost predicate RowAt(c: Core, row: Option<HL.Row>, now: Option<HL.Row>, k: nat) {
    c.durable && k <= 4 ==> now == row
  }

  predicate Suits(e: Event, k: nat) {
    match k
    case 0 => e.CandidateLoaded?
    case 1 => e.HistoryLoaded?
    case 2 => e.ChecksDone?
    case 3 => e.CommitRead?
    case 4 => e.CommitWrite?
    case _ => e.Resumed?
  }

  lemma StageStep(g: Reg, e: Event, row: Option<HL.Row>, now: Option<HL.Row>, live: set<nat>, c: Core, candidate: Candidate,
                  capture: Option<nat>, k: nat)
    requires Loadable(c, row, candidate) && k < Length(c) && AtStage(g, c, row, candidate, capture, k)
    requires RowAt(c, row, now, k) && !Gone(live, capture) && Succeeds(e, candidate)
    requires Suits(e, k)
    ensures AtStage(RegStep(g, e, now, live), c, row, candidate, capture, k + 1)
  {
    if k == 0 {
      StageLoads(g, e, row, now, live, c, candidate, capture);
    } else if k == 1 {
      StagePrepares(g, e, row, now, live, c, candidate, capture);
    } else if k == 2 {
      StageChecks(g, e, row, now, live, c, candidate, capture);
    } else if k == 3 {
      StageReads(g, e, row, now, live, c, candidate, capture);
    } else if k == 4 {
      StageWrites(g, e, row, now, live, c, candidate, capture);
    } else {
      StageEnds(g, e, row, now, live, c, candidate, capture);
    }
  }

  lemma StageLoads(g: Reg, e: Event, row: Option<HL.Row>, now: Option<HL.Row>, live: set<nat>, c: Core, candidate: Candidate,
                   capture: Option<nat>)
    requires Loadable(c, row, candidate) && AtStage(g, c, row, candidate, capture, 0)
    requires !Gone(live, capture) && e.CandidateLoaded? && e.candidate == Ok(candidate)
    ensures AtStage(RegStep(g, e, now, live), c, row, candidate, capture, 1)
  {
  }

  lemma StageChecks(g: Reg, e: Event, row: Option<HL.Row>, now: Option<HL.Row>, live: set<nat>, c: Core, candidate: Candidate,
                    capture: Option<nat>)
    requires Loadable(c, row, candidate) && AtStage(g, c, row, candidate, capture, 2)
    requires !Gone(live, capture) && e.ChecksDone? && e.fault.None? && e.allowed
    ensures AtStage(RegStep(g, e, now, live), c, row, candidate, capture, 3)
  {
    CheckedStep(g, e, now, live);
  }

  lemma StageReads(g: Reg, e: Event, row: Option<HL.Row>, now: Option<HL.Row>, live: set<nat>, c: Core, candidate: Candidate,
                   capture: Option<nat>)
    requires Loadable(c, row, candidate) && c.durable && AtStage(g, c, row, candidate, capture, 3)
    requires now == row && e.CommitRead? && e.ok
    ensures AtStage(RegStep(g, e, now, live), c, row, candidate, capture, 4)
  {
  }

  lemma StageEnds(g: Reg, e: Event, row: Option<HL.Row>, now: Option<HL.Row>, live: set<nat>, c: Core, candidate: Candidate,
                  capture: Option<nat>)
    requires Loadable(c, row, candidate) && c.durable && AtStage(g, c, row, candidate, capture, 5)
    requires !Gone(live, capture) && e.Resumed?
    ensures AtStage(RegStep(g, e, now, live), c, row, candidate, capture, 6)
  {
  }

  lemma StagePrepares(g: Reg, e: Event, row: Option<HL.Row>, now: Option<HL.Row>, live: set<nat>, c: Core, candidate: Candidate,
                      capture: Option<nat>)
    requires Loadable(c, row, candidate) && AtStage(g, c, row, candidate, capture, 1)
    requires RowAt(c, row, now, 1) && e.HistoryLoaded? && e.ok
    ensures AtStage(RegStep(g, e, now, live), c, row, candidate, capture, 2)
  {
    var history := if c.durable then now else None;
    assert HL.NamesOf(history) + c.historical + candidate.credentialNames == Retired(c, row, candidate);
    CandidateExactly(candidate.sites, candidate.credentialNames, Retired(c, row, candidate));
  }

  lemma StageWrites(g: Reg, e: Event, row: Option<HL.Row>, now: Option<HL.Row>, live: set<nat>, c: Core, candidate: Candidate,
                    capture: Option<nat>)
    requires Loadable(c, row, candidate) && c.durable && AtStage(g, c, row, candidate, capture, 4)
    requires now == row && e.CommitWrite? && e.ok
    ensures AtStage(RegStep(g, e, now, live), c, row, candidate, capture, 5)
  {
    var hist := Retired(c, row, candidate);
    assert HL.NamesOf(row) + hist == hist;
  }

  lemma StageMeets(g: Reg, s: System, e: Event, r: nat, c: Core, row: Option<HL.Row>, candidate: Candidate,
                   capture: Option<nat>, k: nat)
    requires Loadable(c, row, candidate) && k <= Length(c) && AtStage(g, c, row, candidate, capture, k)
    requires Enabled(s, e) && Touches(e, r) && r < |s.regs| && s.regs[r] == g && Succeeds(e, candidate)
    ensures k < Length(c) && Suits(e, k)
  {
  }

  lemma QuietStep(t: System, e: Event, r: nat, c: Core, row: Option<HL.Row>, candidate: Candidate, capture: Option<nat>, k: nat)
    requires Enabled(t, e) && r < |t.regs| && Loadable(c, row, candidate) && k <= Length(c)
    requires AtStage(t.regs[r], c, row, candidate, capture, k) && RowAt(c, row, t.row, k) && !Gone(t.live, capture)
    requires Quiet(t, e, r, candidate, capture)
    ensures var own, u := Touches(e, r), Apply(t, e); var n := if own then k + 1 else k;
            && r < |u.regs| && n <= Length(c) && AtStage(u.regs[r], c, row, candidate, capture, n)
            && RowAt(c, row, u.row, n) && !Gone(u.live, capture)
  {
    OwnStepOnly(t, e, r);
    if Touches(e, r) {
      StageMeets(t.regs[r], t, e, r, c, row, candidate, capture, k);
      StageStep(t.regs[r], e, row, t.row, t.live, c, candidate, capture, k);
      OwnStepKeepsRow(t, e, r);
    }
  }

  lemma OwnStepKeepsRow(t: System, e: Event, r: nat)
    requires Enabled(t, e) && Touches(e, r)
    ensures Apply(t, e).live == t.live && (e.CommitWrite? || Apply(t, e).row == t.row)
  {
  }

  lemma {:induction false} ReloadRuns(s: System, es: seq<Event>, n: nat, r: nat, c: Core, row: Option<HL.Row>,
                                      candidate: Candidate, capture: Option<nat>)
    requires IsRun(s, es) && n <= |es| && IsRun(s, es[..n]) && r < |After(s, es[..n]).regs|
    requires Loadable(c, row, candidate) && AtStage(After(s, es[..n]).regs[r], c, row, candidate, capture, 0)
    requires After(s, es[..n]).row == row && !Gone(After(s, es[..n]).live, capture)
    requires QuietSince(s, es, n, r, candidate, capture)
    ensures r < |After(s, es).regs| && Own(es, n, r) <= Length(c)
    ensures AtStage(After(s, es).regs[r], c, row, candidate, capture, Own(es, n, r))
    ensures RowAt(c, row, After(s, es).row, Own(es, n, r)) && !Gone(After(s, es).live, capture)
    decreases |es|
  {
    if n == |es| {
      assert es[..n] == es;
    } else {
      var past, e := es[..|es| - 1], es[|es| - 1];
      assert past[..n] == es[..n];
      ReloadRuns(s, past, n, r, c, row, candidate, capture);
      QuietStep(After(s, past), e, r, c, row, candidate, capture, Own(past, n, r));
    }
  }

  /** A reload that begins with a live capture, whose candidate is of this environment, of another
      revision than the active one, within the limit and with acceptable policies, whose callbacks
      succeed, and whose ledger nobody else writes meanwhile, is over after exactly six steps of its
      own, three without a ledger, and then that candidate is active, one generation up; until then it
      is under way. */
  lemma ReloadSucceeds(s: System, es: seq<Event>, n: nat, r: nat, candidate: Candidate, capture: Option<nat>)
    requires IsRun(s, es) && n < |es| && es[n] == Begin(r, Ok(capture)) && IsRun(s, es[..n]) && IsRun(s, es[..n + 1])
    requires r < |After(s, es[..n]).regs| && !After(s, es[..n]).regs[r].core.reloading
    requires Loadable(After(s, es[..n]).regs[r].core, After(s, es[..n]).row, candidate)
    requires QuietSince(s, es, n + 1, r, candidate, capture)
    ensures r < |After(s, es).regs|
    ensures var c, g := After(s, es[..n]).regs[r].core, After(s, es).regs[r];
            && Own(es, n + 1, r) <= Length(c)
            && (g.phase.Idle? <==> Own(es, n + 1, r) == Length(c))
            && (g.phase.Idle? ==>
                  && g.core.active == Some(Goal(c, After(s, es[..n]).row, candidate))
                  && g.core.historical == Retired(c, After(s, es[..n]).row, candidate)
                  && g.core.lastError == None && !g.core.reloading)
            && (!g.phase.Idle? ==> g.core == c.(reloading := true))
  {
    var upTo := es[..n + 1];
    assert upTo[..|upTo| - 1] == es[..n];
    var t := After(s, es[..n]);
    OwnStepOnly(t, es[n], r);
    ReloadRuns(s, es, n + 1, r, t.regs[r].core, t.row, candidate, capture);
  }
}
