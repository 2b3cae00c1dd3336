/**
 Credential registries that share one header ledger. A reload compiles its candidate against
 the union of all credential headers ever used, commits that union to the ledger by
 compare-and-set (recompiling and retrying on conflict), and then swaps the active snapshot,
 provided the captured provider generation is still live.

 Candidates arrive validated; file reads, secret checks and ownership checks are steps that
 succeed or fail. A reload is suspended at every await, and any other client may run there.
 */
module CredentialRegistry {
  import opened Common
  import HP = HeaderPolicy
  import HL = HeaderLedger

  datatype Error =
    | CandidateRejected | EnvironmentMismatch | RevisionAlreadyActive | SecretResolutionFailed
    | OwnershipRejected | HistoryUnavailable | HistoryConflict | WatchStopped

  datatype Endpoint = Endpoint(selector: string, policy: Option<HP.Policy>)

  datatype Site = Site(id: string, policy: Option<HP.Policy>, endpoints: seq<Endpoint>)

  datatype Candidate = Candidate(environment: string, revision: string, credentialNames: set<string>, sites: seq<Site>)

  datatype Key = Key(site: string, endpoint: Option<string>)

  type Policies = map<Key, HP.Compiled>

  datatype Snapshot = Snapshot(generation: nat, candidate: Candidate, historical: set<string>, policies: Policies)

  // The fields of one registry. `durable` tells whether a ledger is bound to it.
  datatype Core = Core(environment: string, durable: bool, active: Option<Snapshot>, historical: set<string>,
                       reloading: bool, lastError: Option<Error>)

  datatype Draft = Draft(historical: set<string>, policies: Policies)

  const MAX_ATTEMPTS := 3

  // ----- Compiling every policy of a candidate -----

  ghost function Unit(policy: Option<HP.Policy>, inherited: Option<HP.Policy>, cred: set<string>, hist: set<string>)
    : Option<HP.Compiled>
  {
    if HP.Accepts(policy, inherited, cred, hist) then Some(HP.Combined(policy, inherited)) else None
  }

  ghost function CompileEndpoint(site: Site, e: Endpoint, m: Policies, cred: set<string>, hist: set<string>): Option<Policies> {
    if site.policy.None? && e.policy.None? then Some(m)
    else
      var c := Unit(e.policy, site.policy, cred, hist);
      if c.None? then None else Some(m[Key(site.id, Some(e.selector)) := c.value])
  }

  ghost function CompileEndpoints(site: Site, n: nat, m: Policies, cred: set<string>, hist: set<string>): Option<Policies>
    requires n <= |site.endpoints|
  {
    if n == 0 then Some(m)
    else
      var before := CompileEndpoints(site, n - 1, m, cred, hist);
      if before.None? then None else CompileEndpoint(site, site.endpoints[n - 1], before.value, cred, hist)
  }

  ghost function CompileSite(site: Site, m: Policies, cred: set<string>, hist: set<string>): Option<Policies> {
    if site.policy.None? then CompileEndpoints(site, |site.endpoints|, m, cred, hist)
    else
      var c := Unit(site.policy, None, cred, hist);
      if c.None? then None
      else CompileEndpoints(site, |site.endpoints|, m[Key(site.id, None) := c.value], cred, hist)
  }

  ghost function CompileAll(sites: seq<Site>, cred: set<string>, hist: set<string>): Option<Policies> {
    if sites == [] then Some(map[])
    else
      var before := CompileAll(sites[..|sites| - 1], cred, hist);
      if before.None? then None else CompileSite(sites[|sites| - 1], before.value, cred, hist)
  }

  ghost predicate CanonicalSet(names: set<string>) {
    forall n :: n in names ==> HL.Canonical(n)
  }

  ghost predicate Disjoint(m: Policies, hist: set<string>) {
    forall k :: k in m ==> (m[k].request + m[k].response) !! hist
  }

  lemma UnitDisjoint(policy: Option<HP.Policy>, inherited: Option<HP.Policy>, cred: set<string>, hist: set<string>)
    requires CanonicalSet(hist)
    ensures var r := Unit(policy, inherited, cred, hist); r.Some? ==> (r.value.request + r.value.response) !! hist
  {
    if HP.Accepts(policy, inherited, cred, hist) {
      HP.AcceptedIsDisjoint(policy, inherited, cred, hist);
    }
  }

  lemma AddedDisjoint(m: Policies, k: Key, c: HP.Compiled, hist: set<string>)
    requires Disjoint(m, hist) && (c.request + c.response) !! hist
    ensures Disjoint(m[k := c], hist)
  {
  }

  lemma EndpointDisjoint(site: Site, e: Endpoint, m: Policies, cred: set<string>, hist: set<string>)
    requires Disjoint(m, hist) && CanonicalSet(hist)
    ensures var r := CompileEndpoint(site, e, m, cred, hist); r.Some? ==> Disjoint(r.value, hist)
  {
    var c := Unit(e.policy, site.policy, cred, hist);
    UnitDisjoint(e.policy, site.policy, cred, hist);
    if c.Some? {
      AddedDisjoint(m, Key(site.id, Some(e.selector)), c.value, hist);
    }
  }

  lemma {:induction false} EndpointsDisjoint(site: Site, n: nat, m: Policies, cred: set<string>, hist: set<string>)
    requires n <= |site.endpoints| && Disjoint(m, hist) && CanonicalSet(hist)
    ensures var r := CompileEndpoints(site, n, m, cred, hist); r.Some? ==> Disjoint(r.value, hist)
  {
    if n > 0 {
      EndpointsDisjoint(site, n - 1, m, cred, hist);
      var before := CompileEndpoints(site, n - 1, m, cred, hist);
      if before.Some? {
        EndpointDisjoint(site, site.endpoints[n - 1], before.value, cred, hist);
      }
    }
  }

  lemma SiteDisjoint(site: Site, m: Policies, cred: set<string>, hist: set<string>)
    requires Disjoint(m, hist) && CanonicalSet(hist)
    ensures var r := CompileSite(site, m, cred, hist); r.Some? ==> Disjoint(r.value, hist)
  {
    var c := Unit(site.policy, None, cred, hist);
    UnitDisjoint(site.policy, None, cred, hist);
    if site.policy.None? {
      EndpointsDisjoint(site, |site.endpoints|, m, cred, hist);
    } else if c.Some? {
      AddedDisjoint(m, Key(site.id, None), c.value, hist);
      EndpointsDisjoint(site, |site.endpoints|, m[Key(site.id, None) := c.value], cred, hist);
    }
  }

  lemma {:induction false} AllDisjoint(sites: seq<Site>, cred: set<string>, hist: set<string>)
    requires CanonicalSet(hist)
    ensures var r := CompileAll(sites, cred, hist); r.Some? ==> Disjoint(r.value, hist)
  {
    if sites != [] {
      AllDisjoint(sites[..|sites| - 1], cred, hist);
      var before := CompileAll(sites[..|sites| - 1], cred, hist);
      if before.Some? {
        SiteDisjoint(sites[|sites| - 1], before.value, cred, hist);
      }
    }
  }

  // ----- The synchronous segments of a reload -----

  function Generation(c: Core): nat {
    if c.active.Some? then c.active.value.generation else 0
  }

  function EntryFault(c: Core, candidate: Candidate, captureLive: bool): Option<Error> {
    if !captureLive then Some(SecretResolutionFailed)
    else if candidate.environment != c.environment then Some(EnvironmentMismatch)
    else if c.active.Some? && candidate.revision == c.active.value.candidate.revision then Some(RevisionAlreadyActive)
    else None
  }

  ghost function Prepare(c: Core, candidate: Candidate, history: set<string>): Result<Draft, Error> {
    var hist := history + c.historical + candidate.credentialNames;
    if |hist| > HL.MAX_NAMES then Err(HistoryUnavailable)
    else
      var policies := CompileAll(candidate.sites, candidate.credentialNames, hist);
      if policies.None? then Err(CandidateRejected) else Ok(Draft(hist, policies.value))
  }

  function Swapped(c: Core, s: Snapshot): Core {
    c.(active := Some(s), historical := s.historical, reloading := false, lastError := None)
  }

  function Stopped(c: Core, e: Error): Core {
    c.(reloading := false, lastError := Some(e))
  }

  method Listing(s: set<string>) returns (list: seq<string>)
    ensures (set n | n in list) == s
  {
    list := [];
    var rest := s;
    while rest != {}
      invariant rest <= s && (set n | n in list) == s - rest
      decreases rest
    {
      var n :| n in rest;
      assert (set m | m in list + [n]) == (set m | m in list) + {n};
      list := list + [n];
      rest := rest - {n};
    }
  }

  method CompileUnit(policy: Option<HP.Policy>, inherited: Option<HP.Policy>, cred: set<string>, hist: set<string>)
    returns (r: Option<HP.Compiled>)
    ensures r == Unit(policy, inherited, cred, hist)
  {
    var credential := Listing(cred);
    var historical := Listing(hist);
    var c := HP.CompileHeaderPolicy(policy, inherited, credential, historical);
    HP.CompileExactly(policy, inherited, credential, historical);
    r := if c.Ok? then Some(c.value) else None;
  }

  lemma EndpointFails(site: Site, n: nat, m: Policies, cred: set<string>, hist: set<string>)
    requires n < |site.endpoints| && CompileEndpoints(site, n, m, cred, hist).None?
    ensures CompileEndpoints(site, n + 1, m, cred, hist).None?
  {
  }

  lemma {:induction false} EndpointsFail(site: Site, n: nat, m: Policies, cred: set<string>, hist: set<string>)
    requires n <= |site.endpoints| && CompileEndpoints(site, n, m, cred, hist).None?
    ensures CompileEndpoints(site, |site.endpoints|, m, cred, hist).None?
    decreases |site.endpoints| - n
  {
    if n < |site.endpoints| {
      EndpointFails(site, n, m, cred, hist);
      EndpointsFail(site, n + 1, m, cred, hist);
    }
  }

  lemma {:induction false} AllFail(sites: seq<Site>, n: nat, cred: set<string>, hist: set<string>)
    requires n <= |sites| && CompileAll(sites[..n], cred, hist).None?
    ensures CompileAll(sites, cred, hist).None?
    decreases |sites| - n
  {
    if n < |sites| {
      assert sites[..n + 1][..n] == sites[..n];
      AllFail(sites, n + 1, cred, hist);
    } else {
      assert sites[..n] == sites;
    }
  }

  method CompileEndpointInto(site: Site, e: Endpoint, m: Policies, cred: set<string>, hist: set<string>)
    returns (r: Option<Policies>)
    ensures r == CompileEndpoint(site, e, m, cred, hist)
  {
    if site.policy.None? && e.policy.None? {
      return Some(m);
    }
    var c := CompileUnit(e.policy, site.policy, cred, hist);
    r := if c.None? then None else Some(m[Key(site.id, Some(e.selector)) := c.value]);
  }

  lemma EndpointsNext(site: Site, n: nat, m: Policies, before: Option<Policies>, cred: set<string>, hist: set<string>)
    requires n < |site.endpoints| && before.Some? && CompileEndpoints(site, n, m, cred, hist) == before
    ensures CompileEndpoints(site, n + 1, m, cred, hist) == CompileEndpoint(site, site.endpoints[n], before.value, cred, hist)
  {
  }

  method CompileEndpointsInto(site: Site, m: Policies, cred: set<string>, hist: set<string>) returns (r: Option<Policies>)
    ensures r == CompileEndpoints(site, |site.endpoints|, m, cred, hist)
  {
    r := Some(m);
    for j := 0 to |site.endpoints|
      invariant r.Some? && CompileEndpoints(site, j, m, cred, hist) == r
    {
      ghost var before := r;
      r := CompileEndpointInto(site, site.endpoints[j], r.value, cred, hist);
      EndpointsNext(site, j, m, before, cred, hist);
      if r.None? {
        EndpointsFail(site, j + 1, m, cred, hist);
        return;
      }
    }
  }

  method CompileSiteInto(site: Site, m: Policies, cred: set<string>, hist: set<string>) returns (r: Option<Policies>)
    ensures r == CompileSite(site, m, cred, hist)
  {
    var compiled := m;
    if site.policy.Some? {
      var c := CompileUnit(site.policy, None, cred, hist);
      if c.None? {
        return None;
      }
      compiled := compiled[Key(site.id, None) := c.value];
    }
    r := CompileEndpointsInto(site, compiled, cred, hist);
  }

  lemma SitesNext(sites: seq<Site>, i: nat, before: Policies, cred: set<string>, hist: set<string>)
    requires i < |sites| && CompileAll(sites[..i], cred, hist) == Some(before)
    ensures CompileAll(sites[..i + 1], cred, hist) == CompileSite(sites[i], before, cred, hist)
  {
    assert sites[..i + 1][..i] == sites[..i];
  }

  method CompileSites(sites: seq<Site>, cred: set<string>, hist: set<string>) returns (r: Option<Policies>)
    ensures r == CompileAll(sites, cred, hist)
  {
    r := Some(map[]);
    for i := 0 to |sites|
      invariant r.Some? && CompileAll(sites[..i], cred, hist) == r
    {
      SitesNext(sites, i, r.value, cred, hist);
      r := CompileSiteInto(sites[i], r.value, cred, hist);
      if r.None? {
        AllFail(sites, i + 1, cred, hist);
        return;
      }
    }
    assert sites[..|sites|] == sites;
  }

  class Registry {
    const environment: string
    const durable: bool
    var active: Option<Snapshot>
    var historical: set<string>
    var reloading: bool
    var lastError: Option<Error>

    function View(): Core
      reads this
    {
      Core(environment, durable, active, historical, reloading, lastError)
    }

    constructor (environment: string, durable: bool)
      ensures View() == Core(environment, durable, None, {}, false, None)
    {
      this.environment, this.durable := environment, durable;
      active, historical, reloading, lastError := None, {}, false, None;
    }

    method Acquire() returns (ok: bool)
      modifies this
      ensures ok == !old(reloading) && View() == old(View()).(reloading := true)
    {
      ok := !reloading;
      reloading := true;
    }

    method PrepareCandidate(candidate: Candidate, history: set<string>) returns (r: Result<Draft, Error>)
      ensures r == Prepare(View(), candidate, history)
    {
      var names := history + historical + candidate.credentialNames;
      if |names| > HL.MAX_NAMES {
        return Err(HistoryUnavailable);
      }
      var policies := CompileSites(candidate.sites, candidate.credentialNames, names);
      r := if policies.None? then Err(CandidateRejected) else Ok(Draft(names, policies.value));
    }

    method Swap(s: Snapshot)
      modifies this
      ensures View() == Swapped(old(View()), s)
    {
      historical := s.historical;
      active := Some(s);
      lastError := None;
      reloading := false;
    }

    method Fail(e: Error)
      modifies this
      ensures View() == Stopped(old(View()), e)
    {
      lastError := Some(e);
      reloading := false;
    }

    /** The policy a snapshot serves: the endpoint's own, else the site's. */
    static function GetHeaderPolicy(s: Snapshot, site: string, endpoint: Option<string>): Option<HP.Compiled> {
      if Key(site, endpoint) in s.policies then Some(s.policies[Key(site, endpoint)])
      else if Key(site, None) in s.policies then Some(s.policies[Key(site, None)])
      else None
    }
  }

  // ----- Many registries and appenders on one ledger -----

  datatype Phase =
    | Idle
    | Loading(capture: Option<nat>)
    | Preparing(candidate: Candidate, attempt: nat, capture: Option<nat>)
    | Checking(candidate: Candidate, attempt: nat, capture: Option<nat>, version: nat, draft: Draft)
    | Committing(attempt: nat, capture: Option<nat>, version: nat, snapshot: Snapshot)
    | Holding(attempt: nat, capture: Option<nat>, version: nat, snapshot: Snapshot, previous: Option<HL.Row>)
    | Answered(attempt: nat, capture: Option<nat>, snapshot: Snapshot, committed: bool)

  // `tries` counts the compare-and-set requests of the current reload.
  datatype Reg = Reg(core: Core, phase: Phase, tries: nat)

  datatype Appender =
    | Asked(expected: nat, names: set<string>)
    | Reading(expected: nat, names: set<string>, previous: Option<HL.Row>)
    | Done(ok: bool)

  // `appends` counts the successful appends; `live` are the provider generations in force.
  datatype System = System(row: Option<HL.Row>, appends: nat, live: set<nat>, regs: seq<Reg>, others: seq<Appender>)

  datatype Event =
    | Begin(r: nat, capture: Result<Option<nat>, ()>)
    | CandidateLoaded(r: nat, candidate: Result<Candidate, Error>)
    | HistoryLoaded(r: nat, ok: bool)
    | ChecksDone(r: nat, fault: Option<Error>, allowed: bool)
    | CommitRead(r: nat, ok: bool)
    | CommitWrite(r: nat, ok: bool)
    | Resumed(r: nat, allowed: bool)
    | Provide(live: set<nat>)
    | Ask(expected: nat, names: seq<string>)
    | OtherRead(a: nat, ok: bool)
    | OtherWrite(a: nat, ok: bool)

  predicate Live(live: set<nat>, capture: Option<nat>) {
    capture.None? || capture.value in live
  }

  predicate Enabled(s: System, e: Event) {
    match e
    case Begin(r, capture) => r < |s.regs| && (capture.Ok? ==> Live(s.live, capture.value))
    case CandidateLoaded(r, c) =>
      r < |s.regs| && s.regs[r].phase.Loading? && (c.Ok? ==> forall n :: n in c.value.credentialNames ==> HL.Canonical(n))
    case HistoryLoaded(r, _) => r < |s.regs| && s.regs[r].phase.Preparing?
    case ChecksDone(r, _, _) => r < |s.regs| && s.regs[r].phase.Checking?
    case CommitRead(r, _) => r < |s.regs| && s.regs[r].phase.Committing?
    case CommitWrite(r, _) => r < |s.regs| && s.regs[r].phase.Holding?
    case Resumed(r, _) => r < |s.regs| && s.regs[r].phase.Answered?
    case Provide(_) => true
    case Ask(_, _) => true
    case OtherRead(a, _) => a < |s.others| && s.others[a].Asked?
    case OtherWrite(a, _) => a < |s.others| && s.others[a].Reading?
  }

  function Stop(g: Reg, e: Error): Reg {
    g.(core := Stopped(g.core, e), phase := Idle)
  }

  function Enter(g: Reg, candidate: Candidate, attempt: nat, capture: Option<nat>, live: set<nat>): Reg {
    var fault := EntryFault(g.core, candidate, Live(live, capture));
    if fault.Some? then Stop(g, fault.value) else g.(phase := Preparing(candidate, attempt, capture))
  }

  function Activate(g: Reg, s: Snapshot, capture: Option<nat>, live: set<nat>): Reg {
    if Live(live, capture) then g.(core := Swapped(g.core, s), phase := Idle) else Stop(g, SecretResolutionFailed)
  }

  // The registry's own part of a step; the row is read here and written by CommitWrite below.
  ghost function RegStep(g: Reg, e: Event, row: Option<HL.Row>, live: set<nat>): Reg {
    match (e, g.phase)
    case (Begin(_, capture), _) =>
      if g.core.reloading then g
      else if capture.Err? then Stop(g, SecretResolutionFailed)
      else Reg(g.core.(reloading := true), Loading(capture.value), 0)
    case (CandidateLoaded(_, c), Loading(capture)) =>
      if c.Err? then Stop(g, c.error) else Enter(g, c.value, 0, capture, live)
    case (HistoryLoaded(_, ok), Preparing(candidate, attempt, capture)) =>
      if g.core.durable && !ok then Stop(g, HistoryUnavailable)
      else
        var history := if g.core.durable then row else None;
        var draft := Prepare(g.core, candidate, HL.NamesOf(history));
        if draft.Err? then Stop(g, draft.error)
        else g.(phase := Checking(candidate, attempt, capture, HL.Revision(history), draft.value))
    case (ChecksDone(_, fault, allowed), Checking(candidate, attempt, capture, version, draft)) =>
      if fault.Some? then Stop(g, fault.value)
      else if !Live(live, capture) then Stop(g, SecretResolutionFailed)
      else if !allowed then Stop(g, WatchStopped)
      else
        var s := Snapshot(Generation(g.core) + 1, candidate, draft.historical, draft.policies);
        if g.core.durable then Reg(g.core, Committing(attempt, capture, version, s), g.tries + 1)
        else Activate(g, s, capture, live)
    case (CommitRead(_, ok), Committing(attempt, capture, version, s)) =>
      var previous := HL.ReadForAppend(row, version, Ok(s.historical));
      if !ok then Stop(g, HistoryUnavailable)
      else if previous.Ok? then g.(phase := Holding(attempt, capture, version, s, previous.value))
      else if previous.error.Conflict? then g.(phase := Answered(attempt, capture, s, false))
      else Stop(g, HistoryUnavailable)
    case (CommitWrite(_, ok), Holding(attempt, capture, version, s, previous)) =>
      var written := HL.WriteIfUnchanged(row, previous, version, s.historical).1;
      if !ok then Stop(g, HistoryUnavailable)
      else if written.Ok? then g.(phase := Answered(attempt, capture, s, true))
      else if written.error.Conflict? then g.(phase := Answered(attempt, capture, s, false))
      else Stop(g, HistoryUnavailable)
    case (Resumed(_, allowed), Answered(attempt, capture, s, committed)) =>
      if committed then Activate(g, s, capture, live)
      else if attempt >= MAX_ATTEMPTS - 1 then Stop(g, HistoryConflict)
      else if !allowed then Stop(g, WatchStopped)
      else Enter(g, s.candidate, attempt + 1, capture, live)
    case _ => g
  }

  function Write(s: System, previous: Option<HL.Row>, expected: nat, names: set<string>, ok: bool): (System, bool) {
    var (row, r) := HL.WriteIfUnchanged(s.row, previous, expected, names);
    if ok && r.Ok? then (s.(row := row, appends := s.appends + 1), true) else (s, false)
  }

  ghost function Apply(s: System, e: Event): System
    requires Enabled(s, e)
  {
    match e
    case Provide(live) => s.(live := live)
    case Ask(expected, names) =>
      var checked := HL.Names(names);
      s.(others := s.others + [if checked.Ok? then Asked(expected, checked.value) else Done(false)])
    case OtherRead(a, ok) =>
      var o := s.others[a];
      var previous := HL.ReadForAppend(s.row, o.expected, Ok(o.names));
      s.(others := s.others[a := if ok && previous.Ok? then Reading(o.expected, o.names, previous.value) else Done(false)])
    case OtherWrite(a, ok) =>
      var o := s.others[a];
      var (t, done) := Write(s, o.previous, o.expected, o.names, ok);
      t.(others := t.others[a := Done(done)])
    case CommitWrite(r, ok) =>
      var p := s.regs[r].phase;
      Write(s, p.previous, p.version, p.snapshot.historical, ok).0.(regs := s.regs[r := RegStep(s.regs[r], e, s.row, s.live)])
    case _ =>
      s.(regs := s.regs[e.r := RegStep(s.regs[e.r], e, s.row, s.live)])
  }

  ghost predicate IsStart(s: System) {
    && s.row == None && s.appends == 0 && s.live == {} && s.others == []
    && forall i :: 0 <= i < |s.regs| ==>
         s.regs[i] == Reg(Core(s.regs[i].core.environment, s.regs[i].core.durable, None, {}, false, None), Idle, 0)
  }

  ghost predicate IsRun(s: System, es: seq<Event>)
    decreases |es|, 0
  {
    if es == [] then IsStart(s)
    else IsRun(s, es[..|es| - 1]) && Enabled(After(s, es[..|es| - 1]), es[|es| - 1])
  }

  ghost function After(s: System, es: seq<Event>): System
    requires IsRun(s, es)
    decreases |es|, 1
  {
    if es == [] then s else Apply(After(s, es[..|es| - 1]), es[|es| - 1])
  }

  // ----- The invariant -----

  ghost predicate Compiled(candidate: Candidate, hist: set<string>, policies: Policies) {
    CanonicalSet(hist) && candidate.credentialNames <= hist &&
    CompileAll(candidate.sites, candidate.credentialNames, hist) == Some(policies)
  }

  // A draft made at ledger version `version` covers the row for as long as that is the version.
  ghost predicate Covers(c: Core, row: Option<HL.Row>, version: nat, hist: set<string>) {
    c.historical <= hist &&
    (c.durable ==> version <= HL.Revision(row) && (version == HL.Revision(row) ==> HL.NamesOf(row) <= hist))
  }

  ghost predicate Pending(c: Core, s: Snapshot) {
    c.durable && s.generation == Generation(c) + 1 && Compiled(s.candidate, s.historical, s.policies) && c.historical <= s.historical
  }

  ghost predicate PhaseInv(g: Reg, row: Option<HL.Row>) {
    match g.phase
    case Idle => true
    case Loading(_) => g.tries == 0
    case Preparing(c, attempt, _) => attempt < MAX_ATTEMPTS && (g.core.durable ==> g.tries == attempt) && CanonicalSet(c.credentialNames)
    case Checking(c, attempt, _, version, d) =>
      && attempt < MAX_ATTEMPTS && (g.core.durable ==> g.tries == attempt)
      && Compiled(c, d.historical, d.policies) && Covers(g.core, row, version, d.historical)
    case Committing(attempt, _, version, s) =>
      attempt < MAX_ATTEMPTS && g.tries == attempt + 1 && Pending(g.core, s) && Covers(g.core, row, version, s.historical)
    case Holding(attempt, _, version, s, previous) =>
      && attempt < MAX_ATTEMPTS && g.tries == attempt + 1 && Pending(g.core, s) && Covers(g.core, row, version, s.historical)
      && HL.Revision(previous) == version && (previous.Some? ==> version >= 1)
      && (HL.Revision(row) == version ==> row == previous)
    case Answered(attempt, _, s, committed) =>
      && attempt < MAX_ATTEMPTS && g.tries == attempt + 1 && Pending(g.core, s)
      && (committed ==> s.historical <= HL.NamesOf(row))
  }

  ghost predicate RegInv(g: Reg, row: Option<HL.Row>) {
    && (g.core.reloading <==> !g.phase.Idle?)
    && g.tries <= MAX_ATTEMPTS
    && CanonicalSet(g.core.historical)
    && (g.core.durable ==> g.core.historical <= HL.NamesOf(row))
    && (if g.core.active.None? then g.core.historical == {}
        else g.core.active.value.historical == g.core.historical
             && Compiled(g.core.active.value.candidate, g.core.historical, g.core.active.value.policies))
    && PhaseInv(g, row)
  }

  ghost predicate AppenderInv(o: Appender, row: Option<HL.Row>) {
    && (!o.Done? ==> CanonicalSet(o.names))
    && (o.Reading? ==> HL.Revision(o.previous) == o.expected && (o.previous.Some? ==> o.expected >= 1))
  }

  ghost predicate RowInv(s: System) {
    s.appends == HL.Revision(s.row) && (s.row.Some? ==> s.row.value.revision >= 1) && CanonicalSet(HL.NamesOf(s.row))
  }

  ghost predicate Inv(s: System) {
    && RowInv(s)
    && (forall i :: 0 <= i < |s.regs| ==> RegInv(s.regs[i], s.row))
    && (forall i :: 0 <= i < |s.others| ==> AppenderInv(s.others[i], s.row))
  }

  // The row only ever grows, one revision at a time.
  ghost predicate Grows(row: Option<HL.Row>, after: Option<HL.Row>) {
    after == row || (HL.Revision(after) == HL.Revision(row) + 1 && HL.NamesOf(row) <= HL.NamesOf(after))
  }

  lemma RegInvKeeps(g: Reg, row: Option<HL.Row>, after: Option<HL.Row>)
    requires RegInv(g, row) && Grows(row, after)
    ensures RegInv(g, after)
  {
  }

  lemma PrepareCompiles(c: Core, candidate: Candidate, history: set<string>)
    requires CanonicalSet(history) && CanonicalSet(c.historical) && CanonicalSet(candidate.credentialNames)
    requires Prepare(c, candidate, history).Ok?
    ensures var d := Prepare(c, candidate, history).value;
            Compiled(candidate, d.historical, d.policies) && c.historical <= d.historical && history <= d.historical
  {
  }

  lemma HistoryLoadedKeeps(g: Reg, e: Event, row: Option<HL.Row>, live: set<nat>)
    requires RegInv(g, row) && e.HistoryLoaded? && CanonicalSet(HL.NamesOf(row))
    ensures RegInv(RegStep(g, e, row, live), row)
  {
    if g.phase.Preparing? {
      var c, history := g.phase.candidate, if g.core.durable then row else None;
      var draft := Prepare(g.core, c, HL.NamesOf(history));
      if draft.Ok? {
        PrepareCompiles(g.core, c, HL.NamesOf(history));
      }
    }
  }

  lemma BeginKeeps(g: Reg, e: Event, row: Option<HL.Row>, live: set<nat>)
    requires RegInv(g, row) && e.Begin?
    ensures RegInv(RegStep(g, e, row, live), row)
  {
  }

  lemma CandidateLoadedKeeps(g: Reg, e: Event, row: Option<HL.Row>, live: set<nat>)
    requires RegInv(g, row) && e.CandidateLoaded? && (e.candidate.Ok? ==> CanonicalSet(e.candidate.value.credentialNames))
    ensures RegInv(RegStep(g, e, row, live), row)
  {
  }

  lemma CommitReadKeeps(g: Reg, e: Event, row: Option<HL.Row>, live: set<nat>)
    requires RegInv(g, row) && e.CommitRead? && (row.Some? ==> row.value.revision >= 1)
    ensures RegInv(RegStep(g, e, row, live), row)
  {
  }

  lemma ActivateKeeps(g: Reg, s: Snapshot, capture: Option<nat>, row: Option<HL.Row>, live: set<nat>)
    requires RegInv(g, row) && Compiled(s.candidate, s.historical, s.policies)
    requires g.core.durable ==> s.historical <= HL.NamesOf(row)
    ensures RegInv(Activate(g, s, capture, live), row)
  {
  }

  lemma ChecksDoneKeeps(g: Reg, e: Event, row: Option<HL.Row>, live: set<nat>)
    requires RegInv(g, row) && e.ChecksDone?
    ensures RegInv(RegStep(g, e, row, live), row)
  {
    if g.phase.Checking? && !g.core.durable {
      var p := g.phase;
      ActivateKeeps(g, Snapshot(Generation(g.core) + 1, p.candidate, p.draft.historical, p.draft.policies), p.capture, row, live);
    }
  }

  lemma ResumedKeeps(g: Reg, e: Event, row: Option<HL.Row>, live: set<nat>)
    requires RegInv(g, row) && e.Resumed?
    ensures RegInv(RegStep(g, e, row, live), row)
  {
    if g.phase.Answered? && g.phase.committed {
      ActivateKeeps(g, g.phase.snapshot, g.phase.capture, row, live);
    }
  }

  lemma RegStepKeeps(g: Reg, e: Event, row: Option<HL.Row>, live: set<nat>)
    requires RegInv(g, row) && !e.CommitWrite? && CanonicalSet(HL.NamesOf(row)) && (row.Some? ==> row.value.revision >= 1)
    requires e.CandidateLoaded? && e.candidate.Ok? ==> CanonicalSet(e.candidate.value.credentialNames)
    ensures RegInv(RegStep(g, e, row, live), row)
  {
    match e
    case Begin(_, _) => BeginKeeps(g, e, row, live);
    case CandidateLoaded(_, _) => CandidateLoadedKeeps(g, e, row, live);
    case HistoryLoaded(_, _) => HistoryLoadedKeeps(g, e, row, live);
    case ChecksDone(_, _, _) => ChecksDoneKeeps(g, e, row, live);
    case CommitRead(_, _) => CommitReadKeeps(g, e, row, live);
    case Resumed(_, _) => ResumedKeeps(g, e, row, live);
    case _ =>
  }

  lemma CommitWriteKeeps(s: System, r: nat, ok: bool)
    requires Inv(s) && Enabled(s, CommitWrite(r, ok))
    ensures var t := Apply(s, CommitWrite(r, ok));
            RowInv(t) && Grows(s.row, t.row) && RegInv(t.regs[r], t.row)
    ensures var t := Apply(s, CommitWrite(r, ok));
            t.regs[r].phase.Answered? && t.regs[r].phase.committed ==>
              HL.NamesOf(t.row) == t.regs[r].phase.snapshot.historical && t.appends == s.appends + 1
  {
    var p := s.regs[r].phase;
    HL.WriteIsCas(s.row, p.previous, p.version, p.snapshot.historical);
  }

  lemma OtherWriteKeeps(s: System, a: nat, ok: bool)
    requires Inv(s) && Enabled(s, OtherWrite(a, ok))
    ensures var t := Apply(s, OtherWrite(a, ok)); RowInv(t) && Grows(s.row, t.row)
  {
    var o := s.others[a];
    HL.WriteIsCas(s.row, o.previous, o.expected, o.names);
  }

  lemma RegsKeep(s: System, e: Event)
    requires Inv(s) && Enabled(s, e) && !e.CommitWrite? && Grows(s.row, Apply(s, e).row)
    requires !e.OtherWrite? ==> Apply(s, e).row == s.row
    ensures forall i :: 0 <= i < |s.regs| ==> RegInv(Apply(s, e).regs[i], Apply(s, e).row)
  {
    var t := Apply(s, e);
    forall i | 0 <= i < |s.regs|
      ensures RegInv(t.regs[i], t.row)
    {
      assert RegInv(s.regs[i], s.row);
      if t.regs[i] == s.regs[i] {
        RegInvKeeps(s.regs[i], s.row, t.row);
      } else {
        RegStepKeeps(s.regs[i], e, s.row, s.live);
      }
    }
  }

  lemma CommitWriteStep(s: System, e: Event)
    requires Inv(s) && Enabled(s, e) && e.CommitWrite?
    ensures Inv(Apply(s, e)) && Grows(s.row, Apply(s, e).row)
  {
    var t := Apply(s, e);
    CommitWriteKeeps(s, e.r, e.ok);
    forall i | 0 <= i < |t.regs|
      ensures RegInv(t.regs[i], t.row)
    {
      if i != e.r {
        RegInvKeeps(s.regs[i], s.row, t.row);
      }
    }
  }

  lemma OthersKeep(s: System, e: Event)
    requires Inv(s) && Enabled(s, e)
    ensures forall i :: 0 <= i < |Apply(s, e).others| ==> AppenderInv(Apply(s, e).others[i], Apply(s, e).row)
  {
    if e.Ask? {
      HL.NamesAreCanonical(e.names);
    }
  }

  lemma StepKeeps(s: System, e: Event)
    requires Inv(s) && Enabled(s, e)
    ensures Inv(Apply(s, e)) && Grows(s.row, Apply(s, e).row)
  {
    if e.CommitWrite? {
      CommitWriteStep(s, e);
    } else {
      if e.OtherWrite? {
        OtherWriteKeeps(s, e.a, e.ok);
      }
      RegsKeep(s, e);
      OthersKeep(s, e);
    }
  }

  lemma {:induction false} EveryRun(s: System, es: seq<Event>)
    requires IsRun(s, es)
    ensures Inv(After(s, es))
  {
    if es != [] {
      EveryRun(s, es[..|es| - 1]);
      StepKeeps(After(s, es[..|es| - 1]), es[|es| - 1]);
    }
  }

  // ----- What the protocol guarantees -----

  /** The ledger never forgets a name, and its revision counts the successful appends. */
  lemma {:induction false} LedgerNeverForgets(s: System, es: seq<Event>, n: nat)
    requires IsRun(s, es) && n <= |es|
    ensures IsRun(s, es[..n])
    ensures HL.NamesOf(After(s, es[..n]).row) <= HL.NamesOf(After(s, es).row)
    ensures HL.Revision(After(s, es).row) == After(s, es).appends >= After(s, es[..n]).appends
  {
    EveryRun(s, es);
    if n == |es| {
      assert es[..n] == es;
    } else {
      var before := es[..|es| - 1];
      assert before[..n] == es[..n];
      LedgerNeverForgets(s, before, n);
      EveryRun(s, before);
      StepKeeps(After(s, before), es[|es| - 1]);
    }
  }

  /** Commit point: when a registry's compare-and-set succeeds, the ledger holds exactly the
      snapshot's historical names, and no policy of that snapshot lists any of them. */
  lemma CommitPoint(s: System, es: seq<Event>, r: nat, ok: bool)
    requires IsRun(s, es) && Enabled(After(s, es), CommitWrite(r, ok))
    ensures var t := Apply(After(s, es), CommitWrite(r, ok));
            var p := t.regs[r].phase;
            p.Answered? && p.committed ==>
              && HL.NamesOf(t.row) == p.snapshot.historical
              && t.appends == After(s, es).appends + 1
              && Disjoint(p.snapshot.policies, HL.NamesOf(t.row))
  {
    EveryRun(s, es);
    CommitWriteKeeps(After(s, es), r, ok);
    var p := Apply(After(s, es), CommitWrite(r, ok)).regs[r].phase;
    if p.Answered? {
      AllDisjoint(p.snapshot.candidate.sites, p.snapshot.candidate.credentialNames, p.snapshot.historical);
    }
  }

  // What an active snapshot that differs says about the step that replaced it.
  ghost predicate SwapIsActivation(g: Reg, h: Reg, live: set<nat>) {
    h.core.active != g.core.active ==>
      && h.core.active.Some? && Generation(h.core) == Generation(g.core) + 1
      && g.core.historical <= h.core.active.value.historical == h.core.historical
      && h.core.lastError == None && !h.core.reloading
      && (g.phase.Answered? || g.phase.Checking?) && Live(live, g.phase.capture)
      && (g.core.durable ==> g.phase.Answered? && g.phase.committed)
  }

  predicate Touches(e: Event, r: nat) {
    (e.Begin? || e.CandidateLoaded? || e.HistoryLoaded? || e.ChecksDone? || e.CommitRead? || e.CommitWrite? || e.Resumed?) && e.r == r
  }

  lemma OwnStepOnly(s: System, e: Event, r: nat)
    requires Enabled(s, e) && r < |s.regs|
    ensures |Apply(s, e).regs| == |s.regs|
    ensures Apply(s, e).regs[r] == if Touches(e, r) then RegStep(s.regs[r], e, s.row, s.live) else s.regs[r]
  {
  }

  lemma ActivateSwaps(g: Reg, s: Snapshot, capture: Option<nat>, live: set<nat>)
    requires (g.phase.Answered? || g.phase.Checking?) && capture == g.phase.capture
    requires g.core.historical <= s.historical && s.generation == Generation(g.core) + 1
    requires g.core.durable ==> g.phase.Answered? && g.phase.committed
    ensures SwapIsActivation(g, Activate(g, s, capture, live), live)
  {
  }

  lemma OthersSwapNothing(g: Reg, e: Event, row: Option<HL.Row>, live: set<nat>)
    requires !(e.ChecksDone? && g.phase.Checking?) && !(e.Resumed? && g.phase.Answered? && g.phase.committed)
    ensures RegStep(g, e, row, live).core.active == g.core.active
  {
  }

  lemma RegStepSwaps(g: Reg, e: Event, row: Option<HL.Row>, live: set<nat>)
    requires RegInv(g, row)
    ensures SwapIsActivation(g, RegStep(g, e, row, live), live)
  {
    if e.ChecksDone? && g.phase.Checking? {
      var p := g.phase;
      var s := Snapshot(Generation(g.core) + 1, p.candidate, p.draft.historical, p.draft.policies);
      if !g.core.durable {
        ActivateSwaps(g, s, p.capture, live);
      }
    } else if e.Resumed? && g.phase.Answered? && g.phase.committed {
      ActivateSwaps(g, g.phase.snapshot, g.phase.capture, live);
    } else {
      OthersSwapNothing(g, e, row, live);
    }
  }

  lemma StepSwaps(s: System, e: Event, r: nat)
    requires Inv(s) && Enabled(s, e) && r < |s.regs|
    ensures SwapIsActivation(s.regs[r], Apply(s, e).regs[r], s.live)
  {
    assert RegInv(s.regs[r], s.row);
    OwnStepOnly(s, e, r);
    RegStepSwaps(s.regs[r], e, s.row, s.live);
  }

  lemma ResumeSwaps(s: System, e: Event)
    requires Inv(s) && Enabled(s, e) && e.Resumed? && s.regs[e.r].phase.committed
    ensures var g, h := s.regs[e.r], Apply(s, e).regs[e.r];
            if Live(s.live, g.phase.capture) then h.core.active == Some(g.phase.snapshot)
            else h.core.active == g.core.active && h.core.lastError == Some(SecretResolutionFailed)
  {
    assert RegInv(s.regs[e.r], s.row);
  }

  /** A registry's snapshot changes only by a completed activation: one generation up, with every
      earlier header still retired, the error cleared and the captured provider generation live.
      Every other outcome, failures included, leaves the active snapshot as it was. */
  lemma OnlyActivationSwaps(s: System, es: seq<Event>, e: Event, r: nat)
    requires IsRun(s, es) && Enabled(After(s, es), e) && r < |After(s, es).regs|
    ensures SwapIsActivation(After(s, es).regs[r], Apply(After(s, es), e).regs[r], After(s, es).live)
    ensures var g, h := After(s, es).regs[r], Apply(After(s, es), e).regs[r];
            e.Resumed? && e.r == r && g.phase.committed ==>
              if Live(After(s, es).live, g.phase.capture) then h.core.active == Some(g.phase.snapshot)
              else h.core.active == g.core.active && h.core.lastError == Some(SecretResolutionFailed)
  {
    EveryRun(s, es);
    StepSwaps(After(s, es), e, r);
    if e.Resumed? && e.r == r && After(s, es).regs[r].phase.committed {
      ResumeSwaps(After(s, es), e);
    }
  }

  /** Every reload asks for at most three compare-and-sets, reloads of one registry exclude each
      other, and a policy that a snapshot serves never lists a header retired so far by it. */
  lemma RegistryInEveryRun(s: System, es: seq<Event>, r: nat, site: string, endpoint: Option<string>)
    requires IsRun(s, es) && r < |After(s, es).regs|
    ensures var g := After(s, es).regs[r];
            && g.tries <= MAX_ATTEMPTS
            && (g.core.durable ==> g.core.historical <= HL.NamesOf(After(s, es).row))
            && (g.core.reloading <==> !g.phase.Idle?)
    ensures var active := After(s, es).regs[r].core.active;
            active.Some? && Registry.GetHeaderPolicy(active.value, site, endpoint).Some? ==>
              var p := Registry.GetHeaderPolicy(active.value, site, endpoint).value;
              (p.request + p.response) !! active.value.historical && active.value.candidate.credentialNames <= active.value.historical
  {
    EveryRun(s, es);
    assert RegInv(After(s, es).regs[r], After(s, es).row);
    var active := After(s, es).regs[r].core.active;
    if active.Some? {
      AllDisjoint(active.value.candidate.sites, active.value.candidate.credentialNames, active.value.historical);
    }
  }
}
