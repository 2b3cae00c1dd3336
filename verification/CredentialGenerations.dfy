/**
 The store of credential generations: material is staged, activated by compare-and-set on the
 current generation, and wiped when it is revoked, expires, is released or the store closes.

 Entries are numbered in the order they were staged; `retained` is the set the store still
 holds. One clock stands for the wall and the monotonic clock. `faulty` tells that a listener
 failed on the event an operation publishes, which closes the store.
 */
module CredentialGenerations {
  import opened Common
  import M = CredentialMaterial

  datatype Status = Staged | Active | Revoked | Expired | Unavailable | Released

  datatype Entry = Entry(content: M.Content, bytes: nat, status: Status, expiresAt: int, activated: bool)

  datatype Error = Invalid | Conflict | Denied | Gone | Capacity

  // The two handles of an entry: the staged one is void once the entry is activated.
  datatype Handle = OfStaged(id: nat) | OfGeneration(id: nat)

  datatype State = State(all: seq<Entry>, retained: set<nat>, current: Option<nat>, totalBytes: int, closed: bool,
                         maxGenerations: nat, maxTotalBytes: nat)

  function Start(maxGenerations: nat, maxTotalBytes: nat): State {
    State([], {}, None, 0, false, maxGenerations, maxTotalBytes)
  }

  predicate Ended(status: Status) {
    status.Released? || status.Expired?
  }

  predicate Live(e: Entry) {
    e.status.Staged? || e.status.Active?
  }

  function Wiped(e: Entry, to: Status): Entry {
    e.(content := map[], bytes := 0, status := to)
  }

  function Dispose(s: State, i: nat, to: Status): (t: State)
    requires i < |s.all|
    ensures |t.all| == |s.all|
  {
    if Ended(s.all[i].status) then s
    else
      s.(all := s.all[i := Wiped(s.all[i], to)], totalBytes := s.totalBytes - s.all[i].bytes,
         retained := if Ended(to) then s.retained - {i} else s.retained)
  }

  function DisposeFirst(s: State, n: nat): (t: State)
    requires n <= |s.all|
    ensures |t.all| == |s.all|
  {
    if n == 0 then s
    else
      var t := DisposeFirst(s, n - 1);
      if n - 1 in s.retained then Dispose(t, n - 1, Unavailable) else t
  }

  function Close(s: State): (t: State)
    ensures |t.all| == |s.all|
  {
    if s.closed then s else DisposeFirst(s, |s.all|).(retained := {}, current := None, closed := true)
  }

  function Publish(s: State, faulty: bool): (t: State)
    ensures |t.all| == |s.all|
  {
    if faulty then Close(s) else s
  }

  function Expire(s: State, i: nat, now: int, faulty: bool): (t: State)
    requires i < |s.all|
    ensures |t.all| == |s.all|
  {
    if Ended(s.all[i].status) || s.closed || s.all[i].expiresAt > now then s
    else Publish(Dispose(s, i, Expired), faulty)
  }

  predicate Known(s: State, h: Handle, allowStaged: bool) {
    && h.id < |s.all|
    && match h
       case OfStaged(i) => allowStaged && !s.all[i].activated
       case OfGeneration(i) => s.all[i].activated
  }

  function Inspect(s: State, h: Handle, allowStaged: bool, now: int, faulty: bool): (r: (State, Result<nat, Error>))
    ensures |r.0.all| == |s.all| && (r.1.Ok? ==> r.1.value == h.id < |s.all|)
  {
    if s.closed then (s, Err(Gone))
    else if !Known(s, h, allowStaged) then (s, Err(Denied))
    else
      var t := Expire(s, h.id, now, faulty);
      var status := t.all[h.id].status;
      if h.id !in t.retained || !(status.Active? || (allowStaged && status.Staged?))
      then (t, Err(if status.Unavailable? then Gone else Denied))
      else (t, Ok(h.id))
  }

  function Stage(s: State, m: M.Material, now: int): (State, Result<nat, Error>) {
    if s.closed then (s, Err(Gone))
    else if !M.Accepts(m, now) then (s, Err(Invalid))
    else if |s.retained| >= s.maxGenerations || s.totalBytes + M.SizeOf(m.providers) > s.maxTotalBytes then (s, Err(Capacity))
    else (Added(s, Entry(M.ContentOf(m.providers), M.SizeOf(m.providers), Staged, m.expiresAt, false)), Ok(|s.all|))
  }

  function Added(s: State, e: Entry): State {
    s.(all := s.all + [e], retained := s.retained + {|s.all|}, totalBytes := s.totalBytes + e.bytes)
  }

  function Promoted(s: State, i: nat): State
    requires i < |s.all|
  {
    s.(all := s.all[i := s.all[i].(status := Active, activated := true)], current := Some(i))
  }

  function Activate(s: State, h: Handle, expected: Option<nat>, now: int, faulty: bool): (State, Result<nat, Error>) {
    if s.closed then (s, Err(Gone))
    else if expected != s.current then (s, Err(Conflict))
    else
      var (t, r) := Inspect(s, h, true, now, faulty);
      if r.Err? then (t, r)
      else if !t.all[r.value].status.Staged? then (t, Err(Denied))
      else if faulty then (Close(Promoted(t, r.value)), Err(Gone))
      else (Promoted(t, r.value), r)
  }

  function Capture(s: State, now: int, faulty: bool): (State, Result<nat, Error>) {
    if s.closed || s.current.None? then (s, Err(Gone)) else Inspect(s, OfGeneration(s.current.value), false, now, faulty)
  }

  function Resolve(s: State, h: Handle, provider: string, key: string, now: int, faulty: bool): (State, Result<string, Error>) {
    var (t, r) := Inspect(s, h, false, now, faulty);
    if r.Err? then (t, Err(r.error))
    else if !M.IsIdentifier(provider) || (provider in t.all[r.value].content && !M.IsMaterialKey(key)) then (t, Err(Invalid))
    else if provider in t.all[r.value].content && key in t.all[r.value].content[provider]
    then (t, Ok(t.all[r.value].content[provider][key]))
    else (t, Err(Denied))
  }

  // `revoke` with Revoked, `unavailable` with Unavailable.
  function Withdraw(s: State, h: Handle, to: Status, now: int, faulty: bool): (State, Result<nat, Error>) {
    var (t, r) := Inspect(s, h, false, now, faulty);
    if r.Err? then (t, r) else (Publish(Expire(Dispose(t, r.value, to), r.value, now, faulty), faulty), r)
  }

  function Release(s: State, h: Handle, faulty: bool): (State, Result<nat, Error>) {
    if s.closed then (s, Err(Gone))
    else if !Known(s, h, true) then (s, Err(Denied))
    else if Ended(s.all[h.id].status) then (s, Ok(h.id))
    else (Publish(Dispose(s, h.id, Released), faulty), Ok(h.id))
  }

  datatype Event =
    | DoStage(m: M.Material, now: int)
    | DoActivate(h: Handle, expected: Option<nat>, now: int, faulty: bool)
    | DoInspect(h: Handle, now: int, faulty: bool)
    | DoWithdraw(h: Handle, revoked: bool, now: int, faulty: bool)
    | DoRelease(h: Handle, faulty: bool)
    | DoTimer(id: nat, now: int, faulty: bool)
    | DoClose

  function Apply(s: State, e: Event): State {
    match e
    case DoStage(m, now) => Stage(s, m, now).0
    case DoActivate(h, expected, now, faulty) => Activate(s, h, expected, now, faulty).0
    case DoInspect(h, now, faulty) => Inspect(s, h, false, now, faulty).0
    case DoWithdraw(h, revoked, now, faulty) => Withdraw(s, h, if revoked then Revoked else Unavailable, now, faulty).0
    case DoRelease(h, faulty) => Release(s, h, faulty).0
    case DoTimer(i, now, faulty) => if i < |s.all| then Expire(s, i, now, faulty) else s
    case DoClose => Close(s)
  }

  ghost function After(s: State, es: seq<Event>): State {
    if es == [] then s else Apply(After(s, es[..|es| - 1]), es[|es| - 1])
  }

  // ----- Bytes -----

  function Sum(all: seq<Entry>): nat {
    if all == [] then 0 else Sum(all[..|all| - 1]) + all[|all| - 1].bytes
  }

  // What the first n entries hold, if retained.
  ghost function Held(s: State, n: nat): nat
    requires n <= |s.all|
  {
    if n == 0 then 0 else Held(s, n - 1) + (if n - 1 in s.retained then s.all[n - 1].bytes else 0)
  }

  lemma {:induction false} SumOfUpdate(all: seq<Entry>, i: nat, e: Entry)
    requires i < |all|
    ensures Sum(all[i := e]) == Sum(all) - all[i].bytes + e.bytes
  {
    var n := |all| - 1;
    if i < n {
      assert all[i := e][..n] == all[..n][i := e];
      SumOfUpdate(all[..n], i, e);
    } else {
      assert all[i := e][..n] == all[..n];
    }
  }

  ghost predicate Tallied(s: State) {
    s.totalBytes == Sum(s.all) <= s.maxTotalBytes
  }

  // An entry that is not live holds nothing; a live one is retained.
  ghost predicate Placed(s: State, i: nat)
    requires i < |s.all|
  {
    var e := s.all[i];
    && (!Live(e) ==> e.content == map[] && e.bytes == 0)
    && (Live(e) ==> i in s.retained && !s.closed)
    && (e.status.Active? ==> e.activated) && (e.status.Staged? ==> !e.activated)
    && (i !in s.retained ==> Ended(e.status) || s.closed)
  }

  ghost predicate AllPlaced(s: State) {
    && (forall i :: 0 <= i < |s.all| ==> Placed(s, i))
    && (forall i :: i in s.retained ==> i < |s.all|) && |s.retained| <= s.maxGenerations
    && (s.current.Some? ==> s.current.value < |s.all| && s.all[s.current.value].activated)
  }

  ghost predicate Inv(s: State) {
    Tallied(s) && AllPlaced(s)
  }

  // An entry keeps its material while it lives, and never lives again.
  ghost predicate Onward(e: Entry, f: Entry) {
    && f.expiresAt == e.expiresAt && (e.activated ==> f.activated)
    && (Live(f) ==> Live(e) && f.content == e.content && f.bytes == e.bytes)
    && (f.status.Staged? ==> e.status.Staged?)
  }

  ghost predicate Evolves(s: State, t: State) {
    && |s.all| <= |t.all| && t.maxGenerations == s.maxGenerations && t.maxTotalBytes == s.maxTotalBytes
    && (s.closed ==> t.closed)
    && (forall i :: 0 <= i < |s.all| ==> Onward(s.all[i], t.all[i]))
  }

  lemma DisposeKeeps(s: State, i: nat, to: Status)
    requires i < |s.all| && Inv(s) && !Live(Wiped(s.all[i], to))
    ensures var t := Dispose(s, i, to);
            Inv(t) && Evolves(s, t) && !Live(t.all[i]) && t.closed == s.closed && (to == Expired ==> Ended(t.all[i].status))
  {
    SumOfUpdate(s.all, i, Wiped(s.all[i], to));
    var t := Dispose(s, i, to);
    forall k | 0 <= k < |t.all|
      ensures Placed(t, k)
    {
      assert Placed(s, k);
    }
    assert t.retained <= s.retained;
    SubsetIsSmaller(t.retained, s.retained);
  }

  lemma {:induction false} DisposeFirstKeeps(s: State, n: nat)
    requires n <= |s.all| && Inv(s)
    ensures var t := DisposeFirst(s, n);
            Inv(t) && Evolves(s, t) && t.closed == s.closed && forall i :: 0 <= i < n ==> !Live(t.all[i])
  {
    if n > 0 {
      DisposeFirstKeeps(s, n - 1);
      var t := DisposeFirst(s, n - 1);
      assert Placed(t, n - 1) && Placed(s, n - 1);
      if n - 1 in s.retained {
        DisposeKeeps(t, n - 1, Unavailable);
        EvolvesThrough(s, t, Dispose(t, n - 1, Unavailable));
      }
    }
  }

  /** A closed store holds no live entry and no byte. */
  lemma CloseKeeps(s: State)
    requires Inv(s)
    ensures var t := Close(s);
            Inv(t) && Evolves(s, t) && t.closed && (forall i :: 0 <= i < |t.all| ==> !Live(t.all[i]))
  {
    if !s.closed {
      DisposeFirstKeeps(s, |s.all|);
      var m, t := DisposeFirst(s, |s.all|), Close(s);
      forall k | 0 <= k < |t.all|
        ensures Placed(t, k)
      {
        assert Placed(m, k);
      }
    } else {
      forall k | 0 <= k < |s.all|
        ensures !Live(s.all[k])
      {
        assert Placed(s, k);
      }
    }
  }

  lemma ExpireKeeps(s: State, i: nat, now: int, faulty: bool)
    requires i < |s.all| && Inv(s)
    ensures var t := Expire(s, i, now, faulty);
            && Inv(t) && Evolves(s, t) && (s.all[i].expiresAt <= now ==> !Live(t.all[i]))
            && (s.all[i].expiresAt > now ==> t == s)
  {
    assert Placed(s, i);
    if !Ended(s.all[i].status) && !s.closed && s.all[i].expiresAt <= now {
      DisposeKeeps(s, i, Expired);
      CloseKeeps(Dispose(s, i, Expired));
    }
  }

  /** A handle passes exactly when the store is open, the handle is its entry's present one, and
      the entry is active (or, where allowed, staged) and not yet due; nothing changes then. */
  lemma InspectExactly(s: State, h: Handle, allowStaged: bool, now: int, faulty: bool)
    requires Inv(s)
    ensures var (t, r) := Inspect(s, h, allowStaged, now, faulty);
            && Inv(t) && Evolves(s, t)
            && (r.Ok? <==> Known(s, h, allowStaged) && Live(s.all[h.id]) && s.all[h.id].expiresAt > now)
            && (r.Ok? ==> t == s && r.value == h.id && !s.closed)
  {
    if h.id < |s.all| {
      ExpireKeeps(s, h.id, now, faulty);
      assert Placed(s, h.id);
    }
  }

  lemma AddedKeeps(s: State, e: Entry)
    requires Inv(s) && !s.closed && |s.retained| < s.maxGenerations && s.totalBytes + e.bytes <= s.maxTotalBytes
    requires e.status.Staged? && !e.activated
    ensures Inv(Added(s, e)) && Evolves(s, Added(s, e))
  {
    var t := Added(s, e);
    assert t.all[..|t.all| - 1] == s.all;
    forall k | 0 <= k < |t.all|
      ensures Placed(t, k)
    {
      assert k < |s.all| ==> Placed(s, k);
    }
  }

  lemma PromotedKeeps(s: State, i: nat)
    requires Inv(s) && i < |s.all| && s.all[i].status.Staged?
    ensures Inv(Promoted(s, i)) && Evolves(s, Promoted(s, i))
  {
    var t := Promoted(s, i);
    SumOfUpdate(s.all, i, t.all[i]);
    forall k | 0 <= k < |t.all|
      ensures Placed(t, k)
    {
      assert Placed(s, k);
    }
  }

  lemma EvolvesThrough(s: State, t: State, u: State)
    requires Evolves(s, t) && Evolves(t, u)
    ensures Evolves(s, u)
  {
    forall i | 0 <= i < |s.all|
      ensures Onward(s.all[i], u.all[i])
    {
      assert Onward(s.all[i], t.all[i]) && Onward(t.all[i], u.all[i]);
    }
  }

  lemma ActivateKeeps(s: State, h: Handle, expected: Option<nat>, now: int, faulty: bool)
    requires Inv(s)
    ensures var (t, r) := Activate(s, h, expected, now, faulty);
            && Inv(t) && Evolves(s, t)
            && (r.Ok? ==> expected == s.current && h == OfStaged(h.id) && Known(s, h, true)
                          && t == Promoted(s, h.id) && s.all[h.id].status.Staged? && s.all[h.id].expiresAt > now)
  {
    InspectExactly(s, h, true, now, faulty);
    var (t, r) := Inspect(s, h, true, now, faulty);
    if r.Ok? && t.all[r.value].status.Staged? {
      assert Placed(s, h.id);
      PromotedKeeps(t, r.value);
      CloseKeeps(Promoted(t, r.value));
      EvolvesThrough(s, Promoted(t, r.value), Close(Promoted(t, r.value)));
    }
  }

  lemma PublishKeeps(s: State, t: State, faulty: bool)
    requires Inv(t) && Evolves(s, t)
    ensures Inv(Publish(t, faulty)) && Evolves(s, Publish(t, faulty))
    ensures Evolves(t, Publish(t, faulty))
  {
    CloseKeeps(t);
    EvolvesThrough(s, t, Publish(t, faulty));
  }

  lemma WithdrawKeeps(s: State, h: Handle, to: Status, now: int, faulty: bool)
    requires Inv(s) && (to == Revoked || to == Unavailable)
    ensures var (t, r) := Withdraw(s, h, to, now, faulty);
            Inv(t) && Evolves(s, t) && (h.id < |s.all| && Known(s, h, false) ==> !Live(t.all[h.id]))
  {
    InspectExactly(s, h, false, now, faulty);
    var (t, r) := Inspect(s, h, false, now, faulty);
    if r.Ok? {
      DisposeKeeps(t, r.value, to);
      var u := Dispose(t, r.value, to);
      ExpireKeeps(u, r.value, now, faulty);
      var v := Expire(u, r.value, now, faulty);
      EvolvesThrough(s, u, v);
      PublishKeeps(s, v, faulty);
    } else if Known(s, h, false) {
      ExpireKeeps(s, h.id, now, faulty);
      assert Placed(s, h.id);
    }
  }

  lemma ReleaseKeeps(s: State, h: Handle, faulty: bool)
    requires Inv(s)
    ensures var (t, r) := Release(s, h, faulty); Inv(t) && Evolves(s, t) && (r.Ok? ==> !Live(t.all[h.id]))
  {
    if Known(s, h, true) {
      DisposeKeeps(s, h.id, Released);
      PublishKeeps(s, Dispose(s, h.id, Released), faulty);
    }
  }

  lemma StepKeeps(s: State, e: Event)
    requires Inv(s)
    ensures Inv(Apply(s, e)) && Evolves(s, Apply(s, e))
  {
    match e
    case DoStage(m, now) =>
      if Stage(s, m, now).1.Ok? {
        AddedKeeps(s, Entry(M.ContentOf(m.providers), M.SizeOf(m.providers), Staged, m.expiresAt, false));
      }
    case DoActivate(h, expected, now, faulty) => ActivateKeeps(s, h, expected, now, faulty);
    case DoInspect(h, now, faulty) => InspectExactly(s, h, false, now, faulty);
    case DoWithdraw(h, revoked, now, faulty) => WithdrawKeeps(s, h, if revoked then Revoked else Unavailable, now, faulty);
    case DoRelease(h, faulty) => ReleaseKeeps(s, h, faulty);
    case DoTimer(i, now, faulty) =>
      if i < |s.all| {
        ExpireKeeps(s, i, now, faulty);
      }
    case DoClose => CloseKeeps(s);
  }

  lemma {:induction false} HeldIsSum(s: State, n: nat)
    requires n <= |s.all| && AllPlaced(s)
    ensures Held(s, n) == Sum(s.all[..n])
  {
    if n > 0 {
      HeldIsSum(s, n - 1);
      assert s.all[..n][..n - 1] == s.all[..n - 1];
      assert Placed(s, n - 1);
    }
  }

  /** Over every run the byte count is the sum over the retained entries, both capacities hold,
      and whatever is not staged or active has been wiped. */
  lemma {:induction false} EveryRun(s: State, es: seq<Event>)
    requires s == Start(s.maxGenerations, s.maxTotalBytes)
    ensures var t := After(s, es);
            && Inv(t) && Evolves(s, t)
            && t.totalBytes == Held(t, |t.all|) <= s.maxTotalBytes && |t.retained| <= s.maxGenerations
    decreases |es|
  {
    if es != [] {
      var past := es[..|es| - 1];
      EveryRun(s, past);
      StepKeeps(After(s, past), es[|es| - 1]);
      EvolvesThrough(s, After(s, past), After(s, es));
    }
    var t := After(s, es);
    HeldIsSum(t, |t.all|);
    assert t.all[..|t.all|] == t.all;
  }

  /** An entry that has left staged and active after a prefix of a run never comes back, and one
      that is still live holds the very material it held then. */
  lemma {:induction false} RunEvolves(s: State, es: seq<Event>, n: nat)
    requires s == Start(s.maxGenerations, s.maxTotalBytes) && n <= |es|
    ensures Evolves(After(s, es[..n]), After(s, es))
    decreases |es|
  {
    if n == |es| {
      assert es[..n] == es;
    } else {
      var past := es[..|es| - 1];
      assert past[..n] == es[..n];
      RunEvolves(s, past, n);
      EveryRun(s, past);
      StepKeeps(After(s, past), es[|es| - 1]);
      EvolvesThrough(After(s, es[..n]), After(s, past), After(s, es));
    }
  }

  /** `resolve` answers exactly when the entry is active and not yet due and holds that key. */
  lemma ResolveExactly(s: State, h: Handle, provider: string, key: string, now: int, faulty: bool, secret: string)
    requires Inv(s)
    ensures Resolve(s, h, provider, key, now, faulty).1 == Ok(secret) <==>
            && Known(s, h, false) && s.all[h.id].status.Active? && s.all[h.id].expiresAt > now
            && M.IsIdentifier(provider) && M.IsMaterialKey(key) && M.Holds(s.all[h.id].content, provider, key, secret)
  {
    InspectExactly(s, h, false, now, faulty);
    if h.id < |s.all| {
      assert Placed(s, h.id);
    }
  }

  /** Whatever happened since, a secret that resolves is the one staged under that key: at step n
      the material was staged as entry `h.id`. */
  lemma ResolveIsStaged(s: State, es: seq<Event>, n: nat, h: Handle, provider: string, key: string, now: int, faulty: bool)
    requires s == Start(s.maxGenerations, s.maxTotalBytes) && n < |es| && es[n].DoStage? && M.IsRecord(es[n].m.providers)
    requires Stage(After(s, es[..n]), es[n].m, es[n].now).1 == Ok(h.id)
    ensures var r := Resolve(After(s, es), h, provider, key, now, faulty).1;
            r.Ok? ==> M.Given(es[n].m.providers, provider, key, r.value) && now < es[n].m.expiresAt
  {
    var upTo := es[..n + 1];
    assert upTo[..|upTo| - 1] == es[..n];
    EveryRun(s, es);
    RunEvolves(s, es, n + 1);
    var t := After(s, es);
    var r := Resolve(t, h, provider, key, now, faulty).1;
    if r.Ok? {
      ResolveExactly(t, h, provider, key, now, faulty, r.value);
      assert Onward(After(s, upTo).all[h.id], t.all[h.id]);
      M.CopyIsExact(es[n].m.providers, provider, key, r.value);
    }
  }

  lemma LastWithdraws(s: State, es: seq<Event>)
    requires s == Start(s.maxGenerations, s.maxTotalBytes) && es != [] && es[|es| - 1].DoWithdraw?
    requires Known(After(s, es[..|es| - 1]), es[|es| - 1].h, false)
    ensures var t, h := After(s, es), es[|es| - 1].h; h.id < |t.all| && !Live(t.all[h.id])
  {
    var past, e := es[..|es| - 1], es[|es| - 1];
    EveryRun(s, past);
    WithdrawKeeps(After(s, past), e.h, if e.revoked then Revoked else Unavailable, e.now, e.faulty);
  }

  lemma DeadResolvesNothing(s: State, h: Handle, provider: string, key: string, now: int, faulty: bool)
    requires Inv(s) && h.id < |s.all| && !Live(s.all[h.id])
    ensures Resolve(s, h, provider, key, now, faulty).1.Err?
  {
    InspectExactly(s, h, false, now, faulty);
  }

  /** A generation withdrawn at step n resolves nothing from then on. */
  lemma WithdrawnForGood(s: State, es: seq<Event>, n: nat, provider: string, key: string, now: int, faulty: bool)
    requires s == Start(s.maxGenerations, s.maxTotalBytes) && n < |es| && es[n].DoWithdraw?
    requires Known(After(s, es[..n]), es[n].h, false)
    ensures Resolve(After(s, es), es[n].h, provider, key, now, faulty).1.Err?
  {
    var upTo := es[..n + 1];
    assert upTo[..|upTo| - 1] == es[..n];
    LastWithdraws(s, upTo);
    RunEvolves(s, es, n + 1);
    EveryRun(s, es);
    assert Onward(After(s, upTo).all[es[n].h.id], After(s, es).all[es[n].h.id]);
    DeadResolvesNothing(After(s, es), es[n].h, provider, key, now, faulty);
  }

  /** Staging succeeds when the store is open, the material valid and both capacities have room;
      the new entry then holds exactly the secrets given. */
  lemma StageExactly(s: State, m: M.Material, now: int, provider: string, key: string, secret: string)
    requires Inv(s) && M.IsRecord(m.providers)
    ensures var (t, r) := Stage(s, m, now);
            && (r.Ok? <==> !s.closed && M.Accepts(m, now) && |s.retained| < s.maxGenerations
                           && Sum(s.all) + M.SizeOf(m.providers) <= s.maxTotalBytes)
            && (r.Ok? ==> r.value == |s.all| && t.all[..|s.all|] == s.all && t.all[r.value].status.Staged?
                          && (M.Holds(t.all[r.value].content, provider, key, secret) <==> M.Given(m.providers, provider, key, secret)))
            && (r.Err? ==> t == s)
  {
    M.CopyIsExact(m.providers, provider, key, secret);
  }

  /** What is captured is the current generation, in force, and nothing else. */
  lemma CaptureIsCurrent(s: State, now: int, faulty: bool, i: nat)
    requires Inv(s)
    ensures Capture(s, now, faulty).1 == Ok(i) <==>
            !s.closed && s.current == Some(i) && s.all[i].status.Active? && s.all[i].expiresAt > now
  {
    if s.current.Some? {
      InspectExactly(s, OfGeneration(s.current.value), false, now, faulty);
      assert Placed(s, s.current.value);
    }
  }

  /** Activation is a compare-and-set on the current generation and needs a live staged entry. */
  lemma ActivateIsCas(s: State, h: Handle, expected: Option<nat>, now: int, faulty: bool)
    requires Inv(s)
    ensures var (t, r) := Activate(s, h, expected, now, faulty);
            && (r.Ok? <==> !s.closed && expected == s.current && h.OfStaged? && Known(s, h, true)
                           && Live(s.all[h.id]) && s.all[h.id].expiresAt > now && !faulty)
            && (r.Ok? ==> t.current == Some(h.id) && t.all[h.id].status.Active? && t.all[h.id].content == s.all[h.id].content)
            && (r.Err? && !t.closed ==> t.current == s.current)
  {
    InspectExactly(s, h, true, now, faulty);
    if h.id < |s.all| {
      assert Placed(s, h.id);
    }
  }

  class Store {
    var all: seq<Entry>
    var retained: set<nat>
    var current: Option<nat>
    var totalBytes: int
    var closed: bool
    const maxGenerations: nat
    const maxTotalBytes: nat

    function View(): State
      reads this
    {
      State(all, retained, current, totalBytes, closed, maxGenerations, maxTotalBytes)
    }

    constructor (maxGenerations: nat, maxTotalBytes: nat)
      ensures View() == Start(maxGenerations, maxTotalBytes)
      ensures Inv(View())
    {
      all, retained, current, totalBytes, closed := [], {}, None, 0, false;
      this.maxGenerations, this.maxTotalBytes := maxGenerations, maxTotalBytes;
    }

    method Wipe(i: nat, to: Status)
      requires i < |all|
      modifies this
      ensures View() == Dispose(old(View()), i, to)
    {
      if Ended(all[i].status) {
        return;
      }
      totalBytes := totalBytes - all[i].bytes;
      all := all[i := Wiped(all[i], to)];
      if Ended(to) {
        retained := retained - {i};
      }
    }

    method CloseStore()
      requires Inv(View())
      modifies this
      ensures View() == Close(old(View()))
      ensures Inv(View()) && forall i :: 0 <= i < |all| ==> !Live(all[i])
    {
      CloseKeeps(View());
      if closed {
        return;
      }
      closed := true;
      for i := 0 to |all|
        invariant |all| == |old(all)| && retained == old(retained)
        invariant View() == DisposeFirst(old(View()), i).(closed := true)
      {
        assert DisposeFirst(old(View()), i + 1)
            == if i in old(retained) then Dispose(DisposeFirst(old(View()), i), i, Unavailable) else DisposeFirst(old(View()), i);
        if i in retained {
          Wipe(i, Unavailable);
        }
      }
      retained, current := {}, None;
    }

    method ExpireEntry(i: nat, now: int, faulty: bool)
      requires i < |all| && Inv(View())
      modifies this
      ensures View() == Expire(old(View()), i, now, faulty)
      ensures Inv(View())
    {
      ExpireKeeps(View(), i, now, faulty);
      if Ended(all[i].status) || closed || all[i].expiresAt > now {
        return;
      }
      DisposeKeeps(View(), i, Expired);
      Wipe(i, Expired);
      if faulty {
        CloseStore();
      }
    }

    method Check(h: Handle, allowStaged: bool, now: int, faulty: bool) returns (r: Result<nat, Error>)
      requires Inv(View())
      modifies this
      ensures (View(), r) == Inspect(old(View()), h, allowStaged, now, faulty)
      ensures Inv(View())
    {
      if closed {
        return Err(Gone);
      }
      if !Known(View(), h, allowStaged) {
        return Err(Denied);
      }
      ExpireEntry(h.id, now, faulty);
      var status := all[h.id].status;
      if h.id !in retained || !(status.Active? || (allowStaged && status.Staged?)) {
        return Err(if status.Unavailable? then Gone else Denied);
      }
      r := Ok(h.id);
    }

    method StageMaterial(m: M.Material, now: int) returns (r: Result<nat, Error>)
      requires Inv(View())
      modifies this
      ensures (View(), r) == Stage(old(View()), m, now)
      ensures Inv(View())
    {
      StepKeeps(View(), DoStage(m, now));
      if closed {
        return Err(Gone);
      }
      var copied := M.Copy(m, now);
      if copied.None? {
        return Err(Invalid);
      }
      var bytes := copied.value.bytes;
      if |retained| >= maxGenerations || totalBytes + bytes > maxTotalBytes {
        return Err(Capacity);
      }
      r := Ok(|all|);
      retained := retained + {|all|};
      all := all + [Entry(copied.value.content, bytes, Staged, m.expiresAt, false)];
      totalBytes := totalBytes + bytes;
    }

    method ActivateStaged(h: Handle, expected: Option<nat>, now: int, faulty: bool) returns (r: Result<nat, Error>)
      requires Inv(View())
      modifies this
      ensures (View(), r) == Activate(old(View()), h, expected, now, faulty)
      ensures Inv(View())
    {
      ActivateKeeps(View(), h, expected, now, faulty);
      if closed {
        return Err(Gone);
      }
      if expected != current {
        return Err(Conflict);
      }
      r := Check(h, true, now, faulty);
      if r.Err? {
        return;
      }
      if !all[h.id].status.Staged? {
        return Err(Denied);
      }
      PromotedKeeps(View(), h.id);
      all := all[h.id := all[h.id].(status := Active, activated := true)];
      current := Some(h.id);
      if faulty {
        CloseStore();
        return Err(Gone);
      }
    }

    method WithdrawGeneration(h: Handle, to: Status, now: int, faulty: bool) returns (r: Result<nat, Error>)
      requires Inv(View()) && (to == Revoked || to == Unavailable)
      modifies this
      ensures (View(), r) == Withdraw(old(View()), h, to, now, faulty)
      ensures Inv(View()) && (r.Ok? ==> !Live(all[h.id]))
    {
      WithdrawKeeps(View(), h, to, now, faulty);
      r := Check(h, false, now, faulty);
      if r.Err? {
        return;
      }
      InspectExactly(old(View()), h, false, now, faulty);
      DisposeKeeps(View(), h.id, to);
      Wipe(h.id, to);
      ExpireEntry(h.id, now, faulty);
      if faulty {
        CloseStore();
      }
    }

    method ReleaseEntry(h: Handle, faulty: bool) returns (r: Result<nat, Error>)
      requires Inv(View())
      modifies this
      ensures (View(), r) == Release(old(View()), h, faulty)
      ensures Inv(View())
    {
      if closed {
        return Err(Gone);
      }
      if !Known(View(), h, true) {
        return Err(Denied);
      }
      r := Ok(h.id);
      if Ended(all[h.id].status) {
        return;
      }
      DisposeKeeps(View(), h.id, Released);
      Wipe(h.id, Released);
      if faulty {
        CloseStore();
      }
    }

    method ResolveSecret(h: Handle, provider: string, key: string, now: int, faulty: bool) returns (r: Result<string, Error>)
      requires Inv(View())
      modifies this
      ensures (View(), r) == Resolve(old(View()), h, provider, key, now, faulty)
      ensures Inv(View())
    {
      var i := Check(h, false, now, faulty);
      if i.Err? {
        return Err(i.error);
      }
      var content := all[i.value].content;
      if !M.IsIdentifier(provider) || (provider in content && !M.IsMaterialKey(key)) {
        return Err(Invalid);
      }
      if provider in content && key in content[provider] {
        return Ok(content[provider][key]);
      }
      r := Err(Denied);
    }
  }
}
