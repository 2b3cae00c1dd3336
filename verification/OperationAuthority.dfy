/**
 Network operations: admission under a limit shared with orphaned captures, revocation per
 source, and revalidation against the security epoch before every use.

 Every synchronous part of `begin` that an await separates from the next, or that reads the
 epoch once more, is a step: Enter, Launch (the capture is started), SettleCapture and Complete
 (the context is stored), with Validate before each. The answers of the host's callbacks are
 arguments of the steps; `observed` is None when the epoch reader throws.
 */
module OperationAuthority {
  import opened Common

  datatype Slot = Slot(generation: nat, lastEpoch: Option<nat>, revoked: bool, blocked: Option<nat>, unknown: bool, operations: set<nat>)

  datatype Entry = Entry(source: string, epoch: nat, generation: nat, closed: bool, capturePending: bool, hasContext: bool)

  datatype State = State(slots: map<string, Slot>, entries: seq<Entry>, count: int, orphans: int, limit: nat, sourceLimit: nat)

  function Start(limit: nat, sourceLimit: nat): State {
    State(map[], [], 0, 0, limit, sourceLimit)
  }

  // ----- The closures of the authority -----

  function Stop(s: State, i: nat): State
    requires i < |s.entries|
  {
    var e := s.entries[i];
    if e.closed || e.source !in s.slots then s
    else
      var slot := s.slots[e.source];
      s.(entries := s.entries[i := e.(closed := true, hasContext := false)],
         slots := s.slots[e.source := slot.(operations := slot.operations - {i})],
         count := s.count - 1,
         orphans := if e.capturePending then s.orphans + 1 else s.orphans)
  }

  // The same operations, some of them closed by now.
  ghost predicate Closes(s: State, t: State) {
    && |t.entries| == |s.entries| && t.slots.Keys == s.slots.Keys
    && (forall i :: 0 <= i < |s.entries| ==>
          t.entries[i] == s.entries[i] || t.entries[i] == s.entries[i].(closed := true, hasContext := false))
  }

  // Stops the operations of a slot among the first n entries.
  function StopFirst(s: State, source: string, n: nat): (t: State)
    requires n <= |s.entries| && source in s.slots
    ensures |t.entries| == |s.entries| && source in t.slots
  {
    if n == 0 then s
    else
      var t := StopFirst(s, source, n - 1);
      if n - 1 in t.slots[source].operations then Stop(t, n - 1) else t
  }

  function StopSource(s: State, source: string): State
    requires source in s.slots
  {
    StopFirst(s, source, |s.entries|)
  }

  predicate Blocked(slot: Slot, observed: nat) {
    slot.revoked && (slot.unknown || Some(observed) == slot.blocked)
  }

  function Epoch(s: State, source: string, observed: Option<nat>): (r: (State, bool))
    requires source in s.slots
    ensures |r.0.entries| == |s.entries| && source in r.0.slots
  {
    if observed.None? then (StopSource(s, source), false)
    else if Blocked(s.slots[source], observed.value) then (s, false)
    else (s.(slots := s.slots[source := s.slots[source].(lastEpoch := observed)]), true)
  }

  // `late` stands for the deadline tests before or after the epoch is read.
  function Validate(s: State, i: nat, observed: Option<nat>, late: bool, authorized: bool): (State, bool)
    requires i < |s.entries|
  {
    var e := s.entries[i];
    if e.closed || e.source !in s.slots then (s, false)
    else if late then (Stop(s, i), false)
    else
      var (t, ok) := Epoch(s, e.source, observed);
      if ok && !t.entries[i].closed && t.slots[e.source].generation == e.generation && observed == Some(e.epoch)
         && (e.hasContext ==> authorized)
      then (t, true)
      else (Stop(t, i), false)
  }

  function SlotFor(s: State, source: string): Option<State> {
    if source in s.slots then Some(s)
    else if |s.slots| >= s.sourceLimit then None
    else Some(s.(slots := s.slots[source := Slot(0, None, false, None, false, {})]))
  }

  function Enter(s: State, source: string, observed: Option<nat>): (State, bool) {
    var slotted := SlotFor(s, source);
    if s.count + s.orphans >= s.limit || slotted.None? then (s, false)
    else
      var (t, ok) := Epoch(slotted.value, source, observed);
      if ok then (Add(t, source, observed.value), true) else (t, false)
  }

  function Add(s: State, source: string, epoch: nat): State
    requires source in s.slots
  {
    var slot := s.slots[source];
    s.(entries := s.entries + [Entry(source, epoch, slot.generation, false, false, false)],
       slots := s.slots[source := slot.(operations := slot.operations + {|s.entries|})],
       count := s.count + 1)
  }

  function Revoke(s: State, source: string, observed: Option<nat>): State {
    var slotted := SlotFor(s, source);
    if slotted.None? then s else StopSource(Barred(slotted.value, source, observed), source)
  }

  function Barred(s: State, source: string, observed: Option<nat>): State
    requires source in s.slots
  {
    var slot := s.slots[source];
    var blocked := if slot.lastEpoch.Some? then slot.lastEpoch else observed;
    s.(slots := s.slots[source :=
         slot.(generation := slot.generation + 1, revoked := true, blocked := blocked, unknown := blocked.None?)])
  }

  datatype Event =
    | DoEnter(source: string, observed: Option<nat>)
    | DoValidate(op: nat, observed: Option<nat>, late: bool, authorized: bool)
    | DoLaunch(op: nat, observed: Option<nat>, late: bool)
    | DoSettle(op: nat)
    | DoComplete(op: nat)
    | DoStop(op: nat)
    | DoRevoke(source: string, observed: Option<nat>)

  predicate Enabled(s: State, e: Event) {
    match e
    case DoEnter(_, _) => true
    case DoValidate(i, _, _, _) => i < |s.entries|
    case DoLaunch(i, _, _) => i < |s.entries| && !s.entries[i].capturePending && !s.entries[i].hasContext
    case DoSettle(i) => i < |s.entries| && s.entries[i].capturePending
    case DoComplete(i) => i < |s.entries| && !s.entries[i].closed && !s.entries[i].capturePending
    case DoStop(i) => i < |s.entries|
    case DoRevoke(_, _) => true
  }

  // The source whose epoch a step reads.
  function Subject(s: State, e: Event): Option<string>
    requires Enabled(s, e)
  {
    match e
    case DoEnter(source, _) => Some(source)
    case DoRevoke(source, _) => Some(source)
    case DoValidate(i, _, _, _) => Some(s.entries[i].source)
    case DoLaunch(i, _, _) => Some(s.entries[i].source)
    case _ => None
  }

  function Apply(s: State, e: Event): State
    requires Enabled(s, e)
  {
    match e
    case DoEnter(source, observed) => Enter(s, source, observed).0
    case DoValidate(i, observed, late, authorized) => Validate(s, i, observed, late, authorized).0
    case DoLaunch(i, observed, late) =>
      var (t, ok) := Validate(s, i, observed, late, true);
      if ok && i < |t.entries| then t.(entries := t.entries[i := t.entries[i].(capturePending := true)]) else t
    case DoSettle(i) =>
      var e := s.entries[i];
      s.(entries := s.entries[i := e.(capturePending := false)], orphans := if e.closed then s.orphans - 1 else s.orphans)
    case DoComplete(i) => s.(entries := s.entries[i := s.entries[i].(hasContext := true)])
    case DoStop(i) => Stop(s, i)
    case DoRevoke(source, observed) => Revoke(s, source, observed)
  }

  // What `assertCurrent` answers for a handle.
  function Current(s: State, i: nat, observed: Option<nat>, late: bool, authorized: bool): bool
    requires i < |s.entries|
  {
    s.entries[i].hasContext && Validate(s, i, observed, late, authorized).1
  }

  // ----- The counters -----

  // Open operations, and orphaned captures, among the first n.
  function Opened(entries: seq<Entry>, n: nat): nat
    requires n <= |entries|
  {
    if n == 0 then 0 else Opened(entries, n - 1) + (if entries[n - 1].closed then 0 else 1)
  }

  function Orphaned(entries: seq<Entry>, n: nat): nat
    requires n <= |entries|
  {
    if n == 0 then 0 else Orphaned(entries, n - 1) + (if Orphan(entries[n - 1]) then 1 else 0)
  }

  predicate Orphan(e: Entry) {
    e.closed && e.capturePending
  }

  lemma {:induction false} CountsOfUpdate(entries: seq<Entry>, n: nat, i: nat, e: Entry)
    requires i < n <= |entries|
    ensures Opened(entries[i := e], n) == Opened(entries, n) - (if entries[i].closed then 0 else 1) + (if e.closed then 0 else 1)
    ensures Orphaned(entries[i := e], n) == Orphaned(entries, n) - (if Orphan(entries[i]) then 1 else 0) + (if Orphan(e) then 1 else 0)
  {
    if i < n - 1 {
      CountsOfUpdate(entries, n - 1, i, e);
    } else {
      CountsAlike(entries, entries[i := e], n - 1);
    }
  }

  lemma {:induction false} CountsAlike(a: seq<Entry>, b: seq<Entry>, n: nat)
    requires n <= |a| && n <= |b| && forall i :: 0 <= i < n ==> a[i] == b[i]
    ensures Opened(a, n) == Opened(b, n) && Orphaned(a, n) == Orphaned(b, n)
  {
    if n > 0 {
      CountsAlike(a, b, n - 1);
    }
  }

  ghost predicate Counted(s: State) {
    s.count == Opened(s.entries, |s.entries|) && s.orphans == Orphaned(s.entries, |s.entries|) && s.count + s.orphans <= s.limit
  }

  // A slot lists exactly the open operations of its source.
  ghost predicate Linked(s: State) {
    && (forall i :: 0 <= i < |s.entries| && !s.entries[i].closed ==>
          s.entries[i].source in s.slots && i in s.slots[s.entries[i].source].operations)
    && (forall source, i: nat :: source in s.slots && i in s.slots[source].operations ==> Lists(s, source, i))
  }

  ghost predicate Lists(s: State, source: string, i: nat) {
    i < |s.entries| && !s.entries[i].closed && s.entries[i].source == source
  }

  // An open operation carries its slot's generation and an epoch that the slot does not block.
  ghost predicate Fresh(s: State, i: nat)
    requires i < |s.entries|
  {
    var e := s.entries[i];
    !e.closed ==>
      e.source in s.slots && e.generation == s.slots[e.source].generation && !Blocked(s.slots[e.source], e.epoch)
  }

  ghost predicate AllFresh(s: State) {
    forall i :: 0 <= i < |s.entries| ==> Fresh(s, i)
  }

  ghost predicate Inv(s: State) {
    Counted(s) && Linked(s) && AllFresh(s)
  }

  // What a step may do to the operations there were: close them, or move an open one along.
  ghost predicate Evolves(s: State, t: State) {
    && |s.entries| <= |t.entries| && t.limit == s.limit && t.sourceLimit == s.sourceLimit
    && (forall i :: 0 <= i < |s.entries| ==>
          && t.entries[i].source == s.entries[i].source && t.entries[i].epoch == s.entries[i].epoch
          && t.entries[i].generation == s.entries[i].generation
          && (s.entries[i].closed ==> t.entries[i].closed))
  }

  // Slots keep everything but their list of operations.
  ghost predicate SameSlots(s: State, t: State) {
    && t.slots.Keys == s.slots.Keys
    && forall k :: k in s.slots ==> t.slots[k] == s.slots[k].(operations := t.slots[k].operations)
  }

  lemma StopKeeps(s: State, i: nat)
    requires i < |s.entries| && Counted(s) && Linked(s)
    ensures var t := Stop(s, i);
            Counted(t) && Linked(t) && Closes(s, t) && Evolves(s, t) && SameSlots(s, t) && t.entries[i].closed
    ensures Stop(s, i).count + Stop(s, i).orphans <= s.count + s.orphans
  {
    if !s.entries[i].closed {
      CountsOfUpdate(s.entries, |s.entries|, i, s.entries[i].(closed := true, hasContext := false));
    }
    var t := Stop(s, i);
    forall source, k: nat | source in t.slots && k in t.slots[source].operations
      ensures Lists(t, source, k)
    {
      assert k in s.slots[source].operations;
      assert Lists(s, source, k);
    }
  }

  // t is s with the operations of a source stopped among the first n.
  ghost predicate Stopped(s: State, t: State, source: string, n: nat)
    requires n <= |s.entries|
  {
    && Counted(t) && Linked(t) && Closes(s, t) && SameSlots(s, t) && Evolves(s, t)
    && t.count + t.orphans <= s.count + s.orphans
    && (forall i :: 0 <= i < n && t.entries[i].source == source ==> t.entries[i].closed)
  }

  lemma StopOneMore(s: State, t: State, source: string, n: nat)
    requires n < |s.entries| && Stopped(s, t, source, n) && source in t.slots
    ensures Stopped(s, if n in t.slots[source].operations then Stop(t, n) else t, source, n + 1)
  {
    if n in t.slots[source].operations {
      StopKeeps(t, n);
      ChainKeeps(s, t, Stop(t, n));
    }
  }

  lemma {:induction false} StopFirstKeeps(s: State, source: string, n: nat)
    requires n <= |s.entries| && source in s.slots && Counted(s) && Linked(s)
    ensures Stopped(s, StopFirst(s, source, n), source, n)
  {
    if n > 0 {
      StopFirstKeeps(s, source, n - 1);
      StopOneMore(s, StopFirst(s, source, n - 1), source, n - 1);
    }
  }

  lemma ChainKeeps(s: State, t: State, u: State)
    requires Closes(s, t) && SameSlots(s, t) && Evolves(s, t)
    requires Closes(t, u) && SameSlots(t, u) && Evolves(t, u)
    ensures Closes(s, u) && SameSlots(s, u) && Evolves(s, u)
  {
    assert forall i :: 0 <= i < |t.entries| ==>
        u.entries[i] == t.entries[i] || u.entries[i] == t.entries[i].(closed := true, hasContext := false);
  }

  /** Stopping a source closes all its operations and no other slot's facts change. */
  lemma StopSourceKeeps(s: State, source: string)
    requires source in s.slots && Counted(s) && Linked(s)
    ensures Stopped(s, StopSource(s, source), source, |s.entries|)
  {
    StopFirstKeeps(s, source, |s.entries|);
  }

  lemma ClosingKeepsFresh(s: State, t: State)
    requires AllFresh(s) && Closes(s, t) && SameSlots(s, t)
    ensures AllFresh(t)
  {
    forall i | 0 <= i < |t.entries|
      ensures Fresh(t, i)
    {
      assert Fresh(s, i);
    }
  }

  lemma EpochKeeps(s: State, source: string, observed: Option<nat>)
    requires Inv(s) && source in s.slots
    ensures var (t, ok) := Epoch(s, source, observed);
            && Inv(t) && Evolves(s, t) && t.count + t.orphans <= s.count + s.orphans
            && (ok ==> observed.Some? && t.entries == s.entries && !Blocked(s.slots[source], observed.value)
                       && t.slots == s.slots[source := s.slots[source].(lastEpoch := observed)])
  {
    if observed.None? {
      StopSourceKeeps(s, source);
      ClosingKeepsFresh(s, StopSource(s, source));
    } else if !Blocked(s.slots[source], observed.value) {
      var t := Epoch(s, source, observed).0;
      forall i | 0 <= i < |t.entries|
        ensures Fresh(t, i)
      {
        assert Fresh(s, i);
      }
    }
  }

  /** Validation succeeds only on an open operation, before its deadline, of the slot's present
      generation and under the very epoch it began with; a failure closes it. */
  lemma ValidateKeeps(s: State, i: nat, observed: Option<nat>, late: bool, authorized: bool)
    requires Inv(s) && i < |s.entries|
    ensures var (t, ok) := Validate(s, i, observed, late, authorized);
            && Inv(t) && Evolves(s, t)
            && (ok ==> !s.entries[i].closed && t.entries == s.entries && observed == Some(s.entries[i].epoch))
            && (!ok ==> t.entries[i].closed)
  {
    var e := s.entries[i];
    if !e.closed {
      assert Fresh(s, i);
      if late {
        StopKeeps(s, i);
        ClosingKeepsFresh(s, Stop(s, i));
      } else {
        EpochKeeps(s, e.source, observed);
        var t := Epoch(s, e.source, observed).0;
        StopKeeps(t, i);
        ClosingKeepsFresh(t, Stop(t, i));
      }
    }
  }

  lemma SlotForKeeps(s: State, source: string)
    requires Inv(s) && SlotFor(s, source).Some?
    ensures var t := SlotFor(s, source).value;
            Inv(t) && Evolves(s, t) && source in t.slots && t.entries == s.entries && t.count == s.count && t.orphans == s.orphans
    ensures source in s.slots ==> SlotFor(s, source).value == s
    ensures forall k :: k in s.slots ==> k in SlotFor(s, source).value.slots
  {
    var t := SlotFor(s, source).value;
    forall i | 0 <= i < |t.entries|
      ensures Fresh(t, i)
    {
      assert Fresh(s, i);
    }
    forall k, i: nat | k in t.slots && i in t.slots[k].operations
      ensures Lists(t, k, i)
    {
      assert Lists(s, k, i);
    }
  }

  lemma AddKeeps(s: State, source: string, epoch: nat)
    requires Inv(s) && source in s.slots && !Blocked(s.slots[source], epoch) && s.count + s.orphans < s.limit
    ensures var t := Add(s, source, epoch); Inv(t) && Evolves(s, t)
  {
    var t := Add(s, source, epoch);
    CountsAlike(s.entries, t.entries, |s.entries|);
    forall i | 0 <= i < |t.entries|
      ensures Fresh(t, i)
    {
      assert i < |s.entries| ==> Fresh(s, i);
    }
    forall k, i: nat | k in t.slots && i in t.slots[k].operations
      ensures Lists(t, k, i)
    {
      assert i < |s.entries| ==> i in s.slots[k].operations;
      assert i < |s.entries| ==> Lists(s, k, i);
      assert i == |s.entries| ==> k == source by {
        assert k in s.slots && i in s.slots[k].operations ==> Lists(s, k, i);
      }
    }
  }

  lemma EnterKeeps(s: State, source: string, observed: Option<nat>)
    requires Inv(s)
    ensures var t := Enter(s, source, observed).0; Inv(t) && Evolves(s, t)
  {
    if s.count + s.orphans < s.limit && SlotFor(s, source).Some? {
      SlotForKeeps(s, source);
      var m := SlotFor(s, source).value;
      EpochKeeps(m, source, observed);
      var (t, ok) := Epoch(m, source, observed);
      if ok {
        AddKeeps(t, source, observed.value);
      }
    }
  }

  // Moving a capture along changes neither the slots nor which operations are open.
  lemma CaptureKeeps(s: State, t: State, i: nat, e: Entry)
    requires Inv(s) && i < |s.entries|
    requires e == s.entries[i].(capturePending := e.capturePending, hasContext := e.hasContext)
    requires t == s.(entries := s.entries[i := e], orphans := t.orphans)
    requires t.orphans == s.orphans - (if Orphan(s.entries[i]) then 1 else 0) + (if Orphan(e) then 1 else 0)
    requires !Orphan(e) || Orphan(s.entries[i])
    ensures Inv(t) && Evolves(s, t)
  {
    CountsOfUpdate(s.entries, |s.entries|, i, e);
    forall k | 0 <= k < |t.entries|
      ensures Fresh(t, k)
    {
      assert Fresh(s, k);
    }
    forall k, j: nat | k in t.slots && j in t.slots[k].operations
      ensures Lists(t, k, j)
    {
      assert Lists(s, k, j);
    }
  }

  lemma BarringKeeps(s: State, source: string, observed: Option<nat>)
    requires Counted(s) && Linked(s) && source in s.slots
    ensures Counted(Barred(s, source, observed)) && Linked(Barred(s, source, observed))
  {
    var t := Barred(s, source, observed);
    forall k, i: nat | k in t.slots && i in t.slots[k].operations
      ensures Lists(t, k, i)
    {
      assert Lists(s, k, i);
    }
  }

  /** A revocation closes every operation of its source there is. */
  lemma RevokeKeeps(s: State, source: string, observed: Option<nat>)
    requires Inv(s)
    ensures var t := Revoke(s, source, observed);
            && Inv(t) && Evolves(s, t) && |t.entries| == |s.entries|
            && (forall i :: 0 <= i < |t.entries| && t.entries[i].source == source ==> t.entries[i].closed)
  {
    if SlotFor(s, source).None? {
      forall i | 0 <= i < |s.entries|
        ensures s.entries[i].source == source ==> s.entries[i].closed
      {
        assert Fresh(s, i);
      }
    } else {
      SlotForKeeps(s, source);
      var m := SlotFor(s, source).value;
      var t := Barred(m, source, observed);
      BarringKeeps(m, source, observed);
      StopSourceKeeps(t, source);
      var u := StopSource(t, source);
      forall i | 0 <= i < |u.entries|
        ensures Fresh(u, i)
      {
        assert Fresh(m, i);
      }
    }
  }

  lemma StepKeeps(s: State, e: Event)
    requires Inv(s) && Enabled(s, e)
    ensures Inv(Apply(s, e)) && Evolves(s, Apply(s, e))
  {
    match e
    case DoEnter(source, observed) => EnterKeeps(s, source, observed);
    case DoValidate(i, observed, late, authorized) => ValidateKeeps(s, i, observed, late, authorized);
    case DoLaunch(i, observed, late) =>
      ValidateKeeps(s, i, observed, late, true);
      var (t, ok) := Validate(s, i, observed, late, true);
      if ok {
        CaptureKeeps(t, Apply(s, e), i, t.entries[i].(capturePending := true));
      }
    case DoSettle(i) => CaptureKeeps(s, Apply(s, e), i, s.entries[i].(capturePending := false));
    case DoComplete(i) => CaptureKeeps(s, Apply(s, e), i, s.entries[i].(hasContext := true));
    case DoStop(i) =>
      StopKeeps(s, i);
      ClosingKeepsFresh(s, Stop(s, i));
    case DoRevoke(source, observed) => RevokeKeeps(s, source, observed);
  }

  // What a revocation leaves in a slot.
  function Bar(slot: Slot): (nat, bool, Option<nat>, bool) {
    (slot.generation, slot.revoked, slot.blocked, slot.unknown)
  }

  // The slot keeps its bar, and takes a newly read epoch only if that is not barred.
  ghost predicate SlotMoves(a: Slot, b: Slot, observed: Option<nat>) {
    && Bar(b) == Bar(a)
    && (b.lastEpoch == a.lastEpoch || (observed.Some? && b.lastEpoch == observed && !Blocked(a, observed.value)))
  }

  function ObservedBy(e: Event): Option<nat> {
    match e
    case DoEnter(_, observed) => observed
    case DoValidate(_, observed, _, _) => observed
    case DoLaunch(_, observed, _) => observed
    case DoRevoke(_, observed) => observed
    case _ => None
  }

  lemma EpochMoves(s: State, source: string, observed: Option<nat>, k: string)
    requires Inv(s) && source in s.slots && k in s.slots
    ensures var t := Epoch(s, source, observed).0;
            k in t.slots && (if k == source then SlotMoves(s.slots[k], t.slots[k], observed)
                             else Bar(t.slots[k]) == Bar(s.slots[k]) && t.slots[k].lastEpoch == s.slots[k].lastEpoch)
  {
    if observed.None? {
      StopSourceKeeps(s, source);
    }
  }

  lemma StopMoves(s: State, i: nat, k: string)
    requires i < |s.entries| && k in s.slots
    ensures k in Stop(s, i).slots && Bar(Stop(s, i).slots[k]) == Bar(s.slots[k])
    ensures Stop(s, i).slots[k].lastEpoch == s.slots[k].lastEpoch
  {
  }

  lemma ValidateMoves(s: State, i: nat, observed: Option<nat>, late: bool, authorized: bool, k: string)
    requires Inv(s) && i < |s.entries| && k in s.slots
    ensures var t := Validate(s, i, observed, late, authorized).0;
            k in t.slots && (if k == s.entries[i].source then SlotMoves(s.slots[k], t.slots[k], observed)
                             else Bar(t.slots[k]) == Bar(s.slots[k]) && t.slots[k].lastEpoch == s.slots[k].lastEpoch)
  {
    var e := s.entries[i];
    if !e.closed && e.source in s.slots {
      if late {
        StopMoves(s, i, k);
      } else {
        EpochMoves(s, e.source, observed, k);
        StopMoves(Epoch(s, e.source, observed).0, i, k);
      }
    }
  }

  lemma EnterMoves(s: State, source: string, observed: Option<nat>, k: string)
    requires Inv(s) && k in s.slots
    ensures var t := Enter(s, source, observed).0;
            k in t.slots && (if k == source then SlotMoves(s.slots[k], t.slots[k], observed)
                             else Bar(t.slots[k]) == Bar(s.slots[k]) && t.slots[k].lastEpoch == s.slots[k].lastEpoch)
  {
    if s.count + s.orphans < s.limit && SlotFor(s, source).Some? {
      SlotForKeeps(s, source);
      EpochMoves(SlotFor(s, source).value, source, observed, k);
    }
  }

  lemma RevokeMoves(s: State, source: string, observed: Option<nat>, k: string)
    requires Inv(s) && (k in s.slots || (k == source && SlotFor(s, source).Some?))
    ensures var t := Revoke(s, source, observed);
            && k in t.slots
            && (k != source ==> Bar(t.slots[k]) == Bar(s.slots[k]) && t.slots[k].lastEpoch == s.slots[k].lastEpoch)
            && (k == source ==>
                  var slot := SlotFor(s, source).value.slots[source];
                  var blocked := if slot.lastEpoch.Some? then slot.lastEpoch else observed;
                  Bar(t.slots[k]) == (slot.generation + 1, true, blocked, blocked.None?) && t.slots[k].lastEpoch == slot.lastEpoch)
  {
    if SlotFor(s, source).Some? {
      SlotForKeeps(s, source);
      var m := SlotFor(s, source).value;
      BarringKeeps(m, source, observed);
      StopSourceKeeps(Barred(m, source, observed), source);
    }
  }

  /** Only a revocation of its source changes a slot's bar, and only a step that reads the epoch of
      that source gives it a new one. */
  lemma StepMoves(s: State, e: Event, k: string)
    requires Inv(s) && Enabled(s, e) && k in s.slots && !(e.DoRevoke? && e.source == k)
    ensures var t := Apply(s, e);
            && k in t.slots && SlotMoves(s.slots[k], t.slots[k], ObservedBy(e))
            && (Subject(s, e) != Some(k) ==> t.slots[k].lastEpoch == s.slots[k].lastEpoch)
  {
    match e
    case DoEnter(source, observed) => EnterMoves(s, source, observed, k);
    case DoValidate(i, observed, late, authorized) => ValidateMoves(s, i, observed, late, authorized, k);
    case DoLaunch(i, observed, late) => ValidateMoves(s, i, observed, late, true, k);
    case DoSettle(i) =>
    case DoComplete(i) =>
    case DoStop(i) => StopMoves(s, i, k);
    case DoRevoke(source, observed) => RevokeMoves(s, source, observed, k);
  }

  lemma NewSlot(s: State, e: Event, k: string)
    requires Inv(s) && Enabled(s, e) && k !in s.slots && k in Apply(s, e).slots
    ensures Subject(s, e) == Some(k) && Apply(s, e).slots[k].lastEpoch in {None, ObservedBy(e)}
  {
    StepKeeps(s, e);
    match e
    case DoEnter(source, observed) =>
      if SlotFor(s, source).Some? {
        SlotForKeeps(s, source);
        var m := SlotFor(s, source).value;
        if source in m.slots && k in m.slots {
          EpochMoves(m, source, observed, k);
        } else {
          EpochKeys(m, source, observed);
        }
      }
    case DoRevoke(source, observed) =>
      if SlotFor(s, source).Some? {
        SlotForKeeps(s, source);
        var m := SlotFor(s, source).value;
        BarringKeeps(m, source, observed);
        StopSourceKeeps(Barred(m, source, observed), source);
      }
    case DoValidate(i, observed, late, authorized) => ValidateKeys(s, i, observed, late, authorized);
    case DoLaunch(i, observed, late) => ValidateKeys(s, i, observed, late, true);
    case _ =>
  }

  lemma EpochKeys(s: State, source: string, observed: Option<nat>)
    requires Inv(s) && source in s.slots
    ensures Epoch(s, source, observed).0.slots.Keys == s.slots.Keys
  {
    if observed.None? {
      StopSourceKeeps(s, source);
    }
  }

  lemma ValidateKeys(s: State, i: nat, observed: Option<nat>, late: bool, authorized: bool)
    requires Inv(s) && i < |s.entries|
    ensures Validate(s, i, observed, late, authorized).0.slots.Keys == s.slots.Keys
  {
    var e := s.entries[i];
    if !e.closed && e.source in s.slots && !late {
      EpochKeys(s, e.source, observed);
    }
  }

  lemma StopNext(s: State, source: string, n: nat)
    requires n < |s.entries| && source in s.slots
    ensures var t := StopFirst(s, source, n);
            StopFirst(s, source, n + 1) == if n in t.slots[source].operations then Stop(t, n) else t
  {
  }

  class Authority {
    var slots: map<string, Slot>
    var entries: seq<Entry>
    var count: int
    var orphans: int
    const limit: nat
    const sourceLimit: nat

    function View(): State
      reads this
    {
      State(slots, entries, count, orphans, limit, sourceLimit)
    }

    constructor (limit: nat, sourceLimit: nat)
      ensures View() == Start(limit, sourceLimit)
      ensures Inv(View())
    {
      slots, entries, count, orphans := map[], [], 0, 0;
      this.limit, this.sourceLimit := limit, sourceLimit;
    }

    method StopOne(i: nat)
      requires i < |entries| && Counted(View()) && Linked(View())
      modifies this
      ensures View() == Stop(old(View()), i)
      ensures Counted(View()) && Linked(View()) && entries[i].closed
    {
      StopKeeps(View(), i);
      var e := entries[i];
      if e.closed || e.source !in slots {
        return;
      }
      entries := entries[i := e.(closed := true, hasContext := false)];
      slots := slots[e.source := slots[e.source].(operations := slots[e.source].operations - {i})];
      count := count - 1;
      if e.capturePending {
        orphans := orphans + 1;
      }
    }

    // Stops what a slot lists; while a revocation is under way the slot may be ahead of its operations.
    method StopAllOf(source: string)
      requires source in slots && Counted(View()) && Linked(View())
      modifies this
      ensures View() == StopSource(old(View()), source)
    {
      ghost var s := View();
      var i := 0;
      while i < |entries|
        invariant i <= |entries| == |s.entries| && source in slots
        invariant View() == StopFirst(s, source, i)
        invariant Counted(View()) && Linked(View())
      {
        StopNext(s, source, i);
        if i in slots[source].operations {
          StopOne(i);
        }
        i := i + 1;
      }
    }

    method ReadEpoch(source: string, observed: Option<nat>) returns (ok: bool)
      requires source in slots && Inv(View())
      modifies this
      ensures (View(), ok) == Epoch(old(View()), source, observed)
      ensures Inv(View())
    {
      EpochKeeps(View(), source, observed);
      if observed.None? {
        StopAllOf(source);
        return false;
      }
      if Blocked(slots[source], observed.value) {
        return false;
      }
      slots := slots[source := slots[source].(lastEpoch := observed)];
      ok := true;
    }

    method Check(i: nat, observed: Option<nat>, late: bool, authorized: bool) returns (ok: bool)
      requires i < |entries| && Inv(View())
      modifies this
      ensures (View(), ok) == Validate(old(View()), i, observed, late, authorized)
      ensures Inv(View())
    {
      ValidateKeeps(View(), i, observed, late, authorized);
      var e := entries[i];
      if e.closed || e.source !in slots {
        return false;
      }
      if !late {
        EpochKeeps(View(), e.source, observed);
        ok := ReadEpoch(e.source, observed);
        ok := ok && !entries[i].closed && slots[e.source].generation == e.generation && observed == Some(e.epoch)
              && (e.hasContext ==> authorized);
      } else {
        ok := false;
      }
      if !ok {
        StopOne(i);
      }
    }

    method EnsureSlot(source: string) returns (ok: bool)
      requires Inv(View())
      modifies this
      ensures ok == SlotFor(old(View()), source).Some?
      ensures View() == if ok then SlotFor(old(View()), source).value else old(View())
      ensures Inv(View()) && (ok ==> source in slots)
    {
      if SlotFor(View(), source).Some? {
        SlotForKeeps(View(), source);
      }
      if source in slots {
        return true;
      }
      if |slots| >= sourceLimit {
        return false;
      }
      slots := slots[source := Slot(0, None, false, None, false, {})];
      ok := true;
    }

    method Begin(source: string, observed: Option<nat>) returns (ok: bool)
      requires Inv(View())
      modifies this
      ensures (View(), ok) == Enter(old(View()), source, observed)
      ensures Inv(View())
    {
      EnterKeeps(View(), source, observed);
      if count + orphans >= limit {
        return false;
      }
      ok := EnsureSlot(source);
      if !ok {
        return;
      }
      ok := ReadEpoch(source, observed);
      if !ok {
        return;
      }
      slots := slots[source := slots[source].(operations := slots[source].operations + {|entries|})];
      entries := entries + [Entry(source, observed.value, slots[source].generation, false, false, false)];
      count := count + 1;
    }

    method SettleCapture(i: nat)
      requires i < |entries| && entries[i].capturePending && Inv(View())
      modifies this
      ensures View() == Apply(old(View()), DoSettle(i))
      ensures Inv(View())
    {
      StepKeeps(View(), DoSettle(i));
      entries := entries[i := entries[i].(capturePending := false)];
      if entries[i].closed {
        orphans := orphans - 1;
      }
    }

    method RevokeSource(source: string, observed: Option<nat>)
      requires Inv(View())
      modifies this
      ensures View() == Revoke(old(View()), source, observed)
      ensures Inv(View())
      ensures forall i :: 0 <= i < |entries| && entries[i].source == source ==> entries[i].closed
    {
      RevokeKeeps(View(), source, observed);
      var ok := EnsureSlot(source);
      if !ok {
        return;
      }
      var slot := slots[source];
      var blocked := if slot.lastEpoch.Some? then slot.lastEpoch else observed;
      slots := slots[source :=
          slot.(generation := slot.generation + 1, revoked := true, blocked := blocked, unknown := blocked.None?)];
      BarringKeeps(SlotFor(old(View()), source).value, source, observed);
      StopAllOf(source);
    }
  }
}
