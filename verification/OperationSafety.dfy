/**
 What the operation authority guarantees over whole runs: exact counters within the limit, and
 revocations that nothing begun before them survives.
 */
module OperationSafety {
  import opened Common
  import opened OperationAuthority

  ghost predicate IsRun(s: State, es: seq<Event>)
    decreases |es|, 0
  {
    if es == [] then s == Start(s.limit, s.sourceLimit)
    else IsRun(s, es[..|es| - 1]) && Enabled(After(s, es[..|es| - 1]), es[|es| - 1])
  }

  ghost function After(s: State, es: seq<Event>): State
    requires IsRun(s, es)
    decreases |es|, 1
  {
    if es == [] then s else Apply(After(s, es[..|es| - 1]), es[|es| - 1])
  }

  /** Over every run the counters are exact and, together, within the limit; the slots list
      exactly the open operations, all of them of their slot's present generation. */
  lemma {:induction false} EveryRun(s: State, es: seq<Event>)
    requires IsRun(s, es)
    ensures Inv(After(s, es))
    decreases |es|
  {
    if es != [] {
      EveryRun(s, es[..|es| - 1]);
      StepKeeps(After(s, es[..|es| - 1]), es[|es| - 1]);
    }
  }

  /** What was closed after a prefix of a run is closed ever after. */
  lemma {:induction false} RunEvolves(s: State, es: seq<Event>, n: nat)
    requires IsRun(s, es) && n <= |es|
    ensures IsRun(s, es[..n]) && Evolves(After(s, es[..n]), After(s, es))
    decreases |es|
  {
    if n == |es| {
      assert es[..n] == es;
    } else {
      var past := es[..|es| - 1];
      RunEvolves(s, past, n);
      assert past[..n] == es[..n];
      EveryRun(s, past);
      StepKeeps(After(s, past), es[|es| - 1]);
    }
  }

  lemma LastRevokes(s: State, es: seq<Event>, i: nat)
    requires IsRun(s, es) && es != [] && es[|es| - 1].DoRevoke?
    requires i < |After(s, es[..|es| - 1]).entries| && After(s, es[..|es| - 1]).entries[i].source == es[|es| - 1].source
    ensures i < |After(s, es).entries| && After(s, es).entries[i].closed
  {
    var past := es[..|es| - 1];
    EveryRun(s, past);
    RevokeKeeps(After(s, past), es[|es| - 1].source, es[|es| - 1].observed);
  }

  lemma ClosedNeverValidates(s: State, i: nat, observed: Option<nat>, late: bool, authorized: bool)
    requires i < |s.entries| && s.entries[i].closed
    ensures Validate(s, i, observed, late, authorized) == (s, false)
  {
  }

  /** Nothing begun before a revocation of its source validates at any later moment, whether its
      handle was already out or its capture still under way, and whatever the epoch reads. */
  lemma RevokedForGood(s: State, es: seq<Event>, n: nat, i: nat, observed: Option<nat>, late: bool, authorized: bool)
    requires IsRun(s, es) && n < |es| && es[n].DoRevoke?
    requires IsRun(s, es[..n]) && i < |After(s, es[..n]).entries| && After(s, es[..n]).entries[i].source == es[n].source
    ensures i < |After(s, es).entries| && After(s, es).entries[i].closed
    ensures !Validate(After(s, es), i, observed, late, authorized).1
  {
    var upTo := es[..n + 1];
    RunEvolves(s, es, n + 1);
    assert upTo[..|upTo| - 1] == es[..n];
    LastRevokes(s, upTo, i);
    ClosedNeverValidates(After(s, es), i, observed, late, authorized);
  }

  /** A reading of one step: an operation begins exactly when there is room, a slot, and an epoch
      that was read and that no revocation of its source blocks. */
  lemma BeginsExactly(s: State, source: string, observed: Option<nat>)
    ensures Enter(s, source, observed).1 <==>
            && s.count + s.orphans < s.limit && observed.Some? && (source in s.slots || |s.slots| < s.sourceLimit)
            && (source in s.slots && s.slots[source].revoked ==>
                  !s.slots[source].unknown && observed != s.slots[source].blocked)
  {
  }

  // The epoch a revocation of the source blocks, if it can name one.
  function Blocks(s: State, source: string, observed: Option<nat>): Option<nat> {
    var slotted := SlotFor(s, source);
    if slotted.Some? && slotted.value.slots[source].lastEpoch.Some? then slotted.value.slots[source].lastEpoch else observed
  }

  // No step from n on revokes the source.
  predicate NotRevokedFrom(es: seq<Event>, source: string, n: nat) {
    forall k :: n <= k < |es| ==> !(es[k].DoRevoke? && es[k].source == source)
  }

  lemma {:induction false} BarStays(s: State, es: seq<Event>, source: string, n: nat)
    requires IsRun(s, es) && n <= |es| && NotRevokedFrom(es, source, n)
    requires IsRun(s, es[..n]) && source in After(s, es[..n]).slots
    ensures source in After(s, es).slots && Bar(After(s, es).slots[source]) == Bar(After(s, es[..n]).slots[source])
    decreases |es|
  {
    if n == |es| {
      assert es[..n] == es;
    } else {
      var past := es[..|es| - 1];
      assert past[..n] == es[..n];
      BarStays(s, past, source, n);
      EveryRun(s, past);
      StepMoves(After(s, past), es[|es| - 1], source);
    }
  }

  lemma LastBars(s: State, es: seq<Event>)
    requires IsRun(s, es) && es != [] && es[|es| - 1].DoRevoke?
    requires SlotFor(After(s, es[..|es| - 1]), es[|es| - 1].source).Some?
    ensures var e := es[|es| - 1]; var blocked := Blocks(After(s, es[..|es| - 1]), e.source, e.observed);
            && e.source in After(s, es).slots && After(s, es).slots[e.source].revoked
            && After(s, es).slots[e.source].blocked == blocked && After(s, es).slots[e.source].unknown == blocked.None?
  {
    var past, e := es[..|es| - 1], es[|es| - 1];
    EveryRun(s, past);
    RevokeMoves(After(s, past), e.source, e.observed, e.source);
  }

  /** As long as its source is not revoked again, an operation begins after a revocation only under
      an epoch other than the one that revocation blocked, and not at all if it could name none. */
  lemma BeginsOnOtherEpoch(s: State, es: seq<Event>, n: nat, observed: Option<nat>)
    requires IsRun(s, es) && n < |es| && es[n].DoRevoke? && NotRevokedFrom(es, es[n].source, n + 1)
    requires IsRun(s, es[..n]) && SlotFor(After(s, es[..n]), es[n].source).Some?
    requires Enter(After(s, es), es[n].source, observed).1
    ensures var blocked := Blocks(After(s, es[..n]), es[n].source, es[n].observed);
            observed.Some? && blocked.Some? && observed != blocked
  {
    var upTo := es[..n + 1];
    RunEvolves(s, es, n + 1);
    assert upTo[..|upTo| - 1] == es[..n];
    LastBars(s, upTo);
    BarStays(s, es, es[n].source, n + 1);
    BeginsExactly(After(s, es), es[n].source, observed);
  }

  /** A handle that answers was open at every moment since its operation began, the epoch just read
      is the one it began with, and its source has not been revoked in between. */
  lemma CurrentThroughout(s: State, es: seq<Event>, n: nat, i: nat, observed: Option<nat>, late: bool, authorized: bool)
    requires IsRun(s, es) && n <= |es| && IsRun(s, es[..n]) && i < |After(s, es[..n]).entries|
    requires i < |After(s, es).entries| && Current(After(s, es), i, observed, late, authorized)
    ensures !After(s, es[..n]).entries[i].closed && observed == Some(After(s, es[..n]).entries[i].epoch)
    ensures forall k :: n <= k < |es| && es[k].DoRevoke? ==> es[k].source != After(s, es[..n]).entries[i].source
  {
    EveryRun(s, es);
    ValidateKeeps(After(s, es), i, observed, late, authorized);
    RunEvolves(s, es, n);
    forall k | n <= k < |es| && es[k].DoRevoke?
      ensures es[k].source != After(s, es[..n]).entries[i].source
    {
      RunEvolves(s, es, k);
      assert es[..k][..n] == es[..n];
      RunEvolves(s, es[..k], n);
      if es[k].source == After(s, es[..n]).entries[i].source {
        RevokedForGood(s, es, k, i, observed, late, authorized);
      }
    }
  }

  // ----- What succeeds -----

  /** A validation succeeds if and only if the operation is open, in time, reads the epoch it began
      with and, once it has its context, is still authorized. */
  lemma ValidatesExactly(s: State, i: nat, observed: Option<nat>, late: bool, authorized: bool)
    requires Inv(s) && i < |s.entries|
    ensures Validate(s, i, observed, late, authorized).1 <==>
            var e := s.entries[i]; !e.closed && !late && observed == Some(e.epoch) && (e.hasContext ==> authorized)
  {
    var e := s.entries[i];
    assert Fresh(s, i);
    if !e.closed && !late {
      EpochKeeps(s, e.source, observed);
    }
  }

  /** In every run a handle answers if and only if its operation is open with its context stored,
      in time and authorized, and the epoch just read is the one it began with. */
  lemma CurrentExactly(s: State, es: seq<Event>, i: nat, observed: Option<nat>, late: bool, authorized: bool)
    requires IsRun(s, es) && i < |After(s, es).entries|
    ensures Current(After(s, es), i, observed, late, authorized) <==>
            var e := After(s, es).entries[i]; !e.closed && e.hasContext && !late && authorized && observed == Some(e.epoch)
  {
    EveryRun(s, es);
    ValidatesExactly(After(s, es), i, observed, late, authorized);
  }

  /** And its capture is launched under just these conditions, the context aside. */
  lemma LaunchesExactly(s: State, es: seq<Event>, i: nat, observed: Option<nat>, late: bool)
    requires IsRun(s, es) && Enabled(After(s, es), DoLaunch(i, observed, late))
    ensures var e := After(s, es).entries[i];
            i < |Apply(After(s, es), DoLaunch(i, observed, late)).entries| &&
            (Apply(After(s, es), DoLaunch(i, observed, late)).entries[i].capturePending <==>
             !e.closed && !late && observed == Some(e.epoch))
  {
    EveryRun(s, es);
    ValidatesExactly(After(s, es), i, observed, late, true);
    ValidateKeeps(After(s, es), i, observed, late, true);
    ValidateStarts(After(s, es), i, observed, late);
  }

  lemma ValidateStarts(s: State, i: nat, observed: Option<nat>, late: bool)
    requires Inv(s) && i < |s.entries| && !s.entries[i].capturePending
    ensures !Validate(s, i, observed, late, true).0.entries[i].capturePending
  {
    var e := s.entries[i];
    if !e.closed && !late {
      assert Fresh(s, i);
      if observed.None? {
        StopSourceKeeps(s, e.source);
      }
    }
  }

  // ----- What closes an operation -----

  lemma {:induction false} StopSpares(s: State, source: string, n: nat, i: nat)
    requires n <= |s.entries| && source in s.slots && Counted(s) && Linked(s)
    requires i < |s.entries| && s.entries[i].source != source
    ensures StopFirst(s, source, n).entries[i] == s.entries[i]
  {
    if n > 0 {
      StopSpares(s, source, n - 1, i);
      StopFirstKeeps(s, source, n - 1);
      var t := StopFirst(s, source, n - 1);
      assert n - 1 in t.slots[source].operations ==> Lists(t, source, n - 1);
    }
  }

  lemma StopSourceCloses(s: State, source: string, i: nat)
    requires source in s.slots && Counted(s) && Linked(s) && i < |s.entries|
    ensures StopSource(s, source).entries[i].closed <==> s.entries[i].closed || s.entries[i].source == source
  {
    StopSourceKeeps(s, source);
    if s.entries[i].source != source {
      StopSpares(s, source, |s.entries|, i);
    }
  }

  // The step ends operation i, which is open: it is stopped, its source is revoked, its source's
  // epoch cannot be read, or its own validation fails.
  predicate Harms(s: State, e: Event, i: nat)
    requires Enabled(s, e) && i < |s.entries|
  {
    var own := s.entries[i];
    match e
    case DoEnter(source, observed) => source == own.source && observed.None? && s.count + s.orphans < s.limit
    case DoValidate(j, observed, late, authorized) => HarmsReading(s, j, observed, late, authorized, i)
    case DoLaunch(j, observed, late) => HarmsReading(s, j, observed, late, true, i)
    case DoStop(j) => j == i
    case DoRevoke(source, _) => source == own.source
    case _ => false
  }

  predicate HarmsReading(s: State, j: nat, observed: Option<nat>, late: bool, authorized: bool, i: nat)
    requires j < |s.entries| && i < |s.entries|
  {
    var own := s.entries[i];
    if j == i then late || observed != Some(own.epoch) || (own.hasContext && !authorized)
    else !s.entries[j].closed && s.entries[j].source == own.source && !late && observed.None?
  }

  lemma EpochCloses(s: State, source: string, observed: Option<nat>, i: nat)
    requires Inv(s) && source in s.slots && i < |s.entries|
    ensures Epoch(s, source, observed).0.entries[i].closed <==>
            s.entries[i].closed || (observed.None? && s.entries[i].source == source)
  {
    if observed.None? {
      StopSourceCloses(s, source, i);
    }
  }

  lemma StopCloses(s: State, j: nat, i: nat)
    requires j < |s.entries| && i < |s.entries|
    requires !s.entries[j].closed ==> s.entries[j].source in s.slots
    ensures Stop(s, j).entries[i].closed <==> s.entries[i].closed || i == j
  {
  }

  lemma ValidateCloses(s: State, j: nat, observed: Option<nat>, late: bool, authorized: bool, i: nat)
    requires Inv(s) && j < |s.entries| && i < |s.entries| && !s.entries[i].closed
    ensures i < |Validate(s, j, observed, late, authorized).0.entries|
    ensures Validate(s, j, observed, late, authorized).0.entries[i].closed <==> HarmsReading(s, j, observed, late, authorized, i)
  {
    ValidatesExactly(s, j, observed, late, authorized);
    ValidateKeeps(s, j, observed, late, authorized);
    var e := s.entries[j];
    if !e.closed {
      assert Fresh(s, j);
      if late {
        StopCloses(s, j, i);
      } else {
        EpochKeeps(s, e.source, observed);
        EpochCloses(s, e.source, observed, i);
        StopCloses(Epoch(s, e.source, observed).0, j, i);
      }
    }
  }

  lemma EnterCloses(s: State, source: string, observed: Option<nat>, i: nat)
    requires Inv(s) && i < |s.entries| && !s.entries[i].closed
    ensures i < |Enter(s, source, observed).0.entries|
    ensures Enter(s, source, observed).0.entries[i].closed <==>
            source == s.entries[i].source && observed.None? && s.count + s.orphans < s.limit
  {
    assert Fresh(s, i);
    if SlotFor(s, source).Some? {
      SlotForKeeps(s, source);
      EpochCloses(SlotFor(s, source).value, source, observed, i);
    }
  }

  lemma RevokeCloses(s: State, source: string, observed: Option<nat>, i: nat)
    requires Inv(s) && i < |s.entries| && !s.entries[i].closed
    ensures i < |Revoke(s, source, observed).entries|
    ensures Revoke(s, source, observed).entries[i].closed <==> source == s.entries[i].source
  {
    assert Fresh(s, i);
    if SlotFor(s, source).Some? {
      SlotForKeeps(s, source);
      var m := SlotFor(s, source).value;
      BarringKeeps(m, source, observed);
      StopSourceCloses(Barred(m, source, observed), source, i);
    }
  }

  lemma StepCloses(s: State, e: Event, i: nat)
    requires Inv(s) && Enabled(s, e) && i < |s.entries| && !s.entries[i].closed
    ensures i < |Apply(s, e).entries|
    ensures Apply(s, e).entries[i].closed <==> Harms(s, e, i)
  {
    match e
    case DoEnter(source, observed) => EnterCloses(s, source, observed, i);
    case DoValidate(j, observed, late, authorized) => ValidateCloses(s, j, observed, late, authorized, i);
    case DoLaunch(j, observed, late) => ValidateCloses(s, j, observed, late, true, i);
    case DoSettle(_) =>
    case DoComplete(_) =>
    case DoStop(j) =>
      assert Fresh(s, j);
      StopCloses(s, j, i);
    case DoRevoke(source, observed) => RevokeCloses(s, source, observed, i);
  }

  // No step of the run after the first n ends operation i.
  ghost predicate Unharmed(s: State, es: seq<Event>, n: nat, i: nat)
    requires IsRun(s, es)
    decreases |es|
  {
    |es| <= n ||
    (var past := es[..|es| - 1];
     && Unharmed(s, past, n, i) && i < |After(s, past).entries| && !Harms(After(s, past), es[|es| - 1], i))
  }

  /** An operation that was open at some moment of a run is open at its end if and only if no step
      in between stopped it, revoked its source, failed to read its source's epoch, or failed its own
      validation. */
  lemma {:induction false} OpenExactly(s: State, es: seq<Event>, n: nat, i: nat)
    requires IsRun(s, es) && n <= |es| && IsRun(s, es[..n])
    requires i < |After(s, es[..n]).entries| && !After(s, es[..n]).entries[i].closed
    ensures i < |After(s, es).entries| && (!After(s, es).entries[i].closed <==> Unharmed(s, es, n, i))
    decreases |es|
  {
    if n == |es| {
      assert es[..n] == es;
    } else {
      var past := es[..|es| - 1];
      assert past[..n] == es[..n];
      OpenExactly(s, past, n, i);
      EveryRun(s, past);
      StepKeeps(After(s, past), es[|es| - 1]);
      if !After(s, past).entries[i].closed {
        StepCloses(After(s, past), es[|es| - 1], i);
      }
    }
  }

  // ----- The last epoch read -----

  // The epoch of `source` that a step accepts, if it reads one.
  function Accepts(s: State, e: Event, source: string): Option<nat>
    requires Enabled(s, e)
  {
    var read :=
      match e
      case DoEnter(k, observed) =>
        if k == source && s.count + s.orphans < s.limit && (k in s.slots || |s.slots| < s.sourceLimit) then observed else None
      case DoValidate(j, observed, late, _) => if s.entries[j].source == source && !s.entries[j].closed && !late then observed else None
      case DoLaunch(j, observed, late) => if s.entries[j].source == source && !s.entries[j].closed && !late then observed else None
      case _ => None;
    if read.Some? && source in s.slots && s.slots[source].revoked
       && (s.slots[source].unknown || s.slots[source].blocked == read) then None else read
  }

  ghost function LastRead(s: State, es: seq<Event>, source: string): Option<nat>
    requires IsRun(s, es)
  {
    if es == [] then None
    else
      var past := es[..|es| - 1];
      var read := Accepts(After(s, past), es[|es| - 1], source);
      if read.Some? then read else LastRead(s, past, source)
  }

  function LastEpoch(s: State, source: string): Option<nat> {
    if source in s.slots then s.slots[source].lastEpoch else None
  }

  lemma EpochRecords(s: State, source: string, observed: Option<nat>, k: string)
    requires Inv(s) && source in s.slots
    ensures var slot := s.slots[source];
            LastEpoch(Epoch(s, source, observed).0, k) ==
            if k == source && observed.Some? && !(slot.revoked && (slot.unknown || slot.blocked == observed)) then observed
            else LastEpoch(s, k)
  {
    if observed.None? {
      StopSourceKeeps(s, source);
    }
  }

  lemma StopRecords(s: State, i: nat, k: string)
    requires i < |s.entries|
    ensures LastEpoch(Stop(s, i), k) == LastEpoch(s, k)
  {
  }

  lemma ValidateRecords(s: State, i: nat, observed: Option<nat>, late: bool, authorized: bool, k: string)
    requires Inv(s) && i < |s.entries|
    ensures var read := Accepts(s, DoValidate(i, observed, late, authorized), k);
            LastEpoch(Validate(s, i, observed, late, authorized).0, k) == if read.Some? then read else LastEpoch(s, k)
  {
    var e := s.entries[i];
    assert Fresh(s, i);
    if !e.closed {
      StopRecords(s, i, k);
      EpochRecords(s, e.source, observed, k);
      StopRecords(Epoch(s, e.source, observed).0, i, k);
    }
  }

  lemma EnterRecords(s: State, source: string, observed: Option<nat>, k: string)
    requires Inv(s)
    ensures var read := Accepts(s, DoEnter(source, observed), k);
            LastEpoch(Enter(s, source, observed).0, k) == if read.Some? then read else LastEpoch(s, k)
  {
    if s.count + s.orphans < s.limit && SlotFor(s, source).Some? {
      SlotForKeeps(s, source);
      EpochRecords(SlotFor(s, source).value, source, observed, k);
    }
  }

  lemma RevokeRecords(s: State, source: string, observed: Option<nat>, k: string)
    requires Inv(s)
    ensures LastEpoch(Revoke(s, source, observed), k) == LastEpoch(s, k)
  {
    if SlotFor(s, source).Some? {
      SlotForKeeps(s, source);
      var m := SlotFor(s, source).value;
      BarringKeeps(m, source, observed);
      StopSourceKeeps(Barred(m, source, observed), source);
    }
  }

  /** In every run a slot's last epoch is the one that was last read for its source and not refused:
      the one that a revocation is to block. */
  lemma {:induction false} LastEpochExactly(s: State, es: seq<Event>, source: string)
    requires IsRun(s, es)
    ensures LastEpoch(After(s, es), source) == LastRead(s, es, source)
    decreases |es|
  {
    if es != [] {
      var past := es[..|es| - 1];
      LastEpochExactly(s, past, source);
      EveryRun(s, past);
      var t := After(s, past);
      match es[|es| - 1]
      case DoEnter(k, observed) => EnterRecords(t, k, observed, source);
      case DoValidate(j, observed, late, authorized) => ValidateRecords(t, j, observed, late, authorized, source);
      case DoLaunch(j, observed, late) => ValidateRecords(t, j, observed, late, true, source);
      case DoSettle(_) =>
      case DoComplete(_) =>
      case DoStop(j) => StopRecords(t, j, source);
      case DoRevoke(k, observed) => RevokeRecords(t, k, observed, source);
    }
  }
}
