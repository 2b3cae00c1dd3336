/**
 The write fence around SQL.js auto-save: write generations, at most one save in flight,
 a dirty flag recomputed after every await, and flush callers that join or start saves.

 A save settles in two steps, as in the source: its `then`/`catch` callback (Settle) runs
 one microtask before its `finally` callback (Finish), and other callbacks may run between.
 A query takes two steps as well: the stock query raises the dirty flag (Mark) during the
 await, and the flag is recomputed when it returns (Query).
 Every call of `flush` is a numbered caller; `startTransaction` is its loop test (Begin),
 the flushes it awaits being callers like any others.
 */
module PersistenceFence {
  import opened Common

  datatype Outcome = Pending | Saved | Failed

  datatype Flight = Flight(captured: nat, outcome: Outcome)

  datatype Fence = Fence(generation: nat, durable: nat, saving: Option<Flight>, dirty: bool, inTransaction: bool)

  // What the synchronous part of a flush decides: it resolves, rejects, or awaits the flight.
  datatype Turn = Resolves | Rejects | Awaits

  const Fresh := Fence(0, 0, None, false, false)

  function Covered(f: Fence): nat {
    if f.saving.Some? then f.saving.value.captured else f.durable
  }

  function Marked(f: Fence): Fence {
    f.(dirty := true)
  }

  function QueryDone(f: Fence, writes: bool): Fence {
    var g := if writes then f.generation + 1 else f.generation;
    f.(generation := g, dirty := g > Covered(f))
  }

  /** The top of the flush loop; `exportOk` is false when `autoSave` throws synchronously. */
  function LoopTop(f: Fence, exportOk: bool): (Fence, Turn) {
    if f.saving.Some? then (f, Awaits)
    else if !f.dirty || f.inTransaction then (f, Resolves)
    else if exportOk then (f.(dirty := false, saving := Some(Flight(f.generation, Pending))), Awaits)
    else (f.(dirty := true), Rejects)
  }

  /** The loop after `await saving.promise`, which settled as `ok`. */
  function Resume(f: Fence, target: nat, ok: bool, exportOk: bool): (Fence, Turn) {
    if !ok then (f, Rejects)
    else if f.durable >= target || f.inTransaction then (f, Resolves)
    else LoopTop(f, exportOk)
  }

  function SaveSettled(f: Fence, ok: bool): Fence
    requires f.saving.Some?
  {
    if ok then f.(durable := f.saving.value.captured, saving := Some(f.saving.value.(outcome := Saved)))
    else f.(dirty := true, saving := Some(f.saving.value.(outcome := Failed)))
  }

  function SaveFinished(f: Fence): Fence
    requires f.saving.Some?
  {
    f.(dirty := f.dirty || f.generation > f.saving.value.captured, saving := None)
  }

  predicate MayBegin(f: Fence) {
    f.inTransaction || f.generation <= Covered(f)
  }

  /** The variables the adapter keeps per runner, updated one synchronous segment at a time. */
  class Runner {
    var generation: nat
    var durableGeneration: nat
    var saving: Option<Flight>
    var isDirty: bool
    var isTransactionActive: bool

    function View(): Fence
      reads this
    {
      Fence(generation, durableGeneration, saving, isDirty, isTransactionActive)
    }

    constructor ()
      ensures View() == Fresh
    {
      generation, durableGeneration, saving, isDirty, isTransactionActive := 0, 0, None, false, false;
    }

    method DuringQuery()
      modifies this
      ensures View() == Marked(old(View()))
    {
      isDirty := true;
    }

    method AfterQuery(writes: bool)
      modifies this
      ensures View() == QueryDone(old(View()), writes)
    {
      if writes {
        generation := generation + 1;
      }
      isDirty := generation > if saving.Some? then saving.value.captured else durableGeneration;
    }

    method FlushLoopTop(exportOk: bool) returns (turn: Turn)
      modifies this
      ensures (View(), turn) == LoopTop(old(View()), exportOk)
    {
      if saving.None? {
        if !isDirty || isTransactionActive {
          return Resolves;
        }
        var captured := generation;
        isDirty := false;
        saving := Some(Flight(captured, Pending));
        if !exportOk {
          isDirty := true;
          saving := None;
          return Rejects;
        }
      }
      turn := Awaits;
    }

    method FlushResume(target: nat, ok: bool, exportOk: bool) returns (turn: Turn)
      modifies this
      ensures (View(), turn) == Resume(old(View()), target, ok, exportOk)
    {
      if !ok {
        return Rejects;
      }
      if durableGeneration >= target {
        return Resolves;
      }
      if isTransactionActive {
        return Resolves;
      }
      turn := FlushLoopTop(exportOk);
    }

    method TryBeginTransaction() returns (began: bool)
      modifies this
      ensures began == MayBegin(old(View()))
      ensures View() == if began then old(View()).(inTransaction := true) else old(View())
    {
      began := isTransactionActive ||
               generation <= if saving.Some? then saving.value.captured else durableGeneration;
      if began {
        isTransactionActive := true;
      }
    }

    method OnSaveSettled(ok: bool)
      requires saving.Some?
      modifies this
      ensures View() == SaveSettled(old(View()), ok)
    {
      if ok {
        durableGeneration := saving.value.captured;
        saving := Some(saving.value.(outcome := Saved));
      } else {
        isDirty := true;
        saving := Some(saving.value.(outcome := Failed));
      }
    }

    method OnSaveFinished()
      requires saving.Some?
      modifies this
      ensures View() == SaveFinished(old(View()))
    {
      if generation > saving.value.captured {
        isDirty := true;
      }
      saving := None;
    }
  }

  // ----- All interleavings -----

  // `awaits` counts the saves a call has awaited; `durable`/`inTransaction` are read at its return.
  datatype Caller =
    | Waiting(target: nat, awaits: nat)
    | Woken(target: nat, awaits: nat, ok: bool)
    | Resolved(target: nat, awaits: nat, durable: nat, inTransaction: bool)
    | Rejected(target: nat, awaits: nat)

  // An export is logged with the transaction flag at its start.
  datatype System = System(fence: Fence, callers: seq<Caller>, exports: seq<bool>)

  datatype Event =
    | Mark
    | Query(writes: bool)
    | Flush(exportOk: bool)
    | Continue(caller: nat, exportOk: bool)
    | Settle(ok: bool)
    | Finish
    | Begin
    | End

  const Start := System(Fresh, [], [])

  predicate Enabled(s: System, e: Event) {
    match e
    case Mark => true
    case Query(_) => true
    case Flush(_) => true
    case Continue(c, _) => c < |s.callers| && s.callers[c].Woken?
    case Settle(_) => s.fence.saving.Some? && s.fence.saving.value.outcome.Pending?
    case Finish => s.fence.saving.Some? && !s.fence.saving.value.outcome.Pending?
    case Begin => MayBegin(s.fence)
    case End => s.fence.inTransaction
  }

  function Standing(f: Fence, turn: Turn, target: nat, awaits: nat): Caller {
    match turn
    case Awaits => Waiting(target, awaits + 1)
    case Resolves => Resolved(target, awaits, f.durable, f.inTransaction)
    case Rejects => Rejected(target, awaits)
  }

  function Exported(s: System, f: Fence): seq<bool> {
    if f.saving.Some? && f.saving != s.fence.saving then s.exports + [s.fence.inTransaction] else s.exports
  }

  function Wake(c: Caller, ok: bool): Caller {
    if c.Waiting? then Woken(c.target, c.awaits, ok) else c
  }

  function Apply(s: System, e: Event): System
    requires Enabled(s, e)
  {
    match e
    case Mark => s.(fence := Marked(s.fence))
    case Query(writes) => s.(fence := QueryDone(s.fence, writes))
    case Flush(exportOk) =>
      var (f, turn) := LoopTop(s.fence, exportOk);
      System(f, s.callers + [Standing(f, turn, s.fence.generation, 0)], Exported(s, f))
    case Continue(c, exportOk) =>
      var w := s.callers[c];
      var (f, turn) := Resume(s.fence, w.target, w.ok, exportOk);
      System(f, s.callers[c := Standing(f, turn, w.target, w.awaits)], Exported(s, f))
    case Settle(ok) => s.(fence := SaveSettled(s.fence, ok))
    case Finish =>
      var ok := s.fence.saving.value.outcome.Saved?;
      s.(fence := SaveFinished(s.fence),
         callers := seq(|s.callers|, i requires 0 <= i < |s.callers| => Wake(s.callers[i], ok)))
    case Begin => s.(fence := s.fence.(inTransaction := true))
    case End => s.(fence := s.fence.(inTransaction := false))
  }

  predicate IsRun(es: seq<Event>)
    decreases |es|, 0
  {
    es == [] || (IsRun(es[..|es| - 1]) && Enabled(After(es[..|es| - 1]), es[|es| - 1]))
  }

  function After(es: seq<Event>): System
    requires IsRun(es)
    decreases |es|, 1
  {
    if es == [] then Start else Apply(After(es[..|es| - 1]), es[|es| - 1])
  }

  // ----- Safety of every run -----

  ghost predicate CallerSafe(f: Fence, c: Caller) {
    && c.target <= f.generation
    && c.awaits <= 2
    && (c.Waiting? ==>
          f.saving.Some? && 1 <= c.awaits && (c.awaits == 2 ==> f.saving.value.captured >= c.target))
    && (c.Woken? ==>
          && 1 <= c.awaits
          && (f.saving.Some? ==> f.saving.value.captured >= c.target)
          && (c.awaits == 2 && c.ok ==> f.durable >= c.target))
  }

  // Between the failure of a save and its `finally`.
  predicate FailedWindow(f: Fence) {
    f.saving.Some? && f.saving.value.outcome.Failed?
  }

  ghost predicate Safe(s: System) {
    && FenceSafe(s.fence)
    && (forall i :: 0 <= i < |s.callers| ==> CallerSafe(s.fence, s.callers[i]))
    && (forall i :: 0 <= i < |s.exports| ==> !s.exports[i])
  }

  ghost predicate FenceSafe(f: Fence) {
    && f.durable <= f.generation
    && (f.saving.Some? ==>
          && f.durable <= f.saving.value.captured <= f.generation
          && (f.saving.value.outcome.Saved? ==> f.durable == f.saving.value.captured))
  }

  lemma FenceStaysSafe(s: System, e: Event)
    requires FenceSafe(s.fence) && Enabled(s, e)
    ensures FenceSafe(Apply(s, e).fence)
  {
  }

  lemma CallerStaysSafe(s: System, e: Event, i: nat)
    requires Safe(s) && Enabled(s, e) && i < |Apply(s, e).callers|
    ensures CallerSafe(Apply(s, e).fence, Apply(s, e).callers[i])
  {
    if i < |s.callers| {
      assert CallerSafe(s.fence, s.callers[i]);
    }
  }

  lemma StepIsSafe(s: System, e: Event)
    requires Safe(s) && Enabled(s, e)
    ensures Safe(Apply(s, e))
  {
    FenceStaysSafe(s, e);
    var t := Apply(s, e);
    forall i | 0 <= i < |t.callers|
      ensures CallerSafe(t.fence, t.callers[i])
    {
      CallerStaysSafe(s, e, i);
    }
  }

  /** In every interleaving: durable <= captured <= generation, no export starts inside a transaction, every save that starts after
      a flush call covers its target, and no flush call ever awaits more than two saves. */
  lemma {:induction false} EveryRunIsSafe(es: seq<Event>)
    requires IsRun(es)
    ensures Safe(After(es))
  {
    if es != [] {
      EveryRunIsSafe(es[..|es| - 1]);
      StepIsSafe(After(es[..|es| - 1]), es[|es| - 1]);
    }
  }

  // How many queries that write have returned.
  function Writes(es: seq<Event>): nat {
    if es == [] then 0 else Writes(es[..|es| - 1]) + (if es[|es| - 1] == Query(true) then 1 else 0)
  }

  /** Generations count the writes, and a save captures all of them there are when it starts. */
  lemma {:induction false} GenerationsAreWrites(es: seq<Event>)
    requires IsRun(es)
    ensures After(es).fence.generation == Writes(es)
    ensures es != [] && StartsSave(After(es[..|es| - 1]), es[|es| - 1]) ==>
              After(es).fence.saving == Some(Flight(Writes(es), Pending)) && !After(es).fence.dirty
  {
    if es != [] {
      GenerationsAreWrites(es[..|es| - 1]);
    }
  }

  // How many saves have come to their `finally`.
  function Finishes(es: seq<Event>): nat {
    if es == [] then 0 else Finishes(es[..|es| - 1]) + (if es[|es| - 1].Finish? then 1 else 0)
  }

  /** At any moment at most one of the saves started has not come to its `finally`. */
  lemma {:induction false} OneSaveAtATime(es: seq<Event>)
    requires IsRun(es)
    ensures |After(es).exports| == Finishes(es) + (if After(es).fence.saving.Some? then 1 else 0)
  {
    if es != [] {
      OneSaveAtATime(es[..|es| - 1]);
    }
  }

  /** A call that has awaited a second save never loops again: when that save settles it
      rejects, or resolves with its target durable. */
  lemma SecondSaveIsTheLast(es: seq<Event>, c: nat, exportOk: bool)
    requires IsRun(es) && Enabled(After(es), Continue(c, exportOk)) && After(es).callers[c].awaits == 2
    ensures var d := Apply(After(es), Continue(c, exportOk)).callers[c];
            d.Rejected? || (d.Resolved? && d.durable >= d.target)
  {
    EveryRunIsSafe(es);
  }

  // ----- How a flush ends -----

  /** A flush call that has just come in rejects, resolves or awaits by what it finds: it rejects
      only when its own export throws, and resolves only with nothing flagged or a transaction open. */
  lemma FlushEndsExactly(es: seq<Event>, exportOk: bool)
    requires IsRun(es)
    ensures var s, t := After(es), Apply(After(es), Flush(exportOk)); var f := s.fence;
            var idle := f.saving.None? && f.dirty && !f.inTransaction;
            && |t.callers| == |s.callers| + 1 && t.callers[..|s.callers|] == s.callers
            && var c := t.callers[|s.callers|];
               && c.target == f.generation
               && (c.Rejected? <==> idle && !exportOk)
               && (c.Resolved? <==> f.saving.None? && (!f.dirty || f.inTransaction))
               && (c.Waiting? <==> f.saving.Some? || (idle && exportOk))
               && (c.Waiting? <==> t.fence.saving.Some?)
  {
  }

  /** A flush call that a save has woken rejects if and only if that save failed, or its target is
      not durable and the export it then needs throws; it resolves if and only if the save succeeded
      and its target is durable, a transaction is open, or no save is in flight and nothing is
      flagged. Otherwise it awaits one more save, and the other calls stay as they are. */
  lemma ContinueEndsExactly(es: seq<Event>, c: nat, exportOk: bool)
    requires IsRun(es) && Enabled(After(es), Continue(c, exportOk))
    ensures var s, t := After(es), Apply(After(es), Continue(c, exportOk)); var f, w := s.fence, s.callers[c];
            var short := f.durable < w.target && !f.inTransaction;
            && |t.callers| == |s.callers| && t.callers[c].target == w.target
            && (forall i :: 0 <= i < |s.callers| && i != c ==> t.callers[i] == s.callers[i])
            && (t.callers[c].Rejected? <==> !w.ok || (short && f.saving.None? && f.dirty && !exportOk))
            && (t.callers[c].Resolved? <==>
                  w.ok && (f.durable >= w.target || f.inTransaction || (f.saving.None? && !f.dirty)))
            && (t.callers[c].Waiting? ==> t.callers[c].awaits == w.awaits + 1 && t.fence.saving.Some?)
            && !t.callers[c].Woken?
  {
  }

  /** Every call that awaits is woken when the save in flight has finished, with the outcome of that
      save, and no other call is. */
  lemma FinishWakesExactly(es: seq<Event>, i: nat)
    requires IsRun(es) && Enabled(After(es), Finish) && i < |After(es).callers|
    ensures var c, d := After(es).callers[i], Apply(After(es), Finish).callers[i];
            if c.Waiting? then d == Woken(c.target, c.awaits, After(es).fence.saving.value.outcome == Saved) else d == c
  {
  }

  // Every save succeeded, and no export threw.
  predicate Faultless(es: seq<Event>) {
    forall k :: 0 <= k < |es| ==> Harmless(es[k])
  }

  predicate Harmless(e: Event) {
    match e
    case Settle(ok) => ok
    case Flush(exportOk) => exportOk
    case Continue(_, exportOk) => exportOk
    case _ => true
  }

  // No call has failed or is about to.
  ghost predicate NoneFails(s: System) {
    && !FailedWindow(s.fence)
    && forall i :: 0 <= i < |s.callers| ==> !s.callers[i].Rejected? && (s.callers[i].Woken? ==> s.callers[i].ok)
  }

  lemma HarmlessStep(s: System, e: Event)
    requires NoneFails(s) && Enabled(s, e) && Harmless(e)
    ensures NoneFails(Apply(s, e))
  {
  }

  /** If every save succeeds and no export throws, no flush is ever rejected. */
  lemma FaultlessRunsRejectNothing(es: seq<Event>, i: nat)
    requires IsRun(es) && Faultless(es) && i < |After(es).callers|
    ensures !After(es).callers[i].Rejected?
  {
    NoneFailsOnRuns(es);
  }

  lemma {:induction false} NoneFailsOnRuns(es: seq<Event>)
    requires IsRun(es) && Faultless(es)
    ensures NoneFails(After(es))
  {
    if es != [] {
      var before := es[..|es| - 1];
      assert forall k :: 0 <= k < |before| ==> before[k] == es[k];
      NoneFailsOnRuns(before);
      HarmlessStep(After(before), es[|es| - 1]);
    }
  }

  // ----- The dirty flag -----

  // Some write is neither durable nor captured by a save that has not failed.
  predicate Owed(f: Fence) {
    f.generation > if FailedWindow(f) then f.durable else Covered(f)
  }

  predicate Missed(f: Fence) {
    Owed(f) && !f.dirty
  }

  /** The one step that loses a write: a query that writes nothing returns after a save has
      failed to save a write, before its `finally`, with nothing written since the capture. */
  predicate LosesWrite(f: Fence, e: Event) {
    FailedWindow(f) && e == Query(false) && f.durable < f.generation == f.saving.value.captured
  }

  /** A step leaves a write missed by the flag if and only if it is that one. */
  lemma MissedStep(s: System, e: Event)
    requires Safe(s) && !Missed(s.fence) && Enabled(s, e)
    ensures Missed(Apply(s, e).fence) <==> LosesWrite(s.fence, e)
  {
    assert e.Query? ==> Apply(s, e).fence == QueryDone(s.fence, e.writes);
  }

  predicate LosesNothing(es: seq<Event>)
    requires IsRun(es)
  {
    es == [] || (LosesNothing(es[..|es| - 1]) && !LosesWrite(After(es[..|es| - 1]).fence, es[|es| - 1]))
  }

  ghost predicate FlushesKept(s: System) {
    forall i :: 0 <= i < |s.callers| ==>
      s.callers[i].Resolved? && !s.callers[i].inTransaction ==> s.callers[i].durable >= s.callers[i].target
  }

  /** As long as no step loses a write the flag misses none, and every flush that resolved with
      no transaction active had its whole target durable. */
  lemma {:induction false} FlushMeansDurable(es: seq<Event>)
    requires IsRun(es) && LosesNothing(es)
    ensures !Missed(After(es).fence)
    ensures FlushesKept(After(es))
  {
    if es != [] {
      var before := es[..|es| - 1];
      FlushMeansDurable(before);
      EveryRunIsSafe(before);
      MissedStep(After(before), es[|es| - 1]);
    }
  }

  ghost predicate NoneMissedAt(es: seq<Event>, n: nat)
    requires n <= |es|
  {
    IsRun(es[..n]) && !Missed(After(es[..n]).fence)
  }

  lemma {:induction false} PrefixLosesNothing(es: seq<Event>, n: nat)
    requires n <= |es| && IsRun(es) && LosesNothing(es)
    ensures IsRun(es[..n]) && LosesNothing(es[..n])
    decreases |es|
  {
    if n == |es| {
      assert es[..n] == es;
    } else {
      assert es[..|es| - 1][..n] == es[..n];
      PrefixLosesNothing(es[..|es| - 1], n);
    }
  }

  lemma {:induction false} NoneMissedLosesNothing(es: seq<Event>)
    requires IsRun(es) && forall n :: 0 <= n <= |es| ==> NoneMissedAt(es, n)
    ensures LosesNothing(es)
    decreases |es|
  {
    if es != [] {
      var before := es[..|es| - 1];
      forall n | 0 <= n <= |before|
        ensures NoneMissedAt(before, n)
      {
        assert before[..n] == es[..n] && NoneMissedAt(es, n);
      }
      NoneMissedLosesNothing(before);
      EveryRunIsSafe(before);
      assert es[..|es|] == es && NoneMissedAt(es, |es|) && NoneMissedAt(es, |es| - 1);
      MissedStep(After(before), es[|es| - 1]);
    }
  }

  /** Over whole runs: the flag missed no write in any state of a run if and only if no step of
      the run lost one. */
  lemma NoneMissedOnRuns(es: seq<Event>)
    requires IsRun(es)
    ensures LosesNothing(es) <==> forall n :: 0 <= n <= |es| ==> NoneMissedAt(es, n)
  {
    if LosesNothing(es) {
      forall n | 0 <= n <= |es|
        ensures NoneMissedAt(es, n)
      {
        PrefixLosesNothing(es, n);
        FlushMeansDurable(es[..n]);
      }
    } else if forall n :: 0 <= n <= |es| ==> NoneMissedAt(es, n) {
      NoneMissedLosesNothing(es);
    }
  }

  // A lossy step after which no query has raised or recomputed the flag.
  predicate Stale(es: seq<Event>)
    requires IsRun(es)
  {
    es != [] &&
    var before, e := es[..|es| - 1], es[|es| - 1];
    LosesWrite(After(before).fence, e) || (Stale(before) && !e.Query? && !e.Mark?)
  }

  // What a stale flag looks like: clean, with a write that is neither durable nor being saved.
  ghost predicate Lost(f: Fence) {
    && !f.dirty && f.generation > f.durable
    && (f.saving.Some? ==> FailedWindow(f) && f.generation == f.saving.value.captured)
  }

  lemma StaleStep(s: System, e: Event)
    requires Safe(s) && Enabled(s, e) && (Lost(s.fence) || !Missed(s.fence))
    ensures var t := Apply(s, e).fence;
            if LosesWrite(s.fence, e) || (Lost(s.fence) && !e.Query? && !e.Mark?) then Lost(t) else !Missed(t)
  {
    assert e.Query? ==> Apply(s, e).fence == QueryDone(s.fence, e.writes);
  }

  /** In every run the flag misses a write now if and only if some step lost one and no query has
      raised or recomputed the flag since. */
  lemma {:induction false} StaleExactly(es: seq<Event>)
    requires IsRun(es)
    ensures Stale(es) ==> Lost(After(es).fence)
    ensures Missed(After(es).fence) <==> Stale(es)
  {
    if es != [] {
      var before := es[..|es| - 1];
      StaleExactly(before);
      EveryRunIsSafe(before);
      StaleStep(After(before), es[|es| - 1]);
    }
  }

  predicate StartsSave(s: System, e: Event)
    requires Enabled(s, e)
  {
    s.fence.saving.None? && Apply(s, e).fence.saving.Some?
  }

  // A query or a failed save raised the flag; since then no query has returned and no save begun.
  predicate Raised(es: seq<Event>)
    requires IsRun(es)
  {
    es != [] &&
    var before, e := es[..|es| - 1], es[|es| - 1];
    e == Mark || e == Settle(false) || (Raised(before) && !e.Query? && !StartsSave(After(before), e))
  }

  /** In every run the flag asks for a save although nothing is owed if and only if it was so
      raised and nothing is owed: in every other state a raised flag tells of a write. */
  lemma {:induction false} RaisedExactly(es: seq<Event>)
    requires IsRun(es)
    ensures var f := After(es).fence; f.dirty && !Owed(f) <==> Raised(es) && !Owed(f)
    ensures Raised(es) ==> After(es).fence.dirty
  {
    if es != [] {
      RaisedExactly(es[..|es| - 1]);
      EveryRunIsSafe(es[..|es| - 1]);
    }
  }

  // Step n returns from a flush, on a stale flag, with no save in flight and no transaction.
  predicate ReturnsStale(es: seq<Event>, n: nat)
    requires n < |es| && IsRun(es[..n]) && Enabled(After(es[..n]), es[n])
  {
    var s := After(es[..n]);
    && Stale(es[..n]) && s.fence.saving.None? && !s.fence.inTransaction
    && match es[n]
       case Flush(_) => true
       case Continue(c, _) => s.callers[c].ok && s.fence.durable < s.callers[c].target
       case _ => false
  }

  lemma FlushesKeptStep(s: System, e: Event, stale: bool)
    requires Safe(s) && Enabled(s, e) && FlushesKept(s)
    requires if stale then Lost(s.fence) else !Missed(s.fence)
    ensures FlushesKept(Apply(s, e)) <==>
            !(stale && s.fence.saving.None? && !s.fence.inTransaction
              && (e.Flush? || (e.Continue? && s.callers[e.caller].ok && s.fence.durable < s.callers[e.caller].target)))
  {
    var t := Apply(s, e);
    if e.Flush? {
      assert forall i :: 0 <= i < |s.callers| ==> t.callers[i] == s.callers[i];
      assert t.callers[|s.callers|].target == s.fence.generation;
    } else if e.Continue? {
      assert CallerSafe(s.fence, s.callers[e.caller]);
      assert forall i :: 0 <= i < |s.callers| && i != e.caller ==> t.callers[i] == s.callers[i];
      assert t.callers[e.caller].target == s.callers[e.caller].target;
    } else if !e.Finish? {
      assert t.callers == s.callers;
    }
  }

  // A flush that has returned short stays so.
  lemma FlushesLostStay(s: System, e: Event)
    requires Enabled(s, e) && !FlushesKept(s)
    ensures !FlushesKept(Apply(s, e))
  {
    var i :| 0 <= i < |s.callers| && s.callers[i].Resolved? && !s.callers[i].inTransaction && s.callers[i].durable < s.callers[i].target;
    assert Apply(s, e).callers[i] == s.callers[i];
  }

  lemma {:induction false} PrefixIsRun(es: seq<Event>, n: nat)
    requires IsRun(es) && n <= |es|
    ensures IsRun(es[..n]) && (n < |es| ==> Enabled(After(es[..n]), es[n]))
    decreases |es|
  {
    if n == |es| {
      assert es[..n] == es;
    } else if n < |es| - 1 {
      assert es[..|es| - 1][..n] == es[..n];
      PrefixIsRun(es[..|es| - 1], n);
    }
  }

  ghost predicate NoneReturnsStale(es: seq<Event>)
    requires IsRun(es)
  {
    es == [] || (NoneReturnsStale(es[..|es| - 1]) && (PrefixIsRun(es, |es| - 1); !ReturnsStale(es, |es| - 1)))
  }

  /** In every run, lossy or not: all flushes that returned with no transaction active had their
      whole target durable if and only if none returned while the flag was stale and no save was
      in flight. */
  lemma {:induction false} FlushesKeptExactly(es: seq<Event>)
    requires IsRun(es)
    ensures FlushesKept(After(es)) <==> NoneReturnsStale(es)
  {
    if es != [] {
      var before, e := es[..|es| - 1], es[|es| - 1];
      FlushesKeptExactly(before);
      StaleExactly(before);
      EveryRunIsSafe(before);
      if FlushesKept(After(before)) {
        FlushesKeptStep(After(before), e, Stale(before));
      } else {
        FlushesLostStay(After(before), e);
      }
    }
  }

  predicate LosesNothingFrom(es: seq<Event>, n: nat)
    requires IsRun(es)
  {
    |es| <= n || (LosesNothingFrom(es[..|es| - 1], n) && !LosesWrite(After(es[..|es| - 1]).fence, es[|es| - 1]))
  }

  lemma {:induction false} LosesNothingAtAll(es: seq<Event>, n: nat)
    requires IsRun(es) && n <= |es| && IsRun(es[..n]) && LosesNothing(es[..n]) && LosesNothingFrom(es, n)
    ensures LosesNothing(es)
    decreases |es|
  {
    if n == |es| {
      assert es[..n] == es;
    } else {
      assert es[..|es| - 1][..n] == es[..n];
      LosesNothingAtAll(es[..|es| - 1], n);
    }
  }

  // No lossless continuation of the run returns a flush short of its target.
  ghost predicate KeepsFlushes(es: seq<Event>) {
    forall more :: IsRun(es + more) && LosesNothingFrom(es + more, |es|) ==> FlushesKept(After(es + more))
  }

  lemma LeaveTransaction(es: seq<Event>) returns (run: seq<Event>)
    requires IsRun(es) && Lost(After(es).fence) && FailedWindow(After(es).fence)
    ensures es <= run && IsRun(run) && LosesNothingFrom(run, |es|)
    ensures Lost(After(run).fence) && FailedWindow(After(run).fence) && !After(run).fence.inTransaction
  {
    run := es;
    if After(es).fence.inTransaction {
      run := es + [End];
      assert run[..|run| - 1] == es && run[|run| - 1] == End;
      assert LosesNothingFrom(es, |es|);
      assert IsRun(run) && After(run) == Apply(After(es), End);
    }
  }

  // Leave the transaction if there is one, let the failed save finish, and flush.
  lemma LossySurfaces(es: seq<Event>) returns (more: seq<Event>)
    requires IsRun(es) && Lost(After(es).fence) && FailedWindow(After(es).fence)
    ensures IsRun(es + more) && LosesNothingFrom(es + more, |es|) && !FlushesKept(After(es + more))
  {
    var e1 := LeaveTransaction(es);
    var e2 := e1 + [Finish];
    assert e2[..|e1|] == e1;
    assert IsRun(e2) && Lost(After(e2).fence) && After(e2).fence.saving.None? && !After(e2).fence.inTransaction;
    assert LosesNothingFrom(e2, |es|);
    var e3 := e2 + [Flush(true)];
    assert e3[..|e2|] == e2;
    assert LosesNothingFrom(e3, |es|);
    var c := After(e3).callers[|After(e2).callers|];
    assert c == Resolved(After(e2).fence.generation, 0, After(e2).fence.durable, false);
    more := e3[|es|..];
    assert es + more == e3;
  }

  /** Whatever step comes next in a lossless run, every continuation without a further lossy step
      keeps its flushes if and only if that step loses no write itself. If it does, a flush is to
      return short of its target unless another query comes first and repairs the flag. */
  lemma LossyExactly(es: seq<Event>, e: Event)
    requires IsRun(es) && LosesNothing(es) && Enabled(After(es), e)
    ensures (es + [e])[..|es|] == es && IsRun(es + [e])
    ensures KeepsFlushes(es + [e]) <==> !LosesWrite(After(es).fence, e)
  {
    var run := es + [e];
    assert run[..|es|] == es;
    if LosesWrite(After(es).fence, e) {
      StaleExactly(run);
      EveryRunIsSafe(run);
      var more := LossySurfaces(run);
    } else {
      forall more | IsRun(run + more) && LosesNothingFrom(run + more, |run|)
        ensures FlushesKept(After(run + more))
      {
        assert (run + more)[..|run|] == run;
        LosesNothingAtAll(run + more, |run|);
        FlushMeansDurable(run + more);
      }
    }
  }

  // A save settles in one step: nothing runs between its callback and its `finally`.
  predicate SettlesAtOnce(es: seq<Event>) {
    forall i :: 0 <= i < |es| - 1 && es[i].Settle? ==> es[i + 1] == Finish
  }

  /** Seen at that granularity no run loses a write. */
  lemma {:induction false} CoarseRunsLoseNothing(es: seq<Event>)
    requires IsRun(es)
    requires SettlesAtOnce(es)
    ensures LosesNothing(es)
    ensures var saving := After(es).fence.saving;
            saving.Some? && !saving.value.outcome.Pending? ==> es != [] && es[|es| - 1].Settle?
  {
    if es != [] {
      CoarseRunsLoseNothing(es[..|es| - 1]);
    }
  }

  lemma CoarseFlushMeansDurable(es: seq<Event>)
    requires IsRun(es) && SettlesAtOnce(es)
    ensures !Missed(After(es).fence) && FlushesKept(After(es))
  {
    CoarseRunsLoseNothing(es);
    FlushMeansDurable(es);
  }

  const LOST: seq<Event> := [Query(true), Flush(true), Settle(false), Query(false), Finish, Flush(true)]

  /** Without that, the guarantee fails: one write, a failed save, and a read that returns inside
      the window leave a clean flag, and the next flush resolves with the write still unsaved. */
  lemma LostWrite()
    ensures IsRun(LOST) && !LosesNothing(LOST)
    ensures var s := After(LOST); |s.callers| == 2 && s.callers[1] == Resolved(1, 0, 0, false) && s.fence.generation == 1
  {
    var e1 := [Query(true)];
    var e2 := e1 + [Flush(true)];
    var e3 := e2 + [Settle(false)];
    var e4 := e3 + [Query(false)];
    var e5 := e4 + [Finish];
    assert e1[..0] == [] && e2[..1] == e1 && e3[..2] == e2 && e4[..3] == e3 && e5[..4] == e4 && LOST[..5] == e5;
    assert IsRun(e1) && After(e1) == System(Fence(1, 0, None, true, false), [], []);
    assert IsRun(e2) && After(e2) == System(Fence(1, 0, Some(Flight(1, Pending)), false, false), [Waiting(1, 1)], [false]);
    assert IsRun(e3) && After(e3).fence == Fence(1, 0, Some(Flight(1, Failed)), true, false);
    assert IsRun(e4) && After(e4).fence == Fence(1, 0, Some(Flight(1, Failed)), false, false);
    assert !LosesNothing(e4);
    assert IsRun(e5) && After(e5).fence == Fence(1, 0, None, false, false);
  }

  /** An outer transaction begins if and only if every earlier write is durable or captured by the
      save in flight, whatever becomes of that save: it has not failed, except exactly in the window of
      a failed save that had something to save. */
  lemma BeginsOnlyCovered(es: seq<Event>)
    requires IsRun(es) && !After(es).fence.inTransaction
    ensures var f := After(es).fence;
            && (Enabled(After(es), Begin) <==>
                  f.durable == f.generation || (f.saving.Some? && f.saving.value.captured == f.generation))
            && (Enabled(After(es), Begin) ==>
                  ((f.durable == f.generation || f.saving == Some(Flight(f.generation, Pending))) <==> !(FailedWindow(f) && Owed(f))))
  {
    EveryRunIsSafe(es);
  }
}
