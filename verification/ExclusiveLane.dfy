/**
 The write lane of the SQL.js data source: top-level operations are chained on one
 `tail` promise, and a call made by the operation that owns the lane runs inline.

 A queued operation is known by its arrival index. The token object that an operation
 creates when it starts is fresh, so it is modelled by that same index.
 */
module ExclusiveLane {
  import opened Common

  datatype Phase = Queued | Running | Settled(ok: bool)

  // A queued operation waits for the promise that was the tail when it arrived.
  datatype Op = Op(after: Option<nat>, phase: Phase)

  datatype Lane = Lane(ops: seq<Op>, tail: Option<nat>, owner: Option<nat>)

  // `context` is the token inherited by the caller, if it has one.
  datatype Event = Call(context: Option<nat>) | Start(op: nat) | Settle(op: nat, ok: bool)

  const Idle := Lane([], None, None)

  predicate Inline(s: Lane, context: Option<nat>) {
    s.owner.Some? && context == s.owner
  }

  predicate IsSettled(s: Lane, op: nat) {
    op < |s.ops| && s.ops[op].phase.Settled?
  }

  predicate Enabled(s: Lane, e: Event) {
    match e
    case Call(_) => true
    case Start(i) => i < |s.ops| && s.ops[i].phase.Queued? &&
                     (s.ops[i].after.None? || IsSettled(s, s.ops[i].after.value))
    case Settle(i, _) => i < |s.ops| && s.ops[i].phase.Running?
  }

  function Apply(s: Lane, e: Event): Lane
    requires Enabled(s, e)
  {
    match e
    case Call(context) =>
      if Inline(s, context) then s
      else Lane(s.ops + [Op(s.tail, Queued)], Some(|s.ops|), s.owner)
    case Start(i) =>
      s.(ops := s.ops[i := s.ops[i].(phase := Running)], owner := Some(i))
    case Settle(i, ok) =>
      s.(ops := s.ops[i := s.ops[i].(phase := Settled(ok))],
         owner := if s.owner == Some(i) then None else s.owner)
  }

  predicate IsRun(es: seq<Event>)
    decreases |es|, 0
  {
    es == [] || (IsRun(es[..|es| - 1]) && Enabled(After(es[..|es| - 1]), es[|es| - 1]))
  }

  function After(es: seq<Event>): Lane
    requires IsRun(es)
    decreases |es|, 1
  {
    if es == [] then Idle else Apply(After(es[..|es| - 1]), es[|es| - 1])
  }

  // The operations in the order in which they started.
  function Starts(es: seq<Event>): seq<nat> {
    if es == [] then []
    else Starts(es[..|es| - 1]) + (if es[|es| - 1].Start? then [es[|es| - 1].op] else [])
  }

  // All settled, then at most one running, then all queued; `begun` operations left the queue.
  ghost predicate Fifo(s: Lane, begun: nat) {
    && begun <= |s.ops|
    && s.tail == (if s.ops == [] then None else Some(|s.ops| - 1))
    && (forall i :: 0 <= i < |s.ops| ==> s.ops[i].after == (if i == 0 then None else Some(i - 1)))
    && (forall i :: 0 <= i < begun - 1 ==> s.ops[i].phase.Settled?)
    && (forall i :: begun <= i < |s.ops| ==> s.ops[i].phase.Queued?)
    && (if begun > 0 && s.ops[begun - 1].phase.Running? then s.owner == Some(begun - 1)
        else s.owner == None && (begun > 0 ==> s.ops[begun - 1].phase.Settled?))
  }

  /** Operations start in arrival order, each after its predecessor settled, however that went. */
  lemma {:induction false} StartsInArrivalOrder(es: seq<Event>)
    requires IsRun(es)
    ensures Starts(es) == seq(|Starts(es)|, i => i)
    ensures Fifo(After(es), |Starts(es)|)
  {
    if es != [] {
      StartsInArrivalOrder(es[..|es| - 1]);
    }
  }

  /** At most one top-level operation runs, and it is exactly the owner. */
  lemma MutualExclusion(es: seq<Event>, i: nat)
    requires IsRun(es) && i < |After(es).ops|
    ensures After(es).ops[i].phase.Running? <==> After(es).owner == Some(i)
  {
    StartsInArrivalOrder(es);
  }

  /** A call runs inline exactly when its token belongs to the running operation: a token
      inherited from an operation that has settled (or none) always queues, behind all others. */
  lemma StaleTokenQueues(es: seq<Event>, context: Option<nat>)
    requires IsRun(es)
    ensures var s := After(es);
            if context.Some? && context.value < |s.ops| && s.ops[context.value].phase.Running?
            then Apply(s, Call(context)) == s
            else Apply(s, Call(context)).ops == s.ops + [Op(s.tail, Queued)]
  {
    StartsInArrivalOrder(es);
  }

  /** The lane never stalls and never overtakes: an operation may start exactly when nothing
      runs and it is the oldest one still queued. */
  lemma OnlyTheOldestMayStart(es: seq<Event>, i: nat)
    requires IsRun(es)
    ensures Enabled(After(es), Start(i)) <==>
            After(es).owner == None && i == |Starts(es)| && i < |After(es).ops|
  {
    StartsInArrivalOrder(es);
  }

  /** The closure variables of `exclusive`; `ops` records the promises chained so far. */
  class WriteLane {
    var owner: Option<nat>
    var tail: Option<nat>
    var ops: seq<Op>

    function View(): Lane
      reads this
    {
      Lane(ops, tail, owner)
    }

    constructor ()
      ensures View() == Idle
    {
      owner, tail, ops := None, None, [];
    }

    method Exclusive(context: Option<nat>) returns (inline: bool)
      modifies this
      ensures View() == Apply(old(View()), Call(context))
      ensures inline == Inline(old(View()), context)
    {
      if owner.Some? && context == owner {
        return true;
      }
      var result := |ops|;
      ops := ops + [Op(tail, Queued)];
      tail := Some(result);
      inline := false;
    }

    method Begin(op: nat)
      requires Enabled(View(), Start(op))
      modifies this
      ensures View() == Apply(old(View()), Start(op))
    {
      owner := Some(op);
      ops := ops[op := ops[op].(phase := Running)];
    }

    method End(op: nat, ok: bool)
      requires Enabled(View(), Settle(op, ok))
      modifies this
      ensures View() == Apply(old(View()), Settle(op, ok))
    {
      ops := ops[op := ops[op].(phase := Settled(ok))];
      if owner == Some(op) {
        owner := None;
      }
    }
  }
}
