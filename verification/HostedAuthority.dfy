/**
 The operation authority with the host's epoch authority as its epoch reader: one run in which
 the two take steps in any order.
 */
module HostedAuthority {
  import opened Common
  import H = HostEpochs
  import O = OperationAuthority
  import Safety = OperationSafety

  datatype State = State(host: H.Host, ops: O.State)

  // An operation step reads the epoch at `now`, with the registry subscription's answer.
  datatype Event = HostStep(h: H.Event) | OpStep(o: O.Event, now: nat, available: bool)

  function Observed(h: H.Host, source: string, now: nat, available: bool): Option<nat> {
    var r := H.Read(h, source, now, available).1;
    if r.Ok? then Some(r.value) else None
  }

  function Answered(e: O.Event, observed: Option<nat>): O.Event {
    match e
    case DoEnter(source, _) => O.DoEnter(source, observed)
    case DoRevoke(source, _) => O.DoRevoke(source, observed)
    case DoValidate(i, _, late, authorized) => O.DoValidate(i, observed, late, authorized)
    case DoLaunch(i, _, late) => O.DoLaunch(i, observed, late)
    case _ => e
  }

  predicate Enabled(s: State, e: Event) {
    e.OpStep? ==> O.Enabled(s.ops, e.o)
  }

  function Apply(s: State, e: Event): State
    requires Enabled(s, e)
  {
    match e
    case HostStep(h) => s.(host := H.Apply(s.host, h))
    case OpStep(o, now, available) =>
      var subject := O.Subject(s.ops, o);
      if subject.None? then s.(ops := O.Apply(s.ops, o))
      else State(H.Read(s.host, subject.value, now, available).0,
                 O.Apply(s.ops, Answered(o, Observed(s.host, subject.value, now, available))))
  }

  ghost predicate IsRun(s: State, es: seq<Event>)
    decreases |es|, 0
  {
    if es == [] then s == State(H.Host(map[], 0, false, s.host.max), O.Start(s.ops.limit, s.ops.sourceLimit))
    else IsRun(s, es[..|es| - 1]) && Enabled(After(s, es[..|es| - 1]), es[|es| - 1])
  }

  ghost function After(s: State, es: seq<Event>): State
    requires IsRun(s, es)
    decreases |es|, 1
  {
    if es == [] then s else Apply(After(s, es[..|es| - 1]), es[|es| - 1])
  }

  // An operation's epoch is the activation its source is in, or one that is over for good.
  ghost predicate Begun(h: H.Host, e: O.Entry) {
    H.Current(h, e.source) == Some(e.epoch) || H.Retired(h, e.epoch)
  }

  ghost predicate Inv(s: State) {
    O.Inv(s.ops) && H.Valid(s.host) && forall i :: 0 <= i < |s.ops.entries| ==> Begun(s.host, s.ops.entries[i])
  }

  // Nothing but a successful Enter adds an operation, and it adds one under the epoch observed.
  lemma OnlyEnterAdds(s: O.State, e: O.Event)
    requires O.Inv(s) && O.Enabled(s, e)
    ensures var t := O.Apply(s, e);
            |t.entries| > |s.entries| ==>
              e.DoEnter? && e.observed.Some? && |t.entries| == |s.entries| + 1
              && t.entries[|s.entries|].source == e.source && t.entries[|s.entries|].epoch == e.observed.value
  {
    O.StepKeeps(s, e);
    if e.DoRevoke? {
      O.RevokeKeeps(s, e.source, e.observed);
    }
  }

  lemma HostStepKeeps(h: H.Host, e: H.Event, o: O.Entry)
    requires H.Valid(h) && Begun(h, o)
    ensures Begun(H.Apply(h, e), o) && (H.Retired(h, o.epoch) ==> H.Retired(H.Apply(h, e), o.epoch))
  {
    H.StepRetires(h, e, o.source, o.epoch);
  }

  lemma StepKeeps(s: State, e: Event)
    requires Inv(s) && Enabled(s, e)
    ensures Inv(Apply(s, e)) && O.Evolves(s.ops, Apply(s, e).ops)
    ensures forall i :: 0 <= i < |s.ops.entries| && H.Retired(s.host, s.ops.entries[i].epoch) ==>
              H.Retired(Apply(s, e).host, s.ops.entries[i].epoch)
  {
    var t := Apply(s, e);
    var read := e.OpStep? && O.Subject(s.ops, e.o).Some?;
    var h := if e.HostStep? then e.h
             else if read then H.DoRead(O.Subject(s.ops, e.o).value, e.now, e.available) else H.DoClose;
    if e.OpStep? {
      var o := if read then Answered(e.o, Observed(s.host, O.Subject(s.ops, e.o).value, e.now, e.available)) else e.o;
      O.StepKeeps(s.ops, o);
      OnlyEnterAdds(s.ops, o);
      if read {
        H.ReadIsCurrent(s.host, O.Subject(s.ops, e.o).value, e.now, e.available);
      }
    }
    if e.HostStep? || read {
      H.StepRetires(s.host, h, "", 0);
    }
    forall i | 0 <= i < |s.ops.entries|
      ensures Begun(t.host, s.ops.entries[i])
      ensures H.Retired(s.host, s.ops.entries[i].epoch) ==> H.Retired(t.host, s.ops.entries[i].epoch)
    {
      if e.HostStep? || read {
        HostStepKeeps(s.host, h, s.ops.entries[i]);
      }
    }
  }

  lemma {:induction false} EveryRun(s: State, es: seq<Event>)
    requires IsRun(s, es)
    ensures Inv(After(s, es))
    decreases |es|
  {
    if es != [] {
      EveryRun(s, es[..|es| - 1]);
      StepKeeps(After(s, es[..|es| - 1]), es[|es| - 1]);
    }
  }

  lemma {:induction false} RetiredStays(s: State, es: seq<Event>, n: nat, i: nat)
    requires IsRun(s, es) && n <= |es| && IsRun(s, es[..n]) && i < |After(s, es[..n]).ops.entries|
    requires H.Retired(After(s, es[..n]).host, After(s, es[..n]).ops.entries[i].epoch)
    ensures i < |After(s, es).ops.entries|
    ensures var t := After(s, es); H.Retired(t.host, t.ops.entries[i].epoch)
    ensures After(s, es).ops.entries[i].source == After(s, es[..n]).ops.entries[i].source
    decreases |es|
  {
    if n == |es| {
      assert es[..n] == es;
    } else {
      var past := es[..|es| - 1];
      assert past[..n] == es[..n];
      RetiredStays(s, past, n, i);
      EveryRun(s, past);
      StepKeeps(After(s, past), es[|es| - 1]);
    }
  }

  /** A handle answers if and only if its operation is open with its context stored, in time and
      authorized, and its source is still in the very activation it began under, which is not due. */
  lemma CurrentExactly(s: State, es: seq<Event>, i: nat, now: nat, available: bool, late: bool, authorized: bool)
    requires IsRun(s, es) && i < |After(s, es).ops.entries|
    ensures var t := After(s, es); var e := t.ops.entries[i];
            O.Current(t.ops, i, Observed(t.host, e.source, now, available), late, authorized) <==>
            && !e.closed && e.hasContext && !late && authorized
            && H.Current(t.host, e.source) == Some(e.epoch) && available && !H.Due(t.host, e.source, now)
  {
    EveryRun(s, es);
    var t := After(s, es);
    var e := t.ops.entries[i];
    Safety.ValidatesExactly(t.ops, i, Observed(t.host, e.source, now, available), late, authorized);
    H.ReadIsCurrent(t.host, e.source, now, available);
  }

  /** And once that activation is over - by revocation, expiry, a new activation, an
      unavailable registry or closing - the handle never answers again, whatever follows. */
  lemma ActivationOverForGood(s: State, es: seq<Event>, n: nat, i: nat, now: nat, available: bool, late: bool, authorized: bool)
    requires IsRun(s, es) && n <= |es| && IsRun(s, es[..n]) && i < |After(s, es[..n]).ops.entries|
    requires var t := After(s, es[..n]); H.Current(t.host, t.ops.entries[i].source) != Some(t.ops.entries[i].epoch)
    ensures i < |After(s, es).ops.entries|
    ensures var t := After(s, es);
            !O.Current(t.ops, i, Observed(t.host, t.ops.entries[i].source, now, available), late, authorized)
  {
    EveryRun(s, es[..n]);
    assert Begun(After(s, es[..n]).host, After(s, es[..n]).ops.entries[i]);
    RetiredStays(s, es, n, i);
    CurrentExactly(s, es, i, now, available, late, authorized);
  }

  // ----- Epochs that a revocation blocked -----

  // The source is in the activation of this token, or that activation is over for good.
  ghost predicate Known(h: H.Host, source: string, token: nat) {
    H.Current(h, source) == Some(token) || H.Retired(h, token)
  }

  ghost predicate SlotsKnown(s: State) {
    forall k :: k in s.ops.slots && s.ops.slots[k].lastEpoch.Some? ==> Known(s.host, k, s.ops.slots[k].lastEpoch.value)
  }

  // The operation step as it is taken, with the epoch it read.
  function Taken(s: State, e: Event): O.Event
    requires e.OpStep? && Enabled(s, e)
  {
    var subject := O.Subject(s.ops, e.o);
    if subject.None? then e.o else Answered(e.o, Observed(s.host, subject.value, e.now, e.available))
  }

  // What the host does in a step, if anything.
  function HostPart(s: State, e: Event): Option<H.Event>
    requires Enabled(s, e)
  {
    if e.HostStep? then Some(e.h)
    else
      var subject := O.Subject(s.ops, e.o);
      if subject.None? then None else Some(H.DoRead(subject.value, e.now, e.available))
  }

  lemma StepParts(s: State, e: Event)
    requires Enabled(s, e)
    ensures Apply(s, e).host == (if HostPart(s, e).Some? then H.Apply(s.host, HostPart(s, e).value) else s.host)
    ensures e.HostStep? ==> Apply(s, e).ops == s.ops
    ensures e.OpStep? ==> O.Enabled(s.ops, Taken(s, e)) && Apply(s, e).ops == O.Apply(s.ops, Taken(s, e))
                          && O.Subject(s.ops, Taken(s, e)) == O.Subject(s.ops, e.o)
  {
  }

  // A token read in a step is the one its source is active under afterwards.
  lemma ReadIsKnown(s: State, e: Event, source: string)
    requires e.OpStep? && Enabled(s, e) && O.Subject(s.ops, e.o) == Some(source)
    ensures var observed := O.ObservedBy(Taken(s, e)); var h := Apply(s, e).host;
            && (observed.Some? ==> H.Current(h, source) == observed && h == s.host)
            && (observed.None? ==> H.Current(h, source) == None)
  {
    H.ReadIsCurrent(s.host, source, e.now, e.available);
  }

  lemma KnownStays(s: State, e: Event, source: string, token: nat)
    requires H.Valid(s.host) && Enabled(s, e) && Known(s.host, source, token)
    ensures Known(Apply(s, e).host, source, token)
    ensures H.Retired(s.host, token) ==> H.Retired(Apply(s, e).host, token)
  {
    StepParts(s, e);
    if HostPart(s, e).Some? {
      H.StepRetires(s.host, HostPart(s, e).value, source, token);
    }
  }

  lemma SlotsKnownKeeps(s: State, e: Event)
    requires Inv(s) && SlotsKnown(s) && Enabled(s, e)
    ensures SlotsKnown(Apply(s, e))
  {
    StepParts(s, e);
    var t := Apply(s, e);
    forall k | k in t.ops.slots && t.ops.slots[k].lastEpoch.Some?
      ensures Known(t.host, k, t.ops.slots[k].lastEpoch.value)
    {
      LastEpochIsKnown(s, e, k);
    }
  }

  lemma LastEpochIsKnown(s: State, e: Event, k: string)
    requires Inv(s) && SlotsKnown(s) && Enabled(s, e) && k in Apply(s, e).ops.slots && Apply(s, e).ops.slots[k].lastEpoch.Some?
    ensures Known(Apply(s, e).host, k, Apply(s, e).ops.slots[k].lastEpoch.value)
  {
    StepParts(s, e);
    var kept := k in s.ops.slots && s.ops.slots[k].lastEpoch == Apply(s, e).ops.slots[k].lastEpoch;
    if kept {
      KnownStays(s, e, k, s.ops.slots[k].lastEpoch.value);
    } else {
      NewEpochWasRead(s, e, k);
      ReadIsKnown(s, e, k);
    }
  }

  lemma NewEpochWasRead(s: State, e: Event, k: string)
    requires Inv(s) && Enabled(s, e) && k in Apply(s, e).ops.slots && Apply(s, e).ops.slots[k].lastEpoch.Some?
    requires !(k in s.ops.slots && s.ops.slots[k].lastEpoch == Apply(s, e).ops.slots[k].lastEpoch)
    ensures e.OpStep? && O.Subject(s.ops, e.o) == Some(k) && Apply(s, e).ops.slots[k].lastEpoch == O.ObservedBy(Taken(s, e))
  {
    StepParts(s, e);
    if e.OpStep? {
      var o := Taken(s, e);
      if k !in s.ops.slots {
        O.NewSlot(s.ops, o, k);
      } else if o.DoRevoke? && o.source == k {
        O.RevokeMoves(s.ops, k, o.observed, k);
      } else {
        O.StepMoves(s.ops, o, k);
      }
    }
  }

  // The token is over, or it is current and barred, and nothing else was read since.
  ghost predicate Shut(s: State, source: string, token: nat) {
    H.Retired(s.host, token) || (H.Current(s.host, source) == Some(token) && source in s.ops.slots && Bars(s.ops.slots[source], token))
  }

  predicate Bars(slot: O.Slot, token: nat) {
    slot.revoked && slot.blocked == Some(token) && !slot.unknown && slot.lastEpoch in {None, Some(token)}
  }

  lemma ShutStays(s: State, e: Event, source: string, token: nat)
    requires Inv(s) && Enabled(s, e) && Shut(s, source, token)
    ensures Shut(Apply(s, e), source, token)
  {
    StepParts(s, e);
    KnownStays(s, e, source, token);
    if !H.Retired(Apply(s, e).host, token) && e.OpStep? {
      var o := Taken(s, e);
      if O.Subject(s.ops, o) == Some(source) {
        ReadIsKnown(s, e, source);
      }
      if o.DoRevoke? && o.source == source {
        O.RevokeMoves(s.ops, source, o.observed, source);
      } else {
        O.StepMoves(s.ops, o, source);
      }
    }
  }

  lemma {:induction false} EveryRunKnows(s: State, es: seq<Event>)
    requires IsRun(s, es)
    ensures SlotsKnown(After(s, es))
    decreases |es|
  {
    if es != [] {
      EveryRunKnows(s, es[..|es| - 1]);
      EveryRun(s, es[..|es| - 1]);
      SlotsKnownKeeps(After(s, es[..|es| - 1]), es[|es| - 1]);
    }
  }

  lemma RevocationShuts(s: State, e: Event, source: string, token: nat)
    requires Inv(s) && SlotsKnown(s) && Enabled(s, e) && e.OpStep? && e.o.DoRevoke? && e.o.source == source
    requires O.SlotFor(s.ops, source).Some?
    requires Apply(s, e).ops.slots.Keys >= {source} && Apply(s, e).ops.slots[source].blocked == Some(token)
    ensures Shut(Apply(s, e), source, token)
  {
    StepParts(s, e);
    var o := Taken(s, e);
    O.RevokeMoves(s.ops, source, o.observed, source);
    ReadIsKnown(s, e, source);
    var slot := O.SlotFor(s.ops, source).value.slots[source];
    if slot.lastEpoch.Some? {
      assert source in s.ops.slots && s.ops.slots[source] == slot;
      KnownStays(s, e, source, token);
    }
  }

  lemma {:induction false} ShutForGood(s: State, es: seq<Event>, n: nat, source: string, token: nat)
    requires IsRun(s, es) && n <= |es| && IsRun(s, es[..n]) && Shut(After(s, es[..n]), source, token)
    ensures Shut(After(s, es), source, token)
    decreases |es|
  {
    if n == |es| {
      assert es[..n] == es;
    } else {
      var past := es[..|es| - 1];
      assert past[..n] == es[..n];
      ShutForGood(s, past, n, source, token);
      EveryRun(s, past);
      ShutStays(After(s, past), es[|es| - 1], source, token);
    }
  }

  lemma {:induction false} PrefixIsRun(s: State, es: seq<Event>, n: nat)
    requires IsRun(s, es) && n <= |es|
    ensures IsRun(s, es[..n]) && (n < |es| ==> Enabled(After(s, es[..n]), es[n]))
    decreases |es|
  {
    if n == |es| {
      assert es[..n] == es;
    } else if n < |es| - 1 {
      assert es[..|es| - 1][..n] == es[..n];
      PrefixIsRun(s, es[..|es| - 1], n);
    }
  }

  /** With the host's tokens as epochs a revocation blocks for good: no operation of its source
      ever begins again under the epoch it blocked, however many revocations and activations follow. */
  lemma BlockedForGood(s: State, es: seq<Event>, n: nat, token: nat, now: nat, available: bool)
    requires IsRun(s, es) && n < |es| && es[n].OpStep? && es[n].o.DoRevoke?
    requires IsRun(s, es[..n + 1]) && es[n].o.source in After(s, es[..n + 1]).ops.slots
    requires After(s, es[..n + 1]).ops.slots[es[n].o.source].blocked == Some(token)
    requires IsRun(s, es[..n]) && O.SlotFor(After(s, es[..n]).ops, es[n].o.source).Some?
    ensures var t, source := After(s, es), es[n].o.source;
            var observed := Observed(t.host, source, now, available);
            O.Enter(t.ops, source, observed).1 ==> observed != Some(token)
  {
    var upTo, source := es[..n + 1], es[n].o.source;
    assert upTo[..|upTo| - 1] == es[..n];
    PrefixIsRun(s, es, n);
    EveryRun(s, es[..n]);
    EveryRunKnows(s, es[..n]);
    RevocationShuts(After(s, es[..n]), es[n], source, token);
    ShutForGood(s, es, n + 1, source, token);
    ShutNeverBegins(After(s, es), source, token, now, available);
  }

  lemma ShutNeverBegins(s: State, source: string, token: nat, now: nat, available: bool)
    requires Shut(s, source, token)
    ensures var observed := Observed(s.host, source, now, available);
            O.Enter(s.ops, source, observed).1 ==> observed != Some(token)
  {
    H.ReadIsCurrent(s.host, source, now, available);
  }
}
