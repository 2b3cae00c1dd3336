/**
 How long a credential generation lives: exactly which steps end it, and what they leave alone.
 */
module GenerationLives {
  import opened Common
  import opened CredentialGenerations

  // The entry is due at this moment and has not been wiped for that reason before.
  predicate ComesDue(s: State, j: nat, now: int)
    requires j < |s.all|
  {
    !Ended(s.all[j].status) && s.all[j].expiresAt <= now
  }

  // The step ends entry i, which lives: its own activation, withdrawal, release or expiry, or a
  // listener that fails on the event of another, or closing.
  predicate Ends(s: State, e: Event, i: nat)
    requires i < |s.all|
  {
    match e
    case DoStage(_, _) => false
    case DoActivate(h, expected, now, faulty) =>
      && expected == s.current && Known(s, h, true)
      && if ComesDue(s, h.id, now) then i == h.id || faulty else s.all[h.id].status.Staged? && faulty
    case DoInspect(h, now, faulty) => Known(s, h, false) && ComesDue(s, h.id, now) && (i == h.id || faulty)
    case DoWithdraw(h, _, now, faulty) =>
      Known(s, h, false) && (ComesDue(s, h.id, now) || s.all[h.id].status.Active?) && (i == h.id || faulty)
    case DoRelease(h, faulty) => Known(s, h, true) && !Ended(s.all[h.id].status) && (i == h.id || faulty)
    case DoTimer(j, now, faulty) => j < |s.all| && ComesDue(s, j, now) && (i == j || faulty)
    case DoClose => true
  }

  lemma DisposeEnds(s: State, j: nat, to: Status, i: nat)
    requires j < |s.all| && i < |s.all| && Live(s.all[i]) && !Live(Wiped(s.all[j], to)) && !Ended(s.all[j].status)
    ensures Dispose(s, j, to).all[i] == if i == j then Wiped(s.all[i], to) else s.all[i]
  {
  }

  lemma ExpireEnds(s: State, j: nat, now: int, faulty: bool, i: nat)
    requires Inv(s) && j < |s.all| && i < |s.all| && Live(s.all[i])
    ensures Live(Expire(s, j, now, faulty).all[i]) <==> !(ComesDue(s, j, now) && (i == j || faulty))
  {
    assert Placed(s, i);
    if ComesDue(s, j, now) {
      DisposeEnds(s, j, Expired, i);
      DisposeKeeps(s, j, Expired);
      CloseKeeps(Dispose(s, j, Expired));
    }
  }

  lemma InspectEnds(s: State, h: Handle, allowStaged: bool, now: int, faulty: bool, i: nat)
    requires Inv(s) && i < |s.all| && Live(s.all[i])
    ensures Live(Inspect(s, h, allowStaged, now, faulty).0.all[i]) <==>
            !(Known(s, h, allowStaged) && ComesDue(s, h.id, now) && (i == h.id || faulty))
  {
    assert Placed(s, i);
    if Known(s, h, allowStaged) {
      ExpireEnds(s, h.id, now, faulty, i);
    }
  }

  lemma ActivateEnds(s: State, h: Handle, expected: Option<nat>, now: int, faulty: bool, i: nat)
    requires Inv(s) && i < |s.all| && Live(s.all[i])
    ensures Live(Activate(s, h, expected, now, faulty).0.all[i]) <==> !Ends(s, DoActivate(h, expected, now, faulty), i)
  {
    assert Placed(s, i);
    InspectEnds(s, h, true, now, faulty, i);
    InspectExactly(s, h, true, now, faulty);
    var (t, r) := Inspect(s, h, true, now, faulty);
    if r.Ok? && s.all[h.id].status.Staged? {
      PromotedKeeps(s, h.id);
      CloseKeeps(Promoted(s, h.id));
    }
  }

  lemma WithdrawEnds(s: State, h: Handle, to: Status, now: int, faulty: bool, i: nat)
    requires Inv(s) && i < |s.all| && Live(s.all[i]) && (to == Revoked || to == Unavailable)
    ensures Live(Withdraw(s, h, to, now, faulty).0.all[i]) <==>
            !(Known(s, h, false) && (ComesDue(s, h.id, now) || s.all[h.id].status.Active?) && (i == h.id || faulty))
  {
    assert Placed(s, i);
    InspectEnds(s, h, false, now, faulty, i);
    InspectExactly(s, h, false, now, faulty);
    var (t, r) := Inspect(s, h, false, now, faulty);
    if h.id < |s.all| {
      assert Placed(s, h.id);
    }
    if r.Ok? {
      WithdrawnEnds(s, h.id, to, now, faulty, i);
    }
  }

  lemma WithdrawnEnds(s: State, j: nat, to: Status, now: int, faulty: bool, i: nat)
    requires Inv(s) && i < |s.all| && Live(s.all[i]) && (to == Revoked || to == Unavailable)
    requires j < |s.all| && Live(s.all[j]) && s.all[j].expiresAt > now
    ensures Live(Publish(Expire(Dispose(s, j, to), j, now, faulty), faulty).all[i]) <==> i != j && !faulty
  {
    DisposeEnds(s, j, to, i);
    DisposeKeeps(s, j, to);
    CloseKeeps(Dispose(s, j, to));
  }

  lemma ReleaseEnds(s: State, h: Handle, faulty: bool, i: nat)
    requires Inv(s) && i < |s.all| && Live(s.all[i])
    ensures Live(Release(s, h, faulty).0.all[i]) <==> !Ends(s, DoRelease(h, faulty), i)
  {
    assert Placed(s, i);
    if Known(s, h, true) && !Ended(s.all[h.id].status) {
      ReleasedEnds(s, h.id, faulty, i);
    }
  }

  lemma ReleasedEnds(s: State, j: nat, faulty: bool, i: nat)
    requires Inv(s) && i < |s.all| && Live(s.all[i]) && j < |s.all| && !Ended(s.all[j].status)
    ensures Live(Publish(Dispose(s, j, Released), faulty).all[i]) <==> i != j && !faulty
  {
    DisposeEnds(s, j, Released, i);
    DisposeKeeps(s, j, Released);
    CloseKeeps(Dispose(s, j, Released));
  }

  lemma StepEnds(s: State, e: Event, i: nat)
    requires Inv(s) && i < |s.all| && Live(s.all[i])
    ensures i < |Apply(s, e).all|
    ensures Live(Apply(s, e).all[i]) <==> !Ends(s, e, i)
  {
    StepKeeps(s, e);
    assert Placed(s, i);
    match e
    case DoStage(_, _) =>
    case DoActivate(h, expected, now, faulty) => ActivateEnds(s, h, expected, now, faulty, i);
    case DoInspect(h, now, faulty) => InspectEnds(s, h, false, now, faulty, i);
    case DoWithdraw(h, revoked, now, faulty) => WithdrawEnds(s, h, if revoked then Revoked else Unavailable, now, faulty, i);
    case DoRelease(h, faulty) => ReleaseEnds(s, h, faulty, i);
    case DoTimer(j, now, faulty) =>
      if j < |s.all| {
        ExpireEnds(s, j, now, faulty, i);
      }
    case DoClose => CloseKeeps(s);
  }

  // No step of the run after the first n ends entry i.
  ghost predicate Spared(s: State, es: seq<Event>, n: nat, i: nat)
    decreases |es|
  {
    |es| <= n ||
    (var past := es[..|es| - 1]; Spared(s, past, n, i) && i < |After(s, past).all| && !Ends(After(s, past), es[|es| - 1], i))
  }

  /** An entry that lived at some moment of a run lives at its end, with the same material, if and only
      if no step in between was its own expiry, withdrawal or release, or a fault or closing that ends
      them all. */
  lemma {:induction false} LivesExactly(s: State, es: seq<Event>, n: nat, i: nat)
    requires s == Start(s.maxGenerations, s.maxTotalBytes) && n <= |es|
    requires i < |After(s, es[..n]).all| && Live(After(s, es[..n]).all[i])
    ensures i < |After(s, es).all| && (Live(After(s, es).all[i]) <==> Spared(s, es, n, i))
    ensures Live(After(s, es).all[i]) ==> After(s, es).all[i].content == After(s, es[..n]).all[i].content
    decreases |es|
  {
    if n == |es| {
      assert es[..n] == es;
    } else {
      var past := es[..|es| - 1];
      assert past[..n] == es[..n];
      LivesExactly(s, past, n, i);
      EveryRun(s, past);
      StepKeeps(After(s, past), es[|es| - 1]);
      assert Onward(After(s, past).all[i], After(s, es).all[i]);
      if Live(After(s, past).all[i]) {
        StepEnds(After(s, past), es[|es| - 1], i);
      }
    }
  }

  // ----- The current generation -----

  // The step makes this entry the current generation.
  predicate Grants(s: State, e: Event, i: nat) {
    && e.DoActivate? && e.h == OfStaged(i) && e.expected == s.current && !s.closed && !e.faulty
    && i < |s.all| && s.all[i].status.Staged? && s.all[i].expiresAt > e.now
  }

  lemma ActivateCurrent(s: State, h: Handle, expected: Option<nat>, now: int, faulty: bool)
    requires Inv(s)
    ensures var t, e := Activate(s, h, expected, now, faulty).0, DoActivate(h, expected, now, faulty);
            if t.closed then !s.closed ==> t.current == None
            else t.current == if Grants(s, e, h.id) then Some(h.id) else s.current
  {
    InspectExactly(s, h, true, now, faulty);
    if h.id < |s.all| {
      assert Placed(s, h.id);
    }
  }

  /** The current generation changes only when another is activated in its place, and when the store
      closes there is none. */
  lemma CurrentExactly(s: State, e: Event)
    requires Inv(s)
    ensures var t := Apply(s, e);
            if t.closed then !s.closed ==> t.current == None
            else t.current == if e.DoActivate? && Grants(s, e, e.h.id) then Some(e.h.id) else s.current
  {
    match e
    case DoActivate(h, expected, now, faulty) => ActivateCurrent(s, h, expected, now, faulty);
    case _ =>
  }
}
