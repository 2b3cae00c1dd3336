/**
 Single-use proofs that a registry snapshot still rests on a live credential generation. A
 snapshot is bound to the generation captured for it and knows the sources it serves.

 Proofs are numbered in order of issue: `known` can still be looked up, `live` has neither been
 consumed nor timed out. A generation's number stands for its identifier.
 */
module ProviderEvidence {
  import opened Common
  import G = CredentialGenerations

  datatype Binding = Binding(generation: nat, sources: set<string>)

  datatype Proof = Proof(snapshot: nat, source: string, epoch: nat, expiresAt: int)

  datatype Error = Denied | Unavailable

  datatype State = State(gens: G.State, snapshots: map<nat, Binding>, proofs: seq<Proof>, known: set<nat>, live: set<nat>,
                         closed: bool)

  const MAX_LIVE := 1024
  const MAX_TTL := 60000

  function Start(gens: G.State): State {
    State(gens, map[], [], {}, {}, false)
  }

  function Min(a: int, b: int): int {
    if a <= b then a else b
  }

  // `bound` followed by `describe`.
  function Bound(s: State, snapshot: nat, source: string, now: int, faulty: bool): (r: (State, Result<nat, Error>))
    ensures r.0 == s.(gens := r.0.gens) && |r.0.gens.all| == |s.gens.all|
    ensures r.1.Ok? ==> r.1.value < |s.gens.all|
  {
    if snapshot !in s.snapshots || source !in s.snapshots[snapshot].sources then (s, Err(Denied))
    else if s.closed then (s, Err(Unavailable))
    else
      var (g, r) := G.Inspect(s.gens, G.OfGeneration(s.snapshots[snapshot].generation), false, now, faulty);
      (s.(gens := g), if r.Ok? then Ok(r.value) else Err(if r.error.Denied? then Denied else Unavailable))
  }

  function Issue(s: State, snapshot: nat, source: string, ttl: int, now: int, faulty: bool): (State, Result<nat, Error>) {
    if s.closed then (s, Err(Unavailable))
    else
      var (t, r) := Bound(s, snapshot, source, now, faulty);
      if r.Err? then (t, r)
      else if ttl < 1 || ttl > MAX_TTL || |t.live| >= MAX_LIVE then (t, Err(Unavailable))
      else (Issued(t, Proof(snapshot, source, r.value, Min(now + ttl, t.gens.all[r.value].expiresAt))), Ok(|t.proofs|))
  }

  function Issued(s: State, p: Proof): State {
    s.(proofs := s.proofs + [p], known := s.known + {|s.proofs|}, live := s.live + {|s.proofs|})
  }

  function Consume(s: State, proof: nat, snapshot: nat, source: string, epoch: nat, now: int, faulty: bool)
    : (r: (State, Option<int>))
  {
    if proof !in s.known || proof >= |s.proofs| then (s, None)
    else
      var p := s.proofs[proof];
      var t := s.(known := s.known - {proof}, live := s.live - {proof});
      if s.closed || proof !in s.live then (t, None)
      else if snapshot != p.snapshot || source != p.source || epoch != p.epoch || now >= p.expiresAt then (t, None)
      else
        var (u, r) := Bound(t, p.snapshot, p.source, now, faulty);
        (u, if r.Ok? && r.value == p.epoch then Some(p.expiresAt) else None)
  }

  datatype Event =
    | OnStore(g: G.Event)
    | DoAssociate(snapshot: nat, binding: Binding)
    | DoIssue(snapshot: nat, source: string, ttl: int, now: int, faulty: bool)
    | DoConsume(proof: nat, snapshot: nat, source: string, epoch: nat, now: int, faulty: bool)
    | DoTimer(proof: nat)
    | DoClose

  function Apply(s: State, e: Event): State {
    match e
    case OnStore(g) => s.(gens := G.Apply(s.gens, g))
    case DoAssociate(snapshot, binding) => s.(snapshots := s.snapshots[snapshot := binding])
    case DoIssue(snapshot, source, ttl, now, faulty) => Issue(s, snapshot, source, ttl, now, faulty).0
    case DoConsume(proof, snapshot, source, epoch, now, faulty) => Consume(s, proof, snapshot, source, epoch, now, faulty).0
    case DoTimer(proof) => s.(live := s.live - {proof})
    case DoClose => s.(closed := true, snapshots := map[], known := {}, live := {})
  }

  ghost function After(s: State, es: seq<Event>): State {
    if es == [] then s else Apply(After(s, es[..|es| - 1]), es[|es| - 1])
  }

  ghost predicate Inv(s: State) {
    && G.Inv(s.gens) && s.live <= s.known && (forall p :: p in s.known ==> p < |s.proofs|) && |s.live| <= MAX_LIVE
    && (forall i :: 0 <= i < |s.proofs| ==> s.proofs[i].epoch < |s.gens.all|)
  }

  // Proofs are never altered; one that is no longer known never is again.
  ghost predicate Evolves(s: State, t: State) {
    && G.Evolves(s.gens, t.gens) && |s.proofs| <= |t.proofs| && (s.closed ==> t.closed)
    && (forall i :: 0 <= i < |s.proofs| ==> t.proofs[i] == s.proofs[i] && (i in t.known ==> i in s.known))
  }

  lemma BoundKeeps(s: State, snapshot: nat, source: string, now: int, faulty: bool)
    requires Inv(s)
    ensures var (t, r) := Bound(s, snapshot, source, now, faulty);
            && Inv(t) && Evolves(s, t)
            && (r.Ok? <==> !s.closed && snapshot in s.snapshots && source in s.snapshots[snapshot].sources
                           && Active(s.gens, s.snapshots[snapshot].generation, now))
            && (r.Ok? ==> t == s && r.value == s.snapshots[snapshot].generation)
  {
    if snapshot in s.snapshots {
      var i := s.snapshots[snapshot].generation;
      G.InspectExactly(s.gens, G.OfGeneration(i), false, now, faulty);
      if i < |s.gens.all| {
        assert G.Placed(s.gens, i);
      }
    }
  }

  // A generation in force.
  ghost predicate Active(g: G.State, i: nat, now: int) {
    i < |g.all| && g.all[i].status.Active? && now < g.all[i].expiresAt
  }

  /** A proof is issued if and only if its snapshot is vouched for, it is to last between a millisecond
      and a minute, and fewer than 1024 are live. It holds until then, or until its generation is due. */
  lemma IssueKeeps(s: State, snapshot: nat, source: string, ttl: int, now: int, faulty: bool)
    requires Inv(s)
    ensures var (t, r) := Issue(s, snapshot, source, ttl, now, faulty);
            && Inv(t) && Evolves(s, t)
            && (r.Ok? <==>
                  && !s.closed && snapshot in s.snapshots && source in s.snapshots[snapshot].sources
                  && Active(s.gens, s.snapshots[snapshot].generation, now) && 1 <= ttl <= 60000 && |s.live| < 1024)
            && (r.Ok? ==> r.value == |s.proofs| == |t.proofs| - 1 && t.gens == s.gens && r.value in t.live
                          && t.proofs[r.value].(expiresAt := 0) == Proof(snapshot, source, s.snapshots[snapshot].generation, 0)
                          && Active(s.gens, t.proofs[r.value].epoch, now) && now < t.proofs[r.value].expiresAt <= now + MAX_TTL
                          && t.proofs[r.value].expiresAt in {now + ttl, s.gens.all[t.proofs[r.value].epoch].expiresAt}
                          && t.proofs[r.value].expiresAt <= now + ttl
                          && t.proofs[r.value].expiresAt <= s.gens.all[t.proofs[r.value].epoch].expiresAt)
  {
    BoundKeeps(s, snapshot, source, now, faulty);
  }

  /** A proof is accepted exactly when it has neither been consumed nor timed out, all of the
      context matches, and the snapshot's own generation is in force and is the proof's. */
  lemma ConsumeExactly(s: State, proof: nat, snapshot: nat, source: string, epoch: nat, now: int, faulty: bool)
    requires Inv(s)
    ensures var (t, r) := Consume(s, proof, snapshot, source, epoch, now, faulty);
            && Inv(t) && Evolves(s, t) && proof !in t.known
            && (r.Some? <==>
                && !s.closed && proof in s.live && s.proofs[proof].(expiresAt := 0) == Proof(snapshot, source, epoch, 0)
                && now < s.proofs[proof].expiresAt
                && snapshot in s.snapshots && source in s.snapshots[snapshot].sources
                && s.snapshots[snapshot].generation == epoch && Active(s.gens, epoch, now))
            && (r.Some? ==> r.value == s.proofs[proof].expiresAt && t.gens == s.gens)
  {
    var t := s.(known := s.known - {proof}, live := s.live - {proof});
    SubsetIsSmaller(t.live, s.live);
    if proof in s.known {
      BoundKeeps(t, s.proofs[proof].snapshot, s.proofs[proof].source, now, faulty);
    }
  }

  lemma StepKeeps(s: State, e: Event)
    requires Inv(s)
    ensures Inv(Apply(s, e)) && Evolves(s, Apply(s, e))
  {
    match e
    case OnStore(g) => G.StepKeeps(s.gens, g);
    case DoIssue(snapshot, source, ttl, now, faulty) => IssueKeeps(s, snapshot, source, ttl, now, faulty);
    case DoConsume(proof, snapshot, source, epoch, now, faulty) =>
      ConsumeExactly(s, proof, snapshot, source, epoch, now, faulty);
    case DoTimer(proof) => SubsetIsSmaller(s.live - {proof}, s.live);
    case _ =>
  }

  lemma EvolvesThrough(s: State, t: State, u: State)
    requires Evolves(s, t) && Evolves(t, u)
    ensures Evolves(s, u)
  {
    G.EvolvesThrough(s.gens, t.gens, u.gens);
  }

  lemma {:induction false} EveryRun(s: State, es: seq<Event>)
    requires G.Inv(s.gens) && s == Start(s.gens)
    ensures Inv(After(s, es))
    decreases |es|
  {
    if es != [] {
      EveryRun(s, es[..|es| - 1]);
      StepKeeps(After(s, es[..|es| - 1]), es[|es| - 1]);
    }
  }

  lemma {:induction false} RunEvolves(s: State, es: seq<Event>, n: nat)
    requires G.Inv(s.gens) && s == Start(s.gens) && n <= |es|
    ensures Evolves(After(s, es[..n]), After(s, es))
    decreases |es|
  {
    if n == |es| {
      assert es[..n] == es;
    } else {
      var past := es[..|es| - 1];
      assert past[..n] == es[..n];
      RunEvolves(s, past, n);
      EveryRun(s, past);
      StepKeeps(After(s, past), es[|es| - 1]);
      EvolvesThrough(After(s, es[..n]), After(s, past), After(s, es));
    }
  }

  /** Whoever presents a proof first spends it: presented at step n, it is never accepted later,
      in whatever context. */
  lemma SpentForGood(s: State, es: seq<Event>, n: nat, snapshot: nat, source: string, epoch: nat, now: int, faulty: bool)
    requires G.Inv(s.gens) && s == Start(s.gens) && n < |es|
    requires es[n].DoConsume? && es[n].proof < |After(s, es[..n]).proofs|
    ensures Consume(After(s, es), es[n].proof, snapshot, source, epoch, now, faulty).1 == None
  {
    var upTo, c := es[..n + 1], es[n];
    assert upTo[..|upTo| - 1] == es[..n];
    EveryRun(s, es[..n]);
    ConsumeExactly(After(s, es[..n]), c.proof, c.snapshot, c.source, c.epoch, c.now, c.faulty);
    RunEvolves(s, es, n + 1);
  }

  // The step spends the proof: it is presented, or its time is up, or the issuer closes.
  predicate Spends(e: Event, proof: nat) {
    e.DoClose? || (e.DoTimer? && e.proof == proof) || (e.DoConsume? && e.proof == proof)
  }

  lemma StepSpends(s: State, e: Event, proof: nat)
    requires Inv(s) && proof in s.live
    ensures proof in Apply(s, e).live <==> !Spends(e, proof)
  {
    assert proof in s.known && proof < |s.proofs|;
    match e
    case DoConsume(other, snapshot, source, epoch, now, faulty) => ConsumeExactly(s, other, snapshot, source, epoch, now, faulty);
    case _ =>
  }

  lemma SpentStays(s: State, e: Event, proof: nat)
    requires Inv(s) && proof < |s.proofs| && proof !in s.live
    ensures proof !in Apply(s, e).live
  {
  }

  lemma SpendStep(s: State, e: Event, proof: nat)
    requires Inv(s) && proof < |s.proofs|
    ensures proof < |Apply(s, e).proofs| && Apply(s, e).proofs[proof] == s.proofs[proof]
    ensures proof in Apply(s, e).live <==> proof in s.live && !Spends(e, proof)
  {
    StepKeeps(s, e);
    if proof in s.live {
      StepSpends(s, e, proof);
    } else {
      SpentStays(s, e, proof);
    }
  }

  // No step after the first n spent the proof.
  predicate Unspent(es: seq<Event>, n: nat, proof: nat) {
    |es| <= n || (Unspent(es[..|es| - 1], n, proof) && !Spends(es[|es| - 1], proof))
  }

  /** A proof issued at step n is still live, unaltered, if and only if no later step spent it. */
  lemma {:induction false} UnspentExactly(s: State, es: seq<Event>, n: nat, proof: nat, issued: State)
    requires G.Inv(s.gens) && s == Start(s.gens) && n <= |es| && issued == After(s, es[..n])
    requires proof in issued.live && proof < |issued.proofs|
    ensures proof in After(s, es).live <==> Unspent(es, n, proof)
    ensures proof < |After(s, es).proofs| && After(s, es).proofs[proof] == issued.proofs[proof]
    decreases |es|
  {
    if n == |es| {
      assert es[..n] == es;
    } else {
      var past := es[..|es| - 1];
      assert past[..n] == es[..n];
      UnspentExactly(s, past, n, proof, issued);
      EveryRun(s, past);
      SpendStep(After(s, past), es[|es| - 1], proof);
    }
  }

  /** An accepted proof was issued within the last minute, and its generation has been active at
      every moment from the issue at step n to this acceptance. */
  lemma ActiveThroughout(s: State, es: seq<Event>, n: nat, k: nat, snapshot: nat, source: string, epoch: nat, now: int, faulty: bool)
    requires G.Inv(s.gens) && s == Start(s.gens) && n < k <= |es| && es[n].DoIssue?
    requires var i := es[n]; Issue(After(s, es[..n]), i.snapshot, i.source, i.ttl, i.now, i.faulty).1.Ok?
    ensures var proof := |After(s, es[..n]).proofs|;
            Consume(After(s, es), proof, snapshot, source, epoch, now, faulty).1.Some? ==>
              && snapshot == es[n].snapshot && source == es[n].source && now < es[n].now + MAX_TTL
              && epoch < |After(s, es[..k]).gens.all| && After(s, es[..k]).gens.all[epoch].status.Active?
  {
    var i, upTo, proof := es[n], es[..n + 1], |After(s, es[..n]).proofs|;
    assert upTo[..|upTo| - 1] == es[..n];
    EveryRun(s, es[..n]);
    IssueKeeps(After(s, es[..n]), i.snapshot, i.source, i.ttl, i.now, i.faulty);
    assert es[..k][..n + 1] == upTo;
    RunEvolves(s, es[..k], n + 1);
    RunEvolves(s, es, k);
    RunEvolves(s, es, n + 1);
    EveryRun(s, es);
    ConsumeExactly(After(s, es), proof, snapshot, source, epoch, now, faulty);
    var first, here, last := After(s, upTo), After(s, es[..k]), After(s, es);
    if Consume(last, proof, snapshot, source, epoch, now, faulty).1.Some? {
      assert first.proofs[proof].epoch == epoch;
      assert G.Onward(first.gens.all[epoch], here.gens.all[epoch]);
      assert G.Onward(here.gens.all[epoch], last.gens.all[epoch]);
    }
  }

  class Evidence {
    const store: G.Store
    var snapshots: map<nat, Binding>
    var proofs: seq<Proof>
    var known: set<nat>
    var live: set<nat>
    var closed: bool

    function View(): State
      reads this, store
    {
      State(store.View(), snapshots, proofs, known, live, closed)
    }

    constructor (store: G.Store)
      requires G.Inv(store.View())
      ensures View() == Start(old(store.View())) && this.store == store
      ensures Inv(View())
    {
      this.store := store;
      snapshots, proofs, known, live, closed := map[], [], {}, {}, false;
    }

    method Describe(snapshot: nat, source: string, now: int, faulty: bool) returns (r: Result<nat, Error>)
      requires Inv(View())
      modifies store
      ensures (View(), r) == Bound(old(View()), snapshot, source, now, faulty)
      ensures Inv(View())
    {
      BoundKeeps(View(), snapshot, source, now, faulty);
      if snapshot !in snapshots || source !in snapshots[snapshot].sources {
        return Err(Denied);
      }
      if closed {
        return Err(Unavailable);
      }
      var d := store.Check(G.OfGeneration(snapshots[snapshot].generation), false, now, faulty);
      r := if d.Ok? then Ok(d.value) else Err(if d.error.Denied? then Denied else Unavailable);
    }

    method IssueProof(snapshot: nat, source: string, ttl: int, now: int, faulty: bool) returns (r: Result<nat, Error>)
      requires Inv(View())
      modifies this, store
      ensures (View(), r) == Issue(old(View()), snapshot, source, ttl, now, faulty)
      ensures Inv(View())
    {
      IssueKeeps(View(), snapshot, source, ttl, now, faulty);
      if closed {
        return Err(Unavailable);
      }
      r := Describe(snapshot, source, now, faulty);
      if r.Err? {
        return;
      }
      if ttl < 1 || ttl > MAX_TTL || |live| >= MAX_LIVE {
        return Err(Unavailable);
      }
      var expiresAt := Min(now + ttl, store.all[r.value].expiresAt);
      var id := Register(Proof(snapshot, source, r.value, expiresAt));
      r := Ok(id);
    }

    method Register(p: Proof) returns (id: nat)
      modifies this
      ensures View() == Issued(old(View()), p) && id == |old(proofs)|
    {
      id := |proofs|;
      proofs := proofs + [p];
      known := known + {id};
      live := live + {id};
    }

    method ConsumeProof(proof: nat, snapshot: nat, source: string, epoch: nat, now: int, faulty: bool) returns (r: Option<int>)
      requires Inv(View())
      modifies this, store
      ensures (View(), r) == Consume(old(View()), proof, snapshot, source, epoch, now, faulty)
      ensures Inv(View()) && proof !in known
    {
      ConsumeExactly(View(), proof, snapshot, source, epoch, now, faulty);
      if proof !in known {
        return None;
      }
      var p, wasLive := proofs[proof], proof in live;
      known := known - {proof};
      live := live - {proof};
      SubsetIsSmaller(live, old(live));
      if closed || !wasLive {
        return None;
      }
      if snapshot != p.snapshot || source != p.source || epoch != p.epoch || now >= p.expiresAt {
        return None;
      }
      var d := Describe(p.snapshot, p.source, now, faulty);
      r := if d.Ok? && d.value == p.epoch then Some(p.expiresAt) else None;
    }

    method CloseIssuer()
      requires Inv(View())
      modifies this
      ensures closed && View() == (if old(closed) then old(View()) else Apply(old(View()), DoClose))
    {
      if closed {
        return;
      }
      closed := true;
      snapshots, known, live := map[], {}, {};
    }
  }
}
