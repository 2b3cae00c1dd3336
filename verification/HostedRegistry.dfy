/**
 Registries with the credential generation store as their provider: a reload captures what the
 store hands out at that moment, and a captured generation is live while the store says so.
 Registries without a provider capture nothing.
 */
module HostedRegistry {
  import opened Common
  import G = CredentialGenerations
  import R = CredentialRegistry

  // `hosted` are the registries with a provider; `shut` tells that its issuer has been closed.
  datatype State = State(gens: G.State, sys: R.System, hosted: set<nat>, shut: bool)

  // A registry step looks at the store, if it does, at `now`; `faulty` is a throwing store listener.
  datatype Event = OnStore(g: G.Event) | OnRegistry(e: R.Event, now: int, faulty: bool) | CloseIssuer

  // The generations in force.
  function InForce(g: G.State, now: int): set<nat> {
    set i: nat | i < |g.all| && g.all[i].status.Active? && now < g.all[i].expiresAt
  }

  function Served(s: State, now: int): set<nat> {
    if s.shut then {} else InForce(s.gens, now)
  }

  function Seen(s: State, now: int): R.System {
    s.sys.(live := Served(s, now))
  }

  // What `captureRegistryProviderGeneration` answers, and the store after it.
  function Offered(s: State, r: nat, now: int, faulty: bool): (G.State, Result<Option<nat>, ()>) {
    if r !in s.hosted then (s.gens, Ok(None))
    else if s.shut then (s.gens, Err(()))
    else
      var (g, captured) := G.Capture(s.gens, now, faulty);
      (g, if captured.Ok? then Ok(Some(captured.value)) else Err(()))
  }

  predicate Enabled(s: State, e: Event) {
    e.OnRegistry? ==>
      && !e.e.Provide? && R.Enabled(Seen(s, e.now), e.e)
      && (e.e.Begin? ==> e.e.capture == Offered(s, e.e.r, e.now, e.faulty).1)
  }

  // A reload that is refused because another runs captures nothing.
  function StoreAfter(s: State, e: Event): G.State
    requires Enabled(s, e)
  {
    match e
    case OnStore(g) => G.Apply(s.gens, g)
    case OnRegistry(Begin(r, _), now, faulty) => if s.sys.regs[r].core.reloading then s.gens else Offered(s, r, now, faulty).0
    case _ => s.gens
  }

  ghost function Apply(s: State, e: Event): State
    requires Enabled(s, e)
  {
    State(StoreAfter(s, e), if e.OnRegistry? then R.Apply(Seen(s, e.now), e.e) else s.sys, s.hosted, s.shut || e.CloseIssuer?)
  }

  ghost predicate IsRun(s: State, es: seq<Event>)
    decreases |es|, 0
  {
    if es == [] then s.gens == G.Start(s.gens.maxGenerations, s.gens.maxTotalBytes) && R.IsStart(s.sys) && !s.shut
    else IsRun(s, es[..|es| - 1]) && Enabled(After(s, es[..|es| - 1]), es[|es| - 1])
  }

  ghost function After(s: State, es: seq<Event>): State
    requires IsRun(s, es)
    decreases |es|, 1
  {
    if es == [] then s else Apply(After(s, es[..|es| - 1]), es[|es| - 1])
  }

  ghost predicate Inv(s: State) {
    G.Inv(s.gens) && R.Inv(s.sys)
  }

  lemma OfferKeeps(s: State, r: nat, now: int, faulty: bool)
    requires G.Inv(s.gens)
    ensures G.Inv(Offered(s, r, now, faulty).0)
  {
    if s.gens.current.Some? {
      G.StepKeeps(s.gens, G.DoInspect(G.OfGeneration(s.gens.current.value), now, faulty));
    }
  }

  lemma StoreKeeps(s: State, e: Event)
    requires G.Inv(s.gens) && Enabled(s, e)
    ensures G.Inv(StoreAfter(s, e))
  {
    match e
    case OnStore(g) => G.StepKeeps(s.gens, g);
    case OnRegistry(Begin(r, _), now, faulty) => OfferKeeps(s, r, now, faulty);
    case _ =>
  }

  lemma StepKeeps(s: State, e: Event)
    requires Inv(s) && Enabled(s, e)
    ensures Inv(Apply(s, e))
  {
    StoreKeeps(s, e);
    if e.OnRegistry? {
      R.StepKeeps(s.sys, R.Provide(Served(s, e.now)));
      R.StepKeeps(Seen(s, e.now), e.e);
    }
  }

  lemma {:induction false} EveryRun(s: State, es: seq<Event>)
    requires IsRun(s, es)
    ensures Inv(After(s, es))
    decreases |es|
  {
    if es != [] {
      EveryRun(s, es[..|es| - 1]);
      StepKeeps(After(s, es[..|es| - 1]), es[|es| - 1]);
    } else {
      R.EveryRun(s.sys, []);
    }
  }

  /** In every run a registry's snapshot is replaced only by its own step, and only while the
      generation captured for it, if it captured one, is active in the store and not yet due and
      the issuer is open. */
  lemma SwapNeedsActive(s: State, es: seq<Event>, e: Event, r: nat)
    requires IsRun(s, es) && Enabled(After(s, es), e) && r < |After(s, es).sys.regs|
    ensures var t := After(s, es); var g, h := t.sys.regs[r], Apply(t, e).sys.regs[r];
            h.core.active != g.core.active ==>
              && e.OnRegistry? && R.Generation(h.core) == R.Generation(g.core) + 1
              && (g.phase.Answered? || g.phase.Checking?)
              && (g.phase.capture.Some? ==>
                    var i := g.phase.capture.value;
                    !t.shut && i < |t.gens.all| && t.gens.all[i].status.Active? && e.now < t.gens.all[i].expiresAt)
  {
    EveryRun(s, es);
    var t := After(s, es);
    if e.OnRegistry? {
      R.StepKeeps(t.sys, R.Provide(Served(t, e.now)));
      R.StepSwaps(Seen(t, e.now), e.e, r);
    }
  }

  // There is a generation to capture: the current one, in force, from an issuer that is open.
  predicate Capturable(s: State, now: int) {
    && !s.shut && !s.gens.closed && s.gens.current.Some?
    && s.gens.current.value in InForce(s.gens, now)
  }

  lemma OfferedExactly(s: State, r: nat, now: int, faulty: bool)
    requires G.Inv(s.gens) && r in s.hosted
    ensures Offered(s, r, now, faulty).1 == if Capturable(s, now) then Ok(s.gens.current) else Err(())
  {
    var captured := G.Capture(s.gens, now, faulty).1;
    if s.gens.current.Some? {
      assert G.Placed(s.gens, s.gens.current.value);
      G.CaptureIsCurrent(s.gens, now, faulty, s.gens.current.value);
    }
    if captured.Ok? {
      G.CaptureIsCurrent(s.gens, now, faulty, captured.value);
    }
  }

  /** At any moment of a run a reload of a registry can begin with one capture only: of nothing
      without a provider; else of the store's current generation if that is in force and the
      issuer open, and a failed one if not. */
  lemma BeginCapturesExactly(s: State, es: seq<Event>, r: nat, now: int, faulty: bool, capture: Result<Option<nat>, ()>)
    requires IsRun(s, es) && r < |After(s, es).sys.regs|
    ensures var t := After(s, es);
            Enabled(t, OnRegistry(R.Begin(r, capture), now, faulty)) <==>
            capture == if r !in t.hosted then Ok(None) else if Capturable(t, now) then Ok(t.gens.current) else Err(())
  {
    EveryRun(s, es);
    if r in After(s, es).hosted {
      OfferedExactly(After(s, es), r, now, faulty);
    }
  }
}
