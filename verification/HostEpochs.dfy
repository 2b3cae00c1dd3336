/**
 The host's security epochs: every activation of a source gets a fresh token, readable until
 the source is revoked, expires, becomes unavailable, is activated again, or the authority
 closes. Abort listeners are not re-entrant here; a UUID is a token never issued before.
 */
module HostEpochs {
  import opened Common

  datatype Entry = Active(token: nat, expiresAt: Option<nat>) | Denied | Unavailable

  datatype Host = Host(entries: map<string, Entry>, issued: nat, closed: bool, max: nat)

  datatype Error = PolicyDenied | PolicyUnavailable

  function StopAll(h: Host): Host {
    h.(entries := map s | s in h.entries :: if h.entries[s].Active? then Unavailable else h.entries[s])
  }

  // `available` is the answer of the registry subscription, when there is one.
  function Healthy(h: Host, available: bool): (Host, bool) {
    if h.closed then (h, false) else if !available then (StopAll(h), false) else (h, true)
  }

  function Activate(h: Host, source: string, expiresAt: Option<nat>, now: nat, available: bool): (Host, Result<nat, Error>) {
    var (g, ok) := Healthy(h, available);
    if !ok then (g, Err(PolicyUnavailable))
    else if expiresAt.Some? && expiresAt.value <= now then (g, Err(PolicyDenied))
    else if source !in g.entries && |g.entries| >= g.max then (g, Err(PolicyUnavailable))
    else (g.(entries := g.entries[source := Active(g.issued, expiresAt)], issued := g.issued + 1), Ok(g.issued))
  }

  function Read(h: Host, source: string, now: nat, available: bool): (Host, Result<nat, Error>) {
    var (g, ok) := Healthy(h, available);
    if !ok || source !in g.entries then (g, Err(PolicyUnavailable))
    else
      match g.entries[source]
      case Denied => (g, Err(PolicyDenied))
      case Unavailable => (g, Err(PolicyUnavailable))
      case Active(token, expiresAt) =>
        if expiresAt.Some? && now >= expiresAt.value then (g.(entries := g.entries[source := Denied]), Err(PolicyDenied))
        else (g, Ok(token))
  }

  // `revoke`, `unavailable`, the expiry timer and a registry commit that is not a mere reload.
  function Stop(h: Host, source: string, to: Entry, available: bool): Host
    requires !to.Active?
  {
    var (g, ok) := Healthy(h, available);
    if ok && source in g.entries then g.(entries := g.entries[source := to]) else g
  }

  function Close(h: Host): Host {
    h.(entries := map[], closed := true)
  }

  // The token a source is active under.
  function Current(h: Host, source: string): Option<nat> {
    if !h.closed && source in h.entries && h.entries[source].Active? then Some(h.entries[source].token) else None
  }

  datatype Event =
    | DoActivate(source: string, expiresAt: Option<nat>, now: nat, available: bool)
    | DoRead(source: string, now: nat, available: bool)
    | DoStop(source: string, denied: bool, available: bool)
    | DoClose

  function Apply(h: Host, e: Event): Host {
    match e
    case DoActivate(source, expiresAt, now, available) => Activate(h, source, expiresAt, now, available).0
    case DoRead(source, now, available) => Read(h, source, now, available).0
    case DoStop(source, denied, available) => Stop(h, source, if denied then Denied else Unavailable, available)
    case DoClose => Close(h)
  }

  ghost predicate Valid(h: Host) {
    && (forall s :: s in h.entries && h.entries[s].Active? ==> h.entries[s].token < h.issued)
    && (forall s, t :: s in h.entries && t in h.entries && h.entries[s].Active? && h.entries[t].Active? && s != t ==>
          h.entries[s].token != h.entries[t].token)
  }

  // A token that was issued and under which no source is active any more.
  ghost predicate Retired(h: Host, token: nat) {
    token < h.issued && forall s :: Current(h, s) != Some(token)
  }

  /** A step keeps every activation or retires its token, and a retired token never returns. */
  lemma StepRetires(h: Host, e: Event, source: string, token: nat)
    requires Valid(h)
    ensures Valid(Apply(h, e))
    ensures Current(h, source) == Some(token) ==> Current(Apply(h, e), source) == Some(token) || Retired(Apply(h, e), token)
    ensures Retired(h, token) ==> Retired(Apply(h, e), token)
  {
    var g := Apply(h, e);
    forall s | Current(g, s) == Some(token) && token < h.issued
      ensures Current(h, s) == Some(token)
    {
    }
    assert g.issued >= h.issued;
  }

  function After(h: Host, es: seq<Event>): Host {
    if es == [] then h else Apply(After(h, es[..|es| - 1]), es[|es| - 1])
  }

  function Start(max: nat): Host {
    Host(map[], 0, false, max)
  }

  lemma {:induction false} EveryRun(h: Host, es: seq<Event>)
    requires h == Start(h.max)
    ensures Valid(After(h, es))
  {
    if es != [] {
      EveryRun(h, es[..|es| - 1]);
      StepRetires(After(h, es[..|es| - 1]), es[|es| - 1], "", 0);
    }
  }

  lemma {:induction false} IssuedGrows(h: Host, es: seq<Event>, n: nat)
    requires n <= |es|
    ensures After(h, es[..n]).issued <= After(h, es).issued
    decreases |es|
  {
    if n == |es| {
      assert es[..n] == es;
    } else {
      assert es[..|es| - 1][..n] == es[..n];
      IssuedGrows(h, es[..|es| - 1], n);
    }
  }

  /** After any run, an activation is granted to an open, healthy authority with room, for a time
      still to come; no source was ever active under its token, at whatever moment of the run. */
  lemma ActivationIsFresh(h: Host, es: seq<Event>, source: string, expiresAt: Option<nat>, now: nat, available: bool,
                          n: nat, other: string)
    requires h == Start(h.max) && n <= |es|
    ensures var last := After(h, es);
            var (g, r) := Activate(last, source, expiresAt, now, available);
            && (r.Ok? <==> !last.closed && available && (expiresAt.Some? ==> expiresAt.value > now)
                           && (source in last.entries || |last.entries| < last.max))
            && (r.Ok? ==> Current(g, source) == Some(r.value) && Current(After(h, es[..n]), other) != Some(r.value)
                          && (forall s :: s != source ==> Current(g, s) == Current(last, s)))
  {
    EveryRun(h, es[..n]);
    IssuedGrows(h, es, n);
  }

  // The activation of a source has come to its expiry, noticed or not.
  predicate Due(h: Host, source: string, now: nat) {
    && source in h.entries && h.entries[source].Active?
    && h.entries[source].expiresAt.Some? && h.entries[source].expiresAt.value <= now
  }

  /** A read answers with the token of the activation in force, if and only if there is one, it is
      not due, and the registry is available; after a failed read the source has no current token.
      A failure is a denial exactly when the source was denied or its activation is due. */
  lemma ReadIsCurrent(h: Host, source: string, now: nat, available: bool)
    ensures var (g, r) := Read(h, source, now, available);
            && (r.Ok? <==> Current(h, source).Some? && available && !Due(h, source, now))
            && (r.Ok? ==> g == h && Current(h, source) == Some(r.value))
            && (r.Err? ==> Current(g, source) == None)
            && (r == Err(PolicyDenied) <==>
                  && !h.closed && available && source in h.entries && (h.entries[source].Denied? || Due(h, source, now)))
  {
  }

  // The step ends what activation the source is in.
  predicate Ends(h: Host, e: Event, source: string) {
    match e
    case DoActivate(s, expiresAt, now, available) =>
      !available || (s == source && (expiresAt.Some? ==> expiresAt.value > now))
    case DoRead(s, now, available) => !available || (s == source && Due(h, source, now))
    case DoStop(s, _, available) => !available || s == source
    case DoClose => true
  }

  lemma StepEnds(h: Host, e: Event, source: string, token: nat)
    requires Valid(h) && Current(h, source) == Some(token)
    ensures Current(Apply(h, e), source) == Some(token) <==> !Ends(h, e, source)
  {
  }

  // No step of the run after the first n ends the activation of the source.
  predicate Undisturbed(h: Host, es: seq<Event>, n: nat, source: string) {
    |es| <= n || (Undisturbed(h, es[..|es| - 1], n, source) && !Ends(After(h, es[..|es| - 1]), es[|es| - 1], source))
  }

  /** An activation in force at some moment of a run is so at its end if and only if no step in between
      ended it: a new activation, a stop, an expiry noticed by a read, an unavailable registry, or
      closing. */
  lemma {:induction false} LastsExactly(h: Host, es: seq<Event>, n: nat, source: string, token: nat)
    requires h == Start(h.max) && n <= |es| && Current(After(h, es[..n]), source) == Some(token)
    ensures Current(After(h, es), source) == Some(token) <==> Undisturbed(h, es, n, source)
    ensures Current(After(h, es), source) == Some(token) || Retired(After(h, es), token)
    decreases |es|
  {
    if n == |es| {
      assert es[..n] == es;
    } else {
      var past := es[..|es| - 1];
      assert past[..n] == es[..n];
      LastsExactly(h, past, n, source, token);
      EveryRun(h, past);
      StepRetires(After(h, past), es[|es| - 1], source, token);
      if Current(After(h, past), source) == Some(token) {
        StepEnds(After(h, past), es[|es| - 1], source, token);
      }
    }
  }

  class Authority {
    var entries: map<string, Entry>
    var issued: nat
    var closed: bool
    const max: nat

    function View(): Host
      reads this
    {
      Host(entries, issued, closed, max)
    }

    constructor (max: nat)
      ensures View() == Start(max)
    {
      entries, issued, closed, this.max := map[], 0, false, max;
    }

    method CheckHealthy(available: bool) returns (ok: bool)
      modifies this
      ensures (View(), ok) == Healthy(old(View()), available)
    {
      if closed {
        return false;
      }
      if !available {
        entries := map s | s in entries :: if entries[s].Active? then Unavailable else entries[s];
      }
      ok := available;
    }

    method ActivateSource(source: string, expiresAt: Option<nat>, now: nat, available: bool) returns (r: Result<nat, Error>)
      modifies this
      ensures (View(), r) == Activate(old(View()), source, expiresAt, now, available)
    {
      var ok := CheckHealthy(available);
      if !ok {
        return Err(PolicyUnavailable);
      }
      if expiresAt.Some? && expiresAt.value <= now {
        return Err(PolicyDenied);
      }
      if source !in entries && |entries| >= max {
        return Err(PolicyUnavailable);
      }
      r := Ok(issued);
      entries := entries[source := Active(issued, expiresAt)];
      issued := issued + 1;
    }

    method ReadSource(source: string, now: nat, available: bool) returns (r: Result<nat, Error>)
      modifies this
      ensures (View(), r) == Read(old(View()), source, now, available)
    {
      var ok := CheckHealthy(available);
      if !ok || source !in entries {
        return Err(PolicyUnavailable);
      }
      if entries[source].Active? && entries[source].expiresAt.Some? && now >= entries[source].expiresAt.value {
        entries := entries[source := Denied];
      }
      match entries[source] {
        case Denied => r := Err(PolicyDenied);
        case Unavailable => r := Err(PolicyUnavailable);
        case Active(token, _) => r := Ok(token);
      }
    }

    // `revoke` with Denied, `unavailable` with Unavailable.
    method StopActivation(source: string, to: Entry, available: bool) returns (ok: bool)
      requires !to.Active?
      modifies this
      ensures View() == Stop(old(View()), source, to, available)
      ensures ok == Healthy(old(View()), available).1
      ensures ok ==> Current(View(), source) == None
    {
      ok := CheckHealthy(available);
      if ok && source in entries {
        entries := entries[source := to];
      }
    }

    method CloseAll()
      modifies this
      ensures View() == Close(old(View()))
      ensures forall s :: Current(View(), s) == None
    {
      closed := true;
      entries := map[];
    }
  }
}
