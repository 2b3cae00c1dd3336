/**
 The network policy compiler: a policy is checked once against the host's denied
 destinations, and every connection is checked again at run time. URLs arrive parsed; an
 origin is kept as its scheme, host and port, of which its text is an injective rendering.
 */
module NetworkPolicy {
  import opened Common
  import opened IpAddress
  import opened AddressRanges
  import AddressText

  datatype Origin = Origin(scheme: string, host: string, port: nat)

  datatype Deny = Deny(range: Range, ports: Option<seq<nat>>)

  // Fixed at boot by the host.
  datatype Host = Host(denies: seq<Deny>, loopbackAllowed: bool)

  datatype ExceptionInput = ExceptionInput(source: string, site: string, origin: Origin, addresses: seq<string>,
                                           issuedAt: int, expiresAt: int)

  datatype PolicyInput = PolicyInput(source: string, site: string, origin: Origin, exception: Option<ExceptionInput>)

  datatype Exception = Exception(addresses: set<string>, issuedAt: int, expiresAt: int)

  datatype Policy = Policy(source: string, site: string, origin: Origin, exception: Option<Exception>)

  datatype Target = Target(source: string, site: string, origin: Origin)

  const MAX_LIST := 128
  const MAX_LIFETIME := 30 * 86400000

  // The metadata services 169.254.169.254 and fd00:ec2::254.
  const BUILTINS: seq<(nat, nat)> := [(4, 0xA9FE_A9FE), (6, 0xFD00_0EC2_0000_0000_0000_0000_0000_0254)]

  predicate HoldsBuiltin(r: Range) {
    exists i :: 0 <= i < 2 && BUILTINS[i].0 == r.family && r.value <= BUILTINS[i].1 <= r.last
  }

  predicate OnPort(d: Deny, port: nat) {
    d.ports.None? || port in d.ports.value
  }

  predicate DeniedAtCompile(host: Host, r: Range, port: nat) {
    HoldsBuiltin(r) ||
    exists i :: 0 <= i < |host.denies| && OnPort(host.denies[i], port) && Overlap(host.denies[i].range, r)
  }

  // A range that no longer parses is rejected as well.
  predicate DeniedText(host: Host, canonical: string, port: nat) {
    ParseCidr(canonical).None? || DeniedAtCompile(host, ParseCidr(canonical).value.range, port)
  }

  predicate DeniedAtRunTime(host: Host, a: Address, port: nat) {
    (a.family, a.value) in BUILTINS ||
    exists i :: 0 <= i < |host.denies| && OnPort(host.denies[i], port) && Contains(host.denies[i].range, a)
  }

  predicate IsLoopbackRange(canonical: string) {
    var first := Parse(AddressText.Split(canonical, '/')[0]);
    first.Some? && Classify(first.value) == Loopback
  }

  // What `f` makes of the elements of a list, or None when it refuses one.
  function Results<T, U>(f: T -> Option<U>, list: seq<T>): Option<set<U>> {
    if exists i :: 0 <= i < |list| && f(list[i]).None? then None
    else Some(set i | 0 <= i < |list| :: f(list[i]).value)
  }

  function CompileException(host: Host, port: nat, e: ExceptionInput, now: int): Option<Exception> {
    if e.issuedAt > now || e.expiresAt <= now || e.expiresAt <= e.issuedAt || e.expiresAt - e.issuedAt > MAX_LIFETIME then None
    else if |e.addresses| > MAX_LIST || |e.addresses| == 0 then None
    else
      var addresses := Results(NormalizeException, e.addresses);
      if addresses.None? then None
      else if exists c :: c in addresses.value && DeniedText(host, c, port) then None
      else if !host.loopbackAllowed && exists c :: c in addresses.value && IsLoopbackRange(c) then None
      else Some(Exception(addresses.value, e.issuedAt, e.expiresAt))
  }

  function Compile(host: Host, p: PolicyInput, now: int): Option<Policy> {
    if p.exception.None? then Some(Policy(p.source, p.site, p.origin, None))
    else
      var e := p.exception.value;
      if e.source != p.source || e.site != p.site || e.origin != p.origin then None
      else
        var compiled := CompileException(host, p.origin.port, e, now);
        if compiled.None? then None else Some(Policy(p.source, p.site, p.origin, compiled))
  }

  predicate InForce(p: Policy, now: int) {
    p.exception.None? || p.exception.value.issuedAt <= now < p.exception.value.expiresAt
  }

  predicate Authorizes(p: Policy, t: Target, now: int) {
    t.source == p.source && t.site == p.site && t.origin == p.origin && InForce(p, now)
  }

  predicate Listed(addresses: seq<string>, a: Address) {
    && |addresses| <= MAX_LIST
    && (forall i :: 0 <= i < |addresses| ==> ParseCidr(addresses[i]).Some?)
    && exists i :: 0 <= i < |addresses| && Contains(ParseCidr(addresses[i]).value.range, a)
  }

  predicate Excepted(e: Exception, a: Address) {
    && (forall c :: c in e.addresses ==> ParseCidr(c).Some?)
    && exists c :: c in e.addresses && Contains(ParseCidr(c).value.range, a)
  }

  // A literal host admits only its own address.
  predicate HostMatches(host: string, a: Address) {
    Parse(host).Some? ==> Parse(host).value.canonical == a.canonical
  }

  // The filters of the run-time check that look at the address alone.
  predicate Admissible(host: Host, a: Address, port: nat) {
    var category := Classify(a);
    && !DeniedAtRunTime(host, a, port)
    && category in {Public, Private, Loopback}
    && (category == Loopback ==> host.loopbackAllowed)
  }

  predicate Allows(host: Host, p: Policy, t: Target, address: string, endpoint: Option<seq<string>>, now: int) {
    var parsed := Parse(address);
    if parsed.None? || !Authorizes(p, t, now) then false
    else
      var a := parsed.value;
      if !HostMatches(t.origin.host, a) || !Admissible(host, a, t.origin.port) then false
      else if endpoint.Some? && !Listed(endpoint.value, a) then false
      else if p.exception.None? then Classify(a) == Public
      else InForce(p, now) && Excepted(p.exception.value, a)
  }

  // The results, each once.
  method MapAll<T, U(==)>(f: T -> Option<U>, list: seq<T>) returns (r: Option<seq<U>>)
    ensures r.None? <==> Results(f, list).None?
    ensures r.Some? ==> Distinct(r.value) && Elements(r.value) == Results(f, list).value
  {
    var results := [];
    for i := 0 to |list|
      invariant forall k :: 0 <= k < i ==> f(list[k]).Some? && f(list[k]).value in results
      invariant forall u :: u in results ==> exists k :: 0 <= k < i && f(list[k]) == Some(u)
      invariant Distinct(results)
    {
      var result := f(list[i]);
      if result.None? {
        return None;
      }
      if result.value !in results {
        results := results + [result.value];
      }
    }
    r := Some(results);
  }

  method Any<T>(p: T -> bool, list: seq<T>) returns (any: bool)
    ensures any <==> exists x :: x in list && p(x)
  {
    for i := 0 to |list|
      invariant forall x :: x in list[..i] ==> !p(x)
    {
      if p(list[i]) {
        return true;
      }
    }
    any := false;
  }

  /** The host's compiler. A compiled policy is known by its place in `compiled`: only objects
      made by this instance are ever honoured. */
  class Compiler {
    const host: Host
    var compiled: seq<Policy>

    constructor (host: Host)
      ensures this.host == host && compiled == []
    {
      this.host, compiled := host, [];
    }

    method CompilePolicy(p: PolicyInput, now: int) returns (handle: Option<nat>)
      modifies this
      ensures compiled == if Compile(host, p, now).Some? then old(compiled) + [Compile(host, p, now).value] else old(compiled)
      ensures handle == if Compile(host, p, now).Some? then Some(|old(compiled)|) else None
    {
      var exception := None;
      if p.exception.Some? {
        var e := p.exception.value;
        if e.source != p.source || e.site != p.site || e.origin != p.origin {
          return None;
        }
        exception := CheckException(p.origin.port, e, now);
        if exception.None? {
          return None;
        }
      }
      handle := Some(|compiled|);
      compiled := compiled + [Policy(p.source, p.site, p.origin, exception)];
    }

    method CheckException(port: nat, e: ExceptionInput, now: int) returns (r: Option<Exception>)
      ensures r == CompileException(host, port, e, now)
    {
      if e.issuedAt > now || e.expiresAt <= now || e.expiresAt <= e.issuedAt || e.expiresAt - e.issuedAt > MAX_LIFETIME {
        return None;
      }
      if |e.addresses| > MAX_LIST || |e.addresses| == 0 {
        return None;
      }
      var cidrs := MapAll(NormalizeException, e.addresses);
      if cidrs.None? {
        return None;
      }
      var denied := Any(c => DeniedText(host, c, port), cidrs.value);
      if denied {
        return None;
      }
      var loopback := Any(IsLoopbackRange, cidrs.value);
      if loopback && !host.loopbackAllowed {
        return None;
      }
      r := Some(Exception(Elements(cidrs.value), e.issuedAt, e.expiresAt));
    }

    predicate AuthorizeTarget(handle: nat, t: Target, now: int)
      reads this
    {
      handle < |compiled| && Authorizes(compiled[handle], t, now)
    }

    predicate AllowsDestination(handle: nat, t: Target, address: string, endpoint: Option<seq<string>>, now: int)
      reads this
    {
      handle < |compiled| && Allows(host, compiled[handle], t, address, endpoint, now)
    }
  }

  // ----- Compile time and run time agree -----

  lemma BuiltinInRange(r: Range, a: Address)
    requires Contains(r, a) && (a.family, a.value) in BUILTINS
    ensures HoldsBuiltin(r)
  {
    var i :| 0 <= i < 2 && BUILTINS[i] == (a.family, a.value);
    assert BUILTINS[i].0 == r.family;
  }

  lemma NotDenied(host: Host, r: Range, a: Address, port: nat)
    requires Contains(r, a) && !DeniedAtCompile(host, r, port)
    ensures !DeniedAtRunTime(host, a, port)
  {
    if (a.family, a.value) in BUILTINS {
      BuiltinInRange(r, a);
    }
  }

  lemma ExceptionRange(host: Host, origin: Origin, e: ExceptionInput, now: int, c: string) returns (raw: string)
    ensures CompiledRange(host, origin, e, now, c) ==>
              && NormalizeException(raw) == Some(c)
              && !DeniedText(host, c, origin.port) && (host.loopbackAllowed || !IsLoopbackRange(c))
  {
    raw := c;
    if CompiledRange(host, origin, e, now, c) {
      var i :| 0 <= i < |e.addresses| && NormalizeException(e.addresses[i]).value == c;
      raw := e.addresses[i];
    }
  }

  lemma LoopbackRange(raw: string, c: string)
    ensures NormalizeException(raw) == Some(c) ==>
              && ParseCidr(c) == ParseCidr(raw) && ParseCidr(c).Some?
              && var r := ParseCidr(raw).value.range;
                 IsLoopbackRange(c) <==> Classify(AddressOf(r.family, r.value)) == Loopback
  {
    CidrRoundTrip(raw);
  }

  // The text is one of the ranges of an exception that compiled.
  ghost predicate CompiledRange(host: Host, origin: Origin, e: ExceptionInput, now: int, c: string) {
    CompileException(host, origin.port, e, now).Some? && c in CompileException(host, origin.port, e, now).value.addresses
  }

  /** Inside a compiled exception range the run-time filters remove the ISATAP forms only. */
  lemma FiltersRemoveOnlyIsatap(host: Host, origin: Origin, e: ExceptionInput, now: int, c: string, a: Address)
    ensures CompiledRange(host, origin, e, now, c) ==>
              && ParseCidr(c).Some?
              && (Contains(ParseCidr(c).value.range, a) ==> (Admissible(host, a, origin.port) <==> !Isatap(a)))
  {
    if CompiledRange(host, origin, e, now, c) {
      var raw := ExceptionRange(host, origin, e, now, c);
      LoopbackRange(raw, c);
      var r := ParseCidr(c).value.range;
      if Contains(r, a) {
        ExceptionIsUniform(raw, a);
        NotDenied(host, r, a, origin.port);
      }
    }
  }

  /** A public policy never reaches a special-purpose address, a denied one or a metadata service. */
  lemma PublicNeverReachesSpecial(host: Host, p: Policy, t: Target, address: string, endpoint: Option<seq<string>>, now: int, j: nat)
    requires p.exception.None? && j < |TABLE|
    ensures Allows(host, p, t, address, endpoint, now) ==>
              && Parse(address).Some?
              && !Contains(TABLE[j].range, Parse(address).value) && !Isatap(Parse(address).value)
              && Global(Parse(address).value.family, Parse(address).value.value)
              && (forall i :: 0 <= i < |host.denies| && Contains(host.denies[i].range, Parse(address).value) ==>
                    host.denies[i].ports.Some? && p.origin.port !in host.denies[i].ports.value)
              && (Parse(address).value.family, Parse(address).value.value) !in BUILTINS
  {
    TableIsOrdered();
  }
}
