/**
 When a policy compiles and when an address is admitted, with the denied destinations and the
 metadata services spelled out.
 */
module NetworkDecisions {
  import opened Common
  import opened IpAddress
  import opened AddressRanges
  import opened AddressClasses
  import opened NetworkPolicy

  // The range, from its first to its last address, holds this one.
  predicate Holds(r: Range, a: Address) {
    r.family == a.family && r.value <= a.value && a.value <= r.last
  }

  // A host that is an address is this one.
  predicate LiteralAgrees(host: string, a: Address) {
    Parse(host).Some? ==> Parse(host).value.family == a.family && Parse(host).value.value == a.value
  }

  // A list of at most 128 good ranges, one of which holds the address.
  predicate Names(ranges: seq<string>, a: Address) {
    && |ranges| <= 128 && (forall i :: 0 <= i < |ranges| ==> ParseCidr(ranges[i]).Some?)
    && exists i :: 0 <= i < |ranges| && Holds(ParseCidr(ranges[i]).value.range, a)
  }

  lemma HostMatchesExactly(host: string, address: string)
    requires Parse(address).Some?
    ensures HostMatches(host, Parse(address).value) <==> LiteralAgrees(host, Parse(address).value)
  {
    ParsedIsWellFormed(host);
    ParsedIsWellFormed(address);
    if Parse(host).Some? {
      CanonicalIsInjective(Parse(host).value, Parse(address).value);
    }
  }

  // The entry denies this port: it lists no ports, or this one among them.
  predicate CoversPort(d: Deny, port: nat) {
    match d.ports
    case None => true
    case Some(ports) => exists i :: 0 <= i < |ports| && ports[i] == port
  }

  predicate Hits(d: Deny, a: Address, port: nat) {
    CoversPort(d, port) && Holds(d.range, a)
  }

  // The ranges have an address in common.
  predicate Meets(r: Range, q: Range) {
    r.family == q.family && r.value <= q.last && q.value <= r.last
  }

  // 169.254.169.254 and fd00:ec2::254, by family and value.
  predicate Metadata(family: nat, value: nat) {
    || (family == 4 && value == 169 * 0x100_0000 + 254 * 0x1_0000 + 169 * 0x100 + 254)
    || (family == 6 && value == 0xfd00_0ec2 * 0x1_0000_0000_0000_0000_0000_0000 + 0x254)
  }

  // The entries that deny are the same with i left out.
  function Without(host: Host, i: nat): Host
    requires i < |host.denies|
  {
    host.(denies := host.denies[..i] + host.denies[i + 1..])
  }

  lemma MetadataIsBuiltin(a: Address)
    ensures (a.family, a.value) in BUILTINS <==> Metadata(a.family, a.value)
  {
    assert BUILTINS[0] == (4, 0xA9FE_A9FE) && BUILTINS[1] == (6, 0xFD00_0EC2_0000_0000_0000_0000_0000_0254);
    assert forall b :: b in BUILTINS ==> b == BUILTINS[0] || b == BUILTINS[1];
  }

  lemma RunTimeExactly(host: Host, a: Address, port: nat)
    ensures DeniedAtRunTime(host, a, port) <==>
            Metadata(a.family, a.value) || exists i :: 0 <= i < |host.denies| && Hits(host.denies[i], a, port)
  {
    MetadataIsBuiltin(a);
    forall i | 0 <= i < |host.denies|
      ensures Hits(host.denies[i], a, port) <==> OnPort(host.denies[i], port) && Contains(host.denies[i].range, a)
    {
      PortIsListed(host.denies[i], port);
    }
  }

  lemma PortIsListed(d: Deny, port: nat)
    ensures CoversPort(d, port) <==> OnPort(d, port)
  {
  }

  /** Whatever the policy, public or with an exception, an address that a deny entry holds is never
      admitted on a port that the entry covers, and neither is a metadata service on any port. */
  lemma DeniedIsNeverAdmitted(host: Host, p: Policy, t: Target, address: string, endpoint: Option<seq<string>>, now: int)
    requires Parse(address).Some?
    requires var a := Parse(address).value;
             Metadata(a.family, a.value) || exists i :: 0 <= i < |host.denies| && Hits(host.denies[i], a, t.origin.port)
    ensures !Allows(host, p, t, address, endpoint, now)
  {
    RunTimeExactly(host, Parse(address).value, t.origin.port);
  }

  /** A public policy admits an address if and only if it is ordinary, neither special-purpose nor
      ISATAP nor denied, for the policy's own target; an address-literal host and an endpoint list
      narrow that. */
  lemma PublicIsExact(host: Host, p: Policy, t: Target, address: string, endpoint: Option<seq<string>>, now: int)
    requires p.exception.None?
    ensures Allows(host, p, t, address, endpoint, now) <==>
              && Parse(address).Some?
              && var a := Parse(address).value;
                 && t == Target(p.source, p.site, p.origin)
                 && !EmbedsIsatap(a.family, a.value) && Ordinary(a.family, a.value)
                 && (forall k :: 0 <= k < |TABLE| ==> !Contains(TABLE[k].range, a))
                 && !Metadata(a.family, a.value)
                 && (forall i :: 0 <= i < |host.denies| ==> !Hits(host.denies[i], a, p.origin.port))
                 && LiteralAgrees(p.origin.host, a) && (endpoint.Some? ==> Names(endpoint.value, a))
  {
    if Parse(address).Some? {
      var a := Parse(address).value;
      RunTimeExactly(host, a, t.origin.port);
      PublicExactly(a);
      HostMatchesExactly(t.origin.host, address);
      if endpoint.Some? {
        ListedExactly(endpoint.value, a);
      }
    }
  }

  lemma PublicExactly(a: Address)
    ensures Classify(a) == Public <==>
              && !EmbedsIsatap(a.family, a.value) && Ordinary(a.family, a.value)
              && forall k :: 0 <= k < |TABLE| ==> !Contains(TABLE[k].range, a)
  {
    TableIsOrdered();
    if k :| 0 <= k < |TABLE| && Contains(TABLE[k].range, a) {
      var j := SomeRowIsMostSpecific(a, k);
      ClassifyExactly(a, j);
    } else {
      ClassifyExactly(a, 0);
    }
  }

  lemma ListedExactly(ranges: seq<string>, a: Address)
    ensures Listed(ranges, a) <==> Names(ranges, a)
  {
    forall i | 0 <= i < |ranges| && ParseCidr(ranges[i]).Some?
      ensures Holds(ParseCidr(ranges[i]).value.range, a) <==> Contains(ParseCidr(ranges[i]).value.range, a)
    {
    }
  }

  // One of the ranges holds the address.
  predicate Opened(e: Exception, a: Address) {
    exists c :: c in e.addresses && ParseCidr(c).Some? && Holds(ParseCidr(c).value.range, a)
  }

  lemma OpenedAdmits(host: Host, origin: Origin, e: ExceptionInput, compiledAt: int, a: Address)
    requires CompileException(host, origin.port, e, compiledAt).Some?
    ensures var x := CompileException(host, origin.port, e, compiledAt).value;
            && (Excepted(x, a) <==> Opened(x, a))
            && (Opened(x, a) ==> (Admissible(host, a, origin.port) <==> !EmbedsIsatap(a.family, a.value)))
  {
    var x := CompileException(host, origin.port, e, compiledAt).value;
    forall c | c in x.addresses
      ensures ParseCidr(c).Some? && (Holds(ParseCidr(c).value.range, a) <==> Contains(ParseCidr(c).value.range, a))
      ensures Holds(ParseCidr(c).value.range, a) ==> (Admissible(host, a, origin.port) <==> !EmbedsIsatap(a.family, a.value))
    {
      RangeAdmits(host, origin, e, compiledAt, c, a);
    }
  }

  lemma RangeAdmits(host: Host, origin: Origin, e: ExceptionInput, compiledAt: int, c: string, a: Address)
    requires CompiledRange(host, origin, e, compiledAt, c)
    ensures ParseCidr(c).Some? && (Holds(ParseCidr(c).value.range, a) <==> Contains(ParseCidr(c).value.range, a))
    ensures Holds(ParseCidr(c).value.range, a) ==> (Admissible(host, a, origin.port) <==> !EmbedsIsatap(a.family, a.value))
  {
    FiltersRemoveOnlyIsatap(host, origin, e, compiledAt, c, a);
  }

  lemma AllowsReads(host: Host, q: Policy, t: Target, address: string, endpoint: Option<seq<string>>, now: int, a: Address)
    requires Parse(address) == Some(a) && q.exception.Some?
    ensures Allows(host, q, t, address, endpoint, now) <==>
              && t == Target(q.source, q.site, q.origin) && InForce(q, now)
              && HostMatches(q.origin.host, a) && Admissible(host, a, q.origin.port)
              && (endpoint.Some? ==> Listed(endpoint.value, a)) && Excepted(q.exception.value, a)
  {
  }

  lemma CompiledFields(host: Host, p: PolicyInput, compiledAt: int)
    requires p.exception.Some? && Compile(host, p, compiledAt).Some?
    ensures CompileException(host, p.origin.port, p.exception.value, compiledAt).Some?
    ensures var x := CompileException(host, p.origin.port, p.exception.value, compiledAt).value;
            && Compile(host, p, compiledAt).value == Policy(p.source, p.site, p.origin, Some(x))
            && x.issuedAt == p.exception.value.issuedAt && x.expiresAt == p.exception.value.expiresAt
  {
  }

  /** A compiled exception policy admits an address if and only if it is for the policy's own target,
      while the exception is in force, one of its ranges holds the address, and the address is not of
      the ISATAP form; an address-literal host and an endpoint list narrow that, and nothing else does. */
  lemma ExceptionIsExact(host: Host, p: PolicyInput, compiledAt: int, t: Target, address: string, endpoint: Option<seq<string>>, now: int)
    requires p.exception.Some? && Compile(host, p, compiledAt).Some?
    ensures var policy := Compile(host, p, compiledAt).value;
            Allows(host, policy, t, address, endpoint, now) <==>
              && Parse(address).Some?
              && var a := Parse(address).value;
                 && t == Target(p.source, p.site, p.origin)
                 && p.exception.value.issuedAt <= now < p.exception.value.expiresAt
                 && Opened(policy.exception.value, a) && !EmbedsIsatap(a.family, a.value)
                 && LiteralAgrees(p.origin.host, a) && (endpoint.Some? ==> Names(endpoint.value, a))
  {
    CompiledFields(host, p, compiledAt);
    var policy := Compile(host, p, compiledAt).value;
    if Parse(address).Some? {
      var a := Parse(address).value;
      AllowsReads(host, policy, t, address, endpoint, now, a);
      OpenedAdmits(host, p.origin, p.exception.value, compiledAt, a);
      HostMatchesExactly(p.origin.host, address);
      if endpoint.Some? {
        ListedExactly(endpoint.value, a);
      }
    }
  }

  // ----- Compilation -----

  // A range may be opened: it holds no metadata service, meets no deny entry that covers the port, and
  // is loopback only where the host allows that.
  ghost predicate MayOpen(host: Host, r: Range, port: nat) {
    && (forall family: nat, value: nat :: Metadata(family, value) ==> !(r.family == family && r.value <= value <= r.last))
    && (forall i :: 0 <= i < |host.denies| && CoversPort(host.denies[i], port) ==> !Meets(host.denies[i].range, r))
    && (host.loopbackAllowed || Classify(AddressOf(r.family, r.value)) != Loopback)
  }

  lemma BuiltinsExactly(r: Range)
    ensures HoldsBuiltin(r) <==> exists family: nat, value: nat :: Metadata(family, value) && r.family == family && r.value <= value <= r.last
  {
    assert BUILTINS[0] == (4, 0xA9FE_A9FE) && BUILTINS[1] == (6, 0xFD00_0EC2_0000_0000_0000_0000_0000_0254);
    assert Metadata(4, 0xA9FE_A9FE) && Metadata(6, 0xFD00_0EC2_0000_0000_0000_0000_0000_0254);
  }

  lemma CompileTimeExactly(host: Host, r: Range, port: nat)
    ensures DeniedAtCompile(host, r, port) || (!host.loopbackAllowed && Classify(AddressOf(r.family, r.value)) == Loopback) <==>
            !MayOpen(host, r, port)
  {
    BuiltinsExactly(r);
    forall i | 0 <= i < |host.denies|
      ensures CoversPort(host.denies[i], port) <==> OnPort(host.denies[i], port)
    {
      PortIsListed(host.denies[i], port);
    }
  }

  // One text of an exception: it is acceptable, and its range may be opened.
  ghost predicate TextPasses(host: Host, raw: string, port: nat) {
    ParseCidr(raw).Some? && Exceptional(ParseCidr(raw).value.range) && MayOpen(host, ParseCidr(raw).value.range, port)
  }

  lemma TextExactly(host: Host, raw: string, port: nat)
    ensures var c := NormalizeException(raw);
            TextPasses(host, raw, port) <==> c.Some? && !DeniedText(host, c.value, port) && (host.loopbackAllowed || !IsLoopbackRange(c.value))
  {
    ExceptionExactly(raw);
    if NormalizeException(raw).Some? {
      LoopbackRange(raw, NormalizeException(raw).value);
      CompileTimeExactly(host, ParseCidr(raw).value.range, port);
    }
  }

  // The texts that compile, each in its canonical form.
  ghost predicate Keeps(texts: seq<string>, addresses: set<string>) {
    && (forall i :: 0 <= i < |texts| ==> ParseCidr(texts[i]).Some? && ParseCidr(texts[i]).value.canonical in addresses)
    && forall c :: c in addresses ==> exists i :: 0 <= i < |texts| && ParseCidr(texts[i]).Some? && ParseCidr(texts[i]).value.canonical == c
  }

  ghost predicate ExceptionPasses(host: Host, port: nat, e: ExceptionInput, now: int) {
    && e.issuedAt <= now < e.expiresAt && e.expiresAt - e.issuedAt <= 2_592_000_000
    && 1 <= |e.addresses| <= 128 && forall i :: 0 <= i < |e.addresses| ==> TextPasses(host, e.addresses[i], port)
  }

  lemma ExceptionCompiles(host: Host, port: nat, e: ExceptionInput, now: int)
    ensures CompileException(host, port, e, now).Some? <==> ExceptionPasses(host, port, e, now)
    ensures CompileException(host, port, e, now).Some? ==>
              var x := CompileException(host, port, e, now).value;
              x.issuedAt == e.issuedAt && x.expiresAt == e.expiresAt && Keeps(e.addresses, x.addresses)
  {
    var results := Results(NormalizeException, e.addresses);
    forall i | 0 <= i < |e.addresses|
      ensures TextPasses(host, e.addresses[i], port) <==>
              var c := NormalizeException(e.addresses[i]);
              c.Some? && !DeniedText(host, c.value, port) && (host.loopbackAllowed || !IsLoopbackRange(c.value))
      ensures NormalizeException(e.addresses[i]).Some? ==>
                ParseCidr(e.addresses[i]).Some? && NormalizeException(e.addresses[i]).value == ParseCidr(e.addresses[i]).value.canonical
    {
      TextExactly(host, e.addresses[i], port);
      ExceptionExactly(e.addresses[i]);
    }
  }

  /** A policy compiles if and only if it has no exception, or one for its own source, site and origin,
      in force and for thirty days at most, with 1 to 128 ranges, each of a kind that can be opened and
      clear of the metadata services and of every deny entry that covers the port. It then keeps what
      it was given, the ranges in their canonical form. */
  lemma CompilesExactly(host: Host, p: PolicyInput, now: int)
    ensures Compile(host, p, now).Some? <==>
            (p.exception.Some? ==>
               var e := p.exception.value;
               e.source == p.source && e.site == p.site && e.origin == p.origin && ExceptionPasses(host, p.origin.port, e, now))
    ensures Compile(host, p, now).Some? ==>
              var q := Compile(host, p, now).value;
              && q.source == p.source && q.site == p.site && q.origin == p.origin && q.exception.Some? == p.exception.Some?
              && (q.exception.Some? ==>
                    && q.exception.value.issuedAt == p.exception.value.issuedAt
                    && q.exception.value.expiresAt == p.exception.value.expiresAt
                    && Keeps(p.exception.value.addresses, q.exception.value.addresses))
  {
    if p.exception.Some? {
      ExceptionCompiles(host, p.origin.port, p.exception.value, now);
    }
  }

  // ----- Entries for other ports -----

  lemma WithoutHits(host: Host, i: nat, a: Address, port: nat)
    requires i < |host.denies| && !CoversPort(host.denies[i], port)
    ensures DeniedAtRunTime(Without(host, i), a, port) <==> DeniedAtRunTime(host, a, port)
  {
    var rest := Without(host, i).denies;
    PortIsListed(host.denies[i], port);
    forall k | 0 <= k < |rest|
      ensures rest[k] == host.denies[if k < i then k else k + 1]
    {
    }
    forall k | 0 <= k < |host.denies| && k != i
      ensures host.denies[k] == rest[if k < i then k else k - 1]
    {
    }
  }

  lemma WithoutMeets(host: Host, i: nat, r: Range, port: nat)
    requires i < |host.denies| && !CoversPort(host.denies[i], port)
    ensures MayOpen(Without(host, i), r, port) <==> MayOpen(host, r, port)
  {
    var rest := Without(host, i).denies;
    forall k | 0 <= k < |rest|
      ensures rest[k] == host.denies[if k < i then k else k + 1]
    {
    }
    forall k | 0 <= k < |host.denies| && k != i
      ensures host.denies[k] == rest[if k < i then k else k - 1]
    {
    }
  }

  /** An entry that lists only other ports denies nothing: without it the same policies compile for this
      port, and the same addresses are admitted on it. */
  lemma OtherPortsDenyNothing(host: Host, i: nat, p: PolicyInput, q: Policy, t: Target, address: string,
                              endpoint: Option<seq<string>>, now: int)
    requires i < |host.denies|
    ensures !CoversPort(host.denies[i], p.origin.port) ==> (Compile(Without(host, i), p, now).Some? <==> Compile(host, p, now).Some?)
    ensures !CoversPort(host.denies[i], t.origin.port) ==>
              (Allows(Without(host, i), q, t, address, endpoint, now) <==> Allows(host, q, t, address, endpoint, now))
  {
    CompilesExactly(host, p, now);
    CompilesExactly(Without(host, i), p, now);
    if p.exception.Some? && !CoversPort(host.denies[i], p.origin.port) {
      var e := p.exception.value;
      forall k | 0 <= k < |e.addresses|
        ensures TextPasses(Without(host, i), e.addresses[k], p.origin.port) <==> TextPasses(host, e.addresses[k], p.origin.port)
      {
        if ParseCidr(e.addresses[k]).Some? {
          WithoutMeets(host, i, ParseCidr(e.addresses[k]).value.range, p.origin.port);
        }
      }
    }
    if Parse(address).Some? && !CoversPort(host.denies[i], t.origin.port) {
      WithoutHits(host, i, Parse(address).value, t.origin.port);
    }
  }
}
