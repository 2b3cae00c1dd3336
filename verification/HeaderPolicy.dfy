/**
 Header policies: normalisation of the operator's extension lists and compilation against
 the current credential headers and every header that ever carried a credential.
 A sorted duplicate-free list is kept as the set of its elements.
 */
module HeaderPolicy {
  import opened Common

  datatype Code = InvalidName | Limit | ReservedName | CredentialConflict

  datatype Policy = Policy(request: Option<seq<string>>, response: Option<seq<string>>)

  datatype Compiled = Compiled(request: set<string>, response: set<string>)

  const REQUEST_BASE: set<string> :=
    {"accept", "accept-language", "accept-encoding", "content-type", "content-encoding", "if-match",
     "if-none-match", "if-modified-since", "if-unmodified-since", "if-range", "range", "cache-control", "pragma"}

  const RESPONSE_BASE: set<string> :=
    {"content-type", "content-encoding", "content-language", "content-disposition", "etag", "last-modified",
     "cache-control", "expires", "vary", "accept-ranges", "content-range", "location", "retry-after", "date", "age"}

  const RESERVED: set<string> :=
    {"authorization", "proxy-authorization", "proxy-authenticate", "x-api-key", "cookie", "set-cookie",
     "www-authenticate", "connection", "keep-alive", "te", "trailer", "trailers", "transfer-encoding", "upgrade",
     "host", "forwarded", "x-real-ip", "x-request-id", "content-length", "expect", "traceparent", "tracestate",
     "baggage", "server", "x-powered-by"}

  const DANGEROUS: set<string> := {"__proto__", "prototype", "constructor"}

  const MAX_EXTENSIONS := 64

  predicate TokenChar(c: char) {
    '0' <= c <= '9' || 'A' <= c <= 'Z' || 'a' <= c <= 'z' || c in "!#$%&'+.^_`|~-"
  }

  predicate ValidName(name: string) {
    0 < |name| <= 128 && (forall i :: 0 <= i < |name| ==> TokenChar(name[i])) && Lower(name) !in DANGEROUS
  }

  predicate IsReserved(name: string) {
    name in RESERVED || "x-forwarded-" <= name || "x-apinova-" <= name
  }

  function ExtensionFault(name: string): Option<Code> {
    if !ValidName(name) then Some(InvalidName)
    else if IsReserved(Lower(name)) then Some(ReservedName)
    else None
  }

  function CredentialFault(c: Compiled, name: string): Option<Code> {
    if !ValidName(name) then Some(InvalidName)
    else
      var n := Lower(name);
      if (IsReserved(n) && n != "authorization" && n != "x-api-key") || n in c.request || n in c.response
      then Some(CredentialConflict) else None
  }

  function HistoricalFault(c: Compiled, name: string): Option<Code> {
    if !ValidName(name) then Some(InvalidName)
    else if Lower(name) in c.request || Lower(name) in c.response then Some(CredentialConflict)
    else None
  }

  // The fault of the first faulty name.
  function FirstFault(names: seq<string>, fault: string -> Option<Code>): Option<Code> {
    if names == [] then None
    else
      var earlier := FirstFault(names[..|names| - 1], fault);
      if earlier.Some? then earlier else fault(names[|names| - 1])
  }

  lemma {:induction false} FaultPersists(names: seq<string>, fault: string -> Option<Code>, n: nat)
    requires n <= |names| && FirstFault(names[..n], fault).Some?
    ensures FirstFault(names, fault) == FirstFault(names[..n], fault)
  {
    if n < |names| {
      assert names[..|names| - 1][..n] == names[..n];
      FaultPersists(names[..|names| - 1], fault, n);
    } else {
      assert names[..n] == names;
    }
  }

  lemma {:induction false} NoFault(names: seq<string>, fault: string -> Option<Code>)
    ensures FirstFault(names, fault) == None <==> forall n :: n in names ==> fault(n) == None
  {
    if names != [] {
      NoFault(names[..|names| - 1], fault);
      assert names == names[..|names| - 1] + [names[|names| - 1]];
    }
  }

  function Lowered(names: seq<string>): set<string> {
    set n | n in names :: Lower(n)
  }

  function Extensions(names: seq<string>): Result<set<string>, Code> {
    if |names| > MAX_EXTENSIONS then Err(Limit)
    else
      var fault := FirstFault(names, ExtensionFault);
      if fault.Some? then Err(fault.value) else Ok(Lowered(names))
  }

  method ExtensionList(names: seq<string>) returns (r: Result<set<string>, Code>)
    ensures r == Extensions(names)
  {
    if |names| > MAX_EXTENSIONS {
      return Err(Limit);
    }
    var normalized: set<string> := {};
    for i := 0 to |names|
      invariant FirstFault(names[..i], ExtensionFault) == None
      invariant normalized == Lowered(names[..i])
    {
      var fault := ExtensionFault(names[i]);
      assert names[..i + 1][..i] == names[..i];
      if fault.Some? {
        FaultPersists(names, ExtensionFault, i + 1);
        return Err(fault.value);
      }
      normalized := normalized + {Lower(names[i])};
      assert names[..i + 1] == names[..i] + [names[i]];
    }
    assert names[..|names|] == names;
    r := Ok(normalized);
  }

  method CheckNames(names: seq<string>, fault: string -> Option<Code>) returns (r: Option<Code>)
    ensures r == FirstFault(names, fault)
  {
    for i := 0 to |names|
      invariant FirstFault(names[..i], fault) == None
    {
      assert names[..i + 1][..i] == names[..i];
      if fault(names[i]).Some? {
        FaultPersists(names, fault, i + 1);
        return fault(names[i]);
      }
    }
    assert names[..|names|] == names;
    r := None;
  }

  function PolicyFault(p: Option<Policy>): Option<Code> {
    if p.None? then None
    else if p.value.request.Some? && Extensions(p.value.request.value).Err? then Some(Extensions(p.value.request.value).error)
    else if p.value.response.Some? && Extensions(p.value.response.value).Err? then Some(Extensions(p.value.response.value).error)
    else None
  }

  // An endpoint's list replaces the inherited one; a list that is absent is inherited.
  function Chosen(own: Option<seq<string>>, inherited: Option<seq<string>>): set<string> {
    if own.Some? then Lowered(own.value) else if inherited.Some? then Lowered(inherited.value) else {}
  }

  function Request(p: Option<Policy>): Option<seq<string>> {
    if p.Some? then p.value.request else None
  }

  function Response(p: Option<Policy>): Option<seq<string>> {
    if p.Some? then p.value.response else None
  }

  function Combined(policy: Option<Policy>, inherited: Option<Policy>): Compiled {
    Compiled(REQUEST_BASE + Chosen(Request(policy), Request(inherited)),
             RESPONSE_BASE + Chosen(Response(policy), Response(inherited)))
  }

  function Compile(policy: Option<Policy>, inherited: Option<Policy>, credential: seq<string>, historical: seq<string>)
    : Result<Compiled, Code>
  {
    if PolicyFault(inherited).Some? then Err(PolicyFault(inherited).value)
    else if PolicyFault(policy).Some? then Err(PolicyFault(policy).value)
    else
      var c := Combined(policy, inherited);
      var f := FirstFault(credential, n => CredentialFault(c, n));
      var h := FirstFault(historical, n => HistoricalFault(c, n));
      if f.Some? then Err(f.value) else if h.Some? then Err(h.value) else Ok(c)
  }

  method NormalizePolicy(p: Option<Policy>) returns (request: Option<set<string>>, response: Option<set<string>>, fault: Option<Code>)
    ensures fault == PolicyFault(p)
    ensures fault.None? ==> request == (if Request(p).Some? then Some(Lowered(Request(p).value)) else None)
    ensures fault.None? ==> response == (if Response(p).Some? then Some(Lowered(Response(p).value)) else None)
  {
    request, response, fault := None, None, None;
    if p.None? {
      return;
    }
    if p.value.request.Some? {
      var r := ExtensionList(p.value.request.value);
      if r.Err? {
        return None, None, Some(r.error);
      }
      request := Some(r.value);
    }
    if p.value.response.Some? {
      var r := ExtensionList(p.value.response.value);
      if r.Err? {
        return None, None, Some(r.error);
      }
      response := Some(r.value);
    }
  }

  method CompileHeaderPolicy(policy: Option<Policy>, inherited: Option<Policy>, credential: seq<string>, historical: seq<string>)
    returns (r: Result<Compiled, Code>)
    ensures r == Compile(policy, inherited, credential, historical)
  {
    var inheritedRequest, inheritedResponse, fault := NormalizePolicy(inherited);
    if fault.Some? {
      return Err(fault.value);
    }
    var ownRequest, ownResponse, ownFault := NormalizePolicy(policy);
    if ownFault.Some? {
      return Err(ownFault.value);
    }
    var request := if ownRequest.Some? then ownRequest.value else if inheritedRequest.Some? then inheritedRequest.value else {};
    var response := if ownResponse.Some? then ownResponse.value else if inheritedResponse.Some? then inheritedResponse.value else {};
    var c := Compiled(REQUEST_BASE + request, RESPONSE_BASE + response);
    var conflict := CheckNames(credential, n => CredentialFault(c, n));
    if conflict.Some? {
      return Err(conflict.value);
    }
    conflict := CheckNames(historical, n => HistoricalFault(c, n));
    if conflict.Some? {
      return Err(conflict.value);
    }
    r := Ok(c);
  }

  ghost predicate WellFormed(p: Option<Policy>) {
    forall names | names in {Request(p), Response(p)} && names.Some? ::
      |names.value| <= MAX_EXTENSIONS && forall n :: n in names.value ==> ValidName(n) && !IsReserved(Lower(n))
  }

  ghost predicate Accepts(policy: Option<Policy>, inherited: Option<Policy>, credential: set<string>, historical: set<string>) {
    var c := Combined(policy, inherited);
    && WellFormed(policy) && WellFormed(inherited)
    && (forall n :: n in credential ==>
          ValidName(n) && Lower(n) !in c.request + c.response
          && (IsReserved(Lower(n)) ==> Lower(n) == "authorization" || Lower(n) == "x-api-key"))
    && (forall n :: n in historical ==> ValidName(n) && Lower(n) !in c.request + c.response)
  }

  /** Compilation succeeds exactly on well-formed lists that meet no credential header, past or
      present, whatever the order in which those headers are listed. */
  lemma CompileExactly(policy: Option<Policy>, inherited: Option<Policy>, credential: seq<string>, historical: seq<string>)
    ensures Compile(policy, inherited, credential, historical).Ok? <==>
            Accepts(policy, inherited, set n | n in credential, set n | n in historical)
  {
    var c := Combined(policy, inherited);
    PolicyFaultExactly(policy);
    PolicyFaultExactly(inherited);
    NoFault(credential, n => CredentialFault(c, n));
    NoFault(historical, n => HistoricalFault(c, n));
  }

  lemma PolicyFaultExactly(p: Option<Policy>)
    ensures PolicyFault(p) == None <==> WellFormed(p)
  {
    if Request(p).Some? {
      NoFault(Request(p).value, ExtensionFault);
      assert Request(p) in {Request(p), Response(p)};
    }
    if Response(p).Some? {
      NoFault(Response(p).value, ExtensionFault);
      assert Response(p) in {Request(p), Response(p)};
    }
  }

  lemma AcceptedIsDisjoint(policy: Option<Policy>, inherited: Option<Policy>, credential: set<string>, historical: set<string>)
    requires Accepts(policy, inherited, credential, historical)
    requires forall n :: n in historical ==> Lower(n) == n
    ensures (Combined(policy, inherited).request + Combined(policy, inherited).response) !! historical
  {
  }

  /** A policy that compiles forwards no header, under any spelling of its name, that carries a
      credential now or ever did. */
  lemma CompiledIsDisjoint(policy: Option<Policy>, inherited: Option<Policy>, credential: seq<string>, historical: seq<string>, n: string)
    requires Compile(policy, inherited, credential, historical).Ok? && (n in credential || n in historical)
    ensures var c := Compile(policy, inherited, credential, historical).value;
            Lower(n) !in c.request && Lower(n) !in c.response
  {
    CompileExactly(policy, inherited, credential, historical);
  }

  // The list in force: the own one if stated, else the inherited one, else none.
  predicate Lists(own: Option<seq<string>>, inherited: Option<seq<string>>, n: string) {
    match (own, inherited)
    case (Some(names), _) => exists i :: 0 <= i < |names| && Lower(names[i]) == n
    case (None, Some(names)) => exists i :: 0 <= i < |names| && Lower(names[i]) == n
    case (None, None) => false
  }

  /** A compiled policy forwards a header if and only if it is of the base list or the extension list
      in force has it under some spelling; requests and responses each by their own lists. */
  lemma ForwardsExactly(policy: Option<Policy>, inherited: Option<Policy>, credential: seq<string>, historical: seq<string>, n: string)
    requires Compile(policy, inherited, credential, historical).Ok?
    ensures var c := Compile(policy, inherited, credential, historical).value;
            && (n in c.request <==> n in REQUEST_BASE || Lists(Request(policy), Request(inherited), n))
            && (n in c.response <==> n in RESPONSE_BASE || Lists(Response(policy), Response(inherited), n))
  {
    ChosenExactly(Request(policy), Request(inherited), n);
    ChosenExactly(Response(policy), Response(inherited), n);
  }

  lemma ChosenExactly(own: Option<seq<string>>, inherited: Option<seq<string>>, n: string)
    ensures n in Chosen(own, inherited) <==> Lists(own, inherited, n)
  {
  }

  // Headers that no operator may list: credentials, cookies, connection control, tracing and the like.
  predicate Forbidden(n: string) {
    n in RESERVED || (|n| >= 12 && n[..12] == "x-forwarded-") || (|n| >= 11 && n[..11] == "x-apinova-")
  }

  /** Beyond the base lists a compiled policy forwards no header of the reserved list or prefixes. */
  lemma NothingReservedAdded(policy: Option<Policy>, inherited: Option<Policy>, credential: seq<string>, historical: seq<string>, n: string)
    requires Compile(policy, inherited, credential, historical).Ok? && Forbidden(n)
    ensures var c := Compile(policy, inherited, credential, historical).value;
            (n in c.request ==> n in REQUEST_BASE) && (n in c.response ==> n in RESPONSE_BASE)
  {
    CompileExactly(policy, inherited, credential, historical);
    assert Request(policy) in {Request(policy), Response(policy)} && Response(policy) in {Request(policy), Response(policy)};
    assert Request(inherited) in {Request(inherited), Response(inherited)} && Response(inherited) in {Request(inherited), Response(inherited)};
  }
}
