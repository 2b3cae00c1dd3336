/**
 Host names: what a site's configured host becomes, and how the two site selectors read the
 host of a URL. They differ on IPv6 literals: the resolver keeps the brackets of the URL's
 `hostname`, the redirect selector takes the canonical text of the parsed address.
 */
module HostNames {
  import opened Common
  import T = AddressText
  import I = IpAddress

  // The host of a URL that both selectors parse: a name or dotted quad, or the value of a literal.
  datatype UrlHost = Name(text: string) | V6(value: nat)

  predicate IsUrlHost(h: UrlHost) {
    match h
    case Name(text) => '[' !in text
    case V6(value) => value < T.MAX_V6
  }

  function ResolverHost(h: UrlHost): string {
    match h
    case Name(text) => text
    case V6(value) => "[" + I.V6Text(value) + "]"
  }

  function RedirectHost(h: UrlHost): string {
    match h
    case Name(text) => text
    case V6(value) => if I.Mapped(value) then I.V4Text(value % T.MAX_V4) else I.V6Text(value)
  }

  // ----- Configured hosts -----

  predicate IsText(s: string, max: nat) {
    1 <= |s| <= max && forall i :: 0 <= i < |s| ==> '\U{20}' < s[i] && s[i] != '\U{7F}'
  }

  predicate LabelEdge(c: char) {
    'a' <= c <= 'z' || '0' <= c <= '9'
  }

  predicate IsLabel(s: string) {
    1 <= |s| <= 63 && LabelEdge(s[0]) && LabelEdge(s[|s| - 1]) && forall i :: 0 <= i < |s| ==> LabelEdge(s[i]) || s[i] == '-'
  }

  predicate IsDomain(s: string) {
    var labels := T.Split(s, '.');
    forall i :: 0 <= i < |labels| ==> IsLabel(labels[i])
  }

  predicate AllNumeric(s: string) {
    forall i :: 0 <= i < |s| ==> '0' <= s[i] <= '9' || s[i] == '.'
  }

  function Unbracketed(s: string): string {
    if |s| >= 2 && s[0] == '[' && s[|s| - 1] == ']' then s[1..|s| - 1] else s
  }

  function Undotted(s: string): string {
    if s != [] && s[|s| - 1] == '.' then s[..|s| - 1] else s
  }

  // What a lower-case name without brackets stands for.
  function HostOf(name: string): Option<string> {
    var v6 := I.ParseV6(name);
    if v6.Some? then Some(I.V6Text(v6.value))
    else if I.IsV4(name) then Some(name)
    else if AllNumeric(name) || !IsDomain(Undotted(name)) then None
    else Some(Undotted(name))
  }

  function SiteHost(raw: string): Option<string> {
    if IsText(raw, 253) then HostOf(Unbracketed(Lower(raw))) else None
  }

  predicate HostChar(c: char) {
    I.V6Char(c) || I.V4Char(c) || LabelEdge(c) || c == '-'
  }

  lemma DomainChars(s: string)
    requires IsDomain(s)
    ensures forall k :: 0 <= k < |s| ==> HostChar(s[k])
  {
    T.JoinSplit(s, '.');
    I.JoinChars(T.Split(s, '.'), '.', HostChar);
  }

  lemma V6Chars(value: nat)
    requires value < T.MAX_V6
    ensures forall k :: 0 <= k < |I.V6Text(value)| ==> HostChar(I.V6Text(value)[k])
  {
    I.V6TextShape(value);
  }

  lemma QuadChars(name: string)
    requires I.IsV4(name)
    ensures forall k :: 0 <= k < |name| ==> HostChar(name[k])
  {
    I.V4TextIsCanonical(name);
    I.V4TextShape(I.V4Value(name));
  }

  lemma HostOfChars(name: string)
    ensures HostOf(name).Some? ==> forall k :: 0 <= k < |HostOf(name).value| ==> HostChar(HostOf(name).value[k])
  {
    I.ParseV6Below(name);
    if I.ParseV6(name).Some? {
      V6Chars(I.ParseV6(name).value);
    } else if I.IsV4(name) {
      QuadChars(name);
    } else if IsDomain(Undotted(name)) {
      DomainChars(Undotted(name));
    }
  }

  /** A configured host that passes is made of letters, digits, '.', '-' and ':'; it has no bracket. */
  lemma SiteHostChars(raw: string)
    ensures SiteHost(raw).Some? ==>
              '[' !in SiteHost(raw).value && forall k :: 0 <= k < |SiteHost(raw).value| ==> HostChar(SiteHost(raw).value[k])
  {
    HostOfChars(Unbracketed(Lower(raw)));
  }

  lemma NoColon(s: string)
    requires ':' !in s
    ensures I.LastIndexOf(s, ':') == -1
  {
    if s != [] {
      assert s[|s| - 1] in s;
      NoColon(s[..|s| - 1]);
    }
  }

  lemma PlainStays(s: string)
    requires s != [] && forall k :: 0 <= k < |s| ==> HostChar(s[k])
    ensures Unbracketed(Lower(s)) == s && (|s| <= 253 ==> IsText(s, 253))
  {
    assert Lower(s) == s;
  }

  lemma QuadIsNotV6(name: string)
    requires '.' in name && ':' !in name
    ensures I.ParseV6(name) == None
  {
    NoColon(name);
  }

  lemma QuadIsSiteHost(v4: nat)
    requires v4 < T.MAX_V4
    ensures SiteHost(I.V4Text(v4)) == Some(I.V4Text(v4))
  {
    var host := I.V4Text(v4);
    I.V4RoundTrip(v4);
    I.V4TextShape(v4);
    T.JoinHasDot(I.OctetTexts(v4));
    QuadIsNotV6(host);
    QuadChars(host);
    PlainStays(host);
  }

  lemma LiteralIsSiteHost(value: nat)
    requires value < T.MAX_V6
    ensures SiteHost(I.V6Text(value)) == Some(I.V6Text(value))
  {
    I.V6TextShape(value);
    V6Chars(value);
    PlainStays(I.V6Text(value));
    I.ParseV6OfText(value);
  }

  /** The redirect selector's reading of an IPv6 literal can be configured as a site's host. */
  lemma ReadingIsSiteHost(value: nat)
    requires value < T.MAX_V6
    ensures SiteHost(RedirectHost(V6(value))) == Some(RedirectHost(V6(value)))
  {
    if I.Mapped(value) {
      QuadIsSiteHost(value % T.MAX_V4);
    } else {
      LiteralIsSiteHost(value);
    }
  }

  // ----- What is a name -----

  // A label of a host name: letters, digits and inner dashes.
  predicate IsPart(s: string) {
    && 1 <= |s| <= 63 && s[0] != '-' && s[|s| - 1] != '-'
    && forall i :: 0 <= i < |s| ==> 'a' <= s[i] <= 'z' || '0' <= s[i] <= '9' || s[i] == '-'
  }

  ghost predicate IsDnsName(s: string) {
    forall part :: part in T.Split(s, '.') ==> IsPart(part)
  }

  lemma NameIsNotV6(s: string)
    requires ':' !in s
    ensures I.ParseV6(s) == None
  {
    if '.' in s {
      QuadIsNotV6(s);
    } else {
      assert T.Split(s, ':') == [s];
      NoDouble(s);
    }
  }

  lemma NoDouble(s: string)
    requires ':' !in s
    ensures T.FirstDouble(s) == None
  {
    T.FirstDoubleOf(s);
    forall i: nat
      ensures !T.DoubleAt(s, i)
    {
      assert i < |s| ==> s[i] in s;
    }
  }

  lemma QuadIsNumeric(s: string)
    requires I.IsV4(s)
    ensures AllNumeric(s)
  {
    I.V4TextIsCanonical(s);
    I.V4TextShape(I.V4Value(s));
    forall k | 0 <= k < |s|
      ensures '0' <= s[k] <= '9' || s[k] == '.'
    {
      assert I.V4Char(I.V4Text(I.V4Value(s))[k]);
    }
  }

  lemma LowerHasNoColon(s: string)
    requires ':' !in s
    ensures ':' !in Lower(s) && (AllNumeric(Lower(s)) <==> AllNumeric(s))
  {
    assert forall i :: 0 <= i < |s| ==> s[i] in s;
    assert AllNumeric(s) ==> Lower(s) == s;
    if AllNumeric(Lower(s)) {
      forall i | 0 <= i < |s|
        ensures '0' <= s[i] <= '9' || s[i] == '.'
      {
        assert Lower(s)[i] in Lower(s);
      }
    }
  }

  /** A host that is no address text - it has no colon and something else than digits and dots - passes
      if and only if it is a host name of at most 253 characters, in any case and with or without the
      final dot; it becomes its lower-case form without that dot. */
  lemma NameExactly(raw: string)
    requires ':' !in raw && '[' !in raw && !AllNumeric(raw)
    ensures SiteHost(raw) ==
            if IsText(raw, 253) && IsDnsName(Undotted(Lower(raw))) then Some(Undotted(Lower(raw))) else None
  {
    var name := Lower(raw);
    LowerHasNoColon(raw);
    if raw != [] {
      assert raw[0] in raw && name[0] != '[';
    }
    NameIsNotV6(name);
    if I.IsV4(name) {
      QuadIsNumeric(name);
    }
    DomainExactly(Undotted(name));
  }

  lemma DomainExactly(s: string)
    ensures IsDomain(s) <==> IsDnsName(s)
  {
    forall part
      ensures IsLabel(part) <==> IsPart(part)
    {
    }
  }
}
