/**
 Textual IP addresses: the parser, and the canonical printer of sections 4.1 to 4.3 of
 RFC 5952. `isIP` is modelled by the text forms of section 2.2 of RFC 4291.
 */
module IpAddress {
  import opened Common
  import opened AddressText

  datatype Address = Address(family: nat, value: nat, canonical: string, mapped: bool)

  const MAX_TEXT := 45

  // ----- The printer -----

  function HextetTexts(value: nat): seq<string>
    ensures |HextetTexts(value)| == 8
  {
    var h := Parts(value, 65536, 8);
    seq(8, i requires 0 <= i < 8 => NumberText(h[i], 16))
  }

  function RunEnd(parts: seq<string>, i: nat): nat
    requires i <= |parts|
    ensures i <= RunEnd(parts, i) <= |parts|
    ensures forall k :: i <= k < RunEnd(parts, i) ==> parts[k] == "0"
    ensures RunEnd(parts, i) < |parts| ==> parts[RunEnd(parts, i)] != "0"
    decreases |parts| - i
  {
    if i < |parts| && parts[i] == "0" then RunEnd(parts, i + 1) else i
  }

  // The scan of `v6Text` from part `i` on; `best < 0` while no run of two zeros was seen.
  function Scan(parts: seq<string>, i: nat, best: int, length: nat): (int, nat)
    requires i <= |parts|
    decreases |parts| - i
  {
    if i == |parts| then (best, length)
    else if parts[i] != "0" then Scan(parts, i + 1, best, length)
    else
      var end := RunEnd(parts, i);
      if end - i > length then Scan(parts, end, i, end - i) else Scan(parts, end, best, length)
  }

  predicate ZeroRun(parts: seq<string>, b: int, length: nat) {
    0 <= b && b + length <= |parts| && forall k :: b <= k < b + length ==> parts[k] == "0"
  }

  // Sections 4.2.2 and 4.2.3 of RFC 5952: the first of the longest runs, never a single zero.
  ghost predicate FirstLongest(parts: seq<string>, best: int, length: nat) {
    if best < 0 then forall b: int, l: nat :: ZeroRun(parts, b, l) ==> l < 2
    else length >= 2 && ZeroRun(parts, best, length) &&
         forall b: int, l: nat :: ZeroRun(parts, b, l) ==> l < length || (l == length && best <= b)
  }

  // What the scan knows at a boundary `i`, which no zero run crosses.
  ghost predicate Scanned(parts: seq<string>, i: nat, best: int, length: nat) {
    && i <= |parts|
    && (0 < i < |parts| && parts[i] == "0" ==> parts[i - 1] != "0")
    && (if best < 0 then length == 1 else length >= 2 && ZeroRun(parts, best, length) && best < i)
    && forall b: int, l: nat :: ZeroRun(parts, b, l) && b < i && l > 0 ==> l < length || (l == length && (best < 0 || best <= b))
  }

  lemma {:induction false} ScanFindsFirstLongest(parts: seq<string>, i: nat, best: int, length: nat)
    requires Scanned(parts, i, best, length)
    ensures var (b, l) := Scan(parts, i, best, length); FirstLongest(parts, b, l)
    decreases |parts| - i
  {
    if i < |parts| {
      if parts[i] != "0" {
        ScanFindsFirstLongest(parts, i + 1, best, length);
      } else {
        var end := RunEnd(parts, i);
        assert end > i;
        forall b: int, l: nat | ZeroRun(parts, b, l) && i <= b < end && l > 0
          ensures b + l <= end
        {
        }
        if end - i > length {
          ScanFindsFirstLongest(parts, end, i, end - i);
        } else {
          ScanFindsFirstLongest(parts, end, best, length);
        }
      }
    }
  }

  lemma FirstLongestIsUnique(parts: seq<string>, b1: int, l1: nat, b2: int, l2: nat)
    requires FirstLongest(parts, b1, l1) && FirstLongest(parts, b2, l2)
    ensures if b1 < 0 then b2 < 0 else b1 == b2 && l1 == l2
  {
  }

  function Render(parts: seq<string>, best: int, length: nat): string
    requires best >= 0 ==> best + length <= |parts|
  {
    if best < 0 then Join(parts, ':') else Join(parts[..best], ':') + "::" + Join(parts[best + length..], ':')
  }

  function V6Text(value: nat): string {
    var parts := HextetTexts(value);
    var (best, length) := Scan(parts, 0, -1, 1);
    ScanFindsFirstLongest(parts, 0, -1, 1);
    Render(parts, best, length)
  }

  method PrintV6(value: nat) returns (text: string)
    ensures text == V6Text(value)
    ensures exists best, length :: FirstLongest(HextetTexts(value), best, length) && text == Render(HextetTexts(value), best, length)
  {
    var parts := HextetTexts(value);
    var best, length := -1, 1;
    var i := 0;
    while i < 8
      invariant 0 <= i <= 8 && length >= 1 && (best >= 0 ==> best + length <= 8)
      invariant Scan(parts, i, best, length) == Scan(parts, 0, -1, 1)
    {
      if parts[i] != "0" {
        i := i + 1;
        continue;
      }
      var end := i;
      while end < 8 && parts[end] == "0"
        invariant i <= end <= 8 && RunEnd(parts, end) == RunEnd(parts, i)
        invariant end == i ==> parts[end] == "0"
      {
        end := end + 1;
      }
      if end - i > length {
        best, length := i, end - i;
      }
      i := end;
    }
    ScanFindsFirstLongest(parts, 0, -1, 1);
    text := if best < 0 then Join(parts, ':') else Join(parts[..best], ':') + "::" + Join(parts[best + length..], ':');
    assert text == Render(parts, best, length);
  }

  function OctetTexts(value: nat): seq<string>
    ensures |OctetTexts(value)| == 4
  {
    var o := Parts(value, 256, 4);
    seq(4, i requires 0 <= i < 4 => NumberText(o[i], 10))
  }

  function V4Text(value: nat): string {
    Join(OctetTexts(value), '.')
  }

  function CanonicalText(family: nat, value: nat): string {
    if family == 4 then V4Text(value) else V6Text(value)
  }

  // ----- The parser -----

  predicate Octet(s: string) {
    s != [] && AllDigits(s, 10) && |s| <= 3 && (s[0] == '0' ==> |s| == 1) && ParseNumber(s, 10) < 256
  }

  predicate Hextet(s: string) {
    1 <= |s| <= 4 && AllDigits(s, 16)
  }

  predicate IsV4(s: string) {
    |Split(s, '.')| == 4 && forall i :: 0 <= i < 4 ==> Octet(Split(s, '.')[i])
  }

  function V4Value(s: string): nat
    requires IsV4(s)
  {
    Combine(seq(4, i requires 0 <= i < 4 => ParseNumber(Split(s, '.')[i], 10)), 256)
  }

  function LastIndexOf(s: string, c: char): int
    ensures -1 <= LastIndexOf(s, c) < |s|
  {
    if s == [] then -1
    else if s[|s| - 1] == c then |s| - 1
    else LastIndexOf(s[..|s| - 1], c)
  }

  // A trailing dotted quad becomes two hextets.
  function ExpandQuad(s: string): Option<string> {
    if '.' !in s then Some(s)
    else
      var start := LastIndexOf(s, ':') + 1;
      if start == 0 || !IsV4(s[start..]) then None
      else
        var v4 := V4Value(s[start..]);
        Some(s[..start] + NumberText(v4 / 65536, 16) + ":" + NumberText(v4 % 65536, 16))
  }

  function Half(s: string): seq<string> {
    if s == [] then [] else Split(s, ':')
  }

  // The groups on both sides of "::", with at least one zero group between them.
  function Compressed(left: seq<string>, right: seq<string>): Option<seq<string>> {
    if |left| + |right| > 7 then None
    else Some(left + seq(8 - |left| - |right|, _ => "0") + right)
  }

  // The eight groups of an IPv6 text.
  function Groups(s: string): Option<seq<string>> {
    var at := FirstDouble(s);
    if at.Some? then Compressed(Half(s[..at.value]), Half(s[at.value + 2..]))
    else if |Split(s, ':')| == 8 then Some(Split(s, ':'))
    else None
  }

  function ParseV6(s: string): Option<nat> {
    var expanded := ExpandQuad(s);
    if expanded.None? then None
    else
      var groups := Groups(expanded.value);
      if groups.None? || exists i :: 0 <= i < |groups.value| && !Hextet(groups.value[i]) then None
      else Some(Combine(seq(|groups.value|, i requires 0 <= i < |groups.value| => ParseNumber(groups.value[i], 16)), 65536))
  }

  function Parse(raw: string): Option<Address> {
    if raw == [] || |raw| > MAX_TEXT || '%' in raw || IsSpace(raw[0]) || IsSpace(raw[|raw| - 1]) then None
    else if IsV4(raw) then Some(Address(4, V4Value(raw), Join(Split(raw, '.'), '.'), false))
    else
      var v := ParseV6(Lower(raw));
      if v.None? then None
      else if v.value / MAX_V4 == 65535 then Some(Address(4, v.value % MAX_V4, V4Text(v.value % MAX_V4), true))
      else Some(Address(6, v.value, V6Text(v.value), false))
  }

  // ----- Round trips -----

  predicate Mapped(value: nat) {
    value / MAX_V4 == 65535
  }

  lemma OctetsAreOctets(value: nat)
    requires value < MAX_V4
    ensures forall i :: 0 <= i < 4 ==>
              Octet(OctetTexts(value)[i]) && ParseNumber(OctetTexts(value)[i], 10) == Parts(value, 256, 4)[i]
  {
    Widths();
    CombineParts(value, 256, 4);
    forall i | 0 <= i < 4
      ensures Octet(OctetTexts(value)[i]) && ParseNumber(OctetTexts(value)[i], 10) == Parts(value, 256, 4)[i]
    {
      NumberRoundTrip(Parts(value, 256, 4)[i], 10, 3);
    }
  }

  lemma DigitsAreNotSeparators(s: string, base: nat)
    requires base in {10, 16} && AllDigits(s, base)
    ensures '.' !in s && ':' !in s && '%' !in s
    ensures forall i :: 0 <= i < |s| ==> !IsSpace(s[i]) && !('A' <= s[i] <= 'Z')
  {
  }

  lemma V4RoundTrip(value: nat)
    requires value < MAX_V4
    ensures IsV4(V4Text(value)) && V4Value(V4Text(value)) == value
    ensures Split(V4Text(value), '.') == OctetTexts(value)
  {
    var octets := OctetTexts(value);
    OctetsAreOctets(value);
    forall i | 0 <= i < 4
      ensures '.' !in octets[i]
    {
      DigitsAreNotSeparators(octets[i], 10);
    }
    SplitJoin(octets, '.');
    Widths();
    CombineParts(value, 256, 4);
    assert seq(4, i requires 0 <= i < 4 => ParseNumber(octets[i], 10)) == Parts(value, 256, 4);
  }

  /** A dotted quad is the canonical text of its value. */
  lemma V4TextIsCanonical(s: string)
    requires IsV4(s)
    ensures V4Value(s) < MAX_V4 && V4Text(V4Value(s)) == s
  {
    var octets := Split(s, '.');
    var values := seq(4, i requires 0 <= i < 4 => ParseNumber(octets[i], 10));
    PartsCombine(values, 256);
    Widths();
    forall i | 0 <= i < 4
      ensures OctetTexts(V4Value(s))[i] == octets[i]
    {
      TextOfNumber(octets[i]);
    }
    assert OctetTexts(V4Value(s)) == octets;
    JoinSplit(s, '.');
  }

  lemma HextetsAreHextets(value: nat)
    requires value < MAX_V6
    ensures forall i :: 0 <= i < 8 ==>
              Hextet(HextetTexts(value)[i]) && ParseNumber(HextetTexts(value)[i], 16) == Parts(value, 65536, 8)[i]
    ensures Free(HextetTexts(value), ':') && Free(HextetTexts(value), '.')
  {
    Widths();
    CombineParts(value, 65536, 8);
    forall i | 0 <= i < 8
      ensures Hextet(HextetTexts(value)[i]) && ParseNumber(HextetTexts(value)[i], 16) == Parts(value, 65536, 8)[i]
    {
      NumberRoundTrip(Parts(value, 65536, 8)[i], 16, 4);
    }
  }

  lemma HalfOfJoin(parts: seq<string>)
    requires Free(parts, ':')
    ensures Half(Join(parts, ':')) == parts
  {
    JoinHasNoDouble(parts);
    if parts != [] {
      SplitJoin(parts, ':');
    }
  }

  lemma GroupsOfCompressed(left: seq<string>, right: seq<string>)
    requires Free(left, ':') && Free(right, ':')
    ensures Groups(Join(left, ':') + "::" + Join(right, ':')) == Compressed(left, right)
  {
    JoinSplitsAtDouble(left, right);
    HalfOfJoin(left);
    HalfOfJoin(right);
    SplitAround(Join(left, ':'), Join(right, ':'));
  }

  lemma SplitAround(l: string, r: string)
    ensures (l + "::" + r)[..|l|] == l && (l + "::" + r)[|l| + 2..] == r
  {
  }

  /** Whichever run of zeros is compressed, the groups come back. */
  lemma GroupsOfRender(parts: seq<string>, best: int, length: nat)
    requires |parts| == 8 && Free(parts, ':')
    requires best >= 0 ==> length >= 1 && ZeroRun(parts, best, length)
    ensures Groups(Render(parts, best, length)) == Some(parts)
  {
    if best < 0 {
      GroupsOfPlain(parts);
    } else {
      var left, right := parts[..best], parts[best + length..];
      GroupsOfCompressed(left, right);
      ZeroesBetween(parts, best, length);
    }
  }

  lemma GroupsOfPlain(parts: seq<string>)
    requires |parts| == 8 && Free(parts, ':')
    ensures Groups(Join(parts, ':')) == Some(parts)
  {
    JoinHasNoDouble(parts);
    FirstDoubleOf(Join(parts, ':'));
    SplitJoin(parts, ':');
  }

  lemma ZeroesBetween(parts: seq<string>, best: nat, length: nat)
    requires |parts| == 8 && length >= 1 && ZeroRun(parts, best, length)
    ensures Compressed(parts[..best], parts[best + length..]) == Some(parts)
  {
    var zeroes := seq(length, _ => "0");
    assert parts[best..best + length] == zeroes;
    assert parts == parts[..best] + parts[best..best + length] + parts[best + length..];
  }

  // The characters of a joined list are its separators and the characters of its parts.
  lemma {:induction false} JoinChars(parts: seq<string>, sep: char, ok: char -> bool)
    requires ok(sep) && forall i, k :: 0 <= i < |parts| && 0 <= k < |parts[i]| ==> ok(parts[i][k])
    ensures forall k :: 0 <= k < |Join(parts, sep)| ==> ok(Join(parts, sep)[k])
  {
    if |parts| > 1 {
      JoinChars(parts[1..], sep, ok);
    }
  }

  lemma {:induction false} JoinLength(parts: seq<string>, sep: char, width: nat)
    requires forall i :: 0 <= i < |parts| ==> |parts[i]| <= width
    ensures |Join(parts, sep)| <= |parts| * (width + 1)
    ensures parts != [] ==> |Join(parts, sep)| < |parts| * (width + 1)
  {
    if |parts| > 1 {
      JoinLength(parts[1..], sep, width);
    }
  }

  predicate V6Char(c: char) {
    c == ':' || IsDigit(c, 16)
  }

  lemma RenderShape(parts: seq<string>, best: int, length: nat)
    requires |parts| == 8 && (best >= 0 ==> length >= 2 && best + length <= 8)
    requires forall i :: 0 <= i < 8 ==> |parts[i]| <= 4 && forall k :: 0 <= k < |parts[i]| ==> V6Char(parts[i][k])
    ensures var s := Render(parts, best, length);
            2 <= |s| <= MAX_TEXT && ':' in s && forall k :: 0 <= k < |s| ==> V6Char(s[k])
  {
    if best < 0 {
      JoinChars(parts, ':', V6Char);
      JoinLength(parts, ':', 4);
      JoinMore(parts[0], parts[1..], ':');
      assert parts == [parts[0]] + parts[1..];
      assert Join(parts[1..], ':') != [] by {
        JoinMore(parts[1], parts[2..], ':');
        assert parts[1..] == [parts[1]] + parts[2..];
      }
    } else {
      var left, right := parts[..best], parts[best + length..];
      JoinChars(left, ':', V6Char);
      JoinChars(right, ':', V6Char);
      JoinLength(left, ':', 4);
      JoinLength(right, ':', 4);
    }
  }

  lemma V6TextShape(value: nat)
    requires value < MAX_V6
    ensures forall k :: 0 <= k < |V6Text(value)| ==> V6Char(V6Text(value)[k])
    ensures 2 <= |V6Text(value)| <= MAX_TEXT && ':' in V6Text(value)
  {
    var parts := HextetTexts(value);
    var (best, length) := Scan(parts, 0, -1, 1);
    ScanFindsFirstLongest(parts, 0, -1, 1);
    HextetsAreHextets(value);
    RenderShape(parts, best, length);
  }

  // A zero that begins a group is the whole group.
  predicate ZeroAlone(s: string, i: nat) {
    i < |s| && s[i] == '0' && (i == 0 || s[i - 1] == ':') ==> i + 1 == |s| || s[i + 1] == ':'
  }

  ghost predicate NoLeadingZero(s: string) {
    forall i: nat :: ZeroAlone(s, i)
  }

  lemma {:induction false} JoinNoLeadingZero(parts: seq<string>)
    requires Free(parts, ':') && forall i :: 0 <= i < |parts| ==> (parts[i][0] == '0' ==> |parts[i]| == 1)
    ensures NoLeadingZero(Join(parts, ':'))
  {
    if |parts| == 1 {
      OneGroup(parts[0]);
    } else if |parts| > 1 {
      JoinNoLeadingZero(parts[1..]);
      OneGroup(parts[0]);
      JoinedNoLeadingZero(parts[0], ":", Join(parts[1..], ':'));
    }
  }

  lemma OneGroup(part: string)
    requires ':' !in part && (part != [] && part[0] == '0' ==> |part| == 1)
    ensures NoLeadingZero(part)
  {
    assert forall i :: 0 <= i < |part| ==> part[i] in part;
  }

  lemma JoinedNoLeadingZero(a: string, colons: string, b: string)
    requires NoLeadingZero(a) && NoLeadingZero(b) && colons in {":", "::"}
    ensures NoLeadingZero(a + colons + b)
  {
    var s, n := a + colons + b, |a| + |colons|;
    assert colons[0] == ':' && colons[|colons| - 1] == ':';
    forall i: nat
      ensures ZeroAlone(s, i)
    {
      if i < |a| {
        assert ZeroAlone(a, i);
      } else if n <= i {
        assert ZeroAlone(b, i - n);
      }
    }
  }

  /** Sections 4.1 and 4.3 of RFC 5952: no group has a leading zero, and letters are lower case. */
  lemma V6TextIsPlain(value: nat)
    requires value < MAX_V6
    ensures NoLeadingZero(V6Text(value))
    ensures forall k :: 0 <= k < |V6Text(value)| ==> !('A' <= V6Text(value)[k] <= 'Z')
  {
    var parts := HextetTexts(value);
    var (best, length) := Scan(parts, 0, -1, 1);
    ScanFindsFirstLongest(parts, 0, -1, 1);
    HextetsAreHextets(value);
    HextetsHaveNoZero(value);
    V6TextShape(value);
    if best < 0 {
      JoinNoLeadingZero(parts);
    } else {
      JoinNoLeadingZero(parts[..best]);
      JoinNoLeadingZero(parts[best + length..]);
      JoinedNoLeadingZero(Join(parts[..best], ':'), "::", Join(parts[best + length..], ':'));
    }
  }

  lemma HextetsHaveNoZero(value: nat)
    requires value < MAX_V6
    ensures forall i :: 0 <= i < 8 ==> HextetTexts(value)[i] != [] && (HextetTexts(value)[i][0] == '0' ==> |HextetTexts(value)[i]| == 1)
  {
    Widths();
    CombineParts(value, 65536, 8);
    forall i | 0 <= i < 8
      ensures HextetTexts(value)[i] != [] && (HextetTexts(value)[i][0] == '0' ==> |HextetTexts(value)[i]| == 1)
    {
      NumberRoundTrip(Parts(value, 65536, 8)[i], 16, 4);
    }
  }

  lemma ParseV6OfText(value: nat)
    requires value < MAX_V6
    ensures ParseV6(V6Text(value)) == Some(value)
  {
    var parts := HextetTexts(value);
    var (best, length) := Scan(parts, 0, -1, 1);
    ScanFindsFirstLongest(parts, 0, -1, 1);
    HextetsAreHextets(value);
    V6TextShape(value);
    GroupsOfRender(parts, best, length);
    Widths();
    CombineParts(value, 65536, 8);
    assert seq(8, i requires 0 <= i < 8 => ParseNumber(parts[i], 16)) == Parts(value, 65536, 8);
    assert ExpandQuad(V6Text(value)) == Some(V6Text(value));
  }

  lemma V6IsNotV4(s: string)
    requires forall k :: 0 <= k < |s| ==> V6Char(s[k])
    ensures !IsV4(s) && Lower(s) == s
    ensures '%' !in s && '.' !in s && forall k :: 0 <= k < |s| ==> !IsSpace(s[k])
  {
    assert '.' !in s;
    assert |Split(s, '.')| == 1;
  }

  /** Printing and parsing: the text of an IPv6 value parses back to it, an IPv4-mapped value
      alone being read as the IPv4 address it maps. */
  lemma ParseOfV6Text(value: nat)
    requires value < MAX_V6
    ensures Parse(V6Text(value)) ==
            Some(if Mapped(value) then Address(4, value % MAX_V4, V4Text(value % MAX_V4), true)
                 else Address(6, value, V6Text(value), false))
  {
    V6TextShape(value);
    V6IsNotV4(V6Text(value));
    ParseV6OfText(value);
  }

  predicate V4Char(c: char) {
    c == '.' || IsDigit(c, 10)
  }

  lemma V4TextShape(value: nat)
    requires value < MAX_V4
    ensures forall k :: 0 <= k < |V4Text(value)| ==> V4Char(V4Text(value)[k])
    ensures 1 <= |V4Text(value)| <= MAX_TEXT
  {
    OctetsAreOctets(value);
    var octets := OctetTexts(value);
    JoinChars(octets, '.', V4Char);
    JoinLength(octets, '.', 3);
    assert V4Text(value) == octets[0] + "." + Join(octets[1..], '.');
  }

  lemma ParseOfV4Text(value: nat)
    requires value < MAX_V4
    ensures Parse(V4Text(value)) == Some(Address(4, value, V4Text(value), false))
  {
    V4RoundTrip(value);
    V4TextShape(value);
    V4IsPlain(V4Text(value));
  }

  lemma V4IsPlain(s: string)
    requires forall k :: 0 <= k < |s| ==> V4Char(s[k])
    ensures '%' !in s && forall k :: 0 <= k < |s| ==> !IsSpace(s[k])
  {
  }

  ghost predicate WellFormed(a: Address) {
    && a.family in {4, 6}
    && a.value < (if a.family == 4 then MAX_V4 else MAX_V6)
    && (a.family == 6 ==> !Mapped(a.value) && !a.mapped)
    && a.canonical == CanonicalText(a.family, a.value)
  }

  /** What the parser returns is well formed, its canonical text included. */
  lemma ParsedIsWellFormed(raw: string)
    ensures Parse(raw).Some? ==> WellFormed(Parse(raw).value)
  {
    if Parse(raw).Some? && IsV4(raw) {
      V4TextIsCanonical(raw);
      JoinSplit(raw, '.');
    } else if Parse(raw).Some? {
      ParseV6Below(Lower(raw));
    }
  }

  lemma ParseV6Below(s: string)
    ensures ParseV6(s).Some? ==> ParseV6(s).value < MAX_V6
  {
    if ParseV6(s).Some? {
      var groups := Groups(ExpandQuad(s).value).value;
      forall i | 0 <= i < |groups|
        ensures ParseNumber(groups[i], 16) < 65536
      {
        HextetBelow(groups[i]);
      }
      Widths();
      PartsCombine(seq(|groups|, i requires 0 <= i < |groups| => ParseNumber(groups[i], 16)), 65536);
    }
  }

  lemma {:induction false} DigitsBelow(s: string)
    requires AllDigits(s, 16)
    ensures ParseNumber(s, 16) < Pow(16, |s|)
  {
    if s != [] {
      DigitsBelow(s[..|s| - 1]);
    }
  }

  lemma HextetBelow(s: string)
    requires Hextet(s)
    ensures ParseNumber(s, 16) < 65536
  {
    DigitsBelow(s);
    assert Pow(16, 1) == 16 && Pow(16, 2) == 256 && Pow(16, 3) == 4096 && Pow(16, 4) == 65536;
  }

  /** Parsing is idempotent through the canonical text, whatever spelling was read. */
  lemma CanonicalParsesBack(a: Address)
    requires WellFormed(a)
    ensures Parse(a.canonical) == Some(a.(mapped := false))
  {
    if a.family == 4 {
      ParseOfV4Text(a.value);
    } else {
      ParseOfV6Text(a.value);
    }
  }

  /** Canonical texts are equal exactly when family and value are. */
  lemma CanonicalIsInjective(a: Address, b: Address)
    requires WellFormed(a) && WellFormed(b)
    ensures a.canonical == b.canonical <==> a.family == b.family && a.value == b.value
  {
    CanonicalParsesBack(a);
    CanonicalParsesBack(b);
  }
}
