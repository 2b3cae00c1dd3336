/**
 Every spelling of an IPv6 address, canonical or not: groups with leading zeros and in either case,
 "::" for any number of zero groups, and a dotted quad for the last two. The forms are those of
 section 2.2 of RFC 4291, and nothing else is read.
 */
module AddressSpellings {
  import opened Common
  import opened AddressText
  import opened IpAddress

  predicate Hextets(groups: seq<string>) {
    forall i :: 0 <= i < |groups| ==> Hextet(groups[i])
  }

  // The number that eight groups spell, most significant first.
  function Spells(groups: seq<string>): nat
    requires Hextets(groups)
  {
    if groups == [] then 0 else Spells(groups[..|groups| - 1]) * 65536 + ParseNumber(groups[|groups| - 1], 16)
  }

  function Zeroes(n: nat): seq<string> {
    seq(n, _ => "0")
  }

  lemma {:induction false} SpellsIsCombine(groups: seq<string>)
    requires Hextets(groups)
    ensures Combine(seq(|groups|, i requires 0 <= i < |groups| => ParseNumber(groups[i], 16)), 65536) == Spells(groups)
  {
    if groups != [] {
      var n := |groups| - 1;
      SpellsIsCombine(groups[..n]);
      assert seq(|groups|, i requires 0 <= i < |groups| => ParseNumber(groups[i], 16))[..n] ==
             seq(n, i requires 0 <= i < n => ParseNumber(groups[..n][i], 16));
    }
  }

  lemma HextetsAreFree(groups: seq<string>)
    requires Hextets(groups)
    ensures Free(groups, ':') && Free(groups, '.')
  {
    forall i | 0 <= i < |groups|
      ensures groups[i] != [] && ':' !in groups[i] && '.' !in groups[i]
    {
      assert Hextet(groups[i]);
    }
  }

  lemma {:induction false} JoinHasNoPoint(groups: seq<string>)
    requires Hextets(groups)
    ensures '.' !in Join(groups, ':')
  {
    if groups != [] {
      assert Hextet(groups[0]);
      if |groups| > 1 {
        JoinHasNoPoint(groups[1..]);
      }
    }
  }

  lemma GroupsAreRead(s: string, groups: seq<string>)
    requires '.' !in s && Groups(s) == Some(groups) && Hextets(groups)
    ensures ParseV6(s) == Some(Spells(groups))
  {
    SpellsIsCombine(groups);
  }

  /** Eight groups in full spell their number, with or without leading zeros. */
  lemma FullIsRead(groups: seq<string>)
    requires |groups| == 8 && Hextets(groups)
    ensures ParseV6(Join(groups, ':')) == Some(Spells(groups))
  {
    HextetsAreFree(groups);
    JoinHasNoPoint(groups);
    GroupsOfPlain(groups);
    GroupsAreRead(Join(groups, ':'), groups);
  }

  /** "::" stands for as many zero groups as are missing, one at least, wherever it stands. */
  lemma CompressedIsRead(left: seq<string>, right: seq<string>)
    requires |left| + |right| <= 7 && Hextets(left) && Hextets(right)
    ensures Hextets(left + Zeroes(8 - |left| - |right|) + right)
    ensures ParseV6(Join(left, ':') + "::" + Join(right, ':')) == Some(Spells(left + Zeroes(8 - |left| - |right|) + right))
  {
    var s, groups := Join(left, ':') + "::" + Join(right, ':'), left + Zeroes(8 - |left| - |right|) + right;
    HextetsAreFree(left);
    HextetsAreFree(right);
    JoinHasNoPoint(left);
    JoinHasNoPoint(right);
    GroupsOfCompressed(left, right);
    assert groups == left + seq(8 - |left| - |right|, _ => "0") + right;
    assert Hextet("0");
    GroupsAreRead(s, groups);
  }

  lemma {:induction false} LastColon(head: string, tail: string)
    requires head != [] && head[|head| - 1] == ':' && ':' !in tail
    ensures LastIndexOf(head + tail, ':') == |head| - 1
    decreases |tail|
  {
    if tail == [] {
      assert head + tail == head;
    } else {
      assert (head + tail)[..|head + tail| - 1] == head + tail[..|tail| - 1];
      assert tail[|tail| - 1] in tail;
      LastColon(head, tail[..|tail| - 1]);
    }
  }

  lemma QuadHasNoColon(quad: string)
    requires IsV4(quad)
    ensures ':' !in quad && '.' in quad
  {
    V4TextIsCanonical(quad);
    V4TextShape(V4Value(quad));
    JoinSplit(quad, '.');
    JoinHasDot(Split(quad, '.'));
    forall k | 0 <= k < |quad|
      ensures quad[k] != ':'
    {
      assert V4Char(V4Text(V4Value(quad))[k]);
    }
  }

  // The two groups that a dotted quad stands for.
  function QuadGroups(quad: string): seq<string>
    requires IsV4(quad)
  {
    [NumberText(V4Value(quad) / 65536, 16), NumberText(V4Value(quad) % 65536, 16)]
  }

  lemma QuadGroupsAreHextets(quad: string)
    requires IsV4(quad)
    ensures Hextets(QuadGroups(quad)) && '.' !in Join(QuadGroups(quad), ':')
    ensures Join(QuadGroups(quad), ':') == QuadGroups(quad)[0] + ":" + QuadGroups(quad)[1]
  {
    V4TextIsCanonical(quad);
    Widths();
    NumberRoundTrip(V4Value(quad) / 65536, 16, 4);
    NumberRoundTrip(V4Value(quad) % 65536, 16, 4);
    JoinHasNoPoint(QuadGroups(quad));
  }

  lemma QuadExpands(head: string, quad: string)
    requires head != [] && head[|head| - 1] == ':' && IsV4(quad)
    ensures ExpandQuad(head + quad) == Some(head + Join(QuadGroups(quad), ':'))
  {
    var s := head + quad;
    QuadHasNoColon(quad);
    LastColon(head, quad);
    assert s[|head|..] == quad && s[..|head|] == head;
    QuadGroupsAreHextets(quad);
    var groups := QuadGroups(quad);
    assert head + Join(groups, ':') == head + groups[0] + ":" + groups[1];
  }

  lemma ExpandedIsRead(s: string, expanded: string)
    requires ExpandQuad(s) == Some(expanded) && '.' !in expanded
    ensures ParseV6(s) == ParseV6(expanded)
  {
  }

  /** A dotted quad at the end reads as two groups: its upper and its lower sixteen bits. */
  lemma QuadIsTwoGroups(head: string, quad: string)
    requires head != [] && head[|head| - 1] == ':' && '.' !in head && IsV4(quad)
    ensures ParseV6(head + quad) == ParseV6(head + Join(QuadGroups(quad), ':'))
  {
    QuadExpands(head, quad);
    QuadGroupsAreHextets(quad);
    ExpandedIsRead(head + quad, head + Join(QuadGroups(quad), ':'));
  }

  /** And a text with a dot that parses ends in such a quad, after a colon. */
  lemma DottedEndsInQuad(s: string) returns (head: string, quad: string)
    requires '.' in s && ParseV6(s).Some?
    ensures s == head + quad && head != [] && head[|head| - 1] == ':' && IsV4(quad)
  {
    var start := LastIndexOf(s, ':') + 1;
    LastIsThere(s, ':');
    QuadAfterColon(s);
    head, quad := s[..start], s[start..];
  }

  lemma QuadAfterColon(s: string)
    requires '.' in s && ParseV6(s).Some?
    ensures var start := LastIndexOf(s, ':') + 1; start > 0 && IsV4(s[start..])
  {
  }

  lemma {:induction false} LastIsThere(s: string, c: char)
    ensures LastIndexOf(s, c) >= 0 ==> s[LastIndexOf(s, c)] == c
  {
    if s != [] {
      LastIsThere(s[..|s| - 1], c);
    }
  }

  /** Letters are read in either case, and nothing else about the case of a text matters. */
  lemma CaseIsIrrelevant(raw: string, other: string)
    requires Lower(raw) == Lower(other) && !IsV4(raw) && !IsV4(other)
    ensures Parse(raw) == Parse(other)
  {
    assert |raw| == |Lower(raw)| == |other| == |Lower(other)|;
    if raw != [] {
      SameButCase(raw, other, 0);
      SameButCase(raw, other, |raw| - 1);
      PercentStays(raw, other);
      PercentStays(other, raw);
    }
  }

  lemma SameButCase(raw: string, other: string, i: nat)
    requires Lower(raw) == Lower(other) && i < |raw| == |other|
    ensures (raw[i] == '%' <==> other[i] == '%') && (IsSpace(raw[i]) <==> IsSpace(other[i]))
  {
    assert Lower(raw)[i] == Lower(other)[i];
  }

  lemma PercentStays(raw: string, other: string)
    requires Lower(raw) == Lower(other) && |raw| == |other|
    ensures '%' in raw ==> '%' in other
  {
    if '%' in raw {
      var i :| 0 <= i < |raw| && raw[i] == '%';
      SameButCase(raw, other, i);
      assert other[i] in other;
    }
  }

  /** And nothing else is read: a text without a dot that parses is eight groups in full, or two lists
      of seven groups at most around a "::". */
  lemma ParsedIsSpelled(s: string) returns (full: bool, left: seq<string>, right: seq<string>)
    requires '.' !in s && ParseV6(s).Some?
    ensures Hextets(left) && Hextets(right)
    ensures full ==> |left| == 8 && s == Join(left, ':')
    ensures !full ==> |left| + |right| <= 7 && s == Join(left, ':') + "::" + Join(right, ':')
  {
    full, right := FirstDouble(s).None?, [];
    if full {
      left := SplitIsSpelled(s);
    } else {
      left, right := HalvesAreSpelled(s);
    }
  }

  lemma SplitIsSpelled(s: string) returns (groups: seq<string>)
    requires '.' !in s && ParseV6(s).Some? && FirstDouble(s).None?
    ensures Hextets(groups) && |groups| == 8 && s == Join(groups, ':')
  {
    groups := Split(s, ':');
    JoinSplit(s, ':');
  }

  lemma HalfIsJoined(s: string)
    ensures Join(Half(s), ':') == s
  {
    JoinSplit(s, ':');
  }

  lemma AroundDouble(s: string, at: nat)
    requires DoubleAt(s, at)
    ensures s == s[..at] + "::" + s[at + 2..]
  {
    assert s[at..at + 2] == "::";
  }

  lemma ParsedGroups(s: string)
    requires '.' !in s && ParseV6(s).Some?
    ensures Groups(s).Some? && Hextets(Groups(s).value)
  {
  }

  lemma GroupsAtDouble(s: string) returns (l: string, r: string)
    requires FirstDouble(s).Some?
    ensures Groups(s) == Compressed(Half(l), Half(r)) && s == l + "::" + r
  {
    var at := FirstDouble(s).value;
    AroundDouble(s, at);
    l, r := s[..at], s[at + 2..];
  }

  lemma HalvesAreSpelled(s: string) returns (left: seq<string>, right: seq<string>)
    requires '.' !in s && ParseV6(s).Some? && FirstDouble(s).Some?
    ensures Hextets(left) && Hextets(right)
    ensures |left| + |right| <= 7 && s == Join(left, ':') + "::" + Join(right, ':')
  {
    ParsedGroups(s);
    var l, r := GroupsAtDouble(s);
    HalfIsJoined(l);
    HalfIsJoined(r);
    left, right := Half(l), Half(r);
    HalvesAreHextets(left, right, Groups(s).value);
  }

  lemma HalvesAreHextets(left: seq<string>, right: seq<string>, groups: seq<string>)
    requires Compressed(left, right) == Some(groups) && Hextets(groups)
    ensures Hextets(left) && Hextets(right)
  {
    forall i | 0 <= i < |left|
      ensures Hextet(left[i])
    {
      assert groups[i] == left[i];
    }
    forall i | 0 <= i < |right|
      ensures Hextet(right[i])
    {
      assert groups[8 - |right| + i] == right[i];
    }
  }
}
