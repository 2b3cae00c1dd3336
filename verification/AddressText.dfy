/** Digits, splitting, joining and positional values: what address texts are made of. */
module AddressText {
  import opened Common

  const MAX_V4 := 0x1_0000_0000
  const MAX_V6 := 0x1_0000_0000_0000_0000_0000_0000_0000_0000

  // ----- Digits -----

  predicate IsDigit(c: char, base: nat) {
    ('0' <= c <= '9' && c as int - '0' as int < base) || ('a' <= c <= 'f' && base == 16)
  }

  function DigitValue(c: char): nat
    requires IsDigit(c, 16)
  {
    if c <= '9' then c as int - '0' as int else c as int - 'a' as int + 10
  }

  function Digit(d: nat): (c: char)
    requires d < 16
    ensures IsDigit(c, 16) && DigitValue(c) == d && (d < 10 ==> IsDigit(c, 10)) && (c == '0' <==> d == 0)
  {
    if d < 10 then ('0' as int + d) as char else ('a' as int + d - 10) as char
  }

  /** `Number.prototype.toString` for bases 10 and 16. */
  function NumberText(n: nat, base: nat): string
    requires base in {10, 16}
  {
    if n < base then [Digit(n)] else NumberText(n / base, base) + [Digit(n % base)]
  }

  predicate AllDigits(s: string, base: nat) {
    forall i :: 0 <= i < |s| ==> IsDigit(s[i], base)
  }

  function ParseNumber(s: string, base: nat): nat
    requires base in {10, 16} && AllDigits(s, base)
  {
    if s == [] then 0 else ParseNumber(s[..|s| - 1], base) * base + DigitValue(s[|s| - 1])
  }

  function Pow(base: nat, n: nat): nat {
    if n == 0 then 1 else base * Pow(base, n - 1)
  }

  lemma DivideBelow(n: nat, base: nat, p: nat)
    requires base > 0 && n < base * p
    ensures n / base < p && n / base * base + n % base == n
  {
  }

  lemma AppendDigit(s: string, d: nat, base: nat)
    requires base in {10, 16} && d < base && AllDigits(s, base)
    ensures AllDigits(s + [Digit(d)], base) && ParseNumber(s + [Digit(d)], base) == ParseNumber(s, base) * base + d
  {
    assert (s + [Digit(d)])[..|s|] == s;
  }

  lemma {:induction false} NumberRoundTrip(n: nat, base: nat, width: nat)
    requires base in {10, 16} && n < Pow(base, width) && width > 0
    ensures AllDigits(NumberText(n, base), base) && ParseNumber(NumberText(n, base), base) == n
    ensures 1 <= |NumberText(n, base)| <= width
    ensures NumberText(n, base)[0] == '0' ==> n == 0 && |NumberText(n, base)| == 1
  {
    if n >= base {
      assert width > 1 by {
        assert Pow(base, 1) == base * Pow(base, 0);
      }
      DivideBelow(n, base, Pow(base, width - 1));
      NumberRoundTrip(n / base, base, width - 1);
      AppendDigit(NumberText(n / base, base), n % base, base);
    } else {
      assert NumberText(n, base)[..0] == [];
    }
  }

  /** A digit string without a leading zero is the text of its value. */
  lemma {:induction false} TextOfNumber(s: string)
    requires s != [] && AllDigits(s, 10) && (s[0] == '0' ==> |s| == 1)
    ensures NumberText(ParseNumber(s, 10), 10) == s
    ensures s[0] != '0' ==> ParseNumber(s, 10) > 0
  {
    var front, d := s[..|s| - 1], DigitValue(s[|s| - 1]);
    assert s == front + [Digit(d)];
    AppendDigit(front, d, 10);
    if front != [] {
      TextOfNumber(front);
      NextDigit(ParseNumber(front, 10), d);
    }
  }

  lemma NextDigit(n: nat, d: nat)
    requires n > 0 && d < 10
    ensures NumberText(n * 10 + d, 10) == NumberText(n, 10) + [Digit(d)]
  {
  }

  // ----- Splitting and joining -----

  function IndexOf(s: string, c: char): nat
    requires c in s
    ensures IndexOf(s, c) < |s| && s[IndexOf(s, c)] == c
    ensures forall i :: 0 <= i < IndexOf(s, c) ==> s[i] != c
  {
    if s[0] == c then 0
    else
      assert s == [s[0]] + s[1..];
      1 + IndexOf(s[1..], c)
  }

  function Split(s: string, c: char): seq<string> {
    if c !in s then [s] else [s[..IndexOf(s, c)]] + Split(s[IndexOf(s, c) + 1..], c)
  }

  function Join(parts: seq<string>, c: char): string {
    if parts == [] then []
    else if |parts| == 1 then parts[0]
    else parts[0] + [c] + Join(parts[1..], c)
  }

  predicate Free(parts: seq<string>, c: char) {
    forall i :: 0 <= i < |parts| ==> parts[i] != [] && c !in parts[i]
  }

  lemma {:induction false} SplitJoin(parts: seq<string>, c: char)
    requires parts != [] && forall i :: 0 <= i < |parts| ==> c !in parts[i]
    ensures Split(Join(parts, c), c) == parts
  {
    if |parts| > 1 {
      SplitJoin(parts[1..], c);
      SplitFirst(parts[0], Join(parts[1..], c), c);
    }
  }

  lemma JoinHasDot(parts: seq<string>)
    requires |parts| > 1
    ensures '.' in Join(parts, '.')
  {
    assert Join(parts, '.')[|parts[0]|] == '.';
  }

  lemma SplitFirst(first: string, rest: string, c: char)
    requires c !in first
    ensures Split(first + [c] + rest, c) == [first] + Split(rest, c)
  {
    var s := first + [c] + rest;
    assert s[|first|] == c && forall i :: 0 <= i < |first| ==> s[i] == first[i];
    assert IndexOf(s, c) == |first|;
    assert s[..|first|] == first && s[|first| + 1..] == rest;
  }

  lemma {:induction false} JoinSplit(s: string, c: char)
    ensures Join(Split(s, c), c) == s
    decreases |s|
  {
    if c in s {
      var i := IndexOf(s, c);
      JoinSplit(s[i + 1..], c);
      JoinMore(s[..i], Split(s[i + 1..], c), c);
      assert s == s[..i] + [c] + s[i + 1..];
    }
  }

  lemma JoinMore(first: string, rest: seq<string>, c: char)
    requires rest != []
    ensures Join([first] + rest, c) == first + [c] + Join(rest, c)
  {
    assert ([first] + rest)[1..] == rest;
  }

  lemma {:induction false} JoinAppend(left: seq<string>, right: seq<string>, c: char)
    requires left != [] && right != []
    ensures Join(left + right, c) == Join(left, c) + [c] + Join(right, c)
  {
    JoinMore(left[0], left[1..] + right, c);
    assert left + right == [left[0]] + (left[1..] + right);
    if |left| > 1 {
      JoinAppend(left[1..], right, c);
    } else {
      assert left[1..] + right == right;
    }
  }

  lemma {:induction false} SplitParts(s: string, c: char)
    ensures Split(s, c) != [] && forall i :: 0 <= i < |Split(s, c)| ==> c !in Split(s, c)[i]
    decreases |s|
  {
    if c in s {
      SplitParts(s[IndexOf(s, c) + 1..], c);
    }
  }

  lemma SplitAppend(left: string, right: string, c: char)
    ensures Split(left + [c] + right, c) == Split(left, c) + Split(right, c)
  {
    var l, r := Split(left, c), Split(right, c);
    SplitParts(left, c);
    SplitParts(right, c);
    JoinSplit(left, c);
    JoinSplit(right, c);
    JoinAppend(l, r, c);
    SplitJoin(l + r, c);
  }

  predicate DoubleAt(s: string, i: nat) {
    i + 1 < |s| && s[i] == ':' && s[i + 1] == ':'
  }

  // Where the first "::" starts.
  function FirstDouble(s: string): Option<nat>
    ensures FirstDouble(s).Some? ==> DoubleAt(s, FirstDouble(s).value)
  {
    if |s| < 2 then None
    else if s[0] == ':' && s[1] == ':' then Some(0)
    else
      var rest := FirstDouble(s[1..]);
      if rest.None? then None else Some(rest.value + 1)
  }

  lemma {:induction false} FirstDoubleOf(s: string)
    ensures FirstDouble(s).None? <==> forall i: nat :: !DoubleAt(s, i)
    ensures forall i: nat :: DoubleAt(s, i) ==> FirstDouble(s).value <= i
  {
    if |s| >= 2 {
      FirstDoubleOf(s[1..]);
      forall i: nat | i > 0
        ensures DoubleAt(s, i) <==> DoubleAt(s[1..], i - 1)
      {
      }
    }
  }

  /** A joined list of proper parts has no "::" and no ':' at either end. */
  lemma {:induction false} JoinHasNoDouble(parts: seq<string>)
    requires Free(parts, ':')
    ensures forall i: nat :: !DoubleAt(Join(parts, ':'), i)
    ensures Join(parts, ':') == [] <==> parts == []
    ensures parts != [] ==> Join(parts, ':')[0] != ':' && Join(parts, ':')[|Join(parts, ':')| - 1] != ':'
  {
    if |parts| > 1 {
      JoinHasNoDouble(parts[1..]);
      var s, rest := Join(parts, ':'), Join(parts[1..], ':');
      assert s == parts[0] + [':'] + rest;
      forall i: nat
        ensures !DoubleAt(s, i)
      {
        if i < |parts[0]| {
          assert s[i] == parts[0][i] && parts[0][i] in parts[0];
        } else if i > |parts[0]| {
          assert !DoubleAt(rest, i - |parts[0]| - 1);
        }
      }
      assert s[0] == parts[0][0] && parts[0][0] in parts[0];
    } else if |parts| == 1 {
      var s := parts[0];
      assert s[0] in s && s[|s| - 1] in s && forall i :: 0 <= i < |s| ==> s[i] in s;
    }
  }

  lemma JoinSplitsAtDouble(left: seq<string>, right: seq<string>)
    requires Free(left, ':') && Free(right, ':')
    ensures FirstDouble(Join(left, ':') + "::" + Join(right, ':')) == Some(|Join(left, ':')|)
  {
    JoinHasNoDouble(left);
    JoinHasNoDouble(right);
    var l, s := Join(left, ':'), Join(left, ':') + "::" + Join(right, ':');
    FirstDoubleOf(s);
    assert DoubleAt(s, |l|);
    forall i: nat | i < |l|
      ensures !DoubleAt(s, i)
    {
      assert !DoubleAt(l, i);
    }
  }

  // ----- Values and their parts, most significant first -----

  function Parts(value: nat, base: nat, n: nat): (parts: seq<nat>)
    requires base in {256, 65536}
    ensures |parts| == n
  {
    if n == 0 then [] else Parts(value / base, base, n - 1) + [value % base]
  }

  function Combine(parts: seq<nat>, base: nat): nat {
    if parts == [] then 0 else Combine(parts[..|parts| - 1], base) * base + parts[|parts| - 1]
  }

  lemma {:induction false} CombineParts(value: nat, base: nat, n: nat)
    requires base in {256, 65536} && value < Pow(base, n)
    ensures Combine(Parts(value, base, n), base) == value
    ensures forall i :: 0 <= i < n ==> Parts(value, base, n)[i] < base
  {
    if n > 0 {
      CombineParts(value / base, base, n - 1);
      assert Parts(value, base, n)[..n - 1] == Parts(value / base, base, n - 1);
    }
  }

  lemma {:induction false} PartsCombine(parts: seq<nat>, base: nat)
    requires base in {256, 65536} && forall i :: 0 <= i < |parts| ==> parts[i] < base
    ensures Parts(Combine(parts, base), base, |parts|) == parts
    ensures Combine(parts, base) < Pow(base, |parts|)
  {
    if parts != [] {
      var front, last := parts[..|parts| - 1], parts[|parts| - 1];
      PartsCombine(front, base);
      DivideBack(Combine(front, base), base, last);
    }
  }

  lemma DivideBack(q: nat, base: nat, r: nat)
    requires base in {256, 65536} && r < base
    ensures (q * base + r) / base == q && (q * base + r) % base == r
  {
  }

  lemma Widths()
    ensures Pow(256, 4) == MAX_V4 && Pow(65536, 8) == MAX_V6 && Pow(16, 4) == 65536 && Pow(10, 3) == 1000
  {
    assert Pow(256, 2) == 65536;
    assert Pow(65536, 2) == MAX_V4;
    assert Pow(65536, 4) == 0x1_0000_0000_0000_0000;
    assert Pow(65536, 6) == 0x1_0000_0000_0000_0000_0000_0000;
    assert Pow(16, 2) == 256 && Pow(10, 2) == 100;
  }
}
