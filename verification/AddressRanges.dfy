/**
 CIDR ranges, the special-purpose table and the classification of addresses. A range of
 prefix p covers Size(p) consecutive values starting at a multiple of Size(p).
 */
module AddressRanges {
  import opened Common
  import opened AddressText
  import opened IpAddress

  datatype Range = Range(family: nat, value: nat, prefix: nat, last: nat)

  datatype Cidr = Cidr(range: Range, canonical: string)

  datatype Class =
    | Public | Private | Loopback | Unspecified | LinkLocal | Shared | Multicast | Broadcast
    | Documentation | Benchmark | Transition | Reserved

  const MAX_CIDR_TEXT := 50

  function Bits(family: nat): nat {
    if family == 4 then 32 else 128
  }

  lemma {:induction false} PowPositive(n: nat)
    ensures Pow(2, n) >= 1
  {
    if n > 0 {
      PowPositive(n - 1);
    }
  }

  function Size(family: nat, prefix: nat): (size: nat)
    requires prefix <= Bits(family)
    ensures size >= 1
  {
    PowPositive(Bits(family) - prefix);
    Pow(2, Bits(family) - prefix)
  }

  predicate PrefixText(s: string) {
    s != [] && |s| <= 3 && AllDigits(s, 10) && (s[0] == '0' ==> |s| == 1)
  }

  function MakeCidr(a: Address, prefix: int): Option<Cidr> {
    if prefix < 0 || prefix > Bits(a.family) || a.value % Size(a.family, prefix) != 0 then None
    else Some(Cidr(Range(a.family, a.value, prefix, a.value + Size(a.family, prefix) - 1), a.canonical + "/" + NumberText(prefix, 10)))
  }

  function CidrOf(a: Option<Address>, suffix: Option<string>): Option<Cidr> {
    if a.None? || (suffix.Some? && !PrefixText(suffix.value)) then None
    else if suffix.None? then MakeCidr(a.value, Bits(a.value.family))
    else MakeCidr(a.value, if a.value.mapped then ParseNumber(suffix.value, 10) - 96 else ParseNumber(suffix.value, 10))
  }

  function ParseCidr(raw: string): Option<Cidr> {
    var pieces := Split(raw, '/');
    if |raw| > MAX_CIDR_TEXT || |pieces| > 2 then None
    else CidrOf(Parse(pieces[0]), if |pieces| == 2 then Some(pieces[1]) else None)
  }

  predicate Contains(r: Range, a: Address) {
    r.family == a.family && r.value <= a.value <= r.last
  }

  predicate Overlap(a: Range, b: Range) {
    a.family == b.family && a.value <= b.last && b.value <= a.last
  }

  // ----- Block arithmetic -----

  ghost predicate Block(r: Range) {
    && r.family in {4, 6} && r.prefix <= Bits(r.family)
    && r.value % Size(r.family, r.prefix) == 0
    && r.last == r.value + Size(r.family, r.prefix) - 1
  }

  ghost predicate Within(a: Range, b: Range) {
    a.family == b.family && b.value <= a.value && a.last <= b.last
  }

  lemma {:induction false} PowSplits(a: nat, b: nat)
    ensures Pow(2, a + b) == Pow(2, a) * Pow(2, b)
  {
    if b > 0 {
      PowSplits(a, b - 1);
    }
  }

  lemma {:induction false} PowStrict(a: nat, b: nat)
    requires a < b
    ensures Pow(2, a) < Pow(2, b)
    decreases b
  {
    PowPositive(b - 1);
    if a < b - 1 {
      PowStrict(a, b - 1);
    }
  }

  lemma CancelFactor(x: int, y: int, s: nat)
    requires s > 0 && x * s < y * s
    ensures x < y
  {
  }

  lemma KeepFactor(x: int, y: int, s: nat)
    requires x <= y
    ensures x * s <= y * s
  {
  }

  // A block of size s and one of size s * k that share a value are nested.
  lemma NestedMultiples(a: int, s: nat, b: int, k: nat)
    requires s > 0 && k > 0
    requires a * s < (b + k) * s && b * s < (a + 1) * s
    ensures b * s <= a * s && (a + 1) * s <= (b + k) * s
  {
    CancelFactor(a, b + k, s);
    CancelFactor(b, a + 1, s);
    KeepFactor(b, a, s);
    KeepFactor(a + 1, b + k, s);
  }

  lemma Regroup(c: nat, s: nat, k: nat)
    ensures c * (s * k) == (c * k) * s
  {
  }

  lemma NestedArithmetic(v: nat, s: nat, w: nat, k: nat)
    requires s > 0 && k > 0 && s * k > 0 && v % s == 0 && w % (s * k) == 0
    requires v <= w + s * k - 1 && w <= v + s - 1
    ensures w <= v && v + s <= w + s * k
  {
    var a, c := v / s, w / (s * k);
    assert v == a * s && w == c * (s * k);
    Regroup(c, s, k);
    var b := c * k;
    assert (b + k) * s == b * s + k * s && (a + 1) * s == a * s + s;
    NestedMultiples(a, s, b, k);
  }

  /** Two ranges are disjoint, or the one with the longer prefix lies within the other. */
  lemma NestedOrDisjoint(a: Range, b: Range)
    requires Block(a) && Block(b) && Overlap(a, b)
    ensures a.prefix >= b.prefix ==> Within(a, b)
    ensures Within(a, b) ==> a.prefix >= b.prefix
  {
    if a.prefix >= b.prefix {
      LongerIsNested(a, b);
    } else {
      ShorterIsWider(a, b);
    }
  }

  lemma ShorterIsWider(a: Range, b: Range)
    requires Block(a) && Block(b) && a.family == b.family && a.prefix < b.prefix
    ensures a.last - a.value > b.last - b.value && !Within(a, b)
  {
    PowStrict(Bits(a.family) - b.prefix, Bits(a.family) - a.prefix);
    Wider(a, b, Size(a.family, a.prefix), Size(b.family, b.prefix));
  }

  lemma Wider(a: Range, b: Range, s: nat, t: nat)
    requires a.last == a.value + s - 1 && b.last == b.value + t - 1 && s > t
    ensures a.last - a.value > b.last - b.value && !Within(a, b)
  {
  }

  lemma LongerIsNested(a: Range, b: Range)
    requires Block(a) && Block(b) && Overlap(a, b) && a.prefix >= b.prefix
    ensures Within(a, b)
  {
    var s, k := Size(a.family, a.prefix), Pow(2, a.prefix - b.prefix);
    PowSplits(Bits(a.family) - a.prefix, a.prefix - b.prefix);
    PowPositive(a.prefix - b.prefix);
    var wide := Size(b.family, b.prefix);
    assert wide == s * k;
    NestedArithmetic(a.value, s, b.value, k);
  }

  lemma ParsedIsBlock(raw: string)
    ensures ParseCidr(raw).Some? ==>
              && Block(ParseCidr(raw).value.range) && WellFormed(Parse(Split(raw, '/')[0]).value)
              && MakeCidr(Parse(Split(raw, '/')[0]).value, ParseCidr(raw).value.range.prefix) == ParseCidr(raw)
  {
    ParsedIsWellFormed(Split(raw, '/')[0]);
  }

  lemma CanonicalHasNoSlash(a: Address)
    requires WellFormed(a)
    ensures '/' !in a.canonical && |a.canonical| <= MAX_TEXT
  {
    if a.family == 4 {
      V4TextShape(a.value);
    } else {
      V6TextShape(a.value);
    }
  }

  lemma PrefixDigits(prefix: nat)
    requires prefix <= 128
    ensures var digits := NumberText(prefix, 10);
            PrefixText(digits) && ParseNumber(digits, 10) == prefix && '/' !in digits
  {
    Widths();
    NumberRoundTrip(prefix, 10, 3);
  }

  lemma CidrPieces(canonical: string, digits: string)
    requires '/' !in canonical && '/' !in digits
    ensures Split(canonical + "/" + digits, '/') == [canonical, digits]
  {
    SplitFirst(canonical, digits, '/');
    assert canonical + "/" + digits == canonical + ['/'] + digits;
  }

  lemma CidrOfDigits(a: Address, prefix: nat)
    requires a.family in {4, 6} && prefix <= Bits(a.family)
    ensures CidrOf(Some(a.(mapped := false)), Some(NumberText(prefix, 10))) == MakeCidr(a, prefix)
  {
    PrefixDigits(prefix);
  }

  lemma CanonicalCidrParses(a: Address, prefix: nat)
    requires WellFormed(a) && prefix <= Bits(a.family)
    ensures var text := a.canonical + "/" + NumberText(prefix, 10);
            ParseCidr(text) == MakeCidr(a, prefix) && Split(text, '/')[0] == a.canonical
  {
    PrefixDigits(prefix);
    CanonicalHasNoSlash(a);
    CidrPieces(a.canonical, NumberText(prefix, 10));
    CanonicalParsesBack(a);
    CidrOfDigits(a, prefix);
  }

  /** The canonical text of a range parses back to that range. */
  lemma CidrRoundTrip(raw: string)
    ensures ParseCidr(raw).Some? ==>
              var r := ParseCidr(raw).value;
              && ParseCidr(r.canonical) == Some(r)
              && Parse(Split(r.canonical, '/')[0]) ==
                 Some(Address(r.range.family, r.range.value, CanonicalText(r.range.family, r.range.value), false))
  {
    if ParseCidr(raw).Some? {
      ParsedIsBlock(raw);
      var a := Parse(Split(raw, '/')[0]).value;
      CanonicalCidrParses(a, ParseCidr(raw).value.range.prefix);
      CanonicalParsesBack(a);
    }
  }

  // ----- The table -----

  datatype Row = Row(range: Range, category: Class)

  const TABLE4: seq<Row> := [
    Row(Range(4, 0x0000_0000, 8, 0x00ff_ffff), Unspecified),
    Row(Range(4, 0x0a00_0000, 8, 0x0aff_ffff), Private),
    Row(Range(4, 0x6440_0000, 10, 0x647f_ffff), Shared),
    Row(Range(4, 0x7f00_0000, 8, 0x7fff_ffff), Loopback),
    Row(Range(4, 0xa9fe_0000, 16, 0xa9fe_ffff), LinkLocal),
    Row(Range(4, 0xac10_0000, 12, 0xac1f_ffff), Private),
    Row(Range(4, 0xc000_0000, 24, 0xc000_00ff), Reserved),
    Row(Range(4, 0xc000_0200, 24, 0xc000_02ff), Documentation),
    Row(Range(4, 0xc01f_c400, 24, 0xc01f_c4ff), Reserved),
    Row(Range(4, 0xc034_c100, 24, 0xc034_c1ff), Reserved),
    Row(Range(4, 0xc058_6300, 24, 0xc058_63ff), Transition),
    Row(Range(4, 0xc0a8_0000, 16, 0xc0a8_ffff), Private),
    Row(Range(4, 0xc0af_3000, 24, 0xc0af_30ff), Reserved),
    Row(Range(4, 0xc612_0000, 15, 0xc613_ffff), Benchmark),
    Row(Range(4, 0xc633_6400, 24, 0xc633_64ff), Documentation),
    Row(Range(4, 0xcb00_7100, 24, 0xcb00_71ff), Documentation),
    Row(Range(4, 0xe000_0000, 4, 0xefff_ffff), Multicast),
    Row(Range(4, 0xffff_ffff, 32, 0xffff_ffff), Broadcast),
    Row(Range(4, 0xf000_0000, 4, 0xffff_ffff), Reserved)
  ]

  const TABLE6: seq<Row> := [
    Row(Range(6, 0x0000_0000_0000_0000_0000_0000_0000_0000, 128, 0x0000_0000_0000_0000_0000_0000_0000_0000), Unspecified),
    Row(Range(6, 0x0000_0000_0000_0000_0000_0000_0000_0001, 128, 0x0000_0000_0000_0000_0000_0000_0000_0001), Loopback),
    Row(Range(6, 0x0064_ff9b_0000_0000_0000_0000_0000_0000, 96, 0x0064_ff9b_0000_0000_0000_0000_ffff_ffff), Transition),
    Row(Range(6, 0x0064_ff9b_0001_0000_0000_0000_0000_0000, 48, 0x0064_ff9b_0001_ffff_ffff_ffff_ffff_ffff), Transition),
    Row(Range(6, 0x0100_0000_0000_0000_0000_0000_0000_0000, 64, 0x0100_0000_0000_0000_ffff_ffff_ffff_ffff), Reserved),
    Row(Range(6, 0x0100_0000_0000_0001_0000_0000_0000_0000, 64, 0x0100_0000_0000_0001_ffff_ffff_ffff_ffff), Reserved),
    Row(Range(6, 0x2001_0000_0000_0000_0000_0000_0000_0000, 32, 0x2001_0000_ffff_ffff_ffff_ffff_ffff_ffff), Transition),
    Row(Range(6, 0x2001_0002_0000_0000_0000_0000_0000_0000, 48, 0x2001_0002_0000_ffff_ffff_ffff_ffff_ffff), Benchmark),
    Row(Range(6, 0x2001_0000_0000_0000_0000_0000_0000_0000, 23, 0x2001_01ff_ffff_ffff_ffff_ffff_ffff_ffff), Reserved),
    Row(Range(6, 0x2001_0db8_0000_0000_0000_0000_0000_0000, 32, 0x2001_0db8_ffff_ffff_ffff_ffff_ffff_ffff), Documentation),
    Row(Range(6, 0x2002_0000_0000_0000_0000_0000_0000_0000, 16, 0x2002_ffff_ffff_ffff_ffff_ffff_ffff_ffff), Transition),
    Row(Range(6, 0x2620_004f_8000_0000_0000_0000_0000_0000, 48, 0x2620_004f_8000_ffff_ffff_ffff_ffff_ffff), Reserved),
    Row(Range(6, 0x3fff_0000_0000_0000_0000_0000_0000_0000, 20, 0x3fff_0fff_ffff_ffff_ffff_ffff_ffff_ffff), Documentation),
    Row(Range(6, 0x5f00_0000_0000_0000_0000_0000_0000_0000, 16, 0x5f00_ffff_ffff_ffff_ffff_ffff_ffff_ffff), Reserved),
    Row(Range(6, 0xfc00_0000_0000_0000_0000_0000_0000_0000, 7, 0xfdff_ffff_ffff_ffff_ffff_ffff_ffff_ffff), Private),
    Row(Range(6, 0xfe80_0000_0000_0000_0000_0000_0000_0000, 10, 0xfebf_ffff_ffff_ffff_ffff_ffff_ffff_ffff), LinkLocal),
    Row(Range(6, 0xff00_0000_0000_0000_0000_0000_0000_0000, 8, 0xffff_ffff_ffff_ffff_ffff_ffff_ffff_ffff), Multicast)
  ]

  const TABLE := TABLE4 + TABLE6

  // Rows ascend by family and last address; of two that end together the longer prefix comes first.
  predicate Precedes(a: Range, b: Range) {
    a.family < b.family || (a.family == b.family && (a.last < b.last || (a.last == b.last && a.prefix > b.prefix)))
  }

  ghost predicate Ordered(table: seq<Row>) {
    && (forall i :: 0 <= i < |table| ==> Block(table[i].range) && table[i].category != Public)
    && (forall i :: 0 < i < |table| ==> Precedes(table[i - 1].range, table[i].range))
  }

  lemma Powers()
    ensures Pow(2, 0) == 0x1
    ensures Pow(2, 8) == 0x100
    ensures Pow(2, 16) == 0x1_0000
    ensures Pow(2, 17) == 0x2_0000
    ensures Pow(2, 20) == 0x10_0000
    ensures Pow(2, 22) == 0x40_0000
    ensures Pow(2, 24) == 0x100_0000
    ensures Pow(2, 28) == 0x1000_0000
    ensures Pow(2, 32) == 0x1_0000_0000
    ensures Pow(2, 64) == 0x1_0000_0000_0000_0000
    ensures Pow(2, 80) == 0x1_0000_0000_0000_0000_0000
    ensures Pow(2, 96) == 0x1_0000_0000_0000_0000_0000_0000
    ensures Pow(2, 105) == 0x200_0000_0000_0000_0000_0000_0000
    ensures Pow(2, 108) == 0x1000_0000_0000_0000_0000_0000_0000
    ensures Pow(2, 112) == 0x1_0000_0000_0000_0000_0000_0000_0000
    ensures Pow(2, 118) == 0x40_0000_0000_0000_0000_0000_0000_0000
    ensures Pow(2, 120) == 0x100_0000_0000_0000_0000_0000_0000_0000
    ensures Pow(2, 121) == 0x200_0000_0000_0000_0000_0000_0000_0000
  {
    assert Pow(2, 1) == 2 && Pow(2, 2) == 4 && Pow(2, 4) == 16;
    PowSplits(4, 4);
    PowSplits(8, 8);
    PowSplits(16, 1);
    PowSplits(16, 4);
    PowSplits(20, 2);
    PowSplits(20, 4);
    PowSplits(24, 4);
    PowSplits(16, 16);
    PowSplits(32, 32);
    PowSplits(64, 16);
    PowSplits(64, 32);
    PowSplits(96, 8);
    PowSplits(104, 1);
    PowSplits(104, 4);
    PowSplits(96, 16);
    PowSplits(112, 4);
    PowSplits(116, 2);
    PowSplits(116, 4);
    PowSplits(120, 1);
  }

  lemma MultipleIsAligned(k: nat, size: nat)
    requires size > 0
    ensures (k * size) % size == 0
  {
    var q := k * size / size;
    assert (k - q) * size == (k * size) % size;
    CancelFactor(k - q, 1, size);
    CancelFactor(-1, k - q, size);
  }

  lemma BlockOf(r: Range, bits: nat, size: nat, k: nat)
    requires r.family in {4, 6} && r.prefix + bits == Bits(r.family) && Pow(2, bits) == size
    requires r.value == k * size && r.last == r.value + size - 1
    ensures Block(r)
  {
    PowPositive(bits);
    MultipleIsAligned(k, size);
  }

  lemma Table4Blocks()
    ensures forall i :: 0 <= i < 19 ==> Block(TABLE4[i].range)
  {
    Powers();
    BlockOf(TABLE4[0].range, 24, 0x100_0000, 0x0);
    BlockOf(TABLE4[1].range, 24, 0x100_0000, 0xa);
    BlockOf(TABLE4[2].range, 22, 0x40_0000, 0x191);
    BlockOf(TABLE4[3].range, 24, 0x100_0000, 0x7f);
    BlockOf(TABLE4[4].range, 16, 0x1_0000, 0xa9fe);
    BlockOf(TABLE4[5].range, 20, 0x10_0000, 0xac1);
    BlockOf(TABLE4[6].range, 8, 0x100, 0xc0_0000);
    BlockOf(TABLE4[7].range, 8, 0x100, 0xc0_0002);
    BlockOf(TABLE4[8].range, 8, 0x100, 0xc0_1fc4);
    BlockOf(TABLE4[9].range, 8, 0x100, 0xc0_34c1);
    BlockOf(TABLE4[10].range, 8, 0x100, 0xc0_5863);
    BlockOf(TABLE4[11].range, 16, 0x1_0000, 0xc0a8);
    BlockOf(TABLE4[12].range, 8, 0x100, 0xc0_af30);
    BlockOf(TABLE4[13].range, 17, 0x2_0000, 0x6309);
    BlockOf(TABLE4[14].range, 8, 0x100, 0xc6_3364);
    BlockOf(TABLE4[15].range, 8, 0x100, 0xcb_0071);
    BlockOf(TABLE4[16].range, 28, 0x1000_0000, 0xe);
    BlockOf(TABLE4[17].range, 0, 0x1, 0xffff_ffff);
    BlockOf(TABLE4[18].range, 28, 0x1000_0000, 0xf);
  }

  lemma Table6Blocks()
    ensures forall i :: 0 <= i < 17 ==> Block(TABLE6[i].range)
  {
    Powers();
    BlockOf(TABLE6[0].range, 0, 0x1, 0x0);
    BlockOf(TABLE6[1].range, 0, 0x1, 0x1);
    BlockOf(TABLE6[2].range, 32, 0x1_0000_0000, 0x64_ff9b_0000_0000_0000_0000);
    BlockOf(TABLE6[3].range, 80, 0x1_0000_0000_0000_0000_0000, 0x64_ff9b_0001);
    BlockOf(TABLE6[4].range, 64, 0x1_0000_0000_0000_0000, 0x100_0000_0000_0000);
    BlockOf(TABLE6[5].range, 64, 0x1_0000_0000_0000_0000, 0x100_0000_0000_0001);
    BlockOf(TABLE6[6].range, 96, 0x1_0000_0000_0000_0000_0000_0000, 0x2001_0000);
    BlockOf(TABLE6[7].range, 80, 0x1_0000_0000_0000_0000_0000, 0x2001_0002_0000);
    BlockOf(TABLE6[8].range, 105, 0x200_0000_0000_0000_0000_0000_0000, 0x10_0080);
    BlockOf(TABLE6[9].range, 96, 0x1_0000_0000_0000_0000_0000_0000, 0x2001_0db8);
    BlockOf(TABLE6[10].range, 112, 0x1_0000_0000_0000_0000_0000_0000_0000, 0x2002);
    BlockOf(TABLE6[11].range, 80, 0x1_0000_0000_0000_0000_0000, 0x2620_004f_8000);
    BlockOf(TABLE6[12].range, 108, 0x1000_0000_0000_0000_0000_0000_0000, 0x3_fff0);
    BlockOf(TABLE6[13].range, 112, 0x1_0000_0000_0000_0000_0000_0000_0000, 0x5f00);
    BlockOf(TABLE6[14].range, 121, 0x200_0000_0000_0000_0000_0000_0000_0000, 0x7e);
    BlockOf(TABLE6[15].range, 118, 0x40_0000_0000_0000_0000_0000_0000_0000, 0x3fa);
    BlockOf(TABLE6[16].range, 120, 0x100_0000_0000_0000_0000_0000_0000_0000, 0xff);
  }

  lemma Table4Precedes()
    ensures forall i :: 0 < i < |TABLE4| ==> Precedes(TABLE4[i - 1].range, TABLE4[i].range)
  {
  }

  lemma Table6Precedes()
    ensures forall i :: 0 < i < |TABLE6| ==> Precedes(TABLE6[i - 1].range, TABLE6[i].range)
  {
  }

  lemma RowsAreBlocks()
    ensures forall i :: 0 <= i < |TABLE| ==> Block(TABLE[i].range) && TABLE[i].category != Public
  {
    Table4Blocks();
    Table6Blocks();
    forall i | 0 <= i < |TABLE|
      ensures Block(TABLE[i].range) && TABLE[i].category != Public
    {
      assert TABLE[i] == if i < 19 then TABLE4[i] else TABLE6[i - 19];
    }
  }

  lemma RowsPrecede()
    ensures forall i :: 0 < i < |TABLE| ==> Precedes(TABLE[i - 1].range, TABLE[i].range)
  {
    Table4Precedes();
    Table6Precedes();
    forall i | 0 < i < |TABLE|
      ensures Precedes(TABLE[i - 1].range, TABLE[i].range)
    {
      if i < 19 {
        assert TABLE[i] == TABLE4[i] && TABLE[i - 1] == TABLE4[i - 1];
      } else if i > 19 {
        assert TABLE[i] == TABLE6[i - 19] && TABLE[i - 1] == TABLE6[i - 20];
      } else {
        assert TABLE[19] == TABLE6[0] && TABLE[18] == TABLE4[18];
      }
    }
  }

  lemma TableIsOrdered()
    ensures |TABLE| == 36 && Ordered(TABLE)
  {
    assert |TABLE4| == 19 && |TABLE6| == 17;
    RowsAreBlocks();
    RowsPrecede();
  }

  lemma {:induction false} OrderIsTransitive(table: seq<Row>, i: nat, j: nat)
    requires Ordered(table) && i < j < |table|
    ensures Precedes(table[i].range, table[j].range)
  {
    if i + 1 < j {
      OrderIsTransitive(table, i, j - 1);
    }
  }

  // ----- Classification -----

  predicate Isatap(a: Address) {
    a.family == 6 && a.value / 0x1_0000_0000 % 0x1_0000_0000 in {0x5efe, 0x200_5efe}
  }

  function FirstMatch(table: seq<Row>, a: Address): (i: nat)
    ensures i <= |table| && (i < |table| ==> Contains(table[i].range, a))
    ensures forall k :: 0 <= k < i ==> !Contains(table[k].range, a)
  {
    if table == [] || Contains(table[0].range, a) then 0 else 1 + FirstMatch(table[1..], a)
  }

  predicate Global(family: nat, value: nat) {
    family == 4 || value / 0x2000_0000_0000_0000_0000_0000_0000_0000 == 1
  }

  function Classify(a: Address): Class {
    var i := FirstMatch(TABLE, a);
    if Isatap(a) then Transition
    else if i < |TABLE| then TABLE[i].category
    else if Global(a.family, a.value) then Public
    else Reserved
  }

  /** The first matching row is the most specific one: of any ordered table, and so of this one. */
  lemma FirstMatchIsLongestPrefix(table: seq<Row>, a: Address, j: nat)
    requires Ordered(table) && j < |table| && Contains(table[j].range, a)
    ensures FirstMatch(table, a) <= j && table[FirstMatch(table, a)].range.prefix >= table[j].range.prefix
    ensures Within(table[FirstMatch(table, a)].range, table[j].range)
  {
    var i := FirstMatch(table, a);
    if i < j {
      OrderIsTransitive(table, i, j);
      NestedOrDisjoint(table[i].range, table[j].range);
      NestedOrDisjoint(table[j].range, table[i].range);
    }
  }

  lemma TableMatchIsLongestPrefix(a: Address, j: nat)
    requires j < |TABLE| && Contains(TABLE[j].range, a)
    ensures TABLE[FirstMatch(TABLE, a)].range.prefix >= TABLE[j].range.prefix
  {
    TableIsOrdered();
    FirstMatchIsLongestPrefix(TABLE, a, j);
  }

  // ----- Exceptions -----

  /** `normalizeExceptionCidr`; the category is that of the range's first address. */
  function NormalizeException(raw: string): Option<string> {
    var parsed := ParseCidr(raw);
    if parsed.None? then None
    else
      var r := parsed.value.range;
      var first := Parse(Split(parsed.value.canonical, '/')[0]);
      if first.None? then None
      else
        var category := Classify(first.value);
        if r.prefix == 0 || category !in {Public, Private, Loopback} || (category == Loopback && r.prefix != Bits(r.family)) then None
        else if exists i :: 0 <= i < |TABLE| && Overlap(r, TABLE[i].range) && TABLE[i].category != category then None
        else if category != Public && !exists i :: 0 <= i < |TABLE| && TABLE[i].category == category && Covers(TABLE[i].range, r) then None
        else if r.family == 6 && category == Public && !(Global(6, r.value) && Global(6, r.last)) then None
        else Some(parsed.value.canonical)
  }

  predicate Covers(outer: Range, r: Range) {
    outer.family == r.family && outer.value <= r.value && outer.last >= r.last
  }

  function AddressOf(family: nat, value: nat): Address {
    Address(family, value, CanonicalText(family, value), false)
  }

  /** The compile-time checks on a range decide the class of every address in it: all share the
      class of its first address, except those of the ISATAP form. */
  lemma ExceptionIsUniform(raw: string, a: Address)
    requires NormalizeException(raw).Some? && Contains(ParseCidr(raw).value.range, a)
    ensures var category := Classify(AddressOf(a.family, ParseCidr(raw).value.range.value));
            && category in {Public, Private, Loopback}
            && Classify(a) == (if Isatap(a) then Transition else category)
            && (category == Loopback ==> a.value == ParseCidr(raw).value.range.value)
  {
    CidrRoundTrip(raw);
    ParsedIsBlock(raw);
    RangeIsUniform(ParseCidr(raw).value.range, a, Classify(AddressOf(a.family, ParseCidr(raw).value.range.value)));
  }

  lemma RangeIsUniform(r: Range, a: Address, category: Class)
    requires Block(r) && Contains(r, a) && category == Classify(AddressOf(r.family, r.value))
    requires category in {Public, Private, Loopback} && (category == Loopback ==> r.prefix == Bits(r.family))
    requires forall i :: 0 <= i < |TABLE| && Overlap(r, TABLE[i].range) ==> TABLE[i].category == category
    requires category != Public ==> exists i :: 0 <= i < |TABLE| && TABLE[i].category == category && Covers(TABLE[i].range, r)
    requires r.family == 6 && category == Public ==> Global(6, r.value) && Global(6, r.last)
    ensures Classify(a) == (if Isatap(a) then Transition else category)
    ensures category == Loopback ==> a.value == r.value
  {
    var i := FirstMatch(TABLE, a);
    if i < |TABLE| {
      assert Overlap(r, TABLE[i].range);
    } else if category != Public {
      var k :| 0 <= k < |TABLE| && TABLE[k].category == category && Covers(TABLE[k].range, r);
      assert Contains(TABLE[k].range, a);
    }
    assert Pow(2, 0) == 1;
  }
}
