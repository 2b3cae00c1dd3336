/**
 The special-purpose table once more, as its rows are written: octets or groups with a prefix.
 */
module AddressTable {
  import opened Common
  import opened AddressText
  import opened IpAddress
  import opened AddressRanges

  // Octets in decimal, groups in hexadecimal, most significant first, and the prefix.
  datatype Quad = Quad(a: nat, b: nat, c: nat, d: nat)

  datatype Groups8 = Groups8(high: Quad, low: Quad, prefix: nat)

  function QuadValue(q: Quad, base: nat): nat
    requires base in {256, 65536}
  {
    ((q.a * base + q.b) * base + q.c) * base + q.d
  }

  function QuadParts(q: Quad): seq<nat> {
    [q.a, q.b, q.c, q.d]
  }

  const WRITTEN4: seq<(Quad, nat)> := [
    (Quad(0, 0, 0, 0), 8), (Quad(10, 0, 0, 0), 8), (Quad(100, 64, 0, 0), 10),
    (Quad(127, 0, 0, 0), 8), (Quad(169, 254, 0, 0), 16), (Quad(172, 16, 0, 0), 12),
    (Quad(192, 0, 0, 0), 24), (Quad(192, 0, 2, 0), 24), (Quad(192, 31, 196, 0), 24),
    (Quad(192, 52, 193, 0), 24), (Quad(192, 88, 99, 0), 24), (Quad(192, 168, 0, 0), 16),
    (Quad(192, 175, 48, 0), 24), (Quad(198, 18, 0, 0), 15), (Quad(198, 51, 100, 0), 24),
    (Quad(203, 0, 113, 0), 24), (Quad(224, 0, 0, 0), 4), (Quad(255, 255, 255, 255), 32),
    (Quad(240, 0, 0, 0), 4)
  ]

  const WRITTEN6: seq<Groups8> := [
    Groups8(Quad(0, 0, 0, 0), Quad(0, 0, 0, 0), 128),
    Groups8(Quad(0, 0, 0, 0), Quad(0, 0, 0, 1), 128),
    Groups8(Quad(0x64, 0xff9b, 0, 0), Quad(0, 0, 0, 0), 96),
    Groups8(Quad(0x64, 0xff9b, 1, 0), Quad(0, 0, 0, 0), 48),
    Groups8(Quad(0x100, 0, 0, 0), Quad(0, 0, 0, 0), 64),
    Groups8(Quad(0x100, 0, 0, 1), Quad(0, 0, 0, 0), 64),
    Groups8(Quad(0x2001, 0, 0, 0), Quad(0, 0, 0, 0), 32),
    Groups8(Quad(0x2001, 2, 0, 0), Quad(0, 0, 0, 0), 48),
    Groups8(Quad(0x2001, 0, 0, 0), Quad(0, 0, 0, 0), 23),
    Groups8(Quad(0x2001, 0xdb8, 0, 0), Quad(0, 0, 0, 0), 32),
    Groups8(Quad(0x2002, 0, 0, 0), Quad(0, 0, 0, 0), 16),
    Groups8(Quad(0x2620, 0x4f, 0x8000, 0), Quad(0, 0, 0, 0), 48),
    Groups8(Quad(0x3fff, 0, 0, 0), Quad(0, 0, 0, 0), 20),
    Groups8(Quad(0x5f00, 0, 0, 0), Quad(0, 0, 0, 0), 16),
    Groups8(Quad(0xfc00, 0, 0, 0), Quad(0, 0, 0, 0), 7),
    Groups8(Quad(0xfe80, 0, 0, 0), Quad(0, 0, 0, 0), 10),
    Groups8(Quad(0xff00, 0, 0, 0), Quad(0, 0, 0, 0), 8)
  ]

  lemma Written4IsTable()
    ensures |WRITTEN4| == |TABLE4| == 19
    ensures forall i :: 0 <= i < 19 ==>
              QuadValue(WRITTEN4[i].0, 256) == TABLE4[i].range.value && WRITTEN4[i].1 == TABLE4[i].range.prefix
    ensures forall i :: 0 <= i < 19 ==> Small(WRITTEN4[i].0, 256) && TABLE4[i].range.family == 4
  {
  }

  lemma Written6IsTable()
    ensures |WRITTEN6| == |TABLE6| == 17
    ensures forall i :: 0 <= i < 17 ==>
              && QuadValue(WRITTEN6[i].high, 65536) * 0x1_0000_0000_0000_0000 + QuadValue(WRITTEN6[i].low, 65536) == TABLE6[i].range.value
              && WRITTEN6[i].prefix == TABLE6[i].range.prefix && TABLE6[i].range.family == 6
    ensures forall i :: 0 <= i < 17 ==> Small(WRITTEN6[i].high, 65536) && Small(WRITTEN6[i].low, 65536)
  {
  }

  predicate Small(q: Quad, base: nat) {
    q.a < base && q.b < base && q.c < base && q.d < base
  }

  lemma CombineQuad(q: Quad, front: seq<nat>, base: nat)
    requires base in {256, 65536}
    ensures Combine(front + QuadParts(q), base) ==
            (((Combine(front, base) * base + q.a) * base + q.b) * base + q.c) * base + q.d
  {
    CombineSnoc(front, q.a, base);
    CombineSnoc(front + [q.a], q.b, base);
    CombineSnoc(front + [q.a] + [q.b], q.c, base);
    CombineSnoc(front + [q.a] + [q.b] + [q.c], q.d, base);
    assert front + QuadParts(q) == front + [q.a] + [q.b] + [q.c] + [q.d];
  }

  lemma CombineSnoc(front: seq<nat>, last: nat, base: nat)
    ensures Combine(front + [last], base) == Combine(front, base) * base + last
  {
    assert (front + [last])[..|front|] == front;
  }

  lemma CombineOne(q: Quad, base: nat)
    requires base in {256, 65536}
    ensures Combine(QuadParts(q), base) == QuadValue(q, base)
  {
    CombineQuad(q, [], base);
    assert [] + QuadParts(q) == QuadParts(q);
  }

  lemma Shifted(h: nat, l: Quad)
    ensures (((h * 65536 + l.a) * 65536 + l.b) * 65536 + l.c) * 65536 + l.d == h * 0x1_0000_0000_0000_0000 + QuadValue(l, 65536)
  {
  }

  lemma HighAndLow(h: Quad, l: Quad)
    ensures Combine(QuadParts(h) + QuadParts(l), 65536) == QuadValue(h, 65536) * 0x1_0000_0000_0000_0000 + QuadValue(l, 65536)
  {
    CombineOne(h, 65536);
    CombineQuad(l, QuadParts(h), 65536);
    Shifted(QuadValue(h, 65536), l);
  }

  // The text of a row: octets or groups, canonically, and the prefix.
  function RowText(r: Range): string {
    CanonicalText(r.family, r.value) + "/" + NumberText(r.prefix, 10)
  }

  lemma BlockTextParses(r: Range)
    requires Block(r) && r.value < (if r.family == 4 then MAX_V4 else MAX_V6) && (r.family == 6 ==> !Mapped(r.value))
    ensures ParseCidr(RowText(r)) == Some(Cidr(r, RowText(r)))
  {
    var a := AddressOf(r.family, r.value);
    BlockIsMade(r, a);
    CanonicalCidrParses(a, r.prefix);
  }

  lemma BlockIsMade(r: Range, a: Address)
    requires Block(r) && a.family == r.family && a.value == r.value && a.canonical == CanonicalText(r.family, r.value)
    ensures MakeCidr(a, r.prefix) == Some(Cidr(r, RowText(r)))
  {
  }

  /** Every IPv4 row is what its text parses to, and the octets of that text are those written. */
  lemma Row4IsItsText(i: nat)
    requires i < 19
    ensures |TABLE4| == |WRITTEN4| == 19
    ensures var r := TABLE4[i].range;
            && ParseCidr(RowText(r)) == Some(Cidr(r, RowText(r)))
            && Parts(r.value, 256, 4) == QuadParts(WRITTEN4[i].0) && r.prefix == WRITTEN4[i].1
  {
    Table4Blocks();
    Written4IsTable();
    QuadOfRow(WRITTEN4[i].0, TABLE4[i].range.value);
    BlockTextParses(TABLE4[i].range);
  }

  /** The same of every IPv6 row and its groups. */
  lemma Row6IsItsText(i: nat)
    requires i < 17
    ensures |TABLE6| == |WRITTEN6| == 17
    ensures var r := TABLE6[i].range;
            && ParseCidr(RowText(r)) == Some(Cidr(r, RowText(r)))
            && Parts(r.value, 65536, 8) == QuadParts(WRITTEN6[i].high) + QuadParts(WRITTEN6[i].low) && r.prefix == WRITTEN6[i].prefix
  {
    Table6Blocks();
    Written6IsTable();
    GroupsOfRow(WRITTEN6[i], TABLE6[i].range.value);
    BlockTextParses(TABLE6[i].range);
  }

  lemma QuadOfRow(q: Quad, value: nat)
    requires Small(q, 256) && QuadValue(q, 256) == value
    ensures Parts(value, 256, 4) == QuadParts(q) && value < MAX_V4
  {
    CombineOne(q, 256);
    PartsCombine(QuadParts(q), 256);
    Widths();
  }

  lemma GroupsOfRow(g: Groups8, value: nat)
    requires Small(g.high, 65536) && Small(g.low, 65536)
    requires QuadValue(g.high, 65536) * 0x1_0000_0000_0000_0000 + QuadValue(g.low, 65536) == value
    requires QuadValue(g.high, 65536) > 0 || g.low.b != 65535
    ensures Parts(value, 65536, 8) == QuadParts(g.high) + QuadParts(g.low) && value < MAX_V6 && !Mapped(value)
  {
    GroupsCombine(g, value);
    NotMapped(QuadValue(g.high, 65536), g.low);
  }

  lemma GroupsCombine(g: Groups8, value: nat)
    requires Small(g.high, 65536) && Small(g.low, 65536)
    requires QuadValue(g.high, 65536) * 0x1_0000_0000_0000_0000 + QuadValue(g.low, 65536) == value
    ensures Parts(value, 65536, 8) == QuadParts(g.high) + QuadParts(g.low) && value < MAX_V6
  {
    var parts := QuadParts(g.high) + QuadParts(g.low);
    HighAndLow(g.high, g.low);
    SmallParts(g.high, g.low);
    assert Combine(parts, 65536) == value;
    PartsCombine(parts, 65536);
    Widths();
  }

  lemma SmallParts(h: Quad, l: Quad)
    requires Small(h, 65536) && Small(l, 65536)
    ensures |QuadParts(h) + QuadParts(l)| == 8
    ensures forall i :: 0 <= i < 8 ==> (QuadParts(h) + QuadParts(l))[i] < 65536
  {
  }

  lemma NotMapped(high: nat, l: Quad)
    requires Small(l, 65536) && (high > 0 || l.b != 65535)
    ensures !Mapped(high * 0x1_0000_0000_0000_0000 + QuadValue(l, 65536))
  {
    var value, top := high * 0x1_0000_0000_0000_0000 + QuadValue(l, 65536), high * 0x1_0000_0000 + l.a * 65536 + l.b;
    assert value == top * MAX_V4 + (l.c * 65536 + l.d);
    assert value / MAX_V4 == top;
  }
}
