/**
 What classification and the texts of CIDR ranges come to, without the functions that compute them.
 */
module AddressClasses {
  import opened Common
  import opened AddressText
  import opened IpAddress
  import opened AddressRanges

  // ----- Classes -----

  // The address embeds an IPv4 address in the ISATAP interface identifier (section 6.1 of RFC 5214).
  predicate EmbedsIsatap(family: nat, value: nat) {
    family == 6 && (value / 0x1_0000_0000 % 0x1_0000_0000 == 0x0000_5efe || value / 0x1_0000_0000 % 0x1_0000_0000 == 0x0200_5efe)
  }

  // Outside the special-purpose table: all of IPv4, and 2000::/3.
  predicate Ordinary(family: nat, value: nat) {
    family == 4 || 0x2000_0000_0000_0000_0000_0000_0000_0000 <= value < 0x4000_0000_0000_0000_0000_0000_0000_0000
  }

  // A row that holds the address, and no row that holds it is more specific.
  ghost predicate MostSpecific(a: Address, j: nat) {
    && j < |TABLE| && Contains(TABLE[j].range, a)
    && forall k :: 0 <= k < |TABLE| && Contains(TABLE[k].range, a) ==> TABLE[k].range.prefix <= TABLE[j].range.prefix
  }

  lemma OrdinaryIsGlobal(family: nat, value: nat)
    ensures Ordinary(family, value) <==> Global(family, value)
  {
  }

  lemma SpecificIsFirst(a: Address, j: nat)
    requires MostSpecific(a, j)
    ensures FirstMatch(TABLE, a) == j
  {
    TableIsOrdered();
    FirstMatchIsLongestPrefix(TABLE, a, j);
    var i := FirstMatch(TABLE, a);
    if i < j {
      OrderIsTransitive(TABLE, i, j);
      SamePrefixSameBlock(TABLE[i].range, TABLE[j].range, a);
    }
  }

  lemma SamePrefixSameBlock(r: Range, q: Range, a: Address)
    requires Block(r) && Block(q) && r.prefix == q.prefix && Contains(r, a) && Contains(q, a)
    ensures r == q
  {
    NestedOrDisjoint(r, q);
    NestedOrDisjoint(q, r);
  }

  /** An address of the ISATAP form is transitional; any other has the class of the most specific row
      that holds it, and if no row does it is public exactly when it is IPv4 or of 2000::/3. */
  lemma ClassifyExactly(a: Address, j: nat)
    ensures EmbedsIsatap(a.family, a.value) ==> Classify(a) == Transition
    ensures !EmbedsIsatap(a.family, a.value) && MostSpecific(a, j) ==> Classify(a) == TABLE[j].category
    ensures !EmbedsIsatap(a.family, a.value) && (forall k :: 0 <= k < |TABLE| ==> !Contains(TABLE[k].range, a)) ==>
              Classify(a) == if Ordinary(a.family, a.value) then Public else Reserved
  {
    OrdinaryIsGlobal(a.family, a.value);
    if MostSpecific(a, j) {
      SpecificIsFirst(a, j);
    }
  }

  /** And every address that some row holds has such a row. */
  lemma SomeRowIsMostSpecific(a: Address, k: nat) returns (j: nat)
    requires k < |TABLE| && Contains(TABLE[k].range, a)
    ensures MostSpecific(a, j)
  {
    j := FirstMatch(TABLE, a);
    TableIsOrdered();
    forall i | 0 <= i < |TABLE| && Contains(TABLE[i].range, a)
      ensures TABLE[i].range.prefix <= TABLE[j].range.prefix
    {
      FirstMatchIsLongestPrefix(TABLE, a, i);
    }
  }

  // ----- Exception ranges -----

  // No address of the range falls in a row of another class.
  ghost predicate OnlyMeets(r: Range, category: Class) {
    forall i :: 0 <= i < |TABLE| && Overlap(r, TABLE[i].range) ==> TABLE[i].category == category
  }

  ghost predicate WithinRowOf(r: Range, category: Class) {
    exists i :: 0 <= i < |TABLE| && TABLE[i].category == category && Covers(TABLE[i].range, r)
  }

  // A range that an exception may open: public and clear of the table, or within a private row and
  // meeting no other, or a single loopback address.
  ghost predicate Exceptional(r: Range) {
    && r.prefix > 0 && !EmbedsIsatap(r.family, r.value)
    && (|| (OnlyMeets(r, Public) && Ordinary(r.family, r.value) && Ordinary(r.family, r.last))
        || (OnlyMeets(r, Private) && WithinRowOf(r, Private))
        || (OnlyMeets(r, Loopback) && WithinRowOf(r, Loopback) && r.prefix == Bits(r.family)))
  }

  lemma ClassWithinRow(r: Range, category: Class)
    requires r.value <= r.last && OnlyMeets(r, category) && WithinRowOf(r, category)
    requires !EmbedsIsatap(r.family, r.value)
    ensures Classify(AddressOf(r.family, r.value)) == category
  {
    var a := AddressOf(r.family, r.value);
    var k :| 0 <= k < |TABLE| && TABLE[k].category == category && Covers(TABLE[k].range, r);
    assert Contains(TABLE[k].range, a);
    assert Overlap(r, TABLE[FirstMatch(TABLE, a)].range);
  }

  lemma ClassOfClear(r: Range)
    requires r.value <= r.last && OnlyMeets(r, Public) && !EmbedsIsatap(r.family, r.value)
    ensures Classify(AddressOf(r.family, r.value)) == if Ordinary(r.family, r.value) then Public else Reserved
  {
    var a := AddressOf(r.family, r.value);
    TableIsOrdered();
    OrdinaryIsGlobal(r.family, r.value);
    if FirstMatch(TABLE, a) < |TABLE| {
      assert Overlap(r, TABLE[FirstMatch(TABLE, a)].range);
    }
  }

  lemma ExceptionalIsAccepted(raw: string, r: Range)
    requires ParseCidr(raw).Some? && ParseCidr(raw).value.range == r && Exceptional(r) && r.value <= r.last
    ensures NormalizeException(raw).Some?
  {
    CidrRoundTrip(raw);
    OrdinaryIsGlobal(r.family, r.value);
    OrdinaryIsGlobal(r.family, r.last);
    if OnlyMeets(r, Private) && WithinRowOf(r, Private) {
      ClassWithinRow(r, Private);
    } else if OnlyMeets(r, Loopback) && WithinRowOf(r, Loopback) {
      ClassWithinRow(r, Loopback);
    } else {
      ClassOfClear(r);
    }
  }

  lemma AcceptedIsExceptional(raw: string, r: Range)
    requires NormalizeException(raw).Some? && ParseCidr(raw).value.range == r && r.value <= r.last
    ensures Exceptional(r)
  {
    CidrRoundTrip(raw);
    OrdinaryIsGlobal(r.family, r.value);
    OrdinaryIsGlobal(r.family, r.last);
    var category := Classify(AddressOf(r.family, r.value));
    assert OnlyMeets(r, category);
    assert category != Public ==> WithinRowOf(r, category);
  }

  /** A text is accepted as an exception range if and only if it parses to such a range; it is then
      kept as its canonical text. */
  lemma ExceptionExactly(raw: string)
    ensures NormalizeException(raw).Some? <==> ParseCidr(raw).Some? && Exceptional(ParseCidr(raw).value.range)
    ensures NormalizeException(raw).Some? ==> NormalizeException(raw).value == ParseCidr(raw).value.canonical
  {
    if ParseCidr(raw).Some? {
      ParsedIsBlock(raw);
      var r := ParseCidr(raw).value.range;
      if NormalizeException(raw).Some? {
        AcceptedIsExceptional(raw, r);
      } else if Exceptional(r) {
        ExceptionalIsAccepted(raw, r);
      }
    }
  }

  // ----- Texts of ranges -----

  // The prefix that a suffix names; for an IPv4-mapped text it counts the 96 bits before the quad.
  function Named(a: Address, prefix: nat): int {
    if a.mapped then prefix - 96 else prefix
  }

  lemma PrefixedIsRead(text: string, digits: string)
    requires '/' !in text && '/' !in digits && |text| + |digits| < MAX_CIDR_TEXT
    ensures ParseCidr(text + "/" + digits) == CidrOf(Parse(text), Some(digits))
  {
    CidrPieces(text, digits);
  }

  lemma WholeIsRead(text: string)
    requires '/' !in text && |text| <= MAX_TEXT
    ensures ParseCidr(text) == CidrOf(Parse(text), None)
  {
    assert Split(text, '/') == [text];
  }

  lemma CidrOfPrefix(a: Address, prefix: nat)
    requires prefix <= 128
    ensures CidrOf(Some(a), Some(NumberText(prefix, 10))) == MakeCidr(a, Named(a, prefix))
  {
    PrefixDigits(prefix);
  }

  lemma MadeExactly(a: Address, q: int)
    ensures MakeCidr(a, q).Some? <==> 0 <= q <= Bits(a.family) && a.value % Size(a.family, q) == 0
    ensures MakeCidr(a, q).Some? ==>
              && MakeCidr(a, q).value.range == Range(a.family, a.value, q, a.value + Size(a.family, q) - 1)
              && MakeCidr(a, q).value.canonical == a.canonical + "/" + NumberText(q, 10)
  {
  }

  /** An address text with a prefix is read if and only if that prefix exists for its family and the
      address has no bit beyond it; without a prefix it is the range of that address alone. */
  lemma CidrExactly(text: string, a: Address, prefix: nat)
    requires Parse(text) == Some(a) && '/' !in text && prefix <= 128
    ensures var q := Named(a, prefix); var r := ParseCidr(text + "/" + NumberText(prefix, 10));
            && (r.Some? <==> 0 <= q <= Bits(a.family) && a.value % Size(a.family, q) == 0)
            && (r.Some? ==> r.value.range == Range(a.family, a.value, q, a.value + Size(a.family, q) - 1)
                            && r.value.canonical == a.canonical + "/" + NumberText(q, 10))
    ensures ParseCidr(text).Some? && ParseCidr(text).value.range == Range(a.family, a.value, Bits(a.family), a.value)
  {
    PrefixDigits(prefix);
    TextFits(text);
    PrefixedIsRead(text, NumberText(prefix, 10));
    CidrOfPrefix(a, prefix);
    MadeExactly(a, Named(a, prefix));
    WholeIsRead(text);
    assert Pow(2, 0) == 1;
    MadeExactly(a, Bits(a.family));
  }

  lemma TextFits(text: string)
    ensures Parse(text).Some? ==> 0 < |text| <= MAX_TEXT
  {
  }
}
