/**
 Credential material handed to the generation store: which secrets, keys and Basic pairs are
 accepted, and the copy that is kept. A JavaScript record becomes a sequence of its fields.
 */
module CredentialMaterial {
  import opened Common
  import T = AddressText

  datatype Field = Field(key: string, value: string)

  datatype Provider = Provider(id: string, fields: seq<Field>)

  datatype Pair = Pair(provider: string, username: string, password: string)

  datatype Material = Material(providers: seq<Provider>, pairs: seq<Pair>, expiresAt: int)

  type Content = map<string, map<string, string>>

  datatype Copied = Copied(content: Content, bytes: nat)

  const MAX_PROVIDERS := 64
  const MAX_KEYS := 512
  const MAX_PAIRS := 256
  const MAX_SECRET_BYTES := 8192

  // ----- Texts -----

  function CharBytes(c: char): nat {
    if c < '\U{80}' then 1 else if c < '\U{800}' then 2 else if c < '\U{10000}' then 3 else 4
  }

  // The length of the UTF-8 form.
  function Bytes(s: string): nat {
    if s == [] then 0 else Bytes(s[..|s| - 1]) + CharBytes(s[|s| - 1])
  }

  predicate IsSecret(s: string) {
    && s != [] && !IsSpace(s[0]) && !IsSpace(s[|s| - 1]) && Bytes(s) <= MAX_SECRET_BYTES
    && forall i :: 0 <= i < |s| ==> '\U{20}' <= s[i] && s[i] != '\U{7F}'
  }

  predicate IsIdentifier(s: string) {
    1 <= |s| <= 128 && IsAlnum(s[0]) && forall i :: 0 <= i < |s| ==> IsAlnum(s[i]) || s[i] in "_.:-"
  }

  predicate IsKeyPart(s: string) {
    s != [] && s != "." && s != ".." && forall i :: 0 <= i < |s| ==> IsAlnum(s[i]) || s[i] in "_.-"
  }

  predicate IsMaterialKey(s: string) {
    var parts := T.Split(s, '/');
    Bytes(s) <= 512 && |parts| <= 16 && forall i :: 0 <= i < |parts| ==> IsKeyPart(parts[i])
  }

  // ----- The copy -----

  function FieldMap(fields: seq<Field>): map<string, string> {
    if fields == [] then map[]
    else FieldMap(fields[..|fields| - 1])[fields[|fields| - 1].key := fields[|fields| - 1].value]
  }

  function FieldBytes(fields: seq<Field>): nat {
    if fields == [] then 0 else FieldBytes(fields[..|fields| - 1]) + Bytes(fields[|fields| - 1].value)
  }

  function ContentOf(ps: seq<Provider>): Content {
    if ps == [] then map[] else ContentOf(ps[..|ps| - 1])[ps[|ps| - 1].id := FieldMap(ps[|ps| - 1].fields)]
  }

  function SizeOf(ps: seq<Provider>): nat {
    if ps == [] then 0 else SizeOf(ps[..|ps| - 1]) + FieldBytes(ps[|ps| - 1].fields)
  }

  function KeyCount(ps: seq<Provider>): nat {
    if ps == [] then 0 else KeyCount(ps[..|ps| - 1]) + |ps[|ps| - 1].fields|
  }

  predicate GoodField(f: Field) {
    IsMaterialKey(f.key) && IsSecret(f.value)
  }

  predicate GoodProvider(p: Provider) {
    IsIdentifier(p.id) && p.fields != [] && forall i :: 0 <= i < |p.fields| ==> GoodField(p.fields[i])
  }

  // Both halves are there, and the Basic header they make is short enough.
  predicate GoodPair(c: Content, p: Pair) {
    && IsIdentifier(p.provider) && IsMaterialKey(p.username) && IsMaterialKey(p.password) && p.username != p.password
    && p.provider in c && p.username in c[p.provider] && p.password in c[p.provider]
    && ':' !in c[p.provider][p.username]
    && 6 + 4 * ((Bytes(c[p.provider][p.username]) + 1 + Bytes(c[p.provider][p.password]) + 2) / 3) <= MAX_SECRET_BYTES
  }

  predicate GoodPairs(c: Content, pairs: seq<Pair>) {
    && |pairs| <= MAX_PAIRS && (forall i :: 0 <= i < |pairs| ==> GoodPair(c, pairs[i]))
    && (forall i, j :: 0 <= i < j < |pairs| ==> pairs[i] != pairs[j])
  }

  predicate Accepts(m: Material, now: int) {
    && m.expiresAt > now && 0 < |m.providers| <= MAX_PROVIDERS
    && (forall i :: 0 <= i < |m.providers| ==> GoodProvider(m.providers[i])) && KeyCount(m.providers) <= MAX_KEYS
    && GoodPairs(ContentOf(m.providers), m.pairs)
  }

  lemma {:induction false} KeyCountGrows(ps: seq<Provider>, n: nat)
    requires n <= |ps|
    ensures KeyCount(ps[..n]) <= KeyCount(ps)
  {
    if n == |ps| {
      assert ps[..n] == ps;
    } else {
      assert ps[..|ps| - 1][..n] == ps[..n];
      KeyCountGrows(ps[..|ps| - 1], n);
    }
  }

  // A provider id occurs once, and so does a key within a provider.
  predicate IsRecord(ps: seq<Provider>) {
    && (forall i, j :: 0 <= i < j < |ps| ==> ps[i].id != ps[j].id)
    && (forall i :: 0 <= i < |ps| ==> DistinctKeys(ps[i].fields))
  }

  predicate DistinctKeys(fields: seq<Field>) {
    forall i, j :: 0 <= i < j < |fields| ==> fields[i].key != fields[j].key
  }

  predicate Holds(c: Content, provider: string, key: string, value: string) {
    provider in c && key in c[provider] && c[provider][key] == value
  }

  lemma {:induction false} FieldsAreExact(fields: seq<Field>, key: string, value: string)
    requires DistinctKeys(fields)
    ensures (key in FieldMap(fields) && FieldMap(fields)[key] == value) <==> Field(key, value) in fields
  {
    if fields != [] {
      var n := |fields| - 1;
      FieldsAreExact(fields[..n], key, value);
      assert fields == fields[..n] + [fields[n]];
      assert key == fields[n].key ==> Field(key, value) !in fields[..n];
    }
  }

  ghost predicate Given(ps: seq<Provider>, provider: string, key: string, value: string) {
    exists i :: 0 <= i < |ps| && ps[i].id == provider && Field(key, value) in ps[i].fields
  }

  /** The copy holds exactly the secrets that were given. */
  lemma {:induction false} CopyIsExact(ps: seq<Provider>, provider: string, key: string, value: string)
    requires IsRecord(ps)
    ensures Holds(ContentOf(ps), provider, key, value) <==> Given(ps, provider, key, value)
  {
    if ps != [] {
      var n := |ps| - 1;
      CopyIsExact(ps[..n], provider, key, value);
      FieldsAreExact(ps[n].fields, key, value);
      assert forall i :: 0 <= i < n ==> ps[..n][i] == ps[i];
    }
  }

  method CopyFields(fields: seq<Field>, keysBefore: nat) returns (r: Option<(map<string, string>, nat)>)
    requires keysBefore <= MAX_KEYS
    ensures r.Some? <==>
            fields != [] && keysBefore + |fields| <= MAX_KEYS && forall i :: 0 <= i < |fields| ==> GoodField(fields[i])
    ensures r.Some? ==> r.value == (FieldMap(fields), FieldBytes(fields))
  {
    if fields == [] {
      return None;
    }
    var copy, bytes, keys := map[], 0, keysBefore;
    for i := 0 to |fields|
      invariant keys == keysBefore + i <= MAX_KEYS
      invariant forall k :: 0 <= k < i ==> GoodField(fields[k])
      invariant copy == FieldMap(fields[..i]) && bytes == FieldBytes(fields[..i])
    {
      if !IsMaterialKey(fields[i].key) {
        return None;
      }
      keys := keys + 1;
      if keys > MAX_KEYS || !IsSecret(fields[i].value) {
        return None;
      }
      assert fields[..i + 1][..i] == fields[..i];
      bytes := bytes + Bytes(fields[i].value);
      copy := copy[fields[i].key := fields[i].value];
    }
    assert fields[..|fields|] == fields;
    r := Some((copy, bytes));
  }

  method CheckPairs(pairs: seq<Pair>, c: Content) returns (ok: bool)
    ensures ok <==> GoodPairs(c, pairs)
  {
    if |pairs| > MAX_PAIRS {
      return false;
    }
    var seen: set<Pair> := {};
    for i := 0 to |pairs|
      invariant forall k :: 0 <= k < i ==> GoodPair(c, pairs[k]) && pairs[k] in seen
      invariant forall k, l :: 0 <= k < l < i ==> pairs[k] != pairs[l]
      invariant forall p :: p in seen ==> p in pairs[..i]
    {
      if !GoodPair(c, pairs[i]) || pairs[i] in seen {
        return false;
      }
      seen := seen + {pairs[i]};
    }
    ok := true;
  }

  /** Validates the material and copies it in one pass. */
  method Copy(m: Material, now: int) returns (r: Option<Copied>)
    ensures r.Some? <==> Accepts(m, now)
    ensures r.Some? ==> r.value == Copied(ContentOf(m.providers), SizeOf(m.providers))
  {
    if m.expiresAt <= now || m.providers == [] || |m.providers| > MAX_PROVIDERS {
      return None;
    }
    var content, bytes, keys := map[], 0, 0;
    var ps := m.providers;
    for i := 0 to |ps|
      invariant forall k :: 0 <= k < i ==> GoodProvider(ps[k])
      invariant keys == KeyCount(ps[..i]) <= MAX_KEYS
      invariant content == ContentOf(ps[..i]) && bytes == SizeOf(ps[..i])
    {
      assert ps[..i + 1][..i] == ps[..i];
      KeyCountGrows(ps, i + 1);
      if !IsIdentifier(ps[i].id) {
        return None;
      }
      var copied := CopyFields(ps[i].fields, keys);
      if copied.None? {
        return None;
      }
      content := content[ps[i].id := copied.value.0];
      bytes := bytes + copied.value.1;
      keys := keys + |ps[i].fields|;
    }
    assert ps[..|ps|] == ps;
    var paired := CheckPairs(m.pairs, content);
    if !paired {
      return None;
    }
    r := Some(Copied(content, bytes));
  }
}
