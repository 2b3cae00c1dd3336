/**
 Configuration overrides: a table of rows and the map held in memory, changed by updates, by
 imports that replace everything in one transaction, and by reloading.

 The field table is a parameter: any list of fields with distinct environment keys and distinct
 section.field keys. A row is saved without its generated id, so saving inserts, and the unique
 index on the environment key refuses a second row. Any database call may also fail by itself.
 */
module ConfigOverrides {
  import opened Common

  datatype Kind = StringKind | NumberKind | BooleanKind | OtherKind

  datatype Value = Text(text: string) | Number(n: real) | NotFinite | Flag(b: bool) | Other

  datatype Spec = Spec(envKey: string, section: string, field: string, kind: Kind, restart: bool, editable: bool)

  datatype Schema = Schema(specs: seq<Spec>, isUrl: string -> bool)

  datatype Record = Record(envKey: string, section: string, field: string, kind: Kind, value: Value, restart: bool)

  datatype Dto = Dto(version: string, overrides: seq<Record>)

  datatype Change = Change(section: string, field: string, value: Value, dbFails: bool)

  datatype State = State(overrides: map<string, Value>, rows: map<string, Record>)

  datatype Conflict = Conflict(key: string, current: Option<Value>, incoming: Option<Value>)

  const VERSION := "config-overrides/v1"

  function Get<V>(m: map<string, V>, k: string): Option<V> {
    if k in m then Some(m[k]) else None
  }

  // ----- Fields and records -----

  function KeyOf(section: string, field: string): string {
    section + "." + field
  }

  function SpecKey(spec: Spec): string {
    KeyOf(spec.section, spec.field)
  }

  function RecordKey(r: Record): string {
    KeyOf(r.section, r.field)
  }

  ghost predicate GoodSpecs(specs: seq<Spec>) {
    forall i, j :: 0 <= i < j < |specs| ==> Unlike(specs[i], specs[j])
  }

  ghost predicate Unlike(a: Spec, b: Spec) {
    a.envKey != b.envKey && SpecKey(a) != SpecKey(b)
  }

  function FindSpec(specs: seq<Spec>, key: string): Option<Spec> {
    if specs == [] then None
    else if SpecKey(specs[|specs| - 1]) == key then Some(specs[|specs| - 1])
    else FindSpec(specs[..|specs| - 1], key)
  }

  function KindOf(v: Value): Kind {
    match v
    case Text(_) => StringKind
    case Number(_) => NumberKind
    case NotFinite => NumberKind
    case Flag(_) => BooleanKind
    case Other => OtherKind
  }

  predicate Blank(s: string) {
    forall i :: 0 <= i < |s| ==> IsSpace(s[i])
  }

  // `validateOverrideValue` does not throw.
  predicate UrlFits(schema: Schema, spec: Spec, v: Value) {
    spec.field in {"apiBaseUrl", "defaultBaseUrl"} && v.Text? && !Blank(v.text) ==> schema.isUrl(v.text)
  }

  predicate Acceptable(schema: Schema, spec: Spec, v: Value) {
    KindOf(v) == spec.kind && v != NotFinite && v != Text("") && v != Other && UrlFits(schema, spec, v)
  }

  function Built(spec: Spec, v: Value): Record {
    Record(spec.envKey, spec.section, spec.field, spec.kind, v, spec.restart)
  }

  // A record as the service itself builds it.
  predicate Proper(schema: Schema, r: Record) {
    var spec := FindSpec(schema.specs, RecordKey(r));
    spec.Some? && spec.value.editable && r == Built(spec.value, r.value) && Acceptable(schema, spec.value, r.value)
  }

  lemma {:induction false} FoundIsListed(specs: seq<Spec>, key: string)
    ensures FindSpec(specs, key).Some? ==> FindSpec(specs, key).value in specs && SpecKey(FindSpec(specs, key).value) == key
  {
    if specs != [] {
      FoundIsListed(specs[..|specs| - 1], key);
    }
  }

  lemma {:induction false} ListedIsFound(specs: seq<Spec>, i: nat)
    requires GoodSpecs(specs) && i < |specs|
    ensures FindSpec(specs, SpecKey(specs[i])) == Some(specs[i])
  {
    var n := |specs| - 1;
    if i < n {
      assert Unlike(specs[i], specs[n]);
      ListedIsFound(specs[..n], i);
    }
  }

  lemma SameFieldSameEnv(schema: Schema, r: Record, q: Record)
    requires GoodSpecs(schema.specs) && Proper(schema, r) && Proper(schema, q)
    ensures r.envKey == q.envKey <==> RecordKey(r) == RecordKey(q)
    ensures r.envKey == q.envKey ==> r.(value := q.value) == q
  {
    FoundIsListed(schema.specs, RecordKey(r));
    FoundIsListed(schema.specs, RecordKey(q));
    var a, b := FindSpec(schema.specs, RecordKey(r)).value, FindSpec(schema.specs, RecordKey(q)).value;
    var i :| 0 <= i < |schema.specs| && schema.specs[i] == a;
    var j :| 0 <= j < |schema.specs| && schema.specs[j] == b;
    assert i < j ==> Unlike(a, b);
    assert j < i ==> Unlike(b, a);
  }

  // ----- Lists of records as tables -----

  function RowsOf(rs: seq<Record>): map<string, Record> {
    if rs == [] then map[] else RowsOf(rs[..|rs| - 1])[rs[|rs| - 1].envKey := rs[|rs| - 1]]
  }

  function ByKey(rs: seq<Record>): map<string, Record> {
    if rs == [] then map[] else ByKey(rs[..|rs| - 1])[RecordKey(rs[|rs| - 1]) := rs[|rs| - 1]]
  }

  function Values(rows: map<string, Record>): map<string, Value> {
    map k | k in rows :: rows[k].value
  }

  ghost predicate DistinctEnv(rs: seq<Record>) {
    forall i, j :: 0 <= i < j < |rs| ==> rs[i].envKey != rs[j].envKey
  }

  ghost predicate AllProper(schema: Schema, rs: seq<Record>) {
    forall i :: 0 <= i < |rs| ==> Proper(schema, rs[i])
  }

  lemma {:induction false} RowsAreExact(rs: seq<Record>, k: string, r: Record)
    requires DistinctEnv(rs)
    ensures Get(RowsOf(rs), k) == Some(r) <==> r in rs && r.envKey == k
  {
    if rs != [] {
      var n := |rs| - 1;
      RowsAreExact(rs[..n], k, r);
      assert rs == rs[..n] + [rs[n]];
      assert r in rs[..n] ==> r.envKey != rs[n].envKey;
    }
  }

  lemma {:induction false} KeyedAlike(schema: Schema, rs: seq<Record>, r: Record)
    requires GoodSpecs(schema.specs) && AllProper(schema, rs) && Proper(schema, r)
    ensures Get(ByKey(rs), RecordKey(r)) == Get(RowsOf(rs), r.envKey)
  {
    if rs != [] {
      KeyedAlike(schema, rs[..|rs| - 1], r);
      SameFieldSameEnv(schema, rs[|rs| - 1], r);
    }
  }

  lemma {:induction false} KeyedFrom(rs: seq<Record>, key: string)
    ensures key in ByKey(rs) ==> ByKey(rs)[key] in rs && RecordKey(ByKey(rs)[key]) == key
    ensures (forall i :: 0 <= i < |rs| ==> RecordKey(rs[i]) != key) ==> key !in ByKey(rs)
  {
    if rs != [] {
      KeyedFrom(rs[..|rs| - 1], key);
      assert rs == rs[..|rs| - 1] + [rs[|rs| - 1]];
    }
  }

  lemma {:induction false} RowsFrom(rs: seq<Record>, k: string)
    ensures k in RowsOf(rs) ==> RowsOf(rs)[k] in rs && RowsOf(rs)[k].envKey == k
  {
    if rs != [] {
      RowsFrom(rs[..|rs| - 1], k);
    }
  }

  // ----- Reading -----

  // `getCurrentOverrideRecords`, before it sorts them for display.
  function CurrentRecords(specs: seq<Spec>, overrides: map<string, Value>): seq<Record> {
    if specs == [] then []
    else
      var before, spec := CurrentRecords(specs[..|specs| - 1], overrides), specs[|specs| - 1];
      if spec.envKey in overrides then before + [Built(spec, overrides[spec.envKey])] else before
  }

  function RecordFault(schema: Schema, r: Record): bool {
    var spec := FindSpec(schema.specs, RecordKey(r));
    || spec.None? || !spec.value.editable || r.envKey != spec.value.envKey || r.kind != spec.value.kind
    || !Acceptable(schema, spec.value, r.value)
  }

  ghost predicate Importable(schema: Schema, dto: Dto) {
    && dto.version == VERSION && DistinctEnv(dto.overrides)
    && forall i :: 0 <= i < |dto.overrides| ==> !RecordFault(schema, dto.overrides[i])
  }

  function Rebuilt(schema: Schema, r: Record): Record
    requires !RecordFault(schema, r)
  {
    Built(FindSpec(schema.specs, RecordKey(r)).value, r.value)
  }

  ghost function Imported(schema: Schema, dto: Dto): (rs: seq<Record>)
    requires Importable(schema, dto)
    ensures |rs| == |dto.overrides|
  {
    seq(|dto.overrides|, i requires 0 <= i < |dto.overrides| => Rebuilt(schema, dto.overrides[i]))
  }

  // ----- Writing -----

  datatype Step = Skip | Drop(spec: Spec) | Put(spec: Spec) | Throw

  // What one field of an update does to the table as it stands.
  function StepOf(schema: Schema, s: State, c: Change): Step {
    var spec := FindSpec(schema.specs, KeyOf(c.section, c.field));
    if spec.None? || !spec.value.editable then Skip
    else if c.value == Text("") then if c.dbFails then Throw else Drop(spec.value)
    else if KindOf(c.value) != spec.value.kind || c.value in {NotFinite, Other} then Throw
    else if !UrlFits(schema, spec.value, c.value) then Throw
    else if c.dbFails || spec.value.envKey in s.rows then Throw
    else Put(spec.value)
  }

  function Changed(schema: Schema, s: State, c: Change): State {
    match StepOf(schema, s, c)
    case Skip => s
    case Throw => s
    case Drop(spec) => State(s.overrides - {spec.envKey}, s.rows - {spec.envKey})
    case Put(spec) => State(s.overrides[spec.envKey := c.value], s.rows[spec.envKey := Built(spec, c.value)])
  }

  // The fields of an update, in order, up to the first that throws.
  function Update(schema: Schema, s: State, cs: seq<Change>): (State, bool) {
    if cs == [] then (s, true)
    else
      var (t, ok) := Update(schema, s, cs[..|cs| - 1]);
      if !ok then (t, false)
      else (Changed(schema, t, cs[|cs| - 1]), !StepOf(schema, t, cs[|cs| - 1]).Throw?)
  }

  function KnownKeys(specs: seq<Spec>): set<string> {
    set i | 0 <= i < |specs| :: specs[i].envKey
  }

  ghost function Import(schema: Schema, s: State, dto: Dto, dbFails: bool): (State, bool) {
    if !Importable(schema, dto) || dbFails then (s, false)
    else
      var rows := RowsOf(Imported(schema, dto));
      (State(Values(rows), (s.rows - KnownKeys(schema.specs)) + rows), true)
  }

  datatype Event =
    | DoUpdate(cs: seq<Change>)
    | DoImport(dto: Dto, dbFails: bool)
    | DoReload

  ghost function Apply(schema: Schema, s: State, e: Event): State {
    match e
    case DoUpdate(cs) => Update(schema, s, cs).0
    case DoImport(dto, dbFails) => Import(schema, s, dto, dbFails).0
    case DoReload => s.(overrides := Values(s.rows))
  }

  ghost function After(schema: Schema, es: seq<Event>): State {
    if es == [] then State(map[], map[]) else Apply(schema, After(schema, es[..|es| - 1]), es[|es| - 1])
  }

  // ----- What every call keeps -----

  ghost predicate Stored(schema: Schema, rows: map<string, Record>) {
    forall k :: k in rows ==> Proper(schema, rows[k]) && rows[k].envKey == k
  }

  // Memory and table agree, and every row is one the service would build.
  ghost predicate Inv(schema: Schema, s: State) {
    s.overrides == Values(s.rows) && Stored(schema, s.rows)
  }

  lemma ChangeKeeps(schema: Schema, s: State, c: Change)
    requires GoodSpecs(schema.specs) && Inv(schema, s)
    ensures Inv(schema, Changed(schema, s, c))
  {
    match StepOf(schema, s, c)
    case Put(spec) =>
      PutIsProper(schema, s, c);
      PutKeeps(schema, s.rows, Built(spec, c.value));
    case _ =>
  }

  lemma PutIsProper(schema: Schema, s: State, c: Change)
    requires StepOf(schema, s, c).Put?
    ensures Proper(schema, Built(StepOf(schema, s, c).spec, c.value))
  {
    FoundIsListed(schema.specs, KeyOf(c.section, c.field));
  }

  lemma PutKeeps(schema: Schema, rows: map<string, Record>, r: Record)
    requires Stored(schema, rows) && Proper(schema, r)
    ensures Stored(schema, rows[r.envKey := r])
    ensures Values(rows[r.envKey := r]) == Values(rows)[r.envKey := r.value]
  {
  }

  lemma {:induction false} UpdateKeeps(schema: Schema, s: State, cs: seq<Change>)
    requires GoodSpecs(schema.specs) && Inv(schema, s)
    ensures Inv(schema, Update(schema, s, cs).0)
  {
    if cs != [] {
      UpdateKeeps(schema, s, cs[..|cs| - 1]);
      ChangeKeeps(schema, Update(schema, s, cs[..|cs| - 1]).0, cs[|cs| - 1]);
    }
  }

  lemma ImportedIsProper(schema: Schema, dto: Dto)
    requires Importable(schema, dto)
    ensures AllProper(schema, Imported(schema, dto)) && DistinctEnv(Imported(schema, dto))
  {
    var rs := Imported(schema, dto);
    forall i | 0 <= i < |rs|
      ensures Proper(schema, rs[i]) && rs[i].envKey == dto.overrides[i].envKey
    {
      FoundIsListed(schema.specs, RecordKey(dto.overrides[i]));
    }
  }

  lemma ProperIsKnown(schema: Schema, r: Record)
    requires Proper(schema, r)
    ensures r.envKey in KnownKeys(schema.specs)
  {
    FoundIsListed(schema.specs, RecordKey(r));
  }

  // Nothing but the imported rows is left.
  lemma ImportReplaces(schema: Schema, s: State, dto: Dto)
    requires Inv(schema, s) && Importable(schema, dto)
    ensures var rows := RowsOf(Imported(schema, dto));
            Import(schema, s, dto, false).0 == State(Values(rows), rows) && Stored(schema, rows)
  {
    ImportedIsProper(schema, dto);
    var rs := Imported(schema, dto);
    forall k | k in RowsOf(rs)
      ensures Proper(schema, RowsOf(rs)[k]) && RowsOf(rs)[k].envKey == k
    {
      RowsFrom(rs, k);
    }
    forall k | k in s.rows
      ensures k in KnownKeys(schema.specs)
    {
      ProperIsKnown(schema, s.rows[k]);
    }
    assert s.rows - KnownKeys(schema.specs) == map[];
    assert map[] + RowsOf(rs) == RowsOf(rs);
  }

  /** After any calls from an empty table, whether they succeeded or threw halfway, the overrides
      in memory are the stored rows, and every row is one an import would accept. */
  lemma {:induction false} EveryRun(schema: Schema, es: seq<Event>)
    requires GoodSpecs(schema.specs)
    ensures Inv(schema, After(schema, es))
    decreases |es|
  {
    if es != [] {
      var past := es[..|es| - 1];
      EveryRun(schema, past);
      var s := After(schema, past);
      match es[|es| - 1]
      case DoUpdate(cs) => UpdateKeeps(schema, s, cs);
      case DoImport(dto, dbFails) =>
        if Importable(schema, dto) {
          ImportReplaces(schema, s, dto);
        }
      case DoReload =>
    }
  }

  // A text that is not white space only.
  predicate Visible(s: string) {
    exists i :: 0 <= i < |s| && !IsSpace(s[i])
  }

  // A value that a field of this kind takes: finite, not empty and, for the two URL fields, a URL.
  predicate Suits(schema: Schema, spec: Spec, v: Value) {
    match v
    case Text(s) =>
      && spec.kind == StringKind && |s| > 0
      && ((spec.field == "apiBaseUrl" || spec.field == "defaultBaseUrl") && Visible(s) ==> schema.isUrl(s))
    case Number(_) => spec.kind == NumberKind
    case Flag(_) => spec.kind == BooleanKind
    case _ => false
  }

  lemma AcceptableExactly(schema: Schema, spec: Spec, v: Value)
    ensures Acceptable(schema, spec, v) <==> Suits(schema, spec, v)
  {
    if v.Text? {
      assert Blank(v.text) <==> !Visible(v.text);
    }
  }

  /** An editable field given a value throws exactly when the value is of the wrong kind, not
      finite or not a URL, the database fails, or the field is overridden already: a stored
      override cannot be updated, only removed or imported over. */
  lemma UpdateFieldExactly(schema: Schema, s: State, i: nat, v: Value, dbFails: bool)
    requires GoodSpecs(schema.specs) && Inv(schema, s) && i < |schema.specs| && schema.specs[i].editable && v != Text("")
    ensures var spec := schema.specs[i];
            var (t, ok) := Update(schema, s, [Change(spec.section, spec.field, v, dbFails)]);
            && (ok <==> Suits(schema, spec, v) && !dbFails && spec.envKey !in s.overrides)
            && (ok ==> t.overrides == s.overrides[spec.envKey := v])
            && (!ok ==> t == s)
  {
    AcceptableExactly(schema, schema.specs[i], v);
    ListedIsFound(schema.specs, i);
    OneChange(schema, s, Change(schema.specs[i].section, schema.specs[i].field, v, dbFails));
  }

  const LEVEL := Spec("LOG_LEVEL", "logging", "level", StringKind, false, true)
  const BASE_URL := Spec("API_BASE_URL", "runtime", "apiBaseUrl", StringKind, false, true)

  lemma TwoFieldsAreGood()
    ensures GoodSpecs([LEVEL, BASE_URL])
  {
    assert SpecKey(LEVEL)[0] == 'l' && SpecKey(BASE_URL)[0] == 'r';
    assert LEVEL.envKey[0] == 'L' && BASE_URL.envKey[0] == 'A';
  }

  lemma OneChange(schema: Schema, s: State, c: Change)
    ensures Update(schema, s, [c]) == (Changed(schema, s, c), !StepOf(schema, s, c).Throw?)
  {
    assert [c][..0] == [];
    assert Update(schema, s, [c][..0]) == (s, true);
  }

  /** It does happen: two updates of one field, each with a good value and a working database. The
      second throws, and what the first stored stays. */
  lemma SecondUpdateThrows(isUrl: string -> bool) returns (schema: Schema, es: seq<Event>)
    ensures schema == Schema([LEVEL, BASE_URL], isUrl) && GoodSpecs(schema.specs) && Acceptable(schema, LEVEL, Text("warn"))
    ensures es == [DoUpdate([Change("logging", "level", Text("debug"), false)]),
                   DoUpdate([Change("logging", "level", Text("warn"), false)])]
    ensures Update(schema, After(schema, []), es[0].cs).1 && !Update(schema, After(schema, es[..1]), es[1].cs).1
    ensures After(schema, es).overrides == map["LOG_LEVEL" := Text("debug")]
  {
    schema := Schema([LEVEL, BASE_URL], isUrl);
    TwoFieldsAreGood();
    var first, second := Change("logging", "level", Text("debug"), false), Change("logging", "level", Text("warn"), false);
    es := [DoUpdate([first]), DoUpdate([second])];
    assert es[..1][..0] == [] && es[..1] == [es[0]] && es[..2] == es;
    ListedIsFound(schema.specs, 0);
    assert schema.specs[0] == LEVEL && SpecKey(LEVEL) == KeyOf("logging", "level");
    OneChange(schema, After(schema, []), first);
    assert After(schema, es[..1]) == Changed(schema, After(schema, []), first);
    OneChange(schema, After(schema, es[..1]), second);
    assert After(schema, es) == Changed(schema, After(schema, es[..1]), second);
  }

  /** An empty text removes the override; a field that is unknown or not editable is passed over. */
  lemma ClearFieldExactly(schema: Schema, s: State, i: nat, dbFails: bool)
    requires GoodSpecs(schema.specs) && Inv(schema, s) && i < |schema.specs|
    ensures var spec := schema.specs[i];
            var (t, ok) := Update(schema, s, [Change(spec.section, spec.field, Text(""), dbFails)]);
            && (ok <==> !spec.editable || !dbFails)
            && t.overrides == (if spec.editable && !dbFails then s.overrides - {spec.envKey} else s.overrides)
  {
    ListedIsFound(schema.specs, i);
    OneChange(schema, s, Change(schema.specs[i].section, schema.specs[i].field, Text(""), dbFails));
  }

  // ----- Import -----

  // The record is for field j, which is editable, and says of it what the field table says.
  predicate IsFor(schema: Schema, r: Record, j: nat)
    requires j < |schema.specs|
  {
    var spec := schema.specs[j];
    && spec.section + "." + spec.field == r.section + "." + r.field && spec.editable
    && r.envKey == spec.envKey && r.kind == spec.kind && Suits(schema, spec, r.value)
  }

  ghost predicate IsForSome(schema: Schema, r: Record) {
    exists j :: 0 <= j < |schema.specs| && IsFor(schema, r, j)
  }

  lemma FaultExactly(schema: Schema, r: Record)
    requires GoodSpecs(schema.specs)
    ensures !RecordFault(schema, r) <==> IsForSome(schema, r)
  {
    var found := FindSpec(schema.specs, RecordKey(r));
    FoundIsListed(schema.specs, RecordKey(r));
    if found.Some? {
      AcceptableExactly(schema, found.value, r.value);
      var k :| 0 <= k < |schema.specs| && schema.specs[k] == found.value;
      assert !RecordFault(schema, r) ==> IsFor(schema, r, k);
    }
    if j :| 0 <= j < |schema.specs| && IsFor(schema, r, j) {
      ListedIsFound(schema.specs, j);
    }
  }

  /** An import is accepted if and only if its version is the known one, every record is for an editable
      field as the field table has it, with a value that suits, no two are for one variable, and the
      database works. Memory then holds exactly the values imported; otherwise nothing changes. */
  lemma ImportExactly(schema: Schema, s: State, dto: Dto, dbFails: bool)
    requires GoodSpecs(schema.specs)
    ensures var (t, ok) := Import(schema, s, dto, dbFails); var rs := dto.overrides;
            && (ok <==>
                  && dto.version == "config-overrides/v1" && !dbFails
                  && (forall i :: 0 <= i < |rs| ==> IsForSome(schema, rs[i]))
                  && (forall i, j :: 0 <= i < j < |rs| ==> rs[i].envKey != rs[j].envKey))
            && (ok ==>
                  && (forall i :: 0 <= i < |rs| ==> Get(t.overrides, rs[i].envKey) == Some(rs[i].value))
                  && (forall k :: k in t.overrides ==> exists i :: 0 <= i < |rs| && rs[i].envKey == k))
            && (!ok ==> t == s)
  {
    forall i | 0 <= i < |dto.overrides|
      ensures !RecordFault(schema, dto.overrides[i]) <==> IsForSome(schema, dto.overrides[i])
    {
      FaultExactly(schema, dto.overrides[i]);
    }
    if Importable(schema, dto) {
      ImportedValues(schema, dto);
    }
  }

  lemma ImportedValues(schema: Schema, dto: Dto)
    requires Importable(schema, dto)
    ensures var values := Values(RowsOf(Imported(schema, dto)));
            && (forall i :: 0 <= i < |dto.overrides| ==> Get(values, dto.overrides[i].envKey) == Some(dto.overrides[i].value))
            && (forall k :: k in values ==> exists i :: 0 <= i < |dto.overrides| && dto.overrides[i].envKey == k)
  {
    var rs := Imported(schema, dto);
    forall i | 0 <= i < |rs|
      ensures rs[i].envKey == dto.overrides[i].envKey && rs[i].value == dto.overrides[i].value
    {
      assert !RecordFault(schema, dto.overrides[i]);
    }
    forall i | 0 <= i < |rs|
      ensures Get(Values(RowsOf(rs)), rs[i].envKey) == Some(rs[i].value)
    {
      RowsAreExact(rs, rs[i].envKey, rs[i]);
    }
    forall k | k in Values(RowsOf(rs))
      ensures exists i :: 0 <= i < |rs| && rs[i].envKey == k
    {
      RowsFrom(rs, k);
    }
  }

  // ----- Export -----

  lemma {:induction false} CurrentIsExact(specs: seq<Spec>, overrides: map<string, Value>)
    requires GoodSpecs(specs)
    ensures DistinctEnv(CurrentRecords(specs, overrides))
    ensures forall r :: r in CurrentRecords(specs, overrides) <==>
              exists i :: 0 <= i < |specs| && specs[i].envKey in overrides && r == Built(specs[i], overrides[specs[i].envKey])
  {
    if specs != [] {
      var n := |specs| - 1;
      CurrentIsExact(specs[..n], overrides);
      var before, now := CurrentRecords(specs[..n], overrides), CurrentRecords(specs, overrides);
      forall i | 0 <= i < |before|
        ensures before[i].envKey != specs[n].envKey
      {
        assert before[i] in before;
        var j :| 0 <= j < n && specs[j].envKey in overrides && before[i] == Built(specs[j], overrides[specs[j].envKey]);
        assert Unlike(specs[j], specs[n]);
      }
      assert forall r :: r in now <==> r in before || (specs[n].envKey in overrides && r == Built(specs[n], overrides[specs[n].envKey]));
      assert forall i :: 0 <= i < n ==> specs[..n][i] == specs[i];
    }
  }

  lemma OneFieldPerVariable(specs: seq<Spec>)
    requires GoodSpecs(specs)
    ensures forall i, j :: 0 <= i < |specs| && 0 <= j < |specs| && specs[i].envKey == specs[j].envKey ==> i == j
  {
    forall i, j | 0 <= i < |specs| && 0 <= j < |specs| && i != j
      ensures specs[i].envKey != specs[j].envKey
    {
      if i < j {
        assert Unlike(specs[i], specs[j]);
      } else {
        assert Unlike(specs[j], specs[i]);
      }
    }
  }

  // In a reachable state the current records are exactly the rows.
  lemma CurrentIsStored(schema: Schema, s: State, r: Record)
    requires GoodSpecs(schema.specs) && Inv(schema, s)
    ensures r in CurrentRecords(schema.specs, s.overrides) <==> Get(s.rows, r.envKey) == Some(r)
  {
    CurrentIsExact(schema.specs, s.overrides);
    if r in CurrentRecords(schema.specs, s.overrides) {
      var i :| 0 <= i < |schema.specs| && schema.specs[i].envKey in s.overrides
               && r == Built(schema.specs[i], s.overrides[schema.specs[i].envKey]);
      ListedIsFound(schema.specs, i);
      var q := s.rows[r.envKey];
      FoundIsListed(schema.specs, RecordKey(q));
      var j :| 0 <= j < |schema.specs| && schema.specs[j] == FindSpec(schema.specs, RecordKey(q)).value;
      OneFieldPerVariable(schema.specs);
    }
    if Get(s.rows, r.envKey) == Some(r) {
      FoundIsListed(schema.specs, RecordKey(r));
      var i :| 0 <= i < |schema.specs| && schema.specs[i] == FindSpec(schema.specs, RecordKey(r)).value;
      assert r == Built(schema.specs[i], s.overrides[schema.specs[i].envKey]);
    }
  }

  lemma SameMembersSameRows(a: seq<Record>, b: seq<Record>)
    requires DistinctEnv(a) && DistinctEnv(b) && forall r :: r in a <==> r in b
    ensures RowsOf(a) == RowsOf(b)
  {
    forall k
      ensures Get(RowsOf(a), k) == Get(RowsOf(b), k)
    {
      if k in RowsOf(a) {
        RowsAreExact(a, k, RowsOf(a)[k]);
        RowsAreExact(b, k, RowsOf(a)[k]);
      } else if k in RowsOf(b) {
        RowsAreExact(a, k, RowsOf(b)[k]);
        RowsAreExact(b, k, RowsOf(b)[k]);
      }
    }
    SameGetSameMap(RowsOf(a), RowsOf(b));
  }

  lemma SameGetSameMap<V>(m: map<string, V>, n: map<string, V>)
    requires forall k :: Get(m, k) == Get(n, k)
    ensures m == n
  {
    forall k
      ensures k in m <==> k in n
      ensures k in m && k in n ==> m[k] == n[k]
    {
      assert Get(m, k) == Get(n, k);
    }
  }

  lemma CurrentRowsAreRows(schema: Schema, s: State)
    requires GoodSpecs(schema.specs) && Inv(schema, s)
    ensures RowsOf(CurrentRecords(schema.specs, s.overrides)) == s.rows
    ensures AllProper(schema, CurrentRecords(schema.specs, s.overrides))
    ensures DistinctEnv(CurrentRecords(schema.specs, s.overrides))
  {
    var rs := CurrentRecords(schema.specs, s.overrides);
    CurrentIsExact(schema.specs, s.overrides);
    forall k
      ensures Get(RowsOf(rs), k) == Get(s.rows, k)
    {
      RowsFrom(rs, k);
      if k in RowsOf(rs) {
        CurrentIsStored(schema, s, RowsOf(rs)[k]);
      } else if k in s.rows {
        CurrentIsStored(schema, s, s.rows[k]);
        RowsAreExact(rs, k, s.rows[k]);
      }
    }
    SameGetSameMap(RowsOf(rs), s.rows);
    forall i | 0 <= i < |rs|
      ensures Proper(schema, rs[i])
    {
      assert rs[i] in rs;
      CurrentIsStored(schema, s, rs[i]);
    }
  }

  // The exported list in whatever order it is sorted.
  ghost predicate Exports(schema: Schema, s: State, rs: seq<Record>) {
    DistinctEnv(rs) && forall r :: r in rs <==> r in CurrentRecords(schema.specs, s.overrides)
  }

  lemma ExportIsImportable(schema: Schema, s: State, rs: seq<Record>)
    requires GoodSpecs(schema.specs) && Inv(schema, s) && Exports(schema, s, rs)
    ensures Importable(schema, Dto(VERSION, rs)) && Imported(schema, Dto(VERSION, rs)) == rs
  {
    CurrentRowsAreRows(schema, s);
    var now := CurrentRecords(schema.specs, s.overrides);
    forall i | 0 <= i < |rs|
      ensures !RecordFault(schema, rs[i]) && Rebuilt(schema, rs[i]) == rs[i]
    {
      assert rs[i] in rs;
      var j :| 0 <= j < |now| && now[j] == rs[i];
      assert Proper(schema, now[j]);
    }
  }

  /** Whatever calls led to one state and to another, the export of the first is accepted in the
      second and makes it, rows and overrides, the first. */
  lemma ExportReproduces(schema: Schema, es: seq<Event>, other: seq<Event>, rs: seq<Record>)
    requires GoodSpecs(schema.specs) && Exports(schema, After(schema, es), rs)
    ensures Import(schema, After(schema, other), Dto(VERSION, rs), false) == (After(schema, es), true)
  {
    var s, t := After(schema, es), After(schema, other);
    EveryRun(schema, es);
    EveryRun(schema, other);
    ExportIsImportable(schema, s, rs);
    ImportReplaces(schema, t, Dto(VERSION, rs));
    CurrentRowsAreRows(schema, s);
    SameMembersSameRows(rs, CurrentRecords(schema.specs, s.overrides));
  }

  // ----- Preview -----

  // The keys of a list, in order of first appearance.
  function KeysOf(rs: seq<Record>): seq<string> {
    if rs == [] then []
    else
      var before, key := KeysOf(rs[..|rs| - 1]), RecordKey(rs[|rs| - 1]);
      if key in before then before else before + [key]
  }

  function ValueAt(m: map<string, Record>, key: string): Option<Value> {
    if key in m then Some(m[key].value) else None
  }

  function ConflictsOf(cur: map<string, Record>, inc: map<string, Record>, keys: seq<string>): seq<Conflict> {
    if keys == [] then []
    else
      var before, key := ConflictsOf(cur, inc, keys[..|keys| - 1]), keys[|keys| - 1];
      if ValueAt(cur, key) == ValueAt(inc, key) then before
      else before + [Conflict(key, ValueAt(cur, key), ValueAt(inc, key))]
  }

  predicate NeedsRestart(m: map<string, Record>, key: string) {
    key in m && m[key].restart
  }

  function RestartOf(cur: map<string, Record>, inc: map<string, Record>, keys: seq<string>): set<string> {
    if keys == [] then {}
    else
      var before, key := RestartOf(cur, inc, keys[..|keys| - 1]), keys[|keys| - 1];
      if ValueAt(cur, key) != ValueAt(inc, key) && (NeedsRestart(cur, key) || NeedsRestart(inc, key)) then before + {key}
      else before
  }

  // What an import finds out on its own, from environment keys.
  function ImportRestart(cur: map<string, Record>, inc: map<string, Record>, rs: seq<Record>): set<string> {
    if rs == [] then {}
    else
      var before, r := ImportRestart(cur, inc, rs[..|rs| - 1]), rs[|rs| - 1];
      if r.restart && ValueAt(cur, r.envKey) != ValueAt(inc, r.envKey) then before + {RecordKey(r)} else before
  }

  // Makes the changes a preview announces.
  function Patched(schema: Schema, overrides: map<string, Value>, cs: seq<Conflict>): map<string, Value> {
    if cs == [] then overrides
    else
      PatchedOne(schema, Patched(schema, overrides, cs[..|cs| - 1]), cs[|cs| - 1])
  }

  function PatchedOne(schema: Schema, overrides: map<string, Value>, c: Conflict): map<string, Value> {
    var spec := FindSpec(schema.specs, c.key);
    if spec.None? then overrides
    else if c.incoming.Some? then overrides[spec.value.envKey := c.incoming.value]
    else overrides - {spec.value.envKey}
  }

  lemma PatchedOneAt(schema: Schema, overrides: map<string, Value>, c: Conflict, envKey: string)
    ensures Get(PatchedOne(schema, overrides, c), envKey) == if Stands(schema, c.key, envKey) then c.incoming else Get(overrides, envKey)
  {
  }

  lemma PatchedNext(schema: Schema, overrides: map<string, Value>, cur: map<string, Record>,
                                       inc: map<string, Record>, keys: seq<string>)
    requires keys != []
    ensures var key, before := keys[|keys| - 1], Patched(schema, overrides, ConflictsOf(cur, inc, keys[..|keys| - 1]));
            Patched(schema, overrides, ConflictsOf(cur, inc, keys))
            == if ValueAt(cur, key) == ValueAt(inc, key) then before
               else PatchedOne(schema, before, Conflict(key, ValueAt(cur, key), ValueAt(inc, key)))
  {
    var front, key, cs := keys[..|keys| - 1], keys[|keys| - 1], ConflictsOf(cur, inc, keys);
    if ValueAt(cur, key) != ValueAt(inc, key) {
      assert cs[..|cs| - 1] == ConflictsOf(cur, inc, front);
    }
  }

  lemma {:induction false} KeysAreExact(rs: seq<Record>)
    ensures forall key :: key in KeysOf(rs) <==> exists i :: 0 <= i < |rs| && RecordKey(rs[i]) == key
  {
    if rs != [] {
      var n := |rs| - 1;
      KeysAreExact(rs[..n]);
      forall key
        ensures key in KeysOf(rs) <==> exists i :: 0 <= i < |rs| && RecordKey(rs[i]) == key
      {
        if key in KeysOf(rs[..n]) {
          var i :| 0 <= i < n && RecordKey(rs[..n][i]) == key;
          assert RecordKey(rs[i]) == key;
        } else {
          assert forall i :: 0 <= i < n ==> RecordKey(rs[..n][i]) != key && rs[..n][i] == rs[i];
        }
      }
    }
  }

  // The environment key a preview's key stands for.
  ghost predicate Stands(schema: Schema, key: string, envKey: string) {
    FindSpec(schema.specs, key).Some? && FindSpec(schema.specs, key).value.envKey == envKey
  }

  lemma OneKeyEach(schema: Schema, a: string, b: string, envKey: string)
    requires GoodSpecs(schema.specs) && Stands(schema, a, envKey) && Stands(schema, b, envKey)
    ensures a == b
  {
    FoundIsListed(schema.specs, a);
    FoundIsListed(schema.specs, b);
    var i :| 0 <= i < |schema.specs| && schema.specs[i] == FindSpec(schema.specs, a).value;
    var j :| 0 <= j < |schema.specs| && schema.specs[j] == FindSpec(schema.specs, b).value;
    assert i < j ==> Unlike(schema.specs[i], schema.specs[j]);
    assert j < i ==> Unlike(schema.specs[j], schema.specs[i]);
  }

  // Patching touches an environment key only through its own field, and then sets what is incoming.
  lemma {:induction false} PatchedAt(schema: Schema, overrides: map<string, Value>, cur: map<string, Record>,
                                     inc: map<string, Record>, keys: seq<string>, key: string, envKey: string)
    requires GoodSpecs(schema.specs) && Stands(schema, key, envKey)
    ensures Get(Patched(schema, overrides, ConflictsOf(cur, inc, keys)), envKey)
         == if key in keys && ValueAt(cur, key) != ValueAt(inc, key) then ValueAt(inc, key) else Get(overrides, envKey)
  {
    if keys != [] {
      var front, last := keys[..|keys| - 1], keys[|keys| - 1];
      PatchedAt(schema, overrides, cur, inc, front, key, envKey);
      assert keys == front + [last];
      PatchedNext(schema, overrides, cur, inc, keys);
      PatchedOneAt(schema, Patched(schema, overrides, ConflictsOf(cur, inc, front)),
                   Conflict(last, ValueAt(cur, last), ValueAt(inc, last)), envKey);
      if Stands(schema, last, envKey) {
        OneKeyEach(schema, key, last, envKey);
      }
    }
  }

  lemma {:induction false} PatchedElsewhere(schema: Schema, overrides: map<string, Value>, cs: seq<Conflict>, envKey: string)
    requires forall key :: !Stands(schema, key, envKey)
    ensures Get(Patched(schema, overrides, cs), envKey) == Get(overrides, envKey)
  {
    if cs != [] {
      PatchedElsewhere(schema, overrides, cs[..|cs| - 1], envKey);
      assert !Stands(schema, cs[|cs| - 1].key, envKey);
    }
  }

  // A list the service built holds under a field what it holds under the field's environment key.
  lemma FieldHolds(schema: Schema, rs: seq<Record>, key: string, envKey: string)
    requires GoodSpecs(schema.specs) && AllProper(schema, rs) && Stands(schema, key, envKey)
    ensures Get(ByKey(rs), key) == Get(RowsOf(rs), envKey)
    ensures key in ByKey(rs) <==> exists i :: 0 <= i < |rs| && RecordKey(rs[i]) == key
  {
    KeyedFrom(rs, key);
    RowsFrom(rs, envKey);
    if key in ByKey(rs) {
      var r := ByKey(rs)[key];
      var i :| 0 <= i < |rs| && rs[i] == r;
      assert Proper(schema, rs[i]);
      KeyedAlike(schema, rs, r);
    } else if envKey in RowsOf(rs) {
      var r := RowsOf(rs)[envKey];
      var i :| 0 <= i < |rs| && rs[i] == r;
      assert Proper(schema, rs[i]);
      OneKeyEach(schema, key, RecordKey(r), envKey);
      KeyedAlike(schema, rs, r);
    }
    if exists i :: 0 <= i < |rs| && RecordKey(rs[i]) == key {
      var i :| 0 <= i < |rs| && RecordKey(rs[i]) == key;
      assert Proper(schema, rs[i]);
      KeyedAlike(schema, rs, rs[i]);
      InRows(rs, i);
    }
  }

  lemma {:induction false} InRows(rs: seq<Record>, i: nat)
    requires i < |rs|
    ensures rs[i].envKey in RowsOf(rs)
  {
    if i < |rs| - 1 {
      InRows(rs[..|rs| - 1], i);
    }
  }

  lemma StandsOrNot(schema: Schema, rs: seq<Record>, envKey: string)
    requires AllProper(schema, rs) && envKey in RowsOf(rs)
    ensures Stands(schema, RecordKey(RowsOf(rs)[envKey]), envKey)
  {
    RowsFrom(rs, envKey);
    var i :| 0 <= i < |rs| && rs[i] == RowsOf(rs)[envKey];
    assert Proper(schema, rs[i]);
  }

  lemma {:induction false} RestartAt(cur: map<string, Record>, inc: map<string, Record>, keys: seq<string>, key: string)
    ensures key in RestartOf(cur, inc, keys) <==>
            key in keys && ValueAt(cur, key) != ValueAt(inc, key) && (NeedsRestart(cur, key) || NeedsRestart(inc, key))
  {
    if keys != [] {
      RestartAt(cur, inc, keys[..|keys| - 1], key);
      assert keys == keys[..|keys| - 1] + [keys[|keys| - 1]];
    }
  }

  ghost predicate RestartsAs(cur: map<string, Record>, inc: map<string, Record>, r: Record, key: string) {
    r.restart && RecordKey(r) == key && ValueAt(cur, r.envKey) != ValueAt(inc, r.envKey)
  }

  lemma {:induction false} ImportRestartAt(cur: map<string, Record>, inc: map<string, Record>, rs: seq<Record>, key: string)
    ensures key in ImportRestart(cur, inc, rs) <==> exists i :: 0 <= i < |rs| && RestartsAs(cur, inc, rs[i], key)
  {
    if rs != [] {
      var n := |rs| - 1;
      ImportRestartAt(cur, inc, rs[..n], key);
      assert forall i :: 0 <= i < n ==> rs[..n][i] == rs[i];
      if key in ImportRestart(cur, inc, rs[..n]) {
        var i :| 0 <= i < n && RestartsAs(cur, inc, rs[..n][i], key);
        assert RestartsAs(cur, inc, rs[i], key);
      }
    }
  }

  ghost predicate Both(schema: Schema, now: seq<Record>, coming: seq<Record>) {
    GoodSpecs(schema.specs) && AllProper(schema, now) && AllProper(schema, coming)
  }

  lemma PatchIsIncoming(schema: Schema, overrides: map<string, Value>, now: seq<Record>, coming: seq<Record>, envKey: string)
    requires Both(schema, now, coming) && overrides == Values(RowsOf(now))
    ensures var cs := ConflictsOf(ByKey(now), ByKey(coming), KeysOf(now + coming));
            Get(Patched(schema, overrides, cs), envKey) == Get(Values(RowsOf(coming)), envKey)
  {
    var cur, inc, keys := ByKey(now), ByKey(coming), KeysOf(now + coming);
    if key :| Stands(schema, key, envKey) {
      PatchedAt(schema, overrides, cur, inc, keys, key, envKey);
      FieldHolds(schema, now, key, envKey);
      FieldHolds(schema, coming, key, envKey);
      KeysAreExact(now + coming);
      if key in cur {
        var i :| 0 <= i < |now| && RecordKey(now[i]) == key;
        assert (now + coming)[i] == now[i];
      }
      if key in inc {
        var i :| 0 <= i < |coming| && RecordKey(coming[i]) == key;
        assert (now + coming)[|now| + i] == coming[i];
      }
    } else {
      PatchedElsewhere(schema, overrides, ConflictsOf(cur, inc, keys), envKey);
      if envKey in RowsOf(now) {
        StandsOrNot(schema, now, envKey);
      }
      if envKey in RowsOf(coming) {
        StandsOrNot(schema, coming, envKey);
      }
    }
  }

  lemma ProperStands(schema: Schema, r: Record)
    requires Proper(schema, r)
    ensures Stands(schema, RecordKey(r), r.envKey)
  {
  }

  // The record found under a key is as due for a restart as any other record of that field.
  lemma RestartAgrees(schema: Schema, now: seq<Record>, coming: seq<Record>, key: string)
    requires Both(schema, now, coming)
    ensures key in RestartOf(ByKey(now), ByKey(coming), KeysOf(now + coming))
       <==> key in ImportRestart(RowsOf(now), RowsOf(coming), now + coming)
  {
    var cur, inc, keys, all := ByKey(now), ByKey(coming), KeysOf(now + coming), now + coming;
    RestartAt(cur, inc, keys, key);
    ImportRestartAt(RowsOf(now), RowsOf(coming), all, key);
    KeysAreExact(all);
    KeyedFrom(now, key);
    KeyedFrom(coming, key);
    if i :| 0 <= i < |all| && RecordKey(all[i]) == key {
      var r := all[i];
      assert Proper(schema, r) by {
        assert i < |now| ==> r == now[i];
        assert i >= |now| ==> r == coming[i - |now|];
      }
      ProperStands(schema, r);
      FieldHolds(schema, now, key, r.envKey);
      FieldHolds(schema, coming, key, r.envKey);
      assert i < |now| ==> RecordKey(now[i]) == key;
      assert i >= |now| ==> RecordKey(coming[i - |now|]) == key;
      SameRestart(schema, now, r, key);
      SameRestart(schema, coming, r, key);
      forall j | 0 <= j < |all| && RecordKey(all[j]) == key
        ensures all[j].restart == r.restart && all[j].envKey == r.envKey
      {
        assert j < |now| ==> Proper(schema, now[j]);
        assert j >= |now| ==> Proper(schema, coming[j - |now|]);
        SameFieldSameEnv(schema, r, all[j]);
      }
    }
  }

  lemma SameRestart(schema: Schema, rs: seq<Record>, r: Record, key: string)
    requires GoodSpecs(schema.specs) && AllProper(schema, rs) && Proper(schema, r) && RecordKey(r) == key
    ensures key in ByKey(rs) ==> ByKey(rs)[key].restart == r.restart
  {
    KeyedFrom(rs, key);
    if key in ByKey(rs) {
      var i :| 0 <= i < |rs| && rs[i] == ByKey(rs)[key];
      assert Proper(schema, rs[i]);
      SameFieldSameEnv(schema, r, rs[i]);
    }
  }

  /** In every reachable state a preview tells the truth: its conflicts, applied to the overrides
      of now, give exactly what the import leaves, and both name the same restarts. */
  lemma PreviewIsImport(schema: Schema, es: seq<Event>, dto: Dto)
    requires GoodSpecs(schema.specs) && Importable(schema, dto)
    ensures var s := After(schema, es);
            var now, coming := CurrentRecords(schema.specs, s.overrides), Imported(schema, dto);
            && Patched(schema, s.overrides, ConflictsOf(ByKey(now), ByKey(coming), KeysOf(now + coming)))
               == Import(schema, s, dto, false).0.overrides
            && RestartOf(ByKey(now), ByKey(coming), KeysOf(now + coming))
               == ImportRestart(RowsOf(now), RowsOf(coming), now + coming)
  {
    var s := After(schema, es);
    var now, coming := CurrentRecords(schema.specs, s.overrides), Imported(schema, dto);
    EveryRun(schema, es);
    CurrentRowsAreRows(schema, s);
    ImportedIsProper(schema, dto);
    ImportReplaces(schema, s, dto);
    var patched := Patched(schema, s.overrides, ConflictsOf(ByKey(now), ByKey(coming), KeysOf(now + coming)));
    forall k
      ensures Get(patched, k) == Get(Values(RowsOf(coming)), k)
    {
      PatchIsIncoming(schema, s.overrides, now, coming, k);
    }
    SameGetSameMap(patched, Values(RowsOf(coming)));
    forall key
      ensures key in RestartOf(ByKey(now), ByKey(coming), KeysOf(now + coming))
         <==> key in ImportRestart(RowsOf(now), RowsOf(coming), now + coming)
    {
      RestartAgrees(schema, now, coming, key);
    }
  }

  // Field j needs a restart, and its override differs between the two.
  predicate Disturbs(specs: seq<Spec>, before: map<string, Value>, after: map<string, Value>, j: nat, key: string)
    requires j < |specs|
  {
    && specs[j].restart && specs[j].section + "." + specs[j].field == key
    && Get(before, specs[j].envKey) != Get(after, specs[j].envKey)
  }

  lemma ProperIsOf(schema: Schema, r: Record, j: nat)
    requires GoodSpecs(schema.specs) && Proper(schema, r) && j < |schema.specs| && schema.specs[j].envKey == r.envKey
    ensures RecordKey(r) == SpecKey(schema.specs[j]) && r.restart == schema.specs[j].restart
  {
    FoundIsListed(schema.specs, RecordKey(r));
    OneFieldPerVariable(schema.specs);
  }

  lemma ProperHasField(schema: Schema, r: Record) returns (j: nat)
    requires Proper(schema, r)
    ensures j < |schema.specs| && schema.specs[j].envKey == r.envKey && SpecKey(schema.specs[j]) == RecordKey(r)
    ensures schema.specs[j].restart == r.restart
  {
    FoundIsListed(schema.specs, RecordKey(r));
    j :| 0 <= j < |schema.specs| && schema.specs[j] == FindSpec(schema.specs, RecordKey(r)).value;
  }

  lemma RestartsExactly(schema: Schema, now: seq<Record>, coming: seq<Record>, key: string)
    requires Both(schema, now, coming)
    ensures key in ImportRestart(RowsOf(now), RowsOf(coming), now + coming) <==>
            exists j :: 0 <= j < |schema.specs| && Disturbs(schema.specs, Values(RowsOf(now)), Values(RowsOf(coming)), j, key)
  {
    var cur, inc, all := RowsOf(now), RowsOf(coming), now + coming;
    ImportRestartAt(cur, inc, all, key);
    if i :| 0 <= i < |all| && RestartsAs(cur, inc, all[i], key) {
      assert Proper(schema, all[i]) by {
        assert i < |now| ==> all[i] == now[i];
        assert i >= |now| ==> all[i] == coming[i - |now|];
      }
      var j := ProperHasField(schema, all[i]);
      assert Disturbs(schema.specs, Values(cur), Values(inc), j, key);
    }
    if j :| 0 <= j < |schema.specs| && Disturbs(schema.specs, Values(cur), Values(inc), j, key) {
      var i := SomeRecord(now, coming, schema.specs[j].envKey);
      assert Proper(schema, all[i]) by {
        assert i < |now| ==> all[i] == now[i];
        assert i >= |now| ==> all[i] == coming[i - |now|];
      }
      ProperIsOf(schema, all[i], j);
      assert RestartsAs(cur, inc, all[i], key);
    }
  }

  // A variable that one of the lists sets has a record in them.
  lemma SomeRecord(now: seq<Record>, coming: seq<Record>, envKey: string) returns (i: nat)
    requires envKey in RowsOf(now) || envKey in RowsOf(coming)
    ensures i < |now + coming| && (now + coming)[i].envKey == envKey
  {
    RowsFrom(now, envKey);
    RowsFrom(coming, envKey);
    if envKey in RowsOf(now) {
      i :| 0 <= i < |now| && now[i] == RowsOf(now)[envKey];
      assert (now + coming)[i] == now[i];
    } else {
      var k :| 0 <= k < |coming| && coming[k] == RowsOf(coming)[envKey];
      i := |now| + k;
      assert (now + coming)[i] == coming[k];
    }
  }

  /** In every reachable state an import names for restart exactly the fields that need one and whose
      override it adds, removes or changes. */
  lemma ImportRestartsExactly(schema: Schema, es: seq<Event>, dto: Dto, key: string)
    requires GoodSpecs(schema.specs) && Importable(schema, dto)
    ensures var s := After(schema, es); var t := Import(schema, s, dto, false).0;
            var now, coming := CurrentRecords(schema.specs, s.overrides), Imported(schema, dto);
            key in ImportRestart(RowsOf(now), RowsOf(coming), now + coming) <==>
            exists j :: 0 <= j < |schema.specs| && Disturbs(schema.specs, s.overrides, t.overrides, j, key)
  {
    var s := After(schema, es);
    EveryRun(schema, es);
    CurrentRowsAreRows(schema, s);
    ImportedIsProper(schema, dto);
    RestartsExactly(schema, CurrentRecords(schema.specs, s.overrides), Imported(schema, dto), key);
  }

  class ConfigService {
    const schema: Schema
    var overrides: map<string, Value>
    var rows: map<string, Record>

    function View(): State
      reads this
    {
      State(overrides, rows)
    }

    constructor (schema: Schema)
      ensures View() == State(map[], map[]) && this.schema == schema
    {
      this.schema := schema;
      overrides, rows := map[], map[];
    }

    method Reload()
      modifies this
      ensures View() == old(View()).(overrides := Values(old(rows)))
    {
      overrides := map k | k in rows :: rows[k].value;
    }

    method Records() returns (rs: seq<Record>)
      ensures rs == CurrentRecords(schema.specs, overrides)
    {
      rs := [];
      for i := 0 to |schema.specs|
        invariant rs == CurrentRecords(schema.specs[..i], overrides)
      {
        var spec := schema.specs[i];
        assert schema.specs[..i + 1][..i] == schema.specs[..i];
        if spec.envKey in overrides {
          rs := rs + [Built(spec, overrides[spec.envKey])];
        }
      }
      assert schema.specs[..|schema.specs|] == schema.specs;
    }

    method ValidateImport(dto: Dto) returns (r: Option<seq<Record>>)
      ensures r.Some? <==> Importable(schema, dto)
      ensures r.Some? ==> r.value == Imported(schema, dto)
    {
      if dto.version != VERSION {
        return None;
      }
      var seen: set<string>, rs: seq<Record> := {}, [];
      for i := 0 to |dto.overrides|
        invariant |rs| == i
        invariant forall k :: 0 <= k < i ==> !RecordFault(schema, dto.overrides[k]) && rs[k] == Rebuilt(schema, dto.overrides[k])
        invariant forall k, l :: 0 <= k < l < i ==> dto.overrides[k].envKey != dto.overrides[l].envKey
        invariant forall k :: 0 <= k < i ==> dto.overrides[k].envKey in seen
        invariant forall e :: e in seen ==> exists k :: 0 <= k < i && dto.overrides[k].envKey == e
      {
        var record := dto.overrides[i];
        if RecordFault(schema, record) || record.envKey in seen {
          return None;
        }
        seen := seen + {record.envKey};
        rs := rs + [Rebuilt(schema, record)];
      }
      r := Some(rs);
    }

    method RestartKeys(now: seq<Record>, coming: seq<Record>) returns (restart: set<string>)
      ensures restart == ImportRestart(RowsOf(now), RowsOf(coming), now + coming)
    {
      restart := {};
      var all, cur, inc := now + coming, RowsOf(now), RowsOf(coming);
      for i := 0 to |all|
        invariant restart == ImportRestart(cur, inc, all[..i])
      {
        var r := all[i];
        assert all[..i + 1][..i] == all[..i];
        if r.restart && ValueAt(cur, r.envKey) != ValueAt(inc, r.envKey) {
          restart := restart + {RecordKey(r)};
        }
      }
      assert all[..|all|] == all;
    }

    method Adopt(coming: seq<Record>)
      modifies this
      ensures overrides == Values(RowsOf(coming)) && rows == old(rows)
    {
      overrides := map[];
      for i := 0 to |coming|
        invariant overrides == Values(RowsOf(coming[..i])) && rows == old(rows)
      {
        assert coming[..i + 1][..i] == coming[..i];
        overrides := overrides[coming[i].envKey := coming[i].value];
      }
      assert coming[..|coming|] == coming;
    }

    method ImportConfig(dto: Dto, dbFails: bool) returns (ok: bool, restart: set<string>)
      modifies this
      ensures (View(), ok) == Import(schema, old(View()), dto, dbFails)
      ensures ok ==> var now, coming := CurrentRecords(schema.specs, old(overrides)), Imported(schema, dto);
                     restart == ImportRestart(RowsOf(now), RowsOf(coming), now + coming)
    {
      ok, restart := false, {};
      var validated := ValidateImport(dto);
      if validated.None? {
        return;
      }
      var now := Records();
      restart := RestartKeys(now, validated.value);
      if dbFails {
        return;
      }
      rows := (rows - KnownKeys(schema.specs)) + RowsOf(validated.value);
      Adopt(validated.value);
      ok := true;
    }

    method PreviewImport(dto: Dto) returns (r: Option<(seq<Conflict>, set<string>)>)
      ensures r.Some? <==> Importable(schema, dto)
      ensures r.Some? ==> var now, coming := CurrentRecords(schema.specs, overrides), Imported(schema, dto);
              r.value == (ConflictsOf(ByKey(now), ByKey(coming), KeysOf(now + coming)),
                          RestartOf(ByKey(now), ByKey(coming), KeysOf(now + coming)))
    {
      var validated := ValidateImport(dto);
      if validated.None? {
        return None;
      }
      var now := Records();
      var coming := validated.value;
      var cur, inc, keys := ByKey(now), ByKey(coming), KeysOf(now + coming);
      var conflicts: seq<Conflict>, restart: set<string> := [], {};
      for i := 0 to |keys|
        invariant conflicts == ConflictsOf(cur, inc, keys[..i]) && restart == RestartOf(cur, inc, keys[..i])
      {
        var key := keys[i];
        assert keys[..i + 1][..i] == keys[..i];
        if key !in cur && key in inc {
          if inc[key].restart {
            restart := restart + {key};
          }
          conflicts := conflicts + [Conflict(key, None, Some(inc[key].value))];
        } else if key in cur && key !in inc {
          conflicts := conflicts + [Conflict(key, Some(cur[key].value), None)];
          if cur[key].restart {
            restart := restart + {key};
          }
        } else if key in cur && key in inc && cur[key].value != inc[key].value {
          conflicts := conflicts + [Conflict(key, Some(cur[key].value), Some(inc[key].value))];
          if cur[key].restart || inc[key].restart {
            restart := restart + {key};
          }
        }
      }
      assert keys[..|keys|] == keys;
      r := Some((conflicts, restart));
    }

    method UpdateConfig(cs: seq<Change>) returns (ok: bool)
      modifies this
      ensures (View(), ok) == Update(schema, old(View()), cs)
    {
      ok := true;
      for i := 0 to |cs|
        invariant ok && (View(), ok) == Update(schema, old(View()), cs[..i])
      {
        var c := cs[i];
        assert cs[..i + 1][..i] == cs[..i];
        var before := View();
        var step := StepOf(schema, before, c);
        match step {
          case Skip =>
          case Throw =>
            ok := false;
            UpdateStops(schema, old(View()), cs, i + 1);
            return;
          case Drop(spec) =>
            rows := rows - {spec.envKey};
            overrides := overrides - {spec.envKey};
          case Put(spec) =>
            rows := rows[spec.envKey := Built(spec, c.value)];
            overrides := overrides[spec.envKey := c.value];
        }
      }
      assert cs[..|cs|] == cs;
    }
  }

  lemma {:induction false} UpdateStops(schema: Schema, s: State, cs: seq<Change>, n: nat)
    requires n <= |cs| && !Update(schema, s, cs[..n]).1
    ensures Update(schema, s, cs) == Update(schema, s, cs[..n])
    decreases |cs|
  {
    if n == |cs| {
      assert cs[..n] == cs;
    } else {
      assert cs[..|cs| - 1][..n] == cs[..n];
      UpdateStops(schema, s, cs[..|cs| - 1], n);
    }
  }
}
