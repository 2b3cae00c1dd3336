/**
 The audit writer's invocation records and the summariser that counts them back. A call is
 known by its number; its fresh UUID is an injective token for it.
 */
module AuditSummary {
  import opened Common

  datatype Span = GatewayRequest | McpProtocol | McpTool | UpstreamApi

  // A row without an origin is read as External.
  datatype Origin = External | Test | Probe | Internal

  datatype Phase = Started | Progress | Finished

  datatype Outcome = Success | Error | Rejected | Timeout | Cancelled | Incomplete | Unknown

  datatype Scope = Business | Upstream | Tool | Protocol | HttpIngress

  // The fields of a finished row that decide its outcome, as the writer stored them.
  datatype Row = Row(reconciled: bool, toolIsError: bool, protocolError: bool, outcome: Option<Outcome>, cacheHit: bool,
                     timeoutCode: bool, status: Option<int>, upstream: bool)

  datatype Record = Record(invocation: nat, version: nat, phase: Phase, span: Span, transport: string, origin: Origin,
                           outcome: Option<Outcome>)

  function NormalizeOutcome(row: Row, phase: Phase): (r: Option<Outcome>)
    ensures r.Some? <==> phase == Finished
  {
    if phase != Finished then None
    else if row.reconciled then Some(Unknown)
    else if row.toolIsError || row.protocolError then Some(Error)
    else if row.outcome in {Some(Cancelled), Some(Incomplete), Some(Unknown)} then row.outcome
    else if row.outcome == Some(Timeout) || row.timeoutCode then Some(Timeout)
    else if row.outcome == Some(Rejected) || (row.status.Some? && row.status.value in {401, 403, 429} && !row.upstream)
    then Some(Rejected)
    else if row.outcome == Some(Error) || (row.status.Some? && row.status.value >= 400) then Some(Error)
    else if row.outcome == Some(Success) || row.cacheHit then Some(Success)
    else Some(Unknown)
  }

  // What a finished row tells before its own outcome field counts.
  predicate Settled(row: Row) {
    row.reconciled || row.toolIsError || row.protocolError
  }

  predicate Says(row: Row, o: Outcome) {
    row.outcome == Some(o)
  }

  // The status is one of these: an authentication, authorization or rate limit refusal.
  predicate Refused(row: Row) {
    !row.upstream && row.status in {Some(401), Some(403), Some(429)}
  }

  predicate Failed(row: Row) {
    row.status.Some? && row.status.value >= 400
  }

  /** Each outcome of a finished row under exactly its own conditions; an unfinished row has none. */
  lemma OutcomeExactly(row: Row)
    ensures var o := NormalizeOutcome(row, Finished);
            var open := !Settled(row) && !Says(row, Cancelled) && !Says(row, Incomplete) && !Says(row, Unknown);
            var late := Says(row, Timeout) || row.timeoutCode;
            var refused := Says(row, Rejected) || Refused(row);
            var failed := Says(row, Error) || Failed(row);
            && (o == Some(Cancelled) <==> !Settled(row) && Says(row, Cancelled))
            && (o == Some(Incomplete) <==> !Settled(row) && Says(row, Incomplete))
            && (o == Some(Timeout) <==> open && late)
            && (o == Some(Rejected) <==> open && !late && refused)
            && (o == Some(Error) <==>
                  (!row.reconciled && Settled(row)) || (open && !late && !refused && failed))
            && (o == Some(Success) <==>
                  open && !late && !refused && !failed && (Says(row, Success) || row.cacheHit))
            && (o == Some(Unknown) <==>
                  row.reconciled || (!Settled(row) && Says(row, Unknown))
                  || (open && !late && !refused && !failed && !Says(row, Success) && !row.cacheHit))
    ensures NormalizeOutcome(row, Started) == None && NormalizeOutcome(row, Progress) == None
  {
  }

  // ----- The writer -----

  // The call's live record has an `origin`, which its holder may assign; `emitted` is the origin of
  // the last record written.
  datatype Call = Call(span: Span, origin: Origin, emitted: Origin, version: nat, finished: bool)

  datatype Writer = Writer(calls: seq<Call>, active: int, log: seq<Record>)

  datatype Event =
    | Begin(span: Span, transport: string, origin: Origin)
    | Assign(call: nat, origin: Origin)
    | Report(call: nat, transport: string, replaced: Option<Origin>)
    | Finish(call: nat, transport: string, replaced: Option<Origin>, row: Row)

  predicate Enabled(w: Writer, e: Event) {
    e.Begin? || e.call < |w.calls|
  }

  // The origin a report carries: that of its own fields, else the record's.
  function Carried(c: Call, origin: Option<Origin>): Origin {
    if origin.Some? then origin.value else c.origin
  }

  function Next(c: Call, origin: Option<Origin>, finished: bool): Call {
    c.(origin := Carried(c, origin), emitted := Carried(c, origin), version := c.version + 1, finished := finished)
  }

  function RecordOf(i: nat, c: Call, phase: Phase, transport: string, outcome: Option<Outcome>): Record {
    Record(i, c.version, phase, c.span, transport, c.emitted, outcome)
  }

  function Apply(w: Writer, e: Event): Writer
    requires Enabled(w, e)
  {
    match e
    case Begin(span, transport, origin) =>
      var c := Call(span, origin, origin, 1, false);
      Writer(w.calls + [c], w.active + 1, w.log + [RecordOf(|w.calls|, c, Started, transport, None)])
    case Assign(i, origin) => w.(calls := w.calls[i := w.calls[i].(origin := origin)])
    case Report(i, transport, origin) =>
      if w.calls[i].finished then w
      else
        var c := Next(w.calls[i], origin, false);
        Writer(w.calls[i := c], w.active, w.log + [RecordOf(i, c, Progress, transport, None)])
    case Finish(i, transport, origin, row) =>
      if w.calls[i].finished then w
      else
        var c := Next(w.calls[i], origin, true);
        Writer(w.calls[i := c], w.active - 1,
               w.log + [RecordOf(i, c, Finished, transport, NormalizeOutcome(row, Finished))])
  }

  predicate IsRun(es: seq<Event>)
    decreases |es|, 0
  {
    es == [] || (IsRun(es[..|es| - 1]) && Enabled(After(es[..|es| - 1]), es[|es| - 1]))
  }

  function After(es: seq<Event>): Writer
    requires IsRun(es)
    decreases |es|, 1
  {
    if es == [] then Writer([], 0, []) else Apply(After(es[..|es| - 1]), es[|es| - 1])
  }

  /** The state one call handle keeps, as the closures of `beginRuntimeCall` update it. */
  class CallHandle {
    const index: nat
    var call: Call

    constructor (index: nat, span: Span, origin: Origin)
      ensures this.index == index && call == Call(span, origin, origin, 1, false)
    {
      this.index := index;
      call := Call(span, origin, origin, 1, false);
    }

    // `Object.assign` on the record that the handle exposes.
    method AssignOrigin(origin: Origin)
      modifies this
      ensures call == old(call).(origin := origin)
    {
      call := call.(origin := origin);
    }

    method Emit(transport: string, origin: Option<Origin>, finish: Option<Row>) returns (r: Option<Record>)
      modifies this
      ensures if old(call).finished then call == old(call) && r == None
              else call == Next(old(call), origin, finish.Some?) &&
                   r == Some(if finish.Some? then RecordOf(index, call, Finished, transport, NormalizeOutcome(finish.value, Finished))
                             else RecordOf(index, call, Progress, transport, None))
    {
      if call.finished {
        return None;
      }
      var current := if origin.Some? then origin.value else call.origin;
      call := call.(finished := finish.Some?, version := call.version + 1, origin := current, emitted := current);
      var phase := if finish.Some? then Finished else Progress;
      var outcome := if finish.Some? then NormalizeOutcome(finish.value, Finished) else None;
      r := Some(Record(index, call.version, phase, call.span, transport, current, outcome));
    }
  }

  // ----- What the log holds -----

  ghost predicate RecordFits(calls: seq<Call>, r: Record) {
    && r.invocation < |calls|
    && 1 <= r.version <= calls[r.invocation].version
    && r.span == calls[r.invocation].span
    && (r.phase == Finished <==> r.outcome.Some?)
    && (if r.version == calls[r.invocation].version
        then r.origin == calls[r.invocation].emitted && (r.phase == Finished <==> calls[r.invocation].finished)
        else r.phase != Finished)
  }

  ghost predicate Increasing(log: seq<Record>) {
    forall j, k :: 0 <= j < k < |log| && log[j].invocation == log[k].invocation ==> log[j].version < log[k].version
  }

  ghost predicate HasLatest(log: seq<Record>, i: nat, version: nat) {
    exists k :: 0 <= k < |log| && log[k].invocation == i && log[k].version == version
  }

  ghost predicate LogInv(w: Writer) {
    && (forall k :: 0 <= k < |w.log| ==> RecordFits(w.calls, w.log[k]))
    && Increasing(w.log)
    && (forall i :: 0 <= i < |w.calls| ==> HasLatest(w.log, i, w.calls[i].version))
  }

  ghost function Open(calls: seq<Call>): set<nat> {
    set i | 0 <= i < |calls| && !calls[i].finished
  }

  lemma EmitKeeps(w: Writer, calls: seq<Call>, r: Record)
    requires LogInv(w) && |w.calls| <= |calls| && r.invocation < |calls|
    requires forall i :: 0 <= i < |w.calls| && i != r.invocation ==> calls[i] == w.calls[i]
    requires |calls| == if r.invocation < |w.calls| then |w.calls| else |w.calls| + 1
    requires r.invocation < |w.calls| ==>
               r.version == w.calls[r.invocation].version + 1 && r.span == w.calls[r.invocation].span && !w.calls[r.invocation].finished
    requires r.version == calls[r.invocation].version >= 1 && RecordFits(calls, r)
    ensures LogInv(Writer(calls, w.active, w.log + [r]))
  {
    var log := w.log + [r];
    forall k | 0 <= k < |log|
      ensures RecordFits(calls, log[k])
      ensures k < |w.log| && log[k].invocation == r.invocation ==> log[k].version < r.version
    {
      if k < |w.log| {
        assert RecordFits(w.calls, w.log[k]);
      }
    }
    forall i | 0 <= i < |calls|
      ensures HasLatest(log, i, calls[i].version)
    {
      if i == r.invocation {
        assert log[|w.log|] == r;
      } else {
        assert HasLatest(w.log, i, w.calls[i].version);
        var k :| 0 <= k < |w.log| && w.log[k].invocation == i && w.log[k].version == w.calls[i].version;
        assert log[k] == w.log[k];
      }
    }
  }

  lemma BeginKeeps(w: Writer, e: Event)
    requires LogInv(w) && e.Begin? && w.active == |Open(w.calls)|
    ensures LogInv(Apply(w, e)) && Apply(w, e).active == |Open(Apply(w, e).calls)|
  {
    EmitKeeps(w, Apply(w, e).calls, Apply(w, e).log[|w.log|]);
    assert Open(Apply(w, e).calls) == Open(w.calls) + {|w.calls|};
  }

  lemma ReportKeeps(w: Writer, e: Event)
    requires LogInv(w) && (e.Report? || e.Finish?) && Enabled(w, e) && w.active == |Open(w.calls)| && !w.calls[e.call].finished
    ensures LogInv(Apply(w, e)) && Apply(w, e).active == |Open(Apply(w, e).calls)|
  {
    EmitKeeps(w, Apply(w, e).calls, Apply(w, e).log[|w.log|]);
    assert e.call in Open(w.calls);
    assert Open(Apply(w, e).calls) == if e.Finish? then Open(w.calls) - {e.call} else Open(w.calls);
  }

  lemma AssignKeeps(w: Writer, e: Event)
    requires LogInv(w) && e.Assign? && Enabled(w, e)
    ensures LogInv(Apply(w, e)) && Open(Apply(w, e).calls) == Open(w.calls)
  {
    var t := Apply(w, e);
    forall k | 0 <= k < |t.log|
      ensures RecordFits(t.calls, t.log[k])
    {
      assert RecordFits(w.calls, w.log[k]);
    }
    forall i | 0 <= i < |t.calls|
      ensures HasLatest(t.log, i, t.calls[i].version)
    {
      assert HasLatest(w.log, i, w.calls[i].version);
    }
  }

  lemma StepKeeps(w: Writer, e: Event)
    requires LogInv(w) && Enabled(w, e) && w.active == |Open(w.calls)|
    ensures LogInv(Apply(w, e)) && Apply(w, e).active == |Open(Apply(w, e).calls)|
  {
    if e.Begin? {
      BeginKeeps(w, e);
    } else if e.Assign? {
      AssignKeeps(w, e);
    } else if !w.calls[e.call].finished {
      ReportKeeps(w, e);
    }
  }

  /** Each invocation's records carry strictly increasing versions, at most one of them is
      finished and that one is the last; the active-call counter is the number of open calls. */
  lemma {:induction false} EveryRun(es: seq<Event>)
    requires IsRun(es)
    ensures LogInv(After(es)) && After(es).active == |Open(After(es).calls)|
  {
    if es != [] {
      EveryRun(es[..|es| - 1]);
      StepKeeps(After(es[..|es| - 1]), es[|es| - 1]);
    }
  }

  // ----- The summariser -----

  predicate Matches(r: Record, scope: Scope) {
    match scope
    case Business => r.span.GatewayRequest? || r.span.McpTool?
    case Upstream => r.span.UpstreamApi?
    case Tool => r.span.McpTool?
    case Protocol => r.span.McpProtocol?
    case HttpIngress =>
      r.span.GatewayRequest? || (r.span.McpProtocol? && r.transport in {"http", "sse", "streamable", "streamable-http"})
  }

  function Latest(records: seq<Record>): map<nat, Record> {
    if records == [] then map[]
    else
      var before, r := Latest(records[..|records| - 1]), records[|records| - 1];
      if r.invocation !in before || r.version > before[r.invocation].version then before[r.invocation := r] else before
  }

  function Selected(latest: map<nat, Record>, scope: Scope, origin: Origin): set<nat> {
    set i | i in latest && latest[i].origin == origin && Matches(latest[i], scope)
  }

  function WithOutcome(latest: map<nat, Record>, rows: set<nat>, o: Outcome): set<nat>
    requires rows <= latest.Keys
  {
    set i | i in rows && latest[i].phase == Finished && Counted(latest[i]) == o
  }

  function Pending(latest: map<nat, Record>, rows: set<nat>): set<nat>
    requires rows <= latest.Keys
  {
    set i | i in rows && latest[i].phase != Finished
  }

  function Counted(r: Record): Outcome {
    if r.outcome.Some? then r.outcome.value else Unknown
  }

  // How often each outcome has been seen.
  type Counts = map<Outcome, nat>

  function Get(c: Counts, o: Outcome): nat {
    if o in c then c[o] else 0
  }

  function Bump(c: Counts, o: Outcome): Counts {
    c[o := Get(c, o) + 1]
  }

  function Known(c: Counts): nat {
    Get(c, Success) + Get(c, Error) + Get(c, Rejected) + Get(c, Timeout) + Get(c, Cancelled) + Get(c, Incomplete)
  }

  function Total(c: Counts): nat {
    Known(c) + Get(c, Unknown)
  }

  datatype Summary = Summary(totalStarted: nat, knownCompleted: nat, inFlight: nat, outcomes: Counts)

  ghost predicate Tallied(latest: map<nat, Record>, rows: set<nat>, c: Counts)
    requires rows <= latest.Keys
  {
    forall o :: TalliedAs(latest, rows, c, o)
  }

  ghost predicate TalliedAs(latest: map<nat, Record>, rows: set<nat>, c: Counts, o: Outcome)
    requires rows <= latest.Keys
  {
    Get(c, o) == |WithOutcome(latest, rows, o)|
  }

  lemma OutcomeHit(latest: map<nat, Record>, done: set<nat>, i: nat, o: Outcome)
    requires done <= latest.Keys && i in latest && i !in done && latest[i].phase == Finished && Counted(latest[i]) == o
    ensures |WithOutcome(latest, done + {i}, o)| == |WithOutcome(latest, done, o)| + 1
  {
    assert WithOutcome(latest, done + {i}, o) == WithOutcome(latest, done, o) + {i};
  }

  lemma OutcomeMiss(latest: map<nat, Record>, done: set<nat>, i: nat, o: Outcome)
    requires done <= latest.Keys && i in latest && !(latest[i].phase == Finished && Counted(latest[i]) == o)
    ensures WithOutcome(latest, done + {i}, o) == WithOutcome(latest, done, o)
  {
  }

  lemma PendingStep(latest: map<nat, Record>, done: set<nat>, i: nat)
    requires done <= latest.Keys && i in latest && i !in done
    ensures |Pending(latest, done + {i})| == |Pending(latest, done)| + (if latest[i].phase == Finished then 0 else 1)
  {
    if latest[i].phase == Finished {
      assert Pending(latest, done + {i}) == Pending(latest, done);
    } else {
      assert Pending(latest, done + {i}) == Pending(latest, done) + {i};
    }
  }

  // Rows in the order they are looked at.
  function Elements(list: seq<nat>): set<nat> {
    if list == [] then {} else Elements(list[..|list| - 1]) + {list[|list| - 1]}
  }

  predicate Listed(latest: map<nat, Record>, list: seq<nat>) {
    list == [] ||
    var front, last := list[..|list| - 1], list[|list| - 1];
    Listed(latest, front) && last in latest && last !in Elements(front)
  }

  function PendingIn(latest: map<nat, Record>, list: seq<nat>): nat
    requires Listed(latest, list)
  {
    if list == [] then 0
    else PendingIn(latest, list[..|list| - 1]) + (if latest[list[|list| - 1]].phase == Finished then 0 else 1)
  }

  function CountsOf(latest: map<nat, Record>, list: seq<nat>): Counts
    requires Listed(latest, list)
  {
    if list == [] then map[]
    else
      var before, r := CountsOf(latest, list[..|list| - 1]), latest[list[|list| - 1]];
      if r.phase == Finished then Bump(before, Counted(r)) else before
  }

  lemma {:induction false} ListedRows(latest: map<nat, Record>, list: seq<nat>)
    requires Listed(latest, list)
    ensures Elements(list) <= latest.Keys && |Elements(list)| == |list|
  {
    if list != [] {
      ListedRows(latest, list[..|list| - 1]);
    }
  }

  lemma BumpTotal(c: Counts, o: Outcome)
    ensures Total(Bump(c, o)) == Total(c) + 1
  {
    forall p
      ensures Get(Bump(c, o), p) == Get(c, p) + (if p == o then 1 else 0)
    {
    }
  }

  lemma {:induction false} TotalOfList(latest: map<nat, Record>, list: seq<nat>)
    requires Listed(latest, list)
    ensures PendingIn(latest, list) + Total(CountsOf(latest, list)) == |list|
  {
    if list != [] {
      TotalOfList(latest, list[..|list| - 1]);
      BumpTotal(CountsOf(latest, list[..|list| - 1]), Counted(latest[list[|list| - 1]]));
    }
  }

  lemma {:induction false} PendingIsCard(latest: map<nat, Record>, list: seq<nat>)
    requires Listed(latest, list) && Elements(list) <= latest.Keys
    ensures PendingIn(latest, list) == |Pending(latest, Elements(list))|
  {
    if list == [] {
      assert Pending(latest, {}) == {};
    } else {
      PendingIsCard(latest, list[..|list| - 1]);
      PendingStep(latest, Elements(list[..|list| - 1]), list[|list| - 1]);
    }
  }

  lemma {:induction false} OutcomeIsCard(latest: map<nat, Record>, list: seq<nat>, o: Outcome)
    requires Listed(latest, list) && Elements(list) <= latest.Keys
    ensures TalliedAs(latest, Elements(list), CountsOf(latest, list), o)
  {
    if list == [] {
      assert WithOutcome(latest, {}, o) == {};
    } else {
      var front, i := list[..|list| - 1], list[|list| - 1];
      OutcomeIsCard(latest, front, o);
      if latest[i].phase == Finished && Counted(latest[i]) == o {
        OutcomeHit(latest, Elements(front), i, o);
      } else {
        OutcomeMiss(latest, Elements(front), i, o);
      }
    }
  }

  lemma ListTallies(latest: map<nat, Record>, list: seq<nat>)
    requires Listed(latest, list) && Elements(list) <= latest.Keys
    ensures Tallied(latest, Elements(list), CountsOf(latest, list))
  {
    forall o
      ensures TalliedAs(latest, Elements(list), CountsOf(latest, list), o)
    {
      OutcomeIsCard(latest, list, o);
    }
  }

  lemma SameTally(latest: map<nat, Record>, a: set<nat>, b: set<nat>, c: Counts)
    requires a <= latest.Keys && a == b && Tallied(latest, a, c)
    ensures Tallied(latest, b, c)
  {
    forall o
      ensures TalliedAs(latest, b, c, o)
    {
      assert TalliedAs(latest, a, c, o);
    }
  }

  method ListRows(latest: map<nat, Record>, rows: set<nat>) returns (inFlight: nat, outcomes: Counts, ghost list: seq<nat>)
    requires rows <= latest.Keys
    ensures Listed(latest, list) && Elements(list) == rows
    ensures inFlight == PendingIn(latest, list) && outcomes == CountsOf(latest, list)
  {
    var rest := rows;
    list := [];
    inFlight, outcomes := 0, map[];
    while rest != {}
      invariant rest <= rows && Listed(latest, list) && Elements(list) == rows - rest
      invariant inFlight == PendingIn(latest, list) && outcomes == CountsOf(latest, list)
      decreases rest
    {
      var i :| i in rest;
      assert (list + [i])[..|list|] == list;
      if latest[i].phase != Finished {
        inFlight := inFlight + 1;
      } else {
        outcomes := Bump(outcomes, Counted(latest[i]));
      }
      rest, list := rest - {i}, list + [i];
    }
  }

  lemma PendingOfRows(latest: map<nat, Record>, list: seq<nat>, rows: set<nat>)
    requires Listed(latest, list) && Elements(list) == rows && rows <= latest.Keys
    ensures PendingIn(latest, list) == |Pending(latest, rows)|
  {
    PendingIsCard(latest, list);
  }

  lemma ListHasAll(latest: map<nat, Record>, list: seq<nat>, rows: set<nat>)
    requires Listed(latest, list) && Elements(list) == rows
    ensures |list| == |rows|
  {
    ListedRows(latest, list);
  }

  lemma TallyOfRows(latest: map<nat, Record>, list: seq<nat>, rows: set<nat>)
    requires Listed(latest, list) && Elements(list) == rows && rows <= latest.Keys
    ensures Tallied(latest, rows, CountsOf(latest, list))
  {
    ListTallies(latest, list);
    SameTally(latest, Elements(list), rows, CountsOf(latest, list));
  }

  method CountRows(latest: map<nat, Record>, rows: set<nat>) returns (inFlight: nat, outcomes: Counts)
    requires rows <= latest.Keys
    ensures inFlight == |Pending(latest, rows)| && Tallied(latest, rows, outcomes)
    ensures inFlight + Total(outcomes) == |rows|
  {
    ghost var list;
    inFlight, outcomes, list := ListRows(latest, rows);
    TotalOfList(latest, list);
    ListHasAll(latest, list, rows);
    PendingOfRows(latest, list, rows);
    TallyOfRows(latest, list, rows);
  }

  method LatestRecords(records: seq<Record>) returns (latest: map<nat, Record>)
    ensures latest == Latest(records)
  {
    latest := map[];
    for k := 0 to |records|
      invariant latest == Latest(records[..k])
    {
      assert records[..k + 1][..k] == records[..k];
      var r := records[k];
      if r.invocation !in latest || r.version > latest[r.invocation].version {
        latest := latest[r.invocation := r];
      }
    }
    assert records[..|records|] == records;
  }

  method Summarize(records: seq<Record>, scope: Scope, origin: Origin) returns (s: Summary)
    ensures var latest := Latest(records);
            var rows := Selected(latest, scope, origin);
            && s.totalStarted == |rows|
            && s.inFlight == |Pending(latest, rows)|
            && Tallied(latest, rows, s.outcomes)
            && s.knownCompleted + Get(s.outcomes, Unknown) + s.inFlight == s.totalStarted
  {
    var latest := LatestRecords(records);
    var rows := Selected(latest, scope, origin);
    var inFlight, outcomes := CountRows(latest, rows);
    s := Summary(|rows|, Known(outcomes), inFlight, outcomes);
  }

  lemma DisjointSum<T>(a: set<T>, b: set<T>)
    requires a !! b
    ensures |a + b| == |a| + |b|
  {
  }

  // ----- Writer and summariser agree -----

  lemma {:induction false} LatestIsMaximal(records: seq<Record>)
    ensures forall i :: i in Latest(records) ==> Latest(records)[i] in records && Latest(records)[i].invocation == i
    ensures forall k :: 0 <= k < |records| ==>
              records[k].invocation in Latest(records) && records[k].version <= Latest(records)[records[k].invocation].version
  {
    if records != [] {
      LatestIsMaximal(records[..|records| - 1]);
      assert records == records[..|records| - 1] + [records[|records| - 1]];
    }
  }

  ghost predicate Delivers(log: seq<Record>, delivered: seq<Record>) {
    forall r :: r in delivered <==> r in log
  }

  lemma SameVersionSameRecord(log: seq<Record>, a: Record, b: Record)
    requires Increasing(log) && a in log && b in log && a.invocation == b.invocation && a.version == b.version
    ensures a == b
  {
    var i :| 0 <= i < |log| && log[i] == a;
    var j :| 0 <= j < |log| && log[j] == b;
    assert i == j;
  }

  // Each call's last record, and nothing else.
  ghost predicate IsLatest(w: Writer, latest: map<nat, Record>) {
    && (forall i: nat :: i in latest <==> i < |w.calls|)
    && (forall i :: i in latest ==> latest[i] in w.log && latest[i].invocation == i && latest[i].version == w.calls[i].version)
    && (forall i :: i in latest ==> RecordFits(w.calls, latest[i]))
  }

  /** However the log is reordered or delivered again, the last record of every call is found. */
  lemma DeliveryFindsLatest(w: Writer, delivered: seq<Record>)
    requires LogInv(w) && Delivers(w.log, delivered)
    ensures IsLatest(w, Latest(delivered))
  {
    var latest := Latest(delivered);
    LatestIsMaximal(delivered);
    forall i | i in latest
      ensures i < |w.calls| && RecordFits(w.calls, latest[i]) && latest[i] in w.log
    {
      assert latest[i] in delivered && latest[i] in w.log;
    }
    forall i: nat | i < |w.calls|
      ensures i in latest && latest[i].version == w.calls[i].version
    {
      assert HasLatest(w.log, i, w.calls[i].version);
      var k :| 0 <= k < |w.log| && w.log[k].invocation == i && w.log[k].version == w.calls[i].version;
      assert w.log[k] in delivered;
      var d :| 0 <= d < |delivered| && delivered[d] == w.log[k];
      assert RecordFits(w.calls, latest[i]);
    }
  }

  /** So the summaries of any two deliveries of one log are the same. */
  lemma DeliveryIsIrrelevant(w: Writer, one: seq<Record>, other: seq<Record>)
    requires LogInv(w) && Delivers(w.log, one) && Delivers(w.log, other)
    ensures Latest(one) == Latest(other)
  {
    DeliveryFindsLatest(w, one);
    DeliveryFindsLatest(w, other);
    forall i | i in Latest(one)
      ensures i in Latest(other) && Latest(one)[i] == Latest(other)[i]
    {
      SameVersionSameRecord(w.log, Latest(one)[i], Latest(other)[i]);
    }
  }

  ghost function WithOrigin(calls: seq<Call>, o: Origin): set<nat> {
    set i | 0 <= i < |calls| && calls[i].emitted == o
  }

  ghost function CountedFor(latest: map<nat, Record>, o: Origin): set<nat> {
    Selected(latest, Business, o) + Selected(latest, Protocol, o) + Selected(latest, Upstream, o)
  }

  lemma ScopesAreDisjoint(latest: map<nat, Record>, o: Origin)
    ensures Selected(latest, Business, o) !! Selected(latest, Protocol, o)
    ensures Selected(latest, Business, o) + Selected(latest, Protocol, o) !! Selected(latest, Upstream, o)
  {
  }

  lemma ScopesCover(latest: map<nat, Record>, o: Origin)
    ensures CountedFor(latest, o) == set i | i in latest && latest[i].origin == o
  {
    forall i | i in latest && latest[i].origin == o
      ensures i in CountedFor(latest, o)
    {
      match latest[i].span
      case GatewayRequest => assert i in Selected(latest, Business, o);
      case McpTool => assert i in Selected(latest, Business, o);
      case McpProtocol => assert i in Selected(latest, Protocol, o);
      case UpstreamApi => assert i in Selected(latest, Upstream, o);
    }
  }

  lemma ScopesPartition(latest: map<nat, Record>, o: Origin)
    ensures |CountedFor(latest, o)| ==
            |Selected(latest, Business, o)| + |Selected(latest, Protocol, o)| + |Selected(latest, Upstream, o)|
  {
    ScopesAreDisjoint(latest, o);
    DisjointSum(Selected(latest, Business, o), Selected(latest, Protocol, o));
    DisjointSum(Selected(latest, Business, o) + Selected(latest, Protocol, o), Selected(latest, Upstream, o));
  }

  lemma LatestOrigins(w: Writer, latest: map<nat, Record>, o: Origin)
    requires IsLatest(w, latest)
    ensures (set i | i in latest && latest[i].origin == o) == WithOrigin(w.calls, o)
  {
    forall i | i in latest
      ensures latest[i].origin == w.calls[i].emitted
    {
      assert RecordFits(w.calls, latest[i]);
    }
  }

  /** Starts: over the complete log in any order and with any re-delivery, business plus protocol
      plus upstream starts of an origin are the calls whose last record carries that origin. */
  lemma StartsMatchCalls(es: seq<Event>, delivered: seq<Record>, o: Origin)
    requires IsRun(es) && Delivers(After(es).log, delivered)
    ensures var latest := Latest(delivered);
            && CountedFor(latest, o) == WithOrigin(After(es).calls, o)
            && |Selected(latest, Business, o)| + |Selected(latest, Protocol, o)| + |Selected(latest, Upstream, o)| ==
               |WithOrigin(After(es).calls, o)|
  {
    EveryRun(es);
    DeliveryFindsLatest(After(es), delivered);
    ScopesPartition(Latest(delivered), o);
    ScopesCover(Latest(delivered), o);
    LatestOrigins(After(es), Latest(delivered), o);
  }

  // The calls of these kinds whose last record carries the origin.
  function OfKinds(calls: seq<Call>, spans: set<Span>, o: Origin): set<nat> {
    set i | 0 <= i < |calls| && calls[i].emitted == o && calls[i].span in spans
  }

  // The rows are those of the calls, with their kind and the origin they last carried.
  ghost predicate Reflects(latest: map<nat, Record>, calls: seq<Call>) {
    && (forall i: nat :: i in latest <==> i < |calls|)
    && (forall i :: i in latest ==> latest[i].span == calls[i].span && latest[i].origin == calls[i].emitted)
  }

  lemma LatestReflects(es: seq<Event>, delivered: seq<Record>)
    requires IsRun(es) && Delivers(After(es).log, delivered)
    ensures Reflects(Latest(delivered), After(es).calls)
  {
    EveryRun(es);
    DeliveryFindsLatest(After(es), delivered);
    var latest, calls := Latest(delivered), After(es).calls;
    forall i | i in latest
      ensures latest[i].span == calls[i].span && latest[i].origin == calls[i].emitted
    {
      assert RecordFits(calls, latest[i]);
    }
  }

  lemma KindsSelected(latest: map<nat, Record>, calls: seq<Call>, scope: Scope, spans: set<Span>, o: Origin)
    requires Reflects(latest, calls) && forall r :: Matches(r, scope) <==> r.span in spans
    ensures Selected(latest, scope, o) == OfKinds(calls, spans, o)
  {
  }

  // A protocol call whose last record names an HTTP transport.
  predicate OverHttp(r: Record) {
    r.transport == "http" || r.transport == "sse" || r.transport == "streamable" || r.transport == "streamable-http"
  }

  lemma IngressSelected(latest: map<nat, Record>, calls: seq<Call>, o: Origin)
    requires Reflects(latest, calls)
    ensures Selected(latest, HttpIngress, o) ==
            OfKinds(calls, {GatewayRequest}, o) + set i | i in OfKinds(calls, {McpProtocol}, o) && OverHttp(latest[i])
  {
    forall i | i in latest && latest[i].origin == o
      ensures i in Selected(latest, HttpIngress, o) <==>
              latest[i].span == GatewayRequest || (latest[i].span == McpProtocol && OverHttp(latest[i]))
    {
    }
  }

  /** Scope by scope, over the complete log in any order: the rows counted are the gateway requests and
      tool calls for business, the upstream calls, the tool calls and the protocol calls for theirs; at
      the HTTP ingress the gateway requests, and the protocol calls whose last record names an HTTP
      transport. */
  lemma ScopesMatchCalls(es: seq<Event>, delivered: seq<Record>, o: Origin)
    requires IsRun(es) && Delivers(After(es).log, delivered)
    ensures var latest, calls := Latest(delivered), After(es).calls;
            && Reflects(latest, calls)
            && Selected(latest, Business, o) == OfKinds(calls, {GatewayRequest, McpTool}, o)
            && Selected(latest, Upstream, o) == OfKinds(calls, {UpstreamApi}, o)
            && Selected(latest, Tool, o) == OfKinds(calls, {McpTool}, o)
            && Selected(latest, Protocol, o) == OfKinds(calls, {McpProtocol}, o)
            && Selected(latest, HttpIngress, o) ==
               OfKinds(calls, {GatewayRequest}, o) + set i | i in OfKinds(calls, {McpProtocol}, o) && OverHttp(latest[i])
  {
    LatestReflects(es, delivered);
    var latest, calls := Latest(delivered), After(es).calls;
    KindsSelected(latest, calls, Business, {GatewayRequest, McpTool}, o);
    KindsSelected(latest, calls, Upstream, {UpstreamApi}, o);
    KindsSelected(latest, calls, Tool, {McpTool}, o);
    KindsSelected(latest, calls, Protocol, {McpProtocol}, o);
    IngressSelected(latest, calls, o);
  }

  // The origins the calls began with, in order.
  function Origins(es: seq<Event>): seq<Origin> {
    if es == [] then []
    else
      var before, e := Origins(es[..|es| - 1]), es[|es| - 1];
      if e.Begin? then before + [e.origin] else before
  }

  function OriginsNow(calls: seq<Call>): seq<Origin> {
    seq(|calls|, i requires 0 <= i < |calls| => calls[i].emitted)
  }

  function Tally(os: seq<Origin>, o: Origin): nat {
    if os == [] then 0 else Tally(os[..|os| - 1], o) + (if os[|os| - 1] == o then 1 else 0)
  }

  // The last step writes a record with an origin other than the one its call began with.
  predicate Replaces(es: seq<Event>)
    requires IsRun(es) && es != []
  {
    var before, e := es[..|es| - 1], es[|es| - 1];
    && (e.Report? || e.Finish?) && !After(before).calls[e.call].finished && e.call < |Origins(before)|
    && Carried(After(before).calls[e.call], e.replaced) != Origins(before)[e.call]
  }

  predicate NeverReplaces(es: seq<Event>)
    requires IsRun(es)
  {
    es == [] || (NeverReplaces(es[..|es| - 1]) && !Replaces(es))
  }

  lemma {:induction false} EveryCallBegan(es: seq<Event>)
    requires IsRun(es)
    ensures |Origins(es)| == |After(es).calls|
  {
    if es != [] {
      EveryCallBegan(es[..|es| - 1]);
    }
  }

  lemma {:induction false} TallyOfUpdate(os: seq<Origin>, i: nat, p: Origin, o: Origin)
    requires i < |os|
    ensures Tally(os[i := p], o) == Tally(os, o) - (if os[i] == o then 1 else 0) + (if p == o then 1 else 0)
  {
    var n := |os| - 1;
    if i < n {
      TallyOfUpdate(os[..n], i, p, o);
      assert os[i := p][..n] == os[..n][i := p];
    } else {
      assert os[i := p][..n] == os[..n];
    }
  }

  lemma {:induction false} TallyIsCard(calls: seq<Call>, o: Origin)
    ensures |WithOrigin(calls, o)| == Tally(OriginsNow(calls), o)
  {
    if calls == [] {
      assert WithOrigin(calls, o) == {};
    } else {
      var n := |calls| - 1;
      TallyIsCard(calls[..n], o);
      assert OriginsNow(calls)[..n] == OriginsNow(calls[..n]);
      LastOrigin(calls, o);
    }
  }

  lemma LastOrigin(calls: seq<Call>, o: Origin)
    requires calls != []
    ensures var n := |calls| - 1;
            |WithOrigin(calls, o)| == |WithOrigin(calls[..n], o)| + (if calls[n].emitted == o then 1 else 0)
  {
    var n := |calls| - 1;
    if calls[n].emitted == o {
      assert WithOrigin(calls, o) == WithOrigin(calls[..n], o) + {n};
    } else {
      assert WithOrigin(calls, o) == WithOrigin(calls[..n], o);
    }
  }

  lemma {:induction false} OriginsStay(es: seq<Event>)
    requires IsRun(es) && NeverReplaces(es)
    ensures OriginsNow(After(es).calls) == Origins(es)
  {
    if es != [] {
      var before := es[..|es| - 1];
      OriginsStay(before);
      EveryCallBegan(before);
    }
  }

  ghost function Starts(latest: map<nat, Record>, o: Origin): nat {
    |Selected(latest, Business, o)| + |Selected(latest, Protocol, o)| + |Selected(latest, Upstream, o)|
  }

  // Every summary of the run's log counts, for each origin, the calls begun with it.
  ghost predicate Agrees(es: seq<Event>)
    requires IsRun(es)
  {
    forall delivered, o :: AgreesOn(es, delivered, o)
  }

  ghost predicate AgreesOn(es: seq<Event>, delivered: seq<Record>, o: Origin)
    requires IsRun(es)
  {
    Delivers(After(es).log, delivered) ==> Starts(Latest(delivered), o) == Tally(Origins(es), o)
  }

  ghost predicate AgreesThroughout(es: seq<Event>)
    requires IsRun(es)
  {
    Agrees(es) && (es != [] ==> AgreesThroughout(es[..|es| - 1]))
  }

  ghost predicate SameTallies(a: seq<Origin>, b: seq<Origin>) {
    forall o :: Tally(a, o) == Tally(b, o)
  }

  lemma AgreementIsCarried(es: seq<Event>)
    requires IsRun(es) && Agrees(es)
    ensures SameTallies(OriginsNow(After(es).calls), Origins(es))
  {
    var log := After(es).log;
    forall o
      ensures Tally(OriginsNow(After(es).calls), o) == Tally(Origins(es), o)
    {
      assert Delivers(log, log) && AgreesOn(es, log, o);
      StartsAreCarried(es, log, o);
    }
  }

  lemma CarriedIsAgreement(es: seq<Event>)
    requires IsRun(es) && SameTallies(OriginsNow(After(es).calls), Origins(es))
    ensures Agrees(es)
  {
    forall delivered, o
      ensures AgreesOn(es, delivered, o)
    {
      if Delivers(After(es).log, delivered) {
        StartsAreCarried(es, delivered, o);
        assert Tally(OriginsNow(After(es).calls), o) == Tally(Origins(es), o);
      }
    }
  }

  lemma StartsAreCarried(es: seq<Event>, delivered: seq<Record>, o: Origin)
    requires IsRun(es) && Delivers(After(es).log, delivered)
    ensures Starts(Latest(delivered), o) == Tally(OriginsNow(After(es).calls), o)
  {
    StartsMatchCalls(es, delivered, o);
    TallyIsCard(After(es).calls, o);
  }

  /** In every run: at all moments, every summary counts for each origin the calls begun with it if
      and only if no report on an unfinished call was written with another origin than it began
      with, be that named by the report or assigned to the call's record before. */
  lemma {:induction false} StartsMatchBegun(es: seq<Event>)
    requires IsRun(es)
    ensures AgreesThroughout(es) <==> NeverReplaces(es)
  {
    if NeverReplaces(es) {
      OriginsStay(es);
      CarriedIsAgreement(es);
    }
    if es != [] {
      var before := es[..|es| - 1];
      StartsMatchBegun(before);
      if Replaces(es) && NeverReplaces(before) {
        ReplacedDisagrees(es);
      }
    }
  }

  lemma ReplacedDisagrees(es: seq<Event>)
    requires IsRun(es) && es != [] && NeverReplaces(es[..|es| - 1]) && Replaces(es)
    ensures !Agrees(es)
  {
    var before, e := es[..|es| - 1], es[|es| - 1];
    var p := Carried(After(before).calls[e.call], e.replaced);
    OriginsStay(before);
    ReplacedOrigins(es);
    OtherTallies(Origins(before), e.call, p);
    if Agrees(es) {
      AgreementIsCarried(es);
    }
  }

  lemma ReplacedOrigins(es: seq<Event>)
    requires IsRun(es) && es != [] && Replaces(es) && OriginsNow(After(es[..|es| - 1]).calls) == Origins(es[..|es| - 1])
    ensures var before, e := es[..|es| - 1], es[|es| - 1];
            && Origins(es) == Origins(before)
            && OriginsNow(After(es).calls) == Origins(before)[e.call := Carried(After(before).calls[e.call], e.replaced)]
  {
  }

  lemma OtherTallies(os: seq<Origin>, i: nat, p: Origin)
    requires i < |os| && os[i] != p
    ensures !SameTallies(os[i := p], os)
  {
    TallyOfUpdate(os, i, p, p);
    assert Tally(os[i := p], p) != Tally(os, p);
  }

  const MOVED: seq<Event> := [
    Begin(McpTool, "stdio", External),
    Finish(0, "stdio", Some(Probe), Row(false, false, false, Some(Success), false, false, None, false))
  ]

  /** One finish report that names another origin moves its call to that origin's count. */
  lemma OriginReplaced()
    ensures IsRun(MOVED) && Origins(MOVED) == [External] && Replaces(MOVED)
    ensures Starts(Latest(After(MOVED).log), External) == 0
  {
    var e1 := [Begin(McpTool, "stdio", External)];
    assert e1[..0] == [] && MOVED[..1] == e1;
    assert IsRun(e1) && After(e1).calls == [Call(McpTool, External, External, 1, false)] && Origins(e1) == [External];
    assert IsRun(MOVED) && After(MOVED).calls == [Call(McpTool, Probe, Probe, 2, true)];
    StartsMatchCalls(MOVED, After(MOVED).log, External);
    assert WithOrigin(After(MOVED).calls, External) == {};
  }

  const ASSIGNED: seq<Event> := [
    Begin(GatewayRequest, "gateway", External),
    Assign(0, Internal),
    Report(0, "gateway", None)
  ]

  /** So does a report that names none, after another origin was assigned to the record. */
  lemma OriginAssigned()
    ensures IsRun(ASSIGNED) && Origins(ASSIGNED) == [External] && Replaces(ASSIGNED)
    ensures Starts(Latest(After(ASSIGNED).log), External) == 0
  {
    var e1 := [Begin(GatewayRequest, "gateway", External)];
    var e2 := e1 + [Assign(0, Internal)];
    assert e1[..0] == [] && e2[..1] == e1 && ASSIGNED[..2] == e2;
    assert IsRun(e1) && After(e1).calls == [Call(GatewayRequest, External, External, 1, false)] && Origins(e1) == [External];
    assert IsRun(e2) && After(e2).calls == [Call(GatewayRequest, Internal, External, 1, false)] && Origins(e2) == [External];
    assert IsRun(ASSIGNED) && After(ASSIGNED).calls == [Call(GatewayRequest, Internal, Internal, 2, false)];
    StartsMatchCalls(ASSIGNED, After(ASSIGNED).log, External);
    assert WithOrigin(After(ASSIGNED).calls, External) == {};
  }

  ghost function PendingFor(latest: map<nat, Record>, o: Origin): set<nat> {
    set i | i in latest && latest[i].origin == o && latest[i].phase != Finished
  }

  lemma OriginsPartition(latest: map<nat, Record>)
    ensures |PendingFor(latest, External)| + |PendingFor(latest, Test)| + |PendingFor(latest, Probe)| +
            |PendingFor(latest, Internal)| == |set i | i in latest && latest[i].phase != Finished|
  {
    var a, b, c, d := PendingFor(latest, External), PendingFor(latest, Test), PendingFor(latest, Probe), PendingFor(latest, Internal);
    DisjointSum(a, b);
    DisjointSum(a + b, c);
    DisjointSum(a + b + c, d);
    OriginsCover(latest);
  }

  lemma OriginsCover(latest: map<nat, Record>)
    ensures PendingFor(latest, External) + PendingFor(latest, Test) + PendingFor(latest, Probe) + PendingFor(latest, Internal) ==
            set i | i in latest && latest[i].phase != Finished
  {
    forall i | i in latest && latest[i].phase != Finished
      ensures i in PendingFor(latest, latest[i].origin)
    {
    }
  }

  lemma LatestPending(w: Writer, latest: map<nat, Record>)
    requires IsLatest(w, latest)
    ensures (set i | i in latest && latest[i].phase != Finished) == Open(w.calls)
  {
    forall i | i in latest
      ensures latest[i].phase == Finished <==> w.calls[i].finished
    {
      assert RecordFits(w.calls, latest[i]);
    }
  }

  /** In-flight totals over all origins are the writer's active calls. */
  lemma InFlightMatchesActive(es: seq<Event>, delivered: seq<Record>)
    requires IsRun(es) && Delivers(After(es).log, delivered)
    ensures var l := Latest(delivered);
            |PendingFor(l, External)| + |PendingFor(l, Test)| + |PendingFor(l, Probe)| + |PendingFor(l, Internal)| ==
            After(es).active
  {
    EveryRun(es);
    DeliveryFindsLatest(After(es), delivered);
    OriginsPartition(Latest(delivered));
    LatestPending(After(es), Latest(delivered));
  }

  /** The in-flight counts that the three scopes of an origin report add up to its open calls. */
  lemma PendingByScope(latest: map<nat, Record>, o: Origin)
    ensures |Pending(latest, Selected(latest, Business, o))| + |Pending(latest, Selected(latest, Protocol, o))| +
            |Pending(latest, Selected(latest, Upstream, o))| == |PendingFor(latest, o)|
  {
    var b, p, u := Selected(latest, Business, o), Selected(latest, Protocol, o), Selected(latest, Upstream, o);
    ScopesAreDisjoint(latest, o);
    ScopesCover(latest, o);
    PendingOfUnion(latest, b, p);
    PendingOfUnion(latest, b + p, u);
    assert PendingFor(latest, o) == Pending(latest, b + p + u);
  }

  lemma PendingOfUnion(latest: map<nat, Record>, a: set<nat>, b: set<nat>)
    requires a <= latest.Keys && b <= latest.Keys && a !! b
    ensures |Pending(latest, a + b)| == |Pending(latest, a)| + |Pending(latest, b)|
  {
    assert Pending(latest, a + b) == Pending(latest, a) + Pending(latest, b);
    DisjointSum(Pending(latest, a), Pending(latest, b));
  }
}
