/**
 The audit writer: admission under a shared memory budget, one ordered pump that appends
 bounded batches, and body trackers that reserve from the same budget.

 The pump is suspended at every await: Fire is the `setImmediate` callback, Append the
 settlement of the record append, Settle the `finally` of an iteration together with the
 next synchronous iteration, and End the `finally` of the pump promise.
 */
module AuditQueue {
  import opened Common

  // A queued line; `bytes` includes the caller line.
  datatype Item = Item(id: nat, file: string, bytes: nat)

  // A record to write: its size in full, its size without bodies, and its caller line.
  datatype Submission = Submission(file: string, full: nat, stripped: nat, caller: nat, serializable: bool)

  datatype Pump = Off | Scheduled | Running | Ending

  datatype Tracker = Tracker(held: nat, total: nat, omitted: bool, finished: bool)

  datatype Health = Health(written: nat, ioFailed: nat, serializationDropped: nat, queueDropped: nat, budgetDropped: nat)

  // What happened so far: per submission whether it was admitted, the items admitted, and every
  // batch taken with the outcome of its append. An item is known by the number of its submission.
  datatype Log = Log(fates: seq<bool>, admitted: seq<Item>, batches: seq<seq<Item>>, outcomes: seq<bool>)

  datatype State = State(
    budget: nat, queue: seq<Item>, batch: seq<Item>, pump: Pump, pendingWrites: int, pendingWriteBytes: int,
    capture: int, trackers: seq<Tracker>, health: Health, log: Log)

  const MAX_PENDING := 4096
  const BATCH_RECORDS := 128
  const BATCH_BYTES := 256 * 1024

  function Reservation(item: Item): nat {
    item.bytes * 2
  }

  function Bytes(items: seq<Item>): nat {
    if items == [] then 0 else Bytes(items[..|items| - 1]) + items[|items| - 1].bytes
  }

  function Held(trackers: seq<Tracker>): nat {
    if trackers == [] then 0 else Held(trackers[..|trackers| - 1]) + trackers[|trackers| - 1].held
  }

  function Flatten(batches: seq<seq<Item>>): seq<Item> {
    if batches == [] then [] else Flatten(batches[..|batches| - 1]) + batches[|batches| - 1]
  }

  function CountOf(batches: seq<seq<Item>>, outcomes: seq<bool>, ok: bool): nat
    requires |outcomes| <= |batches|
  {
    if outcomes == [] then 0
    else
      var n := |outcomes| - 1;
      CountOf(batches, outcomes[..n], ok) + (if outcomes[n] == ok then |batches[n]| else 0)
  }

  function Dropped(h: Health): nat {
    h.serializationDropped + h.queueDropped + h.budgetDropped
  }

  // ----- Steps -----

  function Drop(s: State, health: Health): State {
    s.(health := health, log := s.log.(fates := s.log.fates + [false]))
  }

  function Size(s: State, r: Submission): nat {
    if s.capture + s.pendingWriteBytes + (r.full + r.caller) * 2 > s.budget then r.stripped + r.caller else r.full + r.caller
  }

  function Submit(s: State, r: Submission): State {
    var bytes := Size(s, r);
    if !r.serializable then Drop(s, s.health.(serializationDropped := s.health.serializationDropped + 1))
    else if s.pendingWrites >= MAX_PENDING then Drop(s, s.health.(queueDropped := s.health.queueDropped + 1))
    else if s.capture + s.pendingWriteBytes + bytes * 2 > s.budget then
      Drop(s, s.health.(budgetDropped := s.health.budgetDropped + 1))
    else Admit(s, Item(|s.log.fates|, r.file, bytes))
  }

  function Admit(s: State, item: Item): State {
    s.(queue := s.queue + [item], pump := if s.pump.Off? then Scheduled else s.pump,
       pendingWrites := s.pendingWrites + 1, pendingWriteBytes := s.pendingWriteBytes + item.bytes * 2,
       log := s.log.(fates := s.log.fates + [true], admitted := s.log.admitted + [item]))
  }

  predicate Fits(q: seq<Item>, count: nat, bytes: nat)
    requires q != []
  {
    count < |q| && count < BATCH_RECORDS && q[count].file == q[0].file && bytes + q[count].bytes <= BATCH_BYTES
  }

  function Grow(q: seq<Item>, count: nat, bytes: nat): nat
    requires q != [] && count <= |q|
    decreases |q| - count
  {
    if Fits(q, count, bytes) then Grow(q, count + 1, bytes + q[count].bytes) else count
  }

  function BatchCount(q: seq<Item>): nat
    requires q != []
  {
    Grow(q, 1, q[0].bytes)
  }

  // The largest run of records for one file from the head of the queue that fits a batch.
  predicate IsBatch(q: seq<Item>, n: nat) {
    && 1 <= n <= |q| && n <= BATCH_RECORDS
    && (forall i :: 0 <= i < n ==> q[i].file == q[0].file)
    && (n > 1 ==> Bytes(q[..n]) <= BATCH_BYTES)
    && !Fits(q, n, Bytes(q[..n]))
  }

  lemma {:induction false} GrowIsBatch(q: seq<Item>, count: nat)
    requires q != [] && 1 <= count <= |q| && count <= BATCH_RECORDS
    requires forall i :: 0 <= i < count ==> q[i].file == q[0].file
    requires count > 1 ==> Bytes(q[..count]) <= BATCH_BYTES
    ensures IsBatch(q, Grow(q, count, Bytes(q[..count])))
    decreases |q| - count
  {
    if Fits(q, count, Bytes(q[..count])) {
      assert q[..count + 1][..count] == q[..count];
      GrowIsBatch(q, count + 1);
    }
  }

  /** A batch ends only where the queue does, at 128 records, before a record for another file, or
      before one that would make it exceed 256 KiB. */
  lemma BatchIsMaximal(q: seq<Item>)
    requires q != []
    ensures var n := BatchCount(q);
            1 <= n <= |q| &&
            (n < |q| ==> n == 128 || q[n].file != q[0].file || Bytes(q[..n + 1]) > 262_144)
  {
    BatchCountIsBatch(q);
    var n := BatchCount(q);
    if n < |q| {
      assert q[..n + 1][..n] == q[..n];
    }
  }

  lemma BatchCountIsBatch(q: seq<Item>)
    requires q != []
    ensures IsBatch(q, BatchCount(q))
  {
    assert q[..1][..0] == [] && Bytes(q[..1]) == q[0].bytes;
    GrowIsBatch(q, 1);
  }

  /** One turn of the pump loop up to its first await. */
  function Take(s: State): State {
    if s.queue == [] then s.(batch := [], pump := Ending)
    else
      var n := BatchCount(s.queue);
      BatchCountIsBatch(s.queue);
      s.(batch := s.queue[..n], queue := s.queue[n..], pump := Running,
         log := s.log.(batches := s.log.batches + [s.queue[..n]]))
  }

  function Appended(s: State, ok: bool): State {
    s.(health := if ok then s.health.(written := s.health.written + |s.batch|)
                 else s.health.(ioFailed := s.health.ioFailed + |s.batch|),
       log := s.log.(outcomes := s.log.outcomes + [ok]))
  }

  function Clip(n: int): int {
    if n < 0 then 0 else n
  }

  // What the loop of the `finally` block subtracts, clipped at zero each time.
  function Release(bytes: int, batch: seq<Item>): int {
    if batch == [] then bytes
    else Clip(Release(bytes, batch[..|batch| - 1]) - Reservation(batch[|batch| - 1]))
  }

  function Released(s: State): State {
    Take(s.(pendingWrites := s.pendingWrites - |s.batch|, pendingWriteBytes := Release(s.pendingWriteBytes, s.batch)))
  }

  function Ended(s: State): State {
    s.(pump := if s.queue == [] then Off else Scheduled)
  }

  function Observe(s: State, t: nat, length: nat, limit: nat, metadataOnly: bool): State
    requires t < |s.trackers|
  {
    var k := s.trackers[t];
    if k.finished then s
    else
      var total := k.total + length;
      if k.omitted then s.(trackers := s.trackers[t := k.(total := total)])
      else if total > limit || metadataOnly || s.capture + s.pendingWriteBytes + length * 3 > s.budget then
        s.(capture := Clip(s.capture - k.held), trackers := s.trackers[t := Tracker(0, total, true, false)])
      else
        s.(capture := s.capture + length * 3,
           trackers := s.trackers[t := Tracker(k.held + length * 3, total, false, false)])
  }

  function FinishBody(s: State, t: nat): State
    requires t < |s.trackers|
  {
    var k := s.trackers[t];
    if k.finished then s
    else s.(capture := Clip(s.capture - k.held), trackers := s.trackers[t := k.(held := 0, finished := true)])
  }

  datatype Event =
    | Write(record: Submission)
    | Fire
    | Append(ok: bool)
    | Settle
    | End
    | Track
    | Chunk(tracker: nat, length: nat, limit: nat, metadataOnly: bool)
    | Finish(tracker: nat)

  predicate Decided(s: State) {
    |s.log.outcomes| == |s.log.batches|
  }

  predicate Enabled(s: State, e: Event) {
    match e
    case Write(_) => true
    case Fire => s.pump.Scheduled?
    case Append(_) => s.pump.Running? && !Decided(s)
    case Settle => s.pump.Running? && Decided(s)
    case End => s.pump.Ending?
    case Track => true
    case Chunk(t, _, _, _) => t < |s.trackers|
    case Finish(t) => t < |s.trackers|
  }

  function Apply(s: State, e: Event): State
    requires Enabled(s, e)
  {
    match e
    case Write(r) => Submit(s, r)
    case Fire => Take(s)
    case Append(ok) => Appended(s, ok)
    case Settle => Released(s)
    case End => Ended(s)
    case Track => s.(trackers := s.trackers + [Tracker(0, 0, false, false)])
    case Chunk(t, length, limit, metadataOnly) => Observe(s, t, length, limit, metadataOnly)
    case Finish(t) => FinishBody(s, t)
  }

  function Start(budget: nat): State {
    State(budget, [], [], Off, 0, 0, 0, [], Health(0, 0, 0, 0, 0), Log([], [], [], []))
  }

  predicate IsRun(budget: nat, es: seq<Event>)
    decreases |es|, 0
  {
    es == [] || (IsRun(budget, es[..|es| - 1]) && Enabled(After(budget, es[..|es| - 1]), es[|es| - 1]))
  }

  function After(budget: nat, es: seq<Event>): State
    requires IsRun(budget, es)
    decreases |es|, 1
  {
    if es == [] then Start(budget) else Apply(After(budget, es[..|es| - 1]), es[|es| - 1])
  }

  // ----- The invariant -----

  // The counters agree with the queue and the batch in flight, and with the trackers.
  ghost predicate Accounted(batch: seq<Item>, queue: seq<Item>, writes: int, bytes: int) {
    writes == |batch| + |queue| && bytes == 2 * (Bytes(batch) + Bytes(queue))
  }

  ghost predicate Reserved(trackers: seq<Tracker>, capture: int) {
    && capture == Held(trackers)
    && forall i :: 0 <= i < |trackers| && (trackers[i].finished || trackers[i].omitted) ==> trackers[i].held == 0
  }

  ghost predicate Bounded(s: State) {
    s.capture + s.pendingWriteBytes <= s.budget && s.pendingWrites <= MAX_PENDING
  }

  // A batch is in flight exactly while the pump runs, and work in the queue has a pump.
  ghost predicate Pumped(s: State) {
    && (s.pump.Running? <==> s.batch != [])
    && (s.queue != [] ==> !s.pump.Off?)
    && (s.pump.Running? ==> s.log.batches != [] && s.log.batches[|s.log.batches| - 1] == s.batch)
    && (if Decided(s) then true else s.pump.Running? && |s.log.outcomes| == |s.log.batches| - 1)
  }

  // A batch as it was appended: one file, at most 128 records, and over 256 KiB only as one record.
  predicate WellBatched(b: seq<Item>) {
    && 1 <= |b| <= BATCH_RECORDS
    && (forall i :: 0 <= i < |b| ==> b[i].file == b[0].file)
    && (|b| > 1 ==> Bytes(b) <= BATCH_BYTES)
  }

  ghost predicate Ordered(log: Log, queue: seq<Item>) {
    Flatten(log.batches) + queue == log.admitted
  }

  ghost predicate Counted(log: Log, h: Health) {
    && |log.outcomes| <= |log.batches|
    && h.written == CountOf(log.batches, log.outcomes, true)
    && h.ioFailed == CountOf(log.batches, log.outcomes, false)
    && Dropped(h) + |log.admitted| == |log.fates|
  }

  function Ids(items: seq<Item>): seq<nat> {
    seq(|items|, i requires 0 <= i < |items| => items[i].id)
  }

  // The numbers of the submissions that were admitted.
  function Admissions(fates: seq<bool>): seq<nat> {
    if fates == [] then []
    else
      var n := |fates| - 1;
      Admissions(fates[..n]) + (if fates[n] then [n] else [])
  }

  ghost predicate Fitting(s: State) {
    && Accounted(s.batch, s.queue, s.pendingWrites, s.pendingWriteBytes)
    && Reserved(s.trackers, s.capture) && Bounded(s) && Pumped(s)
  }

  lemma {:induction false} BytesOfConcat(a: seq<Item>, b: seq<Item>)
    ensures Bytes(a + b) == Bytes(a) + Bytes(b)
  {
    if b == [] {
      assert a + b == a;
    } else {
      BytesOfConcat(a, b[..|b| - 1]);
      assert (a + b)[..|a + b| - 1] == a + b[..|b| - 1];
    }
  }

  lemma {:induction false} HeldOfUpdate(ts: seq<Tracker>, t: nat, k: Tracker)
    requires t < |ts|
    ensures Held(ts[t := k]) == Held(ts) - ts[t].held + k.held
    ensures Held(ts) >= ts[t].held
  {
    var n := |ts| - 1;
    if t < n {
      HeldOfUpdate(ts[..n], t, k);
      assert ts[t := k][..n] == ts[..n][t := k];
    } else {
      assert ts[t := k][..n] == ts[..n];
    }
  }

  lemma {:induction false} ReleaseIsExact(bytes: int, batch: seq<Item>)
    requires bytes >= 2 * Bytes(batch)
    ensures Release(bytes, batch) == bytes - 2 * Bytes(batch)
  {
    if batch != [] {
      ReleaseIsExact(bytes, batch[..|batch| - 1]);
    }
  }

  lemma {:induction false} CountIgnoresLater(batches: seq<seq<Item>>, outcomes: seq<bool>, ok: bool, b: seq<Item>)
    requires |outcomes| <= |batches|
    ensures CountOf(batches + [b], outcomes, ok) == CountOf(batches, outcomes, ok)
  {
    if outcomes != [] {
      CountIgnoresLater(batches, outcomes[..|outcomes| - 1], ok, b);
    }
  }

  lemma {:induction false} CountsAll(batches: seq<seq<Item>>, outcomes: seq<bool>)
    requires |outcomes| <= |batches|
    ensures CountOf(batches, outcomes, true) + CountOf(batches, outcomes, false) == |Flatten(batches[..|outcomes|])|
  {
    if outcomes != [] {
      var n := |outcomes| - 1;
      CountsAll(batches, outcomes[..n]);
      assert batches[..n + 1][..n] == batches[..n];
    }
  }

  // ----- The counters -----

  lemma AdmitAccounts(batch: seq<Item>, queue: seq<Item>, item: Item, writes: int, bytes: int)
    requires Accounted(batch, queue, writes, bytes)
    ensures Accounted(batch, queue + [item], writes + 1, bytes + item.bytes * 2)
  {
    BytesOfConcat(queue, [item]);
    assert [item][..0] == [];
  }

  lemma DropFits(s: State, h: Health)
    requires Fitting(s)
    ensures Fitting(Drop(s, h))
  {
  }

  lemma AdmitFits(s: State, item: Item)
    requires Fitting(s) && s.pendingWrites < MAX_PENDING && s.capture + s.pendingWriteBytes + item.bytes * 2 <= s.budget
    ensures Fitting(Admit(s, item))
  {
    AdmitAccounts(s.batch, s.queue, item, s.pendingWrites, s.pendingWriteBytes);
  }

  lemma SubmitFits(s: State, r: Submission)
    requires Fitting(s)
    ensures Fitting(Submit(s, r))
  {
    var bytes := Size(s, r);
    if !r.serializable {
      DropFits(s, s.health.(serializationDropped := s.health.serializationDropped + 1));
    } else if s.pendingWrites >= MAX_PENDING {
      DropFits(s, s.health.(queueDropped := s.health.queueDropped + 1));
    } else if s.capture + s.pendingWriteBytes + bytes * 2 > s.budget {
      DropFits(s, s.health.(budgetDropped := s.health.budgetDropped + 1));
    } else {
      AdmitFits(s, Item(|s.log.fates|, r.file, bytes));
    }
  }

  // Between batches nothing is in flight and every batch has its outcome.
  lemma TakeFits(s: State)
    requires Accounted([], s.queue, s.pendingWrites, s.pendingWriteBytes)
    requires Reserved(s.trackers, s.capture) && Bounded(s) && Decided(s)
    ensures Fitting(Take(s))
  {
    if s.queue != [] {
      var n := BatchCount(s.queue);
      BatchCountIsBatch(s.queue);
      BytesOfConcat(s.queue[..n], s.queue[n..]);
      assert s.queue == s.queue[..n] + s.queue[n..];
    }
  }

  lemma SettleFits(s: State)
    requires Fitting(s) && Enabled(s, Settle)
    ensures Fitting(Released(s))
  {
    ReleaseIsExact(s.pendingWriteBytes, s.batch);
    TakeFits(s.(pendingWrites := s.pendingWrites - |s.batch|, pendingWriteBytes := Release(s.pendingWriteBytes, s.batch)));
  }

  lemma TrackerReserves(ts: seq<Tracker>, capture: int, t: nat, k: Tracker)
    requires Reserved(ts, capture) && t < |ts| && (k.finished || k.omitted ==> k.held == 0)
    ensures Reserved(ts[t := k], capture - ts[t].held + k.held) && capture >= ts[t].held
  {
    HeldOfUpdate(ts, t, k);
  }

  lemma NewTrackerReserves(ts: seq<Tracker>, capture: int)
    requires Reserved(ts, capture)
    ensures Reserved(ts + [Tracker(0, 0, false, false)], capture)
  {
    assert (ts + [Tracker(0, 0, false, false)])[..|ts|] == ts;
  }

  lemma ObserveFits(s: State, t: nat, length: nat, limit: nat, metadataOnly: bool)
    requires Fitting(s) && t < |s.trackers|
    ensures Fitting(Observe(s, t, length, limit, metadataOnly))
  {
    TrackerReserves(s.trackers, s.capture, t, Observe(s, t, length, limit, metadataOnly).trackers[t]);
  }

  lemma FinishFits(s: State, t: nat)
    requires Fitting(s) && t < |s.trackers|
    ensures Fitting(FinishBody(s, t))
  {
    TrackerReserves(s.trackers, s.capture, t, FinishBody(s, t).trackers[t]);
  }

  lemma AppendFits(s: State, ok: bool)
    requires Fitting(s) && Enabled(s, Append(ok))
    ensures Fitting(Appended(s, ok))
  {
  }

  lemma EndFits(s: State)
    requires Fitting(s) && Enabled(s, End)
    ensures Fitting(Ended(s))
  {
  }

  lemma TrackFits(s: State)
    requires Fitting(s)
    ensures Fitting(s.(trackers := s.trackers + [Tracker(0, 0, false, false)]))
  {
    NewTrackerReserves(s.trackers, s.capture);
  }

  lemma IdleFits(s: State)
    requires Fitting(s) && s.pump.Scheduled?
    ensures Fitting(Take(s))
  {
    TakeFits(s);
  }

  lemma StepFits(s: State, e: Event)
    requires Fitting(s) && Enabled(s, e)
    ensures Fitting(Apply(s, e))
  {
    match e
    case Write(r) => SubmitFits(s, r);
    case Fire => IdleFits(s);
    case Append(ok) => AppendFits(s, ok);
    case Settle => SettleFits(s);
    case End => EndFits(s);
    case Track => TrackFits(s);
    case Chunk(t, length, limit, metadataOnly) => ObserveFits(s, t, length, limit, metadataOnly);
    case Finish(t) => FinishFits(s, t);
  }

  lemma StepKeepsBudget(s: State, e: Event)
    requires Enabled(s, e)
    ensures Apply(s, e).budget == s.budget
  {
  }

  /** In every interleaving of writers, trackers and the pump: captured plus pending bytes stay
      within the budget and are what the trackers and the pending lines account for, at most 4096
      writes are pending, and a non-empty queue always has a pump. */
  lemma {:induction false} EveryRunFits(budget: nat, es: seq<Event>)
    requires IsRun(budget, es)
    ensures Fitting(After(budget, es)) && After(budget, es).budget == budget
  {
    if es != [] {
      EveryRunFits(budget, es[..|es| - 1]);
      StepFits(After(budget, es[..|es| - 1]), es[|es| - 1]);
      StepKeepsBudget(After(budget, es[..|es| - 1]), es[|es| - 1]);
    }
  }

  // What is left of the budget, by what the trackers hold and the lines that are not yet released.
  function Free(s: State): int {
    s.budget - Held(s.trackers) - 2 * (Bytes(s.batch) + Bytes(s.queue))
  }

  lemma FreeIsExact(budget: nat, es: seq<Event>, s: State)
    requires IsRun(budget, es) && s == After(budget, es)
    ensures Free(s) == s.budget - s.capture - s.pendingWriteBytes && s.pendingWrites == |s.batch| + |s.queue|
  {
    EveryRunFits(budget, es);
  }

  /** A record is admitted if and only if it serializes, fewer than 4096 are pending, and twice its
      size fits in what is left of the budget, in full or, if not so, without its bodies. It is then
      queued last, in full if that fits; otherwise the queue stays as it is and exactly one drop
      counter, that of the first obstacle, goes up by one. */
  lemma SubmitExactly(budget: nat, es: seq<Event>, s: State, r: Submission)
    requires IsRun(budget, es) && s == After(budget, es)
    ensures var t := Submit(s, r);
            var whole, bare := r.full + r.caller, r.stripped + r.caller;
            var room, fits := |s.batch| + |s.queue| < 4096, 2 * whole <= Free(s) || 2 * bare <= Free(s);
            && t.log.fates == s.log.fates + [r.serializable && room && fits]
            && t.trackers == s.trackers && t.batch == s.batch
            && (if r.serializable && room && fits
                then t.queue == s.queue + [Item(|s.log.fates|, r.file, if 2 * whole <= Free(s) then whole else bare)] && t.health == s.health
                else t.queue == s.queue &&
                     t.health == if !r.serializable then s.health.(serializationDropped := s.health.serializationDropped + 1)
                                 else if !room then s.health.(queueDropped := s.health.queueDropped + 1)
                                 else s.health.(budgetDropped := s.health.budgetDropped + 1))
  {
    FreeIsExact(budget, es, s);
    SubmitStep(s, r, Free(s));
  }

  lemma SubmitStep(s: State, r: Submission, free: int)
    requires free == s.budget - s.capture - s.pendingWriteBytes
    ensures var t := Submit(s, r);
            var whole, bare := r.full + r.caller, r.stripped + r.caller;
            var room, fits := s.pendingWrites < 4096, 2 * whole <= free || 2 * bare <= free;
            && t.log.fates == s.log.fates + [r.serializable && room && fits] && t.trackers == s.trackers && t.batch == s.batch
            && (if r.serializable && room && fits
                then t.queue == s.queue + [Item(|s.log.fates|, r.file, if 2 * whole <= free then whole else bare)] && t.health == s.health
                else t.queue == s.queue &&
                     t.health == if !r.serializable then s.health.(serializationDropped := s.health.serializationDropped + 1)
                                 else if !room then s.health.(queueDropped := s.health.queueDropped + 1)
                                 else s.health.(budgetDropped := s.health.budgetDropped + 1))
  {
  }

  /** A chunk of a body is kept, at three times its length, if and only if nothing of that body was
      omitted, it stays within its size limit, bodies may be captured, and the budget has room. If it
      is not kept the body gives back all it held. Nobody else's reservation changes. */
  lemma ObserveExactly(budget: nat, es: seq<Event>, s: State, i: nat, length: nat, limit: nat, metadataOnly: bool)
    requires IsRun(budget, es) && s == After(budget, es) && i < |s.trackers| && !s.trackers[i].finished
    ensures var t, k := Observe(s, i, length, limit, metadataOnly), s.trackers[i];
            var kept := !k.omitted && k.total + length <= limit && !metadataOnly && 3 * length <= Free(s);
            && t.trackers == s.trackers[i := Tracker(if kept then k.held + 3 * length else 0, k.total + length, !kept, false)]
            && t.queue == s.queue && t.batch == s.batch && t.log == s.log && t.health == s.health
  {
    FreeIsExact(budget, es, s);
    OmittedHoldsNothing(budget, es, s, i);
    ObserveStep(s, i, length, limit, metadataOnly);
  }

  lemma OmittedHoldsNothing(budget: nat, es: seq<Event>, s: State, i: nat)
    requires IsRun(budget, es) && s == After(budget, es) && i < |s.trackers|
    ensures s.trackers[i].omitted ==> s.trackers[i].held == 0
  {
    EveryRunFits(budget, es);
    assert Reserved(s.trackers, s.capture);
  }

  lemma ObserveStep(s: State, i: nat, length: nat, limit: nat, metadataOnly: bool)
    requires i < |s.trackers| && !s.trackers[i].finished && (s.trackers[i].omitted ==> s.trackers[i].held == 0)
    ensures var t, k := Observe(s, i, length, limit, metadataOnly), s.trackers[i];
            var kept := !k.omitted && k.total + length <= limit && !metadataOnly
                        && s.capture + s.pendingWriteBytes + length * 3 <= s.budget;
            && t.trackers == s.trackers[i := Tracker(if kept then k.held + 3 * length else 0, k.total + length, !kept, false)]
            && t.queue == s.queue && t.batch == s.batch && t.log == s.log && t.health == s.health
  {
  }

  /** A finished body holds nothing any more, and no later chunk changes anything. */
  lemma FinishExactly(s: State, i: nat, length: nat, limit: nat, metadataOnly: bool)
    requires i < |s.trackers| && (s.trackers[i].finished ==> s.trackers[i].held == 0)
    ensures var t := FinishBody(s, i);
            && t.trackers == s.trackers[i := s.trackers[i].(held := 0, finished := true)]
            && Observe(t, i, length, limit, metadataOnly) == t && FinishBody(t, i) == t
            && t.queue == s.queue && t.batch == s.batch && t.log == s.log && t.health == s.health
  {
    assert s.trackers[i].finished ==> s.trackers == s.trackers[i := s.trackers[i].(held := 0, finished := true)];
  }

  // ----- The log -----

  lemma TakeOrders(s: State)
    requires Ordered(s.log, s.queue)
    ensures Ordered(Take(s).log, Take(s).queue)
  {
    if s.queue != [] {
      var n := BatchCount(s.queue);
      BatchCountIsBatch(s.queue);
      assert s.queue == s.queue[..n] + s.queue[n..];
      var batches := s.log.batches + [s.queue[..n]];
      assert batches[..|batches| - 1] == s.log.batches;
      assert Flatten(batches) == Flatten(s.log.batches) + s.queue[..n];
    }
  }

  /** Every batch is for one file, of at most 128 records, and over 256 KiB only as a single record. */
  lemma {:induction false} EveryRunBatches(budget: nat, es: seq<Event>, i: nat)
    requires IsRun(budget, es) && i < |After(budget, es).log.batches|
    ensures WellBatched(After(budget, es).log.batches[i])
  {
    var s, e := After(budget, es[..|es| - 1]), es[|es| - 1];
    if i < |s.log.batches| {
      EveryRunBatches(budget, es[..|es| - 1], i);
    } else {
      BatchCountIsBatch(s.queue);
    }
  }

  /** The batches concatenate with the queue to the order of admission. */
  lemma {:induction false} EveryRunOrders(budget: nat, es: seq<Event>)
    requires IsRun(budget, es)
    ensures Ordered(After(budget, es).log, After(budget, es).queue)
  {
    if es != [] {
      EveryRunOrders(budget, es[..|es| - 1]);
      var s, e := After(budget, es[..|es| - 1]), es[|es| - 1];
      if e.Fire? || e.Settle? {
        TakeOrders(s);
      }
    }
  }

  lemma AppendCounts(log: Log, h: Health, ok: bool)
    requires Counted(log, h) && |log.outcomes| == |log.batches| - 1
    ensures var n := |log.batches[|log.batches| - 1]|;
            Counted(log.(outcomes := log.outcomes + [ok]),
                    if ok then h.(written := h.written + n) else h.(ioFailed := h.ioFailed + n))
  {
    assert (log.outcomes + [ok])[..|log.outcomes|] == log.outcomes;
  }

  lemma StepCounts(s: State, e: Event)
    requires Counted(s.log, s.health) && Pumped(s) && Enabled(s, e)
    ensures Counted(Apply(s, e).log, Apply(s, e).health)
  {
    if e.Append? {
      AppendCounts(s.log, s.health, e.ok);
    } else if (e.Fire? || e.Settle?) && s.queue != [] {
      BatchCountIsBatch(s.queue);
      CountIgnoresLater(s.log.batches, s.log.outcomes, true, s.queue[..BatchCount(s.queue)]);
      CountIgnoresLater(s.log.batches, s.log.outcomes, false, s.queue[..BatchCount(s.queue)]);
    }
  }

  /** The health counters are the sizes of the batches by outcome and the number of drops. */
  lemma {:induction false} EveryRunCounts(budget: nat, es: seq<Event>)
    requires IsRun(budget, es)
    ensures Counted(After(budget, es).log, After(budget, es).health)
  {
    if es != [] {
      EveryRunCounts(budget, es[..|es| - 1]);
      EveryRunFits(budget, es[..|es| - 1]);
      StepCounts(After(budget, es[..|es| - 1]), es[|es| - 1]);
    }
  }

  // The items admitted are those of the admitted submissions, in order.
  ghost predicate Admitted(log: Log) {
    Ids(log.admitted) == Admissions(log.fates)
  }

  lemma DropAdmits(s: State, h: Health)
    requires Admitted(s.log)
    ensures Admitted(Drop(s, h).log)
  {
    assert (s.log.fates + [false])[..|s.log.fates|] == s.log.fates;
  }

  lemma AdmitAdmits(s: State, item: Item)
    requires Admitted(s.log) && item.id == |s.log.fates|
    ensures Admitted(Admit(s, item).log)
  {
    assert (s.log.fates + [true])[..|s.log.fates|] == s.log.fates;
    assert Ids(s.log.admitted + [item]) == Ids(s.log.admitted) + [item.id];
  }

  lemma SubmitAdmits(s: State, r: Submission)
    requires Admitted(s.log)
    ensures Admitted(Submit(s, r).log)
  {
    var bytes := Size(s, r);
    if !r.serializable {
      DropAdmits(s, s.health.(serializationDropped := s.health.serializationDropped + 1));
    } else if s.pendingWrites >= MAX_PENDING {
      DropAdmits(s, s.health.(queueDropped := s.health.queueDropped + 1));
    } else if s.capture + s.pendingWriteBytes + bytes * 2 > s.budget {
      DropAdmits(s, s.health.(budgetDropped := s.health.budgetDropped + 1));
    } else {
      AdmitAdmits(s, Item(|s.log.fates|, r.file, bytes));
    }
  }

  lemma OthersAdmitNothing(s: State, e: Event)
    requires Enabled(s, e) && !e.Write?
    ensures Apply(s, e).log.fates == s.log.fates && Apply(s, e).log.admitted == s.log.admitted
  {
  }

  /** The items admitted are those of the admitted submissions, in order. */
  lemma {:induction false} EveryRunAdmits(budget: nat, es: seq<Event>)
    requires IsRun(budget, es)
    ensures Admitted(After(budget, es).log)
  {
    if es != [] {
      EveryRunAdmits(budget, es[..|es| - 1]);
      var s, e := After(budget, es[..|es| - 1]), es[|es| - 1];
      if e.Write? {
        SubmitAdmits(s, e.record);
      } else {
        OthersAdmitNothing(s, e);
      }
    }
  }

  /** A submission is among them exactly when it was admitted, and then once. */
  lemma {:induction false} AdmittedOnce(fates: seq<bool>, k: nat)
    ensures k in Admissions(fates) <==> k < |fates| && fates[k]
    ensures forall i, j :: 0 <= i < j < |Admissions(fates)| ==> Admissions(fates)[i] < Admissions(fates)[j]
    ensures forall i :: 0 <= i < |Admissions(fates)| ==> Admissions(fates)[i] < |fates|
  {
    if fates != [] {
      AdmittedOnce(fates[..|fates| - 1], k);
    }
  }

  // The loop test of `flushRuntimeAudit` at its exit.
  predicate FlushReturns(s: State) {
    s.pump.Off? && s.queue == []
  }

  lemma AllCounted(s: State)
    requires Ordered(s.log, s.queue) && Counted(s.log, s.health) && Decided(s) && FlushReturns(s)
    ensures s.health.written + s.health.ioFailed + Dropped(s.health) == |s.log.fates|
  {
    CountsAll(s.log.batches, s.log.outcomes);
    assert s.log.batches[..|s.log.outcomes|] == s.log.batches;
  }

  lemma NothingPending(s: State)
    requires Fitting(s) && FlushReturns(s)
    ensures s.pendingWrites == 0 && s.pendingWriteBytes == 0 && Decided(s)
  {
  }

  /** When a flush returns nothing is pending any more. */
  lemma FlushDrains(budget: nat, es: seq<Event>)
    requires IsRun(budget, es) && FlushReturns(After(budget, es))
    ensures After(budget, es).pendingWrites == 0 && After(budget, es).pendingWriteBytes == 0
    ensures Decided(After(budget, es))
  {
    EveryRunFits(budget, es);
    NothingPending(After(budget, es));
  }

  /** What reached the log is then the admitted submissions, in order and once each. */
  lemma FlushWritesInOrder(budget: nat, es: seq<Event>)
    requires IsRun(budget, es) && FlushReturns(After(budget, es))
    ensures Ids(Flatten(After(budget, es).log.batches)) == Admissions(After(budget, es).log.fates)
  {
    EveryRunOrders(budget, es);
    EveryRunAdmits(budget, es);
    assert Flatten(After(budget, es).log.batches) + [] == Flatten(After(budget, es).log.batches);
  }

  lemma LogAtFlush(budget: nat, es: seq<Event>, s: State)
    requires IsRun(budget, es) && s == After(budget, es) && FlushReturns(s)
    ensures Ordered(s.log, s.queue) && Counted(s.log, s.health) && Decided(s)
  {
    FlushDrains(budget, es);
    EveryRunOrders(budget, es);
    EveryRunCounts(budget, es);
  }

  /** Every record submitted so far is then counted exactly once: as written, I/O-failed or dropped. */
  lemma FlushCountsAll(budget: nat, es: seq<Event>, s: State)
    requires IsRun(budget, es) && s == After(budget, es) && FlushReturns(s)
    ensures s.health.written + s.health.ioFailed + Dropped(s.health) == |s.log.fates|
  {
    LogAtFlush(budget, es, s);
    AllCounted(s);
  }

  /** With all trackers finished and a flush returned, the whole budget is free again. */
  lemma NothingLeaks(budget: nat, es: seq<Event>)
    requires IsRun(budget, es) && FlushReturns(After(budget, es))
    requires forall i :: 0 <= i < |After(budget, es).trackers| ==> After(budget, es).trackers[i].finished
    ensures After(budget, es).capture == 0 && After(budget, es).pendingWriteBytes == 0
  {
    EveryRunFits(budget, es);
    NothingHeld(After(budget, es).trackers);
  }

  lemma {:induction false} NothingHeld(ts: seq<Tracker>)
    requires forall i :: 0 <= i < |ts| ==> ts[i].held == 0
    ensures Held(ts) == 0
  {
    if ts != [] {
      NothingHeld(ts[..|ts| - 1]);
    }
  }

  // ----- The loops of the source -----

  method TakeBatch(q: seq<Item>) returns (batch: seq<Item>, rest: seq<Item>)
    requires q != []
    ensures batch + rest == q && |batch| == BatchCount(q)
    ensures WellBatched(batch) && !Fits(q, |batch|, Bytes(batch))
  {
    var first := q[0];
    var count := 1;
    var bytes: nat := first.bytes;
    while count < |q| && count < BATCH_RECORDS
      invariant 1 <= count <= |q| && count <= BATCH_RECORDS
      invariant Grow(q, count, bytes) == BatchCount(q)
    {
      var next := q[count];
      if next.file != first.file || bytes + next.bytes > BATCH_BYTES {
        break;
      }
      bytes := bytes + next.bytes;
      count := count + 1;
    }
    BatchCountIsBatch(q);
    batch, rest := q[..count], q[count..];
  }

  method ReleaseBatch(batch: seq<Item>, writes: int, bytes: int) returns (pendingWrites: int, pendingWriteBytes: int)
    ensures pendingWrites == writes - |batch| && pendingWriteBytes == Release(bytes, batch)
  {
    pendingWrites, pendingWriteBytes := writes, bytes;
    for i := 0 to |batch|
      invariant pendingWrites == writes - i && pendingWriteBytes == Release(bytes, batch[..i])
    {
      assert batch[..i + 1][..i] == batch[..i];
      pendingWrites := pendingWrites - 1;
      pendingWriteBytes := if pendingWriteBytes - Reservation(batch[i]) < 0 then 0 else pendingWriteBytes - Reservation(batch[i]);
    }
    assert batch[..|batch|] == batch;
  }

  /** The module variables of the writer; `log` and `batch` record what its promises hold. */
  class AuditWriter {
    const budget: nat
    var pendingQueue: seq<Item>
    var batch: seq<Item>
    var pump: Pump
    var pendingWrites: int
    var pendingWriteBytes: int
    var captureMemoryBytes: int
    var trackers: seq<Tracker>
    var health: Health
    var log: Log

    function View(): State
      reads this
    {
      State(budget, pendingQueue, batch, pump, pendingWrites, pendingWriteBytes, captureMemoryBytes, trackers, health, log)
    }

    constructor (budget: nat)
      ensures View() == Start(budget)
    {
      this.budget := budget;
      pendingQueue, batch, pump, pendingWrites, pendingWriteBytes := [], [], Off, 0, 0;
      captureMemoryBytes, trackers, health, log := 0, [], Health(0, 0, 0, 0, 0), Log([], [], [], []);
    }

    method WriteRuntimeCall(r: Submission)
      modifies this
      ensures View() == Submit(old(View()), r)
    {
      var id := |log.fates|;
      log := log.(fates := log.fates + [false]);
      if !r.serializable {
        health := health.(serializationDropped := health.serializationDropped + 1);
        return;
      }
      var bytes := r.full + r.caller;
      if captureMemoryBytes + pendingWriteBytes + bytes * 2 > budget {
        bytes := r.stripped + r.caller;
      }
      if pendingWrites >= MAX_PENDING {
        health := health.(queueDropped := health.queueDropped + 1);
        return;
      }
      if captureMemoryBytes + pendingWriteBytes + bytes * 2 > budget {
        health := health.(budgetDropped := health.budgetDropped + 1);
        return;
      }
      pendingWrites := pendingWrites + 1;
      pendingWriteBytes := pendingWriteBytes + bytes * 2;
      pendingQueue := pendingQueue + [Item(id, r.file, bytes)];
      log := log.(fates := log.fates[id := true], admitted := log.admitted + [Item(id, r.file, bytes)]);
      ScheduleDrain();
    }

    method ScheduleDrain()
      modifies this`pump
      ensures pump == if old(pump).Off? then Scheduled else old(pump)
    {
      if !pump.Off? {
        return;
      }
      pump := Scheduled;
    }

    method DrainTurn()
      modifies this
      ensures View() == Take(old(View()))
    {
      if pendingQueue == [] {
        batch, pump := [], Ending;
        return;
      }
      batch, pendingQueue := TakeBatch(pendingQueue);
      pump := Running;
      log := log.(batches := log.batches + [batch]);
    }

    method FinishBatch()
      modifies this
      ensures View() == Released(old(View()))
    {
      pendingWrites, pendingWriteBytes := ReleaseBatch(batch, pendingWrites, pendingWriteBytes);
      DrainTurn();
    }

    method ObserveChunk(t: nat, length: nat, limit: nat, metadataOnly: bool)
      requires t < |trackers|
      modifies this
      ensures View() == Observe(old(View()), t, length, limit, metadataOnly)
    {
      var k := trackers[t];
      if k.finished {
        return;
      }
      k := k.(total := k.total + length);
      if !k.omitted {
        if k.total > limit || metadataOnly || captureMemoryBytes + pendingWriteBytes + length * 3 > budget {
          captureMemoryBytes := if captureMemoryBytes - k.held < 0 then 0 else captureMemoryBytes - k.held;
          k := k.(omitted := true, held := 0);
        } else {
          captureMemoryBytes := captureMemoryBytes + length * 3;
          k := k.(held := k.held + length * 3);
        }
      }
      trackers := trackers[t := k];
    }
  }
}
