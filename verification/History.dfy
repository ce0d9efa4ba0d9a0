/** The history store (apps/linsightd/src/history.rs): producers push records into a bounded channel,
    one writer thread batches them into a table keyed by (sensor, ts), prunes it, and `query` reads it.

    The functions on `Store` say what each step does; class `HistoryStore` performs the steps on its own
    fields. Whether the database accepts a transaction is part of the step's environment. Instants of the
    monotonic clock and of the wall clock are microseconds. */
module History {
  import opened Prelude
  import opened Samples
  import Downsample

  const MAX_BATCH: nat := 4096
  const QUEUE_CAPACITY: nat := 16_384
  const FLUSH_INTERVAL: nat := 1_000_000
  const PRUNE_INTERVAL: nat := 3_600_000_000
  const PRUNE_INITIAL_DELAY: nat := 300_000_000

  const TWO_63: int := 0x8000_0000_0000_0000
  const TWO_64: int := 0x1_0000_0000_0000_0000

  datatype HistoricSample = HistoricSample(
    sensor: SensorId, ts: nat, scalar: Option<real>, counter: Option<nat>, state: Option<string>)

  datatype Record = SampleRecord(sample: HistoricSample) | EventRecord(event: AlertEvent)

  datatype Row = Row(scalar: Option<real>, counter: Option<int>, state: Option<string>)
  type SampleTable = map<(SensorId, int), Row>
  type EventTable = map<(string, int), Kind>

  // ---- the database -----------------------------------------------------------------------------

  /** `x as i64` for a `u64`, and `y as u64` for an `i64`. */
  function AsI64(x: nat): int { if x < TWO_63 then x else x - TWO_64 }
  function AsU64(y: int): nat
    requires -TWO_63 <= y
  {
    if y >= 0 then y else y + TWO_64
  }

  function KeyOf(s: HistoricSample): (SensorId, int) { (s.sensor, AsI64(s.ts)) }

  function RowOf(s: HistoricSample): Row
  {
    Row(s.scalar, if s.counter.Some? then Some(AsI64(s.counter.value)) else None, s.state)
  }

  /** `INSERT OR REPLACE` of a whole batch: the last write to a key wins. */
  function Written(table: SampleTable, batch: seq<HistoricSample>): SampleTable
  {
    if batch == [] then table
    else
      var last := batch[|batch| - 1];
      Written(table, batch[..|batch| - 1])[KeyOf(last) := RowOf(last)]
  }

  function WrittenEvents(table: EventTable, batch: seq<AlertEvent>): EventTable
  {
    if batch == [] then table
    else
      var last := batch[|batch| - 1];
      WrittenEvents(table, batch[..|batch| - 1])[(last.rule, AsI64(last.ts)) := last.kind]
  }

  function PrunedSamples(table: SampleTable, cutoff: int): SampleTable
  {
    map k | k in table && k.1 >= cutoff :: table[k]
  }

  function PrunedEvents(table: EventTable, cutoff: int): EventTable
  {
    map k | k in table && k.1 >= cutoff :: table[k]
  }

  // ---- the steps --------------------------------------------------------------------------------

  datatype Store = Store(
    queue: seq<Record>,
    dropped: nat,
    pending: seq<HistoricSample>,
    pendingEvents: seq<AlertEvent>,
    samples: SampleTable,
    events: EventTable,
    lastFlush: int,
    lastPrune: int)

  /** The part of a sample that is kept; tables are not persisted. */
  function Historic(s: Sample): Option<HistoricSample>
  {
    match s.reading
    case Scalar(v) => Some(HistoricSample(s.sensor, s.ts, Some(v), None, None))
    case Counter(n) => Some(HistoricSample(s.sensor, s.ts, None, Some(n), None))
    case State(v) => Some(HistoricSample(s.sensor, s.ts, None, None, Some(v)))
    case Table => None
  }

  function Sent(w: Store, r: Record): Store
  {
    if |w.queue| < QUEUE_CAPACITY then w.(queue := w.queue + [r]) else w.(dropped := w.dropped + 1)
  }

  function Recorded(w: Store, s: Sample): Store
  {
    var h := Historic(s);
    if h.Some? then Sent(w, SampleRecord(h.value)) else w
  }

  /** Several samples, one after the other. */
  function RecordedAll(w: Store, xs: seq<Sample>): Store
  {
    if xs == [] then w else Recorded(RecordedAll(w, xs[..|xs| - 1]), xs[|xs| - 1])
  }

  lemma {:induction false} RecordedOneMore(w: Store, xs: seq<Sample>, x: Sample)
    ensures RecordedAll(w, xs + [x]) == Recorded(RecordedAll(w, xs), x)
  {
    assert (xs + [x])[..|xs|] == xs;
  }

  /** How far `prune_older_than` got: each DELETE can fail, and the second runs only after the first. */
  datatype PruneOutcome = PrunedBoth | PrunedSamplesOnly | PrunedNothing

  /** Everything one pass of the writer loop learns from clocks and database. */
  datatype Pass = Pass(
    checkedAt: int,        // when the flush window was looked at
    flushedAt: int,        // when a flush, if any, was over
    prunedAt: int,         // when the prune gate was looked at
    wall: nat,             // wall clock at that moment
    samplesOk: bool,
    eventsOk: bool,
    prune: PruneOutcome)

  function Received(w: Store): Store
  {
    if w.queue == [] then w
    else match w.queue[0]
      case SampleRecord(s) => w.(queue := w.queue[1..], pending := w.pending + [s])
      case EventRecord(e) => w.(queue := w.queue[1..], pendingEvents := w.pendingEvents + [e])
  }

  predicate FlushDue(w: Store, checkedAt: int)
  {
    |w.pending| >= MAX_BATCH || (w.pending != [] && checkedAt - w.lastFlush >= FLUSH_INTERVAL)
  }

  function FlushedSamples(w: Store, env: Pass): Store
  {
    if FlushDue(w, env.checkedAt) then
      w.(dropped := 0, pending := [], lastFlush := env.flushedAt,
         samples := if env.samplesOk then Written(w.samples, w.pending) else w.samples)
    else w
  }

  function FlushedEvents(w: Store, env: Pass): Store
  {
    w.(pendingEvents := [],
       events := if env.eventsOk then WrittenEvents(w.events, w.pendingEvents) else w.events)
  }

  /** What the prune clock starts at: backdated so that only the initial delay remains, unless that instant
      lies before `origin`, the earliest the monotonic clock can express. */
  function PruneClock(startedAt: int, origin: int): int
  {
    var backdated := startedAt - (PRUNE_INTERVAL - PRUNE_INITIAL_DELAY);
    if backdated >= origin then backdated else startedAt
  }

  predicate PruneDue(w: Store, retention: Option<nat>, now: int)
  {
    retention.Some? && now - w.lastPrune >= PRUNE_INTERVAL
  }

  function Cutoff(retention: nat, wall: nat): int
  {
    AsI64(if wall >= retention then wall - retention else 0)
  }

  function MaybePruned(w: Store, retention: Option<nat>, env: Pass): Store
  {
    if PruneDue(w, retention, env.prunedAt) then
      var cutoff := Cutoff(retention.value, env.wall);
      w.(samples := if env.prune.PrunedNothing? then w.samples else PrunedSamples(w.samples, cutoff),
         events := if env.prune.PrunedBoth? then PrunedEvents(w.events, cutoff) else w.events,
         lastPrune := env.prunedAt)
    else w
  }

  /** One pass of the loop in `run_writer`. */
  function Passed(w: Store, retention: Option<nat>, env: Pass): Store
  {
    MaybePruned(FlushedEvents(FlushedSamples(Received(w), env), env), retention, env)
  }

  /** The exit path, taken once every producer is gone and the channel is drained. */
  function Exited(w: Store, env: Pass): Store
  {
    w.(dropped := 0,
       samples := if env.samplesOk then Written(w.samples, w.pending) else w.samples,
       events := if env.eventsOk then WrittenEvents(w.events, w.pendingEvents) else w.events)
  }

  // ---- the store object -------------------------------------------------------------------------

  class HistoryStore {
    var queue: seq<Record>
    var dropped: nat
    var pending: seq<HistoricSample>
    var pendingEvents: seq<AlertEvent>
    var samples: SampleTable
    var events: EventTable
    var lastFlush: int
    var lastPrune: int

    ghost function View(): Store
      reads this
    {
      Store(queue, dropped, pending, pendingEvents, samples, events, lastFlush, lastPrune)
    }

    constructor (startedAt: int, origin: int, samples: SampleTable, events: EventTable)
      ensures View() == Store([], 0, [], [], samples, events, startedAt, PruneClock(startedAt, origin))
    {
      queue, dropped, pending, pendingEvents := [], 0, [], [];
      this.samples, this.events := samples, events;
      lastFlush, lastPrune := startedAt, PruneClock(startedAt, origin);
    }

    method Record(sample: Sample)
      modifies this
      ensures View() == Recorded(old(View()), sample)
    {
      match sample.reading {
        case Scalar(v) => Send(SampleRecord(HistoricSample(sample.sensor, sample.ts, Some(v), None, None)));
        case Counter(n) => Send(SampleRecord(HistoricSample(sample.sensor, sample.ts, None, Some(n), None)));
        case State(v) => Send(SampleRecord(HistoricSample(sample.sensor, sample.ts, None, None, Some(v))));
        case Table =>
      }
    }

    method Send(r: Record)
      modifies this
      ensures View() == Sent(old(View()), r)
    {
      if |queue| < QUEUE_CAPACITY {
        queue := queue + [r];
      } else {
        dropped := dropped + 1;
      }
    }

    /** All rows of the batch in one transaction, or none of them. */
    method FlushSamples(batch: seq<HistoricSample>, commits: bool)
      modifies this`samples
      ensures samples == if commits then Written(old(samples), batch) else old(samples)
    {
      var table := samples;
      for i := 0 to |batch|
        invariant table == Written(samples, batch[..i])
      {
        assert batch[..i + 1][..i] == batch[..i];
        table := table[KeyOf(batch[i]) := RowOf(batch[i])];
      }
      assert batch[..|batch|] == batch;
      if commits { samples := table; }
    }

    method FlushAlertEvents(batch: seq<AlertEvent>, commits: bool)
      modifies this`events
      ensures events == if commits then WrittenEvents(old(events), batch) else old(events)
    {
      var table := events;
      for i := 0 to |batch|
        invariant table == WrittenEvents(events, batch[..i])
      {
        assert batch[..i + 1][..i] == batch[..i];
        table := table[(batch[i].rule, AsI64(batch[i].ts)) := batch[i].kind];
      }
      assert batch[..|batch|] == batch;
      if commits { events := table; }
    }

    method MaybePrune(retention: Option<nat>, env: Pass)
      modifies this`samples, this`events, this`lastPrune
      ensures View() == MaybePruned(old(View()), retention, env)
      ensures retention.Some? && env.prunedAt - old(lastPrune) >= 3_600_000_000 && env.wall < TWO_63 ==>
                && lastPrune == env.prunedAt
                && (!env.prune.PrunedNothing? ==>
                      forall k :: k in samples <==> k in old(samples) && k.1 >= 0 && k.1 + retention.value >= env.wall)
                && (env.prune.PrunedBoth? ==>
                      forall k :: k in events <==> k in old(events) && k.1 >= 0 && k.1 + retention.value >= env.wall)
    {
      if retention.None? { return; }
      if env.prunedAt - lastPrune < PRUNE_INTERVAL { return; }
      var cutoff := Cutoff(retention.value, env.wall);
      if !env.prune.PrunedNothing? {
        samples := map k | k in samples && k.1 >= cutoff :: samples[k];
        if env.prune.PrunedBoth? {
          events := map k | k in events && k.1 >= cutoff :: events[k];
        }
      }
      lastPrune := env.prunedAt;
    }

    method Receive()
      requires |pending| < MAX_BATCH
      modifies this
      ensures View() == Received(old(View())) && |pending| <= MAX_BATCH
    {
      if queue != [] {
        match queue[0] {
          case SampleRecord(s) => pending := pending + [s];
          case EventRecord(e) => pendingEvents := pendingEvents + [e];
        }
        queue := queue[1..];
      }
    }

    method FlushPendingSamples(env: Pass)
      requires |pending| <= MAX_BATCH
      modifies this
      ensures View() == FlushedSamples(old(View()), env) && |pending| < MAX_BATCH
    {
      if |pending| >= MAX_BATCH || (pending != [] && env.checkedAt - lastFlush >= FLUSH_INTERVAL) {
        dropped := 0;
        FlushSamples(pending, env.samplesOk);
        pending := [];
        lastFlush := env.flushedAt;
      }
    }

    method FlushPendingEvents(env: Pass)
      modifies this
      ensures View() == FlushedEvents(old(View()), env)
    {
      if pendingEvents != [] {
        FlushAlertEvents(pendingEvents, env.eventsOk);
        pendingEvents := [];
      }
    }

    /** One pass of `run_writer`; the batch never grows past MAX_BATCH, also not inside the pass. */
    method WriterPass(retention: Option<nat>, env: Pass)
      requires |pending| < MAX_BATCH
      modifies this
      ensures View() == Passed(old(View()), retention, env)
      ensures |pending| < MAX_BATCH
    {
      Receive();
      FlushPendingSamples(env);
      FlushPendingEvents(env);
      MaybePrune(retention, env);
    }

    method WriterExit(env: Pass)
      modifies this
      ensures View() == Exited(old(View()), env)
    {
      dropped := 0;
      if pending != [] { FlushSamples(pending, env.samplesOk); }
      if pendingEvents != [] { FlushAlertEvents(pendingEvents, env.eventsOk); }
    }
  }

  // ---- reading back -----------------------------------------------------------------------------

  function DecodedReading(row: Row): Reading
    requires row.counter.Some? ==> -TWO_63 <= row.counter.value
  {
    match row
    case Row(Some(v), _, _) => Scalar(v)
    case Row(None, Some(n), _) => Counter(AsU64(n))
    case Row(None, None, Some(s)) => State(s)
    case Row(None, None, None) => Scalar(0.0)
  }

  /** Timestamps of the rows of one sensor inside a window. */
  function WindowOf(table: SampleTable, sensor: SensorId, since: int, until: int): set<int>
  {
    set k | k in table && k.0 == sensor && since <= k.1 <= until :: k.1
  }

  function OrderedWindow(table: SampleTable, sensor: SensorId, since: int, until: int): seq<int>
  {
    Ascending(WindowOf(table, sensor, since, until))
  }

  /** Rows whose integers fit their columns. */
  ghost predicate ProperTable(table: SampleTable)
  {
    forall k | k in table ::
      -TWO_63 <= k.1 < TWO_63 && (table[k].counter.Some? ==> -TWO_63 <= table[k].counter.value < TWO_63)
  }

  function SampleAt(table: SampleTable, sensor: SensorId, ts: int): Sample
    requires ProperTable(table) && (sensor, ts) in table
  {
    Sample(sensor, AsU64(ts), DecodedReading(table[(sensor, ts)]))
  }

  function Query(table: SampleTable, sensor: SensorId, since: int, until: int, maxPoints: Option<nat>): seq<Sample>
    requires ProperTable(table)
  {
    var rows := OrderedWindow(table, sensor, since, until);
    var picked := Downsample.Select(rows, Downsample.Limit(maxPoints));
    Downsample.SelectIsExact(rows, Downsample.Limit(maxPoints));
    seq(|picked|, i requires 0 <= i < |picked| =>
      assert picked[i] in rows;
      SampleAt(table, sensor, picked[i]))
  }
}
