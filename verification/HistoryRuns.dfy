/** Whole runs of the history store: any number of producers recording, the writer looping, and at the
    end the exit path. `Observed` adds to the store what an observer would note down about the run. */
module HistoryRuns {
  import opened Prelude
  import opened Samples
  import opened History
  import Downsample

  datatype Observed = Observed(
    store: Store,
    retention: Option<nat>,
    clock: int,
    recorded: seq<HistoricSample>,   // every scalar, counter or state sample handed to `record`
    accepted: seq<HistoricSample>,   // those the channel had room for
    dropped: seq<HistoricSample>,    // those it had no room for
    drained: seq<HistoricSample>,    // those that left the batch, in order
    stored: seq<HistoricSample>,     // those whose transaction committed
    lost: seq<HistoricSample>,       // those whose transaction failed
    attempts: seq<int>,              // when pruning was attempted
    cutoffs: set<int>,               // cutoffs of prunes that deleted sample rows
    walls: set<nat>,                 // the wall clock at each of these prunes
    events: EventNotes)

  /** The same about alert events. */
  datatype EventNotes = EventNotes(
    accepted: seq<AlertEvent>,
    dropped: seq<AlertEvent>,
    drained: seq<AlertEvent>,
    stored: seq<AlertEvent>,
    lost: seq<AlertEvent>,
    walls: set<nat>)                 // the wall clock at each prune that deleted event rows

  datatype Op = Record(sample: Sample) | RecordEvent(event: AlertEvent) | WriterPass(env: Pass)

  ghost function Begin(startedAt: int, origin: int, retention: Option<nat>, samples: SampleTable, events: EventTable): Observed
  {
    Observed(
      Store([], 0, [], [], samples, events, startedAt, PruneClock(startedAt, origin)),
      retention, startedAt, [], [], [], [], [], [], [], {}, {}, EventNotes([], [], [], [], [], {}))
  }

  ghost predicate Enabled(o: Observed, op: Op)
  {
    op.WriterPass? ==> o.clock <= op.env.checkedAt <= op.env.flushedAt <= op.env.prunedAt
  }

  ghost function Apply(o: Observed, op: Op): Observed
  {
    match op
    case Record(sample) => ApplyRecord(o, sample)
    case RecordEvent(event) => ApplyEvent(o, event)
    case WriterPass(env) => ApplyPass(o, env)
  }

  ghost function ApplyRecord(o: Observed, sample: Sample): Observed
  {
    var h := Historic(sample);
    if h.None? then o
    else
      var o' := o.(store := Recorded(o.store, sample), recorded := o.recorded + [h.value]);
      if |o.store.queue| < QUEUE_CAPACITY
      then o'.(accepted := o.accepted + [h.value])
      else o'.(dropped := o.dropped + [h.value])
  }

  ghost function ApplyEvent(o: Observed, event: AlertEvent): Observed
  {
    o.(store := Sent(o.store, EventRecord(event)),
       events := if |o.store.queue| < QUEUE_CAPACITY then o.events.(accepted := o.events.accepted + [event])
                 else o.events.(dropped := o.events.dropped + [event]))
  }

  ghost function ApplyPass(o: Observed, env: Pass): Observed
  {
    NotePrune(NoteFlush(o, env), env).(store := Passed(o.store, o.retention, env), clock := env.prunedAt,
                                       events := NoteEvents(o, env))
  }

  ghost function NoteFlush(o: Observed, env: Pass): Observed
  {
    var w := Received(o.store);
    if FlushDue(w, env.checkedAt) then
      o.(drained := o.drained + w.pending,
         stored := o.stored + if env.samplesOk then w.pending else [],
         lost := o.lost + if env.samplesOk then [] else w.pending)
    else o
  }

  ghost function NotePrune(o: Observed, env: Pass): Observed
  {
    if PruneDue(o.store, o.retention, env.prunedAt) then
      o.(attempts := o.attempts + [env.prunedAt],
         cutoffs := o.cutoffs + if env.prune.PrunedNothing? then {} else {Cutoff(o.retention.value, env.wall)},
         walls := o.walls + if env.prune.PrunedNothing? then {} else {env.wall})
    else o
  }

  ghost function NoteEvents(o: Observed, env: Pass): EventNotes
  {
    var batch := Received(o.store).pendingEvents;
    EventNotes(o.events.accepted, o.events.dropped, o.events.drained + batch,
               o.events.stored + (if env.eventsOk then batch else []),
               o.events.lost + (if env.eventsOk then [] else batch),
               o.events.walls + if PruneDue(o.store, o.retention, env.prunedAt) && env.prune.PrunedBoth? then {env.wall} else {})
  }

  ghost function Run(o: Observed, ops: seq<Op>): Observed
  {
    if ops == [] then o else Apply(Run(o, ops[..|ops| - 1]), ops[|ops| - 1])
  }

  ghost predicate ValidRun(o: Observed, ops: seq<Op>)
  {
    ops != [] ==> ValidRun(o, ops[..|ops| - 1]) && Enabled(Run(o, ops[..|ops| - 1]), ops[|ops| - 1])
  }

  // ---- what every reachable state satisfies -----------------------------------------------------

  ghost function QueuedSamples(queue: seq<Record>): seq<HistoricSample>
  {
    if queue == [] then []
    else (if queue[0].SampleRecord? then [queue[0].sample] else []) + QueuedSamples(queue[1..])
  }

  /** Where every sample is. */
  ghost predicate Partition(o: Observed)
  {
    && multiset(o.recorded) == multiset(o.accepted) + multiset(o.dropped)
    && o.accepted == o.drained + o.store.pending + QueuedSamples(o.store.queue)
    && multiset(o.drained) == multiset(o.stored) + multiset(o.lost)
    && (o.lost == [] ==> o.stored == o.drained)
    && |o.store.pending| < MAX_BATCH && |o.store.queue| <= QUEUE_CAPACITY
  }

  /** `table` is `full` except for rows older than one of the cutoffs. */
  ghost predicate Covers(table: SampleTable, full: SampleTable, cutoffs: set<int>)
  {
    && (forall k | k in table :: k in full && table[k] == full[k])
    && (forall k | k in full && k !in table :: exists c :: c in cutoffs && k.1 < c)
  }

  ghost predicate Spaced(attempts: seq<int>)
  {
    forall i | 0 < i < |attempts| :: attempts[i] - attempts[i - 1] >= PRUNE_INTERVAL
  }

  ghost predicate Pacing(o: Observed, startedAt: int)
  {
    && Spaced(o.attempts)
    && o.store.lastPrune <= o.clock
    && (if o.attempts == [] then o.store.lastPrune >= startedAt - (PRUNE_INTERVAL - PRUNE_INITIAL_DELAY)
        else o.store.lastPrune == o.attempts[|o.attempts| - 1] && startedAt + PRUNE_INITIAL_DELAY <= o.attempts[0])
  }

  ghost predicate Inv(o: Observed, startedAt: int, initial: SampleTable)
  {
    && Partition(o)
    && Covers(o.store.samples, Written(initial, o.stored), o.cutoffs)
    && Pacing(o, startedAt)
  }

  // ---- facts about the pieces -------------------------------------------------------------------

  lemma {:induction false} QueuedAppend(queue: seq<Record>, r: Record)
    ensures QueuedSamples(queue + [r]) == QueuedSamples(queue) + if r.SampleRecord? then [r.sample] else []
  {
    var last := if r.SampleRecord? then [r.sample] else [];
    if queue == [] {
      assert queue + [r] == [r] && [r][1..] == [];
    } else {
      var first := if queue[0].SampleRecord? then [queue[0].sample] else [];
      assert (queue + [r])[1..] == queue[1..] + [r] && (queue + [r])[0] == queue[0];
      QueuedAppend(queue[1..], r);
      Associate(first, QueuedSamples(queue[1..]), last);
    }
  }

  lemma {:induction false} WrittenAppend(table: SampleTable, a: seq<HistoricSample>, b: seq<HistoricSample>)
    ensures Written(table, a + b) == Written(Written(table, a), b)
  {
    if b == [] {
      assert a + b == a;
    } else {
      var front := b[..|b| - 1];
      assert (a + b)[..|a + b| - 1] == a + front;
      WrittenAppend(table, a, front);
    }
  }

  lemma {:induction false} CoversWritten(table: SampleTable, full: SampleTable, cutoffs: set<int>, batch: seq<HistoricSample>)
    requires Covers(table, full, cutoffs)
    ensures Covers(Written(table, batch), Written(full, batch), cutoffs)
  {
    if batch == [] {
    } else {
      CoversWritten(table, full, cutoffs, batch[..|batch| - 1]);
    }
  }

  lemma CoversPruned(table: SampleTable, full: SampleTable, cutoffs: set<int>, cutoff: int)
    requires Covers(table, full, cutoffs)
    ensures Covers(PrunedSamples(table, cutoff), full, cutoffs + {cutoff})
  {
    var kept := PrunedSamples(table, cutoff);
    forall k | k in full && k !in kept ensures exists c :: c in cutoffs + {cutoff} && k.1 < c {
      if k in table {
        assert cutoff in cutoffs + {cutoff} && k.1 < cutoff;
      } else {
        var c :| c in cutoffs && k.1 < c;
        assert c in cutoffs + {cutoff};
      }
    }
  }

  // ---- every step keeps the invariant -----------------------------------------------------------

  lemma SendKeepsPartition(o: Observed, r: Record)
    requires Partition(o)
    ensures |Sent(o.store, r).queue| <= QUEUE_CAPACITY && Sent(o.store, r).pending == o.store.pending
    ensures |o.store.queue| < QUEUE_CAPACITY ==>
              QueuedSamples(Sent(o.store, r).queue) ==
              QueuedSamples(o.store.queue) + if r.SampleRecord? then [r.sample] else []
  {
    QueuedAppend(o.store.queue, r);
  }

  lemma RecordKeepsPartition(o: Observed, sample: Sample)
    requires Partition(o)
    ensures Partition(ApplyRecord(o, sample))
  {
    var h := Historic(sample);
    if h.Some? {
      SendKeepsPartition(o, SampleRecord(h.value));
      MultisetAppend(o.recorded, [h.value]);
      if |o.store.queue| < QUEUE_CAPACITY {
        MultisetAppend(o.accepted, [h.value]);
        Associate(o.drained + o.store.pending, QueuedSamples(o.store.queue), [h.value]);
      } else {
        MultisetAppend(o.dropped, [h.value]);
      }
    }
  }

  /** Producers leave the table, its history and the prune schedule alone. */
  ghost predicate TableUntouched(o: Observed, after: Observed)
  {
    && after.store.samples == o.store.samples && after.stored == o.stored && after.cutoffs == o.cutoffs
    && after.store.lastPrune == o.store.lastPrune && after.attempts == o.attempts && after.clock == o.clock
  }

  lemma UntouchedKeepsInv(o: Observed, after: Observed, startedAt: int, initial: SampleTable)
    requires Inv(o, startedAt, initial) && TableUntouched(o, after) && Partition(after)
    ensures Inv(after, startedAt, initial)
  {
  }

  lemma ProducersUntouching(o: Observed, op: Op)
    requires !op.WriterPass?
    ensures TableUntouched(o, Apply(o, op))
  {
  }

  lemma EventKeepsPartition(o: Observed, event: AlertEvent)
    requires Partition(o)
    ensures Partition(Apply(o, RecordEvent(event)))
  {
    SendKeepsPartition(o, EventRecord(event));
    var queued := QueuedSamples(o.store.queue);
    assert queued + [] == queued;
  }

  lemma ReceiveKeepsOrder(w: Store)
    ensures Received(w).pending + QueuedSamples(Received(w).queue) == w.pending + QueuedSamples(w.queue)
    ensures |Received(w).pending| <= |w.pending| + 1 && |Received(w).queue| <= |w.queue|
    ensures Received(w).samples == w.samples && Received(w).lastPrune == w.lastPrune
  {
    if w.queue != [] && w.queue[0].SampleRecord? {
      var rest := QueuedSamples(w.queue[1..]);
      assert QueuedSamples(w.queue) == [w.queue[0].sample] + rest;
      assert (w.pending + [w.queue[0].sample]) + rest == w.pending + ([w.queue[0].sample] + rest);
    }
  }

  /** How a pass moves samples: `w` is the store after receiving, `after` the observation after the pass. */
  ghost predicate Moves(o: Observed, w: Store, flushes: bool, commits: bool, after: Observed)
  {
    && after.store.queue == w.queue
    && after.store.pending == (if flushes then [] else w.pending)
    && after.drained == o.drained + (if flushes then w.pending else [])
    && after.stored == o.stored + (if flushes && commits then w.pending else [])
    && after.lost == o.lost + (if flushes && !commits then w.pending else [])
    && after.recorded == o.recorded && after.accepted == o.accepted && after.dropped == o.dropped
  }

  lemma PassMoves(o: Observed, env: Pass)
    ensures var w := Received(o.store);
            Moves(o, w, FlushDue(w, env.checkedAt), env.samplesOk, ApplyPass(o, env))
  {
  }

  lemma MovesKeepPartition(o: Observed, w: Store, flushes: bool, commits: bool, after: Observed)
    requires Partition(o) && Moves(o, w, flushes, commits, after)
    requires w.pending + QueuedSamples(w.queue) == o.store.pending + QueuedSamples(o.store.queue)
    requires |w.queue| <= QUEUE_CAPACITY && (flushes || |w.pending| < MAX_BATCH)
    ensures Partition(after)
  {
    var queued := QueuedSamples(w.queue);
    Associate(o.drained, o.store.pending, QueuedSamples(o.store.queue));
    Associate(o.drained, w.pending, queued);
    if flushes {
      assert after.accepted == after.drained + after.store.pending + queued;
      MultisetAppend(o.drained, w.pending);
      MultisetAppend(o.stored, w.pending);
      MultisetAppend(o.lost, w.pending);
    }
  }

  lemma MultisetAppend(a: seq<HistoricSample>, b: seq<HistoricSample>)
    ensures multiset(a + b) == multiset(a) + multiset(b)
    ensures a + [] == a
  {
  }

  lemma PassKeepsPartition(o: Observed, env: Pass)
    requires Partition(o)
    ensures Partition(ApplyPass(o, env))
  {
    var w := Received(o.store);
    ReceiveKeepsOrder(o.store);
    PassMoves(o, env);
    MovesKeepPartition(o, w, FlushDue(w, env.checkedAt), env.samplesOk, ApplyPass(o, env));
  }

  /** How a pass changes the table: `flushed` is the table before the prune gate. */
  ghost predicate Prunes(o: Observed, flushed: SampleTable, prunes: bool, cutoff: int, after: Observed)
  {
    && after.store.samples == (if prunes then PrunedSamples(flushed, cutoff) else flushed)
    && after.cutoffs == o.cutoffs + (if prunes then {cutoff} else {})
  }

  lemma PassPrunes(o: Observed, env: Pass)
    ensures var flushed := FlushedSamples(Received(o.store), env).samples;
            var prunes := PruneDue(o.store, o.retention, env.prunedAt) && !env.prune.PrunedNothing?;
            Prunes(o, flushed, prunes, if prunes then Cutoff(o.retention.value, env.wall) else 0, ApplyPass(o, env))
  {
  }

  lemma {:induction false} FlushKeepsTable(o: Observed, env: Pass, initial: SampleTable, after: Observed)
    requires Covers(o.store.samples, Written(initial, o.stored), o.cutoffs)
    requires var w := Received(o.store); Moves(o, w, FlushDue(w, env.checkedAt), env.samplesOk, after)
    ensures Covers(FlushedSamples(Received(o.store), env).samples, Written(initial, after.stored), o.cutoffs)
  {
    var w := Received(o.store);
    if FlushDue(w, env.checkedAt) && env.samplesOk {
      WrittenAppend(initial, o.stored, w.pending);
      CoversWritten(o.store.samples, Written(initial, o.stored), o.cutoffs, w.pending);
    } else {
      assert after.stored == o.stored;
    }
  }

  lemma PrunesKeepTable(o: Observed, flushed: SampleTable, full: SampleTable, prunes: bool, cutoff: int,
                        after: Observed)
    requires Covers(flushed, full, o.cutoffs) && Prunes(o, flushed, prunes, cutoff, after)
    ensures Covers(after.store.samples, full, after.cutoffs)
  {
    if prunes {
      CoversPruned(flushed, full, o.cutoffs, cutoff);
    } else {
      assert after.cutoffs == o.cutoffs;
    }
  }

  lemma {:induction false} PassKeepsTable(o: Observed, env: Pass, initial: SampleTable, after: Observed)
    requires Covers(o.store.samples, Written(initial, o.stored), o.cutoffs) && after == ApplyPass(o, env)
    ensures Covers(after.store.samples, Written(initial, after.stored), after.cutoffs)
  {
    PassMoves(o, env);
    PassPrunes(o, env);
    FlushKeepsTable(o, env, initial, after);
    var prunes := PruneDue(o.store, o.retention, env.prunedAt) && !env.prune.PrunedNothing?;
    PrunesKeepTable(o, FlushedSamples(Received(o.store), env).samples, Written(initial, after.stored), prunes,
                    if prunes then Cutoff(o.retention.value, env.wall) else 0, after);
  }

  lemma PassKeepsPacing(o: Observed, env: Pass, startedAt: int)
    requires Pacing(o, startedAt) && Enabled(o, WriterPass(env))
    ensures Pacing(ApplyPass(o, env), startedAt)
  {
  }

  lemma StepKeepsInv(o: Observed, op: Op, startedAt: int, initial: SampleTable)
    requires Inv(o, startedAt, initial) && Enabled(o, op)
    ensures Inv(Apply(o, op), startedAt, initial)
  {
    match op {
      case Record(sample) =>
        RecordKeepsPartition(o, sample);
        ProducersUntouching(o, op);
        UntouchedKeepsInv(o, Apply(o, op), startedAt, initial);
      case RecordEvent(event) =>
        EventKeepsPartition(o, event);
        ProducersUntouching(o, op);
        UntouchedKeepsInv(o, Apply(o, op), startedAt, initial);
      case WriterPass(env) =>
        PassKeepsPartition(o, env);
        PassKeepsTable(o, env, initial, ApplyPass(o, env));
        PassKeepsPacing(o, env, startedAt);
    }
  }

  lemma {:induction false} RunKeepsInv(o: Observed, ops: seq<Op>, startedAt: int, initial: SampleTable)
    requires Inv(o, startedAt, initial) && ValidRun(o, ops)
    ensures Inv(Run(o, ops), startedAt, initial)
  {
    if ops == [] {
    } else {
      RunKeepsInv(o, ops[..|ops| - 1], startedAt, initial);
      StepKeepsInv(Run(o, ops[..|ops| - 1]), ops[|ops| - 1], startedAt, initial);
    }
  }

  // ---- main results -----------------------------------------------------------------------------

  /** At every moment each persistable sample is in exactly one place: refused by the channel, queued,
      in the batch, stored, or lost with a failed transaction; the batch stays below MAX_BATCH. */
  lemma {:induction false} SamplesAreConserved(startedAt: int, origin: int, retention: Option<nat>, initial: SampleTable,
                                               events: EventTable, ops: seq<Op>)
    requires ValidRun(Begin(startedAt, origin, retention, initial, events), ops)
    ensures var o := Run(Begin(startedAt, origin, retention, initial, events), ops);
            && multiset(o.recorded) == multiset(o.dropped) + multiset(QueuedSamples(o.store.queue))
                                       + multiset(o.store.pending) + multiset(o.stored) + multiset(o.lost)
            && |o.store.pending| < 4096 && |o.store.queue| <= 16_384
  {
    var o0 := Begin(startedAt, origin, retention, initial, events);
    RunKeepsInv(o0, ops, startedAt, initial);
    PartitionConserves(Run(o0, ops));
  }

  lemma PartitionConserves(o: Observed)
    requires Partition(o)
    ensures multiset(o.recorded) == multiset(o.dropped) + multiset(QueuedSamples(o.store.queue))
                                    + multiset(o.store.pending) + multiset(o.stored) + multiset(o.lost)
  {
    MultisetAppend(o.drained + o.store.pending, QueuedSamples(o.store.queue));
    MultisetAppend(o.drained, o.store.pending);
  }

  /** A row with timestamp `t` was out of the retention window when the wall clock said `wall`. */
  ghost predicate Expired(t: int, retention: Option<nat>, wall: nat)
  {
    retention.Some? && (wall < TWO_63 ==> t < 0 || t + retention.value < wall)
  }

  /** A prune keeps exactly the rows inside the retention window. */
  lemma CutoffMeaning(retention: nat, wall: nat, t: int)
    requires wall < TWO_63
    ensures t >= Cutoff(retention, wall) <==> t >= 0 && t + retention >= wall
  {
  }

  /** The cutoffs are those of the noted prunes. */
  ghost predicate WallsInv(o: Observed)
  {
    forall c | c in o.cutoffs :: exists w :: w in o.walls && o.retention.Some? && c == Cutoff(o.retention.value, w)
  }

  lemma StepKeepsWalls(o: Observed, op: Op)
    requires WallsInv(o)
    ensures WallsInv(Apply(o, op)) && Apply(o, op).retention == o.retention
  {
    var t := Apply(o, op);
    assert o.walls <= t.walls;
    forall c | c in t.cutoffs ensures exists w :: w in t.walls && t.retention.Some? && c == Cutoff(t.retention.value, w) {
      if c in o.cutoffs {
        var w :| w in o.walls && o.retention.Some? && c == Cutoff(o.retention.value, w);
        assert w in t.walls;
      } else {
        assert op.env.wall in t.walls && c == Cutoff(o.retention.value, op.env.wall);
      }
    }
  }

  lemma {:induction false} RunKeepsWalls(o: Observed, ops: seq<Op>)
    requires WallsInv(o)
    ensures WallsInv(Run(o, ops)) && Run(o, ops).retention == o.retention
  {
    if ops == [] {
    } else {
      RunKeepsWalls(o, ops[..|ops| - 1]);
      StepKeepsWalls(Run(o, ops[..|ops| - 1]), ops[|ops| - 1]);
    }
  }

  /** A row covered but missing was out of the retention window at one of the noted prunes. */
  lemma MissingWasExpired(o: Observed, table: SampleTable, full: SampleTable, k: (SensorId, int))
    requires WallsInv(o) && Covers(table, full, o.cutoffs) && k in full && k !in table
    ensures exists w :: w in o.walls && Expired(k.1, o.retention, w)
  {
    var c :| c in o.cutoffs && k.1 < c;
    var w :| w in o.walls && o.retention.Some? && c == Cutoff(o.retention.value, w);
    if w < TWO_63 { CutoffMeaning(o.retention.value, w, k.1); }
    assert Expired(k.1, o.retention, w);
  }

  /** `table` is `full` except for rows that were out of the retention window at one of these wall clocks. */
  ghost predicate Retains(table: SampleTable, full: SampleTable, retention: Option<nat>, walls: set<nat>)
  {
    && (forall k | k in table :: k in full && table[k] == full[k])
    && (forall k | k in full && k !in table :: exists w :: w in walls && Expired(k.1, retention, w))
  }

  /** When no transaction failed, the table the writer leaves behind is the last-write-wins table of the
      accepted samples, short only of rows that were out of the retention window at some due prune. */
  lemma ExitTableIsLastWriteWins(startedAt: int, origin: int, retention: Option<nat>, initial: SampleTable,
                                 events: EventTable, ops: seq<Op>, env: Pass)
    requires ValidRun(Begin(startedAt, origin, retention, initial, events), ops)
    requires Run(Begin(startedAt, origin, retention, initial, events), ops).store.queue == []
    requires Run(Begin(startedAt, origin, retention, initial, events), ops).lost == [] && env.samplesOk
    ensures var o := Run(Begin(startedAt, origin, retention, initial, events), ops);
            Retains(Exited(o.store, env).samples, Written(initial, o.accepted), retention, o.walls)
  {
    var o0 := Begin(startedAt, origin, retention, initial, events);
    RunKeepsInv(o0, ops, startedAt, initial);
    RunKeepsWalls(o0, ops);
    var o := Run(o0, ops);
    ExitCovers(o, startedAt, initial, env);
    forall k | k in Written(initial, o.accepted) && k !in Exited(o.store, env).samples
      ensures exists w :: w in o.walls && Expired(k.1, retention, w)
    {
      MissingWasExpired(o, Exited(o.store, env).samples, Written(initial, o.accepted), k);
    }
  }

  lemma ExitCovers(o: Observed, startedAt: int, initial: SampleTable, env: Pass)
    requires Inv(o, startedAt, initial) && o.store.queue == [] && o.lost == [] && env.samplesOk
    ensures Covers(Exited(o.store, env).samples, Written(initial, o.accepted), o.cutoffs)
  {
    CoversWritten(o.store.samples, Written(initial, o.stored), o.cutoffs, o.store.pending);
    WrittenAppend(initial, o.stored, o.store.pending);
    assert o.accepted == o.stored + o.store.pending;
  }

  /** At every moment of every run the table holds the last-write-wins table of the stored samples, short only
      of rows that were out of the retention window at some due prune. */
  lemma TableRetainsStored(startedAt: int, origin: int, retention: Option<nat>, initial: SampleTable, events: EventTable,
                           ops: seq<Op>)
    requires ValidRun(Begin(startedAt, origin, retention, initial, events), ops)
    ensures var o := Run(Begin(startedAt, origin, retention, initial, events), ops);
            Retains(o.store.samples, Written(initial, o.stored), retention, o.walls)
  {
    var o0 := Begin(startedAt, origin, retention, initial, events);
    RunKeepsInv(o0, ops, startedAt, initial);
    RunKeepsWalls(o0, ops);
    var o := Run(o0, ops);
    forall k | k in Written(initial, o.stored) && k !in o.store.samples
      ensures exists w :: w in o.walls && Expired(k.1, retention, w)
    {
      MissingWasExpired(o, o.store.samples, Written(initial, o.stored), k);
    }
  }

  /** Prune attempts are an interval apart, and the first waits out the initial delay. */
  lemma {:induction false} PrunesArePaced(startedAt: int, origin: int, retention: Option<nat>, initial: SampleTable, events: EventTable, ops: seq<Op>,
                                          i: nat, j: nat)
    requires ValidRun(Begin(startedAt, origin, retention, initial, events), ops)
    requires i <= j < |Run(Begin(startedAt, origin, retention, initial, events), ops).attempts|
    ensures var attempts := Run(Begin(startedAt, origin, retention, initial, events), ops).attempts;
            && startedAt + 300_000_000 <= attempts[0]
            && attempts[j] - attempts[i] >= (j - i) * 3_600_000_000
  {
    var o0 := Begin(startedAt, origin, retention, initial, events);
    RunKeepsInv(o0, ops, startedAt, initial);
    SpacedApart(Run(o0, ops).attempts, i, j);
  }

  lemma {:induction false} SpacedApart(attempts: seq<int>, i: nat, j: nat)
    requires Spaced(attempts) && i <= j < |attempts|
    ensures attempts[j] - attempts[i] >= (j - i) * PRUNE_INTERVAL
  {
    if i < j { SpacedApart(attempts, i, j - 1); }
  }

  // ---- single passes ----------------------------------------------------------------------------

  /** A pass an interval or more after the last prune, with a retention set, keeps exactly the rows inside the
      retention window: samples if the first DELETE worked, alert events if both did. */
  lemma PruneRemovesOld(w: Store, retention: nat, env: Pass, k: (SensorId, int), e: (string, int))
    requires env.prunedAt - w.lastPrune >= 3_600_000_000 && env.wall < TWO_63
    ensures var t := MaybePruned(w, Some(retention), env);
            && (!env.prune.PrunedNothing? ==>
                  (k in t.samples <==> k in w.samples && k.1 >= 0 && k.1 + retention >= env.wall))
            && (env.prune.PrunedBoth? ==>
                  (e in t.events <==> e in w.events && e.1 >= 0 && e.1 + retention >= env.wall))
            && (k in t.samples ==> t.samples[k] == w.samples[k]) && (e in t.events ==> t.events[e] == w.events[e])
  {
    CutoffMeaning(retention, env.wall, k.1);
    CutoffMeaning(retention, env.wall, e.1);
  }

  /** When a prune is first due: five minutes after the start or, if the clock cannot be set back that far, an
      hour after it. */
  lemma FirstPruneDue(startedAt: int, origin: int, retention: nat, samples: SampleTable, events: EventTable, now: int)
    ensures PruneDue(Begin(startedAt, origin, Some(retention), samples, events).store, Some(retention), now) <==>
            now >= startedAt + if startedAt - 3_300_000_000 >= origin then 300_000_000 else 3_600_000_000
    ensures !PruneDue(Begin(startedAt, origin, None, samples, events).store, None, now)
  {
  }

  /** Samples do not linger: after a pass the batch is empty, or short and younger than the flush window. */
  lemma BatchesAreShortLived(w: Store, retention: Option<nat>, env: Pass)
    ensures var after := Passed(w, retention, env);
            && after.pendingEvents == []
            && (after.pending == [] || (|after.pending| < 4096 && env.checkedAt - after.lastFlush < 1_000_000))
  {
  }

  // ---- reading back what was stored -------------------------------------------------------------

  ghost predicate Representable(s: HistoricSample)
  {
    && s.ts < TWO_64
    && (s.counter.Some? ==> s.counter.value < TWO_64)
    && ((s.scalar.Some? && s.counter.None? && s.state.None?)
        || (s.scalar.None? && s.counter.Some? && s.state.None?)
        || (s.scalar.None? && s.counter.None? && s.state.Some?))
  }

  /** The last stored sample under a key. */
  ghost function LastFor(stored: seq<HistoricSample>, key: (SensorId, int)): Option<HistoricSample>
  {
    if stored == [] then None
    else if KeyOf(stored[|stored| - 1]) == key then Some(stored[|stored| - 1])
    else LastFor(stored[..|stored| - 1], key)
  }

  /** Each key holds the row of the sample stored last under it, or what the table began with. */
  lemma {:induction false} WrittenIsLast(initial: SampleTable, stored: seq<HistoricSample>, key: (SensorId, int))
    requires forall i | 0 <= i < |stored| :: Representable(stored[i])
    ensures key in Written(initial, stored) <==> key in initial || LastFor(stored, key).Some?
    ensures LastFor(stored, key).Some? ==>
              && KeyOf(LastFor(stored, key).value) == key && Representable(LastFor(stored, key).value)
              && Written(initial, stored)[key] == RowOf(LastFor(stored, key).value)
    ensures LastFor(stored, key).None? && key in initial ==> Written(initial, stored)[key] == initial[key]
  {
    if stored == [] {
    } else {
      WrittenIsLast(initial, stored[..|stored| - 1], key);
    }
  }

  lemma {:induction false} StoredRowsAreProper(initial: SampleTable, stored: seq<HistoricSample>, table: SampleTable,
                                               cutoffs: set<int>)
    requires ProperTable(initial) && forall i | 0 <= i < |stored| :: Representable(stored[i])
    requires Covers(table, Written(initial, stored), cutoffs)
    ensures ProperTable(table)
  {
    forall k | k in table
      ensures -TWO_63 <= k.1 < TWO_63 && (table[k].counter.Some? ==> -TWO_63 <= table[k].counter.value < TWO_63)
    {
      WrittenIsLast(initial, stored, k);
    }
  }

  /** Decoding a stored row gives back the sample it was made from. */
  lemma RowRoundTrip(table: SampleTable, h: HistoricSample)
    requires Representable(h) && ProperTable(table) && KeyOf(h) in table && table[KeyOf(h)] == RowOf(h)
    ensures Historic(SampleAt(table, h.sensor, AsI64(h.ts))) == Some(h)
  {
  }

  /** `x` is what was stored last under its sensor and timestamp or, if nothing was, what the table began
      with there. */
  ghost predicate IsLatest(initial: SampleTable, stored: seq<HistoricSample>, x: Sample)
    requires ProperTable(initial)
  {
    var key := (x.sensor, AsI64(x.ts));
    match LastFor(stored, key)
    case Some(h) => Historic(x) == Some(h)
    case None => key in initial && x == SampleAt(initial, key.0, key.1)
  }

  /** The timestamps under which the table holds rows of the sensor inside the window. */
  ghost predicate IsWindow(w: set<int>, table: SampleTable, sensor: SensorId, since: int, until: int)
  {
    forall t :: t in w <==> (sensor, t) in table && since <= t <= until
  }

  /** How many of the timestamps lie before `t`. */
  ghost function Before(w: set<int>, t: int): nat { |set x | x in w && x < t| }

  /** What a query answers, `w` being the timestamps in the window: as many samples as there are timestamps but
      at most the limit, which is 500 unless another was asked for; each the latest under its sensor and
      timestamp, unchanged; in ascending order from the oldest on; all of them if they are within the limit, and
      otherwise the k-th the one with ceil(k * n / limit) timestamps before it. */
  ghost predicate AnswersLatest(q: seq<Sample>, w: set<int>, sensor: SensorId, maxPoints: Option<nat>, initial: SampleTable,
                                stored: seq<HistoricSample>)
    requires ProperTable(initial)
  {
    var limit := if maxPoints.None? then 500 else if maxPoints.value < 1 then 1
                 else if maxPoints.value > 10_000 then 10_000 else maxPoints.value;
    && Spread(q, w, limit) && Complete(q, w, limit)
    && forall i | 0 <= i < |q| :: q[i].sensor == sensor && IsLatest(initial, stored, q[i])
  }

  /** The right number of answers, in order, each at its place among the timestamps. */
  ghost predicate Spread(q: seq<Sample>, w: set<int>, limit: nat)
  {
    && limit > 0 && |q| == (if |w| <= limit then |w| else limit)
    && (forall i, j | 0 <= i < j < |q| :: AsI64(q[i].ts) < AsI64(q[j].ts))
    && (forall i | 0 <= i < |q| :: InPlace(q[i], i, w, limit))
  }

  ghost predicate InPlace(x: Sample, i: nat, w: set<int>, limit: nat)
  {
    && limit > 0 && AsI64(x.ts) in w
    && Before(w, AsI64(x.ts)) == if |w| <= limit then i else (i * |w| + limit - 1) / limit
  }

  /** The oldest is there, and everything is if it is within the limit. */
  ghost predicate Complete(q: seq<Sample>, w: set<int>, limit: nat)
  {
    && (|w| <= limit ==> forall t | t in w :: exists i :: 0 <= i < |q| && AsI64(q[i].ts) == t)
    && (w != {} ==> q != [] && IsLeast(AsI64(q[0].ts), w))
  }

  /** `q` has the picked ones of the ascending timestamps. */
  ghost predicate PicksFrom(q: seq<Sample>, rows: seq<int>, limit: nat)
  {
    && limit > 0 && |q| == (if |rows| <= limit then |rows| else limit)
    && forall i | 0 <= i < |q| ::
         Downsample.Pick(i, limit, |rows|) < |rows| && AsI64(q[i].ts) == rows[Downsample.Pick(i, limit, |rows|)]
  }

  ghost predicate Enumerates(rows: seq<int>, w: set<int>)
  {
    StrictlyAscending(rows) && (forall x :: x in rows <==> x in w) && |rows| == |w|
  }

  lemma PicksAreInPlace(q: seq<Sample>, rows: seq<int>, w: set<int>, limit: nat, i: nat)
    requires PicksFrom(q, rows, limit) && Enumerates(rows, w) && i < |q|
    ensures InPlace(q[i], i, w, limit)
  {
    var pick := Downsample.Pick(i, limit, |rows|);
    RankInOrder(rows, w, pick);
    assert rows[pick] in rows;
  }

  lemma PicksSpread(q: seq<Sample>, rows: seq<int>, w: set<int>, limit: nat)
    requires PicksFrom(q, rows, limit) && Enumerates(rows, w)
    ensures Spread(q, w, limit)
  {
    forall i | 0 <= i < |q| ensures InPlace(q[i], i, w, limit) { PicksAreInPlace(q, rows, w, limit, i); }
    forall i, j | 0 <= i < j < |q| ensures AsI64(q[i].ts) < AsI64(q[j].ts) {
      Downsample.PicksAscend(i, j, limit, |rows|);
    }
  }

  lemma PicksComplete(q: seq<Sample>, rows: seq<int>, w: set<int>, limit: nat)
    requires PicksFrom(q, rows, limit) && Enumerates(rows, w)
    ensures Complete(q, w, limit)
  {
    if |w| <= limit {
      forall t | t in w ensures exists i :: 0 <= i < |q| && AsI64(q[i].ts) == t {
        var i :| 0 <= i < |rows| && rows[i] == t;
        assert Downsample.Pick(i, limit, |rows|) == i && AsI64(q[i].ts) == t;
      }
    }
    if w != {} {
      var x := Member(w);
      assert x in rows;
      Downsample.PickZero(limit, |rows|);
      assert rows[0] in rows;
      forall p | p in w ensures rows[0] <= p { var j :| 0 <= j < |rows| && rows[j] == p; }
    }
  }

  lemma WindowIsWindow(w: set<int>, table: SampleTable, sensor: SensorId, since: int, until: int)
    requires IsWindow(w, table, sensor, since, until)
    ensures WindowOf(table, sensor, since, until) == w
  {
    forall t ensures t in WindowOf(table, sensor, since, until) <==> t in w {
      if (sensor, t) in table && since <= t <= until { assert (sensor, t).1 in WindowOf(table, sensor, since, until); }
    }
  }

  /** In an ascending list the k-th element has k before it. */
  lemma {:induction false} RankInOrder(rows: seq<int>, w: set<int>, k: nat)
    requires StrictlyAscending(rows) && (forall x :: x in rows <==> x in w) && k < |rows|
    ensures Before(w, rows[k]) == k
  {
    var earlier := set x | x in w && x < rows[k];
    assert earlier == set x | x in rows[..k] by {
      forall x | x in earlier ensures x in rows[..k] {
        var j :| 0 <= j < |rows| && rows[j] == x;
        assert rows[..k][j] == x;
      }
    }
    DistinctSize(rows[..k]);
  }

  lemma {:induction false} DistinctSize(xs: seq<int>)
    requires StrictlyAscending(xs)
    ensures |set x | x in xs| == |xs|
  {
    if xs == [] {
      assert (set x | x in xs) == {};
    } else {
      var n := |xs| - 1;
      DistinctSize(xs[..n]);
      assert (set x | x in xs) == (set x | x in xs[..n]) + {xs[n]};
      assert xs[n] !in xs[..n];
    }
  }

  /** Whatever the database held when the daemon opened it, and whatever prunes took away, a query answers as it
      should from the timestamps the table holds. */
  lemma QueryReturnsLastStored(initial: SampleTable, stored: seq<HistoricSample>, table: SampleTable, cutoffs: set<int>,
                               sensor: SensorId, since: int, until: int, maxPoints: Option<nat>, w: set<int>)
    requires ProperTable(initial) && forall i | 0 <= i < |stored| :: Representable(stored[i])
    requires Covers(table, Written(initial, stored), cutoffs) && IsWindow(w, table, sensor, since, until)
    ensures ProperTable(table)
    ensures AnswersLatest(Query(table, sensor, since, until, maxPoints), w, sensor, maxPoints, initial, stored)
  {
    StoredRowsAreProper(initial, stored, table, cutoffs);
    WindowIsWindow(w, table, sensor, since, until);
    var rows, limit := OrderedWindow(table, sensor, since, until), Downsample.Limit(maxPoints);
    var q := Query(table, sensor, since, until, maxPoints);
    QueryShape(table, sensor, since, until, maxPoints);
    PicksSpread(q, rows, w, limit);
    PicksComplete(q, rows, w, limit);
    forall i | 0 <= i < |q| ensures q[i].sensor == sensor && IsLatest(initial, stored, q[i]) {
      PickedRow(initial, stored, table, cutoffs, sensor, rows[Downsample.Pick(i, limit, |rows|)]);
    }
  }

  lemma QueryShape(table: SampleTable, sensor: SensorId, since: int, until: int, maxPoints: Option<nat>)
    requires ProperTable(table)
    ensures var q, rows := Query(table, sensor, since, until, maxPoints), OrderedWindow(table, sensor, since, until);
            var limit := Downsample.Limit(maxPoints);
            && |q| == (if |rows| <= limit then |rows| else limit)
            && (forall i | 0 <= i < |q| ::
                  && Downsample.Pick(i, limit, |rows|) < |rows|
                  && var row := rows[Downsample.Pick(i, limit, |rows|)];
                  && (sensor, row) in table && q[i] == SampleAt(table, sensor, row)
                  && AsI64(q[i].ts) == row && since <= row <= until)
  {
    var rows, limit := OrderedWindow(table, sensor, since, until), Downsample.Limit(maxPoints);
    Downsample.SelectIsExact(rows, limit);
    forall k | 0 <= k < |rows| ensures (sensor, rows[k]) in table && since <= rows[k] <= until {
      assert rows[k] in rows;
    }
  }

  lemma {:induction false} PickedRow(initial: SampleTable, stored: seq<HistoricSample>, table: SampleTable, cutoffs: set<int>,
                                     sensor: SensorId, row: int)
    requires ProperTable(initial) && forall i | 0 <= i < |stored| :: Representable(stored[i])
    requires Covers(table, Written(initial, stored), cutoffs) && ProperTable(table) && (sensor, row) in table
    ensures IsLatest(initial, stored, SampleAt(table, sensor, row))
  {
    WrittenIsLast(initial, stored, (sensor, row));
    if LastFor(stored, (sensor, row)).Some? { RowRoundTrip(table, LastFor(stored, (sensor, row)).value); }
  }

  // ---- queries during a run ---------------------------------------------------------------------

  /** Timestamp and counter fit 64 bits. */
  ghost predicate Fits64(x: Sample) { x.ts < TWO_64 && (x.reading.Counter? ==> x.reading.n < TWO_64) }

  lemma {:induction false} RecordedFit(o: Observed, ops: seq<Op>)
    requires forall i | 0 <= i < |o.recorded| :: Representable(o.recorded[i])
    requires forall op | op in ops && op.Record? :: Fits64(op.sample)
    ensures forall i | 0 <= i < |Run(o, ops).recorded| :: Representable(Run(o, ops).recorded[i])
  {
    if ops == [] {
    } else {
      var n := |ops| - 1;
      assert ops[n] in ops && forall op | op in ops[..n] :: op in ops;
      RecordedFit(o, ops[..n]);
    }
  }

  lemma StoredWasRecorded(o: Observed, i: nat)
    requires Partition(o) && i < |o.stored|
    ensures o.stored[i] in o.recorded
  {
    PartitionConserves(o);
    assert o.stored[i] in multiset(o.stored);
    assert o.stored[i] in multiset(o.recorded);
  }

  /** At every moment of every run, from any database and for samples that fit 64 bits, a query answers from
      what was stored by then: min(n, limit) samples in ascending order from the oldest in the window, each the
      latest under its key. */
  lemma {:induction false} QueryAtAnyMoment(startedAt: int, origin: int, retention: Option<nat>, initial: SampleTable,
                                            events: EventTable, ops: seq<Op>, sensor: SensorId, since: int, until: int,
                                            maxPoints: Option<nat>)
    requires ProperTable(initial) && ValidRun(Begin(startedAt, origin, retention, initial, events), ops)
    requires forall op | op in ops && op.Record? :: Fits64(op.sample)
    ensures var o := Run(Begin(startedAt, origin, retention, initial, events), ops);
            && ProperTable(o.store.samples)
            && forall w | IsWindow(w, o.store.samples, sensor, since, until) ::
                 AnswersLatest(Query(o.store.samples, sensor, since, until, maxPoints), w, sensor, maxPoints, initial, o.stored)
  {
    var o0 := Begin(startedAt, origin, retention, initial, events);
    RunKeepsInv(o0, ops, startedAt, initial);
    RecordedFit(o0, ops);
    var o := Run(o0, ops);
    forall i | 0 <= i < |o.stored| ensures Representable(o.stored[i]) { StoredWasRecorded(o, i); }
    StoredRowsAreProper(initial, o.stored, o.store.samples, o.cutoffs);
    forall w | IsWindow(w, o.store.samples, sensor, since, until)
      ensures AnswersLatest(Query(o.store.samples, sensor, since, until, maxPoints), w, sensor, maxPoints, initial, o.stored)
    {
      QueryReturnsLastStored(initial, o.stored, o.store.samples, o.cutoffs, sensor, since, until, maxPoints, w);
    }
  }

  // ---- alert events -----------------------------------------------------------------------------

  ghost function QueuedEvents(queue: seq<Record>): seq<AlertEvent>
  {
    if queue == [] then []
    else (if queue[0].EventRecord? then [queue[0].event] else []) + QueuedEvents(queue[1..])
  }

  lemma {:induction false} QueuedEventsAppend(queue: seq<Record>, r: Record)
    ensures QueuedEvents(queue + [r]) == QueuedEvents(queue) + if r.EventRecord? then [r.event] else []
  {
    var last := if r.EventRecord? then [r.event] else [];
    if queue == [] {
      assert queue + [r] == [r] && [r][1..] == [];
    } else {
      var first := if queue[0].EventRecord? then [queue[0].event] else [];
      assert (queue + [r])[1..] == queue[1..] + [r] && (queue + [r])[0] == queue[0];
      QueuedEventsAppend(queue[1..], r);
      Associate(first, QueuedEvents(queue[1..]), last);
    }
  }

  /** The last of the events under a rule and a time. */
  ghost function LastEvent(stored: seq<AlertEvent>, key: (string, int)): Option<AlertEvent>
  {
    if stored == [] then None
    else if stored[|stored| - 1].rule == key.0 && AsI64(stored[|stored| - 1].ts) == key.1 then Some(stored[|stored| - 1])
    else LastEvent(stored[..|stored| - 1], key)
  }

  /** Each key holds the kind of the event stored last under its rule and time, or what the table began with. */
  lemma {:induction false} WrittenEventsIsLast(initial: EventTable, stored: seq<AlertEvent>, key: (string, int))
    ensures key in WrittenEvents(initial, stored) <==> key in initial || LastEvent(stored, key).Some?
    ensures LastEvent(stored, key).Some? ==> WrittenEvents(initial, stored)[key] == LastEvent(stored, key).value.kind
    ensures LastEvent(stored, key).None? && key in initial ==> WrittenEvents(initial, stored)[key] == initial[key]
  {
    if stored == [] {
    } else {
      WrittenEventsIsLast(initial, stored[..|stored| - 1], key);
    }
  }

  /** Every event the channel took is drained, or waits in the queue; what was drained was stored or lost. */
  ghost predicate EventPartition(o: Observed)
  {
    && o.store.pendingEvents == []
    && o.events.accepted == o.events.drained + QueuedEvents(o.store.queue)
    && multiset(o.events.drained) == multiset(o.events.stored) + multiset(o.events.lost)
    && (o.events.lost == [] ==> o.events.stored == o.events.drained)
  }

  ghost predicate EventsRetained(table: EventTable, full: EventTable, retention: Option<nat>, walls: set<nat>)
  {
    && (forall k | k in table :: k in full && table[k] == full[k])
    && (forall k | k in full && k !in table :: exists w :: w in walls && Expired(k.1, retention, w))
  }

  ghost predicate EventsInv(o: Observed, initial: EventTable)
  {
    EventPartition(o) && EventsRetained(o.store.events, WrittenEvents(initial, o.events.stored), o.retention, o.events.walls)
  }

  lemma {:induction false} WrittenEventsAppend(table: EventTable, a: seq<AlertEvent>, b: seq<AlertEvent>)
    ensures WrittenEvents(table, a + b) == WrittenEvents(WrittenEvents(table, a), b)
  {
    if b == [] {
      assert a + b == a;
    } else {
      assert (a + b)[..|a + b| - 1] == a + b[..|b| - 1];
      WrittenEventsAppend(table, a, b[..|b| - 1]);
    }
  }

  lemma {:induction false} EventsWritten(table: EventTable, full: EventTable, retention: Option<nat>, walls: set<nat>,
                                         batch: seq<AlertEvent>)
    requires EventsRetained(table, full, retention, walls)
    ensures EventsRetained(WrittenEvents(table, batch), WrittenEvents(full, batch), retention, walls)
  {
    if batch == [] {
    } else {
      EventsWritten(table, full, retention, walls, batch[..|batch| - 1]);
    }
  }

  lemma EventsPruned(table: EventTable, full: EventTable, retention: Option<nat>, walls: set<nat>, wall: nat)
    requires EventsRetained(table, full, retention, walls) && retention.Some?
    ensures EventsRetained(PrunedEvents(table, Cutoff(retention.value, wall)), full, retention, walls + {wall})
  {
    var kept := PrunedEvents(table, Cutoff(retention.value, wall));
    forall k | k in full && k !in kept ensures exists w :: w in walls + {wall} && Expired(k.1, retention, w) {
      if k in table {
        if wall < TWO_63 { CutoffMeaning(retention.value, wall, k.1); }
        assert wall in walls + {wall} && Expired(k.1, retention, wall);
      } else {
        var w :| w in walls && Expired(k.1, retention, w);
        assert w in walls + {wall};
      }
    }
  }

  lemma RecordKeepsEvents(o: Observed, op: Op, initial: EventTable)
    requires EventsInv(o, initial) && !op.WriterPass?
    ensures EventsInv(Apply(o, op), initial)
  {
    match op {
      case Record(sample) =>
        var h := Historic(sample);
        if h.Some? {
          QueuedEventsAppend(o.store.queue, SampleRecord(h.value));
          assert QueuedEvents(o.store.queue) + [] == QueuedEvents(o.store.queue);
        }
      case RecordEvent(event) =>
        QueuedEventsAppend(o.store.queue, EventRecord(event));
        Associate(o.events.drained, QueuedEvents(o.store.queue), [event]);
    }
  }

  lemma ReceiveEvents(w: Store)
    requires w.pendingEvents == []
    ensures Received(w).pendingEvents + QueuedEvents(Received(w).queue) == QueuedEvents(w.queue)
    ensures Received(w).events == w.events
  {
  }

  lemma MultisetEvents(a: seq<AlertEvent>, b: seq<AlertEvent>)
    ensures multiset(a + b) == multiset(a) + multiset(b) && a + [] == a
  {
  }

  lemma PassLeavesQueue(o: Observed, env: Pass)
    ensures ApplyPass(o, env).store.queue == Received(o.store).queue && ApplyPass(o, env).store.pendingEvents == []
  {
  }

  lemma PassKeepsEventPartition(o: Observed, env: Pass)
    requires EventPartition(o)
    ensures EventPartition(ApplyPass(o, env))
  {
    var w := Received(o.store);
    PassLeavesQueue(o, env);
    ReceiveEvents(o.store);
    MultisetEvents(o.events.drained, w.pendingEvents);
    MultisetEvents(o.events.stored, w.pendingEvents);
    MultisetEvents(o.events.lost, w.pendingEvents);
    Associate(o.events.drained, w.pendingEvents, QueuedEvents(w.queue));
  }

  /** How a pass changes the event table: `batch` is what was received, `prunes` whether old events were deleted. */
  ghost predicate EventMoves(o: Observed, batch: seq<AlertEvent>, commits: bool, prunes: bool, wall: nat, t: Observed)
  {
    && t.retention == o.retention
    && t.events.stored == o.events.stored + (if commits then batch else [])
    && t.events.walls == o.events.walls + (if prunes then {wall} else {})
    && var flushed := if commits then WrittenEvents(o.store.events, batch) else o.store.events;
    t.store.events == if prunes && o.retention.Some? then PrunedEvents(flushed, Cutoff(o.retention.value, wall)) else flushed
  }

  lemma PassMovesEvents(o: Observed, env: Pass)
    requires o.store.pendingEvents == []
    ensures var prunes := PruneDue(o.store, o.retention, env.prunedAt) && env.prune.PrunedBoth?;
            EventMoves(o, Received(o.store).pendingEvents, env.eventsOk, prunes, env.wall, ApplyPass(o, env))
            && (prunes ==> o.retention.Some?)
  {
    PassedEvents(o.store, o.retention, env);
  }

  lemma PassedEvents(w: Store, retention: Option<nat>, env: Pass)
    ensures var batch := Received(w).pendingEvents;
            var flushed := if env.eventsOk then WrittenEvents(w.events, batch) else w.events;
            Passed(w, retention, env).events ==
            if PruneDue(w, retention, env.prunedAt) && env.prune.PrunedBoth?
            then PrunedEvents(flushed, Cutoff(retention.value, env.wall)) else flushed
  {
    var samples := FlushedSamples(Received(w), env);
    assert samples.events == w.events && samples.pendingEvents == Received(w).pendingEvents && samples.lastPrune == w.lastPrune;
    var events := FlushedEvents(samples, env);
    assert events.lastPrune == w.lastPrune;
  }

  lemma MovesKeepEventTable(o: Observed, batch: seq<AlertEvent>, commits: bool, prunes: bool, wall: nat, t: Observed,
                            initial: EventTable)
    requires EventsRetained(o.store.events, WrittenEvents(initial, o.events.stored), o.retention, o.events.walls)
    requires EventMoves(o, batch, commits, prunes, wall, t) && (prunes ==> o.retention.Some?)
    ensures EventsRetained(t.store.events, WrittenEvents(initial, t.events.stored), t.retention, t.events.walls)
  {
    var flushed, full := o.store.events, WrittenEvents(initial, o.events.stored);
    if commits {
      WrittenEventsAppend(initial, o.events.stored, batch);
      EventsWritten(flushed, full, o.retention, o.events.walls, batch);
      flushed, full := WrittenEvents(flushed, batch), WrittenEvents(full, batch);
    } else {
      assert o.events.stored + [] == o.events.stored;
    }
    if prunes {
      EventsPruned(flushed, full, o.retention, o.events.walls, wall);
    } else {
      assert o.events.walls + {} == o.events.walls;
    }
  }

  lemma PassKeepsEventTable(o: Observed, env: Pass, initial: EventTable)
    requires EventsInv(o, initial)
    ensures var t := ApplyPass(o, env);
            EventsRetained(t.store.events, WrittenEvents(initial, t.events.stored), t.retention, t.events.walls)
  {
    PassMovesEvents(o, env);
    MovesKeepEventTable(o, Received(o.store).pendingEvents, env.eventsOk,
                        PruneDue(o.store, o.retention, env.prunedAt) && env.prune.PrunedBoth?, env.wall, ApplyPass(o, env), initial);
  }

  lemma {:induction false} RunKeepsEvents(o: Observed, ops: seq<Op>, initial: EventTable)
    requires EventsInv(o, initial)
    ensures EventsInv(Run(o, ops), initial) && Run(o, ops).retention == o.retention
  {
    if ops == [] {
    } else {
      var m, op := Run(o, ops[..|ops| - 1]), ops[|ops| - 1];
      RunKeepsEvents(o, ops[..|ops| - 1], initial);
      if op.WriterPass? {
        PassKeepsEventPartition(m, op.env);
        PassKeepsEventTable(m, op.env, initial);
      } else {
        RecordKeepsEvents(m, op, initial);
      }
    }
  }

  /** At every moment of every run each alert event the channel took waits in the queue, is stored, or was lost
      with a failed transaction; none lingers in a batch; and the table holds the last-write-wins table of the
      stored ones, short only of rows out of the retention window at some due prune. */
  lemma EventsAreConserved(startedAt: int, origin: int, retention: Option<nat>, initial: SampleTable, events: EventTable,
                           ops: seq<Op>)
    ensures var o := Run(Begin(startedAt, origin, retention, initial, events), ops);
            && o.store.pendingEvents == []
            && multiset(o.events.accepted) == multiset(QueuedEvents(o.store.queue)) + multiset(o.events.stored)
                                              + multiset(o.events.lost)
            && (o.events.lost == [] ==> o.events.accepted == o.events.stored + QueuedEvents(o.store.queue))
            && EventsRetained(o.store.events, WrittenEvents(events, o.events.stored), retention, o.events.walls)
  {
    var o0 := Begin(startedAt, origin, retention, initial, events);
    RunKeepsEvents(o0, ops, events);
    MultisetEvents(Run(o0, ops).events.drained, QueuedEvents(Run(o0, ops).store.queue));
  }

  // ---- how rows read back -----------------------------------------------------------------------

  /** A row reads as its scalar if it has one, else as its counter, else as its state, else as zero. */
  lemma RowsReadBack(v: real, n: int, s: string, c: Option<int>, t: Option<string>)
    requires -TWO_63 <= n && (c.Some? ==> -TWO_63 <= c.value)
    ensures DecodedReading(Row(Some(v), c, t)) == Scalar(v)
    ensures DecodedReading(Row(None, Some(n), t)) == Counter(if n >= 0 then n else n + 0x1_0000_0000_0000_0000)
    ensures DecodedReading(Row(None, None, Some(s))) == State(s) && DecodedReading(Row(None, None, None)) == Scalar(0.0)
  {
  }
}
