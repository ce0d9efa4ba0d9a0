/** Whole runs of the scheduler: subscribers come and go, the sampler plans, samples and commits.

    `System` pairs the scheduler's table with what an outside observer would write down about the run
    so far. Each subscription handle is released at most once, the clock never goes back, and a commit
    holds at most one result per item of the latest plan; subscribing and unsubscribing may fall
    anywhere, also between a plan and its commit. */
module SchedulerRuns {
  import opened Prelude
  import opened Samples
  import opened Scheduling

  /** Instants for which no due time can reach the end of the 64-bit range. */
  const CLOCK_LIMIT: nat := U64_MAX - MAX_BACKOFF * MAX_PERIOD

  datatype System = System(
    host: map<SensorId, Descriptor>,
    entries: Entries,
    clock: nat,
    live: multiset<Subscription>,          // handles handed out and not yet released
    inFlight: set<SensorId>,               // items of the latest plan without a committed result
    readSince: set<SensorId>,              // sensors with a committed success since their last subscribe
    lastRead: map<SensorId, nat>,          // clock of the last committed success since the entry was created
    outcomes: map<SensorId, seq<Outcome>>) // committed results since the entry was created

  datatype Op =
    | Subscribe(id: SensorId, requested: Option<real>)
    | Unsubscribe(sub: Subscription)
    | Plan(now: nat)
    | Commit(results: Results, now: nat)

  ghost function Start(host: map<SensorId, Descriptor>): System
  {
    System(host, map[], 0, multiset{}, {}, {}, map[], map[])
  }

  ghost function Ids(results: Results): set<SensorId>
  {
    set i | 0 <= i < |results| :: results[i].0
  }

  ghost predicate OnePerSensor(results: Results)
  {
    forall i, j | 0 <= i < j < |results| :: results[i].0 != results[j].0
  }

  ghost predicate Enabled(s: System, op: Op)
  {
    match op
    case Subscribe(_, _) => true
    case Unsubscribe(sub) => sub in s.live
    case Plan(now) => s.clock <= now < CLOCK_LIMIT
    case Commit(results, now) =>
      s.clock <= now < CLOCK_LIMIT && OnePerSensor(results) && Ids(results) <= s.inFlight
  }

  /** The result a commit holds for `id`, if any. */
  ghost function ResultFor(results: Results, id: SensorId): Option<Outcome>
  {
    if results == [] then None
    else if results[|results| - 1].0 == id then Some(results[|results| - 1].1)
    else ResultFor(results[..|results| - 1], id)
  }

  ghost function Extend(log: seq<Outcome>, result: Option<Outcome>): seq<Outcome>
  {
    if result.Some? then log + [result.value] else log
  }

  ghost function OutcomesOf(s: System, id: SensorId): seq<Outcome>
  {
    if id in s.outcomes then s.outcomes[id] else []
  }

  ghost function Apply(s: System, op: Op): System
  {
    match op
    case Subscribe(id, requested) =>
      if id !in s.host then s
      else
        var period := PeriodFor(s.host[id], requested);
        s.(entries := Subscribed(s.entries, id, period, s.host[id].isStatic),
           live := s.live + multiset{Subscription(id, period)},
           readSince := s.readSince - {id},
           lastRead := if id in s.entries then s.lastRead else s.lastRead - {id},
           outcomes := if id in s.entries then s.outcomes else s.outcomes[id := []])
    case Unsubscribe(sub) =>
      s.(entries := Unsubscribed(s.entries, sub), live := s.live - multiset{sub})
    case Plan(now) =>
      s.(entries := Planned(s.entries, now), clock := now,
         inFlight := set id | id in s.entries && IsDue(s.entries[id], now))
    case Commit(results, now) =>
      s.(entries := Committed(s.entries, results, now), clock := now,
         inFlight := s.inFlight - Ids(results),
         readSince := s.readSince + (set id | id in s.entries && Succeeded(results, id)),
         lastRead := map id | id in s.entries && (id in s.lastRead || Succeeded(results, id)) ::
                       if Succeeded(results, id) then now else s.lastRead[id],
         outcomes := map id | id in s.entries :: Extend(OutcomesOf(s, id), ResultFor(results, id)))
  }

  ghost predicate Succeeded(results: Results, id: SensorId)
  {
    ResultFor(results, id).Some? && ResultFor(results, id).value.Success?
  }

  ghost function Run(s: System, ops: seq<Op>): System
  {
    if ops == [] then s else Apply(Run(s, ops[..|ops| - 1]), ops[|ops| - 1])
  }

  ghost predicate ValidRun(s: System, ops: seq<Op>)
  {
    ops != [] ==>
      && ValidRun(s, ops[..|ops| - 1])
      && Enabled(Run(s, ops[..|ops| - 1]), ops[|ops| - 1])
  }

  // ---- what every reachable state satisfies ---------------------------------------------------

  ghost function CountIn(entries: Entries, id: SensorId, period: nat): nat
  {
    if id in entries then CountOf(entries[id].periodCounts, period) else 0
  }

  /** The counters are the multiset of live handles. */
  ghost predicate CountsMatch(s: System)
  {
    forall id, period: nat :: CountIn(s.entries, id, period) == s.live[Subscription(id, period)]
  }

  /** An entry is held by at least one handle and runs at the fastest period asked for. */
  ghost predicate EntryCadence(e: Entry)
  {
    && e.period in e.periodCounts
    && forall p | p in e.periodCounts :: e.periodCounts[p] > 0 && MIN_PERIOD <= e.period <= p <= MAX_PERIOD
  }

  ghost predicate EntryTimes(s: System, id: SensorId)
  {
    id in s.entries && var e := s.entries[id];
    && (e.nextDue == U64_MAX || e.nextDue <= s.clock + MAX_BACKOFF * MAX_PERIOD)
    && (e.lastSampled.Some? ==> e.lastSampled.value <= s.clock)
    && e.lastSampled == (if id in s.lastRead then Some(s.lastRead[id]) else None)
    && (e.nextDue == U64_MAX <==> e.isStatic && id in s.readSince)
    && (e.nextDue == U64_MAX ==> id !in s.inFlight)
    && id in s.host && e.isStatic == s.host[id].isStatic
  }

  /** Results of one kind after the last success. */
  ghost function SinceSuccess(log: seq<Outcome>, kind: Outcome): nat
  {
    if log == [] then 0
    else
      var last := log[|log| - 1];
      if last.Success? then 0
      else SinceSuccess(log[..|log| - 1], kind) + if last == kind then 1 else 0
  }

  ghost predicate EntryStrikes(s: System, id: SensorId)
  {
    && id in s.entries
    && s.entries[id].timeoutStrikes == Min(SinceSuccess(OutcomesOf(s, id), Timeout), U32_MAX)
    && s.entries[id].unsupportedStrikes == Min(SinceSuccess(OutcomesOf(s, id), Unsupported), U32_MAX)
  }

  ghost predicate EntryInv(s: System, id: SensorId)
  {
    id in s.entries && EntryCadence(s.entries[id]) && EntryTimes(s, id) && EntryStrikes(s, id)
  }

  ghost predicate Inv(s: System)
  {
    && CountsMatch(s)
    && s.clock < CLOCK_LIMIT
    && forall id | id in s.entries :: EntryInv(s, id)
  }

  // ---- commits, one sensor at a time ----------------------------------------------------------

  lemma {:induction false} ResultForFound(results: Results, id: SensorId)
    ensures ResultFor(results, id).Some? <==> id in Ids(results)
  {
    if results == [] {
    } else {
      var front := results[..|results| - 1];
      ResultForFound(front, id);
      assert Ids(results) == Ids(front) + {results[|results| - 1].0};
    }
  }

  lemma {:induction false} CommittedAt(entries: Entries, results: Results, now: nat, id: SensorId)
    requires OnePerSensor(results) && id in entries
    ensures Committed(entries, results, now)[id] ==
            match ResultFor(results, id)
            case None => entries[id]
            case Some(outcome) => Settle(entries[id], outcome, now)
  {
    if results == [] {
    } else {
      var front := results[..|results| - 1];
      CommittedAt(entries, front, now, id);
      ResultForFound(front, id);
      if results[|results| - 1].0 == id {
        assert id !in Ids(front);
      }
    }
  }

  lemma BackOffFactor(strikes: nat)
    ensures 1 <= Pow2(Min(strikes, STRIKE_CAP)) <= MAX_BACKOFF
    ensures strikes > 0 ==> Pow2(Min(strikes, STRIKE_CAP)) >= 2
  {
    var k := Min(strikes, STRIKE_CAP);
    assert Pow2(8) == 256 by { assert Pow2(4) == 16; }
    PowMonotone(0, k);
    PowMonotone(k, 8);
    if strikes > 0 { PowMonotone(1, k); }
  }

  lemma {:induction false} PowMonotone(a: nat, b: nat)
    requires a <= b
    ensures Pow2(a) <= Pow2(b)
  {
    if a < b { PowMonotone(a, b - 1); }
  }

  lemma ScaleBounds(period: nat, factor: nat)
    requires 1 <= factor <= MAX_BACKOFF && period <= MAX_PERIOD
    ensures period <= period * factor <= period * MAX_BACKOFF <= MAX_PERIOD * MAX_BACKOFF
    ensures factor >= 2 ==> 2 * period <= period * factor
  {
    assert period * (factor - 1) >= 0;
    assert period * (MAX_BACKOFF - factor) >= 0;
    if factor >= 2 { assert period * (factor - 2) >= 0; }
  }

  lemma BackOffExact(e: Entry, strikes: nat, now: nat)
    requires e.period <= MAX_PERIOD && now < CLOCK_LIMIT
    ensures BackOff(e, strikes, now) == now + e.period * Pow2(Min(strikes, STRIKE_CAP))
    ensures now + e.period <= BackOff(e, strikes, now) <= now + e.period * MAX_BACKOFF
    ensures e.period * MAX_BACKOFF <= MAX_PERIOD * MAX_BACKOFF
    ensures strikes > 0 ==> now + 2 * e.period <= BackOff(e, strikes, now)
  {
    BackOffFactor(strikes);
    ScaleBounds(e.period, Pow2(Min(strikes, STRIKE_CAP)));
  }

  // ---- every step keeps the invariant ---------------------------------------------------------

  lemma SubscribeKeepsCounts(s: System, id: SensorId, requested: Option<real>)
    requires CountsMatch(s) && id in s.host
    ensures CountsMatch(Apply(s, Subscribe(id, requested)))
  {
    var t := Apply(s, Subscribe(id, requested));
    forall i, p: nat ensures CountIn(t.entries, i, p) == t.live[Subscription(i, p)] {
      assert CountIn(s.entries, i, p) == s.live[Subscription(i, p)];
    }
  }

  lemma SubscribeKeepsInv(s: System, id: SensorId, requested: Option<real>)
    requires Inv(s)
    ensures Inv(Apply(s, Subscribe(id, requested)))
  {
    if id in s.host {
      var period := PeriodFor(s.host[id], requested);
      var t := Apply(s, Subscribe(id, requested));
      SubscribeKeepsCounts(s, id, requested);
      forall i | i in t.entries ensures EntryInv(t, i) {
        if i in s.entries { assert EntryInv(s, i); }
        if i == id { FreshEntryCadence(s.entries, id, period, s.host[id].isStatic); }
      }
    }
  }

  lemma FreshEntryCadence(entries: Entries, id: SensorId, period: nat, isStatic: bool)
    requires MIN_PERIOD <= period <= MAX_PERIOD
    requires id in entries ==> EntryCadence(entries[id])
    ensures EntryCadence(Subscribed(entries, id, period, isStatic)[id])
  {
    if id in entries {
      var counts := AddPeriod(entries[id].periodCounts, period);
      assert period in counts;
      var fastest := FastestPeriod(counts);
      assert Subscribed(entries, id, period, isStatic)[id].period == fastest;
    }
  }

  lemma DroppedPeriodCadence(e: Entry, period: nat)
    requires EntryCadence(e) && DropPeriod(e.periodCounts, period) != map[]
    ensures var counts := DropPeriod(e.periodCounts, period);
            EntryCadence(e.(periodCounts := counts, period := FastestPeriod(counts)))
  {
    var counts := DropPeriod(e.periodCounts, period);
    var fastest := FastestPeriod(counts);
    assert forall p | p in counts :: p in e.periodCounts;
  }

  lemma UnsubscribeKeepsCounts(s: System, sub: Subscription)
    requires Inv(s) && sub in s.live
    ensures CountsMatch(Apply(s, Unsubscribe(sub)))
  {
    var t := Apply(s, Unsubscribe(sub));
    assert CountIn(s.entries, sub.sensor, sub.period) == s.live[Subscription(sub.sensor, sub.period)];
    var counts := DropPeriod(s.entries[sub.sensor].periodCounts, sub.period);
    forall i, p: nat ensures CountIn(t.entries, i, p) == t.live[Subscription(i, p)] {
      assert CountIn(s.entries, i, p) == s.live[Subscription(i, p)];
      if i == sub.sensor {
        assert EntryInv(s, i);
        assert CountIn(t.entries, i, p) == CountOf(counts, p);
      }
    }
  }

  lemma UnsubscribeKeepsInv(s: System, sub: Subscription)
    requires Inv(s) && sub in s.live
    ensures Inv(Apply(s, Unsubscribe(sub)))
  {
    var t := Apply(s, Unsubscribe(sub));
    UnsubscribeKeepsCounts(s, sub);
    forall i | i in t.entries ensures EntryInv(t, i) {
      assert EntryInv(s, i);
      if i == sub.sensor {
        DroppedPeriodCadence(s.entries[i], sub.period);
        assert EntryCadence(t.entries[i]);
      }
    }
  }

  lemma PlanKeepsEntry(s: System, now: nat, i: SensorId)
    requires Inv(s) && Enabled(s, Plan(now)) && i in s.entries
    ensures EntryInv(Apply(s, Plan(now)), i)
  {
    assert EntryInv(s, i);
    assert Apply(s, Plan(now)).entries[i] == Advance(s.entries[i], now);
  }

  lemma PlanKeepsInv(s: System, now: nat)
    requires Inv(s) && Enabled(s, Plan(now))
    ensures Inv(Apply(s, Plan(now)))
  {
    var t := Apply(s, Plan(now));
    forall i, p: nat ensures CountIn(t.entries, i, p) == t.live[Subscription(i, p)] {
      assert CountIn(s.entries, i, p) == s.live[Subscription(i, p)];
    }
    forall i | i in t.entries ensures EntryInv(t, i) { PlanKeepsEntry(s, now, i); }
  }

  lemma SettleKeepsTimes(e: Entry, outcome: Outcome, now: nat)
    requires now < CLOCK_LIMIT && e.period <= MAX_PERIOD
    ensures var r := Settle(e, outcome, now);
            && r.periodCounts == e.periodCounts && r.period == e.period && r.isStatic == e.isStatic
            && (outcome.Success? ==> r.nextDue == if e.isStatic then U64_MAX else e.nextDue)
            && (outcome.Success? ==> r.lastSampled == Some(now))
            && (!outcome.Success? ==>
                  && r.lastSampled == e.lastSampled
                  && now + e.period <= r.nextDue <= now + MAX_BACKOFF * MAX_PERIOD < U64_MAX)
  {
    match outcome {
      case Unsupported => BackOffExact(e, SaturatingIncU32(e.unsupportedStrikes), now);
      case Timeout => BackOffExact(e, SaturatingIncU32(e.timeoutStrikes), now);
      case _ =>
    }
  }

  lemma {:induction false} SettleKeepsStrikes(e: Entry, outcome: Outcome, now: nat, log: seq<Outcome>)
    requires e.timeoutStrikes == Min(SinceSuccess(log, Timeout), U32_MAX)
    requires e.unsupportedStrikes == Min(SinceSuccess(log, Unsupported), U32_MAX)
    ensures var r := Settle(e, outcome, now);
            && r.timeoutStrikes == Min(SinceSuccess(log + [outcome], Timeout), U32_MAX)
            && r.unsupportedStrikes == Min(SinceSuccess(log + [outcome], Unsupported), U32_MAX)
  {
    assert (log + [outcome])[..|log|] == log;
  }

  lemma CommitKeepsEntry(s: System, results: Results, now: nat, id: SensorId)
    requires Inv(s) && Enabled(s, Commit(results, now)) && id in s.entries
    ensures var t := Apply(s, Commit(results, now));
            EntryInv(t, id) && t.entries[id].periodCounts == s.entries[id].periodCounts
  {
    assert EntryInv(s, id);
    CommittedAt(s.entries, results, now, id);
    ResultForFound(results, id);
    match ResultFor(results, id) {
      case None =>
      case Some(outcome) =>
        SettleKeepsTimes(s.entries[id], outcome, now);
        SettleKeepsStrikes(s.entries[id], outcome, now, OutcomesOf(s, id));
    }
  }

  lemma CommitKeepsInv(s: System, results: Results, now: nat)
    requires Inv(s) && Enabled(s, Commit(results, now))
    ensures Inv(Apply(s, Commit(results, now)))
  {
    var t := Apply(s, Commit(results, now));
    forall i | i in t.entries ensures EntryInv(t, i) && t.entries[i].periodCounts == s.entries[i].periodCounts {
      CommitKeepsEntry(s, results, now, i);
    }
    forall i, p: nat ensures CountIn(t.entries, i, p) == t.live[Subscription(i, p)] {
      assert CountIn(s.entries, i, p) == s.live[Subscription(i, p)];
    }
  }

  lemma StepKeepsInv(s: System, op: Op)
    requires Inv(s) && Enabled(s, op)
    ensures Inv(Apply(s, op))
  {
    match op {
      case Subscribe(id, requested) => SubscribeKeepsInv(s, id, requested);
      case Unsubscribe(sub) => UnsubscribeKeepsInv(s, sub);
      case Plan(now) => PlanKeepsInv(s, now);
      case Commit(results, now) => CommitKeepsInv(s, results, now);
    }
  }

  lemma {:induction false} RunKeepsInv(s: System, ops: seq<Op>)
    requires Inv(s) && ValidRun(s, ops)
    ensures Inv(Run(s, ops))
  {
    if ops == [] {
    } else {
      RunKeepsInv(s, ops[..|ops| - 1]);
      StepKeepsInv(Run(s, ops[..|ops| - 1]), ops[|ops| - 1]);
    }
  }

  // ---- main results ---------------------------------------------------------------------------

  /** In every run the counters of each sensor are exactly the multiset of its live handles, an entry
      exists exactly while that multiset is non-empty, and the sensor runs at the fastest live period,
      which lies within the clamp. */
  lemma {:induction false} CadenceFollowsSubscribers(host: map<SensorId, Descriptor>, ops: seq<Op>, id: SensorId)
    requires ValidRun(Start(host), ops)
    ensures var s := Run(Start(host), ops);
            && (forall p: nat :: CountIn(s.entries, id, p) == s.live[Subscription(id, p)])
            && (id in s.entries <==> exists p: nat :: Subscription(id, p) in s.live)
            && (id in s.entries ==>
                  && Subscription(id, s.entries[id].period) in s.live
                  && (forall p: nat | Subscription(id, p) in s.live ::
                        MIN_PERIOD <= s.entries[id].period <= p <= MAX_PERIOD))
  {
    RunKeepsInv(Start(host), ops);
    HandlesMatchEntry(Run(Start(host), ops), id);
  }

  lemma HandlesMatchEntry(s: System, id: SensorId)
    requires Inv(s)
    ensures id in s.entries <==> exists p: nat :: Subscription(id, p) in s.live
    ensures id in s.entries ==> Subscription(id, s.entries[id].period) in s.live
    ensures id in s.entries ==>
              forall p: nat | Subscription(id, p) in s.live :: MIN_PERIOD <= s.entries[id].period <= p <= MAX_PERIOD
  {
    if id in s.entries {
      assert EntryInv(s, id);
      assert CountIn(s.entries, id, s.entries[id].period) == s.live[Subscription(id, s.entries[id].period)];
    }
    forall p: nat | Subscription(id, p) in s.live
      ensures id in s.entries && MIN_PERIOD <= s.entries[id].period <= p <= MAX_PERIOD
    {
      assert CountIn(s.entries, id, p) == s.live[Subscription(id, p)];
      assert EntryInv(s, id);
    }
  }

  ghost predicate TouchesSubscribers(op: Op, id: SensorId)
  {
    (op.Subscribe? && op.id == id) || (op.Unsubscribe? && op.sub.sensor == id)
  }

  /** The entry of `id` exists, runs at `period`, and is not due before one period after `t`. */
  ghost predicate AheadOf(s: System, id: SensorId, period: nat, t: nat)
  {
    && id in s.entries && s.entries[id].period == period
    && t <= s.clock && t + period <= s.entries[id].nextDue
  }

  lemma StepStaysAhead(s: System, op: Op, id: SensorId, period: nat, t: nat)
    requires Inv(s) && Enabled(s, op) && !TouchesSubscribers(op, id) && AheadOf(s, id, period, t)
    ensures AheadOf(Apply(s, op), id, period, t)
  {
    assert EntryInv(s, id);
    match op {
      case Subscribe(_, _) =>
      case Unsubscribe(_) =>
      case Plan(now) => assert Apply(s, op).entries[id] == Advance(s.entries[id], now);
      case Commit(results, now) =>
        CommittedAt(s.entries, results, now, id);
        match ResultFor(results, id) {
          case None =>
          case Some(outcome) => SettleKeepsTimes(s.entries[id], outcome, now);
        }
    }
  }

  lemma {:induction false} RunStaysAhead(s: System, ops: seq<Op>, id: SensorId, period: nat, t: nat)
    requires Inv(s) && ValidRun(s, ops) && AheadOf(s, id, period, t)
    requires forall op | op in ops :: !TouchesSubscribers(op, id)
    ensures AheadOf(Run(s, ops), id, period, t)
  {
    if ops == [] {
    } else {
      RunStaysAhead(s, ops[..|ops| - 1], id, period, t);
      RunKeepsInv(s, ops[..|ops| - 1]);
      StepStaysAhead(Run(s, ops[..|ops| - 1]), ops[|ops| - 1], id, period, t);
    }
  }

  /** Two plans of one sensor are never closer than its period while its subscribers stay the same,
      whatever was committed, dropped or left in flight between them. */
  lemma {:induction false} PlansKeepApart(host: map<SensorId, Descriptor>, before: seq<Op>, t1: nat, between: seq<Op>, t2: nat,
                                          id: SensorId)
    requires ValidRun(Start(host), before)
    requires Enabled(Run(Start(host), before), Plan(t1))
    requires id in Apply(Run(Start(host), before), Plan(t1)).inFlight
    requires ValidRun(Apply(Run(Start(host), before), Plan(t1)), between)
    requires forall op | op in between :: !TouchesSubscribers(op, id)
    ensures var s := Run(Start(host), before);
            var m := Run(Apply(s, Plan(t1)), between);
            id in s.entries && (id in Apply(m, Plan(t2)).inFlight ==> t1 + s.entries[id].period <= t2)
  {
    var s := Run(Start(host), before);
    RunKeepsInv(Start(host), before);
    StepKeepsInv(s, Plan(t1));
    assert EntryInv(s, id);
    RunStaysAhead(Apply(s, Plan(t1)), between, id, s.entries[id].period, t1);
  }

  /** The k-th Timeout (or k-th Unsupported) since the last success delays the sensor by exactly
      period * 2^min(k, 8), never more than 256 periods, and without overflow. */
  lemma {:induction false} BackOffIsExponential(host: map<SensorId, Descriptor>, ops: seq<Op>, results: Results, now: nat,
                                                id: SensorId)
    requires ValidRun(Start(host), ops)
    requires Enabled(Run(Start(host), ops), Commit(results, now)) && id in Run(Start(host), ops).entries
    requires ResultFor(results, id) in {Some(Timeout), Some(Unsupported)}
    ensures var s := Run(Start(host), ops);
            var t := Apply(s, Commit(results, now));
            var k := SinceSuccess(OutcomesOf(t, id), ResultFor(results, id).value);
            && k >= 1
            && t.entries[id].nextDue == now + s.entries[id].period * Pow2(Min(k, 8))
            && now + 2 * s.entries[id].period <= t.entries[id].nextDue
            && t.entries[id].nextDue <= now + s.entries[id].period * 256 < U64_MAX
  {
    RunKeepsInv(Start(host), ops);
    StrikeDelays(Run(Start(host), ops), results, now, id);
  }

  /** The strikes of an entry whose log gains one more result of a kind. */
  lemma {:induction false} StrikesCount(log: seq<Outcome>, kind: Outcome)
    requires !kind.Success?
    ensures SinceSuccess(log + [kind], kind) == SinceSuccess(log, kind) + 1
    ensures Min(SaturatingIncU32(Min(SinceSuccess(log, kind), U32_MAX)), STRIKE_CAP)
            == Min(SinceSuccess(log + [kind], kind), STRIKE_CAP)
  {
    assert (log + [kind])[..|log|] == log;
  }

  lemma {:induction false} StrikeDelays(s: System, results: Results, now: nat, id: SensorId)
    requires Inv(s) && Enabled(s, Commit(results, now)) && id in s.entries
    requires ResultFor(results, id) in {Some(Timeout), Some(Unsupported)}
    ensures var t := Apply(s, Commit(results, now));
            var k := SinceSuccess(OutcomesOf(t, id), ResultFor(results, id).value);
            && k >= 1
            && t.entries[id].nextDue == now + s.entries[id].period * Pow2(Min(k, STRIKE_CAP))
            && now + 2 * s.entries[id].period <= t.entries[id].nextDue
            && t.entries[id].nextDue <= now + s.entries[id].period * MAX_BACKOFF < U64_MAX
  {
    var e, kind, log := s.entries[id], ResultFor(results, id).value, OutcomesOf(s, id);
    CommittedAt(s.entries, results, now, id);
    assert EntryInv(s, id);
    StrikesCount(log, kind);
    BackOffExact(e, SaturatingIncU32(Min(SinceSuccess(log, kind), U32_MAX)), now);
  }

  /** A sensor is parked exactly when it is static and a success was committed since its last
      subscribe; a parked sensor is never planned, and any other entry is planned by every tick that
      comes 256 of the longest periods or more after the last one. */
  lemma {:induction false} ParkedExactlyAfterReading(host: map<SensorId, Descriptor>, ops: seq<Op>, id: SensorId, now: nat)
    requires ValidRun(Start(host), ops) && now < U64_MAX
    ensures var s := Run(Start(host), ops);
            id in s.entries ==>
            && id in s.host
            && (s.entries[id].nextDue == U64_MAX <==> s.host[id].isStatic && id in s.readSince)
            && (s.entries[id].nextDue == U64_MAX ==> id !in Apply(s, Plan(now)).inFlight)
            && (s.entries[id].nextDue != U64_MAX && s.clock + MAX_BACKOFF * MAX_PERIOD <= now ==>
                  id in Apply(s, Plan(now)).inFlight)
  {
    RunKeepsInv(Start(host), ops);
    if id in Run(Start(host), ops).entries { EntryParks(Run(Start(host), ops), id, now); }
  }

  lemma EntryParks(s: System, id: SensorId, now: nat)
    requires Inv(s) && id in s.entries && now < U64_MAX
    ensures id in s.host
    ensures s.entries[id].nextDue == U64_MAX <==> s.host[id].isStatic && id in s.readSince
    ensures s.entries[id].nextDue == U64_MAX ==> id !in Apply(s, Plan(now)).inFlight
    ensures s.entries[id].nextDue != U64_MAX && s.clock + MAX_BACKOFF * MAX_PERIOD <= now ==>
              id in Apply(s, Plan(now)).inFlight
  {
    assert EntryInv(s, id);
  }

  /** When a handle is released and others remain, a sampled sensor is next due one period of the fastest
      remaining handle after its last success, and one that was never read is due at once; a static
      sensor keeps its due time. */
  lemma {:induction false} ReleaseReschedules(host: map<SensorId, Descriptor>, ops: seq<Op>, sub: Subscription)
    requires ValidRun(Start(host), ops) && Enabled(Run(Start(host), ops), Unsubscribe(sub))
    requires sub.sensor in Apply(Run(Start(host), ops), Unsubscribe(sub)).entries
    ensures var s := Run(Start(host), ops);
            var t := Apply(s, Unsubscribe(sub));
            && sub.sensor in s.entries
            && t.entries[sub.sensor].nextDue ==
               (if s.entries[sub.sensor].isStatic then s.entries[sub.sensor].nextDue
                else if sub.sensor in s.lastRead then s.lastRead[sub.sensor] + t.entries[sub.sensor].period
                else 0)
  {
    RunKeepsInv(Start(host), ops);
    var s := Run(Start(host), ops);
    assert EntryInv(s, sub.sensor);
    StepKeepsInv(s, Unsubscribe(sub));
    assert EntryInv(Apply(s, Unsubscribe(sub)), sub.sensor);
  }

  /** A dropped item, or one that failed for another reason, is planned again exactly one period later. */
  lemma {:induction false} DroppedItemReturns(host: map<SensorId, Descriptor>, ops: seq<Op>, t: nat, results: Results, id: SensorId)
    requires ValidRun(Start(host), ops)
    requires Enabled(Run(Start(host), ops), Plan(t))
    requires id in Apply(Run(Start(host), ops), Plan(t)).inFlight
    requires Enabled(Apply(Run(Start(host), ops), Plan(t)), Commit(results, t))
    requires ResultFor(results, id) in {None, Some(OtherError)}
    ensures var s := Run(Start(host), ops);
            var m := Apply(Apply(s, Plan(t)), Commit(results, t));
            id in m.entries && forall now: nat :: IsDue(m.entries[id], now) <==> t + s.entries[id].period <= now
  {
    RunKeepsInv(Start(host), ops);
    UnreadItemDue(Run(Start(host), ops), t, results, id);
  }

  lemma {:induction false} UnreadItemDue(s: System, t: nat, results: Results, id: SensorId)
    requires Inv(s) && t < CLOCK_LIMIT && id in s.entries && IsDue(s.entries[id], t)
    requires OnePerSensor(results) && ResultFor(results, id) in {None, Some(OtherError)}
    ensures Committed(Planned(s.entries, t), results, t)[id].nextDue == t + s.entries[id].period
  {
    assert EntryInv(s, id);
    var planned := Planned(s.entries, t);
    assert planned[id] == Advance(s.entries[id], t);
    CommittedAt(planned, results, t, id);
  }

  // ---- single steps ---------------------------------------------------------------------------

  /** A new subscriber never waits: the very next plan takes the sensor. */
  lemma {:induction false} NewSubscriberIsServedNext(host: map<SensorId, Descriptor>, ops: seq<Op>, id: SensorId,
                                                     requested: Option<real>, now: nat)
    requires ValidRun(Start(host), ops) && id in Run(Start(host), ops).host
    ensures id in Apply(Apply(Run(Start(host), ops), Subscribe(id, requested)), Plan(now)).inFlight
  {
  }
}
