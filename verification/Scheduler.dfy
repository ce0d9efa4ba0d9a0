/** The sensor scheduler of the daemon (apps/linsightd/src/scheduler.rs).

    Functions on `Entries` say what each operation does to the table of subscribed sensors; class
    `Scheduler` performs the operations on its own field and is proved to do exactly that. Rates are
    reals, instants and periods are microseconds. */
module Scheduling {
  import opened Prelude
  import opened Samples
  import History
  import AlertRules
  import AlertEngines

  const U32_MAX: nat := 0xFFFF_FFFF
  const U64_MAX: nat := 0xFFFF_FFFF_FFFF_FFFF
  const MIN_RATE_HZ: real := 0.100000001490116119384765625   // 0.1 as an `f32`
  const MAX_RATE_HZ: real := 20.0

  /** Periods the clamped rates can produce: 1e6 / 20 Hz, and 1e6 / 0.1 Hz with 0.1 slightly too large. */
  const MIN_PERIOD: nat := 50_000
  const MAX_PERIOD: nat := 9_999_999

  /** Strikes beyond this one no longer lengthen the back-off. */
  const STRIKE_CAP: nat := 8
  const MAX_BACKOFF: nat := 256

  datatype Result<+T> = Ok(value: T) | UnknownSensor(id: SensorId)

  /** What sampling one planned sensor came to. */
  datatype Outcome = Success(sample: Sample) | Unsupported | Timeout | OtherError

  datatype Descriptor = Descriptor(nativeRate: real, isStatic: bool)
  datatype Subscription = Subscription(sensor: SensorId, period: nat)

  datatype Entry = Entry(
    periodCounts: map<nat, nat>,
    period: nat,
    nextDue: nat,
    lastSampled: Option<nat>,
    isStatic: bool,
    unsupportedStrikes: nat,
    timeoutStrikes: nat)

  type Entries = map<SensorId, Entry>

  // ---- machine arithmetic ---------------------------------------------------------------------

  /** `a + b` on `u64`, wrapping once past the end of the range. */
  function AddU64(a: nat, b: nat): nat { if a + b > U64_MAX then a + b - (U64_MAX + 1) else a + b }

  function SaturatingAddU64(a: nat, b: nat): nat { if a + b > U64_MAX then U64_MAX else a + b }

  function SaturatingMulU64(a: nat, b: nat): nat { if a * b > U64_MAX then U64_MAX else a * b }

  function SaturatingIncU32(a: nat): nat { if a >= U32_MAX then U32_MAX else a + 1 }

  function Min(a: nat, b: nat): nat { if a <= b then a else b }

  // ---- rates and periods ----------------------------------------------------------------------

  function Clamp(x: real, lo: real, hi: real): real { if x < lo then lo else if x > hi then hi else x }

  function ClampedRate(d: Descriptor): real { Clamp(d.nativeRate, MIN_RATE_HZ, MAX_RATE_HZ) }

  /** The rate a subscription runs at: never above the native rate, never below the floor. */
  function EffectiveRate(native: real, requested: Option<real>): real
  {
    match requested
    case None => native
    case Some(r) =>
      var clamped := Clamp(r, MIN_RATE_HZ, native);
      if native <= clamped then native else clamped
  }

  function PeriodFor(d: Descriptor, requested: Option<real>): (period: nat)
    ensures MIN_PERIOD <= period <= MAX_PERIOD
  {
    var rate := EffectiveRate(ClampedRate(d), requested);
    assert MIN_RATE_HZ <= rate <= MAX_RATE_HZ;
    QuotientBounds(rate);
    (1_000_000.0 / rate).Floor
  }

  lemma QuotientBounds(rate: real)
    requires MIN_RATE_HZ <= rate <= MAX_RATE_HZ
    ensures 50_000.0 <= 1_000_000.0 / rate < 10_000_000.0
  {
    var q := 1_000_000.0 / rate;
    assert q * rate == 1_000_000.0;
  }

  /** Without a request a sensor runs at its native rate, taken into the range from 0.1 Hz (as an `f32`) to 20 Hz. A
      request within that range and not above the native rate is honoured exactly, a faster one gets the native
      rate, a slower one the floor. No subscription is faster than the sensor. */
  lemma PeriodHonoursRequest(d: Descriptor, r: real)
    ensures 0.100000001490116119384765625 <= d.nativeRate <= 20.0 ==> PeriodFor(d, None) == (1_000_000.0 / d.nativeRate).Floor
    ensures d.nativeRate > 20.0 ==> PeriodFor(d, None) == 50_000
    ensures d.nativeRate < 0.100000001490116119384765625 ==> PeriodFor(d, None) == 9_999_999
    ensures 0.100000001490116119384765625 <= r <= 20.0 && r <= d.nativeRate ==>
              PeriodFor(d, Some(r)) == (1_000_000.0 / r).Floor
    ensures r > d.nativeRate || r > 20.0 ==> PeriodFor(d, Some(r)) == PeriodFor(d, None)
    ensures r < 0.100000001490116119384765625 ==> PeriodFor(d, Some(r)) == 9_999_999
    ensures PeriodFor(d, None) <= PeriodFor(d, Some(r))
  {
    var native, rate := ClampedRate(d), EffectiveRate(ClampedRate(d), Some(r));
    assert MIN_RATE_HZ <= rate <= native;
    SlowerIsLonger(rate, native);
  }

  lemma SlowerIsLonger(slow: real, fast: real)
    requires 0.0 < slow <= fast
    ensures 1_000_000.0 / fast <= 1_000_000.0 / slow
    ensures (1_000_000.0 / fast).Floor <= (1_000_000.0 / slow).Floor
  {
    var q := 1_000_000.0 / slow;
    assert q * slow == 1_000_000.0;
    assert q * fast >= q * slow;
    assert 1_000_000.0 / fast <= q;
  }

  // ---- the table of entries -------------------------------------------------------------------

  function CountOf(counts: map<nat, nat>, period: nat): nat
  {
    if period in counts then counts[period] else 0
  }

  function AddPeriod(counts: map<nat, nat>, period: nat): (r: map<nat, nat>)
    ensures period in r
  {
    counts[period := CountOf(counts, period) + 1]
  }

  function DropPeriod(counts: map<nat, nat>, period: nat): map<nat, nat>
  {
    if period !in counts then counts
    else if counts[period] <= 1 then counts - {period}
    else counts[period := counts[period] - 1]
  }

  /** The first key of the ordered map, that is, the fastest cadence asked for. */
  function FastestPeriod(counts: map<nat, nat>): (fastest: nat)
    requires counts != map[]
    ensures fastest in counts
    ensures forall p | p in counts :: fastest <= p
  {
    assert exists p :: p in counts;
    Least(counts.Keys)
  }

  function Subscribed(entries: Entries, id: SensorId, period: nat, isStatic: bool): Entries
  {
    if id in entries then
      var counts := AddPeriod(entries[id].periodCounts, period);
      assert period in counts;
      entries[id := entries[id].(periodCounts := counts, period := FastestPeriod(counts), nextDue := 0)]
    else
      entries[id := Entry(map[period := 1], period, 0, None, isStatic, 0, 0)]
  }

  function Unsubscribed(entries: Entries, sub: Subscription): Entries
  {
    if sub.sensor !in entries then entries
    else
      var e := entries[sub.sensor];
      var counts := DropPeriod(e.periodCounts, sub.period);
      if counts == map[] then entries - {sub.sensor}
      else
        var fastest := FastestPeriod(counts);
        var due := if e.isStatic then e.nextDue
                   else if e.lastSampled.Some? then SaturatingAddU64(e.lastSampled.value, fastest)
                   else 0;
        entries[sub.sensor := e.(periodCounts := counts, period := fastest, nextDue := due)]
  }

  predicate IsDue(e: Entry, now: nat) { e.nextDue <= now }

  function Advance(e: Entry, now: nat): Entry
  {
    if IsDue(e, now) then e.(nextDue := AddU64(now, e.period)) else e
  }

  function Planned(entries: Entries, now: nat): Entries
  {
    map id | id in entries :: Advance(entries[id], now)
  }

  function BackOff(e: Entry, strikes: nat, now: nat): nat
  {
    AddU64(now, SaturatingMulU64(e.period, Pow2(Min(strikes, STRIKE_CAP))))
  }

  /** Applies one sampling result to one entry. */
  function Settle(e: Entry, outcome: Outcome, now: nat): Entry
  {
    match outcome
    case Success(_) =>
      e.(unsupportedStrikes := 0, timeoutStrikes := 0, lastSampled := Some(now),
         nextDue := if e.isStatic then U64_MAX else e.nextDue)
    case Unsupported =>
      var strikes := SaturatingIncU32(e.unsupportedStrikes);
      e.(unsupportedStrikes := strikes, nextDue := BackOff(e, strikes, now))
    case Timeout =>
      var strikes := SaturatingIncU32(e.timeoutStrikes);
      e.(timeoutStrikes := strikes, nextDue := BackOff(e, strikes, now))
    case OtherError =>
      e.(nextDue := AddU64(now, e.period))
  }

  type Results = seq<(SensorId, Outcome)>

  function CommittedOne(entries: Entries, result: (SensorId, Outcome), now: nat): Entries
  {
    if result.0 in entries then entries[result.0 := Settle(entries[result.0], result.1, now)] else entries
  }

  function Committed(entries: Entries, results: Results, now: nat): (r: Entries)
    ensures r.Keys == entries.Keys
  {
    if results == [] then entries
    else CommittedOne(Committed(entries, results[..|results| - 1], now), results[|results| - 1], now)
  }

  /** The samples a commit hands on: the successes of sensors somebody still subscribes to, in order. */
  function Produced(subscribed: set<SensorId>, results: Results): seq<Sample>
  {
    if results == [] then []
    else
      var (id, outcome) := results[|results| - 1];
      Produced(subscribed, results[..|results| - 1])
      + if id in subscribed && outcome.Success? then [outcome.sample] else []
  }

  /** A sample is handed on exactly when it is the success of a sensor still subscribed to. */
  lemma {:induction false} ProducedExactly(subscribed: set<SensorId>, results: Results, x: Sample)
    ensures x in Produced(subscribed, results) <==>
            exists i :: 0 <= i < |results| && results[i].0 in subscribed && results[i].1 == Success(x)
  {
    if results == [] {
    } else {
      var n := |results| - 1;
      ProducedExactly(subscribed, results[..n], x);
      if i :| 0 <= i < n && results[i].0 in subscribed && results[i].1 == Success(x) {
        assert results[..n][i] == results[i];
      }
    }
  }

  lemma {:induction false} OneMoreResult(entries: Entries, results: Results, now: nat, i: nat)
    requires i < |results|
    ensures Committed(entries, results[..i + 1], now) == CommittedOne(Committed(entries, results[..i], now), results[i], now)
    ensures Produced(entries.Keys, results[..i + 1]) ==
            Produced(entries.Keys, results[..i])
            + if results[i].0 in entries && results[i].1.Success? then [results[i].1.sample] else []
  {
    assert results[..i + 1][..i] == results[..i];
  }

  // ---- the scheduler object -------------------------------------------------------------------

  class Scheduler {
    const host: map<SensorId, Descriptor>
    var entries: Entries
    var history: History.HistoryStore?
    var alerts: AlertEngines.AlertEngine?

    constructor (host: map<SensorId, Descriptor>)
      ensures this.host == host && entries == map[] && history == null && alerts == null
    {
      this.host := host;
      entries, history, alerts := map[], null, null;
    }

    method SetHistoryWriter(history: History.HistoryStore?)
      modifies this`history
      ensures this.history == history
    {
      this.history := history;
    }

    method SetAlertEngine(alerts: AlertEngines.AlertEngine?)
      modifies this`alerts
      ensures this.alerts == alerts
    {
      this.alerts := alerts;
    }

    method Subscribe(id: SensorId, requested: Option<real>) returns (r: Result<Subscription>)
      modifies this`entries
      ensures id !in host ==> r == UnknownSensor(id) && entries == old(entries)
      ensures id in host ==>
                && r == Ok(Subscription(id, PeriodFor(host[id], requested)))
                && entries == Subscribed(old(entries), id, r.value.period, host[id].isStatic)
    {
      if id !in host { return UnknownSensor(id); }
      var period := PeriodFor(host[id], requested);
      if id in entries {
        var e := entries[id];
        var counts := e.periodCounts;
        counts := counts[period := (if period in counts then counts[period] else 0) + 1];
        assert period in counts;
        e := e.(periodCounts := counts);
        e := e.(period := FastestPeriod(counts));
        e := e.(nextDue := 0);
        entries := entries[id := e];
      } else {
        entries := entries[id := Entry(map[period := 1], period, 0, None, host[id].isStatic, 0, 0)];
      }
      r := Ok(Subscription(id, period));
    }

    method Unsubscribe(sub: Subscription)
      modifies this`entries
      ensures entries == Unsubscribed(old(entries), sub)
    {
      var id := sub.sensor;
      if id in entries {
        var e := entries[id];
        var counts := e.periodCounts;
        if sub.period in counts {
          var count := if counts[sub.period] == 0 then 0 else counts[sub.period] - 1;
          counts := if count == 0 then counts - {sub.period} else counts[sub.period := count];
        }
        if counts == map[] {
          entries := entries - {id};
        } else {
          e := e.(periodCounts := counts, period := FastestPeriod(counts));
          if !e.isStatic {
            e := e.(nextDue := if e.lastSampled.Some? then SaturatingAddU64(e.lastSampled.value, e.period) else 0);
          }
          entries := entries[id := e];
        }
      }
    }

    method TickPlan(now: nat) returns (due: seq<SensorId>)
      modifies this`entries
      ensures entries == Planned(old(entries), now)
      ensures Distinct(due)
      ensures forall id :: id in due <==> id in old(entries) && IsDue(old(entries)[id], now)
    {
      due := [];
      var todo := entries.Keys;
      while todo != {}
        invariant entries.Keys == old(entries).Keys && todo <= entries.Keys
        invariant forall id | id in entries ::
                    entries[id] == if id in todo then old(entries)[id] else Advance(old(entries)[id], now)
        invariant Distinct(due)
        invariant forall id :: id in due <==> id in old(entries) && id !in todo && IsDue(old(entries)[id], now)
        decreases todo
      {
        var id :| id in todo;
        var e := entries[id];
        if now >= e.nextDue {
          due := due + [id];
          entries := entries[id := e.(nextDue := AddU64(now, e.period))];
        }
        todo := todo - {id};
      }
    }

    /** Applies one result; the sample of a success is handed on. */
    method CommitOne(id: SensorId, outcome: Outcome, now: nat) returns (handed: Option<Sample>)
      modifies this`entries
      ensures entries == CommittedOne(old(entries), (id, outcome), now)
      ensures handed == if id in old(entries) && outcome.Success? then Some(outcome.sample) else None
    {
      handed := None;
      if id in entries {
        var e := entries[id];
        match outcome {
          case Success(sample) =>
            e := e.(unsupportedStrikes := 0, timeoutStrikes := 0, lastSampled := Some(now));
            if e.isStatic { e := e.(nextDue := U64_MAX); }
            handed := Some(sample);
          case Unsupported =>
            e := e.(unsupportedStrikes := SaturatingIncU32(e.unsupportedStrikes));
            e := e.(nextDue := BackOff(e, e.unsupportedStrikes, now));
          case Timeout =>
            e := e.(timeoutStrikes := SaturatingIncU32(e.timeoutStrikes));
            e := e.(nextDue := BackOff(e, e.timeoutStrikes, now));
          case OtherError =>
            e := e.(nextDue := AddU64(now, e.period));
        }
        entries := entries[id := e];
      }
    }

    /** The store of the history, and the state of the alert engine, if there is one. */
    ghost function Store(): Option<History.Store>
      reads this, history
    {
      if history == null then None else Some(history.View())
    }

    ghost function Engine(): Option<AlertEngines.Engine>
      reads this, alerts
    {
      if alerts == null then None else Some(alerts.View())
    }

    /** Records a sample, after those in `out`, and feeds it to the alert engine; `judge` stands for the
        evaluations this causes. */
    method HandOn(x: Sample, judge: nat -> nat -> (AlertRules.Outcome, int, nat), ghost store: Option<History.Store>,
                  ghost engine: Option<AlertEngines.Engine>, out: seq<Sample>, ghost verdicts: seq<seq<AlertRules.Verdict>>)
      returns (vs: seq<AlertRules.Verdict>)
      requires RecordsAll(store, out, Store()) && JudgesAll(engine, out, judge, verdicts, Engine())
      modifies history, alerts
      ensures RecordsAll(store, out + [x], Store()) && JudgesAll(engine, out + [x], judge, verdicts + [vs], Engine())
    {
      vs := [];
      if history != null {
        History.RecordedOneMore(store.value, out, x);
        history.Record(x);
      }
      if alerts != null {
        ghost var mid := alerts.View();
        vs := alerts.OnSample(x, judge(|out|));
        AlertEngines.HandlesOneMore(engine.value, out, judge, verdicts, mid, x, vs, alerts.View());
      }
    }

    /** What the scheduler hands on is what the history and the alert engine get, in order, and nothing else:
        the successes of sensors still subscribed to. */
    method TickCommit(results: Results, now: nat, judge: nat -> nat -> (AlertRules.Outcome, int, nat))
      returns (out: seq<Sample>, ghost verdicts: seq<seq<AlertRules.Verdict>>)
      modifies this`entries, history, alerts
      ensures entries == Committed(old(entries), results, now)
      ensures out == Produced(old(entries).Keys, results)
      ensures RecordsAll(old(Store()), out, Store()) && JudgesAll(old(Engine()), out, judge, verdicts, Engine())
    {
      out, verdicts := [], [];
      for i := 0 to |results|
        invariant entries == Committed(old(entries), results[..i], now)
        invariant out == Produced(old(entries).Keys, results[..i])
        invariant RecordsAll(old(Store()), out, Store()) && JudgesAll(old(Engine()), out, judge, verdicts, Engine())
      {
        OneMoreResult(old(entries), results, now, i);
        var handed := CommitOne(results[i].0, results[i].1, now);
        if handed.Some? {
          var vs := HandOn(handed.value, judge, old(Store()), old(Engine()), out, verdicts);
          out, verdicts := out + [handed.value], verdicts + [vs];
        }
      }
      assert results[..|results|] == results;
    }
  }

  /** A history, if there is one, has recorded the samples in order. */
  ghost predicate RecordsAll(before: Option<History.Store>, xs: seq<Sample>, after: Option<History.Store>)
  {
    before.Some? == after.Some? && (before.Some? ==> after.value == History.RecordedAll(before.value, xs))
  }

  /** An alert engine, if there is one, has handled the samples in order. */
  ghost predicate JudgesAll(before: Option<AlertEngines.Engine>, xs: seq<Sample>,
                            judge: nat -> nat -> (AlertRules.Outcome, int, nat),
                            verdicts: seq<seq<AlertRules.Verdict>>, after: Option<AlertEngines.Engine>)
  {
    && before.Some? == after.Some?
    && (before.Some? ==> AlertEngines.HandlesAll(before.value, xs, judge, verdicts, after.value))
  }
}
