/** From the sampler to the history and the alerts (`tick_commit`, apps/linsightd/src/scheduler.rs): what
    becomes of one successful sample, end to end. */
module Pipeline {
  import opened Prelude
  import opened Samples
  import opened Scheduling
  import SchedulerRuns
  import History
  import HistoryRuns
  import AlertRules
  import AlertEngines

  // ---- out of the scheduler -----------------------------------------------------------------------

  /** In every run of the scheduler, what a commit hands on is the success of a sensor somebody holds a live
      subscription to, also when subscribers came and went since the plan. */
  lemma {:induction false} OnlySubscribedAreHandedOn(host: map<SensorId, Descriptor>, ops: seq<SchedulerRuns.Op>,
                                                     results: Results, x: Sample)
    requires SchedulerRuns.ValidRun(SchedulerRuns.Start(host), ops)
    requires x in Produced(SchedulerRuns.Run(SchedulerRuns.Start(host), ops).entries.Keys, results)
    ensures exists i, p: nat ::
              && 0 <= i < |results| && results[i].1 == Success(x)
              && Subscription(results[i].0, p) in SchedulerRuns.Run(SchedulerRuns.Start(host), ops).live
  {
    var s := SchedulerRuns.Run(SchedulerRuns.Start(host), ops);
    ProducedExactly(s.entries.Keys, results, x);
    var i :| 0 <= i < |results| && results[i].0 in s.entries.Keys && results[i].1 == Success(x);
    SchedulerRuns.CadenceFollowsSubscribers(host, ops, results[i].0);
    assert Subscription(results[i].0, s.entries[results[i].0].period) in s.live;
  }

  // ---- into the history -------------------------------------------------------------------------

  /** Recording the samples of a commit, as steps of the history. */
  ghost function Records(xs: seq<Sample>): seq<HistoryRuns.Op>
  {
    seq(|xs|, k requires 0 <= k < |xs| => HistoryRuns.Record(xs[k]))
  }

  /** The scheduler's commit and a run of the history do the same to the store. */
  lemma {:induction false} CommitIsARun(o: HistoryRuns.Observed, xs: seq<Sample>)
    ensures HistoryRuns.ValidRun(o, Records(xs))
    ensures HistoryRuns.Run(o, Records(xs)).store == History.RecordedAll(o.store, xs)
  {
    if xs == [] {
    } else {
      var n := |xs| - 1;
      CommitIsARun(o, xs[..n]);
      assert Records(xs)[..n] == Records(xs[..n]);
    }
  }

  lemma {:induction false} RecordedOnce(o: HistoryRuns.Observed, ops: seq<HistoryRuns.Op>, x: Sample, h: History.HistoricSample)
    requires HistoryRuns.Record(x) in ops && History.Historic(x) == Some(h)
    ensures h in HistoryRuns.Run(o, ops).recorded
  {
    var n := |ops| - 1;
    if ops[n] == HistoryRuns.Record(x) {
    } else {
      assert ops[..n] + [ops[n]] == ops;
      RecordedOnce(o, ops[..n], x, h);
    }
  }

  /** Where a sample can be at any later moment. */
  ghost predicate AccountedFor(o: HistoryRuns.Observed, h: History.HistoricSample)
  {
    || h in o.dropped || h in HistoryRuns.QueuedSamples(o.store.queue) || h in o.store.pending
    || h in o.stored || h in o.lost
  }

  /** A successful sample of a sensor still subscribed to, if it is of a kind that is kept, is at every later
      moment refused, queued, in the batch, stored, or lost with a failed transaction: whatever was recorded
      before, and whatever producers and writer do after. */
  lemma {:induction false} EverySuccessIsAccountedFor(startedAt: int, origin: int, retention: Option<nat>,
                                                      initial: History.SampleTable, events: History.EventTable,
                                                      before: seq<HistoryRuns.Op>, subscribed: set<SensorId>,
                                                      results: Results, later: seq<HistoryRuns.Op>, i: nat)
    requires HistoryRuns.ValidRun(HistoryRuns.Begin(startedAt, origin, retention, initial, events),
                                  before + Records(Produced(subscribed, results)) + later)
    requires i < |results| && results[i].0 in subscribed && results[i].1.Success?
    ensures var o := HistoryRuns.Run(HistoryRuns.Begin(startedAt, origin, retention, initial, events),
                                     before + Records(Produced(subscribed, results)) + later);
            var h := History.Historic(results[i].1.sample);
            h.Some? ==> AccountedFor(o, h.value)
  {
    var x, out := results[i].1.sample, Produced(subscribed, results);
    var o, ops := HistoryRuns.Begin(startedAt, origin, retention, initial, events), before + Records(out) + later;
    ProducedExactly(subscribed, results, x);
    var k :| 0 <= k < |out| && out[k] == x;
    assert ops[|before| + k] == HistoryRuns.Record(x);
    var h := History.Historic(x);
    if h.Some? {
      RecordedOnce(o, ops, x, h.value);
      HistoryRuns.SamplesAreConserved(startedAt, origin, retention, initial, events, ops);
      Located(HistoryRuns.Run(o, ops), h.value);
    }
  }

  lemma Located(o: HistoryRuns.Observed, h: History.HistoricSample)
    requires multiset(o.recorded) == multiset(o.dropped) + multiset(HistoryRuns.QueuedSamples(o.store.queue))
                                     + multiset(o.store.pending) + multiset(o.stored) + multiset(o.lost)
    requires h in o.recorded
    ensures AccountedFor(o, h)
  {
    assert h in multiset(o.recorded);
  }

  // ---- into the alerts --------------------------------------------------------------------------

  ghost predicate SameSettings(a: seq<AlertRules.Rule>, b: seq<AlertRules.Rule>)
  {
    |a| == |b| && forall i | 0 <= i < |a| :: a[i].enabled == b[i].enabled && a[i].referenced == b[i].referenced
  }

  lemma {:induction false} VerdictsKeepSettings(rules: seq<AlertRules.Rule>, verdicts: seq<AlertRules.Verdict>)
    requires AlertRules.ValidVerdicts(verdicts, |rules|)
    ensures SameSettings(rules, AlertRules.RulesAfter(rules, verdicts))
  {
    if verdicts == [] {
    } else {
      VerdictsKeepSettings(rules, verdicts[..|verdicts| - 1]);
    }
  }

  lemma {:induction false} HandlingKeepsSettings(e: AlertEngines.Engine, xs: seq<Sample>,
                                                 judge: nat -> nat -> (AlertRules.Outcome, int, nat),
                                                 verdicts: seq<seq<AlertRules.Verdict>>, after: AlertEngines.Engine)
    requires AlertEngines.HandlesAll(e, xs, judge, verdicts, after)
    ensures SameSettings(e.rules, after.rules)
  {
    if xs == [] {
    } else {
      var n := |xs| - 1;
      var mid :| AlertEngines.HandlesAll(e, xs[..n], judge, verdicts[..n], mid)
                 && AlertEngines.Handles(mid, xs[n], judge(n), verdicts[n], after);
      HandlingKeepsSettings(e, xs[..n], judge, verdicts[..n], mid);
      VerdictsKeepSettings(mid.rules, verdicts[n]);
    }
  }

  /** Exactly one of the verdicts concerns rule `idx`. */
  ghost predicate JudgedOnce(verdicts: seq<AlertRules.Verdict>, idx: nat)
  {
    exists k :: 0 <= k < |verdicts| && verdicts[k].idx == idx && forall l | 0 <= l < |verdicts| && l != k :: verdicts[l].idx != idx
  }

  lemma HandledOnce(e: AlertEngines.Engine, x: Sample, judge: nat -> (AlertRules.Outcome, int, nat),
                    verdicts: seq<AlertRules.Verdict>, after: AlertEngines.Engine, idx: nat)
    requires AlertEngines.Handles(e, x, judge, verdicts, after)
    requires AlertEngines.Numeric(x.reading).Some? && AlertEngines.Concerns(e.rules, idx, x.sensor)
    ensures JudgedOnce(verdicts, idx)
  {
    var jobs :| AlertEngines.AreJobs(e.rules, x, jobs) && AlertEngines.Judged(verdicts, jobs, judge);
    OneJobOneVerdict(verdicts, jobs, judge, idx);
  }

  lemma OneJobOneVerdict(verdicts: seq<AlertRules.Verdict>, jobs: seq<nat>,
                         judge: nat -> (AlertRules.Outcome, int, nat), idx: nat)
    requires Distinct(jobs) && AlertEngines.Judged(verdicts, jobs, judge) && idx in jobs
    ensures JudgedOnce(verdicts, idx)
  {
    var k :| 0 <= k < |jobs| && jobs[k] == idx;
    forall l | 0 <= l < |verdicts| && l != k ensures verdicts[l].idx != idx { assert jobs[l] != jobs[k]; }
    assert verdicts[k].idx == idx;
  }

  /** Of the samples a commit hands on, each numeric one leads to exactly one outcome for each enabled rule
      that refers to its sensor. */
  lemma {:induction false} EverySuccessIsJudged(e: AlertEngines.Engine, xs: seq<Sample>,
                                                judge: nat -> nat -> (AlertRules.Outcome, int, nat),
                                                verdicts: seq<seq<AlertRules.Verdict>>, after: AlertEngines.Engine,
                                                k: nat, idx: nat)
    requires AlertEngines.HandlesAll(e, xs, judge, verdicts, after) && k < |xs|
    requires AlertEngines.Numeric(xs[k].reading).Some? && AlertEngines.Concerns(e.rules, idx, xs[k].sensor)
    ensures JudgedOnce(verdicts[k], idx)
  {
    var n := |xs| - 1;
    var mid :| AlertEngines.HandlesAll(e, xs[..n], judge, verdicts[..n], mid)
               && AlertEngines.Handles(mid, xs[n], judge(n), verdicts[n], after);
    if k == n {
      HandlingKeepsSettings(e, xs[..n], judge, verdicts[..n], mid);
      HandledOnce(mid, xs[n], judge(n), verdicts[n], after, idx);
    } else {
      EverySuccessIsJudged(e, xs[..n], judge, verdicts[..n], mid, k, idx);
    }
  }
}
