/** The alert engine object (apps/linsightd/src/alerts.rs): its rules, the latest values with their
    evaluation context, and the ring of recent events. What its methods do is stated with the functions of
    `AlertRules` and `AlertContext`. */
module AlertEngines {
  import opened Prelude
  import opened Samples
  import opened AlertRules
  import opened AlertContext
  import SensorRefs

  /** The number an observed reading contributes, if any. */
  function Numeric(r: Reading): Option<real>
  {
    match r
    case Scalar(v) => Some(v)
    case Counter(n) => Some(n as real)
    case _ => None
  }

  ghost function ReferencedBy(rules: seq<Rule>): set<string>
  {
    set i, s | 0 <= i < |rules| && s in rules[i].referenced :: s
  }

  /** `idx` is among the rules to evaluate after a sample of `id`. */
  predicate Concerns(rules: seq<Rule>, idx: nat, id: string)
  {
    idx < |rules| && rules[idx].enabled && id in rules[idx].referenced
  }

  /** The rule an upsert leaves behind: a quiet automaton with the new settings. */
  ghost predicate IsEdit(r: Rule, name: string, expr: string, forDuration: nat, cooldown: nat, notify: seq<string>, on: bool)
  {
    && r.name == name && r.expr == expr && r.rewrittenExpr == Rewrite(expr)
    && r.forDuration == forDuration && r.cooldown == cooldown && r.notify == notify && r.enabled == on
    && SensorRefs.AreRefs(expr, r.referenced)
    && Quiet(r)
  }

  /** One verdict per job, in order, each as evaluated. */
  ghost predicate Judged(verdicts: seq<Verdict>, jobs: seq<nat>, judge: nat -> (Outcome, int, nat))
  {
    && |verdicts| == |jobs|
    && forall k | 0 <= k < |jobs| ::
         verdicts[k] == Verdict(jobs[k], judge(jobs[k]).0, judge(jobs[k]).1, judge(jobs[k]).2)
  }

  datatype Engine = Engine(rules: seq<Rule>, values: Values, ctx: Context, events: seq<AlertEvent>)

  ghost function ValuesWith(e: Engine, x: Sample): Values
  {
    if Numeric(x.reading).None? then e.values
    else ValuesAfter(e.values, ReferencedBy(e.rules), x.sensor, Numeric(x.reading).value)
  }

  /** The rules to evaluate after a sample, each once. */
  ghost predicate AreJobs(rules: seq<Rule>, x: Sample, jobs: seq<nat>)
  {
    && Distinct(jobs)
    && forall idx: nat :: idx in jobs <==> Numeric(x.reading).Some? && Concerns(rules, idx, x.sensor)
  }

  lemma {:induction false} HandlesOneMore(e: Engine, xs: seq<Sample>, judge: nat -> nat -> (Outcome, int, nat),
                                          verdicts: seq<seq<Verdict>>, mid: Engine, x: Sample, vs: seq<Verdict>, after: Engine)
    requires HandlesAll(e, xs, judge, verdicts, mid) && Handles(mid, x, judge(|xs|), vs, after)
    ensures HandlesAll(e, xs + [x], judge, verdicts + [vs], after)
  {
    assert (xs + [x])[..|xs|] == xs && (verdicts + [vs])[..|xs|] == verdicts;
  }

  /** What one sample does to the engine: it is observed, and one outcome is applied for every enabled rule
      that refers to its sensor, and for no other. */
  ghost predicate Handles(e: Engine, x: Sample, judge: nat -> (Outcome, int, nat), verdicts: seq<Verdict>, after: Engine)
  {
    && ValidVerdicts(verdicts, |e.rules|)
    && (exists jobs :: AreJobs(e.rules, x, jobs) && Judged(verdicts, jobs, judge))
    && after.values == ValuesWith(e, x)
    && (Backed(e.ctx, e.values) ==> Backed(after.ctx, after.values))
    && after.rules == RulesAfter(e.rules, verdicts)
    && after.events == Ring(e.events, FullLog(e.rules, verdicts))
  }

  /** The samples are handled one after the other; `judge(k)` evaluates for the k-th of them. */
  ghost predicate HandlesAll(e: Engine, xs: seq<Sample>, judge: nat -> nat -> (Outcome, int, nat),
                             verdicts: seq<seq<Verdict>>, after: Engine)
    decreases |xs|
  {
    && |verdicts| == |xs|
    && if xs == [] then after == e
       else
         var n := |xs| - 1;
         exists mid :: HandlesAll(e, xs[..n], judge, verdicts[..n], mid) && Handles(mid, xs[n], judge(n), verdicts[n], after)
  }

  lemma JudgedOneMore(verdicts: seq<Verdict>, jobs: seq<nat>, n: nat, judge: nat -> (Outcome, int, nat), size: nat)
    requires n < |jobs| && jobs[n] < size && Judged(verdicts, jobs[..n], judge) && ValidVerdicts(verdicts, size)
    ensures var v := Verdict(jobs[n], judge(jobs[n]).0, judge(jobs[n]).1, judge(jobs[n]).2);
            Judged(verdicts + [v], jobs[..n + 1], judge) && ValidVerdicts(verdicts + [v], size)
  {
  }

  /** What a handled sample leaves as the latest value of its sensor: the number itself of a scalar, the count of
      a counter. A state or a table changes no value and judges no rule. */
  lemma HandledValue(e: Engine, x: Sample, judge: nat -> (Outcome, int, nat), verdicts: seq<Verdict>, after: Engine)
    requires Handles(e, x, judge, verdicts, after)
    ensures x.reading.Scalar? ==> x.sensor in after.values && after.values[x.sensor] == x.reading.v
    ensures x.reading.Counter? ==> x.sensor in after.values && after.values[x.sensor] == x.reading.n as real
    ensures !x.reading.Scalar? && !x.reading.Counter? ==>
              verdicts == [] && after.values == e.values && after.rules == e.rules && after.events == e.events
  {
    var jobs :| AreJobs(e.rules, x, jobs) && Judged(verdicts, jobs, judge);
    if !x.reading.Scalar? && !x.reading.Counter? {
      assert forall k | 0 <= k < |jobs| :: jobs[k] in jobs;
      assert verdicts == [];
    }
  }

  class AlertEngine {
    var rules: seq<Rule>
    var values: Values
    var ctx: Context
    var events: seq<AlertEvent>   // newest first

    ghost function View(): Engine
      reads this
    {
      Engine(rules, values, ctx, events)
    }

    constructor (rules: seq<Rule>)
      ensures this.rules == rules && values == map[] && ctx == map[] && events == []
    {
      this.rules, values, ctx, events := rules, map[], map[], [];
    }

    method ReferencedSensors() returns (referenced: set<string>)
      ensures referenced == ReferencedBy(rules)
    {
      referenced := {};
      for i := 0 to |rules|
        invariant referenced == ReferencedBy(rules[..i])
      {
        assert forall s :: s in ReferencedBy(rules[..i + 1]) <==> s in ReferencedBy(rules[..i]) || s in rules[i].referenced
        by { ReferencedGrows(rules, i); }
        referenced := referenced + rules[i].referenced;
      }
      assert rules[..|rules|] == rules;
    }

    /** Forgets every value no rule refers to; the context is rebuilt when anything was forgotten. */
    method PruneUnreferencedValues()
      modifies this`values, this`ctx
      ensures values == Pruned(old(values), ReferencedBy(rules))
      ensures Backed(old(ctx), old(values)) ==> Backed(ctx, values)
    {
      var referenced := ReferencedSensors();
      var before := |values|;
      ghost var kept := Pruned(values, referenced);
      assert kept.Keys <= values.Keys;
      values := map k | k in values && k in referenced :: values[k];
      if before - |values| > 0 {
        RebuildContext();
      } else {
        SameSizeSubmap(values, old(values));
      }
    }

    method RebuildContext()
      modifies this`ctx
      ensures Backed(ctx, values)
    {
      var rebuilt: Context := map[];
      var todo := values.Keys;
      ghost var done: Values := map[];
      while todo != {}
        invariant todo <= values.Keys
        invariant done == map k | k in values && k !in todo :: values[k]
        invariant Backed(rebuilt, done)
        decreases todo
      {
        var k :| k in todo;
        SetKeepsBacked(rebuilt, done, k, values[k]);
        rebuilt := rebuilt[Rewrite(k) := values[k]];
        done := done[k := values[k]];
        todo := todo - {k};
      }
      assert done == values;
      ctx := rebuilt;
    }

    /** Records the latest value of a sensor, in the values and under its rewritten name. */
    method StoreValue(id: string, val: real)
      modifies this`values, this`ctx
      ensures values == ValuesAfter(old(values), ReferencedBy(rules), id, val)
      ensures Backed(old(ctx), old(values)) ==> Backed(ctx, values)
    {
      if id !in values && |values| >= VALUES_CAP { PruneUnreferencedValues(); }
      if Backed(ctx, values) { SetKeepsBacked(ctx, values, id, val); }
      values := values[id := val];
      ctx := ctx[Rewrite(id) := val];
    }

    method ConcernedRules(id: string) returns (jobs: seq<nat>)
      ensures forall idx: nat :: idx in jobs <==> Concerns(rules, idx, id)
      ensures Distinct(jobs)
    {
      jobs := [];
      for i := 0 to |rules|
        invariant forall idx: nat :: idx in jobs <==> idx < i && Concerns(rules, idx, id)
        invariant Distinct(jobs) && forall k | 0 <= k < |jobs| :: jobs[k] < i
      {
        if rules[i].enabled && id in rules[i].referenced { jobs := jobs + [i]; }
      }
    }

    method Observe(id: string, reading: Reading) returns (jobs: seq<nat>)
      modifies this`values, this`ctx
      ensures Numeric(reading).None? ==> values == old(values) && ctx == old(ctx) && jobs == []
      ensures Numeric(reading).Some? ==>
                && values == ValuesAfter(old(values), ReferencedBy(rules), id, Numeric(reading).value)
                && (forall idx: nat :: idx in jobs <==> Concerns(rules, idx, id))
      ensures Distinct(jobs)
      ensures reading.Scalar? ==> id in values && values[id] == reading.v
      ensures reading.Counter? ==> id in values && values[id] == reading.n as real
      ensures !reading.Scalar? && !reading.Counter? ==> values == old(values) && ctx == old(ctx) && jobs == []
      ensures Backed(old(ctx), old(values)) ==> Backed(ctx, values)
      ensures Backed(old(ctx), old(values)) && AllUnambiguous(values) ==> IsImage(ctx, values)
    {
      match reading {
        case Scalar(v) =>
          StoreValue(id, v);
          jobs := ConcernedRules(id);
        case Counter(n) =>
          StoreValue(id, n as real);
          jobs := ConcernedRules(id);
        case _ =>
          jobs := [];
      }
      if Backed(ctx, values) && AllUnambiguous(values) { BackedIsImage(ctx, values); }
    }

    method PushEvent(e: AlertEvent)
      modifies this`events
      ensures events == Pushed(old(events), e)
    {
      if |events| == EVENT_CAPACITY {
        events := events[..|events| - 1];
      }
      events := [e] + events;
    }

    method ApplyEvalResult(idx: nat, outcome: Outcome, now: int, wall: nat) returns (fires: bool)
      requires idx < |rules|
      modifies this`rules, this`events
      ensures var (rule, kind) := Judge(old(rules)[idx], outcome, now);
              && rules == old(rules)[idx := rule]
              && events == (if kind.Some? then Pushed(old(events), AlertEvent(rule.name, wall, kind.value))
                            else old(events))
              && (fires <==> kind == Some(Fired))
    {
      fires := false;
      var rule := rules[idx];
      var prevFired := rule.fired;
      var truthy;
      match outcome {
        case Ok(b) => truthy := b;
        case _ => return;
      }
      if truthy {
        var since := if rule.triggeredAt.Some? then rule.triggeredAt.value else now;
        rule := rule.(triggeredAt := Some(since));
        if !prevFired && DurationSince(now, since) >= rule.forDuration {
          var withinCooldown := rule.lastFiredAt.Some? && DurationSince(now, rule.lastFiredAt.value) < rule.cooldown;
          if !withinCooldown {
            rule := rule.(fired := true, lastFiredAt := Some(now));
            fires := true;
            PushEvent(AlertEvent(rule.name, wall, Fired));
          }
        }
      } else {
        rule := rule.(triggeredAt := None, fired := false);
        if prevFired { PushEvent(AlertEvent(rule.name, wall, Cleared)); }
      }
      rules := rules[idx := rule];
    }

    /** Applies one verdict on top of those already `done` since the state `rules0`, `events0`. */
    method ApplyVerdict(v: Verdict, ghost rules0: seq<Rule>, ghost events0: seq<AlertEvent>, ghost done: seq<Verdict>)
      requires ValidVerdicts(done, |rules0|) && v.idx < |rules0|
      requires rules == RulesAfter(rules0, done) && events == Ring(events0, FullLog(rules0, done))
      modifies this`rules, this`events
      ensures rules == RulesAfter(rules0, done + [v]) && events == Ring(events0, FullLog(rules0, done + [v]))
    {
      LogGrows(rules0, done, v, events0);
      var fires := ApplyEvalResult(v.idx, v.outcome, v.now, v.wall);
    }

    /** Applies the outcome of every job, in order. `judge` stands for the evaluations and the clocks at
        which their outcomes are applied. */
    method ApplyAll(jobs: seq<nat>, judge: nat -> (Outcome, int, nat)) returns (verdicts: seq<Verdict>)
      requires forall k | 0 <= k < |jobs| :: jobs[k] < |rules|
      modifies this`rules, this`events
      ensures Judged(verdicts, jobs, judge) && ValidVerdicts(verdicts, |old(rules)|)
      ensures rules == RulesAfter(old(rules), verdicts)
      ensures events == Ring(old(events), FullLog(old(rules), verdicts))
    {
      verdicts := [];
      for n := 0 to |jobs|
        invariant Judged(verdicts, jobs[..n], judge) && ValidVerdicts(verdicts, |old(rules)|)
        invariant rules == RulesAfter(old(rules), verdicts)
        invariant events == Ring(old(events), FullLog(old(rules), verdicts))
      {
        var (outcome, now, wall) := judge(jobs[n]);
        var v := Verdict(jobs[n], outcome, now, wall);
        JudgedOneMore(verdicts, jobs, n, judge, |old(rules)|);
        ApplyVerdict(v, old(rules), old(events), verdicts);
        verdicts := verdicts + [v];
      }
      assert jobs[..|jobs|] == jobs;
    }

    method OnSample(x: Sample, judge: nat -> (Outcome, int, nat)) returns (verdicts: seq<Verdict>)
      modifies this
      ensures Handles(old(View()), x, judge, verdicts, View())
    {
      var todo := Observe(x.sensor, x.reading);
      assert AreJobs(rules, x, todo);
      forall k | 0 <= k < |todo| ensures todo[k] < |rules| { assert todo[k] in todo; }
      verdicts := ApplyAll(todo, judge);
      assert AreJobs(old(rules), x, todo) && Judged(verdicts, todo, judge);
    }

    /** Adds a rule or edits the first of its name; a duration is None if its text does not parse. */
    method UpsertRule(name: string, expr: string, forDuration: Option<nat>, cooldown: Option<nat>, notify: seq<string>,
                      enabled: Option<bool>) returns (ok: bool)
      modifies this`rules
      ensures ok <==> forDuration.Some? && cooldown.Some?
      ensures !ok ==> rules == old(rules)
      ensures ok ==>
                var i := NameIndex(old(rules), name);
                var known := i < |old(rules)|;
                var on := if enabled.Some? then enabled.value else if known then old(rules)[i].enabled else true;
                && |rules| == (if known then |old(rules)| else |old(rules)| + 1)
                && rules == Upserted(old(rules), rules[i])
                && IsEdit(rules[i], name, expr, forDuration.value, cooldown.value, notify, on)
    {
      if forDuration.None? || cooldown.None? { return false; }
      ok := true;
      var refs := SensorRefs.ExtractSensorRefs(expr);
      var i := NameIndex(rules, name);
      if i < |rules| {
        var r := rules[i].(expr := expr, rewrittenExpr := Rewrite(expr), notify := notify, referenced := refs);
        r := r.(forDuration := forDuration.value, cooldown := cooldown.value);
        if enabled.Some? { r := r.(enabled := enabled.value); }
        r := r.(triggeredAt := None, fired := false, lastFiredAt := None);
        rules := rules[i := r];
      } else {
        rules := rules + [Rule(name, expr, Rewrite(expr), forDuration.value, cooldown.value, notify,
                               if enabled.Some? then enabled.value else true, refs, None, false, None)];
      }
    }

    method DeleteRule(name: string) returns (found: bool)
      modifies this`rules
      ensures rules == Without(old(rules), name)
      ensures found <==> exists i :: 0 <= i < |old(rules)| && old(rules)[i].name == name
    {
      var before := |rules|;
      WithoutShrinks(rules, name);
      rules := Without(rules, name);
      found := |rules| < before;
    }
  }

  lemma ReferencedGrows(rules: seq<Rule>, i: nat)
    requires i < |rules|
    ensures ReferencedBy(rules[..i + 1]) == ReferencedBy(rules[..i]) + rules[i].referenced
  {
    var a, b := rules[..i + 1], rules[..i];
    forall s | s in ReferencedBy(b) ensures s in ReferencedBy(a) {
      var k :| 0 <= k < |b| && s in b[k].referenced;
      assert s in a[k].referenced;
    }
    forall s | s in rules[i].referenced ensures s in ReferencedBy(a) { assert s in a[i].referenced; }
    forall s | s in ReferencedBy(a) ensures s in ReferencedBy(b) || s in rules[i].referenced {
      var k :| 0 <= k < |a| && s in a[k].referenced;
      if k < i { assert s in b[k].referenced; }
    }
  }

  lemma SameSizeSubmap(small: Values, big: Values)
    requires small.Keys <= big.Keys && |small| >= |big|
    requires forall k | k in small :: small[k] == big[k]
    ensures small == big
  {
    if k :| k in big && k !in small {
      SubsetSize(small.Keys, big.Keys - {k});
    }
  }

  // ---- the evaluation context over whole runs ---------------------------------------------------

  /** The context is backed by the values, and these are all of unambiguous sensors. */
  ghost predicate WellNamed(e: Engine) { Backed(e.ctx, e.values) && AllUnambiguous(e.values) }

  ghost predicate UnambiguousSensors(xs: seq<Sample>) { forall k | 0 <= k < |xs| :: Unambiguous(xs[k].sensor) }

  lemma {:induction false} HandlingKeepsWellNamed(e: Engine, xs: seq<Sample>, judge: nat -> nat -> (Outcome, int, nat),
                                                  verdicts: seq<seq<Verdict>>, after: Engine)
    requires HandlesAll(e, xs, judge, verdicts, after) && WellNamed(e)
    requires UnambiguousSensors(xs)
    ensures WellNamed(after)
  {
    if xs == [] {
    } else {
      var n := |xs| - 1;
      var mid :| HandlesAll(e, xs[..n], judge, verdicts[..n], mid) && Handles(mid, xs[n], judge(n), verdicts[n], after);
      HandlingKeepsWellNamed(e, xs[..n], judge, verdicts[..n], mid);
      assert AllUnambiguous(ValuesWith(mid, xs[n]));
    }
  }

  /** From one engine state to the next: some samples of unambiguous sensors are handled, or rules are edited. */
  ghost predicate Evolves(e: Engine, after: Engine)
  {
    || (after.values == e.values && after.ctx == e.ctx)
    || exists xs, judge, verdicts ::
         HandlesAll(e, xs, judge, verdicts, after) && UnambiguousSensors(xs)
  }

  /** Over any run of samples and rule edits of an engine that began empty, while the sensors are unambiguous,
      the evaluation context is exactly the rewritten image of the values. */
  lemma {:induction false} ContextIsAlwaysImage(states: seq<Engine>)
    requires states != [] && states[0].values == map[] && states[0].ctx == map[]
    requires forall i | 0 < i < |states| :: Evolves(states[i - 1], states[i])
    ensures WellNamed(states[|states| - 1]) && IsImage(states[|states| - 1].ctx, states[|states| - 1].values)
  {
    var n := |states| - 1;
    if n == 0 {
    } else {
      ContextIsAlwaysImage(states[..n]);
      var e, after := states[n - 1], states[n];
      assert Evolves(e, after);
      if !(after.values == e.values && after.ctx == e.ctx) {
        var xs, judge, verdicts :| HandlesAll(e, xs, judge, verdicts, after) && UnambiguousSensors(xs);
        HandlingKeepsWellNamed(e, xs, judge, verdicts, after);
      }
    }
    BackedIsImage(states[n].ctx, states[n].values);
  }
}
