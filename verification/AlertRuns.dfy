/** Whole runs of the alert engine (apps/linsightd/src/alerts.rs): outcomes are applied, and between samples
    rules are added, edited and deleted.

    `Observed` adds to the rules and the ring what an observer would note down. Each rule gets a number when
    it is loaded, added or edited, so that a number stands for one rule between two edits of it, at whatever
    index deletions of other rules may have moved it to. */
module AlertRuns {
  import opened Prelude
  import opened Samples
  import opened AlertRules

  datatype Observed = Observed(
    rules: seq<Rule>,
    ring: seq<AlertEvent>,
    clock: int,
    ids: seq<nat>,                 // the number of the rule at each index
    next: nat,
    born: map<nat, Rule>,          // each numbered rule as it was loaded or edited
    ticks: map<nat, seq<Tick>>,    // the outcomes applied to it since
    log: seq<LogEntry>)            // every event, with the number of its rule

  datatype Op = Judgement(v: Verdict) | Upsert(rule: Rule) | Delete(name: string)

  ghost function Begin(rules: seq<Rule>, clock: int): Observed
  {
    var ids: seq<nat> := seq(|rules|, i => i);
    Observed(rules, [], clock, ids, |rules|, map i: nat | i < |rules| :: rules[i], map i | i in ids :: [], [])
  }

  ghost predicate Enabled(o: Observed, op: Op)
  {
    match op
    case Judgement(v) => v.idx < |o.rules| && o.clock <= v.now
    case Upsert(rule) => Quiet(rule)
    case Delete(_) => true
  }

  /** The numbers of the rules that survive a deletion. */
  ghost function KeptIds(rules: seq<Rule>, ids: seq<nat>, name: string): seq<nat>
    requires |ids| == |rules|
  {
    if rules == [] then []
    else (if rules[0].name == name then [] else [ids[0]]) + KeptIds(rules[1..], ids[1..], name)
  }

  ghost function Apply(o: Observed, op: Op): Observed
    requires Enabled(o, op) && Numbered(o)
  {
    match op
    case Judgement(v) => ApplyVerdict(o, v)
    case Upsert(rule) => ApplyUpsert(o, rule)
    case Delete(name) =>
      o.(rules := Without(o.rules, name), ids := KeptIds(o.rules, o.ids, name))
  }

  ghost function ApplyVerdict(o: Observed, v: Verdict): Observed
    requires v.idx < |o.rules| && Numbered(o)
  {
    var id := o.ids[v.idx];
    var (rule, kind) := Judge(o.rules[v.idx], v.outcome, v.now);
    var o' := o.(rules := o.rules[v.idx := rule], clock := v.now,
                 ticks := o.ticks[id := o.ticks[id] + [Tick(v.outcome, v.now)]]);
    match kind
    case None => o'
    case Some(k) =>
      var e := AlertEvent(rule.name, v.wall, k);
      o'.(ring := Pushed(o.ring, e), log := o.log + [LogEntry(id, e)])
  }

  ghost function ApplyUpsert(o: Observed, rule: Rule): Observed
    requires Numbered(o)
  {
    var i := NameIndex(o.rules, rule.name);
    o.(rules := Upserted(o.rules, rule), ids := if i < |o.rules| then o.ids[i := o.next] else o.ids + [o.next],
       next := o.next + 1, born := o.born[o.next := rule], ticks := o.ticks[o.next := []])
  }

  /** Every rule has a number, and what is noted down under it. */
  ghost predicate Numbered(o: Observed)
  {
    && |o.ids| == |o.rules|
    && forall i | 0 <= i < |o.ids| :: o.ids[i] in o.ticks
  }

  ghost predicate ValidRun(o: Observed, ops: seq<Op>)
    decreases |ops|, 0
  {
    ops != [] ==>
      && ValidRun(o, ops[..|ops| - 1])
      && Numbered(Run(o, ops[..|ops| - 1])) && Enabled(Run(o, ops[..|ops| - 1]), ops[|ops| - 1])
  }

  ghost function Run(o: Observed, ops: seq<Op>): Observed
    requires ValidRun(o, ops)
    decreases |ops|, 1
  {
    if ops == [] then o else Apply(Run(o, ops[..|ops| - 1]), ops[|ops| - 1])
  }

  // ---- what every reachable state satisfies -----------------------------------------------------

  /** What is noted under `id` is one quiet rule and a run of outcomes in order, and the log holds exactly
      the transitions of that run. */
  ghost predicate Kept(o: Observed, id: nat)
  {
    && id in o.born && id in o.ticks && id < o.next
    && Quiet(o.born[id]) && Ordered(o.ticks[id])
    && (forall k | 0 <= k < |o.ticks[id]| :: o.ticks[id][k].now <= o.clock)
    && KindsOf(o.log, id) == Kinds(Transitions(o.born[id], o.ticks[id]))
  }

  /** The rule at index `i` is what the outcomes noted under its number have made of it. */
  ghost predicate Placed(o: Observed, i: nat)
  {
    && i < |o.rules| && i < |o.ids|
    && o.ids[i] in o.born && o.ids[i] in o.ticks && o.rules[i] == After(o.born[o.ids[i]], o.ticks[o.ids[i]])
  }

  ghost predicate Inv(o: Observed)
  {
    && Numbered(o) && Distinct(o.ids)
    && (forall i | 0 <= i < |o.rules| :: Placed(o, i))
    && (forall id | id in o.born :: Kept(o, id))
    && (forall k | 0 <= k < |o.log| ::
          o.log[k].owner in o.born && o.log[k].event.rule == o.born[o.log[k].owner].name)
    && o.ring == Ring([], o.log)
  }

  lemma {:induction false} JudgeKeepsName(r: Rule, ticks: seq<Tick>)
    ensures After(r, ticks).name == r.name
  {
    if ticks == [] {
    } else {
      JudgeKeepsName(r, ticks[..|ticks| - 1]);
    }
  }

  lemma {:induction false} NoKinds(log: seq<LogEntry>, id: nat)
    requires forall k | 0 <= k < |log| :: log[k].owner != id
    ensures KindsOf(log, id) == []
  {
    if log == [] {
    } else {
      NoKinds(log[..|log| - 1], id);
    }
  }

  // ---- outcomes ---------------------------------------------------------------------------------

  lemma LaterTick(ticks: seq<Tick>, tick: Tick, clock: int)
    requires Ordered(ticks) && (forall k | 0 <= k < |ticks| :: ticks[k].now <= clock) && clock <= tick.now
    ensures Ordered(ticks + [tick]) && forall k | 0 <= k < |ticks + [tick]| :: (ticks + [tick])[k].now <= tick.now
  {
  }

  /** The events of the judged rule grow by the transition reported. */
  lemma VerdictGrowsOwn(o: Observed, v: Verdict)
    requires Inv(o) && Enabled(o, Judgement(v))
    ensures var id, t := o.ids[v.idx], ApplyVerdict(o, v);
            && id in o.born && id in o.ticks
            && var ticks := o.ticks[id] + [Tick(v.outcome, v.now)];
            && t.rules[v.idx] == After(o.born[id], ticks)
            && KindsOf(t.log, id) == Kinds(Transitions(o.born[id], ticks))
  {
    var id := o.ids[v.idx];
    assert Placed(o, v.idx) && Kept(o, id);
    AfterGrows(o.born[id], o.ticks[id], Tick(v.outcome, v.now));
    OwnKinds(o, v);
  }

  lemma OwnKinds(o: Observed, v: Verdict)
    requires Numbered(o) && Enabled(o, Judgement(v))
    ensures KindsOf(ApplyVerdict(o, v).log, o.ids[v.idx]) ==
            KindsOf(o.log, o.ids[v.idx])
            + match Judge(o.rules[v.idx], v.outcome, v.now).1 case None => [] case Some(k) => [k]
  {
    KindsGrow(o.log, o.ids[v.idx]);
    assert KindsOf(o.log, o.ids[v.idx]) + [] == KindsOf(o.log, o.ids[v.idx]);
  }

  lemma VerdictKeepsOwn(o: Observed, v: Verdict)
    requires Inv(o) && Enabled(o, Judgement(v))
    ensures Kept(ApplyVerdict(o, v), o.ids[v.idx]) && Placed(ApplyVerdict(o, v), v.idx)
  {
    var id := o.ids[v.idx];
    VerdictGrowsOwn(o, v);
    assert Kept(o, id);
    LaterTick(o.ticks[id], Tick(v.outcome, v.now), o.clock);
  }

  /** Other rules are not affected. */
  lemma VerdictSparesOthers(o: Observed, v: Verdict, id: nat)
    requires Inv(o) && Enabled(o, Judgement(v)) && id in o.born && id != o.ids[v.idx]
    ensures Kept(ApplyVerdict(o, v), id)
  {
    SparedKinds(o, v, id);
    assert Kept(o, id);
  }

  lemma {:induction false} SparedKinds(o: Observed, v: Verdict, id: nat)
    requires Inv(o) && Enabled(o, Judgement(v)) && id != o.ids[v.idx]
    ensures KindsOf(ApplyVerdict(o, v).log, id) == KindsOf(o.log, id)
  {
    KindsGrow(o.log, id);
    assert KindsOf(o.log, id) + [] == KindsOf(o.log, id);
  }

  lemma VerdictKeepsPlaces(o: Observed, v: Verdict, i: nat)
    requires Inv(o) && Enabled(o, Judgement(v)) && i < |o.rules|
    ensures Placed(ApplyVerdict(o, v), i)
  {
    if i == v.idx {
      VerdictKeepsOwn(o, v);
    } else {
      assert Placed(o, i) && Placed(o, v.idx) && o.ids[i] != o.ids[v.idx];
    }
  }

  lemma VerdictKeepsLog(o: Observed, v: Verdict)
    requires Inv(o) && Enabled(o, Judgement(v))
    ensures var t := ApplyVerdict(o, v);
            && t.ring == Ring([], t.log)
            && forall k | 0 <= k < |t.log| ::
                 t.log[k].owner in t.born && t.log[k].event.rule == t.born[t.log[k].owner].name
  {
    var t, id := ApplyVerdict(o, v), o.ids[v.idx];
    assert Placed(o, v.idx);
    JudgeKeepsName(o.born[id], o.ticks[id]);
    if t.log != o.log { assert t.log[..|o.log|] == o.log; }
  }

  lemma VerdictKeepsInv(o: Observed, v: Verdict)
    requires Inv(o) && Enabled(o, Judgement(v))
    ensures Inv(ApplyVerdict(o, v))
  {
    var t := ApplyVerdict(o, v);
    VerdictKeepsLog(o, v);
    forall i | 0 <= i < |t.rules| ensures Placed(t, i) { VerdictKeepsPlaces(o, v, i); }
    forall id | id in t.born ensures Kept(t, id) {
      if id == o.ids[v.idx] { VerdictKeepsOwn(o, v); } else { VerdictSparesOthers(o, v, id); }
    }
  }

  // ---- edits ------------------------------------------------------------------------------------

  lemma NextIsNew(o: Observed)
    requires Inv(o)
    ensures o.next !in o.born && o.next !in o.ids
  {
    forall id | id in o.born ensures id != o.next { assert Kept(o, id); }
    forall i | 0 <= i < |o.ids| ensures o.ids[i] != o.next { assert Placed(o, i); }
  }

  lemma UpsertKeepsPlaces(o: Observed, rule: Rule)
    requires Inv(o)
    ensures var t := ApplyUpsert(o, rule);
            Numbered(t) && Distinct(t.ids) && forall i | 0 <= i < |t.rules| :: Placed(t, i)
  {
    var t := ApplyUpsert(o, rule);
    NextIsNew(o);
    forall i | 0 <= i < |t.rules| ensures Placed(t, i) {
      if t.ids[i] != o.next { assert Placed(o, i); }
    }
  }

  lemma UpsertKeepsHistory(o: Observed, rule: Rule, id: nat)
    requires Inv(o) && Quiet(rule) && id in ApplyUpsert(o, rule).born
    ensures Kept(ApplyUpsert(o, rule), id)
  {
    NextIsNew(o);
    if id == o.next {
      NoKinds(o.log, o.next);
    } else {
      assert Kept(o, id);
    }
  }

  lemma UpsertKeepsInv(o: Observed, rule: Rule)
    requires Inv(o) && Quiet(rule)
    ensures Inv(ApplyUpsert(o, rule))
  {
    var t := ApplyUpsert(o, rule);
    UpsertKeepsPlaces(o, rule);
    NextIsNew(o);
    forall id | id in t.born ensures Kept(t, id) { UpsertKeepsHistory(o, rule, id); }
  }

  /** Deleting keeps rules and numbers side by side. */
  lemma {:induction false} KeptTogether(rules: seq<Rule>, ids: seq<nat>, name: string, i: nat)
    requires |ids| == |rules|
    ensures |KeptIds(rules, ids, name)| == |Without(rules, name)|
    ensures i < |Without(rules, name)| ==>
              exists j :: i <= j < |rules| && Without(rules, name)[i] == rules[j] && KeptIds(rules, ids, name)[i] == ids[j]
  {
    if rules == [] {
    } else {
      var rest, more := rules[1..], ids[1..];
      var k := if rules[0].name == name then i else if i == 0 then 0 else i - 1;
      KeptTogether(rest, more, name, k);
      if i < |Without(rules, name)| {
        if rules[0].name != name && i == 0 {
          assert Without(rules, name)[0] == rules[0] && KeptIds(rules, ids, name)[0] == ids[0];
        } else {
          var j :| k <= j < |rest| && Without(rest, name)[k] == rest[j] && KeptIds(rest, more, name)[k] == more[j];
          assert rest[j] == rules[j + 1] && more[j] == ids[j + 1];
        }
      }
    }
  }

  lemma {:induction false} KeptDistinct(rules: seq<Rule>, ids: seq<nat>, name: string)
    requires |ids| == |rules| && Distinct(ids)
    ensures Distinct(KeptIds(rules, ids, name))
    ensures forall id | id in KeptIds(rules, ids, name) :: id in ids
  {
    if rules == [] {
    } else {
      var kept := KeptIds(rules[1..], ids[1..], name);
      KeptDistinct(rules[1..], ids[1..], name);
      forall k | 0 <= k < |kept| ensures kept[k] in ids && kept[k] != ids[0] {
        assert kept[k] in kept;
        var j :| 0 <= j < |ids[1..]| && ids[1..][j] == kept[k];
        assert ids[j + 1] == kept[k];
      }
    }
  }

  lemma {:induction false} DeleteKeepsInv(o: Observed, name: string)
    requires Inv(o)
    ensures Inv(o.(rules := Without(o.rules, name), ids := KeptIds(o.rules, o.ids, name)))
  {
    var t := o.(rules := Without(o.rules, name), ids := KeptIds(o.rules, o.ids, name));
    KeptTogether(o.rules, o.ids, name, 0);
    KeptDistinct(o.rules, o.ids, name);
    forall i | 0 <= i < |t.rules| ensures Placed(t, i) {
      KeptTogether(o.rules, o.ids, name, i);
      var j :| i <= j < |o.rules| && t.rules[i] == o.rules[j] && t.ids[i] == o.ids[j];
      assert Placed(o, j);
    }
    forall i | 0 <= i < |t.ids| ensures t.ids[i] in t.ticks { assert Placed(t, i); }
    forall id | id in t.born ensures Kept(t, id) { assert Kept(o, id); }
  }

  // ---- runs -------------------------------------------------------------------------------------

  lemma BeginInv(rules: seq<Rule>, clock: int)
    requires forall i | 0 <= i < |rules| :: Quiet(rules[i])
    ensures Inv(Begin(rules, clock))
  {
    var o := Begin(rules, clock);
    forall i | 0 <= i < |rules| ensures Placed(o, i) { assert o.ids[i] in o.ids; }
    forall id | id in o.born ensures Kept(o, id) {
      assert o.ids[id] in o.ids;
      assert Kinds(Transitions(o.born[id], [])) == [];
    }
  }

  lemma {:induction false} RunKeepsInv(o: Observed, ops: seq<Op>)
    requires Inv(o) && ValidRun(o, ops)
    ensures Inv(Run(o, ops))
  {
    if ops == [] {
    } else {
      var m := Run(o, ops[..|ops| - 1]);
      RunKeepsInv(o, ops[..|ops| - 1]);
      match ops[|ops| - 1] {
        case Judgement(v) => VerdictKeepsInv(m, v);
        case Upsert(rule) => UpsertKeepsInv(m, rule);
        case Delete(name) => DeleteKeepsInv(m, name);
      }
    }
  }

  /** In every run of outcomes, additions, edits and deletions of any rules, and for every rule between two
      edits of it: its logged events alternate starting with Fired, any two Fired are its cooldown apart,
      and each ends a stretch of its `for`; every logged event belongs to one rule and carries its name. */
  lemma {:induction false} EngineLogWellBehaved(rules: seq<Rule>, clock: int, ops: seq<Op>, id: nat)
    requires (forall i | 0 <= i < |rules| :: Quiet(rules[i])) && ValidRun(Begin(rules, clock), ops)
    ensures var o := Run(Begin(rules, clock), ops);
            && (id in o.born ==>
                  && id in o.ticks
                  && KindsOf(o.log, id) == Kinds(Transitions(o.born[id], o.ticks[id]))
                  && WellBehaved(o.born[id], o.ticks[id], Transitions(o.born[id], o.ticks[id])))
            && (forall k | 0 <= k < |o.log| ::
                  o.log[k].owner in o.born && o.log[k].event.rule == o.born[o.log[k].owner].name)
  {
    BeginInv(rules, clock);
    RunKeepsInv(Begin(rules, clock), ops);
    var o := Run(Begin(rules, clock), ops);
    if id in o.born {
      assert Kept(o, id);
      TransitionsWellBehaved(o.born[id], o.ticks[id]);
    }
  }

  /** Over the same runs the ring is the newest min(512, n) events of the log, newest first. */
  lemma {:induction false} RingFollowsLog(rules: seq<Rule>, clock: int, ops: seq<Op>)
    requires (forall i | 0 <= i < |rules| :: Quiet(rules[i])) && ValidRun(Begin(rules, clock), ops)
    ensures var o := Run(Begin(rules, clock), ops); NewestFirst(o.ring, o.log)
  {
    BeginInv(rules, clock);
    RunKeepsInv(Begin(rules, clock), ops);
    RingIsNewestReversed(Run(Begin(rules, clock), ops).log);
  }

  /** An outcome leaves every number where it is; an edit or addition starts a new number and leaves the
      others. */
  lemma NumbersThroughUpsert(o: Observed, rule: Rule, i: nat)
    requires Inv(o) && Quiet(rule) && i < |o.rules|
    ensures var t := ApplyUpsert(o, rule);
            && |t.ids| == |t.rules| && o.next !in o.ids && o.next !in o.born
            && t.ids[i] == if i == NameIndex(o.rules, rule.name) then o.next else o.ids[i]
  {
    NextIsNew(o);
  }

  /** A deletion takes the numbers of the deleted rules with it, and every other rule takes its number along
      to its new place. */
  lemma {:induction false} NumbersThroughDelete(o: Observed, name: string, i: nat)
    requires Inv(o) && i < |o.rules|
    ensures var ids, rules := KeptIds(o.rules, o.ids, name), Without(o.rules, name);
            && |ids| == |rules|
            && if o.rules[i].name == name then o.ids[i] !in ids
               else
                 var place := i - Named(o.rules[..i], name);
                 0 <= place < |rules| && rules[place] == o.rules[i] && ids[place] == o.ids[i]
  {
    KeptTogether(o.rules, o.ids, name, 0);
    if o.rules[i].name == name {
      DeletedIdGoes(o.rules, o.ids, name, i);
    } else {
      DeletionShifts(o.rules, name, i);
      IdsShift(o.rules, o.ids, name, i);
    }
  }

  /** The exact condition under which an index taken before a deletion still means the same rule after it: no
      rule up to and including that index was deleted. */
  lemma {:induction false} IndexKeepsRuleExactly(o: Observed, name: string, i: nat)
    requires Inv(o) && i < |o.rules|
    ensures var ids := KeptIds(o.rules, o.ids, name);
            (i < |ids| && ids[i] == o.ids[i]) <==> forall j | 0 <= j <= i :: o.rules[j].name != name
  {
    var ids := KeptIds(o.rules, o.ids, name);
    NumbersThroughDelete(o, name, i);
    KeptDistinct(o.rules, o.ids, name);
    if o.rules[i].name != name {
      DeletionShifts(o.rules, name, i);
    } else if i < |ids| {
      assert ids[i] in ids;
    }
  }

  lemma {:induction false} IdsShift(rules: seq<Rule>, ids: seq<nat>, name: string, i: nat)
    requires |ids| == |rules| && i < |rules| && rules[i].name != name
    ensures var place := i - Named(rules[..i], name);
            0 <= place < |KeptIds(rules, ids, name)| && KeptIds(rules, ids, name)[place] == ids[i]
  {
    if i == 0 {
    } else {
      IdsShift(rules[1..], ids[1..], name, i - 1);
      assert rules[..i][1..] == rules[1..][..i - 1];
    }
  }

  lemma {:induction false} DeletedIdGoes(rules: seq<Rule>, ids: seq<nat>, name: string, i: nat)
    requires |ids| == |rules| && Distinct(ids) && i < |rules| && rules[i].name == name
    ensures ids[i] !in KeptIds(rules, ids, name)
  {
    if i == 0 {
      KeptDistinct(rules[1..], ids[1..], name);
      assert forall id | id in ids[1..] :: id != ids[0];
    } else {
      DeletedIdGoes(rules[1..], ids[1..], name, i - 1);
    }
  }

  // ---- the engine's own steps are such runs -----------------------------------------------------

  ghost function Judgements(verdicts: seq<Verdict>): seq<Op>
  {
    seq(|verdicts|, k requires 0 <= k < |verdicts| => Judgement(verdicts[k]))
  }

  ghost predicate InOrder(clock: int, verdicts: seq<Verdict>)
  {
    && (verdicts != [] ==> clock <= verdicts[0].now)
    && forall i, j | 0 <= i <= j < |verdicts| :: verdicts[i].now <= verdicts[j].now
  }

  /** `t` is the engine `o` after the verdicts. */
  ghost predicate Follows(t: Observed, o: Observed, verdicts: seq<Verdict>)
  {
    && ValidVerdicts(verdicts, |o.rules|)
    && t.rules == RulesAfter(o.rules, verdicts) && t.ring == Ring(o.ring, FullLog(o.rules, verdicts))
    && t.clock == if verdicts == [] then o.clock else verdicts[|verdicts| - 1].now
  }

  lemma VerdictFollows(m: Observed, o: Observed, verdicts: seq<Verdict>, v: Verdict)
    requires ValidVerdicts(verdicts, |o.rules|) && v.idx < |o.rules| && Follows(m, o, verdicts) && Numbered(m)
    ensures Follows(ApplyVerdict(m, v), o, verdicts + [v])
  {
    LogGrows(o.rules, verdicts, v, o.ring);
  }

  lemma {:induction false} RunSnoc(o: Observed, ops: seq<Op>, v: Verdict)
    requires Inv(o) && ValidRun(o, ops) && Enabled(Run(o, ops), Judgement(v))
    ensures Numbered(Run(o, ops)) && ValidRun(o, ops + [Judgement(v)])
    ensures Run(o, ops + [Judgement(v)]) == ApplyVerdict(Run(o, ops), v)
  {
    RunKeepsInv(o, ops);
    assert (ops + [Judgement(v)])[..|ops|] == ops;
  }

  lemma {:induction false} OneMoreVerdict(o: Observed, front: seq<Verdict>, v: Verdict)
    requires Inv(o) && ValidVerdicts(front, |o.rules|) && v.idx < |o.rules|
    requires ValidRun(o, Judgements(front)) && Follows(Run(o, Judgements(front)), o, front)
    requires Enabled(Run(o, Judgements(front)), Judgement(v))
    ensures ValidRun(o, Judgements(front + [v])) && Follows(Run(o, Judgements(front + [v])), o, front + [v])
  {
    RunSnoc(o, Judgements(front), v);
    assert Judgements(front + [v]) == Judgements(front) + [Judgement(v)];
    VerdictFollows(Run(o, Judgements(front)), o, front, v);
  }

  lemma FrontInOrder(o: Observed, verdicts: seq<Verdict>)
    requires verdicts != [] && ValidVerdicts(verdicts, |o.rules|) && InOrder(o.clock, verdicts)
    ensures var front := verdicts[..|verdicts| - 1];
            && ValidVerdicts(front, |o.rules|) && InOrder(o.clock, front)
            && verdicts[|verdicts| - 1].idx < |o.rules| && front + [verdicts[|verdicts| - 1]] == verdicts
  {
  }

  lemma NextIsEnabled(m: Observed, o: Observed, verdicts: seq<Verdict>)
    requires verdicts != [] && ValidVerdicts(verdicts, |o.rules|) && InOrder(o.clock, verdicts)
    requires Follows(m, o, verdicts[..|verdicts| - 1])
    ensures Enabled(m, Judgement(verdicts[|verdicts| - 1]))
  {
  }

  /** Applying verdicts one after the other, as `on_sample` does, is the run of their judgements. */
  lemma {:induction false} VerdictsAreARun(o: Observed, verdicts: seq<Verdict>)
    requires Inv(o) && ValidVerdicts(verdicts, |o.rules|) && InOrder(o.clock, verdicts)
    ensures ValidRun(o, Judgements(verdicts)) && Follows(Run(o, Judgements(verdicts)), o, verdicts)
  {
    if verdicts == [] {
    } else {
      var front, v := verdicts[..|verdicts| - 1], verdicts[|verdicts| - 1];
      FrontInOrder(o, verdicts);
      VerdictsAreARun(o, front);
      NextIsEnabled(Run(o, Judgements(front)), o, verdicts);
      OneMoreVerdict(o, front, v);
    }
  }
}
