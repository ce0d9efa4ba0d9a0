/** The debounced, cooldown-limited, edge-triggered rule automaton of the alert engine and its event ring
    (apps/linsightd/src/alerts.rs). Evaluating an expression is an oracle with four kinds of outcome.
    Rules are edited only between the samples being processed, so an index stays valid while its outcome
    is awaited. */
module AlertRules {
  import opened Prelude
  import opened Samples

  const EVENT_CAPACITY: nat := 512

  datatype Outcome = Ok(truthy: bool) | Err | Timeout | Panic

  datatype Rule = Rule(
    name: string,
    expr: string,
    rewrittenExpr: string,
    forDuration: nat,
    cooldown: nat,
    notify: seq<string>,
    enabled: bool,
    referenced: set<string>,
    triggeredAt: Option<int>,
    fired: bool,
    lastFiredAt: Option<int>)

  /** `Instant::duration_since`, which is zero when the other instant is later. */
  function DurationSince(now: int, earlier: int): nat { if now >= earlier then now - earlier else 0 }

  /** What one evaluation outcome does to a rule, and the transition it reports. */
  function Judge(r: Rule, outcome: Outcome, now: int): (Rule, Option<Kind>)
  {
    match outcome
    case Ok(true) =>
      var since := if r.triggeredAt.Some? then r.triggeredAt.value else now;
      var held := !r.fired && DurationSince(now, since) >= r.forDuration;
      var cooling := r.lastFiredAt.Some? && DurationSince(now, r.lastFiredAt.value) < r.cooldown;
      if held && !cooling then
        (r.(triggeredAt := Some(since), fired := true, lastFiredAt := Some(now)), Some(Fired))
      else
        (r.(triggeredAt := Some(since)), None)
    case Ok(false) =>
      (r.(triggeredAt := None, fired := false), if r.fired then Some(Cleared) else None)
    case _ => (r, None)
  }

  function Pushed(events: seq<AlertEvent>, e: AlertEvent): seq<AlertEvent>
  {
    [e] + if |events| == EVENT_CAPACITY then events[..|events| - 1] else events
  }

  function NameIndex(rules: seq<Rule>, name: string): (i: nat)
    ensures i <= |rules|
    ensures i < |rules| ==> rules[i].name == name
    ensures forall j | 0 <= j < i :: rules[j].name != name
  {
    if rules == [] then 0
    else if rules[0].name == name then 0
    else 1 + NameIndex(rules[1..], name)
  }

  function Without(rules: seq<Rule>, name: string): (r: seq<Rule>)
    ensures |r| <= |rules|
  {
    if rules == [] then []
    else (if rules[0].name == name then [] else [rules[0]]) + Without(rules[1..], name)
  }

  lemma {:induction false} WithoutShrinks(rules: seq<Rule>, name: string)
    ensures |Without(rules, name)| < |rules| <==> exists i :: 0 <= i < |rules| && rules[i].name == name
    ensures forall r :: r in Without(rules, name) <==> r in rules && r.name != name
  {
    if rules == [] {
    } else {
      WithoutShrinks(rules[1..], name);
      if i :| 0 <= i < |rules| && rules[i].name == name && i > 0 {
        assert rules[1..][i - 1].name == name;
      }
      if i :| 0 <= i < |rules[1..]| && rules[1..][i].name == name {
        assert rules[i + 1].name == name;
      }
      assert rules == [rules[0]] + rules[1..];
    }
  }

  /** An upsert replaces the first rule of the name, or appends. */
  function Upserted(rules: seq<Rule>, r: Rule): seq<Rule>
  {
    var i := NameIndex(rules, r.name);
    if i < |rules| then rules[i := r] else rules + [r]
  }

  /** How many rules of that name there are. */
  ghost function Named(rules: seq<Rule>, name: string): nat
  {
    if rules == [] then 0 else (if rules[0].name == name then 1 else 0) + Named(rules[1..], name)
  }

  /** Deleting shifts the rules behind: an index taken before a deletion still means the same rule exactly
      when no rule in front of it was deleted. */
  lemma {:induction false} DeletionShifts(rules: seq<Rule>, name: string, i: nat)
    requires i < |rules| && rules[i].name != name
    ensures var place := i - Named(rules[..i], name);
            && 0 <= place < |Without(rules, name)| && Without(rules, name)[place] == rules[i]
            && (place == i <==> forall j | 0 <= j < i :: rules[j].name != name)
  {
    if i == 0 {
    } else {
      var rest := rules[1..];
      DeletionShifts(rest, name, i - 1);
      assert rules[..i][1..] == rest[..i - 1];
      assert (forall j | 0 <= j < i :: rules[j].name != name)
          <==> rules[0].name != name && forall j | 0 <= j < i - 1 :: rest[j].name != name by {
        if forall j | 0 <= j < i :: rules[j].name != name {
          forall j | 0 <= j < i - 1 ensures rest[j].name != name { assert rest[j] == rules[j + 1]; }
        } else if rules[0].name != name {
          var j :| 0 <= j < i && rules[j].name == name;
          assert rest[j - 1].name == name;
        }
      }
    }
  }

  /** A deletion shortens the list by the rules of that name, so an index stays in range exactly when that many
      indices remain behind it. */
  lemma {:induction false} DeletionKeepsInRange(rules: seq<Rule>, name: string, i: nat)
    ensures |Without(rules, name)| == |rules| - Named(rules, name)
    ensures i < |Without(rules, name)| <==> i < |rules| - Named(rules, name)
  {
    if rules == [] {
    } else {
      DeletionKeepsInRange(rules[1..], name, i);
    }
  }

  /** If anything is deleted, the last index goes out of range; with a single rule that is its own index. */
  lemma {:induction false} LastIndexGoesOutOfRange(rules: seq<Rule>, k: nat)
    requires k < |rules|
    ensures |rules| - 1 >= |Without(rules, rules[k].name)|
    ensures Without([rules[k]], rules[k].name) == []
  {
    WithoutShrinks(rules, rules[k].name);
  }

  // ---- one rule over a run of outcomes ----------------------------------------------------------

  datatype Tick = Tick(outcome: Outcome, now: int)

  ghost predicate Quiet(r: Rule) { r.triggeredAt.None? && !r.fired && r.lastFiredAt.None? }

  ghost predicate Ordered(ticks: seq<Tick>)
  {
    forall i, j | 0 <= i <= j < |ticks| :: ticks[i].now <= ticks[j].now
  }

  ghost function After(r: Rule, ticks: seq<Tick>): Rule
  {
    if ticks == [] then r
    else var last := ticks[|ticks| - 1]; Judge(After(r, ticks[..|ticks| - 1]), last.outcome, last.now).0
  }

  /** The transition reported at the last tick. */
  ghost function Reported(r: Rule, ticks: seq<Tick>): Option<Kind>
    requires ticks != []
  {
    var last := ticks[|ticks| - 1];
    Judge(After(r, ticks[..|ticks| - 1]), last.outcome, last.now).1
  }

  datatype Transition = Transition(kind: Kind, at: nat)

  /** All transitions of a run, with the tick each happened at. */
  ghost function Transitions(r: Rule, ticks: seq<Tick>): seq<Transition>
  {
    if ticks == [] then []
    else
      var n := |ticks| - 1;
      Transitions(r, ticks[..n])
      + match Reported(r, ticks) case None => [] case Some(kind) => [Transition(kind, n)]
  }

  /** Where the current stretch without a false outcome began to be true. */
  ghost function StretchStart(ticks: seq<Tick>): Option<nat>
  {
    if ticks == [] then None
    else
      var n := |ticks| - 1;
      var before := StretchStart(ticks[..n]);
      if ticks[n].outcome == Ok(false) then None
      else if ticks[n].outcome == Ok(true) && before.None? then Some(n)
      else before
  }

  /** The tick of the latest Fired among some transitions. */
  ghost function LatestFired(ts: seq<Transition>): Option<nat>
  {
    if ts == [] then None
    else if ts[|ts| - 1].kind.Fired? then Some(ts[|ts| - 1].at)
    else LatestFired(ts[..|ts| - 1])
  }

  ghost predicate Active(ts: seq<Transition>) { ts != [] && ts[|ts| - 1].kind.Fired? }

  ghost predicate InRange(ts: seq<Transition>, n: nat) { forall i | 0 <= i < |ts| :: ts[i].at < n }

  ghost predicate StretchOk(ticks: seq<Tick>, q: nat)
  {
    && q < |ticks| && ticks[q].outcome == Ok(true)
    && (forall i | q <= i < |ticks| :: ticks[i].outcome != Ok(false))
  }

  lemma {:induction false} StretchStartMeaning(ticks: seq<Tick>)
    ensures StretchStart(ticks).Some? ==> StretchOk(ticks, StretchStart(ticks).value)
    ensures StretchStart(ticks).None? ==>
              forall i | 0 <= i < |ticks| && ticks[i].outcome == Ok(true) ::
                exists j :: i < j < |ticks| && ticks[j].outcome == Ok(false)
  {
    if ticks == [] {
    } else {
      var front := ticks[..|ticks| - 1];
      StretchStartMeaning(front);
      if StretchStart(ticks).None? {
        forall i | 0 <= i < |ticks| && ticks[i].outcome == Ok(true)
          ensures exists j :: i < j < |ticks| && ticks[j].outcome == Ok(false)
        {
          if ticks[|ticks| - 1].outcome == Ok(false) {
            assert i < |ticks| - 1;
          } else {
            assert front[i].outcome == Ok(true);
            var j :| i < j < |front| && front[j].outcome == Ok(false);
            assert ticks[j].outcome == Ok(false);
          }
        }
      }
    }
  }

  /** The state of the automaton, read off the run alone. */
  ghost predicate MirrorsStretch(s: Rule, ticks: seq<Tick>)
  {
    match StretchStart(ticks)
    case None => s.triggeredAt.None?
    case Some(q) => q < |ticks| && s.triggeredAt == Some(ticks[q].now)
  }

  ghost predicate MirrorsFired(s: Rule, ticks: seq<Tick>, ts: seq<Transition>)
  {
    && s.fired == Active(ts)
    && match LatestFired(ts)
       case None => s.lastFiredAt.None?
       case Some(q) => q < |ticks| && s.lastFiredAt == Some(ticks[q].now)
  }

  lemma StretchStep(s: Rule, ticks: seq<Tick>)
    requires ticks != [] && MirrorsStretch(s, ticks[..|ticks| - 1])
    ensures MirrorsStretch(Judge(s, ticks[|ticks| - 1].outcome, ticks[|ticks| - 1].now).0, ticks)
  {
  }

  lemma FiredStep(s: Rule, ticks: seq<Tick>, ts: seq<Transition>)
    requires ticks != [] && MirrorsFired(s, ticks[..|ticks| - 1], ts)
    ensures var n := |ticks| - 1;
            var (s', kind) := Judge(s, ticks[n].outcome, ticks[n].now);
            match kind
            case None => MirrorsFired(s', ticks, ts)
            case Some(k) => MirrorsFired(s', ticks, ts + [Transition(k, n)])
  {
    var n := |ticks| - 1;
    forall k ensures (ts + [Transition(k, n)])[..|ts|] == ts {}
  }

  ghost predicate Mirrors(s: Rule, r: Rule, ticks: seq<Tick>, ts: seq<Transition>)
  {
    MirrorsStretch(s, ticks) && MirrorsFired(s, ticks, ts) && s.forDuration == r.forDuration && s.cooldown == r.cooldown
  }

  lemma MirrorStep(s: Rule, r: Rule, ticks: seq<Tick>, ts: seq<Transition>, kind: Option<Kind>, ts': seq<Transition>)
    requires ticks != [] && Mirrors(s, r, ticks[..|ticks| - 1], ts)
    requires kind == Judge(s, ticks[|ticks| - 1].outcome, ticks[|ticks| - 1].now).1
    requires ts' == ts + match kind case None => [] case Some(k) => [Transition(k, |ticks| - 1)]
    ensures Mirrors(Judge(s, ticks[|ticks| - 1].outcome, ticks[|ticks| - 1].now).0, r, ticks, ts')
  {
    StretchStep(s, ticks);
    FiredStep(s, ticks, ts);
    assert kind.None? ==> ts' == ts;
  }

  lemma {:induction false} StateMirrorsRun(r: Rule, ticks: seq<Tick>)
    requires Quiet(r)
    ensures Mirrors(After(r, ticks), r, ticks, Transitions(r, ticks))
  {
    if ticks == [] {
    } else {
      var front := ticks[..|ticks| - 1];
      StateMirrorsRun(r, front);
      MirrorStep(After(r, front), r, ticks, Transitions(r, front), Reported(r, ticks), Transitions(r, ticks));
    }
  }

  // ---- main results about one rule --------------------------------------------------------------

  /** A tick fires exactly when it is true, the rule is not already firing, the true stretch has lasted
      `for`, and the cooldown since the previous Fired is over; it clears exactly when it is false while
      the rule is firing. Error, timeout and panic report nothing. */
  lemma {:induction false} FiresExactlyWhen(r: Rule, ticks: seq<Tick>, outcome: Outcome, now: int)
    requires Quiet(r) && Ordered(ticks + [Tick(outcome, now)])
    ensures var ts, start := Transitions(r, ticks), StretchStart(ticks);
            var reported := Reported(r, ticks + [Tick(outcome, now)]);
            && (start.Some? ==> start.value < |ticks|)
            && (LatestFired(ts).Some? ==> LatestFired(ts).value < |ticks|)
            && (reported == Some(Fired) <==>
                  && outcome == Ok(true) && !Active(ts)
                  && (if start.Some? then now - ticks[start.value].now else 0) >= r.forDuration
                  && (LatestFired(ts).Some? ==> now - ticks[LatestFired(ts).value].now >= r.cooldown))
            && (reported == Some(Cleared) <==> outcome == Ok(false) && Active(ts))
  {
    StateMirrorsRun(r, ticks);
    var all := ticks + [Tick(outcome, now)];
    assert all[..|ticks|] == ticks && all[|ticks|] == Tick(outcome, now);
    forall i | 0 <= i < |ticks| ensures ticks[i].now <= now { assert all[i].now <= all[|ticks|].now; }
  }

  ghost predicate Alternates(ts: seq<Transition>)
  {
    forall i | 0 <= i < |ts| :: ts[i].kind == if i % 2 == 0 then Fired else Cleared
  }

  /** Every Fired comes at least `cooldown` after every earlier one. */
  ghost predicate CooledDown(ts: seq<Transition>, ticks: seq<Tick>, cooldown: nat)
  {
    InRange(ts, |ticks|) && forall i, j | 0 <= i < j < |ts| && ts[i].kind.Fired? && ts[j].kind.Fired? ::
      ticks[ts[j].at].now - ticks[ts[i].at].now >= cooldown
  }

  /** Some true outcome lies `held` or more before tick `at`, with no false outcome from there on. */
  ghost predicate Sustained(ticks: seq<Tick>, at: nat, held: nat)
  {
    && at < |ticks|
    && exists q ::
         && 0 <= q <= at && ticks[q].outcome == Ok(true) && ticks[at].now - ticks[q].now >= held
         && NoFalse(ticks, q, at)
  }

  ghost predicate NoFalse(ticks: seq<Tick>, from: nat, to: nat)
  {
    to < |ticks| && forall i | from <= i <= to :: ticks[i].outcome != Ok(false)
  }

  ghost predicate Debounced(ts: seq<Transition>, ticks: seq<Tick>, held: nat)
  {
    InRange(ts, |ticks|) && forall i | 0 <= i < |ts| && ts[i].kind.Fired? :: Sustained(ticks, ts[i].at, held)
  }

  lemma AlternationStep(ts: seq<Transition>, n: nat)
    requires Alternates(ts)
    ensures Active(ts) ==> Alternates(ts + [Transition(Cleared, n)])
    ensures !Active(ts) ==> Alternates(ts + [Transition(Fired, n)])
  {
  }

  ghost predicate WellBehaved(r: Rule, ticks: seq<Tick>, ts: seq<Transition>)
  {
    InRange(ts, |ticks|) && Alternates(ts) && CooledDown(ts, ticks, r.cooldown) && Debounced(ts, ticks, r.forDuration)
  }

  /** Between edits, and for every sequence of outcomes, the transitions of a rule alternate starting
      with Fired, any two Fired are at least the cooldown apart, and each Fired ends a true stretch of at
      least `for` free of false outcomes. */
  lemma {:induction false} TransitionsWellBehaved(r: Rule, ticks: seq<Tick>)
    requires Quiet(r) && Ordered(ticks)
    ensures WellBehaved(r, ticks, Transitions(r, ticks))
  {
    if ticks == [] {
    } else {
      var n := |ticks| - 1;
      var front := ticks[..n];
      TransitionsWellBehaved(r, front);
      assert ticks == front + [ticks[n]];
      FiresExactlyWhen(r, front, ticks[n].outcome, ticks[n].now);
      WellBehavedStep(r, ticks, Transitions(r, front), Reported(r, ticks));
    }
  }

  lemma {:induction false} WellBehavedStep(r: Rule, ticks: seq<Tick>, ts: seq<Transition>, kind: Option<Kind>)
    requires ticks != [] && Ordered(ticks) && WellBehaved(r, ticks[..|ticks| - 1], ts)
    requires kind == Some(Cleared) ==> Active(ts)
    requires kind == Some(Fired) ==>
               var n, start, latest := |ticks| - 1, StretchStart(ticks[..|ticks| - 1]), LatestFired(ts);
               && !Active(ts) && ticks[n].outcome == Ok(true)
               && (start.Some? ==> start.value < n)
               && (if start.Some? then ticks[n].now - ticks[start.value].now else 0) >= r.forDuration
               && (latest.Some? ==> latest.value < n && ticks[n].now - ticks[latest.value].now >= r.cooldown)
    ensures WellBehaved(r, ticks, ts + match kind case None => [] case Some(k) => [Transition(k, |ticks| - 1)])
  {
    var n := |ticks| - 1;
    AlternationStep(ts, n);
    KeepDebounced(ts, ticks, r.forDuration);
    assert CooledDown(ts, ticks, r.cooldown);
    match kind {
      case None => assert ts + [] == ts;
      case Some(Cleared) =>
      case Some(Fired) =>
        FiringCooled(ts, ticks, r.cooldown);
        FiringSustained(ticks, r.forDuration);
    }
  }

  /** Transitions that were sustained stay so when the run goes on. */
  lemma KeepDebounced(ts: seq<Transition>, ticks: seq<Tick>, held: nat)
    requires ticks != [] && InRange(ts, |ticks| - 1) && Debounced(ts, ticks[..|ticks| - 1], held)
    ensures Debounced(ts, ticks, held)
  {
    var front := ticks[..|ticks| - 1];
    forall i | 0 <= i < |ts| && ts[i].kind.Fired? ensures Sustained(ticks, ts[i].at, held) {
      var at := ts[i].at;
      assert Sustained(front, at, held);
      var q :| 0 <= q <= at && front[q].outcome == Ok(true) && front[at].now - front[q].now >= held
               && NoFalse(front, q, at);
      assert NoFalse(ticks, q, at);
    }
  }

  lemma FiringSustained(ticks: seq<Tick>, held: nat)
    requires ticks != [] && ticks[|ticks| - 1].outcome == Ok(true)
    requires var n, start := |ticks| - 1, StretchStart(ticks[..|ticks| - 1]);
             && (start.Some? ==> start.value < n)
             && (if start.Some? then ticks[n].now - ticks[start.value].now else 0) >= held
    ensures Sustained(ticks, |ticks| - 1, held)
  {
    var n := |ticks| - 1;
    StretchStartMeaning(ticks[..n]);
    var start := StretchStart(ticks[..n]);
    var q := if start.Some? then start.value else n;
    assert NoFalse(ticks, q, n);
  }

  lemma {:induction false} FiringCooled(ts: seq<Transition>, ticks: seq<Tick>, cooldown: nat)
    requires ticks != [] && InRange(ts, |ticks| - 1) && Ordered(ticks)
    requires CooledDown(ts, ticks, cooldown)
    requires LatestFired(ts).Some? ==>
               LatestFired(ts).value < |ticks| && ticks[|ticks| - 1].now - ticks[LatestFired(ts).value].now >= cooldown
    ensures CooledDown(ts + [Transition(Fired, |ticks| - 1)], ticks, cooldown)
  {
    forall i | 0 <= i < |ts| && ts[i].kind.Fired?
      ensures ticks[|ticks| - 1].now - ticks[ts[i].at].now >= cooldown
    {
      LatestFiredBounds(ts, ticks, cooldown, i);
    }
  }

  /** No Fired lies later than the latest one. */
  lemma {:induction false} LatestFiredBounds(ts: seq<Transition>, ticks: seq<Tick>, cooldown: nat, i: nat)
    requires InRange(ts, |ticks|) && CooledDown(ts, ticks, cooldown) && i < |ts| && ts[i].kind.Fired?
    ensures LatestFired(ts).Some? && LatestFired(ts).value < |ticks|
    ensures ticks[ts[i].at].now <= ticks[LatestFired(ts).value].now
  {
    if !ts[|ts| - 1].kind.Fired? { LatestFiredBounds(ts[..|ts| - 1], ticks, cooldown, i); }
  }

  /** The stretch begins no later than any true outcome with no false one behind it. */
  lemma {:induction false} StretchStartIsFirst(ticks: seq<Tick>, q: nat)
    requires StretchOk(ticks, q)
    ensures StretchStart(ticks).Some? && StretchStart(ticks).value <= q
  {
    var front := ticks[..|ticks| - 1];
    if q < |front| {
      assert front[q] == ticks[q];
      StretchStartIsFirst(front, q);
    } else {
      StretchStartMeaning(front);
    }
  }

  lemma {:induction false} LatestFiredIsOne(ts: seq<Transition>)
    ensures LatestFired(ts).Some? ==>
              exists i :: 0 <= i < |ts| && ts[i].kind.Fired? && ts[i].at == LatestFired(ts).value
  {
    if ts == [] {
    } else if !ts[|ts| - 1].kind.Fired? {
      var front := ts[..|ts| - 1];
      LatestFiredIsOne(front);
      if LatestFired(front).Some? {
        var i :| 0 <= i < |front| && front[i].kind.Fired? && front[i].at == LatestFired(front).value;
        assert ts[i] == front[i];
      }
    }
  }

  /** A true outcome fires exactly when it is due: the rule is not firing, some true outcome lies `for` or more
      back with no false one since, and every earlier Fired is the cooldown or more ago. */
  lemma {:induction false} FiresAsSoonAsDue(r: Rule, ticks: seq<Tick>, now: int)
    requires Quiet(r) && Ordered(ticks + [Tick(Ok(true), now)])
    ensures var all, ts := ticks + [Tick(Ok(true), now)], Transitions(r, ticks);
            && InRange(ts, |ticks|)
            && (Reported(r, all) == Some(Fired) <==>
                  && !Active(ts) && Sustained(all, |ticks|, r.forDuration)
                  && forall i | 0 <= i < |ts| && ts[i].kind.Fired? :: now - ticks[ts[i].at].now >= r.cooldown)
  {
    var all, ts, n := ticks + [Tick(Ok(true), now)], Transitions(r, ticks), |ticks|;
    assert all[..n] == ticks && all[n].now == now;
    OrderedFront(all);
    TransitionsWellBehaved(r, ticks);
    FiresExactlyWhen(r, ticks, Ok(true), now);
    if Reported(r, all) == Some(Fired) {
      FiringSustained(all, r.forDuration);
      FiringIsCooled(r, ticks, now);
    } else if !Active(ts) && Sustained(all, n, r.forDuration)
              && forall i | 0 <= i < |ts| && ts[i].kind.Fired? :: now - ticks[ts[i].at].now >= r.cooldown {
      LatestFiredIsOne(ts);
      SustainedFromStart(all, r.forDuration);
    }
  }

  lemma OrderedFront(all: seq<Tick>)
    requires all != [] && Ordered(all)
    ensures Ordered(all[..|all| - 1])
  {
  }

  lemma FiringIsCooled(r: Rule, ticks: seq<Tick>, now: int)
    requires var ts := Transitions(r, ticks); InRange(ts, |ticks|) && CooledDown(ts, ticks, r.cooldown)
    requires var latest := LatestFired(Transitions(r, ticks));
             latest.Some? ==> latest.value < |ticks| && now - ticks[latest.value].now >= r.cooldown
    ensures var ts := Transitions(r, ticks);
            forall i | 0 <= i < |ts| && ts[i].kind.Fired? :: now - ticks[ts[i].at].now >= r.cooldown
  {
    var ts := Transitions(r, ticks);
    forall i | 0 <= i < |ts| && ts[i].kind.Fired? ensures now - ticks[ts[i].at].now >= r.cooldown {
      LatestFiredBounds(ts, ticks, r.cooldown, i);
    }
  }

  /** What has lasted from some true outcome on has lasted from the start of the stretch on. */
  lemma SustainedFromStart(all: seq<Tick>, held: nat)
    requires all != [] && Ordered(all) && Sustained(all, |all| - 1, held)
    ensures var n, start := |all| - 1, StretchStart(all[..|all| - 1]);
            && (start.Some? ==> start.value < n)
            && (if start.Some? then all[n].now - all[start.value].now else 0) >= held
  {
    var n := |all| - 1;
    var q :| 0 <= q <= n && all[q].outcome == Ok(true) && all[n].now - all[q].now >= held && NoFalse(all, q, n);
    var front := all[..n];
    StretchStartMeaning(front);
    if q < n {
      assert StretchOk(front, q);
      StretchStartIsFirst(front, q);
      assert all[StretchStart(front).value].now <= all[q].now;
    } else if StretchStart(front).Some? {
      assert all[StretchStart(front).value].now <= all[n].now;
    }
  }

  // ---- many rules sharing the engine ------------------------------------------------------------

  /** One evaluated rule: its index, the outcome, and the two clocks when the outcome was applied. */
  datatype Verdict = Verdict(idx: nat, outcome: Outcome, now: int, wall: nat)

  ghost predicate ValidVerdicts(verdicts: seq<Verdict>, n: nat)
  {
    forall i | 0 <= i < |verdicts| :: verdicts[i].idx < n
  }

  ghost function RulesAfter(rules: seq<Rule>, verdicts: seq<Verdict>): (r: seq<Rule>)
    requires ValidVerdicts(verdicts, |rules|)
    ensures |r| == |rules|
  {
    if verdicts == [] then rules
    else
      var v := verdicts[|verdicts| - 1];
      var before := RulesAfter(rules, verdicts[..|verdicts| - 1]);
      before[v.idx := Judge(before[v.idx], v.outcome, v.now).0]
  }

  /** The outcomes that concern rule `i`. */
  ghost function TicksOf(verdicts: seq<Verdict>, i: nat): seq<Tick>
  {
    if verdicts == [] then []
    else
      var v := verdicts[|verdicts| - 1];
      TicksOf(verdicts[..|verdicts| - 1], i) + if v.idx == i then [Tick(v.outcome, v.now)] else []
  }

  datatype LogEntry = LogEntry(owner: nat, event: AlertEvent)

  /** The full log: every reported transition with the index of the rule it belongs to. */
  ghost function FullLog(rules: seq<Rule>, verdicts: seq<Verdict>): seq<LogEntry>
    requires ValidVerdicts(verdicts, |rules|)
  {
    if verdicts == [] then []
    else
      var v := verdicts[|verdicts| - 1];
      var front := verdicts[..|verdicts| - 1];
      var rule := RulesAfter(rules, front)[v.idx];
      FullLog(rules, front)
      + match Judge(rule, v.outcome, v.now).1
        case None => []
        case Some(kind) => [LogEntry(v.idx, AlertEvent(rule.name, v.wall, kind))]
  }

  ghost function KindsOf(log: seq<LogEntry>, i: nat): seq<Kind>
  {
    if log == [] then []
    else KindsOf(log[..|log| - 1], i) + if log[|log| - 1].owner == i then [log[|log| - 1].event.kind] else []
  }

  ghost function Kinds(ts: seq<Transition>): seq<Kind>
  {
    seq(|ts|, i requires 0 <= i < |ts| => ts[i].kind)
  }

  /** However the outcomes of many rules interleave, each rule behaves as if it were alone. */
  lemma {:induction false} RulesDoNotInterfere(rules: seq<Rule>, verdicts: seq<Verdict>, i: nat)
    requires ValidVerdicts(verdicts, |rules|) && i < |rules|
    ensures RulesAfter(rules, verdicts)[i] == After(rules[i], TicksOf(verdicts, i))
    ensures KindsOf(FullLog(rules, verdicts), i) == Kinds(Transitions(rules[i], TicksOf(verdicts, i)))
  {
    if verdicts == [] {
    } else {
      var v := verdicts[|verdicts| - 1];
      var front := verdicts[..|verdicts| - 1];
      RulesDoNotInterfere(rules, front, i);
      KindsGrow(FullLog(rules, front), i);
      if v.idx == i {
        AfterGrows(rules[i], TicksOf(front, i), Tick(v.outcome, v.now));
      } else {
        assert TicksOf(front, i) + [] == TicksOf(front, i);
      }
    }
  }

  lemma {:induction false} KindsGrow(log: seq<LogEntry>, i: nat)
    ensures forall e: LogEntry :: KindsOf(log + [e], i) == KindsOf(log, i) + if e.owner == i then [e.event.kind] else []
    ensures log + [] == log
  {
    forall e: LogEntry ensures KindsOf(log + [e], i) == KindsOf(log, i) + if e.owner == i then [e.event.kind] else [] {
      assert (log + [e])[..|log|] == log;
    }
  }

  lemma {:induction false} AfterGrows(r: Rule, ticks: seq<Tick>, tick: Tick)
    ensures var (s, kind) := Judge(After(r, ticks), tick.outcome, tick.now);
            && After(r, ticks + [tick]) == s
            && Kinds(Transitions(r, ticks + [tick])) ==
               Kinds(Transitions(r, ticks)) + match kind case None => [] case Some(k) => [k]
  {
    assert (ticks + [tick])[..|ticks|] == ticks;
  }

  // ---- the ring of recent events ----------------------------------------------------------------

  ghost function Ring(events: seq<AlertEvent>, log: seq<LogEntry>): seq<AlertEvent>
  {
    if log == [] then events else Pushed(Ring(events, log[..|log| - 1]), log[|log| - 1].event)
  }

  /** The newest min(512, n) events of the log, the newest in front. */
  ghost predicate NewestFirst(ring: seq<AlertEvent>, log: seq<LogEntry>)
  {
    && |ring| == (if |log| <= 512 then |log| else 512)
    && forall k | 0 <= k < |ring| :: ring[k] == log[|log| - 1 - k].event
  }

  /** Starting empty, the ring holds the newest min(512, n) events of the full log, newest first. */
  lemma {:induction false} RingIsNewestReversed(log: seq<LogEntry>)
    ensures NewestFirst(Ring([], log), log)
  {
    if log == [] {
    } else {
      RingIsNewestReversed(log[..|log| - 1]);
    }
  }

  lemma {:induction false} LogGrows(rules: seq<Rule>, verdicts: seq<Verdict>, v: Verdict, events: seq<AlertEvent>)
    requires ValidVerdicts(verdicts, |rules|) && v.idx < |rules|
    ensures var before := RulesAfter(rules, verdicts);
            var (rule, kind) := Judge(before[v.idx], v.outcome, v.now);
            && RulesAfter(rules, verdicts + [v]) == before[v.idx := rule]
            && Ring(events, FullLog(rules, verdicts + [v])) ==
               (var ring := Ring(events, FullLog(rules, verdicts));
                if kind.Some? then Pushed(ring, AlertEvent(rule.name, v.wall, kind.value)) else ring)
  {
    assert (verdicts + [v])[..|verdicts|] == verdicts;
    var log := FullLog(rules, verdicts);
    assert log + [] == log;
    var rule := RulesAfter(rules, verdicts)[v.idx];
    var kind := Judge(rule, v.outcome, v.now).1;
    if kind.Some? {
      assert (log + [LogEntry(v.idx, AlertEvent(rule.name, v.wall, kind.value))])[..|log|] == log;
    }
  }
}
