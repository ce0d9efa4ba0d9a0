/** Correlating concurrent requests with responses (`request_rpc` and `dispatch`,
    apps/linsight-gui/src/client.rs), as a state machine over the atomic steps of the caller threads, the
    reader thread and the daemon.

    Calls are numbered by the unbounded value of the id counter; on the wire a call carries that number
    modulo 2^32. The daemon answers each request it received at most once, whenever it likes. */
module RpcClient {
  import opened Prelude

  const ID_SPAN: nat := 0x1_0000_0000

  function ReqId(call: nat): nat { call % ID_SPAN }

  /** How far a caller is: counter bumped, sender parked, request written, about to remove its own entry
      after a failed write or a timeout, or returned with the answer to some call or with an error. */
  datatype Phase = Minted | Parked | Waiting | Failing | Expiring | Returned(answer: Option<nat>)

  datatype State = State(
    next: nat,
    calls: map<nat, Phase>,
    inflight: map<nat, nat>,           // req_id -> the call whose sender is parked there
    unanswered: set<nat>,              // requests the daemon has and may still answer
    wire: seq<nat>,                    // answers under way, by the call they answer
    holding: Option<(nat, nat)>,       // the reader thread took (waiter, answer) and has yet to send
    woken: map<nat, nat>)              // waiter -> answer that was sent to it

  ghost function Init(): State { State(1, map[], map[], {}, [], None, map[]) }

  datatype Step =
    | Mint
    | Park(call: nat)
    | Write(call: nat)
    | WriteFails(call: nat, reached: bool)   // the daemon may have got the request all the same
    | Expire(call: nat)
    | Reap(call: nat)
    | Receive(call: nat)
    | Respond(call: nat)
    | Take
    | Deliver

  ghost predicate In(s: State, call: nat, phase: Phase) { call in s.calls && s.calls[call] == phase }

  ghost predicate Enabled(s: State, step: Step)
  {
    match step
    case Mint => true
    case Park(n) => In(s, n, Minted)
    case Write(n) => In(s, n, Parked)
    case WriteFails(n, _) => In(s, n, Parked)
    case Expire(n) => In(s, n, Waiting) && n !in s.woken
    case Reap(n) => In(s, n, Failing) || In(s, n, Expiring)
    case Receive(n) => In(s, n, Waiting) && n in s.woken
    case Respond(n) => n in s.unanswered
    case Take => s.wire != [] && s.holding.None?
    case Deliver => s.holding.Some?
  }

  ghost function Apply(s: State, step: Step): State
    requires Enabled(s, step)
  {
    match step
    case Mint => s.(next := s.next + 1, calls := s.calls[s.next := Minted])
    case Park(n) => s.(calls := s.calls[n := Parked], inflight := s.inflight[ReqId(n) := n])
    case Write(n) => s.(calls := s.calls[n := Waiting], unanswered := s.unanswered + {n})
    case WriteFails(n, reached) =>
      s.(calls := s.calls[n := Failing], unanswered := if reached then s.unanswered + {n} else s.unanswered)
    case Expire(n) => s.(calls := s.calls[n := Expiring])
    case Reap(n) => s.(calls := s.calls[n := Returned(None)], inflight := s.inflight - {ReqId(n)})
    case Receive(n) => s.(calls := s.calls[n := Returned(Some(s.woken[n]))])
    case Respond(n) => s.(unanswered := s.unanswered - {n}, wire := s.wire + [n])
    case Take =>
      var a := s.wire[0];
      if ReqId(a) in s.inflight
      then s.(wire := s.wire[1..], inflight := s.inflight - {ReqId(a)}, holding := Some((s.inflight[ReqId(a)], a)))
      else s.(wire := s.wire[1..])
    case Deliver =>
      var (waiter, a) := s.holding.value;
      // Sending to a caller that has returned is ignored: its receiver is gone.
      if waiter in s.calls && s.calls[waiter].Returned? then s.(holding := None)
      else s.(holding := None, woken := s.woken[waiter := a])
  }

  ghost predicate ValidRun(s: State, steps: seq<Step>)
    decreases |steps|, 0
  {
    steps != [] ==>
      ValidRun(s, steps[..|steps| - 1]) && Enabled(Run(s, steps[..|steps| - 1]), steps[|steps| - 1])
  }

  ghost function Run(s: State, steps: seq<Step>): State
    requires ValidRun(s, steps)
    decreases |steps|, 1
  {
    if steps == [] then s else Apply(Run(s, steps[..|steps| - 1]), steps[|steps| - 1])
  }

  // ---- what holds however the ids wrap ----------------------------------------------------------

  /** The caller has an entry of its own to care about: parked and not yet returned. */
  ghost predicate Pending(s: State, n: nat)
  {
    n in s.calls && (s.calls[n].Parked? || s.calls[n].Waiting? || s.calls[n].Failing? || s.calls[n].Expiring?)
  }

  /** The request of call `a` has been written. */
  ghost predicate Written(s: State, a: nat)
  {
    a in s.calls && !s.calls[a].Minted? && !s.calls[a].Parked?
  }

  ghost predicate EntriesInv(s: State)
  {
    && (forall n | n in s.calls :: n < s.next)
    && (forall id | id in s.inflight :: id == ReqId(s.inflight[id]) && Pending(s, s.inflight[id]))
  }

  /** An answer is in one place only: with the daemon, on the wire, with the reader thread, or sent. */
  ghost predicate AnswersInv(s: State)
  {
    && Distinct(s.wire)
    && (forall a | a in s.unanswered :: Written(s, a) && a !in s.wire)
    && (forall a | a in s.wire :: Written(s, a))
    && (s.holding.Some? ==>
          var a := s.holding.value.1; Written(s, a) && a !in s.unanswered && a !in s.wire)
    && (forall n | n in s.woken ::
          && Written(s, s.woken[n]) && s.woken[n] !in s.unanswered && s.woken[n] !in s.wire
          && (s.holding.Some? ==> s.woken[n] != s.holding.value.1))
    && (forall n, m | n in s.woken && m in s.woken && s.woken[n] == s.woken[m] :: n == m)
  }

  /** A waiter that was taken is out of the table and is taken only once. */
  ghost predicate WaitersInv(s: State)
  {
    && (s.holding.Some? ==>
          var (w, a) := s.holding.value;
          && ReqId(w) == ReqId(a) && w !in s.woken && w in s.calls && !s.calls[w].Minted?
          && (forall id | id in s.inflight :: s.inflight[id] != w))
    && (forall n | n in s.woken ::
          && ReqId(n) == ReqId(s.woken[n]) && n in s.calls && !s.calls[n].Minted?
          && (forall id | id in s.inflight :: s.inflight[id] != n))
    && (forall n | n in s.calls && s.calls[n].Returned? && s.calls[n].answer.Some? ::
          n in s.woken && s.woken[n] == s.calls[n].answer.value)
  }

  ghost predicate Inv(s: State) { EntriesInv(s) && AnswersInv(s) && WaitersInv(s) }

  lemma StepKeepsEntries(s: State, step: Step)
    requires Inv(s) && Enabled(s, step)
    ensures EntriesInv(Apply(s, step))
  {
    var t := Apply(s, step);
    forall id | id in t.inflight ensures id == ReqId(t.inflight[id]) && Pending(t, t.inflight[id]) {
      if id in s.inflight && t.inflight[id] == s.inflight[id] { assert Pending(s, s.inflight[id]); }
    }
  }

  /** Steps of caller threads: they move calls along and touch only their own entry. */
  ghost predicate ByCaller(step: Step) { !step.Respond? && !step.Take? && !step.Deliver? }

  lemma CallerKeepsAnswers(s: State, step: Step)
    requires Inv(s) && Enabled(s, step) && ByCaller(step)
    ensures AnswersInv(Apply(s, step))
  {
    var t := Apply(s, step);
    assert forall a | Written(s, a) :: Written(t, a);
    assert t.wire == s.wire && t.holding == s.holding && t.woken == s.woken;
    forall a | a in t.unanswered ensures Written(t, a) && a !in t.wire {
      if a !in s.unanswered { assert !Written(s, a); }
    }
    forall a | a in t.unanswered && a !in s.unanswered ensures !Written(s, a) {}
  }

  lemma RespondKeepsAnswers(s: State, n: nat)
    requires Inv(s) && n in s.unanswered
    ensures AnswersInv(Apply(s, Respond(n)))
  {
    var t := Apply(s, Respond(n));
    assert forall a :: a in t.wire <==> a in s.wire || a == n;
    assert forall a :: Written(s, a) == Written(t, a);
  }

  lemma TakeKeepsAnswers(s: State)
    requires Inv(s) && Enabled(s, Take)
    ensures AnswersInv(Apply(s, Take))
  {
    var t := Apply(s, Take);
    assert s.wire[0] in s.wire && s.wire[0] !in t.wire;
    assert forall a | a in t.wire :: a in s.wire;
    assert forall a :: Written(s, a) == Written(t, a);
  }

  lemma DeliverKeepsAnswers(s: State)
    requires Inv(s) && Enabled(s, Deliver)
    ensures AnswersInv(Apply(s, Deliver))
  {
    var t := Apply(s, Deliver);
    assert forall a :: Written(s, a) == Written(t, a);
  }

  lemma StepKeepsAnswers(s: State, step: Step)
    requires Inv(s) && Enabled(s, step)
    ensures AnswersInv(Apply(s, step))
  {
    match step {
      case Respond(n) => RespondKeepsAnswers(s, n);
      case Take => TakeKeepsAnswers(s);
      case Deliver => DeliverKeepsAnswers(s);
      case _ => CallerKeepsAnswers(s, step);
    }
  }

  /** What a caller's step does to the state, as far as waiters are concerned. */
  ghost predicate CallerMove(s: State, t: State)
  {
    && t.holding == s.holding && t.woken == s.woken
    && (forall n | n in s.calls && !s.calls[n].Minted? :: n in t.calls && !t.calls[n].Minted?)
    && (forall id | id in t.inflight ::
          (id in s.inflight && t.inflight[id] == s.inflight[id]) || In(s, t.inflight[id], Minted))
    && (forall n | n in t.calls && t.calls[n].Returned? && t.calls[n].answer.Some? ::
          (n in s.calls && s.calls[n] == t.calls[n]) || (n in s.woken && s.woken[n] == t.calls[n].answer.value))
  }

  lemma CallersMove(s: State, step: Step)
    requires Inv(s) && Enabled(s, step) && ByCaller(step)
    ensures CallerMove(s, Apply(s, step))
  {
  }

  lemma MoveKeepsWaiters(s: State, t: State)
    requires WaitersInv(s) && CallerMove(s, t)
    ensures WaitersInv(t)
  {
  }

  lemma TakeKeepsWaiters(s: State)
    requires Inv(s) && Enabled(s, Take)
    ensures WaitersInv(Apply(s, Take))
  {
    var a := s.wire[0];
    var t := Apply(s, Take);
    if ReqId(a) in s.inflight {
      var w := s.inflight[ReqId(a)];
      assert Pending(s, w) && ReqId(w) == ReqId(a);
      forall id | id in t.inflight ensures t.inflight[id] != w { assert id == ReqId(s.inflight[id]); }
    }
  }

  lemma DeliverKeepsWaiters(s: State)
    requires Inv(s) && Enabled(s, Deliver)
    ensures WaitersInv(Apply(s, Deliver))
  {
  }

  lemma CallerKeepsWaiters(s: State, step: Step)
    requires Inv(s) && Enabled(s, step) && ByCaller(step)
    ensures WaitersInv(Apply(s, step))
  {
    CallersMove(s, step);
    MoveKeepsWaiters(s, Apply(s, step));
  }

  lemma StepKeepsWaiters(s: State, step: Step)
    requires Inv(s) && Enabled(s, step)
    ensures WaitersInv(Apply(s, step))
  {
    match step {
      case Respond(n) => MoveKeepsWaiters(s, Apply(s, step));
      case Take => TakeKeepsWaiters(s);
      case Deliver => DeliverKeepsWaiters(s);
      case _ => CallerKeepsWaiters(s, step);
    }
  }

  lemma StepKeepsInv(s: State, step: Step)
    requires Inv(s) && Enabled(s, step)
    ensures Inv(Apply(s, step))
  {
    StepKeepsEntries(s, step);
    StepKeepsAnswers(s, step);
    StepKeepsWaiters(s, step);
  }

  lemma {:induction false} RunKeepsInv(s: State, steps: seq<Step>)
    requires Inv(s) && ValidRun(s, steps)
    ensures Inv(Run(s, steps))
  {
    if steps == [] {
    } else {
      RunKeepsInv(s, steps[..|steps| - 1]);
      StepKeepsInv(Run(s, steps[..|steps| - 1]), steps[|steps| - 1]);
    }
  }

  /** In every run: an answer wakes at most one caller and a caller is woken at most once, always with its
      own `req_id`; what a call returns is what it was woken with; and a call that has returned has no
      entry left in the table. */
  lemma {:induction false} ResponsesReachMatchingIds(steps: seq<Step>)
    requires ValidRun(Init(), steps)
    ensures var s := Run(Init(), steps);
            && (forall n | n in s.woken :: ReqId(s.woken[n]) == ReqId(n))
            && (forall n, m | n in s.woken && m in s.woken && s.woken[n] == s.woken[m] :: n == m)
            && (forall n | n in s.calls && s.calls[n].Returned? ::
                  && (s.calls[n].answer.Some? ==> n in s.woken && s.woken[n] == s.calls[n].answer.value)
                  && (forall id | id in s.inflight :: s.inflight[id] != n))
  {
    RunKeepsInv(Init(), steps);
    var s := Run(Init(), steps);
    forall n | n in s.calls && s.calls[n].Returned?
      ensures forall id | id in s.inflight :: s.inflight[id] != n
    {
      assert !Pending(s, n);
    }
  }

  // ---- what holds while no id is used again too early -------------------------------------------

  /** A call still lays claim to its id: it may yet park, overwrite or remove an entry under that id, or its
      answer may yet arrive. */
  ghost predicate Claims(s: State, n: nat)
  {
    || (n in s.calls && !s.calls[n].Returned? && !(s.calls[n].Waiting? && n in s.woken))
    || n in s.unanswered
    || n in s.wire
  }

  /** The next call would get an id that an earlier one still claims. */
  ghost predicate Collides(s: State, m: nat) { Claims(s, m) && ReqId(m) == ReqId(s.next) }

  ghost predicate IdIsFree(s: State) { forall m: nat :: !Collides(s, m) }

  /** No call is made while its id is still claimed. */
  ghost predicate FreshRun(s: State, steps: seq<Step>)
    requires ValidRun(s, steps)
  {
    steps != [] ==>
      && FreshRun(s, steps[..|steps| - 1])
      && (steps[|steps| - 1].Mint? ==> IdIsFree(Run(s, steps[..|steps| - 1])))
  }

  ghost predicate UniqueInv(s: State)
  {
    forall a: nat, b: nat | Claims(s, a) && Claims(s, b) && ReqId(a) == ReqId(b) :: a == b
  }

  /** A caller that is under way has its entry, or its answer. */
  ghost predicate Served(s: State, n: nat)
  {
    || (ReqId(n) in s.inflight && s.inflight[ReqId(n)] == n)
    || n in s.woken
    || (s.holding.Some? && s.holding.value.0 == n)
  }

  ghost predicate OwnInv(s: State)
  {
    && (s.holding.Some? ==> s.holding.value.0 == s.holding.value.1)
    && (forall n | n in s.woken :: s.woken[n] == n)
    && (forall n | Pending(s, n) :: Served(s, n))
  }

  ghost predicate SafeInv(s: State) { Inv(s) && UniqueInv(s) && OwnInv(s) }

  lemma ClaimsAreOld(s: State, step: Step, a: nat)
    requires Inv(s) && Enabled(s, step) && Claims(Apply(s, step), a)
    ensures (step.Mint? && a == s.next) || Claims(s, a)
  {
    var t := Apply(s, step);
    if step.Take? { assert forall x | x in t.wire :: x in s.wire; }
  }

  lemma StepKeepsUnique(s: State, step: Step)
    requires Inv(s) && UniqueInv(s) && Enabled(s, step) && (step.Mint? ==> IdIsFree(s))
    ensures UniqueInv(Apply(s, step))
  {
    var t := Apply(s, step);
    forall a: nat, b: nat | Claims(t, a) && Claims(t, b) && ReqId(a) == ReqId(b) ensures a == b {
      ClaimsAreOld(s, step, a);
      ClaimsAreOld(s, step, b);
      assert step.Mint? ==> !Collides(s, a) && !Collides(s, b);
    }
  }

  /** A pending call without an answer that shares the id of a claiming one is that one. */
  lemma PendingIsUnique(s: State, m: nat, n: nat)
    requires UniqueInv(s) && Pending(s, m) && m !in s.woken && Claims(s, n) && ReqId(m) == ReqId(n)
    ensures m == n
  {
    assert Claims(s, m);
  }

  lemma EntryStepKeepsOwn(s: State, step: Step)
    requires SafeInv(s) && Enabled(s, step) && (step.Park? || step.Reap?)
    ensures OwnInv(Apply(s, step))
  {
    var t, n := Apply(s, step), step.call;
    assert Claims(s, n);
    forall m | Pending(t, m) ensures Served(t, m) {
      if m != n && m !in s.woken {
        assert Pending(s, m) && Served(s, m);
        if ReqId(m) == ReqId(n) { PendingIsUnique(s, m, n); }
      }
    }
  }

  lemma TakeKeepsOwn(s: State)
    requires SafeInv(s) && Enabled(s, Take)
    ensures OwnInv(Apply(s, Take))
  {
    var t, a := Apply(s, Take), s.wire[0];
    assert a in s.wire && Claims(s, a);
    if ReqId(a) in s.inflight {
      var w := s.inflight[ReqId(a)];
      assert Pending(s, w) && w !in s.woken;
      PendingIsUnique(s, w, a);
    }
    forall m | Pending(t, m) ensures Served(t, m) {
      assert Pending(s, m) && Served(s, m);
      if ReqId(m) == ReqId(a) && m !in s.woken { PendingIsUnique(s, m, a); }
    }
  }

  lemma StepKeepsOwn(s: State, step: Step)
    requires SafeInv(s) && Enabled(s, step)
    ensures OwnInv(Apply(s, step))
  {
    match step {
      case Park(_) => EntryStepKeepsOwn(s, step);
      case Reap(_) => EntryStepKeepsOwn(s, step);
      case Take => TakeKeepsOwn(s);
      case _ => OtherStepKeepsOwn(s, step);
    }
  }

  lemma OtherStepKeepsOwn(s: State, step: Step)
    requires SafeInv(s) && Enabled(s, step) && !step.Park? && !step.Reap? && !step.Take?
    ensures OwnInv(Apply(s, step))
  {
    var t := Apply(s, step);
    assert t.inflight == s.inflight;
    forall m | Pending(t, m) ensures Served(t, m) {
      assert Pending(s, m) && Served(s, m);
    }
  }

  lemma {:induction false} FreshRunKeepsInv(s: State, steps: seq<Step>)
    requires SafeInv(s) && ValidRun(s, steps) && FreshRun(s, steps)
    ensures SafeInv(Run(s, steps))
  {
    if steps == [] {
    } else {
      var front, step := steps[..|steps| - 1], steps[|steps| - 1];
      var m := Run(s, front);
      FreshRunKeepsInv(s, front);
      StepKeepsInv(m, step);
      StepKeepsUnique(m, step);
      StepKeepsOwn(m, step);
    }
  }

  /** A caller has returned with somebody else's answer, or is about to miss its own. */
  ghost predicate Wronged(s: State)
  {
    || (exists n :: Misled(s, n))
    || (Enabled(s, Take) && In(s, s.wire[0], Waiting) && Apply(s, Take).holding != Some((s.wire[0], s.wire[0])))
  }

  ghost predicate Misled(s: State, n: nat)
  {
    n in s.calls && s.calls[n].Returned? && s.calls[n].answer.Some? && s.calls[n].answer.value != n
  }

  lemma SafeIsNotWronged(s: State)
    requires SafeInv(s)
    ensures !Wronged(s)
  {
    if Enabled(s, Take) && In(s, s.wire[0], Waiting) {
      assert s.wire[0] in s.wire && Pending(s, s.wire[0]);
    }
  }

  /** As long as no call is made while its id is still claimed, every call that returns an answer returns
      the answer to its own request, and an answer that reaches the reader thread while its caller is
      waiting goes to that caller. */
  lemma {:induction false} CallersGetTheirOwnAnswer(steps: seq<Step>)
    requires ValidRun(Init(), steps) && FreshRun(Init(), steps)
    ensures var s := Run(Init(), steps);
            && (forall n | n in s.woken :: s.woken[n] == n)
            && !Wronged(s)
  {
    FreshRunKeepsInv(Init(), steps);
    SafeIsNotWronged(Run(Init(), steps));
  }

  // ---- the span of live numbers -----------------------------------------------------------------

  /** Calls are made only while every number that still claims its id is less than 2^32 behind. */
  ghost predicate SpanRun(s: State, steps: seq<Step>)
    requires ValidRun(s, steps)
  {
    steps != [] ==>
      && SpanRun(s, steps[..|steps| - 1])
      && (steps[|steps| - 1].Mint? ==> Narrow(Run(s, steps[..|steps| - 1])))
  }

  ghost predicate Narrow(s: State) { forall m: nat | Claims(s, m) :: s.next - m < 0x1_0000_0000 }

  lemma ClaimsAreBehind(s: State, m: nat)
    requires Inv(s) && Claims(s, m)
    ensures m < s.next
  {
  }

  /** The span bound is enough: within it no id is used again too early. */
  lemma {:induction false} SpanRunsAreFresh(s: State, steps: seq<Step>)
    requires Inv(s) && ValidRun(s, steps) && SpanRun(s, steps)
    ensures FreshRun(s, steps)
  {
    if steps == [] {
    } else {
      var front := steps[..|steps| - 1];
      SpanRunsAreFresh(s, front);
      RunKeepsInv(s, front);
      var t := Run(s, front);
      if steps[|steps| - 1].Mint? {
        forall m: nat ensures !Collides(t, m) {
          if Claims(t, m) { ClaimsAreBehind(t, m); }
        }
      }
    }
  }

  // ---- and nothing less will do -----------------------------------------------------------------

  ghost predicate NoMint(steps: seq<Step>) { forall i | 0 <= i < |steps| :: !steps[i].Mint? }

  /** Without a further call being made, somebody may be wronged. */
  ghost predicate CanWrong(s: State)
  {
    exists steps :: ValidRun(s, steps) && NoMint(steps) && Wronged(Run(s, steps))
  }

  lemma {:induction false} RunPrepend(s: State, step: Step, steps: seq<Step>)
    requires Enabled(s, step) && ValidRun(Apply(s, step), steps)
    ensures ValidRun(s, [step] + steps) && Run(s, [step] + steps) == Run(Apply(s, step), steps)
  {
    if steps == [] {
      assert [step] + steps == [step] && [step][..0] == [];
      assert ValidRun(s, []) && Run(s, []) == s;
    } else {
      var front := steps[..|steps| - 1];
      RunPrepend(s, step, front);
      assert ([step] + steps)[..|steps|] == [step] + front;
    }
  }

  lemma WrongOneStepOn(s: State, step: Step)
    requires Enabled(s, step) && !step.Mint? && CanWrong(Apply(s, step))
    ensures CanWrong(s)
  {
    var steps :| ValidRun(Apply(s, step), steps) && NoMint(steps) && Wronged(Run(Apply(s, step), steps));
    RunPrepend(s, step, steps);
    assert NoMint([step] + steps);
  }

  /** Caller `c` waits with its own entry in the table and its request unanswered. */
  ghost predicate Exposed(s: State, c: nat)
  {
    && Inv(s) && In(s, c, Waiting) && c in s.unanswered
    && ReqId(c) in s.inflight && s.inflight[ReqId(c)] == c
  }

  /** Another call's answer is on the wire under its id: sooner or later it takes that one. */
  lemma {:induction false} ForeignAnswerArrives(s: State, c: nat, a: nat)
    requires Exposed(s, c) && a in s.wire && ReqId(a) == ReqId(c)
    ensures CanWrong(s)
    decreases |s.wire|, if s.holding.Some? then 1 else 0
  {
    if s.holding.Some? {
      StepKeepsInv(s, Deliver);
      ForeignAnswerArrives(Apply(s, Deliver), c, a);
      WrongOneStepOn(s, Deliver);
    } else if ReqId(s.wire[0]) == ReqId(c) {
      ForeignAnswerIsNext(s, c);
    } else {
      StepKeepsInv(s, Take);
      ForeignAnswerArrives(Apply(s, Take), c, a);
      WrongOneStepOn(s, Take);
    }
  }

  lemma ForeignAnswerIsNext(s: State, c: nat)
    requires Exposed(s, c) && s.holding.None? && s.wire != [] && ReqId(s.wire[0]) == ReqId(c)
    ensures CanWrong(s)
  {
    assert s.wire[0] in s.wire && s.wire[0] != c;
    var taken := Apply(s, Take);
    var sent := Apply(taken, Deliver);
    assert sent.woken[c] == s.wire[0];
    assert Misled(Apply(sent, Receive(c)), c);
    var t := Apply(sent, Receive(c));
    assert ValidRun(t, []) && Run(t, []) == t && NoMint([]);
    WrongOneStepOn(sent, Receive(c));
    WrongOneStepOn(taken, Deliver);
    WrongOneStepOn(s, Take);
  }

  /** A waiting caller whose entry is gone misses its answer, which is under way. */
  lemma {:induction false} AnswerIsMissed(s: State, c: nat)
    requires In(s, c, Waiting) && c in s.wire && ReqId(c) !in s.inflight
    ensures CanWrong(s)
    decreases |s.wire|, if s.holding.Some? then 1 else 0
  {
    if s.holding.Some? {
      AnswerIsMissed(Apply(s, Deliver), c);
      WrongOneStepOn(s, Deliver);
    } else if s.wire[0] == c {
      assert ValidRun(s, []) && Run(s, []) == s && NoMint([]);
    } else {
      AnswerIsMissed(Apply(s, Take), c);
      WrongOneStepOn(s, Take);
    }
  }

  /** `c` has just been made while `m` claims the same id. */
  ghost predicate Clash(s: State, c: nat, m: nat)
  {
    Inv(s) && In(s, c, Minted) && m != c && ReqId(m) == ReqId(c)
  }

  lemma ClashOnWire(s: State, c: nat, m: nat)
    requires Clash(s, c, m) && m in s.wire
    ensures CanWrong(s)
  {
    var parked := Apply(s, Park(c));
    var written := Apply(parked, Write(c));
    StepKeepsInv(s, Park(c));
    StepKeepsInv(parked, Write(c));
    ForeignAnswerArrives(written, c, m);
    WrongOneStepOn(parked, Write(c));
    WrongOneStepOn(s, Park(c));
  }

  /** The answer to `m` may yet arrive. */
  lemma {:induction false} ClashAnswerable(s: State, c: nat, m: nat)
    requires Clash(s, c, m) && (m in s.wire || m in s.unanswered || In(s, m, Parked) || In(s, m, Minted))
    ensures CanWrong(s)
    decreases if m in s.wire then 0 else if m in s.unanswered then 1 else if In(s, m, Parked) then 2 else 3
  {
    if m in s.wire {
      ClashOnWire(s, c, m);
    } else {
      var step := if m in s.unanswered then Respond(m) else if In(s, m, Parked) then Write(m) else Park(m);
      StepKeepsInv(s, step);
      ClashAnswerable(Apply(s, step), c, m);
      WrongOneStepOn(s, step);
    }
  }

  /** A call that gives up removes whatever entry stands under its id. */
  lemma ClashReaping(s: State, c: nat, m: nat)
    requires Clash(s, c, m) && (In(s, m, Failing) || In(s, m, Expiring))
    ensures CanWrong(s)
  {
    var parked := Apply(s, Park(c));
    var written := Apply(parked, Write(c));
    var reaped := Apply(written, Reap(m));
    var answered := Apply(reaped, Respond(c));
    AnswerIsMissed(answered, c);
    WrongOneStepOn(reaped, Respond(c));
    WrongOneStepOn(written, Reap(m));
    WrongOneStepOn(parked, Write(c));
    WrongOneStepOn(s, Park(c));
  }

  lemma ClashWaiting(s: State, c: nat, m: nat)
    requires Clash(s, c, m) && In(s, m, Waiting) && m !in s.woken
    ensures CanWrong(s)
  {
    StepKeepsInv(s, Expire(m));
    ClashReaping(Apply(s, Expire(m)), c, m);
    WrongOneStepOn(s, Expire(m));
  }

  /** A call made while its id is still claimed can go wrong, whatever the claim consists of. */
  lemma CollisionWrongs(s: State, m: nat)
    requires Inv(s) && Collides(s, m)
    ensures CanWrong(Apply(s, Mint))
  {
    var t, c := Apply(s, Mint), s.next;
    ClaimsAreBehind(s, m);
    StepKeepsInv(s, Mint);
    assert Clash(t, c, m);
    if m in t.unanswered || m in t.wire || In(t, m, Parked) || In(t, m, Minted) {
      ClashAnswerable(t, c, m);
    } else if In(t, m, Waiting) {
      ClashWaiting(t, c, m);
    } else {
      ClashReaping(t, c, m);
    }
  }

  lemma {:induction false} NoMintIsFresh(s: State, steps: seq<Step>)
    requires ValidRun(s, steps) && NoMint(steps)
    ensures FreshRun(s, steps)
  {
    if steps == [] {
    } else {
      NoMintIsFresh(s, steps[..|steps| - 1]);
    }
  }

  /** The exact condition: in a state where all is well, making the next call may wrong somebody, before any
      further call is made, if and only if an earlier call still claims its id. */
  lemma SafeToCallExactly(s: State)
    requires SafeInv(s)
    ensures CanWrong(Apply(s, Mint)) <==> !IdIsFree(s)
  {
    if m: nat :| Collides(s, m) {
      CollisionWrongs(s, m);
    } else {
      var t := Apply(s, Mint);
      StepKeepsInv(s, Mint);
      StepKeepsUnique(s, Mint);
      StepKeepsOwn(s, Mint);
      forall steps | ValidRun(t, steps) && NoMint(steps) ensures !Wronged(Run(t, steps)) {
        NoMintIsFresh(t, steps);
        FreshRunKeepsInv(t, steps);
        SafeIsNotWronged(Run(t, steps));
      }
    }
  }

  // ---- and it does happen -----------------------------------------------------------------------

  ghost predicate Reachable(s: State) { exists steps :: ValidRun(Init(), steps) && Run(Init(), steps) == s }

  lemma ReachableStep(s: State, step: Step)
    requires Reachable(s) && Enabled(s, step)
    ensures Reachable(Apply(s, step))
  {
    var steps :| ValidRun(Init(), steps) && Run(Init(), steps) == s;
    assert (steps + [step])[..|steps|] == steps;
    assert ValidRun(Init(), steps + [step]);
  }

  /** The first call has timed out and is still unanswered; `k` calls made since are all over. */
  ghost predicate Stale(s: State, k: nat)
  {
    && Reachable(s) && s.next == 2 + k
    && s.unanswered == {1} && s.wire == [] && s.holding.None? && s.inflight == map[]
  }

  lemma FirstCallTimesOut() returns (s: State)
    ensures Stale(s, 0)
  {
    s := Init();
    assert ValidRun(s, []) && Run(s, []) == s && Reachable(s);
    ReachableStep(s, Mint);
    s := Apply(s, Mint);
    ReachableStep(s, Park(1));
    s := Apply(s, Park(1));
    ReachableStep(s, Write(1));
    s := Apply(s, Write(1));
    ReachableStep(s, Expire(1));
    s := Apply(s, Expire(1));
    ReachableStep(s, Reap(1));
    s := Apply(s, Reap(1));
  }

  /** One more call `c` whose answer is on the wire. */
  ghost predicate Answered(s: State, k: nat, c: nat)
  {
    && Reachable(s) && s.next == 2 + k && In(s, c, Waiting)
    && s.unanswered == {1} && s.wire == [c] && s.holding.None? && s.inflight == map[ReqId(c) := c]
  }

  lemma CallIsAnswered(before: State, k: nat) returns (s: State)
    requires Stale(before, k)
    ensures Answered(s, k + 1, before.next)
  {
    var c := before.next;
    ReachableStep(before, Mint);
    s := Apply(before, Mint);
    ReachableStep(s, Park(c));
    s := Apply(s, Park(c));
    ReachableStep(s, Write(c));
    s := Apply(s, Write(c));
    ReachableStep(s, Respond(c));
    s := Apply(s, Respond(c));
  }

  lemma CallReturns(before: State, k: nat, c: nat) returns (s: State)
    requires Answered(before, k, c)
    ensures Stale(s, k)
  {
    ReachableStep(before, Take);
    s := Apply(before, Take);
    assert s.holding == Some((c, c)) && s.wire == [] && s.inflight == map[];
    ReachableStep(s, Deliver);
    s := Apply(s, Deliver);
    ReachableStep(s, Receive(c));
    s := Apply(s, Receive(c));
  }

  lemma {:induction false} ManyMoreCalls(k: nat) returns (s: State)
    ensures Stale(s, k)
  {
    if k == 0 {
      s := FirstCallTimesOut();
    } else {
      var before := ManyMoreCalls(k - 1);
      var answered := CallIsAnswered(before, k - 1);
      s := CallReturns(answered, k, before.next);
    }
  }

  /** After 2^32 - 1 ordinary calls the answer to a request that timed out can still go to the next caller. */
  lemma CollisionIsReachable()
    ensures exists s :: Reachable(s) && s.next == 1 + 0x1_0000_0000 && Collides(s, 1) && CanWrong(Apply(s, Mint))
  {
    var s := ManyMoreCalls(ID_SPAN - 1);
    assert ReqId(1) == 1 && ReqId(1 + ID_SPAN) == 1;
    var steps :| ValidRun(Init(), steps) && Run(Init(), steps) == s;
    RunKeepsInv(Init(), steps);
    CollisionWrongs(s, 1);
  }
}
