/** Swapping daemon connections under a generation counter (apps/linsight-gui/src/workspace.rs), as a state
    machine whose steps are the single atomic actions of `reconnect_with_client`, of the sample forwarder
    threads, and of the clients that feed them. Reconnects exclude each other by their lock; everything
    else interleaves freely. */
module Reconnects {
  import opened Prelude

  type Message = nat

  /** A forwarder runs until its source ends, then compares generations, and clears the alive flag in a
      separate action if it is still current. */
  datatype Phase = Running | Stopped | Matched | Cleared | Outdated

  datatype Forwarder = Forwarder(client: nat, taken: nat, holding: bool, phase: Phase)

  /** How far the reconnect holding the lock has come. */
  datatype Stage = Begun | Loaded | Replayed | Published | Marked | Swapped | Spawned

  datatype Attempt = Attempt(client: nat, target: string, generation: nat, stage: Stage)

  datatype State = State(
    generation: nat,
    alive: bool,
    client: nat,
    target: string,
    attempt: Option<Attempt>,
    streams: map<nat, seq<Message>>,   // what each client has pushed so far
    ended: set<nat>,                   // clients whose dispatch thread is gone
    forwarders: map<nat, Forwarder>,   // by generation
    bridge: seq<(nat, Message)>,       // everything sent to the pump, with its tag
    pumpGone: bool)

  ghost function Init(target: string): State
  {
    State(1, true, 0, target, None, map[0 := []], {}, map[1 := Forwarder(0, 0, false, Running)], [], false)
  }

  datatype Step =
    | Begin(client: nat, to: string)
    | LoadGeneration
    | Replay
    | Fail
    | PublishGeneration
    | MarkAlive
    | SwapClient
    | SpawnForwarder
    | Finish
    | Push(client: nat, message: Message)
    | End(client: nat)
    | PumpExits
    | Take(g: nat)
    | Send(g: nat)
    | Stop(g: nat)
    | Compare(g: nat)
    | Clear(g: nat)
    | CompareAndClear(g: nat)   // the last two as one action

  ghost predicate At(s: State, stage: Stage) { s.attempt.Some? && s.attempt.value.stage == stage }

  ghost predicate Has(s: State, g: nat, phase: Phase) { g in s.forwarders && s.forwarders[g].phase == phase }

  ghost predicate Enabled(s: State, step: Step)
  {
    match step
    case Begin(c, _) => s.attempt.None? && c !in s.streams
    case LoadGeneration => At(s, Begun)
    case Replay => At(s, Loaded)
    case Fail => At(s, Begun) || At(s, Loaded)
    case PublishGeneration => At(s, Replayed)
    case MarkAlive => At(s, Published)
    case SwapClient => At(s, Marked)
    case SpawnForwarder => At(s, Swapped)
    case Finish => At(s, Spawned)
    case Push(c, _) => c in s.streams && c !in s.ended
    case End(c) => c in s.streams
    case PumpExits => true
    case Take(g) =>
      && Has(s, g, Running) && !s.forwarders[g].holding
      && s.forwarders[g].client in s.streams && s.forwarders[g].taken < |s.streams[s.forwarders[g].client]|
    case Send(g) => Has(s, g, Running) && s.forwarders[g].holding && !s.pumpGone
    case Stop(g) =>
      && Has(s, g, Running) && s.forwarders[g].client in s.streams
      && (if s.forwarders[g].holding then s.pumpGone
          else s.forwarders[g].client in s.ended && s.forwarders[g].taken == |s.streams[s.forwarders[g].client]|)
    case Compare(g) => Has(s, g, Stopped)
    case Clear(g) => Has(s, g, Matched)
    case CompareAndClear(g) => Has(s, g, Stopped)
  }

  /** The message a forwarder holds: the last one it took. */
  ghost predicate HoldsMessage(s: State, g: nat)
  {
    && g in s.forwarders && s.forwarders[g].client in s.streams
    && 0 < s.forwarders[g].taken <= |s.streams[s.forwarders[g].client]|
  }

  ghost function Held(s: State, g: nat): Message
    requires HoldsMessage(s, g)
  {
    s.streams[s.forwarders[g].client][s.forwarders[g].taken - 1]
  }

  ghost function SetStage(s: State, stage: Stage): State
    requires s.attempt.Some?
  {
    s.(attempt := Some(s.attempt.value.(stage := stage)))
  }

  ghost function SetPhase(s: State, g: nat, phase: Phase): State
    requires g in s.forwarders
  {
    s.(forwarders := s.forwarders[g := s.forwarders[g].(phase := phase)])
  }

  ghost function Apply(s: State, step: Step): State
    requires Enabled(s, step)
  {
    match step
    case Begin(c, to) => s.(attempt := Some(Attempt(c, to, 0, Begun)), streams := s.streams[c := []])
    case LoadGeneration =>
      s.(attempt := Some(s.attempt.value.(generation := s.generation + 1, stage := Loaded)))
    case Replay => SetStage(s, Replayed)
    case Fail => s.(attempt := None)
    case PublishGeneration => SetStage(s, Published).(generation := s.attempt.value.generation)
    case MarkAlive => SetStage(s, Marked).(alive := true)
    case SwapClient => SetStage(s, Swapped).(client := s.attempt.value.client)
    case SpawnForwarder =>
      var a := s.attempt.value;
      SetStage(s, Spawned).(forwarders := s.forwarders[a.generation := Forwarder(a.client, 0, false, Running)])
    case Finish => s.(attempt := None, target := s.attempt.value.target)
    case Push(c, m) => s.(streams := s.streams[c := s.streams[c] + [m]])
    case End(c) => s.(ended := s.ended + {c})
    case PumpExits => s.(pumpGone := true)
    case Take(g) =>
      s.(forwarders := s.forwarders[g := s.forwarders[g].(taken := s.forwarders[g].taken + 1, holding := true)])
    case Send(g) =>
      s.(forwarders := s.forwarders[g := s.forwarders[g].(holding := false)],
         bridge := if HoldsMessage(s, g) then s.bridge + [(g, Held(s, g))] else s.bridge)
    case Stop(g) => SetPhase(s, g, Stopped)
    case Compare(g) => SetPhase(s, g, if s.generation == g then Matched else Outdated)
    case Clear(g) => SetPhase(s, g, Cleared).(alive := false)
    case CompareAndClear(g) =>
      if s.generation == g then SetPhase(s, g, Cleared).(alive := false) else SetPhase(s, g, Outdated)
  }

  ghost predicate ValidRun(s: State, steps: seq<Step>)
    decreases |steps|, 0
  {
    steps != [] ==>
      ValidRun(s, steps[..|steps| - 1]) && Enabled(Run(s, steps[..|steps| - 1]), steps[|steps| - 1])
  }

  ghost function Run(s: State, steps: seq<Step>): State
    requires ValidRun(s, steps)
    decreases |steps|, 1
  {
    if steps == [] then s else Apply(Run(s, steps[..|steps| - 1]), steps[|steps| - 1])
  }

  // ---- what every reachable state satisfies -----------------------------------------------------

  /** A generation is published but its forwarder has not been started. */
  ghost predicate Launching(s: State) { At(s, Published) || At(s, Marked) || At(s, Swapped) }

  ghost predicate GenerationsInv(s: State)
  {
    && s.generation >= 1
    && (forall g | g in s.forwarders :: 1 <= g <= s.generation)
    && (s.generation in s.forwarders <==> !Launching(s))
    && ((At(s, Loaded) || At(s, Replayed)) ==> s.attempt.value.generation == s.generation + 1)
    && ((Launching(s) || At(s, Spawned)) ==> s.attempt.value.generation == s.generation)
    && (s.attempt.Some? ==> s.attempt.value.client in s.streams)
  }

  /** The messages on the bridge that carry tag `g`. */
  ghost function Tagged(bridge: seq<(nat, Message)>, g: nat): seq<Message>
  {
    if bridge == [] then []
    else
      var last := bridge[|bridge| - 1];
      Tagged(bridge[..|bridge| - 1], g) + if last.0 == g then [last.1] else []
  }

  /** How many messages a forwarder has put on the bridge. */
  ghost function Sent(f: Forwarder): int { f.taken - if f.holding then 1 else 0 }

  /** A forwarder has sent, in order, what it took from its client, but for the one it holds. */
  ghost predicate Faithful(f: Forwarder, g: nat, streams: map<nat, seq<Message>>, bridge: seq<(nat, Message)>)
  {
    && f.client in streams
    && 0 <= Sent(f) <= f.taken <= |streams[f.client]|
    && Tagged(bridge, g) == streams[f.client][..Sent(f)]
  }

  ghost predicate BridgeInv(s: State)
  {
    && (forall i | 0 <= i < |s.bridge| :: s.bridge[i].0 in s.forwarders)
    && (forall g | g in s.forwarders :: Faithful(s.forwarders[g], g, s.streams, s.bridge))
  }

  /** A raised flag means that the current forwarder has not cleared it. */
  ghost predicate AliveInv(s: State) { s.alive ==> !Has(s, s.generation, Cleared) }

  ghost predicate Inv(s: State) { GenerationsInv(s) && BridgeInv(s) && AliveInv(s) }

  lemma {:induction false} TaggedAppend(bridge: seq<(nat, Message)>, e: (nat, Message), g: nat)
    ensures Tagged(bridge + [e], g) == Tagged(bridge, g) + if e.0 == g then [e.1] else []
  {
    assert (bridge + [e])[..|bridge|] == bridge;
  }

  lemma {:induction false} TaggedNone(bridge: seq<(nat, Message)>, g: nat)
    requires forall i | 0 <= i < |bridge| :: bridge[i].0 != g
    ensures Tagged(bridge, g) == []
  {
    if bridge == [] {
    } else {
      TaggedNone(bridge[..|bridge| - 1], g);
    }
  }

  ghost predicate ByReconnect(step: Step)
  {
    || step.Begin? || step.LoadGeneration? || step.Replay? || step.Fail? || step.PublishGeneration?
    || step.MarkAlive? || step.SwapClient? || step.SpawnForwarder? || step.Finish?
  }

  /** Steps by which a reconnect takes effect, all of them after its replay has succeeded. */
  ghost predicate Commits(step: Step)
  {
    step.PublishGeneration? || step.MarkAlive? || step.SwapClient? || step.SpawnForwarder? || step.Finish?
  }

  /** What the other threads leave alone. */
  lemma OthersKeepConnection(s: State, step: Step)
    requires Enabled(s, step) && !ByReconnect(step)
    ensures var t := Apply(s, step);
            && t.generation == s.generation && t.attempt == s.attempt && t.client == s.client && t.target == s.target
            && t.forwarders.Keys == s.forwarders.Keys && t.streams.Keys == s.streams.Keys
  {
  }

  lemma StepKeepsGenerations(s: State, step: Step)
    requires Inv(s) && Enabled(s, step)
    ensures GenerationsInv(Apply(s, step))
  {
    if Commits(step) {
      CommitKeepsGenerations(s, step);
    } else if ByReconnect(step) {
      PrepareKeepsGenerations(s, step);
    } else {
      OthersKeepGenerations(s, step);
    }
  }

  lemma OthersKeepGenerations(s: State, step: Step)
    requires Inv(s) && Enabled(s, step) && !ByReconnect(step)
    ensures GenerationsInv(Apply(s, step))
  {
    OthersKeepConnection(s, step);
    var t := Apply(s, step);
    assert forall g :: g in t.forwarders.Keys <==> g in s.forwarders.Keys;
  }

  lemma PrepareKeepsGenerations(s: State, step: Step)
    requires Inv(s) && Enabled(s, step) && ByReconnect(step) && !Commits(step)
    ensures GenerationsInv(Apply(s, step))
  {
    var t := Apply(s, step);
    assert t.forwarders == s.forwarders && t.generation == s.generation && !Launching(s) && !Launching(t);
  }

  lemma CommitKeepsGenerations(s: State, step: Step)
    requires Inv(s) && Enabled(s, step) && Commits(step)
    ensures GenerationsInv(Apply(s, step))
  {
    assert Apply(s, step).streams == s.streams;
  }

  lemma SendKeepsBridge(s: State, g: nat)
    requires Inv(s) && Enabled(s, Send(g))
    ensures BridgeInv(Apply(s, Send(g)))
  {
    var t, f := Apply(s, Send(g)), s.forwarders[g];
    assert Faithful(f, g, s.streams, s.bridge) && HoldsMessage(s, g);
    var stream := s.streams[f.client];
    assert stream[..f.taken] == stream[..f.taken - 1] + [Held(s, g)];
    forall h | h in t.forwarders ensures Faithful(t.forwarders[h], h, t.streams, t.bridge) {
      assert Faithful(s.forwarders[h], h, s.streams, s.bridge);
      TaggedAppend(s.bridge, (g, Held(s, g)), h);
    }
  }

  lemma SpawnKeepsBridge(s: State)
    requires Inv(s) && Enabled(s, SpawnForwarder)
    ensures BridgeInv(Apply(s, SpawnForwarder))
  {
    TaggedNone(s.bridge, s.generation);
    var t := Apply(s, SpawnForwarder);
    forall h | h in t.forwarders ensures Faithful(t.forwarders[h], h, t.streams, t.bridge) {
      if h != s.generation { assert Faithful(s.forwarders[h], h, s.streams, s.bridge); }
    }
  }

  lemma PushKeepsBridge(s: State, c: nat, m: Message)
    requires Inv(s) && Enabled(s, Push(c, m))
    ensures BridgeInv(Apply(s, Push(c, m)))
  {
    var t := Apply(s, Push(c, m));
    forall g | g in t.forwarders ensures Faithful(t.forwarders[g], g, t.streams, t.bridge) {
      assert Faithful(s.forwarders[g], g, s.streams, s.bridge);
      var k := Sent(s.forwarders[g]);
      if s.forwarders[g].client == c { assert (s.streams[c] + [m])[..k] == s.streams[c][..k]; }
    }
  }

  /** Steps that leave the bridge and the streams alone and change no forwarder's progress. */
  ghost predicate Quiet(s: State, t: State)
  {
    && t.bridge == s.bridge && t.forwarders.Keys == s.forwarders.Keys
    && (forall c | c in s.streams :: c in t.streams && t.streams[c] == s.streams[c])
    && (forall g | g in s.forwarders :: t.forwarders[g] == s.forwarders[g].(phase := t.forwarders[g].phase))
  }

  lemma QuietKeepsBridge(s: State, t: State)
    requires BridgeInv(s) && Quiet(s, t)
    ensures BridgeInv(t)
  {
    forall g | g in t.forwarders ensures Faithful(t.forwarders[g], g, t.streams, t.bridge) {
      assert Faithful(s.forwarders[g], g, s.streams, s.bridge);
    }
  }

  lemma TakeKeepsBridge(s: State, g: nat)
    requires Inv(s) && Enabled(s, Take(g))
    ensures BridgeInv(Apply(s, Take(g)))
  {
    var t := Apply(s, Take(g));
    forall h | h in t.forwarders ensures Faithful(t.forwarders[h], h, t.streams, t.bridge) {
      assert Faithful(s.forwarders[h], h, s.streams, s.bridge);
    }
  }

  lemma IsQuiet(s: State, step: Step)
    requires Enabled(s, step) && !step.Send? && !step.Take? && !step.SpawnForwarder? && !step.Push?
    ensures Quiet(s, Apply(s, step))
  {
    var t := Apply(s, step);
    if ByReconnect(step) || step.End? || step.PumpExits? {
      assert t.forwarders == s.forwarders;
    } else {
      assert t.streams == s.streams;
    }
  }

  lemma StepKeepsBridge(s: State, step: Step)
    requires Inv(s) && Enabled(s, step)
    ensures BridgeInv(Apply(s, step))
  {
    match step {
      case Send(g) => SendKeepsBridge(s, g);
      case Take(g) => TakeKeepsBridge(s, g);
      case SpawnForwarder => SpawnKeepsBridge(s);
      case Push(c, m) => PushKeepsBridge(s, c, m);
      case _ =>
        IsQuiet(s, step);
        QuietKeepsBridge(s, Apply(s, step));
    }
  }

  lemma StepKeepsAlive(s: State, step: Step)
    requires Inv(s) && Enabled(s, step)
    ensures AliveInv(Apply(s, step))
  {
  }

  lemma {:induction false} RunKeepsInv(s: State, steps: seq<Step>)
    requires Inv(s) && ValidRun(s, steps)
    ensures Inv(Run(s, steps))
  {
    if steps == [] {
    } else {
      var m, step := Run(s, steps[..|steps| - 1]), steps[|steps| - 1];
      RunKeepsInv(s, steps[..|steps| - 1]);
      StepKeepsGenerations(m, step);
      StepKeepsBridge(m, step);
      StepKeepsAlive(m, step);
    }
  }

  // ---- what an observer reads off the steps -----------------------------------------------------

  datatype Place = Place(client: nat, target: string)

  /** What the steps alone say: the reconnect under way, the places published so far by generation, the place of
      the last reconnect that finished, what each client pushed, and how often each forwarder sent. */
  datatype Trail = Trail(
    under: Option<Place>,
    published: seq<Place>,
    finished: Place,
    pushed: map<nat, seq<Message>>,
    sends: map<nat, nat>)

  ghost function PushedBy(tr: Trail, c: nat): seq<Message> { if c in tr.pushed then tr.pushed[c] else [] }

  ghost function SendsOf(tr: Trail, g: nat): nat { if g in tr.sends then tr.sends[g] else 0 }

  ghost function Note(tr: Trail, step: Step): Trail
  {
    match step
    case Begin(c, to) => tr.(under := Some(Place(c, to)))
    case Fail => tr.(under := None)
    case PublishGeneration => if tr.under.Some? then tr.(published := tr.published + [tr.under.value]) else tr
    case Finish => if tr.under.Some? then tr.(finished := tr.under.value, under := None) else tr
    case Push(c, m) => tr.(pushed := tr.pushed[c := PushedBy(tr, c) + [m]])
    case Send(g) => tr.(sends := tr.sends[g := SendsOf(tr, g) + 1])
    case _ => tr
  }

  ghost function TrailOf(target: string, steps: seq<Step>): Trail
  {
    if steps == [] then Trail(None, [Place(0, target)], Place(0, target), map[], map[])
    else Note(TrailOf(target, steps[..|steps| - 1]), steps[|steps| - 1])
  }

  /** The reconnect under way and the published generations are those of the trail. */
  ghost predicate UnderInv(s: State, tr: Trail)
  {
    && s.attempt.Some? == tr.under.Some?
    && (s.attempt.Some? ==> Place(s.attempt.value.client, s.attempt.value.target) == tr.under.value)
    && s.generation == |tr.published|
    && tr.published != []
    && tr.published[|tr.published| - 1] == if Launching(s) || At(s, Spawned) then tr.under.value else tr.finished
  }

  /** Every published generation has its forwarder, but for one being launched, and it reads the client that was
      published. */
  ghost predicate SourcesInv(s: State, tr: Trail)
  {
    forall g: nat | 1 <= g <= |tr.published| && !(g == s.generation && Launching(s)) ::
      g in s.forwarders && s.forwarders[g].client == tr.published[g - 1].client
  }

  /** Client and target are those of the last reconnect that finished; one under way changes the client when it
      swaps it. */
  ghost predicate PlaceInv(s: State, tr: Trail)
  {
    && s.target == tr.finished.target
    && s.client == if At(s, Swapped) || At(s, Spawned) then s.attempt.value.client else tr.finished.client
  }

  /** Each client's stream is what it pushed. */
  ghost predicate PushesInv(s: State, tr: Trail)
  {
    forall c: nat :: PushedBy(tr, c) == if c in s.streams then s.streams[c] else []
  }

  /** A forwarder has sent as often as noted. */
  ghost predicate SendsAgree(s: State, tr: Trail, g: nat)
  {
    SendsOf(tr, g) == if g in s.forwarders then Sent(s.forwarders[g]) else 0
  }

  /** All have. */
  ghost predicate SendsInv(s: State, tr: Trail)
  {
    forall g: nat :: SendsAgree(s, tr, g)
  }

  ghost predicate TrailInv(s: State, tr: Trail)
  {
    UnderInv(s, tr) && SourcesInv(s, tr) && PlaceInv(s, tr) && PushesInv(s, tr) && SendsInv(s, tr)
  }

  lemma OthersKeepSources(s: State, step: Step, g: nat)
    requires Enabled(s, step) && !ByReconnect(step) && g in s.forwarders
    ensures g in Apply(s, step).forwarders && Apply(s, step).forwarders[g].client == s.forwarders[g].client
  {
  }

  lemma OthersNote(tr: Trail, step: Step)
    requires !ByReconnect(step)
    ensures var u := Note(tr, step); u.under == tr.under && u.published == tr.published && u.finished == tr.finished
  {
  }

  lemma NoteKeepsUnder(s: State, tr: Trail, step: Step)
    requires Inv(s) && TrailInv(s, tr) && Enabled(s, step)
    ensures UnderInv(Apply(s, step), Note(tr, step))
  {
    if ByReconnect(step) {
      ReconnectNotesUnder(s, tr, step);
    } else {
      OthersKeepConnection(s, step);
      OthersNote(tr, step);
    }
  }

  lemma ReconnectNotesUnder(s: State, tr: Trail, step: Step)
    requires GenerationsInv(s) && UnderInv(s, tr) && Enabled(s, step) && ByReconnect(step)
    ensures UnderInv(Apply(s, step), Note(tr, step))
  {
  }

  lemma ReconnectNotesSources(s: State, tr: Trail, step: Step, g: nat)
    requires GenerationsInv(s) && UnderInv(s, tr) && SourcesInv(s, tr) && Enabled(s, step) && ByReconnect(step)
    requires 1 <= g <= |Note(tr, step).published| && !(g == Apply(s, step).generation && Launching(Apply(s, step)))
    ensures g in Apply(s, step).forwarders && Apply(s, step).forwarders[g].client == Note(tr, step).published[g - 1].client
  {
    if !(step.SpawnForwarder? && g == s.generation) {
      assert g in s.forwarders && s.forwarders[g].client == tr.published[g - 1].client;
    }
  }

  /** The same connection, seen through sources that did not change. */
  lemma SourcesStay(s: State, t: State, tr: Trail, u: Trail)
    requires SourcesInv(s, tr) && t.generation == s.generation && t.attempt == s.attempt && u.published == tr.published
    requires forall g | g in s.forwarders :: g in t.forwarders && t.forwarders[g].client == s.forwarders[g].client
    ensures SourcesInv(t, u)
  {
  }

  lemma OthersKeepAllSources(s: State, tr: Trail, step: Step)
    requires SourcesInv(s, tr) && Enabled(s, step) && !ByReconnect(step)
    ensures SourcesInv(Apply(s, step), Note(tr, step))
  {
    var t := Apply(s, step);
    OthersKeepConnection(s, step);
    OthersNote(tr, step);
    forall g | g in s.forwarders ensures g in t.forwarders && t.forwarders[g].client == s.forwarders[g].client {
      OthersKeepSources(s, step, g);
    }
    SourcesStay(s, t, tr, Note(tr, step));
  }

  lemma ReconnectKeepsAllSources(s: State, tr: Trail, step: Step)
    requires GenerationsInv(s) && UnderInv(s, tr) && SourcesInv(s, tr) && Enabled(s, step) && ByReconnect(step)
    ensures SourcesInv(Apply(s, step), Note(tr, step))
  {
    var t, u := Apply(s, step), Note(tr, step);
    forall g: nat | 1 <= g <= |u.published| && !(g == t.generation && Launching(t))
      ensures g in t.forwarders && t.forwarders[g].client == u.published[g - 1].client
    {
      ReconnectNotesSources(s, tr, step, g);
    }
  }

  lemma NoteKeepsSources(s: State, tr: Trail, step: Step)
    requires Inv(s) && TrailInv(s, tr) && Enabled(s, step)
    ensures SourcesInv(Apply(s, step), Note(tr, step))
  {
    if ByReconnect(step) { ReconnectKeepsAllSources(s, tr, step); } else { OthersKeepAllSources(s, tr, step); }
  }

  lemma NoteKeepsPlace(s: State, tr: Trail, step: Step)
    requires Inv(s) && TrailInv(s, tr) && Enabled(s, step)
    ensures PlaceInv(Apply(s, step), Note(tr, step))
  {
    if !ByReconnect(step) {
      OthersKeepConnection(s, step);
      OthersNote(tr, step);
    }
  }

  lemma NoteKeepsPushes(s: State, tr: Trail, step: Step)
    requires PushesInv(s, tr) && Enabled(s, step)
    ensures PushesInv(Apply(s, step), Note(tr, step))
  {
    var t, u := Apply(s, step), Note(tr, step);
    assert step.Push? || u.pushed == tr.pushed;
    assert step.Push? || step.Begin? || t.streams == s.streams;
    forall c: nat ensures PushedBy(u, c) == if c in t.streams then t.streams[c] else [] {
      assert PushedBy(tr, c) == if c in s.streams then s.streams[c] else [];
    }
  }

  /** Only taking, sending and spawning change how often a forwarder has sent or holds. */
  lemma SendsStay(s: State, step: Step, g: nat)
    requires Enabled(s, step) && !step.Send? && !step.Take? && !step.SpawnForwarder? && !step.Push?
    ensures var t := Apply(s, step);
            (g in t.forwarders <==> g in s.forwarders) && (g in s.forwarders ==> Sent(t.forwarders[g]) == Sent(s.forwarders[g]))
  {
    IsQuiet(s, step);
    assert g in Apply(s, step).forwarders.Keys <==> g in s.forwarders.Keys;
  }

  lemma ForwarderNotesSends(s: State, tr: Trail, step: Step, g: nat)
    requires SendsAgree(s, tr, g) && Enabled(s, step) && (step.Send? || step.Take?)
    ensures SendsAgree(Apply(s, step), Note(tr, step), g)
  {
  }

  lemma OthersNoteSends(s: State, tr: Trail, step: Step, g: nat)
    requires GenerationsInv(s) && SendsAgree(s, tr, g) && Enabled(s, step) && !step.Send? && !step.Take?
    ensures SendsAgree(Apply(s, step), Note(tr, step), g)
  {
    assert Note(tr, step).sends == tr.sends;
    match step {
      case SpawnForwarder => assert s.generation !in s.forwarders;
      case Push(_, _) =>
      case _ => SendsStay(s, step, g);
    }
  }

  lemma NoteKeepsSends(s: State, tr: Trail, step: Step)
    requires GenerationsInv(s) && SendsInv(s, tr) && Enabled(s, step)
    ensures SendsInv(Apply(s, step), Note(tr, step))
  {
    forall g: nat ensures SendsAgree(Apply(s, step), Note(tr, step), g) {
      assert SendsAgree(s, tr, g);
      if step.Send? || step.Take? { ForwarderNotesSends(s, tr, step, g); } else { OthersNoteSends(s, tr, step, g); }
    }
  }

  lemma {:induction false} RunKeepsTrail(target: string, steps: seq<Step>)
    requires ValidRun(Init(target), steps)
    ensures Inv(Run(Init(target), steps)) && TrailInv(Run(Init(target), steps), TrailOf(target, steps))
  {
    RunKeepsInv(Init(target), steps);
    if steps == [] {
    } else {
      var front, step := steps[..|steps| - 1], steps[|steps| - 1];
      RunKeepsTrail(target, front);
      var s, tr := Run(Init(target), front), TrailOf(target, front);
      NoteKeepsUnder(s, tr, step);
      NoteKeepsSources(s, tr, step);
      NoteKeepsPlace(s, tr, step);
      NoteKeepsPushes(s, tr, step);
      NoteKeepsSends(s, tr, step);
    }
  }

  // ---- main results -----------------------------------------------------------------------------

  /** However reconnects and forwarders interleave: no message on the bridge carries a tag above the number of
      generations published, and those with tag `g` are, in order, the first messages pushed by the client that
      was published as generation `g`, one for each send of its forwarder. */
  lemma BridgeCarriesPrefixes(target: string, steps: seq<Step>, g: nat)
    requires ValidRun(Init(target), steps)
    ensures var s, tr := Run(Init(target), steps), TrailOf(target, steps);
            && s.generation == |tr.published|
            && (forall i | 0 <= i < |s.bridge| :: 1 <= s.bridge[i].0 <= |tr.published|)
            && |Tagged(s.bridge, g)| == SendsOf(tr, g)
            && (1 <= g <= |tr.published| ==> Tagged(s.bridge, g) <= PushedBy(tr, tr.published[g - 1].client))
            && (g < 1 || g > |tr.published| ==> Tagged(s.bridge, g) == [])
  {
    RunKeepsTrail(target, steps);
    TaggedAreSent(Run(Init(target), steps), TrailOf(target, steps), g);
  }

  lemma TaggedAreSent(s: State, tr: Trail, g: nat)
    requires Inv(s) && TrailInv(s, tr)
    ensures |Tagged(s.bridge, g)| == SendsOf(tr, g)
    ensures 1 <= g <= |tr.published| ==> Tagged(s.bridge, g) <= PushedBy(tr, tr.published[g - 1].client)
    ensures g < 1 || g > |tr.published| ==> Tagged(s.bridge, g) == []
  {
    if g in s.forwarders {
      assert Faithful(s.forwarders[g], g, s.streams, s.bridge);
      assert s.forwarders[g].client == tr.published[g - 1].client;
      assert PushedBy(tr, s.forwarders[g].client) == s.streams[s.forwarders[g].client];
    } else {
      TaggedNone(s.bridge, g);
    }
    assert SendsAgree(s, tr, g);
  }

  // ---- nothing is left behind -------------------------------------------------------------------

  ghost predicate Drained(s: State, f: Forwarder)
  {
    f.client in s.streams && f.client in s.ended && !f.holding && f.taken == |s.streams[f.client]|
  }

  /** While the pump is there, a forwarder leaves its loop only when its client has ended and everything is sent. */
  ghost predicate DrainedInv(s: State)
  {
    s.pumpGone || forall g | g in s.forwarders && !s.forwarders[g].phase.Running? :: Drained(s, s.forwarders[g])
  }

  lemma StaysDrained(s: State, step: Step, g: nat)
    requires Enabled(s, step) && g in s.forwarders && !s.forwarders[g].phase.Running? && Drained(s, s.forwarders[g])
    requires GenerationsInv(s)
    ensures var t := Apply(s, step); g in t.forwarders && Drained(t, t.forwarders[g])
  {
    assert step != Take(g) && step != Send(g);
  }

  lemma BecomesDrained(s: State, step: Step, g: nat)
    requires Enabled(s, step) && g in s.forwarders && s.forwarders[g].phase.Running? && !Apply(s, step).pumpGone
    requires g in Apply(s, step).forwarders && !Apply(s, step).forwarders[g].phase.Running?
    ensures Drained(Apply(s, step), Apply(s, step).forwarders[g])
  {
    assert step == Stop(g);
  }

  lemma StepKeepsDrained(s: State, step: Step)
    requires Inv(s) && DrainedInv(s) && Enabled(s, step)
    ensures DrainedInv(Apply(s, step))
  {
    var t := Apply(s, step);
    if !t.pumpGone {
      forall g | g in t.forwarders && !t.forwarders[g].phase.Running? ensures Drained(t, t.forwarders[g]) {
        assert g in s.forwarders;
        if s.forwarders[g].phase.Running? { BecomesDrained(s, step, g); } else { StaysDrained(s, step, g); }
      }
    }
  }

  lemma {:induction false} RunKeepsDrained(target: string, steps: seq<Step>)
    requires ValidRun(Init(target), steps)
    ensures DrainedInv(Run(Init(target), steps))
  {
    if steps == [] {
    } else {
      var front := steps[..|steps| - 1];
      RunKeepsDrained(target, front);
      RunKeepsInv(Init(target), front);
      StepKeepsDrained(Run(Init(target), front), steps[|steps| - 1]);
    }
  }

  /** A forwarder that has stopped while the pump is there has bridged everything its client ever pushed, in order. */
  lemma StoppedHasDelivered(target: string, steps: seq<Step>, g: nat)
    requires ValidRun(Init(target), steps)
    ensures var s, tr := Run(Init(target), steps), TrailOf(target, steps);
            g in s.forwarders && !s.forwarders[g].phase.Running? && !s.pumpGone ==>
              && 1 <= g <= |tr.published|
              && tr.published[g - 1].client in s.ended
              && Tagged(s.bridge, g) == PushedBy(tr, tr.published[g - 1].client)
  {
    RunKeepsTrail(target, steps);
    RunKeepsDrained(target, steps);
    var s := Run(Init(target), steps);
    if g in s.forwarders && !s.forwarders[g].phase.Running? && !s.pumpGone {
      DrainedHasDelivered(s, TrailOf(target, steps), g);
    }
  }

  lemma DrainedHasDelivered(s: State, tr: Trail, g: nat)
    requires Inv(s) && TrailInv(s, tr) && DrainedInv(s) && g in s.forwarders
    requires !s.forwarders[g].phase.Running? && !s.pumpGone
    ensures 1 <= g <= |tr.published| && tr.published[g - 1].client in s.ended
    ensures Tagged(s.bridge, g) == PushedBy(tr, tr.published[g - 1].client)
  {
    assert Faithful(s.forwarders[g], g, s.streams, s.bridge);
    assert s.forwarders[g].client == tr.published[g - 1].client;
    assert PushedBy(tr, s.forwarders[g].client) == s.streams[s.forwarders[g].client];
  }

  /** A reconnect is under way exactly when the steps say so. Otherwise client and target are those of the last
      reconnect that finished, which is the last published, and every published generation has the forwarder that
      reads its client. */
  ghost predicate Settled(s: State, tr: Trail)
  {
    && (s.attempt.None? <==> tr.under.None?)
    && (tr.under.None? ==>
          && s.client == tr.finished.client && s.target == tr.finished.target
          && tr.published != [] && tr.published[|tr.published| - 1] == tr.finished
          && forall g: nat | 1 <= g <= |tr.published| ::
               g in s.forwarders && s.forwarders[g].client == tr.published[g - 1].client)
  }

  lemma TrailIsSettled(s: State, tr: Trail)
    requires TrailInv(s, tr)
    ensures Settled(s, tr)
  {
  }

  /** Whenever no reconnect is under way, the connection is that of the last one that finished, or the first. */
  lemma ConnectionIsTheLastFinished(target: string, steps: seq<Step>)
    requires ValidRun(Init(target), steps)
    ensures Settled(Run(Init(target), steps), TrailOf(target, steps))
  {
    RunKeepsTrail(target, steps);
    TrailIsSettled(Run(Init(target), steps), TrailOf(target, steps));
  }

  /** At every moment of every run, a raised flag means that the current generation's forwarder has not
      cleared it. */
  lemma {:induction false} AliveIsNotCleared(target: string, steps: seq<Step>)
    requires ValidRun(Init(target), steps)
    ensures var s := Run(Init(target), steps); s.alive ==> !Has(s, s.generation, Cleared)
  {
    RunKeepsInv(Init(target), steps);
  }

  // ---- when a lowered flag can be trusted -------------------------------------------------------

  /** The current forwarder has compared generations and not yet cleared the flag. */
  ghost predicate ClearPending(s: State) { Has(s, s.generation, Matched) }

  /** No generation is published while a clear is pending. */
  ghost predicate GuardedRun(s: State, steps: seq<Step>)
    requires ValidRun(s, steps)
  {
    steps != [] ==>
      && GuardedRun(s, steps[..|steps| - 1])
      && (steps[|steps| - 1].PublishGeneration? ==> !ClearPending(Run(s, steps[..|steps| - 1])))
  }

  /** Only the current forwarder can still clear the flag, and outside the moment between the two stores of
      a reconnect the flag is down only if it did. */
  ghost predicate GuardedInv(s: State)
  {
    && (forall g | Has(s, g, Matched) :: g == s.generation)
    && (!At(s, Published) && !s.alive ==> Has(s, s.generation, Cleared))
    && !Has(s, s.generation, Outdated)
  }

  lemma ForwarderKeepsGuarded(s: State, step: Step)
    requires Inv(s) && GuardedInv(s) && Enabled(s, step) && !ByReconnect(step)
    ensures GuardedInv(Apply(s, step))
  {
    OthersKeepConnection(s, step);
    var t := Apply(s, step);
    forall g | Has(t, g, Matched) ensures g == t.generation { ForwarderMatches(s, step, g); }
  }

  lemma ForwarderMatches(s: State, step: Step, g: nat)
    requires Enabled(s, step) && !ByReconnect(step) && Has(Apply(s, step), g, Matched)
    ensures Has(s, g, Matched) || g == s.generation
  {
    assert Has(s, g, Matched) || step == Compare(g);
  }

  lemma ReconnectKeepsGuarded(s: State, step: Step)
    requires Inv(s) && GuardedInv(s) && Enabled(s, step) && ByReconnect(step)
    requires step.PublishGeneration? ==> !ClearPending(s)
    ensures GuardedInv(Apply(s, step))
  {
    var t := Apply(s, step);
    forall g | Has(t, g, Matched) ensures g == t.generation { assert Has(s, g, Matched); }
  }

  lemma {:induction false} GuardedRunKeepsInv(s: State, steps: seq<Step>)
    requires Inv(s) && GuardedInv(s) && ValidRun(s, steps) && GuardedRun(s, steps)
    ensures Inv(Run(s, steps)) && GuardedInv(Run(s, steps))
  {
    RunKeepsInv(s, steps);
    if steps == [] {
    } else {
      var m, step := Run(s, steps[..|steps| - 1]), steps[|steps| - 1];
      GuardedRunKeepsInv(s, steps[..|steps| - 1]);
      if ByReconnect(step) { ReconnectKeepsGuarded(m, step); } else { ForwarderKeepsGuarded(m, step); }
    }
  }

  /** As long as no generation is published while a clear is pending, the flag is down exactly when the
      current generation's forwarder has cleared it, outside the moment between the two stores. */
  lemma {:induction false} AliveExactly(target: string, steps: seq<Step>)
    requires ValidRun(Init(target), steps) && GuardedRun(Init(target), steps)
    ensures var s := Run(Init(target), steps); !At(s, Published) ==> (!s.alive <==> Has(s, s.generation, Cleared))
  {
    GuardedRunKeepsInv(Init(target), steps);
  }

  /** Runs in which comparing and clearing are one action. */
  ghost predicate Atomic(steps: seq<Step>) { forall i | 0 <= i < |steps| :: !steps[i].Compare? && !steps[i].Clear? }

  ghost predicate Finished(s: State, g: nat) { Has(s, g, Cleared) || Has(s, g, Outdated) }

  ghost predicate NothingPending(s: State) { forall g :: !Has(s, g, Matched) }

  lemma AtomicStep(s: State, step: Step)
    requires NothingPending(s) && Enabled(s, step) && !step.Compare? && !step.Clear?
    ensures NothingPending(Apply(s, step))
  {
    var t := Apply(s, step);
    forall g ensures !Has(t, g, Matched) { assert !Has(s, g, Matched); }
  }

  lemma {:induction false} AtomicRunsAreGuarded(s: State, steps: seq<Step>)
    requires NothingPending(s) && ValidRun(s, steps) && Atomic(steps)
    ensures NothingPending(Run(s, steps)) && GuardedRun(s, steps)
  {
    if steps == [] {
    } else {
      AtomicRunsAreGuarded(s, steps[..|steps| - 1]);
      AtomicStep(Run(s, steps[..|steps| - 1]), steps[|steps| - 1]);
    }
  }

  /** With comparing and clearing as one action, the flag is down exactly when the current generation's
      forwarder has finished, again outside the moment between the two stores. */
  lemma {:induction false} AliveIffForwarderRuns(target: string, steps: seq<Step>)
    requires ValidRun(Init(target), steps) && Atomic(steps)
    ensures var s := Run(Init(target), steps); !At(s, Published) ==> (!s.alive <==> Finished(s, s.generation))
  {
    AtomicRunsAreGuarded(Init(target), steps);
    GuardedRunKeepsInv(Init(target), steps);
  }

  lemma {:induction false} RunSnoc(s: State, steps: seq<Step>, step: Step)
    requires ValidRun(s, steps) && Enabled(Run(s, steps), step)
    ensures ValidRun(s, steps + [step]) && Run(s, steps + [step]) == Apply(Run(s, steps), step)
  {
    assert (steps + [step])[..|steps|] == steps;
  }

  ghost predicate Reaches(s: State, t: State) { exists steps :: ValidRun(s, steps) && Run(s, steps) == t }

  lemma ReachesOn(s: State, t: State, step: Step)
    requires Reaches(s, t) && Enabled(t, step)
    ensures Reaches(s, Apply(t, step))
  {
    var steps :| ValidRun(s, steps) && Run(s, steps) == t;
    RunSnoc(s, steps, step);
  }

  /** A reconnect publishes and raises the flag. */
  lemma Publishing(s: State) returns (t: State)
    requires Inv(s) && At(s, Replayed)
    ensures Reaches(s, t) && At(t, Marked) && t.alive && t.generation == s.generation + 1 && t.forwarders == s.forwarders
    ensures t.attempt.value.generation == t.generation
  {
    assert ValidRun(s, []) && Run(s, []) == s;
    ReachesOn(s, s, PublishGeneration);
    t := Apply(s, PublishGeneration);
    ReachesOn(s, t, MarkAlive);
    t := Apply(t, MarkAlive);
  }

  /** Then it swaps the client and starts the forwarder. */
  lemma Launched(s: State, m: State) returns (t: State)
    requires Reaches(s, m) && At(m, Marked) && m.attempt.value.generation == m.generation
    ensures Reaches(s, t) && t.attempt.None? && t.generation == m.generation && Has(t, t.generation, Running)
    ensures forall g | g != t.generation && g in m.forwarders :: g in t.forwarders && t.forwarders[g] == m.forwarders[g]
  {
    ReachesOn(s, m, SwapClient);
    t := Apply(m, SwapClient);
    ReachesOn(s, t, SpawnForwarder);
    t := Apply(t, SpawnForwarder);
    ReachesOn(s, t, Finish);
    t := Apply(t, Finish);
  }

  /** The condition is exact: whenever a generation is published while a clear is pending, the run can go on
      so that the flag is down although the new connection's forwarder is running. */
  lemma SplitClearRaces(s: State)
    requires Inv(s) && Enabled(s, PublishGeneration) && ClearPending(s)
    ensures exists t :: Reaches(s, t) && t.attempt.None? && t.generation == s.generation + 1
                        && Has(t, t.generation, Running) && !t.alive
  {
    var m := Publishing(s);
    var t := Launched(s, m);
    ReachesOn(s, t, Clear(s.generation));
    var cleared := Apply(t, Clear(s.generation));
    assert Has(cleared, cleared.generation, Running);
  }

  /** Such a state is reached: the first daemon goes away while a reconnect is about to publish. */
  lemma RaceIsReachable(target: string, to: string)
    ensures exists s :: Reaches(Init(target), s) && Inv(s) && Enabled(s, PublishGeneration) && ClearPending(s)
  {
    var before := AboutToPublish(target, to);
    var s := Matching(target, before);
    ReachableKeepsInv(target, s);
  }

  lemma ReachableKeepsInv(target: string, s: State)
    requires Reaches(Init(target), s)
    ensures Inv(s)
  {
    var steps :| ValidRun(Init(target), steps) && Run(Init(target), steps) == s;
    RunKeepsInv(Init(target), steps);
  }

  lemma Matching(target: string, before: State) returns (s: State)
    requires Reaches(Init(target), before) && At(before, Replayed) && before.generation == 1 && Enabled(before, Stop(1))
    ensures Reaches(Init(target), s) && Enabled(s, PublishGeneration) && ClearPending(s)
  {
    ReachesOn(Init(target), before, Stop(1));
    s := Apply(before, Stop(1));
    ReachesOn(Init(target), s, Compare(1));
    s := Apply(s, Compare(1));
  }

  lemma AboutToPublish(target: string, to: string) returns (s: State)
    ensures Reaches(Init(target), s) && At(s, Replayed) && s.generation == 1 && Enabled(s, Stop(1))
  {
    s := Init(target);
    assert ValidRun(s, []) && Run(s, []) == s;
    ReachesOn(Init(target), s, End(0));
    s := Apply(s, End(0));
    ReachesOn(Init(target), s, Begin(1, to));
    s := Apply(s, Begin(1, to));
    ReachesOn(Init(target), s, LoadGeneration);
    s := Apply(s, LoadGeneration);
    ReachesOn(Init(target), s, Replay);
    s := Apply(s, Replay);
  }

  // ---- reconnects that fail ---------------------------------------------------------------------

  ghost predicate NewlyCleared(s: State, t: State, g: nat)
  {
    g in s.forwarders && g in t.forwarders && s.forwarders[g].phase != Cleared && t.forwarders[g].phase == Cleared
  }

  /** From `s` to `t` the connection stayed what it was; if the flag went down, a forwarder of before did it. */
  ghost predicate Undisturbed(s: State, t: State)
  {
    && t.client == s.client && t.generation == s.generation && t.target == s.target
    && t.forwarders.Keys == s.forwarders.Keys
    && (forall g | g in s.forwarders && s.forwarders[g].phase == Cleared :: t.forwarders[g].phase == Cleared)
    && (t.alive ==> s.alive)
    && (s.alive && !t.alive ==> exists g :: NewlyCleared(s, t, g))
  }

  lemma StepUndisturbing(s: State, step: Step)
    requires Enabled(s, step) && !Commits(step)
    ensures Undisturbed(s, Apply(s, step))
  {
    var t := Apply(s, step);
    if s.alive && !t.alive { assert NewlyCleared(s, t, step.g); }
  }

  lemma UndisturbedTransitive(s: State, m: State, t: State)
    requires Undisturbed(s, m) && Undisturbed(m, t)
    ensures Undisturbed(s, t)
  {
    if s.alive && !t.alive {
      if m.alive {
        var g :| NewlyCleared(m, t, g);
        assert NewlyCleared(s, t, g);
      } else {
        var g :| NewlyCleared(s, m, g);
        assert NewlyCleared(s, t, g);
      }
    }
  }

  /** While no reconnect gets past its replay, client, generation and target stay as they were, no forwarder
      is started, and only forwarders of before can lower the flag: a failed replay changes nothing. */
  lemma {:induction false} FailedReplayChangesNothing(s: State, steps: seq<Step>)
    requires ValidRun(s, steps) && forall i | 0 <= i < |steps| :: !Commits(steps[i])
    ensures Undisturbed(s, Run(s, steps))
  {
    if steps == [] {
    } else {
      var m := Run(s, steps[..|steps| - 1]);
      FailedReplayChangesNothing(s, steps[..|steps| - 1]);
      StepUndisturbing(m, steps[|steps| - 1]);
      UndisturbedTransitive(s, m, Run(s, steps));
    }
  }

  // ---- the supervisor's pace --------------------------------------------------------------------

  const BACKOFF_MAX: nat := 15

  /** Seconds slept after the k-th failed reconnect in a row, k counted from 0. */
  function Backoff(k: nat): nat
  {
    if k == 0 then 1 else if 2 * Backoff(k - 1) < BACKOFF_MAX then 2 * Backoff(k - 1) else BACKOFF_MAX
  }

  lemma {:induction false} BackoffIsCappedDoubling(k: nat)
    ensures Backoff(k) == if Pow2(k) < 15 then Pow2(k) else 15
  {
    if k == 0 {
    } else {
      BackoffIsCappedDoubling(k - 1);
    }
  }
}
