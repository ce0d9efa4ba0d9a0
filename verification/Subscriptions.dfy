/** The subscriptions a workspace remembers and replays on a new connection (`subscribe`, `unsubscribe`,
    `replace_subscriptions` and the replay of `reconnect_with_client`,
    apps/linsight-gui/src/workspace.rs). */
module Subscriptions {
  import opened Prelude

  type SensorId = string

  datatype Message = Want(sensors: seq<SensorId>) | Unwant(sensors: seq<SensorId>)

  /** How writing a message went; after a failure the daemon may have got it all the same. */
  datatype Write = Works | FailsLate | FailsEarly

  function Elements(s: seq<SensorId>): set<SensorId> { set x | x in s }

  /** What a connection has asked its daemon for, by the messages it received. */
  ghost function Asked(sent: seq<Message>): set<SensorId>
  {
    if sent == [] then {}
    else
      var before := Asked(sent[..|sent| - 1]);
      match sent[|sent| - 1]
      case Want(sensors) => before + Elements(sensors)
      case Unwant(sensors) => before - Elements(sensors)
  }

  function Remembered(subs: seq<SensorId>, sensors: seq<SensorId>): seq<SensorId>
  {
    if sensors == [] then subs
    else
      var before := Remembered(subs, sensors[..|sensors| - 1]);
      if sensors[|sensors| - 1] in before then before else before + [sensors[|sensors| - 1]]
  }

  function Retained(subs: seq<SensorId>, sensors: seq<SensorId>): seq<SensorId>
  {
    if subs == [] then []
    else
      var before := Retained(subs[..|subs| - 1], sensors);
      if subs[|subs| - 1] in sensors then before else before + [subs[|subs| - 1]]
  }

  function Sent(log: seq<Message>, m: Message, write: Write): seq<Message>
  {
    if write.FailsEarly? then log else log + [m]
  }

  lemma ElementsAppend(s: seq<SensorId>, x: SensorId)
    ensures Elements(s + [x]) == Elements(s) + {x}
  {
  }

  /** Remembering adds what is new behind what was there and never doubles an id. */
  lemma {:induction false} RememberedMeaning(subs: seq<SensorId>, sensors: seq<SensorId>)
    ensures var r := Remembered(subs, sensors);
            && subs <= r && Elements(r) == Elements(subs) + Elements(sensors)
            && (Distinct(subs) ==> Distinct(r))
  {
    if sensors == [] {
    } else {
      var front, x := sensors[..|sensors| - 1], sensors[|sensors| - 1];
      RememberedMeaning(subs, front);
      assert sensors == front + [x];
      ElementsAppend(front, x);
      ElementsAppend(Remembered(subs, front), x);
    }
  }

  lemma {:induction false} RetainedMeaning(subs: seq<SensorId>, sensors: seq<SensorId>)
    ensures var r := Retained(subs, sensors);
            && Elements(r) == Elements(subs) - Elements(sensors)
            && (Distinct(subs) ==> Distinct(r))
  {
    if subs == [] {
    } else {
      var front, x := subs[..|subs| - 1], subs[|subs| - 1];
      RetainedMeaning(front, sensors);
      assert subs == front + [x];
      ElementsAppend(front, x);
      ElementsAppend(Retained(front, sensors), x);
      forall y | y in Retained(front, sensors) ensures y in front { assert y in Elements(Retained(front, sensors)); }
    }
  }

  lemma {:induction false} AskedAppend(log: seq<Message>, m: Message)
    ensures Asked(log + [m]) ==
            match m
            case Want(sensors) => Asked(log) + Elements(sensors)
            case Unwant(sensors) => Asked(log) - Elements(sensors)
  {
    assert (log + [m])[..|log|] == log;
  }

  // ---- the workspace object -----------------------------------------------------------------------

  class Client {
    var sent: seq<Message>   // what its daemon has received

    constructor ()
      ensures sent == []
    {
      sent := [];
    }

    method Send(m: Message, write: Write) returns (ok: bool)
      modifies this
      ensures ok == write.Works? && sent == Sent(old(sent), m, write)
    {
      if !write.FailsEarly? { sent := sent + [m]; }
      ok := write.Works?;
    }
  }

  class Workspace {
    var subscriptions: seq<SensorId>
    var client: Client

    constructor (client: Client)
      ensures subscriptions == [] && this.client == client
    {
      subscriptions, this.client := [], client;
    }

    method Subscribe(sensors: seq<SensorId>, write: Write) returns (ok: bool)
      modifies this`subscriptions, client
      ensures subscriptions == Remembered(old(subscriptions), sensors)
      ensures client.sent == if sensors == [] then old(client.sent) else Sent(old(client.sent), Want(sensors), write)
      ensures ok <==> sensors == [] || write.Works?
    {
      if sensors == [] { return true; }
      for i := 0 to |sensors|
        invariant subscriptions == Remembered(old(subscriptions), sensors[..i])
        invariant unchanged(client)
      {
        assert sensors[..i + 1][..i] == sensors[..i];
        if sensors[i] !in subscriptions { subscriptions := subscriptions + [sensors[i]]; }
      }
      assert sensors[..|sensors|] == sensors;
      ok := client.Send(Want(sensors), write);
    }

    method Unsubscribe(sensors: seq<SensorId>, write: Write) returns (ok: bool)
      modifies this`subscriptions, client
      ensures subscriptions == if sensors == [] then old(subscriptions) else Retained(old(subscriptions), sensors)
      ensures client.sent == if sensors == [] then old(client.sent) else Sent(old(client.sent), Unwant(sensors), write)
      ensures ok <==> sensors == [] || write.Works?
    {
      if sensors == [] { return true; }
      var kept := [];
      for i := 0 to |subscriptions|
        invariant kept == Retained(subscriptions[..i], sensors)
      {
        assert subscriptions[..i + 1][..i] == subscriptions[..i];
        if subscriptions[i] !in sensors { kept := kept + [subscriptions[i]]; }
      }
      assert subscriptions[..|subscriptions|] == subscriptions;
      subscriptions := kept;
      ok := client.Send(Unwant(sensors), write);
    }

    /** Whether dropping the old ids worked is ignored. */
    method ReplaceSubscriptions(sensors: seq<SensorId>, drop: Write, write: Write) returns (ok: bool)
      modifies this`subscriptions, client
      ensures subscriptions == sensors
      ensures client.sent == Replaced(old(subscriptions), old(client.sent), sensors, drop, write)
      ensures ok <==> sensors == [] || write.Works?
    {
      var was := subscriptions;
      subscriptions := [];
      if was != [] { var _ := client.Send(Unwant(was), drop); }
      if sensors == [] { return true; }
      subscriptions := sensors;
      ok := client.Send(Want(sensors), write);
    }

    /** The part of a reconnect that concerns subscriptions: replay on the new client, and only then swap. */
    method ReconnectWithClient(newer: Client, write: Write) returns (ok: bool)
      requires newer != client && newer.sent == []
      modifies this`client, newer
      ensures ok <==> subscriptions == [] || write.Works?
      ensures client == if ok then newer else old(client)
      ensures ok ==> newer.sent == Replay(subscriptions)
    {
      if subscriptions != [] {
        ok := newer.Send(Want(subscriptions), write);
        if !ok { return; }
      }
      client, ok := newer, true;
    }
  }

  function Replaced(subs: seq<SensorId>, log: seq<Message>, sensors: seq<SensorId>, drop: Write, write: Write): seq<Message>
  {
    var dropped := if subs == [] then log else Sent(log, Unwant(subs), drop);
    if sensors == [] then dropped else Sent(dropped, Want(sensors), write)
  }

  function Replay(subs: seq<SensorId>): seq<Message> { if subs == [] then [] else [Want(subs)] }

  // ---- runs of calls ------------------------------------------------------------------------------

  datatype Op =
    | Subscribe(sensors: seq<SensorId>, write: Write)
    | Unsubscribe(sensors: seq<SensorId>, write: Write)
    | Replace(sensors: seq<SensorId>, drop: Write, write: Write)
    | Reconnect(write: Write)

  /** What is remembered, what the current connection has sent, and whether every write on it worked. */
  datatype State = State(subs: seq<SensorId>, sent: seq<Message>, clean: bool)

  ghost function Init(): State { State([], [], true) }

  ghost function Apply(s: State, op: Op): State
  {
    match op
    case Subscribe(sensors, write) =>
      if sensors == [] then s
      else State(Remembered(s.subs, sensors), Sent(s.sent, Want(sensors), write), s.clean && write.Works?)
    case Unsubscribe(sensors, write) =>
      if sensors == [] then s
      else State(Retained(s.subs, sensors), Sent(s.sent, Unwant(sensors), write), s.clean && write.Works?)
    case Replace(sensors, drop, write) =>
      State(sensors, Replaced(s.subs, s.sent, sensors, drop, write),
            s.clean && (s.subs == [] || drop.Works?) && (sensors == [] || write.Works?))
    case Reconnect(write) =>
      if s.subs == [] || write.Works? then State(s.subs, Replay(s.subs), true) else s
  }

  ghost function Run(s: State, ops: seq<Op>): State
  {
    if ops == [] then s else Apply(Run(s, ops[..|ops| - 1]), ops[|ops| - 1])
  }

  /** What some calls make of a set of wanted ids. */
  ghost function Net(wanted: set<SensorId>, calls: seq<Op>): set<SensorId>
  {
    if calls == [] then wanted
    else
      var before := Net(wanted, calls[..|calls| - 1]);
      match calls[|calls| - 1]
      case Subscribe(sensors, _) => before + Elements(sensors)
      case Unsubscribe(sensors, _) => before - Elements(sensors)
      case Replace(sensors, _, _) => Elements(sensors)
      case Reconnect(_) => before
  }

  /** What the callers want in the end, by the calls alone: connections and failures do not matter. */
  ghost function Wanted(ops: seq<Op>): set<SensorId> { Net({}, ops) }

  ghost predicate Synced(s: State) { Asked(s.sent) == Elements(s.subs) }

  lemma ReplayAsks(subs: seq<SensorId>)
    ensures Asked(Replay(subs)) == Elements(subs)
  {
    if subs != [] { assert [Want(subs)][..0] == []; }
  }

  lemma StepKeepsSynced(s: State, op: Op)
    requires s.clean ==> Synced(s)
    ensures Apply(s, op).clean ==> Synced(Apply(s, op))
  {
    match op {
      case Subscribe(sensors, _) =>
        RememberedMeaning(s.subs, sensors);
        AskedAppend(s.sent, Want(sensors));
      case Unsubscribe(sensors, _) =>
        RetainedMeaning(s.subs, sensors);
        AskedAppend(s.sent, Unwant(sensors));
      case Replace(sensors, drop, _) =>
        var dropped := if s.subs == [] then s.sent else Sent(s.sent, Unwant(s.subs), drop);
        AskedAppend(s.sent, Unwant(s.subs));
        AskedAppend(dropped, Want(sensors));
      case Reconnect(_) => ReplayAsks(s.subs);
    }
  }

  /** In every run of calls the workspace remembers exactly what the callers want, and while no write on the
      current connection has failed, its daemon has been asked for exactly that. A reconnect that succeeds
      starts over clean, so it repairs whatever earlier failures left behind. */
  lemma {:induction false} DaemonHasWhatIsWanted(ops: seq<Op>)
    ensures var s := Run(Init(), ops);
            && Elements(s.subs) == Wanted(ops)
            && (s.clean ==> Asked(s.sent) == Wanted(ops))
            && (forall write: Write | s.subs == [] || write.Works? :: Asked(Apply(s, Reconnect(write)).sent) == Wanted(ops))
  {
    if ops == [] {
    } else {
      var front, op := ops[..|ops| - 1], ops[|ops| - 1];
      var m := Run(Init(), front);
      DaemonHasWhatIsWanted(front);
      StepKeepsSynced(m, op);
      match op {
        case Subscribe(sensors, _) => RememberedMeaning(m.subs, sensors);
        case Unsubscribe(sensors, _) => RetainedMeaning(m.subs, sensors);
        case _ =>
      }
    }
    ReplayAsks(Run(Init(), ops).subs);
  }

  // ---- calls that overlap a reconnect -------------------------------------------------------------

  /** A reconnect whose replay was taken from `s`, whose swap comes after the calls `between`, which all
      went to the old connection. */
  ghost function Overlapped(s: State, between: seq<Op>): State
  {
    State(Run(s, between).subs, Replay(s.subs), true)
  }

  lemma {:induction false} NetIsRemembered(s: State, calls: seq<Op>)
    ensures Elements(Run(s, calls).subs) == Net(Elements(s.subs), calls)
  {
    if calls == [] {
    } else {
      var front, op := calls[..|calls| - 1], calls[|calls| - 1];
      var m := Run(s, front);
      NetIsRemembered(s, front);
      match op {
        case Subscribe(sensors, _) => RememberedMeaning(m.subs, sensors);
        case Unsubscribe(sensors, _) => RetainedMeaning(m.subs, sensors);
        case _ =>
      }
    }
  }

  /** Calls that fall between the replay and the swap are remembered but not asked for on the new
      connection: it has what was wanted at the replay, so it is in step exactly when those calls, by
      their arguments alone, cancel out. */
  lemma {:induction false} OverlappingCallsAreLost(s: State, between: seq<Op>)
    ensures var t, wanted := Overlapped(s, between), Elements(s.subs);
            && Asked(t.sent) == wanted && Elements(t.subs) == Net(wanted, between)
            && (Synced(t) <==> Net(wanted, between) == wanted)
  {
    ReplayAsks(s.subs);
    NetIsRemembered(s, between);
  }

  /** A single overlapping call is harmless exactly when it asks for nothing new or gives up nothing
      wanted; a subscription to a new sensor at that moment gets no samples. */
  lemma OverlappingCallHarmlessExactly(s: State, op: Op)
    requires !op.Reconnect?
    ensures Synced(Overlapped(s, [op])) <==>
            match op
            case Subscribe(sensors, _) => forall x | x in sensors :: x in s.subs
            case Unsubscribe(sensors, _) => forall x | x in sensors :: x !in s.subs
            case Replace(sensors, _, _) => forall x :: x in sensors <==> x in s.subs
  {
    var wanted := Elements(s.subs);
    OverlappingCallsAreLost(s, [op]);
    assert [op][..0] == [] && Net(wanted, []) == wanted;
    var net := Net(wanted, [op]);
    if net == wanted {
      forall x ensures x in net <==> x in s.subs { assert x in wanted <==> x in s.subs; }
    } else {
      assert exists x :: (x in net) != (x in wanted);
    }
  }
}
