/** The tunnel's copy loop (`copy_bidirectional_idle`, apps/linsight-tunnel/src/main.rs). Which read
    completes next when both sides are still being read, with what, and how much of a chunk the other side
    takes before its write fails or times out, is given by a script. */
module Tunnel {
  import opened Prelude

  const BUFFER: nat := 16 * 1024

  datatype Side = A | B

  /** How a polled read completed. */
  datatype Poll =
    | Data(chunk: seq<Byte>, room: nat)   // bytes read, and how many of them the other side takes
    | Eof
    | ReadError
    | IdleTimeout

  datatype Event = Event(side: Side, poll: Poll)

  /** A read that yields data yields between 1 byte and a bufferful. */
  ghost predicate Plausible(script: seq<Event>)
  {
    forall i | 0 <= i < |script| && script[i].poll.Data? :: 0 < |script[i].poll.chunk| <= BUFFER
  }

  /** Everything read from one side during a run. */
  ghost function ReadFrom(trace: seq<Event>, side: Side): seq<Byte>
  {
    if trace == [] then []
    else
      var last := trace[|trace| - 1];
      ReadFrom(trace[..|trace| - 1], side) + if last.side == side && last.poll.Data? then last.poll.chunk else []
  }

  ghost predicate Ended(trace: seq<Event>, side: Side)
  {
    exists i :: 0 <= i < |trace| && trace[i] == Event(side, Eof)
  }

  /** No side is read again after its end of file. */
  ghost predicate NoReadPastEnd(trace: seq<Event>)
  {
    forall i, j | 0 <= i < j < |trace| && trace[i].poll.Eof? :: trace[j].side != trace[i].side
  }

  class Endpoint {
    var received: seq<Byte>   // what was written to this side
    var shut: bool

    constructor ()
      ensures received == [] && !shut
    {
      received, shut := [], false;
    }

    /** `write_all_timeout`: all of the chunk, or the part that got through. Never called after shutdown. */
    method WriteAll(chunk: seq<Byte>, room: nat) returns (ok: bool)
      requires !shut
      modifies this
      ensures !shut
      ensures ok <==> |chunk| <= room
      ensures received == old(received) + if ok then chunk else chunk[..room]
    {
      ok := |chunk| <= room;
      received := received + if ok then chunk else chunk[..room];
    }

    method Shutdown()
      modifies this
      ensures shut && received == old(received)
    {
      shut := true;
    }
  }

  datatype Outcome =
    | Clean(aToB: nat, bToA: nat)
    | Failed
    | TimedOut
    | StillRunning(aToB: nat, bToA: nat)

  lemma {:induction false} TraceGrows(trace: seq<Event>, e: Event, side: Side)
    ensures ReadFrom(trace + [e], side) ==
            ReadFrom(trace, side) + if e.side == side && e.poll.Data? then e.poll.chunk else []
    ensures Ended(trace + [e], side) <==> Ended(trace, side) || e == Event(side, Eof)
    ensures NoReadPastEnd(trace) && !Ended(trace, e.side) ==> NoReadPastEnd(trace + [e])
  {
    var after := trace + [e];
    assert after[..|trace|] == trace && after[|trace|] == e;
    if i :| 0 <= i < |trace| && trace[i] == Event(side, Eof) { assert after[i] == Event(side, Eof); }
    if i :| 0 <= i < |after| && after[i] == Event(side, Eof) { assert i < |trace| ==> trace[i] == Event(side, Eof); }
    if NoReadPastEnd(trace) && !Ended(trace, e.side) {
      forall i, j | 0 <= i < j < |after| && after[i].poll.Eof? ensures after[j].side != after[i].side {
        assert after[i] == trace[i] && trace[i] == Event(trace[i].side, Eof);
        assert Ended(trace, trace[i].side);
      }
    }
  }

  /** `trace` is what a run over the script has polled so far. */
  ghost predicate Polled(trace: seq<Event>, script: seq<Event>)
  {
    && |trace| <= |script| && NoReadPastEnd(trace)
    && forall i | 0 <= i < |trace| :: trace[i].poll == script[i].poll
  }

  lemma PolledOne(trace: seq<Event>, script: seq<Event>, side: Side)
    requires Polled(trace, script) && |trace| < |script| && !Ended(trace, side)
    ensures Polled(trace + [Event(side, script[|trace|].poll)], script)
  {
    TraceGrows(trace, Event(side, script[|trace|].poll), side);
  }

  /** One direction is up to date: all that was read from `side` was delivered and counted, and its end of
      file was passed on. */
  ghost predicate Current(trace: seq<Event>, side: Side, received: seq<Byte>, count: nat, shut: bool)
  {
    received == ReadFrom(trace, side) && count == |received| && shut == Ended(trace, side)
  }

  /** In one direction only what was read was delivered, in order, and nothing came after the end of file. */
  ghost predicate Faithful(trace: seq<Event>, side: Side, received: seq<Byte>, shut: bool)
  {
    received <= ReadFrom(trace, side) && shut == Ended(trace, side)
  }

  /** The read behind a poll: the bytes land at the front of the buffer, the rest keeps what it held. */
  method ReadInto(buf: array<Byte>, chunk: seq<Byte>)
    requires |chunk| <= buf.Length
    modifies buf
    ensures buf[..|chunk|] == chunk && buf[|chunk|..] == old(buf[|chunk|..])
  {
    for i := 0 to |chunk|
      invariant buf[..i] == chunk[..i]
      invariant forall k | i <= k < buf.Length :: buf[k] == old(buf[k])
    {
      buf[i] := chunk[i];
    }
  }

  /** Reading from one side changes nothing about the other direction, and a read without result nothing. */
  lemma OtherDirection(trace: seq<Event>, e: Event, side: Side, received: seq<Byte>, count: nat, shut: bool)
    requires Current(trace, side, received, count, shut)
    requires e.side != side || e.poll.IdleTimeout? || e.poll.ReadError?
    ensures Current(trace + [e], side, received, count, shut) && Faithful(trace + [e], side, received, shut)
  {
    TraceGrows(trace, e, side);
  }

  /** Forwards one completed read from `side` to the other side; `done` reports the end of file. */
  method Forward(poll: Poll, buf: array<Byte>, to: Endpoint, count: nat, ghost trace: seq<Event>, ghost side: Side)
    returns (ok: bool, done: bool, n: nat)
    requires !to.shut && Current(trace, side, to.received, count, false) && buf.Length == BUFFER
    requires poll.Eof? || (poll.Data? && 0 < |poll.chunk| <= BUFFER)
    modifies to, buf
    ensures ok <==> poll.Eof? || |poll.chunk| <= poll.room
    ensures done == to.shut == poll.Eof?
    ensures ok ==> Current(trace + [Event(side, poll)], side, to.received, count + n, done)
    ensures Faithful(trace + [Event(side, poll)], side, to.received, done)
  {
    TraceGrows(trace, Event(side, poll), side);
    match poll {
      case Eof =>
        to.Shutdown();
        ok, done, n := true, true, 0;
      case Data(chunk, room) =>
        ReadInto(buf, chunk);
        n := |chunk|;
        ok := to.WriteAll(buf[..n], room);
        done := false;
    }
  }

  /** The run consumes the first |trace| polls of the script, from the sides `trace` names: a side is polled
      only until its end of file. At every moment each side has received a prefix of what was read from the
      other; on a clean return both directions are complete, the counters are their lengths, and both sides
      are shut down. A side is shut down exactly when the other has ended, and never written to after. */
  method CopyBidirectionalIdle(a: Endpoint, b: Endpoint, script: seq<Event>) returns (r: Outcome, ghost trace: seq<Event>)
    requires a != b && !a.shut && !b.shut && a.received == [] && b.received == []
    requires Plausible(script)
    modifies a, b
    ensures Polled(trace, script)
    ensures Faithful(trace, A, b.received, b.shut) && Faithful(trace, B, a.received, a.shut)
    ensures r.Clean? || r.StillRunning? ==>
              Current(trace, A, b.received, r.aToB, b.shut) && Current(trace, B, a.received, r.bToA, a.shut)
    ensures r.Clean? ==> Ended(trace, A) && Ended(trace, B) && a.shut && b.shut
    ensures r.StillRunning? ==> |trace| == |script| && !(Ended(trace, A) && Ended(trace, B))
  {
    var aToB, bToA, aDone, bDone, i := 0, 0, false, false, 0;
    var bufA, bufB := new Byte[BUFFER](_ => 0), new Byte[BUFFER](_ => 0);
    trace := [];
    while !(aDone && bDone)
      invariant i == |trace| && Polled(trace, script)
      invariant aDone == b.shut && Current(trace, A, b.received, aToB, aDone)
      invariant bDone == a.shut && Current(trace, B, a.received, bToA, bDone)
      decreases |script| - i
    {
      if i == |script| { return StillRunning(aToB, bToA), trace; }
      var poll := script[i].poll;
      var side := if aDone then B else if bDone then A else script[i].side;
      ghost var before := trace;
      PolledOne(before, script, side);
      i, trace := i + 1, trace + [Event(side, poll)];
      if poll.IdleTimeout? || poll.ReadError? {
        OtherDirection(before, Event(side, poll), A, b.received, aToB, aDone);
        OtherDirection(before, Event(side, poll), B, a.received, bToA, bDone);
        return if poll.IdleTimeout? then TimedOut else Failed, trace;
      }
      var ok, n;
      if side == A {
        OtherDirection(before, Event(side, poll), B, a.received, bToA, bDone);
        ok, aDone, n := Forward(poll, bufA, b, aToB, before, A);
        if !ok { return Failed, trace; }
        aToB := aToB + n;
      } else {
        OtherDirection(before, Event(side, poll), A, b.received, aToB, aDone);
        ok, bDone, n := Forward(poll, bufB, a, bToA, before, B);
        if !ok { return Failed, trace; }
        bToA := bToA + n;
      }
    }
    r := Clean(aToB, bToA);
  }
}
