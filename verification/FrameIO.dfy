/** The frame reader and writer objects (crates/linsight-protocol/src/frame.rs): a reader that advances
    through a byte stream, and a writer that reuses its buffers from message to message. */
module FrameIO {
  import opened Prelude
  import opened Wire

  const DISCARD: nat := 1024

  class FrameReader {
    const stream: Bytes
    const env: Env
    var pos: nat

    ghost predicate Valid()
      reads this
    {
      pos <= |stream|
    }

    /** What is still to be read. */
    ghost function Rest(): Bytes
      requires Valid()
      reads this
    {
      stream[pos..]
    }

    constructor (stream: Bytes, env: Env)
      ensures Valid() && Rest() == stream && this.stream == stream && this.env == env
    {
      this.stream, this.env, pos := stream, env, 0;
    }

    /** `read_exact`: `n` bytes, or an error, of the kind `env` says, with whatever was left consumed. */
    method ReadExact(n: nat) returns (ok: bool, bytes: Bytes)
      requires Valid()
      modifies this
      ensures Valid()
      ensures ok <==> n <= |old(Rest())|
      ensures ok ==> bytes == old(Rest())[..n] && pos == old(pos) + n && Rest() == old(Rest())[n..]
    {
      if pos + n <= |stream| {
        ok, bytes := true, stream[pos..pos + n];
        pos := pos + n;
      } else {
        ok, bytes := false, [];
        pos := |stream|;
      }
    }

    method ReadFrameHeader() returns (h: Header)
      requires Valid()
      modifies this
      ensures Valid()
      ensures h == ReadHeader(env, old(Rest()))
      ensures h.Header? ==> pos == old(pos) + 5 && Rest() == old(Rest())[5..]
    {
      var ok, lenBuf := ReadExact(4);
      if !ok { return NoHeader(RunOut(env)); }
      var len := FromLE32(lenBuf);
      if len > MAX_FRAME_BYTES { return NoHeader(Oversized(len)); }
      var first;
      ok, first := ReadExact(1);
      if !ok { return NoHeader(RunOut(env)); }
      h := Header(len, first[0]);
    }

    /** The rest of the body behind a header already read. */
    method ReadFrameBody(len: nat, first: Byte, ghost s: Bytes) returns (r: Read<Bytes>)
      requires Valid() && |s| >= 5 && Rest() == s[5..] && first == s[4]
      modifies this
      ensures Valid()
      ensures r == ReadBody(s, len)
      ensures r.Got? ==> pos == old(pos) + len - 1 && Rest() == s[r.used..]
    {
      if len == 0 { return Failed(EmptyFrame); }
      var body := [first];
      if len > 1 {
        var ok, tail := ReadExact(len - 1);
        if !ok { return Failed(Io); }
        body := body + tail;
      }
      assert body == s[4..4 + len];
      r := Got(body, 4 + len);
    }

    method ReadServer() returns (r: Read<ServerMsg>)
      requires Valid()
      modifies this
      ensures Valid()
      ensures r == Wire.ReadServer(env, old(Rest()))
      ensures r.Got? ==> pos == old(pos) + r.used
    {
      ghost var s := Rest();
      var h := ReadFrameHeader();
      match h {
        case NoHeader(e) => return Failed(e);
        case Header(len, first) =>
          var body := ReadFrameBody(len, first, s);
          if body.Failed? { return Failed(body.error); }
          match env.decode(body.value) {
            case None => r := Failed(Undecodable);
            case Some(m) => r := Got(m, body.used);
          }
      }
    }

    /** Discards `remaining` bytes through a fixed scratch buffer. */
    method SkipFrameBody(remaining: nat) returns (ok: bool)
      requires Valid()
      modifies this
      ensures Valid()
      ensures ok <==> remaining <= |old(Rest())|
      ensures ok ==> pos == old(pos) + remaining && Rest() == old(Rest())[remaining..]
    {
      var left := remaining;
      while left > 0
        invariant Valid() && 0 <= left <= remaining
        invariant pos == old(pos) + (remaining - left)
      {
        var n := if left < DISCARD then left else DISCARD;
        var discard;
        ok, discard := ReadExact(n);
        if !ok { return false; }
        left := left - n;
      }
      ok := true;
    }

    /** One frame of the response wait. */
    method AwaitOne(reqId: nat) returns (r: Round)
      requires Valid()
      modifies this
      ensures Valid()
      ensures r == AwaitRound(env, old(Rest()), reqId)
      ensures r.Passed? || r.Answered? ==> pos == old(pos) + r.used
    {
      ghost var s := Rest();
      var h := ReadFrameHeader();
      if h.NoHeader? { return Broken(h.error); }
      var len := h.len;
      if Inspected(h.first) {
        var body := ReadFrameBody(len, h.first, s);
        if body.Failed? { return Broken(body.error); }
        match env.decode(body.value) {
          case None => return Broken(Undecodable);
          case Some(m) =>
            match Taken(h.first, m, reqId) {
              case Some(a) => return Answered(a, body.used);
              case None => return Passed(body.used);
            }
        }
      } else {
        if len > 1 {
          var ok := SkipFrameBody(len - 1);
          if !ok { return Broken(Io); }
        }
        r := Passed(5 + if len > 1 then len - 1 else 0);
      }
    }

    /** Waits for the response to `reqId`, passing over pushed frames; reading stops right behind the answer. */
    method ReadServerResponse(reqId: nat) returns (r: Read<Answer>)
      requires Valid()
      modifies this
      ensures Valid()
      ensures r == AwaitSkipping(env, old(Rest()), reqId)
      ensures r.Got? ==> pos == old(pos) + r.used
      ensures forall ms, i: nat | DecodesAll(env, ms) && old(Rest()) == Stream(ms) && FirstToEnd(ms, reqId, i) ::
                r.Got? && EndedWith(ms, i, r.value, r.used)
    {
      ghost var awaited := AwaitSkipping(env, Rest(), reqId);
      forall ms, i: nat | DecodesAll(env, ms) && Rest() == Stream(ms) && FirstToEnd(ms, reqId, i)
        ensures awaited.Got? && EndedWith(ms, i, awaited.value, awaited.used)
      {
        AwaitEnds(env, ms, reqId, i);
      }
      var start := pos;
      while true
        invariant Valid() && pos >= start == old(pos)
        invariant AwaitSkipping(env, old(Rest()), reqId) == After(AwaitSkipping(env, Rest(), reqId), pos - start)
        decreases |stream| - pos
      {
        ghost var s, at := Rest(), pos;
        var round := AwaitOne(reqId);
        match round {
          case Broken(e) => return Failed(e);
          case Answered(a, used) => return Got(a, pos - start);
          case Passed(used) => assert Rest() == s[used..];
        }
      }
    }
  }

  class FrameWriter {
    var body: array<Byte>
    var frame: Bytes
    var out: Bytes          // everything the sink has taken

    constructor ()
      ensures fresh(body) && body.Length == 256 && out == []
    {
      body := new Byte[256](_ => 0);
      frame, out := [], [];
    }

    /** `postcard::to_slice`: the encoding at the front of the buffer, or a buffer that is too short. */
    method ToSlice(encoded: Bytes) returns (fits: bool)
      modifies body
      ensures fits <==> |encoded| <= body.Length
      ensures fits ==> body[..|encoded|] == encoded
    {
      var n := if |encoded| <= body.Length then |encoded| else body.Length;
      for i := 0 to n
        invariant body[..i] == encoded[..i]
      {
        body[i] := encoded[i];
      }
      fits := |encoded| <= body.Length;
    }

    /** Grows the buffer until the message fits; the length of the encoding is returned. `slack` is what the
        allocator adds on top of the capacity asked for. */
    method SerializeBody(encoded: Bytes, slack: nat) returns (len: nat)
      modifies this`body, body
      ensures body == old(body) || fresh(body)
      ensures len == |encoded| <= body.Length && body[..len] == encoded
    {
      while true
        invariant body == old(body) || fresh(body)
        decreases |encoded| - body.Length
      {
        var cap := body.Length;
        var fits := ToSlice(encoded);
        if fits { return |encoded|; }
        var additional := if cap < 256 then 256 else cap;
        body := new Byte[cap + additional + slack](_ => 0);
      }
    }

    /** `write_all` into a sink that takes `room` bytes before failing. */
    method WriteAll(bytes: Bytes, room: nat) returns (ok: bool)
      modifies this`out
      ensures ok <==> |bytes| <= room
      ensures out == old(out) + if ok then bytes else bytes[..room]
    {
      ok := |bytes| <= room;
      out := out + if ok then bytes else bytes[..room];
    }

    /** Puts length prefix and body side by side, over whatever the buffers held before. */
    method BuildFrame(m: ServerMsg, slack: nat) returns (len: nat)
      modifies this`body, this`frame, body
      ensures body == old(body) || fresh(body)
      ensures len == |Encode(m)|
      ensures Fits(m) ==> frame == Frame(m)
    {
      var encoded := Encode(m);
      len := SerializeBody(encoded, slack);
      if len <= MAX_FRAME_BYTES {
        frame := [];
        frame := frame + LE32(len);
        frame := frame + body[..len];
        assert frame == LE32(len) + encoded;
      }
    }

    /** Writes one frame. Nothing of an oversized message is written, and otherwise exactly its frame, or
        the part of it the sink took. */
    method WriteFrame(m: ServerMsg, slack: nat, room: nat) returns (error: Option<FrameError>)
      modifies this, body
      ensures body == old(body) || fresh(body)
      ensures !Fits(m) ==> error == Some(Oversized(|Encode(m)|)) && out == old(out)
      ensures Fits(m) ==>
                && error == (if |Frame(m)| <= room then None else Some(Io))
                && out == old(out) + if |Frame(m)| <= room then Frame(m) else Frame(m)[..room]
      ensures forall ms | Writable(ms) && old(out) == Stream(ms) && Fits(m) ::
                && Writable(ms + [m]) && out <= Stream(ms + [m])
                && (error.None? ==> out == Stream(ms + [m]))
    {
      var len := BuildFrame(m, slack);
      if len > MAX_FRAME_BYTES { return Some(Oversized(len)); }
      var ok := WriteAll(frame, room);
      error := if ok then None else Some(Io);
      forall ms | Writable(ms) && old(out) == Stream(ms) && Fits(m)
        ensures Writable(ms + [m]) && Stream(ms + [m]) == old(out) + Frame(m)
      {
        StreamAppend(ms, m);
      }
    }
  }
}
