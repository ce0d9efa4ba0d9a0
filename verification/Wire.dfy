/** The bytes LinSight puts on the wire (crates/linsight-protocol/src/frame.rs and messages.rs): a message
    body starts with its variant index, a frame is the body behind a little-endian 32-bit length.

    How bodies decode is a parameter: the results about reading hold for every decoder, and those about
    written streams for every decoder that gives back the messages written. */
module Wire {
  import opened Prelude

  type Bytes = seq<Byte>

  const MAX_FRAME_BYTES: nat := 0x10_0000
  const TWO_32: nat := 0x1_0000_0000

  // ---- integers ---------------------------------------------------------------------------------

  /** The `k` low bytes of `n`, least significant first. */
  function LittleEndian(n: nat, k: nat): (b: Bytes)
    ensures |b| == k
  {
    if k == 0 then [] else [n % 256] + LittleEndian(n / 256, k - 1)
  }

  function FromLittleEndian(b: Bytes): nat
  {
    if b == [] then 0 else b[0] as nat + 256 * FromLittleEndian(b[1..])
  }

  /** `u32::to_le_bytes` and `u32::from_le_bytes` */
  function LE32(n: nat): Bytes { LittleEndian(n, 4) }
  function FromLE32(b: Bytes): nat { FromLittleEndian(b) }

  function Pow256(k: nat): nat { if k == 0 then 1 else 256 * Pow256(k - 1) }

  lemma {:induction false} LittleEndianRoundTrip(n: nat, k: nat)
    requires n < Pow256(k)
    ensures FromLittleEndian(LittleEndian(n, k)) == n
  {
    if k == 0 {
    } else {
      LittleEndianRoundTrip(n / 256, k - 1);
      assert LittleEndian(n, k)[1..] == LittleEndian(n / 256, k - 1);
    }
  }

  lemma LE32RoundTrip(n: nat)
    requires n < TWO_32
    ensures FromLE32(LE32(n)) == n
  {
    assert Pow256(4) == TWO_32 by { assert Pow256(2) == 65536; }
    LittleEndianRoundTrip(n, 4);
  }

  /** Seven bits a byte, least significant first, the top bit set on all but the last byte. */
  function Varint(n: nat): Bytes
  {
    if n < 128 then [n] else [128 + n % 128] + Varint(n / 128)
  }

  datatype Decoded<T> = Decoded(value: T, used: nat)

  function VarintPrefix(s: Bytes, budget: nat): (r: Option<Decoded<nat>>)
    ensures r.Some? ==> 1 <= r.value.used <= |s|
  {
    if s == [] || budget == 0 then None
    else if s[0] < 128 then Some(Decoded(s[0], 1))
    else match VarintPrefix(s[1..], budget - 1)
      case None => None
      case Some(rest) => Some(Decoded(s[0] - 128 + 128 * rest.value, rest.used + 1))
  }

  /** A `u32` takes at most five bytes. */
  function ReadU32(s: Bytes): (r: Option<Decoded<nat>>)
    ensures r.Some? ==> r.value.value < TWO_32 && 1 <= r.value.used <= |s|
  {
    match VarintPrefix(s, 5)
    case Some(d) => if d.value < TWO_32 then Some(d) else None
    case None => None
  }

  function Pow128(k: nat): nat { if k == 0 then 1 else 128 * Pow128(k - 1) }

  lemma {:induction false} VarintRoundTrip(n: nat, rest: Bytes, budget: nat)
    requires budget > 0 && n < Pow128(budget)
    ensures VarintPrefix(Varint(n) + rest, budget) == Some(Decoded(n, |Varint(n)|))
  {
    var s := Varint(n) + rest;
    if n >= 128 {
      assert s[1..] == Varint(n / 128) + rest;
      assert n / 128 < Pow128(budget - 1);
      VarintRoundTrip(n / 128, rest, budget - 1);
    }
  }

  lemma {:induction false} U32RoundTrip(n: nat, rest: Bytes)
    requires n < TWO_32
    ensures ReadU32(Varint(n) + rest) == Some(Decoded(n, |Varint(n)|))
  {
    assert Pow128(5) == 34359738368 by { assert Pow128(3) == 2097152; }
    VarintRoundTrip(n, rest, 5);
  }

  // ---- messages ---------------------------------------------------------------------------------

  const BYE: Byte := 4
  const RESPONSE: Byte := 5
  const LAST_TAG: Byte := 6

  datatype Reply = Success(payload: Bytes) | Failure(error: Bytes)

  /** `Push` stands for the variants the response reader passes over. */
  datatype ServerMsg = Bye(reason: Bytes) | Response(reqId: nat, reply: Reply) | Push(tag: Byte, payload: Bytes)

  predicate Sendable(m: ServerMsg)
  {
    match m
    case Bye(_) => true
    case Response(reqId, _) => reqId < TWO_32
    case Push(tag, _) => tag <= LAST_TAG && tag != BYE && tag != RESPONSE
  }

  function EncodeReply(r: Reply): Bytes
  {
    match r
    case Success(payload) => [0] + payload
    case Failure(error) => [1] + error
  }

  function Encode(m: ServerMsg): (b: Bytes)
    ensures b != []
  {
    match m
    case Bye(reason) => [BYE] + reason
    case Response(reqId, reply) => [RESPONSE] + Varint(reqId) + EncodeReply(reply)
    case Push(tag, payload) => [tag] + payload
  }

  function DecodeReply(b: Bytes): Option<Reply>
  {
    if b == [] then None
    else if b[0] == 0 then Some(Success(b[1..]))
    else if b[0] == 1 then Some(Failure(b[1..]))
    else None
  }

  /** A decoder that, like postcard, reads the variant index as a varint of any length, and that takes every
      payload as it is. */
  function Decode(b: Bytes): Option<ServerMsg>
  {
    match ReadU32(b)
    case None => None
    case Some(tag) =>
      var rest := b[tag.used..];
      if tag.value > LAST_TAG then None
      else if tag.value == BYE then Some(Bye(rest))
      else if tag.value == RESPONSE then DecodeResponse(rest)
      else Some(Push(tag.value, rest))
  }

  function DecodeResponse(b: Bytes): Option<ServerMsg>
  {
    match ReadU32(b)
    case None => None
    case Some(id) =>
      match DecodeReply(b[id.used..])
      case None => None
      case Some(reply) => Some(Response(id.value, reply))
  }

  lemma {:induction false} ResponseRoundTrip(reqId: nat, reply: Reply)
    requires reqId < TWO_32
    ensures DecodeResponse(Varint(reqId) + EncodeReply(reply)) == Some(Response(reqId, reply))
  {
    var tail := EncodeReply(reply);
    U32RoundTrip(reqId, tail);
    assert (Varint(reqId) + tail)[|Varint(reqId)|..] == tail;
    assert tail[1..] == match reply case Success(p) => p case Failure(e) => e;
  }

  lemma TagReads(tag: Byte, rest: Bytes)
    requires tag < 128
    ensures ReadU32([tag] + rest) == Some(Decoded(tag as nat, 1)) && ([tag] + rest)[1..] == rest
  {
  }

  lemma CodecRoundTrip(m: ServerMsg)
    requires Sendable(m)
    ensures Decode(Encode(m)) == Some(m)
  {
    match m {
      case Bye(reason) => TagReads(BYE, reason);
      case Push(tag, payload) => TagReads(tag, payload);
      case Response(reqId, reply) =>
        TagReads(RESPONSE, Varint(reqId) + EncodeReply(reply));
        ResponseRoundTrip(reqId, reply);
        Associate([RESPONSE], Varint(reqId), EncodeReply(reply));
    }
  }

  // ---- frames -----------------------------------------------------------------------------------

  predicate Fits(m: ServerMsg) { |Encode(m)| <= MAX_FRAME_BYTES }

  function Frame(m: ServerMsg): Bytes
    requires Fits(m)
  {
    LE32(|Encode(m)|) + Encode(m)
  }

  ghost predicate Writable(ms: seq<ServerMsg>)
  {
    forall i | 0 <= i < |ms| :: Fits(ms[i])
  }

  /** The stream a writer produces for a list of messages. */
  function Stream(ms: seq<ServerMsg>): Bytes
    requires Writable(ms)
  {
    if ms == [] then [] else Frame(ms[0]) + Stream(ms[1..])
  }

  lemma {:induction false} StreamAppend(ms: seq<ServerMsg>, m: ServerMsg)
    requires Writable(ms) && Fits(m)
    ensures Writable(ms + [m]) && Stream(ms + [m]) == Stream(ms) + Frame(m)
  {
    var all := ms + [m];
    if ms == [] {
      assert all == [m] && all[1..] == [];
    } else {
      var rest := Stream(ms[1..]);
      assert all[0] == ms[0] && all[1..] == ms[1..] + [m];
      StreamAppend(ms[1..], m);
      assert Frame(ms[0]) + (rest + Frame(m)) == Frame(ms[0]) + rest + Frame(m);
    }
  }

  // ---- reading ----------------------------------------------------------------------------------

  /** `EmptyFrame` is the index panic the reader runs into on a frame of length zero. */
  datatype FrameError = Closed | Io | Oversized(len: nat) | Undecodable | EmptyFrame

  type Decoder = Bytes -> Option<ServerMsg>

  /** What a reader depends on besides the bytes: how bodies decode, and whether the bytes run out at the end
      of the stream or with another I/O error. */
  datatype Env = Env(decode: Decoder, clean: bool)

  datatype Header = Header(len: nat, first: Byte) | NoHeader(error: FrameError)

  /** What reading a header reports when the bytes run out. */
  function RunOut(env: Env): FrameError { if env.clean then Closed else Io }

  /** The length prefix and the first body byte at the front of `s`. */
  function ReadHeader(env: Env, s: Bytes): (h: Header)
    ensures h.Header? ==> |s| >= 5
  {
    if |s| < 4 then NoHeader(RunOut(env))
    else
      var len := FromLE32(s[..4]);
      if len > MAX_FRAME_BYTES then NoHeader(Oversized(len))
      else if |s| < 5 then NoHeader(RunOut(env))
      else Header(len, s[4])
  }

  datatype Read<T> = Got(value: T, used: nat) | Failed(error: FrameError)

  /** The whole body behind a header. */
  function ReadBody(s: Bytes, len: nat): (r: Read<Bytes>)
    requires |s| >= 5
    ensures r.Got? ==> 5 <= r.used == 4 + len <= |s| && r.value == s[4..4 + len]
  {
    if len == 0 then Failed(EmptyFrame)
    else if |s| < 4 + len then Failed(Io)
    else Got(s[4..4 + len], 4 + len)
  }

  /** `read_server`: the next frame, decoded. */
  function ReadServer(env: Env, s: Bytes): (r: Read<ServerMsg>)
    ensures r.Got? ==> 5 <= r.used <= |s|
  {
    match ReadHeader(env, s)
    case NoHeader(e) => Failed(e)
    case Header(len, _) =>
      match ReadBody(s, len)
      case Failed(e) => Failed(e)
      case Got(body, used) =>
        match env.decode(body)
        case None => Failed(Undecodable)
        case Some(m) => Got(m, used)
  }

  datatype Reads = Reads(messages: seq<ServerMsg>, error: FrameError)

  /** Reading until the first error. */
  function ReadAll(env: Env, s: Bytes): Reads
    decreases |s|
  {
    match ReadServer(env, s)
    case Failed(e) => Reads([], e)
    case Got(m, used) => var rest := ReadAll(env, s[used..]); Reads([m] + rest.messages, rest.error)
  }

  lemma HeaderOfFrame(env: Env, m: ServerMsg, rest: Bytes)
    requires Fits(m)
    ensures var s := Frame(m) + rest;
            && ReadHeader(env, s) == Header(|Encode(m)|, Encode(m)[0])
            && ReadBody(s, |Encode(m)|) == Got(Encode(m), |Frame(m)|)
            && s[|Frame(m)|..] == rest
  {
    var s := Frame(m) + rest;
    assert s[..4] == LE32(|Encode(m)|);
    LE32RoundTrip(|Encode(m)|);
    assert s[4..4 + |Encode(m)|] == Encode(m);
    assert s[4] == Encode(m)[0];
  }

  /** The decoder gives this message back. */
  predicate Decodes(env: Env, m: ServerMsg) { env.decode(Encode(m)) == Some(m) }

  ghost predicate DecodesAll(env: Env, ms: seq<ServerMsg>)
  {
    Writable(ms) && forall i | 0 <= i < |ms| :: Decodes(env, ms[i])
  }

  /** There are such decoders for every message, whatever its payload. */
  lemma DecoderExists(clean: bool, m: ServerMsg)
    requires Sendable(m)
    ensures Decodes(Env(b => Decode(b), clean), m)
  {
    CodecRoundTrip(m);
  }

  lemma ReadFrame(env: Env, m: ServerMsg, rest: Bytes)
    requires Fits(m) && Decodes(env, m)
    ensures ReadServer(env, Frame(m) + rest) == Got(m, |Frame(m)|)
  {
    HeaderOfFrame(env, m, rest);
  }

  /** A frame that is cut off yields an end-of-stream error and nothing else. */
  lemma ReadCutFrame(env: Env, m: ServerMsg, cut: Bytes)
    requires Fits(m) && cut < Frame(m)
    ensures ReadServer(env, cut).Failed? && ReadServer(env, cut).error in {Closed, Io}
    ensures |cut| >= 5 ==> ReadHeader(env, cut) == Header(|Encode(m)|, Encode(m)[0]) && |cut| < 4 + |Encode(m)|
    ensures |cut| < 5 ==> ReadHeader(env, cut) == NoHeader(RunOut(env))
  {
    var f := Frame(m);
    if |cut| >= 4 {
      assert cut[..4] == f[..4] == LE32(|Encode(m)|);
      LE32RoundTrip(|Encode(m)|);
      if |cut| >= 5 { assert cut[4] == f[4] == Encode(m)[0]; }
    }
  }

  /** How many frames of a stream lie wholly within its first `n` bytes. */
  ghost function WholeFrames(ms: seq<ServerMsg>, n: nat): nat
    requires Writable(ms)
  {
    if ms == [] || n < |Frame(ms[0])| then 0 else 1 + WholeFrames(ms[1..], n - |Frame(ms[0])|)
  }

  lemma {:induction false} ReadAllStep(env: Env, m: ServerMsg, rest: Bytes)
    requires Fits(m) && Decodes(env, m)
    ensures ReadAll(env, Frame(m) + rest) == Reads([m] + ReadAll(env, rest).messages, ReadAll(env, rest).error)
  {
    ReadFrame(env, m, rest);
    HeaderOfFrame(env, m, rest);
  }

  /** A prefix of a non-empty stream either cuts its first frame or continues behind it. */
  lemma PrefixCases(ms: seq<ServerMsg>, s: Bytes) returns (rest: Bytes)
    requires Writable(ms) && ms != [] && s <= Stream(ms)
    ensures |s| < |Frame(ms[0])| ==> s < Frame(ms[0])
    ensures |s| >= |Frame(ms[0])| ==> s == Frame(ms[0]) + rest && rest <= Stream(ms[1..])
  {
    var f := Frame(ms[0]);
    rest := if |s| < |f| then [] else s[|f|..];
  }

  /** The result of reading the first `n` bytes of a stream: the messages whose frames are complete, in order,
      and then the end of the bytes. */
  ghost predicate ReadsWhole(r: Reads, ms: seq<ServerMsg>, n: nat)
  {
    && Writable(ms) && WholeFrames(ms, n) <= |ms|
    && r.messages == ms[..WholeFrames(ms, n)] && r.error in {Closed, Io}
  }

  lemma OneMoreWhole(ms: seq<ServerMsg>, r: Reads, n: nat)
    requires Writable(ms) && ms != [] && ReadsWhole(r, ms[1..], n)
    ensures ReadsWhole(Reads([ms[0]] + r.messages, r.error), ms, |Frame(ms[0])| + n)
  {
    WholeStep(ms, |Frame(ms[0])|, n);
    PrependPrefix(ms, WholeFrames(ms[1..], n));
  }

  lemma WholeStep(ms: seq<ServerMsg>, f: nat, n: nat)
    requires Writable(ms) && ms != [] && f == |Frame(ms[0])|
    ensures Writable(ms[1..]) && WholeFrames(ms, f + n) == 1 + WholeFrames(ms[1..], n)
  {
    assert f + n - f == n;
  }

  lemma PrependPrefix(ms: seq<ServerMsg>, w: nat)
    requires w < |ms|
    ensures [ms[0]] + ms[1..][..w] == ms[..1 + w]
  {
  }

  /** Reading any prefix of a written stream gives exactly the messages whose frames are complete, in
      order, and then an error of running out of bytes: never a different message. */
  lemma {:induction false} ReadPrefix(env: Env, ms: seq<ServerMsg>, s: Bytes)
    requires DecodesAll(env, ms) && s <= Stream(ms)
    ensures ReadsWhole(ReadAll(env, s), ms, |s|)
  {
    if ms == [] {
      assert s == [];
    } else {
      var rest := PrefixCases(ms, s);
      if |s| < |Frame(ms[0])| {
        ReadCutFrame(env, ms[0], s);
      } else {
        ReadPrefix(env, ms[1..], rest);
        ReadAllStep(env, ms[0], rest);
        OneMoreWhole(ms, ReadAll(env, rest), |rest|);
      }
    }
  }

  /** Reading the whole stream gives all the messages and then the end of the connection. */
  lemma {:induction false} ReadWhole(env: Env, ms: seq<ServerMsg>)
    requires DecodesAll(env, ms)
    ensures ReadAll(env, Stream(ms)) == Reads(ms, RunOut(env))
  {
    if ms == [] {
    } else {
      var m, tail := ms[0], ms[1..];
      assert DecodesAll(env, tail) && [m] + tail == ms;
      ReadWhole(env, tail);
      ReadAllStep(env, m, Stream(tail));
    }
  }

  // ---- waiting for one response -----------------------------------------------------------------

  datatype Answer = Payload(payload: Bytes) | ServerError(error: Bytes) | Goodbye(reason: Bytes)

  /** What a message means to someone waiting for `reqId`. */
  function AnswerIn(m: ServerMsg, reqId: nat): Option<Answer>
  {
    match m
    case Bye(reason) => Some(Goodbye(reason))
    case Push(_, _) => None
    case Response(id, reply) =>
      if id != reqId then None
      else match reply
        case Success(p) => Some(Payload(p))
        case Failure(e) => Some(ServerError(e))
  }

  function After<T>(r: Read<T>, used: nat): Read<T>
  {
    if r.Got? then r.(used := r.used + used) else r
  }

  /** The simple way: decode every frame until one answers. */
  function AwaitDecoding(env: Env, s: Bytes, reqId: nat): Read<Answer>
    decreases |s|
  {
    match ReadServer(env, s)
    case Failed(e) => Failed(e)
    case Got(m, used) =>
      match AnswerIn(m, reqId)
      case Some(a) => Got(a, used)
      case None => After(AwaitDecoding(env, s[used..], reqId), used)
  }

  /** Frames the skipping reader reads in full, by their first body byte. */
  predicate Inspected(first: Byte) { first == RESPONSE || first == BYE }

  /** The answer the skipping reader takes from an inspected frame: that of the announced kind only. */
  function Taken(first: Byte, m: ServerMsg, reqId: nat): Option<Answer>
  {
    if (first == RESPONSE && m.Response?) || (first == BYE && m.Bye?) then AnswerIn(m, reqId) else None
  }

  /** One round of `read_server_response`: an answer, an error, or the number of bytes passed over. */
  datatype Round = Answered(answer: Answer, used: nat) | Broken(error: FrameError) | Passed(used: nat)

  function AwaitRound(env: Env, s: Bytes, reqId: nat): (r: Round)
    ensures r.Passed? ==> 5 <= r.used <= |s|
  {
    match ReadHeader(env, s)
    case NoHeader(e) => Broken(e)
    case Header(len, first) =>
      if Inspected(first) then
        match ReadBody(s, len)
        case Failed(e) => Broken(e)
        case Got(body, used) =>
          match env.decode(body)
          case None => Broken(Undecodable)
          case Some(m) =>
            match Taken(first, m, reqId)
            case Some(a) => Answered(a, used)
            case None => Passed(used)
      else
        var skipped := if len > 1 then len - 1 else 0;
        if |s| < 5 + skipped then Broken(Io) else Passed(5 + skipped)
  }

  /** The fast way: frames that cannot answer are passed over without decoding. */
  function AwaitSkipping(env: Env, s: Bytes, reqId: nat): Read<Answer>
    decreases |s|
  {
    match AwaitRound(env, s, reqId)
    case Broken(e) => Failed(e)
    case Answered(a, used) => Got(a, used)
    case Passed(used) => After(AwaitSkipping(env, s[used..], reqId), used)
  }

  // ---- arbitrary bytes, arbitrary decoder -------------------------------------------------------

  /** Errors of a frame that is there in full. */
  predicate Inner(e: FrameError) { e == Undecodable || e == EmptyFrame }

  /** Decoding stops at the frame in front of `s`: it fails there or answers. */
  ghost predicate StopsHere(env: Env, s: Bytes, reqId: nat)
  {
    match ReadServer(env, s) case Failed(_) => true case Got(m, _) => AnswerIn(m, reqId).Some?
  }

  /** The frame in front of `s` is there in full and stops decoding, but its first byte does not tell the
      skipping reader so: the frame is empty or undecodable and not inspected, or decodes to an answer of a
      kind its first byte does not announce. */
  ghost predicate Overlooked(env: Env, s: Bytes, reqId: nat)
  {
    && |s| >= 5
    && match ReadServer(env, s)
       case Failed(e) => Inner(e) && !Inspected(s[4])
       case Got(m, _) => AnswerIn(m, reqId).Some? && Taken(s[4], m, reqId).None?
  }

  /** One frame, read either way: where decoding goes on, so does skipping, and where decoding stops, skipping
      stops alike unless the frame is overlooked, which it passes over. */
  lemma RoundAgainstRead(env: Env, s: Bytes, reqId: nat)
    ensures var round := AwaitRound(env, s, reqId);
            && (Overlooked(env, s, reqId) ==> round.Passed?)
            && (!Overlooked(env, s, reqId) ==>
                  match ReadServer(env, s)
                  case Got(m, used) =>
                    round == (match AnswerIn(m, reqId) case Some(a) => Answered(a, used) case None => Passed(used))
                  case Failed(e) => round == Broken(e))
  {
  }

  /** How far decoding gets before the frame that answers or fails. */
  ghost function StopsAt(env: Env, s: Bytes, reqId: nat): (p: nat)
    ensures p <= |s|
    decreases |s|
  {
    match ReadServer(env, s)
    case Failed(_) => 0
    case Got(m, used) => if AnswerIn(m, reqId).Some? then 0 else used + StopsAt(env, s[used..], reqId)
  }

  lemma AfterAfter<T>(r: Read<T>, a: nat, b: nat)
    ensures After(After(r, a), b) == After(r, b + a)
  {
  }

  lemma DropDrop(s: Bytes, a: nat, b: nat)
    requires a + b <= |s|
    ensures s[a..][b..] == s[a + b..]
  {
  }

  /** Decoding stops there. */
  lemma {:induction false} StopsThere(env: Env, s: Bytes, reqId: nat)
    ensures StopsHere(env, s[StopsAt(env, s, reqId)..], reqId)
    decreases |s|
  {
    if StopsHere(env, s, reqId) {
      assert s[0..] == s;
    } else {
      var used := ReadServer(env, s).used;
      StopsThere(env, s[used..], reqId);
      DropDrop(s, used, StopsAt(env, s[used..], reqId));
    }
  }

  /** `f` passes over every frame at which decoding does not stop. */
  ghost predicate Passes(env: Env, reqId: nat, f: Bytes -> Read<Answer>)
  {
    forall t {:trigger StopsHere(env, t, reqId)} | !StopsHere(env, t, reqId) ::
      f(t) == After(f(t[ReadServer(env, t).used..]), ReadServer(env, t).used)
  }

  lemma BothPass(env: Env, reqId: nat)
    ensures Passes(env, reqId, s => AwaitSkipping(env, s, reqId)) && Passes(env, reqId, s => AwaitDecoding(env, s, reqId))
  {
    forall t | !StopsHere(env, t, reqId)
      ensures AwaitRound(env, t, reqId) == Passed(ReadServer(env, t).used)
    {
      RoundAgainstRead(env, t, reqId);
    }
  }

  /** Such a reader gets to the frame at which decoding stops. */
  lemma {:induction false} ReachesTheStop(env: Env, s: Bytes, reqId: nat, f: Bytes -> Read<Answer>)
    requires Passes(env, reqId, f)
    ensures var p := StopsAt(env, s, reqId); f(s) == After(f(s[p..]), p)
    decreases |s|
  {
    if StopsHere(env, s, reqId) {
      assert s[0..] == s;
    } else {
      var used := ReadServer(env, s).used;
      var rest, p := s[used..], StopsAt(env, s[used..], reqId);
      ReachesTheStop(env, rest, reqId, f);
      DropDrop(s, used, p);
      AfterAfter(f(s[used + p..]), p, used);
    }
  }

  /** What the two readers do where decoding stops, behind `p` bytes: the same, unless the frame is overlooked
      and skipping goes on behind it. */
  ghost predicate Parts(env: Env, rest: Bytes, reqId: nat, p: nat, skipping: Read<Answer>, decoding: Read<Answer>)
  {
    if Overlooked(env, rest, reqId) then
      var round := AwaitRound(env, rest, reqId);
      round.Passed? && skipping == After(AwaitSkipping(env, rest[round.used..], reqId), p + round.used)
    else skipping == decoding
  }

  lemma {:induction false} PartsAtTheStop(env: Env, rest: Bytes, reqId: nat, p: nat)
    requires StopsHere(env, rest, reqId)
    ensures Parts(env, rest, reqId, p, After(AwaitSkipping(env, rest, reqId), p), After(AwaitDecoding(env, rest, reqId), p))
  {
    RoundAgainstRead(env, rest, reqId);
    var round := AwaitRound(env, rest, reqId);
    if round.Passed? { AfterAfter(AwaitSkipping(env, rest[round.used..], reqId), round.used, p); }
  }

  /** For every decoder and every byte string whatsoever: both readers get to the frame at which decoding stops
      and agree there, answer or error, at the same byte, unless that frame is overlooked; then skipping goes
      on behind it. */
  lemma {:induction false} SkippingAgainstDecoding(env: Env, s: Bytes, reqId: nat)
    ensures var p := StopsAt(env, s, reqId);
            && StopsHere(env, s[p..], reqId)
            && Parts(env, s[p..], reqId, p, AwaitSkipping(env, s, reqId), AwaitDecoding(env, s, reqId))
  {
    StopsThere(env, s, reqId);
    BothPass(env, reqId);
    ReachesTheStop(env, s, reqId, t => AwaitSkipping(env, t, reqId));
    ReachesTheStop(env, s, reqId, t => AwaitDecoding(env, t, reqId));
    PartsAtTheStop(env, s[StopsAt(env, s, reqId)..], reqId, StopsAt(env, s, reqId));
  }

  /** The frame at which decoding stops is not overlooked. */
  ghost predicate Heeded(env: Env, s: Bytes, reqId: nat) { !Overlooked(env, s[StopsAt(env, s, reqId)..], reqId) }

  lemma HeededHere(env: Env, s: Bytes, reqId: nat)
    requires StopsAt(env, s, reqId) == 0 && !Overlooked(env, s, reqId)
    ensures Heeded(env, s, reqId)
  {
    assert s[0..] == s;
  }

  lemma HeededBehind(env: Env, s: Bytes, used: nat, reqId: nat)
    requires used <= |s| && StopsAt(env, s, reqId) == used + StopsAt(env, s[used..], reqId) && Heeded(env, s[used..], reqId)
    ensures Heeded(env, s, reqId)
  {
    DropDrop(s, used, StopsAt(env, s[used..], reqId));
  }

  /** No frame of a written stream is overlooked. */
  lemma {:induction false} NothingOverlooked(env: Env, ms: seq<ServerMsg>, s: Bytes, reqId: nat)
    requires DecodesAll(env, ms) && s <= Stream(ms)
    ensures Heeded(env, s, reqId)
  {
    if ms == [] {
      assert s == [];
      HeededHere(env, s, reqId);
    } else {
      var rest := PrefixCases(ms, s);
      if |s| < |Frame(ms[0])| {
        CutNotOverlooked(env, ms[0], s, reqId);
        HeededHere(env, s, reqId);
      } else {
        NothingOverlooked(env, ms[1..], rest, reqId);
        FrameHeeded(env, ms[0], rest, reqId);
      }
    }
  }

  lemma FrameHeeded(env: Env, m: ServerMsg, rest: Bytes, reqId: nat)
    requires Fits(m) && Decodes(env, m) && Heeded(env, rest, reqId)
    ensures Heeded(env, Frame(m) + rest, reqId)
  {
    FrameNotOverlooked(env, m, rest, reqId);
    if AnswerIn(m, reqId).Some? {
      HeededHere(env, Frame(m) + rest, reqId);
    } else {
      HeededBehind(env, Frame(m) + rest, |Frame(m)|, reqId);
    }
  }

  lemma CutNotOverlooked(env: Env, m: ServerMsg, cut: Bytes, reqId: nat)
    requires Fits(m) && cut < Frame(m)
    ensures !Overlooked(env, cut, reqId) && StopsAt(env, cut, reqId) == 0
  {
    ReadCutFrame(env, m, cut);
  }

  lemma {:induction false} FrameNotOverlooked(env: Env, m: ServerMsg, rest: Bytes, reqId: nat)
    requires Fits(m) && Decodes(env, m)
    ensures var s := Frame(m) + rest;
            && s[|Frame(m)|..] == rest && !Overlooked(env, s, reqId)
            && StopsAt(env, s, reqId) == if AnswerIn(m, reqId).Some? then 0 else |Frame(m)| + StopsAt(env, rest, reqId)
  {
    HeaderOfFrame(env, m, rest);
    ReadFrame(env, m, rest);
    var s := Frame(m) + rest;
    assert s[4] == Encode(m)[0];
  }

  /** On any prefix of a written stream the fast reader gives the same result as decoding every frame and
      stops at the same byte. */
  lemma {:induction false} SkippingAgreesWithDecoding(env: Env, ms: seq<ServerMsg>, s: Bytes, reqId: nat)
    requires DecodesAll(env, ms) && s <= Stream(ms)
    ensures AwaitSkipping(env, s, reqId) == AwaitDecoding(env, s, reqId)
  {
    NothingOverlooked(env, ms, s, reqId);
    SkippingAgainstDecoding(env, s, reqId);
  }

  // ---- frames that part the readers -------------------------------------------------------------

  ghost predicate ZeroLength(s: Bytes) { |s| >= 5 && s[0] == 0 && s[1] == 0 && s[2] == 0 && s[3] == 0 }

  lemma ZeroPrefix(b: Bytes)
    requires |b| == 4
    ensures FromLE32(b) == 0 <==> b[0] == 0 && b[1] == 0 && b[2] == 0 && b[3] == 0
  {
    assert b[1..][1..] == b[2..] && b[2..][1..] == b[3..] && b[3..][1..] == [];
    assert FromLittleEndian(b[3..]) == b[3] as nat;
    assert FromLittleEndian(b[2..]) == b[2] as nat + 256 * FromLittleEndian(b[3..]);
    assert FromLittleEndian(b[1..]) == b[1] as nat + 256 * FromLittleEndian(b[2..]);
  }

  /** Reading a frame runs into the empty body exactly when its four length bytes are zero; the skipping
      reader does only if moreover the byte behind them marks an inspected frame, and else passes five
      bytes over. */
  lemma EmptyFrameExactly(env: Env, s: Bytes, reqId: nat)
    ensures ReadServer(env, s) == Failed(EmptyFrame) <==> ZeroLength(s)
    ensures AwaitRound(env, s, reqId) == Broken(EmptyFrame) <==> ZeroLength(s) && Inspected(s[4])
    ensures ZeroLength(s) && !Inspected(s[4]) ==> AwaitRound(env, s, reqId) == Passed(5)
  {
    if |s| >= 4 { ZeroPrefix(s[..4]); }
  }

  /** The five bytes 0 0 0 0 2 stop one reader and not the other, whatever the decoder. */
  lemma {:induction false} ReadersDisagree(env: Env, reqId: nat)
    ensures var s: Bytes := [0, 0, 0, 0, 2];
            && ReadServer(env, s) == Failed(EmptyFrame) && AwaitDecoding(env, s, reqId) == Failed(EmptyFrame)
            && AwaitRound(env, s, reqId) == Passed(5) && AwaitSkipping(env, s, reqId) == Failed(RunOut(env))
  {
    var s: Bytes := [0, 0, 0, 0, 2];
    EmptyFrameExactly(env, s, reqId);
    assert s[5..] == [];
  }

  /** A single frame with this body. */
  function Framed(body: Bytes): Bytes { LE32(|body|) + body }

  lemma FramedReads(env: Env, body: Bytes)
    requires 0 < |body| <= MAX_FRAME_BYTES
    ensures var s := Framed(body);
            ReadHeader(env, s) == Header(|body|, body[0]) && ReadBody(s, |body|) == Got(body, |s|) && s[|s|..] == []
  {
    var s := Framed(body);
    assert s[..4] == LE32(|body|) && s[4..4 + |body|] == body && s[4] == body[0];
    LE32RoundTrip(|body|);
  }

  /** A frame that is not inspected parts the readers exactly when its body does not decode or decodes to an
      answer; a Sample frame with a cut-off string, and a Response whose variant index is written in more
      bytes than it needs, are of this kind. */
  lemma {:induction false} UninspectedFrameParts(env: Env, body: Bytes, reqId: nat)
    requires 0 < |body| <= MAX_FRAME_BYTES && !Inspected(body[0])
    ensures var s, m := Framed(body), env.decode(body);
            && AwaitSkipping(env, s, reqId) == Failed(RunOut(env))
            && AwaitDecoding(env, s, reqId) == (match m
                                                case None => Failed(Undecodable)
                                                case Some(m) =>
                                                  match AnswerIn(m, reqId)
                                                  case None => Failed(RunOut(env))
                                                  case Some(a) => Got(a, |s|))
  {
    FramedReads(env, body);
  }

  /** The six bytes 2 0 0 0 2 255, if the decoder finds the string behind the tag cut off. */
  lemma {:induction false} CutPayloadDisagrees(env: Env, reqId: nat)
    requires env.decode([2, 255]).None?
    ensures var s: Bytes := [2, 0, 0, 0, 2, 255];
            && ReadServer(env, s) == Failed(Undecodable) && AwaitDecoding(env, s, reqId) == Failed(Undecodable)
            && AwaitSkipping(env, s, reqId) == Failed(RunOut(env))
  {
    var body: Bytes := [2, 255];
    assert LittleEndian(2, 4) == [2] + LittleEndian(0, 3);
    assert LittleEndian(0, 3) == [0] + LittleEndian(0, 2);
    assert LittleEndian(0, 2) == [0] + LittleEndian(0, 1);
    assert LittleEndian(0, 1) == [0] + LittleEndian(0, 0);
    assert Framed(body) == [2, 0, 0, 0, 2, 255];
    UninspectedFrameParts(env, body, reqId);
    FramedReads(env, body);
  }

  /** Reading frame after frame gets to position `p`. */
  ghost predicate ReadsTo(env: Env, s: Bytes, p: nat)
    decreases |s|
  {
    p == 0 || match ReadServer(env, s)
              case Failed(_) => false
              case Got(_, used) => used <= p && ReadsTo(env, s[used..], p - used)
  }

  /** The skipping reader gets to position `p` without an answer. */
  ghost predicate SkipsTo(env: Env, s: Bytes, reqId: nat, p: nat)
    decreases |s|
  {
    p == 0 || match AwaitRound(env, s, reqId)
              case Passed(used) => used <= p && SkipsTo(env, s[used..], reqId, p - used)
              case _ => false
  }

  /** For every decoder, reading a byte string ends at an empty body if and only if some frame boundary that
      decoding gets to is followed by four zero bytes and one more. */
  lemma {:induction false} ReadingEndsEmptyExactly(env: Env, s: Bytes)
    ensures ReadAll(env, s).error == EmptyFrame <==> exists p: nat :: EmptyAt(env, s, p)
    decreases |s|
  {
    EmptyFrameExactly(env, s, 0);
    assert s[0..] == s && ReadsTo(env, s, 0);
    match ReadServer(env, s) {
      case Failed(_) =>
        assert ZeroLength(s) ==> EmptyAt(env, s, 0);
      case Got(_, used) =>
        ReadingEndsEmptyExactly(env, s[used..]);
        if p: nat :| EmptyAt(env, s[used..], p) { EmptyBehind(env, s, used, p); }
        if p: nat :| EmptyAt(env, s, p) {
          assert p != 0;
          EmptyBehind(env, s, used, p - used);
        }
    }
  }

  /** A boundary that reading gets to, followed by four zero bytes and one more. */
  ghost predicate EmptyAt(env: Env, s: Bytes, p: nat) { p <= |s| && ReadsTo(env, s, p) && ZeroLength(s[p..]) }

  lemma EmptyBehind(env: Env, s: Bytes, used: nat, p: nat)
    requires ReadServer(env, s).Got? && ReadServer(env, s).used == used
    ensures EmptyAt(env, s[used..], p) <==> EmptyAt(env, s, used + p)
  {
    if used + p <= |s| { assert s[used..][p..] == s[used + p..]; }
  }

  /** The same for the skipping reader, whose frame must moreover be marked as an inspected one. */
  lemma {:induction false} SkippingEndsEmptyExactly(env: Env, s: Bytes, reqId: nat)
    ensures AwaitSkipping(env, s, reqId) == Failed(EmptyFrame) <==> exists p: nat :: EmptyInspectedAt(env, s, reqId, p)
    decreases |s|
  {
    EmptyFrameExactly(env, s, reqId);
    assert s[0..] == s && SkipsTo(env, s, reqId, 0);
    match AwaitRound(env, s, reqId) {
      case Broken(_) =>
        assert ZeroLength(s) && Inspected(s[4]) ==> EmptyInspectedAt(env, s, reqId, 0);
      case Answered(_, _) =>
      case Passed(used) =>
        SkippingEndsEmptyExactly(env, s[used..], reqId);
        if p: nat :| EmptyInspectedAt(env, s[used..], reqId, p) { EmptyInspectedBehind(env, s, reqId, used, p); }
        if p: nat :| EmptyInspectedAt(env, s, reqId, p) {
          assert p != 0;
          EmptyInspectedBehind(env, s, reqId, used, p - used);
        }
    }
  }

  ghost predicate EmptyInspectedAt(env: Env, s: Bytes, reqId: nat, p: nat)
  {
    p <= |s| && SkipsTo(env, s, reqId, p) && ZeroLength(s[p..]) && Inspected(s[p..][4])
  }

  lemma EmptyInspectedBehind(env: Env, s: Bytes, reqId: nat, used: nat, p: nat)
    requires AwaitRound(env, s, reqId) == Passed(used)
    ensures EmptyInspectedAt(env, s[used..], reqId, p) <==> EmptyInspectedAt(env, s, reqId, used + p)
  {
    if used + p <= |s| { assert s[used..][p..] == s[used + p..]; }
  }

  // ---- the first answer -------------------------------------------------------------------------

  /** The first message that answers, with the number of bytes up to the end of its frame. */
  ghost function FirstAnswer(env: Env, ms: seq<ServerMsg>, reqId: nat): Read<Answer>
    requires Writable(ms)
  {
    if ms == [] then Failed(RunOut(env))
    else match AnswerIn(ms[0], reqId)
      case Some(a) => Got(a, |Frame(ms[0])|)
      case None => After(FirstAnswer(env, ms[1..], reqId), |Frame(ms[0])|)
  }

  lemma {:induction false} SkippingStep(env: Env, m: ServerMsg, rest: Bytes, reqId: nat)
    requires Fits(m) && Decodes(env, m)
    ensures AwaitSkipping(env, Frame(m) + rest, reqId) ==
            match AnswerIn(m, reqId)
            case Some(a) => Got(a, |Frame(m)|)
            case None => After(AwaitSkipping(env, rest, reqId), |Frame(m)|)
  {
    HeaderOfFrame(env, m, rest);
    ReadFrame(env, m, rest);
    RoundAgainstRead(env, Frame(m) + rest, reqId);
  }

  /** The fast reader returns the first message that answers, having consumed everything up to and including
      its frame and not one byte more; with no such message it reports the end of the stream. */
  lemma {:induction false} AwaitFindsFirst(env: Env, ms: seq<ServerMsg>, reqId: nat)
    requires DecodesAll(env, ms)
    ensures AwaitSkipping(env, Stream(ms), reqId) == FirstAnswer(env, ms, reqId)
  {
    if ms == [] {
    } else {
      AwaitFindsFirst(env, ms[1..], reqId);
      SkippingStep(env, ms[0], Stream(ms[1..]), reqId);
    }
  }

  /** `m` ends the wait for `reqId`: it says goodbye, or is the response with that very id. */
  ghost predicate Ends(m: ServerMsg, reqId: nat) { m.Bye? || (m.Response? && m.reqId == reqId) }

  /** `a` is what `m` says, byte for byte. */
  ghost predicate Says(a: Answer, m: ServerMsg)
  {
    || (m.Bye? && a == Goodbye(m.reason))
    || (m.Response? && m.reply.Success? && a == Payload(m.reply.payload))
    || (m.Response? && m.reply.Failure? && a == ServerError(m.reply.error))
  }

  /** Message `i` is the first that ends the wait. */
  ghost predicate FirstToEnd(ms: seq<ServerMsg>, reqId: nat, i: nat)
  {
    i < |ms| && Ends(ms[i], reqId) && forall j | 0 <= j < i :: !Ends(ms[j], reqId)
  }

  /** The wait ended with message `i`: with what it says, and right behind its frame. */
  ghost predicate EndedWith(ms: seq<ServerMsg>, i: nat, a: Answer, used: nat)
    requires Writable(ms)
  {
    i < |ms| && Says(a, ms[i]) && used == |Stream(ms[..i + 1])|
  }

  lemma {:induction false} FirstAnswerMeaning(env: Env, ms: seq<ServerMsg>, reqId: nat)
    requires Writable(ms)
    ensures match FirstAnswer(env, ms, reqId)
            case Got(a, used) => exists i: nat :: FirstToEnd(ms, reqId, i) && EndedWith(ms, i, a, used)
            case Failed(e) => e == (if env.clean then Closed else Io) && forall i: nat :: !FirstToEnd(ms, reqId, i)
  {
    if ms == [] {
    } else {
      var m, tail := ms[0], ms[1..];
      FirstAnswerMeaning(env, tail, reqId);
      if Ends(m, reqId) {
        assert ms[..1] == [m] && [m][1..] == [] && Stream([m]) == Frame(m) + [];
        assert FirstToEnd(ms, reqId, 0);
      } else {
        forall i: nat ensures FirstToEnd(ms, reqId, i + 1) <==> FirstToEnd(tail, reqId, i) { FirstBehind(ms, reqId, i); }
        match FirstAnswer(env, tail, reqId) {
          case Got(a, used) =>
            var i: nat :| FirstToEnd(tail, reqId, i) && EndedWith(tail, i, a, used);
            StreamCons(ms, i + 1);
            assert FirstToEnd(ms, reqId, i + 1) && EndedWith(ms, i + 1, a, used + |Frame(m)|);
          case Failed(_) =>
            forall i: nat ensures !FirstToEnd(ms, reqId, i) {
              if i > 0 { assert FirstToEnd(ms, reqId, (i - 1) + 1) <==> FirstToEnd(tail, reqId, i - 1); }
            }
        }
      }
    }
  }

  lemma FirstBehind(ms: seq<ServerMsg>, reqId: nat, i: nat)
    requires ms != [] && !Ends(ms[0], reqId)
    ensures FirstToEnd(ms, reqId, i + 1) <==> FirstToEnd(ms[1..], reqId, i)
  {
    var tail := ms[1..];
    assert forall j | 0 <= j < |tail| :: tail[j] == ms[j + 1];
    if FirstToEnd(tail, reqId, i) {
      forall j | 0 <= j < i + 1 ensures !Ends(ms[j], reqId) { if j > 0 { assert tail[j - 1] == ms[j]; } }
    }
  }

  lemma StreamCons(ms: seq<ServerMsg>, n: nat)
    requires Writable(ms) && ms != [] && n < |ms|
    ensures Stream(ms[..n + 1]) == Frame(ms[0]) + Stream(ms[1..][..n])
  {
    assert ms[..n + 1][0] == ms[0] && ms[..n + 1][1..] == ms[1..][..n];
  }

  lemma FirstToEndIsUnique(ms: seq<ServerMsg>, reqId: nat, i: nat, j: nat)
    requires FirstToEnd(ms, reqId, i) && FirstToEnd(ms, reqId, j)
    ensures i == j
  {
  }

  lemma AwaitEnds(env: Env, ms: seq<ServerMsg>, reqId: nat, i: nat)
    requires DecodesAll(env, ms) && FirstToEnd(ms, reqId, i)
    ensures var r := AwaitSkipping(env, Stream(ms), reqId); r.Got? && EndedWith(ms, i, r.value, r.used)
  {
    AwaitFindsFirst(env, ms, reqId);
    FirstAnswerMeaning(env, ms, reqId);
    var r := FirstAnswer(env, ms, reqId);
    assert r.Got?;
    var j: nat :| FirstToEnd(ms, reqId, j) && EndedWith(ms, j, r.value, r.used);
    FirstToEndIsUnique(ms, reqId, i, j);
  }

  /** Waiting for the response to `reqId` on a written stream returns `a` after `used` bytes if and only if, for
      the first message that is a Bye or the Response with that id, `a` is exactly what it says and `used` ends
      its frame. Without such a message the bytes run out. */
  lemma AwaitReturnsExactly(env: Env, ms: seq<ServerMsg>, reqId: nat, a: Answer, used: nat)
    requires DecodesAll(env, ms)
    ensures AwaitSkipping(env, Stream(ms), reqId) == Got(a, used) <==>
            exists i: nat :: FirstToEnd(ms, reqId, i) && EndedWith(ms, i, a, used)
    ensures (forall i: nat :: !FirstToEnd(ms, reqId, i)) ==>
              AwaitSkipping(env, Stream(ms), reqId) == Failed(if env.clean then Closed else Io)
  {
    AwaitFindsFirst(env, ms, reqId);
    FirstAnswerMeaning(env, ms, reqId);
    if i: nat :| FirstToEnd(ms, reqId, i) && EndedWith(ms, i, a, used) { AwaitEnds(env, ms, reqId, i); }
  }

  // ---- the format in numbers --------------------------------------------------------------------

  /** The length prefix weighs its bytes by powers of 256, the first least. */
  lemma LengthInNumbers(b: Bytes)
    requires |b| == 4
    ensures FromLE32(b) == b[0] as int + 256 * (b[1] as int) + 65_536 * (b[2] as int) + 16_777_216 * (b[3] as int)
  {
    assert b[1..][1..] == b[2..] && b[2..][1..] == b[3..] && b[3..][1..] == [];
    assert FromLittleEndian(b[3..]) == b[3] as nat;
    assert FromLittleEndian(b[2..]) == b[2] as nat + 256 * FromLittleEndian(b[3..]);
    assert FromLittleEndian(b[1..]) == b[1] as nat + 256 * FromLittleEndian(b[2..]);
  }

  /** A frame is refused as oversized exactly when its prefix says more than 2^20 bytes, and a message fits
      exactly up to that size. */
  lemma OversizedExactly(env: Env, s: Bytes, m: ServerMsg)
    ensures (ReadHeader(env, s).NoHeader? && ReadHeader(env, s).error.Oversized?) <==>
            |s| >= 4 && s[0] as int + 256 * (s[1] as int) + 65_536 * (s[2] as int) + 16_777_216 * (s[3] as int) > 1_048_576
    ensures Fits(m) <==> |Encode(m)| <= 1_048_576
  {
    if |s| >= 4 { LengthInNumbers(s[..4]); }
  }

  /** What stands in front of a body: 4 for a Bye, 5 for a Response, then the id seven bits at a time with the
      top bit set on all bytes but the last, then 0 for a success and 1 for a failure. */
  lemma BodyInNumbers(m: ServerMsg)
    ensures m.Bye? ==> Encode(m) == [4] + m.reason
    ensures m.Response? && m.reqId < 128 ==>
              Encode(m) == [5, m.reqId] + (if m.reply.Success? then [0] + m.reply.payload else [1] + m.reply.error)
    ensures m.Response? && m.reqId >= 128 ==>
              |Encode(m)| >= 3 && Encode(m)[0] == 5 && Encode(m)[1] == 128 + m.reqId % 128
  {
    if m.Response? && m.reqId < 128 {
      assert Varint(m.reqId) == [m.reqId];
      assert [5] + [m.reqId] == [5, m.reqId];
    }
  }
}
