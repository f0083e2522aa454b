/** What a secure channel does with a stream of bytes: cutting it into chunks, unpacking them, putting the
    chunks of a message together and delivering the messages. */
module ChannelSpec {
  import opened Bytes
  import opened Options
  import opened SequenceNumbers

  /// Numbers on the wire

  function U32At(s: seq<Byte>, i: nat): (r: U32)
    requires i + 4 <= |s|
  {
    var a: nat, b: nat, c: nat, d: nat := s[i], s[i + 1], s[i + 2], s[i + 3];
    a + 0x100 * b + 0x1_0000 * c + 0x100_0000 * d
  }

  function U32Bytes(n: U32): (s: seq<Byte>)
    ensures |s| == 4 && U32At(s, 0) == n
  {
    var n1 := n / 0x100;
    var n2 := n1 / 0x100;
    [n % 0x100, n1 % 0x100, n2 % 0x100, n2 / 0x100]
  }

  /// Types

  const ACK: nat := 0x4B4341
  const HEL: nat := 0x4C4548
  const MSG: nat := 0x47534D
  const OPN: nat := 0x4E504F
  const CLO: nat := 0x4F4C43
  const ERR: nat := 0x525245
  const RHE: nat := 0x454852

  const FINAL: nat := 0x4600_0000
  const INTERMEDIATE: nat := 0x4300_0000
  const ABORT: nat := 0x4100_0000

  const HEADER: nat := 8
  const MIN_LENGTH: nat := 16

  datatype Status =
    | Good
    | BadTcpMessageTypeInvalid
    | BadTcpMessageTooLarge
    | BadInvalidState
    | BadSecurityChecksFailed
    | BadDecodingError
    | BadOther(code: nat)

  datatype Phase = Open | OpnSent | AckSent | OtherPhase

  /** Zero stands for no limit on messages. */
  datatype Config = Config(recvBufferSize: nat, localMaxMessageSize: nat, localMaxChunkCount: nat)

  datatype Chunk = Chunk(messageType: nat, chunkType: nat, requestId: U32, bytes: seq<Byte>)

  datatype Message = Message(messageType: nat, requestId: U32, payload: seq<Byte>)

  /** Security checks and decryption: a failure, or the chunk's content from the sequence header on. */
  datatype Plain<S> = Rejected(code: nat) | Plain(sec: S, body: seq<Byte>)

  datatype Reaction<S> = Reaction(status: Status, sec: S)

  /** The parts around the channel. They depend on a security context, which they may change. */
  datatype Env<!S> = Env(
    config: Config,
    phase: S -> Phase,
    legacy: S -> bool,
    sym: (S, seq<Byte>) -> Plain<S>,
    opn: (S, seq<Byte>) -> Plain<S>,
    react: (S, Message) -> Reaction<S>)

  /** What the receiver knows besides the bytes that wait: the context, the last sequence number, the queue. */
  datatype Rx<S> = Rx(sec: S, last: U32, queue: seq<Chunk>)

  /// One chunk

  datatype Frame = Incomplete | Refused(status: Status) | Complete(size: nat)

  function NextFrame(config: Config, s: seq<Byte>): (f: Frame)
    ensures f.Complete? ==> MIN_LENGTH <= f.size <= |s|
    ensures f.Refused? ==> f.status != Good
  {
    if |s| < HEADER then Incomplete
    else
      var size := U32At(s, 4);
      if size < MIN_LENGTH then Refused(BadTcpMessageTypeInvalid)
      else if size > config.recvBufferSize then Refused(BadTcpMessageTooLarge)
      else if size > |s| then Incomplete
      else Complete(size)
  }

  function MessageTypeOf(frame: seq<Byte>): nat
    requires |frame| >= HEADER
  {
    U32At(frame, 0) % 0x100_0000
  }

  function ChunkTypeOf(frame: seq<Byte>): nat
    requires |frame| >= HEADER
  {
    U32At(frame, 0) - U32At(frame, 0) % 0x100_0000
  }

  datatype Unpacked<S> = Failed(status: Status) | Unpacked(sec: S, last: U32, chunk: Chunk)

  function Unpack<S>(env: Env<S>, sec: S, last: U32, frame: seq<Byte>): (r: Unpacked<S>)
    requires |frame| >= MIN_LENGTH
    ensures r.Failed? ==> r.status != Good
  {
    var t, c := MessageTypeOf(frame), ChunkTypeOf(frame);
    if t == OPN then
      if c != FINAL then Failed(BadTcpMessageTypeInvalid)
      else if env.phase(sec) == OtherPhase then Failed(BadInvalidState)
      else UnpackOpn(env.opn(sec, frame), t, c)
    else if t == MSG || t == CLO then
      if c != FINAL && c != INTERMEDIATE && c != ABORT then Failed(BadTcpMessageTypeInvalid)
      else if env.phase(sec) != Open then Failed(BadInvalidState)
      else UnpackSym(env.legacy(sec), env.sym(sec, frame), last, t, c)
    else if t == RHE || t == HEL || t == ACK || t == ERR then
      if c != FINAL then Failed(BadTcpMessageTypeInvalid)
      else Unpacked(sec, last, Chunk(t, c, 0, frame[HEADER..]))
    else Failed(BadTcpMessageTypeInvalid)
  }

  /** The first number of an opened channel is taken as it is. */
  function UnpackOpn<S>(plain: Plain<S>, t: nat, c: nat): Unpacked<S> {
    match plain
    case Rejected(code) => Failed(BadOther(code))
    case Plain(sec, body) =>
      if |body| < 8 then Failed(BadDecodingError)
      else Unpacked(sec, U32At(body, 0), Chunk(t, c, U32At(body, 4), body[8..]))
  }

  function UnpackSym<S>(legacy: bool, plain: Plain<S>, last: U32, t: nat, c: nat): Unpacked<S> {
    match plain
    case Rejected(code) => Failed(BadOther(code))
    case Plain(sec, body) =>
      if |body| < 8 then Failed(BadDecodingError)
      else if !Accepts(legacy, last, U32At(body, 0)) then Failed(BadSecurityChecksFailed)
      else Unpacked(sec, U32At(body, 0), Chunk(t, c, U32At(body, 4), body[8..]))
  }

  /// The queue

  function Own(queue: seq<Chunk>, id: U32): (r: seq<Chunk>) {
    if queue == [] then []
    else
      var r := Own(queue[..|queue| - 1], id);
      if queue[|queue| - 1].requestId == id then r + [queue[|queue| - 1]] else r
  }

  function Others(queue: seq<Chunk>, id: U32): (r: seq<Chunk>) {
    if queue == [] then []
    else
      var r := Others(queue[..|queue| - 1], id);
      if queue[|queue| - 1].requestId != id then r + [queue[|queue| - 1]] else r
  }

  function Joined(queue: seq<Chunk>): seq<Byte> {
    if queue == [] then [] else Joined(queue[..|queue| - 1]) + queue[|queue| - 1].bytes
  }

  function Length(queue: seq<Chunk>): nat {
    if queue == [] then 0 else Length(queue[..|queue| - 1]) + |queue[|queue| - 1].bytes|
  }

  datatype Outcome = Stop(status: Status) | Continue(queue: seq<Chunk>) | Deliver(message: Message, queue: seq<Chunk>)

  function Handle(config: Config, queue: seq<Chunk>, chunk: Chunk): Outcome {
    if chunk.chunkType == ABORT then Continue([])
    else if chunk.chunkType == INTERMEDIATE then
      if (config.localMaxChunkCount != 0 && |queue| >= config.localMaxChunkCount)
         || (config.localMaxMessageSize != 0 && Length(queue) + |chunk.bytes| > config.localMaxMessageSize)
      then Stop(BadTcpMessageTooLarge)
      else Continue(queue + [chunk])
    else
      var own := Own(queue, chunk.requestId);
      if exists i :: 0 <= i < |own| && own[i].messageType != chunk.messageType then Stop(BadTcpMessageTypeInvalid)
      else if config.localMaxMessageSize != 0 && Length(own) + |chunk.bytes| > config.localMaxMessageSize
      then Stop(BadTcpMessageTooLarge)
      else Deliver(Message(chunk.messageType, chunk.requestId, Joined(own) + chunk.bytes),
                   Others(queue, chunk.requestId))
  }

  /// One step on the stream

  /** `Waits`: no complete chunk. `Halts`: an error. `Skips`: a chunk without content, which ends a round of
      extraction. `Absorbs`: a chunk that completes no message. `Gives`: a message. */
  datatype Step<S> =
    | Waits
    | Halts(status: Status, rx: Rx<S>, rest: seq<Byte>)
    | Skips(rx: Rx<S>, rest: seq<Byte>)
    | Absorbs(rx: Rx<S>, rest: seq<Byte>)
    | Gives(message: Message, rx: Rx<S>, rest: seq<Byte>)

  function Take<S>(env: Env<S>, rx: Rx<S>, s: seq<Byte>): (r: Step<S>)
    ensures r.Skips? || r.Absorbs? || r.Gives? ==> |r.rest| < |s|
    ensures r.Halts? ==> r.status != Good && |r.rest| <= |s|
  {
    match NextFrame(env.config, s)
    case Incomplete => Waits
    case Refused(status) => Halts(status, rx, s)
    case Complete(size) =>
      match Unpack(env, rx.sec, rx.last, s[..size])
      case Failed(status) => Halts(status, rx, s[size..])
      case Unpacked(sec, last, chunk) => TakeChunk(env.config, Rx(sec, last, rx.queue), chunk, s[size..])
  }

  function TakeChunk<S>(config: Config, rx: Rx<S>, chunk: Chunk, rest: seq<Byte>): (r: Step<S>)
    ensures !r.Waits? && r.rest == rest && (r.Halts? ==> r.status != Good)
  {
    if chunk.bytes == [] then Skips(rx, rest)
    else
      match Handle(config, rx.queue, chunk)
      case Stop(status) => Halts(status, rx, rest)
      case Continue(queue) => Absorbs(rx.(queue := queue), rest)
      case Deliver(message, queue) => Gives(message, rx.(queue := queue), rest)
  }

  /// Extraction of one message, and the loop of the caller

  datatype Result<S> = Result(status: Status, message: Option<Message>, rx: Rx<S>, rest: seq<Byte>)

  function NextMessage<S>(env: Env<S>, rx: Rx<S>, s: seq<Byte>): (r: Result<S>)
    ensures |r.rest| <= |s| && (r.message.Some? ==> |r.rest| < |s|)
    decreases |s|
  {
    match Take(env, rx, s)
    case Waits => Result(Good, None, rx, s)
    case Halts(status, rx', rest) => Result(status, None, rx', rest)
    case Skips(rx', rest) => Result(Good, None, rx', rest)
    case Absorbs(rx', rest) => NextMessage(env, rx', rest)
    case Gives(message, rx', rest) => Result(Good, Some(message), rx', rest)
  }

  /** What was delivered, and where the receiver stands afterwards. */
  datatype Trace<S> = Trace(messages: seq<Message>, status: Status, rx: Rx<S>, rest: seq<Byte>)

  function After<S>(messages: seq<Message>, t: Trace<S>): Trace<S> {
    t.(messages := messages + t.messages)
  }

  function Drain<S>(env: Env<S>, rx: Rx<S>, s: seq<Byte>): (t: Trace<S>)
    ensures |t.rest| <= |s|
    decreases |s|
  {
    var r := NextMessage(env, rx, s);
    if r.status != Good || r.message.None? then Trace([], r.status, r.rx, r.rest)
    else
      var reaction := env.react(r.rx.sec, r.message.value);
      var rx' := r.rx.(sec := reaction.sec);
      if reaction.status != Good then Trace([r.message.value], reaction.status, rx', r.rest)
      else After([r.message.value], Drain(env, rx', r.rest))
  }

  /** The same without interruption: every complete chunk is taken. */
  function Deliveries<S>(env: Env<S>, rx: Rx<S>, s: seq<Byte>): (t: Trace<S>)
    ensures |t.rest| <= |s|
    decreases |s|
  {
    match Take(env, rx, s)
    case Waits => Trace([], Good, rx, s)
    case Halts(status, rx', rest) => Trace([], status, rx', rest)
    case Skips(rx', rest) => Deliveries(env, rx', rest)
    case Absorbs(rx', rest) => Deliveries(env, rx', rest)
    case Gives(message, rx', rest) =>
      var reaction := env.react(rx'.sec, message);
      var rx'' := rx'.(sec := reaction.sec);
      if reaction.status != Good then Trace([message], reaction.status, rx'', rest)
      else After([message], Deliveries(env, rx'', rest))
  }

  /** The bytes arrive in pieces; each piece is loaded, drained and the rest kept. An error ends the run. */
  function Receive<S>(env: Env<S>, rx: Rx<S>, kept: seq<Byte>, pieces: seq<seq<Byte>>): (t: Trace<S>)
    decreases |pieces|
  {
    if pieces == [] then Trace([], Good, rx, kept)
    else
      var t := Drain(env, rx, kept + pieces[0]);
      if t.status != Good then t
      else After(t.messages, Receive(env, t.rx, t.rest, pieces[1..]))
  }

  function Flatten(pieces: seq<seq<Byte>>): seq<Byte> {
    if pieces == [] then [] else pieces[0] + Flatten(pieces[1..])
  }

  /// Cutting the stream elsewhere changes nothing

  /** More bytes behind a complete chunk do not matter for it. */
  lemma TakeExtends<S>(env: Env<S>, rx: Rx<S>, s: seq<Byte>, more: seq<Byte>)
    requires !Take(env, rx, s).Waits?
    ensures var r := Take(env, rx, s);
            Take(env, rx, s + more) == r.(rest := r.rest + more)
  {
    hide Unpack, Handle;
    FrameExtends(env.config, s, more);
    var f := NextFrame(env.config, s);
    if f.Complete? {
      assert (s + more)[..f.size] == s[..f.size];
      assert (s + more)[f.size..] == s[f.size..] + more;
    }
  }

  lemma FrameExtends(config: Config, s: seq<Byte>, more: seq<Byte>)
    requires !NextFrame(config, s).Incomplete?
    ensures NextFrame(config, s + more) == NextFrame(config, s)
  {
    assert U32At(s + more, 4) == U32At(s, 4);
  }

  /** Bytes that arrive later continue where the receiver stands. */
  lemma {:induction false} DeliveriesExtend<S>(env: Env<S>, rx: Rx<S>, s: seq<Byte>, more: seq<Byte>)
    ensures var t := Deliveries(env, rx, s);
            Deliveries(env, rx, s + more) ==
            if t.status != Good then t.(rest := t.rest + more)
            else After(t.messages, Deliveries(env, t.rx, t.rest + more))
    decreases |s|
  {
    hide Take;
    var r := Take(env, rx, s);
    if !r.Waits? {
      TakeExtends(env, rx, s, more);
      if r.Skips? || r.Absorbs? {
        DeliveriesExtend(env, r.rx, r.rest, more);
      } else if r.Gives? {
        var reaction := env.react(r.rx.sec, r.message);
        if reaction.status == Good {
          DeliveriesExtend(env, r.rx.(sec := reaction.sec), r.rest, more);
        }
      }
    }
  }

  /** Extraction of one message is a part of the uninterrupted run. */
  lemma {:induction false} NextIsPart<S>(env: Env<S>, rx: Rx<S>, s: seq<Byte>)
    ensures var r := NextMessage(env, rx, s);
            Deliveries(env, rx, s) ==
            if r.status != Good then Trace([], r.status, r.rx, r.rest)
            else if r.message.None? then Deliveries(env, r.rx, r.rest)
            else
              var reaction := env.react(r.rx.sec, r.message.value);
              var rx' := r.rx.(sec := reaction.sec);
              if reaction.status != Good then Trace([r.message.value], reaction.status, rx', r.rest)
              else After([r.message.value], Deliveries(env, rx', r.rest))
    decreases |s|
  {
    hide Take;
    var r := Take(env, rx, s);
    if r.Absorbs? { NextIsPart(env, r.rx, r.rest); }
  }

  lemma {:induction false} DrainIsPart<S>(env: Env<S>, rx: Rx<S>, s: seq<Byte>)
    ensures var t := Drain(env, rx, s);
            Deliveries(env, rx, s) == if t.status != Good then t else After(t.messages, Deliveries(env, t.rx, t.rest))
    decreases |s|
  {
    hide NextMessage, Deliveries;
    NextIsPart(env, rx, s);
    var r := NextMessage(env, rx, s);
    if r.status == Good && r.message.Some? {
      var reaction := env.react(r.rx.sec, r.message.value);
      if reaction.status == Good {
        DrainIsPart(env, r.rx.(sec := reaction.sec), r.rest);
      }
    }
  }

  lemma AfterAfter<S>(a: seq<Message>, b: seq<Message>, t: Trace<S>)
    ensures After(a, After(b, t)) == After(a + b, t)
  {
  }

  lemma AfterInjective<S>(a: seq<Message>, t: Trace<S>, t': Trace<S>)
    ensures After(a, t) == After(a, t') <==> t == t'
  {
    if After(a, t) == After(a, t') {
      assert t.messages == After(a, t).messages[|a|..];
      assert t'.messages == After(a, t').messages[|a|..];
    }
  }

  /** What was drained, and then what the rest gives with later bytes, is what all bytes give. */
  lemma DrainExtends<S>(env: Env<S>, rx: Rx<S>, s: seq<Byte>, more: seq<Byte>)
    ensures var t := Drain(env, rx, s);
            Deliveries(env, rx, s + more) ==
            if t.status != Good then t.(rest := t.rest + more)
            else After(t.messages, Deliveries(env, t.rx, t.rest + more))
  {
    hide Deliveries, Drain;
    DrainIsPart(env, rx, s);
    DeliveriesExtend(env, rx, s, more);
    var t := Drain(env, rx, s);
    if t.status == Good {
      var d := Deliveries(env, t.rx, t.rest);
      DeliveriesExtend(env, t.rx, t.rest, more);
      AfterAfter(t.messages, d.messages, Deliveries(env, d.rx, d.rest + more));
    }
  }

  /** However the bytes are cut into pieces: what was delivered, followed by what the kept bytes still give,
      is what the uncut stream gives. */
  lemma {:induction false} NothingLost<S>(env: Env<S>, rx: Rx<S>, kept: seq<Byte>, pieces: seq<seq<Byte>>)
    ensures var t, all := Receive(env, rx, kept, pieces), Deliveries(env, rx, kept + Flatten(pieces));
            if t.status != Good then all.messages == t.messages && all.status == t.status && all.rx == t.rx
            else all == After(t.messages, Deliveries(env, t.rx, t.rest))
    decreases |pieces|
  {
    hide Deliveries, Drain;
    if pieces == [] {
      assert kept + Flatten(pieces) == kept;
    } else {
      var s, more := kept + pieces[0], Flatten(pieces[1..]);
      assert kept + Flatten(pieces) == s + more;
      var t := Drain(env, rx, s);
      DrainExtends(env, rx, s, more);
      if t.status == Good {
        NothingLost(env, t.rx, t.rest, pieces[1..]);
        var r := Receive(env, t.rx, t.rest, pieces[1..]);
        AfterAfter(t.messages, r.messages, Deliveries(env, r.rx, r.rest));
      }
    }
  }

  /// Chunks without content

  /** No chunk without content is met. */
  predicate Substantial<S>(env: Env<S>, rx: Rx<S>, s: seq<Byte>)
    decreases |s|
  {
    match Take(env, rx, s)
    case Waits => true
    case Halts(_, _, _) => true
    case Skips(_, _) => false
    case Absorbs(rx', rest) => Substantial(env, rx', rest)
    case Gives(message, rx', rest) =>
      var reaction := env.react(rx'.sec, message);
      reaction.status != Good || Substantial(env, rx'.(sec := reaction.sec), rest)
  }

  /** Extraction comes to its end only where no complete chunk waits: the first chunk without content, if
      there is one, is the last complete one. */
  predicate EndsClean<S>(env: Env<S>, rx: Rx<S>, s: seq<Byte>)
    decreases |s|
  {
    match Take(env, rx, s)
    case Waits => true
    case Halts(_, _, _) => true
    case Skips(rx', rest) => Take(env, rx', rest).Waits?
    case Absorbs(rx', rest) => EndsClean(env, rx', rest)
    case Gives(message, rx', rest) =>
      var reaction := env.react(rx'.sec, message);
      reaction.status != Good || EndsClean(env, rx'.(sec := reaction.sec), rest)
  }

  /** Draining is complete exactly if no complete chunk follows a chunk without content. */
  lemma {:induction false} DrainCompleteIff<S>(env: Env<S>, rx: Rx<S>, s: seq<Byte>)
    ensures Drain(env, rx, s) == Deliveries(env, rx, s) <==> EndsClean(env, rx, s)
    decreases |s|
  {
    hide Take;
    var r := Take(env, rx, s);
    if r.Absorbs? {
      DrainCompleteIff(env, r.rx, r.rest);
    } else if r.Gives? {
      var reaction := env.react(r.rx.sec, r.message);
      if reaction.status == Good {
        var rx' := r.rx.(sec := reaction.sec);
        DrainCompleteIff(env, rx', r.rest);
        AfterInjective([r.message], Drain(env, rx', r.rest), Deliveries(env, rx', r.rest));
      }
    }
  }

  lemma {:induction false} SubstantialEndsClean<S>(env: Env<S>, rx: Rx<S>, s: seq<Byte>)
    requires Substantial(env, rx, s)
    ensures EndsClean(env, rx, s)
    decreases |s|
  {
    hide Take;
    var r := Take(env, rx, s);
    if r.Absorbs? {
      SubstantialEndsClean(env, r.rx, r.rest);
    } else if r.Gives? {
      var reaction := env.react(r.rx.sec, r.message);
      if reaction.status == Good { SubstantialEndsClean(env, r.rx.(sec := reaction.sec), r.rest); }
    }
  }

  /** A beginning of the stream, and what remains of the stream after it, hold no empty chunk either. */
  lemma {:induction false} SubstantialParts<S>(env: Env<S>, rx: Rx<S>, s: seq<Byte>, more: seq<Byte>)
    requires Substantial(env, rx, s + more)
    ensures Substantial(env, rx, s)
    ensures var t := Deliveries(env, rx, s);
            t.status == Good ==> Substantial(env, t.rx, t.rest + more)
    decreases |s|
  {
    hide Take;
    var r := Take(env, rx, s);
    if !r.Waits? {
      TakeExtends(env, rx, s, more);
      if r.Absorbs? {
        SubstantialParts(env, r.rx, r.rest, more);
      } else if r.Gives? {
        var reaction := env.react(r.rx.sec, r.message);
        if reaction.status == Good { SubstantialParts(env, r.rx.(sec := reaction.sec), r.rest, more); }
      }
    }
  }

  /** Without empty chunks every way to cut the stream delivers the same messages and ends in the same state. */
  lemma {:induction false} SplitInvariance<S>(env: Env<S>, rx: Rx<S>, kept: seq<Byte>, pieces: seq<seq<Byte>>)
    requires Take(env, rx, kept).Waits? && Substantial(env, rx, kept + Flatten(pieces))
    ensures var t, all := Receive(env, rx, kept, pieces), Deliveries(env, rx, kept + Flatten(pieces));
            && t.messages == all.messages && t.status == all.status && t.rx == all.rx
            && (t.status == Good ==> t.rest == all.rest)
    decreases |pieces|
  {
    hide Take, Drain;
    if pieces == [] {
      assert kept + Flatten(pieces) == kept;
    } else {
      var s, more := kept + pieces[0], Flatten(pieces[1..]);
      assert kept + Flatten(pieces) == s + more;
      SubstantialParts(env, rx, s, more);
      SubstantialEndsClean(env, rx, s);
      DrainCompleteIff(env, rx, s);
      DeliveriesExtend(env, rx, s, more);
      var t := Drain(env, rx, s);
      if t.status == Good {
        EndsWaiting(env, rx, s);
        hide Deliveries, Substantial;
        SplitInvariance(env, t.rx, t.rest, pieces[1..]);
      }
    }
  }

  /** After an uninterrupted run no complete chunk waits. */
  lemma {:induction false} EndsWaiting<S>(env: Env<S>, rx: Rx<S>, s: seq<Byte>)
    requires Deliveries(env, rx, s).status == Good
    ensures var t := Deliveries(env, rx, s); Take(env, t.rx, t.rest).Waits?
    decreases |s|
  {
    hide Take;
    var r := Take(env, rx, s);
    if r.Skips? || r.Absorbs? {
      EndsWaiting(env, r.rx, r.rest);
    } else if r.Gives? {
      EndsWaiting(env, r.rx.(sec := env.react(r.rx.sec, r.message).sec), r.rest);
    }
  }
}
