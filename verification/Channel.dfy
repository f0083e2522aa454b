/** The secure channel as an object: the receive buffer, the queue of chunks and the sequence numbers are
    fields that each operation updates. Chunks refer to the receive buffer until they are copied. */
module Channel {
  import opened Bytes
  import opened SequenceNumbers
  import opened ChannelSpec
  import opened Options
  import opened ChannelDelivery
  import opened Words

  /** Memory of a chunk: its own copy, or a range of the receive buffer. */
  datatype Memory = Owned(data: seq<Byte>) | View(from: nat, length: nat)

  datatype Queued = Queued(messageType: nat, chunkType: nat, requestId: U32, bytes: Memory)

  /// Reading chunks

  predicate Lies(b: Memory, limit: nat) {
    b.View? ==> b.from + b.length <= limit
  }

  function Content(b: Memory, buffer: seq<Byte>): seq<Byte>
    requires Lies(b, |buffer|)
  {
    match b
    case Owned(data) => data
    case View(from, length) => buffer[from..from + length]
  }

  function Value(c: Queued, buffer: seq<Byte>): Chunk
    requires Lies(c.bytes, |buffer|)
  {
    Chunk(c.messageType, c.chunkType, c.requestId, Content(c.bytes, buffer))
  }

  /** All chunks lie before `limit`. */
  predicate AllLie(chunks: seq<Queued>, limit: nat) {
    forall i :: 0 <= i < |chunks| ==> Lies(chunks[i].bytes, limit)
  }

  function Values(chunks: seq<Queued>, buffer: seq<Byte>): (q: seq<Chunk>)
    requires AllLie(chunks, |buffer|)
    ensures |q| == |chunks|
  {
    if chunks == [] then []
    else Values(chunks[..|chunks| - 1], buffer) + [Value(chunks[|chunks| - 1], buffer)]
  }

  lemma ValuesSnoc(chunks: seq<Queued>, c: Queued, buffer: seq<Byte>)
    requires AllLie(chunks, |buffer|) && Lies(c.bytes, |buffer|)
    ensures AllLie(chunks + [c], |buffer|)
            && Values(chunks + [c], buffer) == Values(chunks, buffer) + [Value(c, buffer)]
  {
    assert (chunks + [c])[..|chunks|] == chunks;
  }

  /** Only the bytes that chunks refer to matter. */
  lemma {:induction false} ValuesKept(chunks: seq<Queued>, limit: nat, b: seq<Byte>, b': seq<Byte>)
    requires AllLie(chunks, limit) && limit <= |b| && limit <= |b'| && b[..limit] == b'[..limit]
    ensures Values(chunks, b) == Values(chunks, b')
  {
    if chunks != [] {
      ValuesKept(chunks[..|chunks| - 1], limit, b, b');
      var c := chunks[|chunks| - 1].bytes;
      if c.View? {
        assert b[..limit][c.from..c.from + c.length] == b[c.from..c.from + c.length];
        assert b'[..limit][c.from..c.from + c.length] == b'[c.from..c.from + c.length];
      }
    }
  }

  lemma {:induction false} ValuesAt(chunks: seq<Queued>, buffer: seq<Byte>, i: nat)
    requires AllLie(chunks, |buffer|) && i <= |chunks|
    ensures AllLie(chunks[..i], |buffer|) && Values(chunks, buffer)[..i] == Values(chunks[..i], buffer)
    ensures i < |chunks| ==> Values(chunks, buffer)[i] == Value(chunks[i], buffer)
    decreases |chunks|
  {
    if i == |chunks| {
      assert chunks[..i] == chunks;
    } else {
      var n := |chunks| - 1;
      ValuesAt(chunks[..n], buffer, i);
      assert chunks[..n][..i] == chunks[..i];
    }
  }

  /// Taking the chunks of a request out of the queue

  function Remaining(chunks: seq<Queued>, id: U32): (r: seq<Queued>)
    ensures |r| <= |chunks|
  {
    if chunks == [] then []
    else
      var r := Remaining(chunks[..|chunks| - 1], id);
      if chunks[|chunks| - 1].requestId != id then r + [chunks[|chunks| - 1]] else r
  }

  lemma RemainingSnoc(chunks: seq<Queued>, c: Queued, id: U32)
    ensures Remaining(chunks + [c], id) == Remaining(chunks, id) + if c.requestId != id then [c] else []
  {
    assert (chunks + [c])[..|chunks|] == chunks;
  }

  lemma {:induction false} RemainingLies(chunks: seq<Queued>, id: U32, limit: nat)
    requires AllLie(chunks, limit)
    ensures AllLie(Remaining(chunks, id), limit)
  {
    if chunks != [] { RemainingLies(chunks[..|chunks| - 1], id, limit); }
  }

  lemma {:induction false} RemainingValues(chunks: seq<Queued>, id: U32, buffer: seq<Byte>)
    requires AllLie(chunks, |buffer|) && AllLie(Remaining(chunks, id), |buffer|)
    ensures Values(Remaining(chunks, id), buffer) == Others(Values(chunks, buffer), id)
  {
    if chunks != [] {
      var init, c := chunks[..|chunks| - 1], chunks[|chunks| - 1];
      RemainingLies(init, id, |buffer|);
      RemainingValues(init, id, buffer);
      OwnSnoc(Values(init, buffer), Value(c, buffer), id);
      ValuesSnoc(Remaining(init, id), c, buffer);
    }
  }

  lemma {:induction false} InOwn(queue: seq<Chunk>, id: U32, c: Chunk)
    ensures c in Own(queue, id) <==> c in queue && c.requestId == id
  {
    if queue != [] {
      var init, d := queue[..|queue| - 1], queue[|queue| - 1];
      assert queue == init + [d];
      InOwn(init, id, c);
    }
  }

  /** In-place decryption. */
  function Overwritten(buffer: seq<Byte>, at: nat, data: seq<Byte>): (r: seq<Byte>)
    requires at + |data| <= |buffer|
    ensures |r| == |buffer| && r[at..at + |data|] == data && r[..at] == buffer[..at]
            && r[at + |data|..] == buffer[at + |data|..]
  {
    buffer[..at] + data + buffer[at + |data|..]
  }

  /** Unpacking only ever shortens the content of a chunk. */
  ghost predicate Shortening<S(!new)>(env: Env<S>) {
    && (forall sec: S, s: seq<Byte> :: env.sym(sec, s).Plain? ==> |env.sym(sec, s).body| <= |s|)
    && (forall sec: S, s: seq<Byte> :: env.opn(sec, s).Plain? ==> |env.opn(sec, s).body| <= |s|)
  }

  class SecureChannel<S(!new)> {
    const env: Env<S>

    var sec: S
    var receiveSequenceNumber: U32
    var sendSequenceNumber: U32

    var chunks: seq<Queued>
    var chunksCount: nat
    var chunksLength: nat

    var unprocessed: seq<Byte>
    var unprocessedOffset: nat
    var unprocessedCopied: bool

    /** The counters are true, and the chunks lie before the bytes that wait. */
    ghost predicate Valid()
      reads this
    {
      && Shortening(env)
      && unprocessedOffset <= |unprocessed| && AllLie(chunks, unprocessedOffset)
      && chunksCount == |chunks| && chunksLength == Length(Queue()) && WithinLimits(env.config, Queue())
    }

    ghost function Queue(): seq<Chunk>
      requires unprocessedOffset <= |unprocessed| && AllLie(chunks, unprocessedOffset)
      reads this
    {
      Values(chunks, unprocessed)
    }

    ghost function State(): Rx<S>
      requires Valid()
      reads this
    {
      Rx(sec, receiveSequenceNumber, Queue())
    }

    ghost function Pending(): seq<Byte>
      requires Valid()
      reads this
    {
      unprocessed[unprocessedOffset..]
    }

    /** Nothing refers to the memory of the network layer. */
    predicate Persisted()
      reads this
    {
      && (forall i :: 0 <= i < |chunks| ==> chunks[i].bytes.Owned?)
      && unprocessedOffset == 0 && (unprocessed != [] ==> unprocessedCopied)
    }

    constructor (env: Env<S>, sec: S)
      requires Shortening(env)
      ensures Valid() && Persisted() && this.env == env
      ensures State() == Rx(sec, 0, []) && Pending() == [] && sendSequenceNumber == 0
    {
      this.env, this.sec := env, sec;
      receiveSequenceNumber, sendSequenceNumber := 0, 0;
      chunks, chunksCount, chunksLength := [], 0, 0;
      unprocessed, unprocessedOffset, unprocessedCopied := [], 0, false;
    }

    /// Sequence numbers

    /** The number of the next chunk. */
    method NextSequenceNumber() returns (number: U32)
      modifies this`sendSequenceNumber
      ensures number == Emitted(env.legacy(sec), old(sendSequenceNumber))
      ensures sendSequenceNumber == NextCounter(env.legacy(sec), old(sendSequenceNumber))
    {
      var next: nat := sendSequenceNumber + 1;
      if env.legacy(sec) {
        if next > ROLLOVER { next := 1; }
        sendSequenceNumber := next;
        return sendSequenceNumber;
      }
      if next > W32 - 1 { next := 0; }
      sendSequenceNumber := next;
      number := if sendSequenceNumber == 0 then W32 - 1 else sendSequenceNumber - 1;
    }

    /** Checks the number of a chunk against the last one. */
    method ProcessSequenceNumber(number: U32) returns (status: Status)
      modifies this`receiveSequenceNumber
      ensures Accepts(env.legacy(sec), old(receiveSequenceNumber), number)
              ==> status == Good && receiveSequenceNumber == number
      ensures !Accepts(env.legacy(sec), old(receiveSequenceNumber), number)
              ==> status == BadSecurityChecksFailed && receiveSequenceNumber == old(receiveSequenceNumber)
    {
      if number != (receiveSequenceNumber + 1) % W32 {
        if !env.legacy(sec) || (receiveSequenceNumber + 1) % W32 <= ROLLOVER || number >= 1024 {
          return BadSecurityChecksFailed;
        }
        receiveSequenceNumber := (number + W32 - 1) % W32;
      }
      receiveSequenceNumber := (receiveSequenceNumber + 1) % W32;
      status := Good;
    }

    /** A chunk on the wire, with the next sequence number. */
    method EncodeChunk(ids: Ids, o: Out) returns (s: seq<Byte>)
      requires o.messageType < 0x100_0000 && SYM_HEADER + |o.payload| < W32
      modifies this`sendSequenceNumber
      ensures s == Encoded(ids, Emitted(env.legacy(sec), old(sendSequenceNumber)), o)
      ensures sendSequenceNumber == NextCounter(env.legacy(sec), old(sendSequenceNumber))
    {
      var kind := o.messageType;
      if o.final { kind := kind + FINAL; } else { kind := kind + INTERMEDIATE; }
      var number := NextSequenceNumber();
      s := U32Bytes(kind) + U32Bytes(SYM_HEADER + |o.payload|) + U32Bytes(ids.channelId) + U32Bytes(ids.tokenId)
           + U32Bytes(number) + U32Bytes(o.requestId) + o.payload;
    }

    /// The receive buffer

    /** Appends a buffer of the network layer, without copying it if nothing is pending. */
    method LoadBuffer(buffer: seq<Byte>)
      requires Valid() && Persisted()
      modifies this`unprocessed, this`unprocessedCopied
      ensures Valid() && State() == old(State()) && Pending() == old(Pending()) + buffer
    {
      ghost var before := unprocessed;
      if |unprocessed| > 0 {
        unprocessed := unprocessed + buffer;
      } else {
        unprocessed, unprocessedCopied := buffer, false;
      }
      ValuesKept(chunks, 0, before, unprocessed);
    }

    /** Copies everything that still refers to the network layer's memory. */
    method PersistBuffer()
      requires Valid()
      modifies this`chunks, this`unprocessed, this`unprocessedOffset, this`unprocessedCopied
      ensures Valid() && Persisted() && State() == old(State()) && Pending() == old(Pending())
    {
      hide WithinLimits, Shortening, Length, Values;
      CopyChunks();
      CopyUnprocessed();
    }

    /** Copies the pending bytes. */
    method CopyUnprocessed()
      requires Valid() && (forall i :: 0 <= i < |chunks| ==> chunks[i].bytes.Owned?)
      modifies this`unprocessed, this`unprocessedOffset, this`unprocessedCopied
      ensures Valid() && Persisted() && State() == old(State()) && Pending() == old(Pending())
    {
      hide WithinLimits, Shortening, Length, Values;
      ghost var before, pending := unprocessed, Pending();
      assert AllLie(chunks, 0);
      if |unprocessed| == unprocessedOffset {
        unprocessed, unprocessedOffset := [], 0;
      } else {
        unprocessed := unprocessed[unprocessedOffset..];
        unprocessedOffset, unprocessedCopied := 0, true;
      }
      assert unprocessed == pending;
      ValuesKept(chunks, 0, before, unprocessed);
    }

    /** Copies the queued chunks that point into the buffer. */
    method CopyChunks()
      requires Valid()
      modifies this`chunks
      ensures Valid() && State() == old(State()) && (forall i :: 0 <= i < |chunks| ==> chunks[i].bytes.Owned?)
    {
      ghost var before := Queue();
      for i := 0 to |chunks|
        invariant |chunks| == old(|chunks|) && AllLie(chunks, unprocessedOffset) && Queue() == before
        invariant forall k :: 0 <= k < i ==> chunks[k].bytes.Owned?
      {
        var c := chunks[i];
        if c.bytes.View? {
          ghost var was := chunks;
          chunks := chunks[i := c.(bytes := Owned(Content(c.bytes, unprocessed)))];
          SameValues(was, chunks, i, unprocessed);
        }
      }
    }

    /// Extracting chunks

    ghost predicate Extracted(u: Unpacked<S>, rx: Rx<S>, status: Status, chunk: Option<Queued>)
      requires Valid()
      reads this
    {
      match u
      case Failed(code) => status == code && chunk.None? && State() == rx
      case Unpacked(sec', last, c) =>
        && status == Good && State() == Rx(sec', last, rx.queue)
        && chunk.Some? && Lies(chunk.value.bytes, unprocessedOffset) && Value(chunk.value, unprocessed) == c
    }

    /** Checks the sequence header of an unpacked chunk and hides it; `start` is where the chunk begins. */
    method UnpackBody(plain: Plain<S>, t: nat, c: nat, opening: bool, start: nat)
      returns (status: Status, chunk: Option<Queued>)
      requires Valid() && start <= unprocessedOffset && AllLie(chunks, start)
      requires plain.Plain? ==> |plain.body| <= unprocessedOffset - start
      modifies this`sec, this`receiveSequenceNumber, this`unprocessed
      ensures Valid() && Pending() == old(Pending())
      ensures Extracted(if opening then UnpackOpn(plain, t, c)
                        else UnpackSym(env.legacy(old(sec)), plain, old(receiveSequenceNumber), t, c),
                        old(State()), status, chunk)
    {
      hide WithinLimits, Shortening, Length, Accepts, U32At;
      if plain.Rejected? { return BadOther(plain.code), None; }
      var body := plain.body;
      if |body| < 8 { return BadDecodingError, None; }
      if opening {
        receiveSequenceNumber := U32At(body, 0);
      } else {
        status := ProcessSequenceNumber(U32At(body, 0));
        if status != Good { return status, None; }
      }
      ghost var before := unprocessed;
      var at := unprocessedOffset - |body|;
      unprocessed := Overwritten(unprocessed, at, body);
      ValuesKept(chunks, start, before, unprocessed);
      sec := plain.sec;
      ghost var payload := unprocessed[at + 8..at + |body|];
      assert payload == unprocessed[at..at + |body|][8..];
      status, chunk := Good, Some(Queued(t, c, U32At(body, 4), View(at + 8, |body| - 8)));
    }

    /** Takes the complete chunk `frame` out of the buffer and unpacks it. */
    method UnpackFrame(frame: seq<Byte>, t: nat, c: nat) returns (status: Status, chunk: Option<Queued>)
      requires Valid() && MIN_LENGTH <= |frame| && unprocessedOffset + |frame| <= |unprocessed|
      requires frame == unprocessed[unprocessedOffset..unprocessedOffset + |frame|]
      requires t == MessageTypeOf(frame) && c == ChunkTypeOf(frame)
      modifies this`sec, this`receiveSequenceNumber, this`unprocessed, this`unprocessedOffset
      ensures Valid() && Pending() == old(Pending())[|frame|..]
      ensures Extracted(Unpack(env, old(sec), old(receiveSequenceNumber), frame), old(State()), status, chunk)
    {
      hide WithinLimits, Length, U32At, Extracted, UnpackOpn, UnpackSym, MessageTypeOf, ChunkTypeOf;
      var start := unprocessedOffset;
      unprocessedOffset := start + |frame|;
      assert Valid() && State() == old(State());
      if t == OPN {
        if c != FINAL { status, chunk := Refuse(BadTcpMessageTypeInvalid); return; }
        if env.phase(sec) == OtherPhase { status, chunk := Refuse(BadInvalidState); return; }
        status, chunk := UnpackBody(env.opn(sec, frame), t, c, true, start);
      } else if t == MSG || t == CLO {
        if c != FINAL && c != INTERMEDIATE && c != ABORT { status, chunk := Refuse(BadTcpMessageTypeInvalid); return; }
        if env.phase(sec) != Open { status, chunk := Refuse(BadInvalidState); return; }
        status, chunk := UnpackBody(env.sym(sec, frame), t, c, false, start);
      } else if t == RHE || t == HEL || t == ACK || t == ERR {
        if c != FINAL { status, chunk := Refuse(BadTcpMessageTypeInvalid); return; }
        status, chunk := WholeBody(t, c, start, frame);
      } else {
        status, chunk := Refuse(BadTcpMessageTypeInvalid);
      }
    }

    method Refuse(code: Status) returns (status: Status, chunk: Option<Queued>)
      requires Valid() && code != Good
      ensures Extracted(Failed(code), State(), status, chunk)
    {
      status, chunk := code, None;
    }

    /** Hides the message header. */
    method WholeBody(t: nat, c: nat, start: nat, frame: seq<Byte>) returns (status: Status, chunk: Option<Queued>)
      requires Valid() && HEADER <= |frame| && unprocessedOffset == start + |frame|
               && frame == unprocessed[start..start + |frame|]
      ensures Extracted(Unpacked(sec, receiveSequenceNumber, Chunk(t, c, 0, frame[HEADER..])), State(), status, chunk)
    {
      hide WithinLimits, Length, Shortening;
      status, chunk := Good, Some(Queued(t, c, 0, View(start + HEADER, |frame| - HEADER)));
      assert frame[HEADER..] == unprocessed[start + HEADER..start + |frame|];
    }

    /** Takes the next chunk out of the pending bytes, if it is complete. */
    method ExtractCompleteChunk() returns (status: Status, chunk: Option<Queued>)
      requires Valid()
      modifies this`sec, this`receiveSequenceNumber, this`unprocessed, this`unprocessedOffset
      ensures Valid()
      ensures match NextFrame(env.config, old(Pending()))
              case Incomplete => status == Good && chunk.None? && State() == old(State()) && Pending() == old(Pending())
              case Refused(code) => status == code && chunk.None? && State() == old(State())
                && Pending() == old(Pending())
              case Complete(size) =>
                && Pending() == old(Pending())[size..]
                && Extracted(Unpack(env, old(sec), old(receiveSequenceNumber), old(Pending())[..size]), old(State()),
                             status, chunk)
    {
      hide WithinLimits, Length, Accepts, U32At, Extracted, UnpackOpn, UnpackSym;
      var start := unprocessedOffset;
      var remaining := |unprocessed| - start;
      if remaining < HEADER { return Good, None; }
      ghost var pending := Pending();
      HeaderInside(unprocessed, start);
      var kind, size := U32At(unprocessed, start), U32At(unprocessed, start + 4);
      var t := kind % 0x100_0000;
      var c := kind - t;
      if size < MIN_LENGTH { return BadTcpMessageTypeInvalid, None; }
      if size > env.config.recvBufferSize { return BadTcpMessageTooLarge, None; }
      if size > remaining { return Good, None; }
      var frame := unprocessed[start..start + size];
      assert frame == pending[..size];
      HeaderInside(unprocessed, start);
      FrameHeader(pending, size);
      status, chunk := UnpackFrame(frame, t, c);
    }

    /// Assembling messages

    /** The size of the message that `id` and the final chunk make, or its type error. */
    method MessageSize(id: U32, t: nat, length: nat) returns (mixed: bool, size: nat)
      requires Valid()
      ensures mixed <==> Mixed(Queue(), id, t)
      ensures !mixed ==> size == Length(Own(Queue(), id)) + length
    {
      ghost var queue := Queue();
      TakeNone(chunks, queue, id);
      hide WithinLimits, Shortening, Own, Length, Values, Mixed;
      MixedPrefix(queue, 0, id, t);
      size := length;
      for i := 0 to |chunks|
        invariant !Mixed(queue[..i], id, t) && size == Length(Own(queue[..i], id)) + length
      {
        var c := chunks[i];
        TakeStepValues(chunks, unprocessed, i, id);
        MixedPrefix(queue, i, id, t);
        if c.requestId == id {
          if c.messageType != t { return true, 0; }
          size := size + |Content(c.bytes, unprocessed)|;
        }
      }
      assert queue[..|chunks|] == queue;
      mixed := false;
    }

    /** Moves the content of the chunks of `id` into a message. */
    method TakeChunks(id: U32) returns (message: seq<Byte>)
      requires Valid()
      modifies this`chunks, this`chunksCount, this`chunksLength
      ensures Valid() && message == Joined(Own(old(Queue()), id)) && Queue() == Others(old(Queue()), id)
    {
      ghost var all, j := chunks, 0;
      var i := 0;
      message := [];
      TakingStarts(all, unprocessed, id);
      hide WithinLimits, Shortening, Values, AllLie, Taking, Length, Own, Others, Joined;
      while i < |chunks|
        invariant Taking(all, unprocessed, id, j, i, chunks, chunksCount, chunksLength, message)
        decreases |all| - j
      {
        var c := chunks[i];
        TakingStep(all, unprocessed, id, j, i, chunks, chunksCount, chunksLength, message);
        if c.requestId != id {
          i := i + 1;
        } else {
          var data := Content(c.bytes, unprocessed);
          message := message + data;
          chunksCount := chunksCount - 1;
          chunksLength := chunksLength - |data|;
          chunks := chunks[..i] + chunks[i + 1..];
        }
        j := j + 1;
      }
      TakingEnds(all, unprocessed, id, j, i, chunks, chunksCount, chunksLength, message);
      TakeAll(all, unprocessed, id, unprocessedOffset, env.config);
    }

    /** Puts the message together that a final chunk completes. */
    method AssembleMessage(chunk: Queued) returns (status: Status, message: Option<Message>)
      requires Valid() && Lies(chunk.bytes, unprocessedOffset) && chunk.chunkType == FINAL
      modifies this`chunks, this`chunksCount, this`chunksLength
      ensures Valid()
      ensures match Handle(env.config, old(Queue()), old(Value(chunk, unprocessed)))
              case Stop(code) => status == code && message.None? && Queue() == old(Queue())
              case Continue(_) => false
              case Deliver(m, queue) => status == Good && message == Some(m) && Queue() == queue
    {
      hide Shortening, WithinLimits, Values, Own, Others, Joined, Length, Mixed;
      ghost var queue := Queue();
      var id, t, data := chunk.requestId, chunk.messageType, Content(chunk.bytes, unprocessed);
      MixedOwn(queue, id, t);
      var mixed, size := MessageSize(id, t, |data|);
      if mixed { return BadTcpMessageTypeInvalid, None; }
      if env.config.localMaxMessageSize != 0
        && size > env.config.localMaxMessageSize { return BadTcpMessageTooLarge, None; }
      if size > |data| {
        var earlier := TakeChunks(id);
        data := earlier + data;
      } else {
        LimitsMeanNoneEmpty(env.config, queue);
        NoOwn(queue, id);
        assert [] + data == data;
      }
      status, message := Good, Some(Message(t, id, data));
    }

    /** Appends an intermediate chunk to the queue if the limits allow it. */
    method QueueChunk(chunk: Queued) returns (status: Status)
      requires Valid() && Lies(chunk.bytes, unprocessedOffset) && chunk.chunkType == INTERMEDIATE
      requires Content(chunk.bytes, unprocessed) != []
      modifies this`chunks, this`chunksCount, this`chunksLength
      ensures Valid()
      ensures match Handle(env.config, old(Queue()), old(Value(chunk, unprocessed)))
              case Stop(code) => status == code && code != Good && Queue() == old(Queue())
              case Continue(queue) => status == Good && Queue() == queue
              case Deliver(_, _) => false
    {
      hide Shortening, Values, Own, Others, Joined, Length;
      ghost var queue, c := Queue(), Value(chunk, unprocessed);
      var length := |Content(chunk.bytes, unprocessed)|;
      if (env.config.localMaxChunkCount != 0 && chunksCount >= env.config.localMaxChunkCount)
         || (env.config.localMaxMessageSize != 0 && chunksLength + length > env.config.localMaxMessageSize)
      {
        return BadTcpMessageTooLarge;
      }
      HandleKeepsLimits(env.config, queue, c);
      LengthSnoc(queue, c);
      ValuesSnoc(chunks, chunk, unprocessed);
      hide WithinLimits;
      chunks := chunks + [chunk];
      chunksCount := chunksCount + 1;
      chunksLength := chunksLength + length;
      status := Good;
    }

    /** Drops all queued chunks. */
    method DeleteChunks()
      requires Valid()
      modifies this`chunks, this`chunksCount, this`chunksLength
      ensures Valid() && Queue() == []
    {
      hide Shortening;
      chunks, chunksCount, chunksLength := [], 0, 0;
    }

    /** What one step on the stream leaves behind. */
    ghost predicate Stepped(r: Step<S>, rx: Rx<S>, s: seq<Byte>, status: Status, message: Option<Message>, again: bool)
      requires Valid()
      reads this
    {
      match r
      case Waits => status == Good && message.None? && !again && State() == rx && Pending() == s
      case Halts(code, rx', rest) => status == code && message.None? && !again && State() == rx' && Pending() == rest
      case Skips(rx', rest) => status == Good && message.None? && !again && State() == rx' && Pending() == rest
      case Absorbs(rx', rest) => again && State() == rx' && Pending() == rest
      case Gives(m, rx', rest) => status == Good && message == Some(m) && !again && State() == rx' && Pending() == rest
    }

    /** One round: the next chunk is queued, completes a message, or drops the queue. */
    method ProcessChunk() returns (status: Status, message: Option<Message>, again: bool)
      requires Valid()
      modifies this`sec, this`receiveSequenceNumber, this`unprocessed, this`unprocessedOffset,
               this`chunks, this`chunksCount, this`chunksLength
      ensures Valid() && Stepped(Take(env, old(State()), old(Pending())), old(State()), old(Pending()), status,
                                 message, again)
    {
      hide Shortening, WithinLimits, Values, Length, Unpack, Handle, NextFrame, AllLie;
      ghost var rx, pending := State(), Pending();
      var chunk;
      status, chunk := ExtractCompleteChunk();
      if chunk.None? { return status, None, false; }
      var c := chunk.value;
      ghost var size := NextFrame(env.config, pending).size;
      UnpackedType(env, rx.sec, rx.last, pending[..size]);
      if Content(c.bytes, unprocessed) == [] { return Good, None, false; }
      HandleAbort(env.config, rx.queue, Value(c, unprocessed));
      if c.chunkType == ABORT {
        DeleteChunks();
        return Good, None, true;
      }
      if c.chunkType == INTERMEDIATE {
        status := QueueChunk(c);
        return status, None, status == Good;
      }
      status, message := AssembleMessage(c);
      again := false;
    }

    /** The next complete message, if there is one. */
    method GetCompleteMessage() returns (status: Status, message: Option<Message>)
      requires Valid()
      modifies this`sec, this`receiveSequenceNumber, this`unprocessed, this`unprocessedOffset,
               this`chunks, this`chunksCount, this`chunksLength
      ensures Valid()
      ensures NextMessage(env, old(State()), old(Pending())) == Result(status, message, State(), Pending())
    {
      hide Valid, Take;
      status, message := Good, None;
      var again := true;
      while again
        invariant Valid()
        invariant again ==> NextMessage(env, State(), Pending()) == NextMessage(env, old(State()), old(Pending()))
        invariant !again
                  ==> NextMessage(env, old(State()), old(Pending())) == Result(status, message, State(), Pending())
        decreases again, |Pending()|
      {
        status, message, again := ProcessChunk();
      }
    }

    /// The loop around it

    /** One message for the application, which may change the security context. */
    method ServeNext() returns (status: Status, served: seq<Message>, more: bool)
      requires Valid()
      modifies this`sec, this`receiveSequenceNumber, this`unprocessed, this`unprocessedOffset,
               this`chunks, this`chunksCount, this`chunksLength
      ensures Valid()
      ensures var t := Drain(env, old(State()), old(Pending()));
              if more then |Pending()| < old(|Pending()|) && status == Good
                && t == After(served, Drain(env, State(), Pending()))
              else t == Trace(served, status, State(), Pending())
    {
      hide Valid, NextMessage;
      var message;
      status, message := GetCompleteMessage();
      if status != Good || message.None? { return status, [], false; }
      var reaction := env.react(sec, message.value);
      SetSecurity(reaction.sec);
      status, served, more := reaction.status, [message.value], reaction.status == Good;
    }

    /** Serves messages until none is complete. */
    method ServeAll() returns (status: Status, served: seq<Message>)
      requires Valid()
      modifies this`sec, this`receiveSequenceNumber, this`unprocessed, this`unprocessedOffset,
               this`chunks, this`chunksCount, this`chunksLength
      ensures Valid()
      ensures Drain(env, old(State()), old(Pending())) == Trace(served, status, State(), Pending())
    {
      hide Valid, Drain;
      status, served := Good, [];
      var more := true;
      while more
        invariant Valid()
        invariant var t := Drain(env, old(State()), old(Pending()));
                  if more then t == After(served, Drain(env, State(), Pending()))
                  else t == Trace(served, status, State(), Pending())
        decreases more, |Pending()|
      {
        var next;
        ghost var rest := Drain(env, State(), Pending());
        status, next, more := ServeNext();
        AfterAfter(served, next, Drain(env, State(), Pending()));
        served := served + next;
      }
    }

    /** One buffer from the network: load it, serve all messages, keep the rest. */
    method Receive(buffer: seq<Byte>) returns (status: Status, served: seq<Message>)
      requires Valid() && Persisted()
      modifies this`sec, this`receiveSequenceNumber, this`unprocessed, this`unprocessedOffset, this`unprocessedCopied,
               this`chunks, this`chunksCount, this`chunksLength
      ensures Valid() && Persisted()
      ensures Drain(env, old(State()), old(Pending()) + buffer) == Trace(served, status, State(), Pending())
    {
      hide Valid, Drain;
      LoadBuffer(buffer);
      status, served := ServeAll();
      PersistBuffer();
    }

    method SetSecurity(sec': S)
      requires Valid()
      modifies this`sec
      ensures Valid() && State() == old(State()).(sec := sec') && Pending() == old(Pending())
    {
      sec := sec';
    }
  }

  lemma UnpackedType<S>(env: Env<S>, sec: S, last: U32, frame: seq<Byte>)
    requires |frame| >= MIN_LENGTH
    ensures var u := Unpack(env, sec, last, frame);
            u.Unpacked?
            ==> u.chunk.chunkType == FINAL || u.chunk.chunkType == INTERMEDIATE || u.chunk.chunkType == ABORT
  {
    hide MessageTypeOf, ChunkTypeOf, U32At, Accepts;
  }

  lemma HandleAbort(config: Config, queue: seq<Chunk>, c: Chunk)
    ensures c.chunkType == ABORT ==> Handle(config, queue, c) == Continue([])
  {
  }

  lemma LimitsMeanNoneEmpty(config: Config, queue: seq<Chunk>)
    requires WithinLimits(config, queue)
    ensures NoneEmpty(queue)
  {
  }

  /** A queue of chunks with content has no bytes for a request only if it has no chunk for it. */
  lemma {:induction false} NoOwn(queue: seq<Chunk>, id: U32)
    requires NoneEmpty(queue) && Length(Own(queue, id)) == 0
    ensures Joined(Own(queue, id)) == [] && Others(queue, id) == queue
  {
    if queue != [] {
      var init, c := queue[..|queue| - 1], queue[|queue| - 1];
      assert queue == init + [c];
      OwnSnoc(init, c, id);
      LengthSnoc(Own(init, id), c);
      NoOwn(init, id);
    }
  }

  /** The queue `all` is walked up to `j`: what is kept so far, then the rest; `i` is the place in the queue. */
  ghost predicate Taking(all: seq<Queued>, buffer: seq<Byte>, id: U32, j: nat, i: nat,
                         chunks: seq<Queued>, count: nat, length: nat, message: seq<Byte>)
    requires AllLie(all, |buffer|)
  {
    var queue := Values(all, buffer);
    && j <= |all| && i == |Remaining(all[..j], id)| && chunks == Remaining(all[..j], id) + all[j..]
    && count == |chunks| && message == Joined(Own(queue[..j], id))
    && length == Length(queue) - Length(Own(queue[..j], id))
  }

  lemma TakingStarts(all: seq<Queued>, buffer: seq<Byte>, id: U32)
    requires AllLie(all, |buffer|)
    ensures Taking(all, buffer, id, 0, 0, all, |all|, Length(Values(all, buffer)), [])
  {
    TakeNone(all, Values(all, buffer), id);
  }

  lemma TakingStep(all: seq<Queued>, buffer: seq<Byte>, id: U32, j: nat, i: nat,
                   chunks: seq<Queued>, count: nat, length: nat, message: seq<Byte>)
    requires AllLie(all, |buffer|) && Taking(all, buffer, id, j, i, chunks, count, length, message) && i < |chunks|
    ensures j < |all| && Lies(chunks[i].bytes, |buffer|)
    ensures chunks[i].requestId != id ==> Taking(all, buffer, id, j + 1, i + 1, chunks, count, length, message)
    ensures chunks[i].requestId == id ==>
              var data := Content(chunks[i].bytes, buffer);
              && count >= 1 && length >= |data|
              && Taking(all, buffer, id, j + 1, i, chunks[..i] + chunks[i + 1..], count - 1, length - |data|,
                        message + data)
  {
    TakeStep(all, j, id);
    TakeStepValues(all, buffer, j, id);
    hide Remaining, Values, Own, Joined, Length;
  }

  lemma TakingEnds(all: seq<Queued>, buffer: seq<Byte>, id: U32, j: nat, i: nat,
                   chunks: seq<Queued>, count: nat, length: nat, message: seq<Byte>)
    requires AllLie(all, |buffer|) && Taking(all, buffer, id, j, i, chunks, count, length, message) && i >= |chunks|
    ensures var queue := Values(all, buffer);
            && chunks == Remaining(all, id) && count == |chunks|
            && message == Joined(Own(queue, id)) && length == Length(queue) - Length(Own(queue, id))
  {
    var queue := Values(all, buffer);
    assert all[..j] == all && queue[..j] == queue;
  }

  lemma TakeNone(all: seq<Queued>, queue: seq<Chunk>, id: U32)
    ensures Remaining(all[..0], id) == [] && [] + all[0..] == all
    ensures Own(queue[..0], id) == [] && Joined([]) == [] && Length([]) == 0
  {
  }

  /** The queue between two removals. */
  lemma TakeStep(all: seq<Queued>, j: nat, id: U32)
    requires j < |all|
    ensures var r := Remaining(all[..j], id);
            var now := r + all[j..];
            && now[|r|] == all[j] && now[..|r|] + now[|r| + 1..] == r + all[j + 1..]
            && now == r + [all[j]] + all[j + 1..]
            && Remaining(all[..j + 1], id) == r + if all[j].requestId != id then [all[j]] else []
  {
    RemainingSnoc(all[..j], all[j], id);
    assert all[..j + 1] == all[..j] + [all[j]];
  }

  lemma TakeStepValues(all: seq<Queued>, buffer: seq<Byte>, j: nat, id: U32)
    requires j < |all| && AllLie(all, |buffer|)
    ensures var queue := Values(all, buffer);
            Lies(all[j].bytes, |buffer|) && queue[j] == Value(all[j], buffer) && OwnStepped(queue, j, id)
  {
    ValuesAt(all, buffer, j);
    hide Values, OwnStepped;
    OwnStep(Values(all, buffer), j, id);
  }

  predicate OwnStepped(queue: seq<Chunk>, j: nat, id: U32)
    requires j < |queue|
  {
    var own, own' := Own(queue[..j], id), Own(queue[..j + 1], id);
    && (queue[j].requestId != id ==> own' == own)
    && (queue[j].requestId == id
        ==> Joined(own') == Joined(own) + queue[j].bytes && Length(own') == Length(own) + |queue[j].bytes|)
    && Length(own') <= Length(queue)
  }

  lemma OwnStep(queue: seq<Chunk>, j: nat, id: U32)
    requires j < |queue|
    ensures OwnStepped(queue, j, id)
  {
    hide Own, Joined, Length;
    OwnSnoc(queue[..j], queue[j], id);
    LengthSnoc(Own(queue[..j], id), queue[j]);
    assert queue[..j + 1] == queue[..j] + [queue[j]];
    OwnFits(queue, j + 1, id);
  }

  lemma {:induction false} OwnFits(queue: seq<Chunk>, j: nat, id: U32)
    requires j <= |queue|
    ensures Length(Own(queue[..j], id)) <= Length(queue)
    decreases |queue|
  {
    if j == |queue| {
      assert queue[..j] == queue;
      SplitLength(queue, id);
    } else {
      var n := |queue| - 1;
      OwnFits(queue[..n], j, id);
      assert queue[..n][..j] == queue[..j];
    }
  }

  lemma TakeAll(all: seq<Queued>, buffer: seq<Byte>, id: U32, limit: nat, config: Config)
    requires AllLie(all, limit) && limit <= |buffer| && WithinLimits(config, Values(all, buffer))
    ensures var rest, queue := Remaining(all, id), Values(all, buffer);
            && AllLie(rest, limit) && Values(rest, buffer) == Others(queue, id)
            && Length(Others(queue, id)) == Length(queue) - Length(Own(queue, id))
            && WithinLimits(config, Others(queue, id))
  {
    RemainingLies(all, id, limit);
    RemainingValues(all, id, buffer);
    var queue := Values(all, buffer);
    hide Values, Remaining;
    SplitLength(queue, id);
    OthersNoneEmpty(queue, id);
    hide Own, Others, Length;
  }

  /** A chunk of the request has another type. */
  predicate Mixed(queue: seq<Chunk>, id: U32, t: nat) {
    exists i :: 0 <= i < |queue| && queue[i].requestId == id && queue[i].messageType != t
  }

  lemma MixedPrefix(queue: seq<Chunk>, i: nat, id: U32, t: nat)
    requires i <= |queue|
    ensures !Mixed(queue[..0], id, t) && (Mixed(queue[..i], id, t) ==> Mixed(queue, id, t))
    ensures i < |queue| ==> (Mixed(queue[..i + 1], id, t) <==>
                             Mixed(queue[..i], id, t) || (queue[i].requestId == id && queue[i].messageType != t))
    ensures i < |queue| && queue[i].requestId == id && queue[i].messageType != t ==> Mixed(queue, id, t)
  {
  }

  lemma MixedOwn(queue: seq<Chunk>, id: U32, t: nat)
    ensures Mixed(queue, id, t) <==> exists i :: 0 <= i < |Own(queue, id)| && Own(queue, id)[i].messageType != t
  {
    var own := Own(queue, id);
    if Mixed(queue, id, t) {
      var i :| 0 <= i < |queue| && queue[i].requestId == id && queue[i].messageType != t;
      InOwn(queue, id, queue[i]);
      var k :| 0 <= k < |own| && own[k] == queue[i];
      assert own[k].messageType != t;
    }
    if i :| 0 <= i < |own| && own[i].messageType != t {
      InOwn(queue, id, own[i]);
    }
  }

  lemma FrameHeader(pending: seq<Byte>, size: nat)
    requires HEADER <= size <= |pending|
    ensures U32At(pending[..size], 0) == U32At(pending, 0)
  {
  }

  lemma HeaderInside(buffer: seq<Byte>, start: nat)
    requires start + HEADER <= |buffer|
    ensures U32At(buffer[start..], 0) == U32At(buffer, start) && U32At(buffer[start..], 4) == U32At(buffer, start + 4)
  {
  }

  /** Replacing a chunk by one with the same content. */
  lemma {:induction false} SameValues(a: seq<Queued>, b: seq<Queued>, i: nat, buffer: seq<Byte>)
    requires AllLie(a, |buffer|) && AllLie(b, |buffer|) && i < |a| == |b| && b == a[i := b[i]]
    requires Value(a[i], buffer) == Value(b[i], buffer)
    ensures Values(a, buffer) == Values(b, buffer)
    decreases |a|
  {
    var n := |a| - 1;
    if i < n {
      assert b[..n] == a[..n][i := b[i]];
      SameValues(a[..n], b[..n], i, buffer);
    } else {
      assert b[..n] == a[..n];
    }
  }
}
