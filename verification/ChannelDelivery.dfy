/** Limits of the receiver, and delivery from end to end: a sender that numbers and frames its chunks, and a
    receiver that gets the bytes in arbitrary pieces. */
module ChannelDelivery {
  import opened Bytes
  import opened SequenceNumbers
  import opened ChannelSpec
  import opened Options
  import opened Words

  /// The queue splits into the chunks of one request and the others

  lemma {:induction false} SplitLength(queue: seq<Chunk>, id: U32)
    ensures |Own(queue, id)| + |Others(queue, id)| == |queue|
    ensures Length(Own(queue, id)) + Length(Others(queue, id)) == Length(queue)
  {
    if queue != [] {
      var init, c := queue[..|queue| - 1], queue[|queue| - 1];
      SplitLength(init, id);
      LengthSnoc(Own(init, id), c);
      LengthSnoc(Others(init, id), c);
    }
  }

  lemma LengthSnoc(queue: seq<Chunk>, c: Chunk)
    ensures Length(queue + [c]) == Length(queue) + |c.bytes| && Joined(queue + [c]) == Joined(queue) + c.bytes
  {
    assert (queue + [c])[..|queue|] == queue;
  }

  lemma OwnSnoc(queue: seq<Chunk>, c: Chunk, id: U32)
    ensures Own(queue + [c], id) == if c.requestId == id then Own(queue, id) + [c] else Own(queue, id)
    ensures Others(queue + [c], id) == if c.requestId != id then Others(queue, id) + [c] else Others(queue, id)
  {
    assert (queue + [c])[..|queue|] == queue;
  }

  /** Taking out the chunks of one request leaves those of every other request as they were. */
  lemma {:induction false} OtherRequestsKept(queue: seq<Chunk>, id: U32, other: U32)
    ensures Own(Others(queue, id), other) == if other == id then [] else Own(queue, other)
  {
    if queue != [] {
      var init, c := queue[..|queue| - 1], queue[|queue| - 1];
      OtherRequestsKept(init, id, other);
      OwnSnoc(Others(init, id), c, other);
    }
  }

  lemma {:induction false} JoinedLength(queue: seq<Chunk>)
    ensures |Joined(queue)| == Length(queue)
  {
    if queue != [] { JoinedLength(queue[..|queue| - 1]); }
  }

  /// Limits

  predicate NoneEmpty(queue: seq<Chunk>) {
    forall i :: 0 <= i < |queue| ==> queue[i].bytes != []
  }

  predicate WithinLimits(config: Config, queue: seq<Chunk>) {
    && NoneEmpty(queue)
    && (config.localMaxChunkCount != 0 ==> |queue| <= config.localMaxChunkCount)
    && (config.localMaxMessageSize != 0 ==> Length(queue) <= config.localMaxMessageSize)
  }

  predicate MessageWithinLimits(config: Config, m: Message) {
    m.payload != [] && (config.localMaxMessageSize != 0 ==> |m.payload| <= config.localMaxMessageSize)
  }

  lemma {:induction false} OthersNoneEmpty(queue: seq<Chunk>, id: U32)
    requires NoneEmpty(queue)
    ensures NoneEmpty(Others(queue, id)) && NoneEmpty(Own(queue, id))
  {
    if queue != [] { OthersNoneEmpty(queue[..|queue| - 1], id); }
  }

  /** Handling a chunk keeps the queue within the limits, and delivers nothing beyond them. */
  lemma HandleKeepsLimits(config: Config, queue: seq<Chunk>, chunk: Chunk)
    requires WithinLimits(config, queue) && chunk.bytes != []
    ensures var o := Handle(config, queue, chunk);
            && (o.Continue? || o.Deliver? ==> WithinLimits(config, o.queue))
            && (o.Deliver? ==> MessageWithinLimits(config, o.message))
  {
    SplitLength(queue, chunk.requestId);
    OthersNoneEmpty(queue, chunk.requestId);
    JoinedLength(Own(queue, chunk.requestId));
    LengthSnoc(queue, chunk);
    assert WithinLimits(config, []);
    hide Own, Others, Length, Joined;
  }

  /** Whatever bytes arrive: the queue and every delivered message stay within the configured limits. */
  lemma {:induction false} LimitsHold<S>(env: Env<S>, rx: Rx<S>, s: seq<Byte>)
    requires WithinLimits(env.config, rx.queue)
    ensures var t := Deliveries(env, rx, s);
            && WithinLimits(env.config, t.rx.queue)
            && forall i :: 0 <= i < |t.messages| ==> MessageWithinLimits(env.config, t.messages[i])
    decreases |s|
  {
    hide WithinLimits, MessageWithinLimits;
    TakeKeepsLimits(env, rx, s);
    hide Take;
    var r := Take(env, rx, s);
    if r.Skips? || r.Absorbs? {
      LimitsHold(env, r.rx, r.rest);
    } else if r.Gives? {
      var reaction := env.react(r.rx.sec, r.message);
      if reaction.status == Good { LimitsHold(env, r.rx.(sec := reaction.sec), r.rest); }
    }
  }

  lemma TakeKeepsLimits<S>(env: Env<S>, rx: Rx<S>, s: seq<Byte>)
    requires WithinLimits(env.config, rx.queue)
    ensures var r := Take(env, rx, s);
            && (!r.Waits? ==> WithinLimits(env.config, r.rx.queue))
            && (r.Gives? ==> MessageWithinLimits(env.config, r.message))
  {
    hide WithinLimits, MessageWithinLimits, Handle, Unpack;
    var f := NextFrame(env.config, s);
    if f.Complete? {
      var u := Unpack(env, rx.sec, rx.last, s[..f.size]);
      if u.Unpacked? && u.chunk.bytes != [] { HandleKeepsLimits(env.config, rx.queue, u.chunk); }
    }
  }

  /// The sender

  /** A chunk to be sent. */
  datatype Out = Out(messageType: nat, requestId: U32, final: bool, payload: seq<Byte>)

  datatype Ids = Ids(channelId: U32, tokenId: U32)

  const SYM_HEADER: nat := 24

  predicate Sendable(config: Config, o: Out) {
    && (o.messageType == MSG || o.messageType == CLO) && o.payload != []
    && SYM_HEADER + |o.payload| <= config.recvBufferSize && SYM_HEADER + |o.payload| < W32
  }

  predicate AllSendable(config: Config, outs: seq<Out>) {
    outs == [] || (Sendable(config, outs[0]) && AllSendable(config, outs[1..]))
  }

  function ChunkOf(o: Out): Chunk {
    Chunk(o.messageType, if o.final then FINAL else INTERMEDIATE, o.requestId, o.payload)
  }

  /** A chunk on the wire, without encryption. */
  function Encoded(ids: Ids, number: U32, o: Out): (s: seq<Byte>)
    requires o.messageType < 0x100_0000 && SYM_HEADER + |o.payload| < W32
    ensures |s| == SYM_HEADER + |o.payload|
  {
    U32Bytes(o.messageType + (if o.final then FINAL else INTERMEDIATE)) + U32Bytes(SYM_HEADER + |o.payload|)
    + U32Bytes(ids.channelId) + U32Bytes(ids.tokenId) + U32Bytes(number) + U32Bytes(o.requestId) + o.payload
  }

  /** The chunks one after the other, with their sequence numbers. */
  function Wire(config: Config, legacy: bool, ids: Ids, counter: U32, outs: seq<Out>): seq<Byte>
    requires AllSendable(config, outs)
    decreases |outs|
  {
    if outs == [] then []
    else
      Encoded(ids, Emitted(legacy, counter), outs[0])
      + Wire(config, legacy, ids, NextCounter(legacy, counter), outs[1..])
  }

  /** The receiver's security context understands the sender, and serving a message does not change it. */
  ghost predicate Steady<S(!new)>(env: Env<S>, sec: S, ids: Ids) {
    && env.phase(sec) == Open
    && (forall s: seq<Byte> :: |s| >= SYM_HEADER && U32At(s, 8) == ids.channelId && U32At(s, 12) == ids.tokenId
          ==> env.sym(sec, s) == Plain(sec, s[16..]))
    && (forall m :: env.react(sec, m) == Reaction(Good, sec))
  }

  /** The header fields are read back. */
  lemma EncodedFields(ids: Ids, number: U32, o: Out)
    requires o.messageType < 0x100_0000 && SYM_HEADER + |o.payload| < W32
    ensures var s := Encoded(ids, number, o);
            && MessageTypeOf(s) == o.messageType && ChunkTypeOf(s) == ChunkOf(o).chunkType
            && U32At(s, 4) == |s| && U32At(s, 8) == ids.channelId && U32At(s, 12) == ids.tokenId
            && U32At(s[16..], 0) == number && U32At(s[16..], 4) == o.requestId && s[16..][8..] == o.payload
  {
    hide U32At, U32Bytes;
    var a, b, c := U32Bytes(o.messageType + ChunkOf(o).chunkType), U32Bytes(SYM_HEADER + |o.payload|),
      U32Bytes(ids.channelId);
    var d, e, f := U32Bytes(ids.tokenId), U32Bytes(number), U32Bytes(o.requestId);
    var s := Encoded(ids, number, o);
    FieldAt([], a, b + c + d + e + f + o.payload, s);
    FieldAt(a, b, c + d + e + f + o.payload, s);
    FieldAt(a + b, c, d + e + f + o.payload, s);
    FieldAt(a + b + c, d, e + f + o.payload, s);
    assert s[16..] == e + f + o.payload;
    FieldAt([], e, f + o.payload, s[16..]);
    FieldAt(e, f, o.payload, s[16..]);
  }

  lemma FieldAt(p: seq<Byte>, f: seq<Byte>, r: seq<Byte>, s: seq<Byte>)
    requires |f| == 4 && s == p + f + r
    ensures U32At(s, |p|) == U32At(f, 0)
  {
    var i := |p|;
    assert s[i] == f[0] && s[i + 1] == f[1] && s[i + 2] == f[2] && s[i + 3] == f[3];
  }

  /// The queue while the chunks arrive

  function QueueAfter(queue: seq<Chunk>, o: Out): seq<Chunk> {
    if o.final then Others(queue, o.requestId) else queue + [ChunkOf(o)]
  }

  /** Every chunk is within the receiver's limits when it arrives, and of the type of its message. */
  predicate Accepted(config: Config, queue: seq<Chunk>, outs: seq<Out>)
    decreases |outs|
  {
    outs == [] ||
    (Sendable(config, outs[0]) && !Handle(config, queue, ChunkOf(outs[0])).Stop?
     && Accepted(config, QueueAfter(queue, outs[0]), outs[1..]))
  }

  lemma {:induction false} AcceptedIsSendable(config: Config, queue: seq<Chunk>, outs: seq<Out>)
    requires Accepted(config, queue, outs)
    ensures AllSendable(config, outs)
    decreases |outs|
  {
    if outs != [] { AcceptedIsSendable(config, QueueAfter(queue, outs[0]), outs[1..]); }
  }

  /** The messages completed by the chunks, given the chunks that wait. */
  function Assembled(queue: seq<Chunk>, outs: seq<Out>): seq<Message>
    decreases |outs|
  {
    if outs == [] then []
    else
      Due(queue, outs[0]) + Assembled(QueueAfter(queue, outs[0]), outs[1..])
  }

  function QueueAtEnd(queue: seq<Chunk>, outs: seq<Out>): seq<Chunk>
    decreases |outs|
  {
    if outs == [] then queue else QueueAtEnd(QueueAfter(queue, outs[0]), outs[1..])
  }

  function LastNumber(legacy: bool, counter: U32, last: U32, n: nat): U32
    decreases n
  {
    if n == 0 then last else LastNumber(legacy, NextCounter(legacy, counter), Emitted(legacy, counter), n - 1)
  }

  /** One chunk at the front of the stream. */
  lemma TakeEncoded<S(!new)>(env: Env<S>, rx: Rx<S>, ids: Ids, number: U32, o: Out, more: seq<Byte>)
    requires Steady(env, rx.sec, ids) && Sendable(env.config, o) && Accepts(env.legacy(rx.sec), rx.last, number)
    requires !Handle(env.config, rx.queue, ChunkOf(o)).Stop?
    ensures var rx' := Rx(rx.sec, number, QueueAfter(rx.queue, o));
            Take(env, rx, Encoded(ids, number, o) + more) ==
            if o.final
            then Gives(Completed(rx.queue, o), rx', more)
            else Absorbs(rx', more)
  {
    hide Encoded, U32At, Own, Others, Joined, Length;
    var s := Encoded(ids, number, o);
    UnpackEncoded(env, rx, ids, number, o);
    EncodedFields(ids, number, o);
    hide Unpack, Steady;
    assert NextFrame(env.config, s) == Complete(|s|);
    FrameExtends(env.config, s, more);
    assert (s + more)[..|s|] == s && (s + more)[|s|..] == more;
  }

  lemma UnpackEncoded<S(!new)>(env: Env<S>, rx: Rx<S>, ids: Ids, number: U32, o: Out)
    requires Steady(env, rx.sec, ids) && (o.messageType == MSG || o.messageType == CLO)
             && SYM_HEADER + |o.payload| < W32
    requires Accepts(env.legacy(rx.sec), rx.last, number)
    ensures Unpack(env, rx.sec, rx.last, Encoded(ids, number, o)) == Unpacked(rx.sec, number, ChunkOf(o))
  {
    hide Encoded, U32At, MessageTypeOf, ChunkTypeOf, Accepts;
    EncodedFields(ids, number, o);
    assert env.sym(rx.sec, Encoded(ids, number, o)) == Plain(rx.sec, Encoded(ids, number, o)[16..]);
  }

  /** Where the receiver stands after the chunks. */
  function AtEnd<S>(legacy: bool, rx: Rx<S>, counter: U32, outs: seq<Out>): Trace<S> {
    Trace(Assembled(rx.queue, outs), Good,
          Rx(rx.sec, LastNumber(legacy, counter, rx.last, |outs|), QueueAtEnd(rx.queue, outs)), [])
  }

  function Due(queue: seq<Chunk>, o: Out): seq<Message> {
    if o.final then [Completed(queue, o)] else []
  }

  function Completed(queue: seq<Chunk>, o: Out): Message {
    Message(o.messageType, o.requestId, Joined(Own(queue, o.requestId)) + o.payload)
  }

  lemma AtEndStep<S>(legacy: bool, rx: Rx<S>, counter: U32, outs: seq<Out>)
    requires outs != []
    ensures var o, rx' := outs[0], Rx(rx.sec, Emitted(legacy, counter), QueueAfter(rx.queue, outs[0]));
            var t := AtEnd(legacy, rx', NextCounter(legacy, counter), outs[1..]);
            AtEnd(legacy, rx, counter, outs) == if o.final then After([Completed(rx.queue, o)], t) else t
  {
    hide Emitted, NextCounter, Own, Joined, QueueAfter;
  }

  /** The receiver delivers what the chunks assemble to, in any interleaving of requests. */
  lemma {:induction false} WireDelivers<S(!new)>(env: Env<S>, rx: Rx<S>, ids: Ids, counter: U32, outs: seq<Out>)
    requires Steady(env, rx.sec, ids) && InStep(env.legacy(rx.sec), counter, rx.last)
    requires Accepted(env.config, rx.queue, outs) && AllSendable(env.config, outs)
    ensures var s := Wire(env.config, env.legacy(rx.sec), ids, counter, outs);
            Deliveries(env, rx, s) == AtEnd(env.legacy(rx.sec), rx, counter, outs) && Substantial(env, rx, s)
    decreases |outs|
  {
    hide Steady, Emitted, NextCounter, InStep, Accepts, Take, Deliveries, Substantial, QueueAfter, Completed, Handle,
         Encoded;
    TakeNothing(env, rx);
    if outs != [] {
      var legacy, o := env.legacy(rx.sec), outs[0];
      var number, counter' := Emitted(legacy, counter), NextCounter(legacy, counter);
      AtEndStep(legacy, rx, counter, outs);
      hide AtEnd;
      StaysInStep(legacy, counter, rx.last);
      var more := Wire(env.config, legacy, ids, counter', outs[1..]);
      TakeEncoded(env, rx, ids, number, o, more);
      StepOn(env, rx, ids, Encoded(ids, number, o) + more);
      WireDelivers(env, Rx(rx.sec, number, QueueAfter(rx.queue, o)), ids, counter', outs[1..]);
    }
  }

  lemma StepOn<S(!new)>(env: Env<S>, rx: Rx<S>, ids: Ids, s: seq<Byte>)
    requires Steady(env, rx.sec, ids)
    ensures var r := Take(env, rx, s);
            && (r.Absorbs? ==> Deliveries(env, rx, s) == Deliveries(env, r.rx, r.rest)
                               && (Substantial(env, rx, s) <==> Substantial(env, r.rx, r.rest)))
            && (r.Gives? && r.rx.sec == rx.sec
                ==> Deliveries(env, rx, s) == After([r.message], Deliveries(env, r.rx, r.rest))
                    && (Substantial(env, rx, s) <==> Substantial(env, r.rx, r.rest)))
  {
    hide Take;
    var r := Take(env, rx, s);
    if r.Gives? && r.rx.sec == rx.sec {
      assert env.react(rx.sec, r.message) == Reaction(Good, rx.sec);
      assert r.rx.(sec := rx.sec) == r.rx;
    }
  }

  lemma TakeNothing<S>(env: Env<S>, rx: Rx<S>)
    ensures Take(env, rx, []).Waits? && Deliveries(env, rx, []) == Trace([], Good, rx, []) && Substantial(env, rx, [])
  {
  }

  /** Any pieces of the sender's bytes: exactly the assembled messages are delivered, once and in order. */
  lemma InterleavedDelivery<S(!new)>(env: Env<S>, rx: Rx<S>, ids: Ids, counter: U32, outs: seq<Out>,
                              pieces: seq<seq<Byte>>)
    requires Steady(env, rx.sec, ids) && InStep(env.legacy(rx.sec), counter, rx.last)
    requires Accepted(env.config, rx.queue, outs) && AllSendable(env.config, outs)
    requires Flatten(pieces) == Wire(env.config, env.legacy(rx.sec), ids, counter, outs)
    ensures var t := Receive(env, rx, [], pieces);
            && t.messages == Assembled(rx.queue, outs) && t.status == Good && t.rest == []
            && t.rx.queue == QueueAtEnd(rx.queue, outs)
            && t.rx.last == LastNumber(env.legacy(rx.sec), counter, rx.last, |outs|)
  {
    hide Wire, Steady, Accepted, Deliveries, Receive, Take, Substantial;
    WireDelivers(env, rx, ids, counter, outs);
    TakeNothing(env, rx);
    assert [] + Flatten(pieces) == Flatten(pieces);
    SplitInvariance(env, rx, [], pieces);
  }

  /// The messages, said without a queue

  /** What was sent for a request since its last final chunk. */
  function Gathered(outs: seq<Out>, id: U32): seq<Byte> {
    if outs == [] then []
    else
      var init, o := outs[..|outs| - 1], outs[|outs| - 1];
      if o.requestId != id then Gathered(init, id)
      else if o.final then [] else Gathered(init, id) + o.payload
  }

  /** Each final chunk completes the message of its request. */
  function Completions(outs: seq<Out>): seq<Message> {
    if outs == [] then []
    else
      var init, o := outs[..|outs| - 1], outs[|outs| - 1];
      Completions(init)
      + if o.final then [Message(o.messageType, o.requestId, Gathered(init, o.requestId) + o.payload)] else []
  }

  lemma {:induction false} SnocArrives(queue: seq<Chunk>, outs: seq<Out>, o: Out)
    ensures QueueAtEnd(queue, outs + [o]) == QueueAfter(QueueAtEnd(queue, outs), o)
    decreases |outs|
  {
    hide QueueAfter;
    if outs == [] {
      assert outs + [o] == [o] && [o][1..] == [];
    } else {
      assert (outs + [o])[1..] == outs[1..] + [o];
      SnocArrives(QueueAfter(queue, outs[0]), outs[1..], o);
    }
  }

  lemma {:induction false} SnocAssembles(queue: seq<Chunk>, outs: seq<Out>, o: Out)
    ensures Assembled(queue, outs + [o]) == Assembled(queue, outs) + Due(QueueAtEnd(queue, outs), o)
    decreases |outs|
  {
    hide QueueAfter, Due;
    if outs == [] {
      assert outs + [o] == [o] && [o][1..] == [];
    } else {
      assert (outs + [o])[1..] == outs[1..] + [o] && (outs + [o])[0] == outs[0];
      SnocAssembles(QueueAfter(queue, outs[0]), outs[1..], o);
    }
  }

  /** The queue holds, request by request, what was gathered. */
  lemma {:induction false} QueueHoldsGathered(outs: seq<Out>, id: U32)
    ensures Joined(Own(QueueAtEnd([], outs), id)) == Gathered(outs, id)
    decreases |outs|
  {
    if outs != [] {
      var init, o := outs[..|outs| - 1], outs[|outs| - 1];
      assert outs == init + [o];
      SnocArrives([], init, o);
      QueueHoldsGathered(init, id);
      var queue := QueueAtEnd([], init);
      hide QueueAtEnd, Own, Others, Joined, Assembled;
      OwnSnoc(queue, ChunkOf(o), id);
      LengthSnoc(Own(queue, id), ChunkOf(o));
      OtherRequestsKept(queue, o.requestId, id);
      NothingJoined();
    }
  }

  lemma NothingJoined()
    ensures Joined([]) == []
  {
  }

  /** Any interleaving of requests: every final chunk completes exactly what was sent for its request. */
  lemma {:induction false} AssembledIsCompletions(outs: seq<Out>)
    ensures Assembled([], outs) == Completions(outs)
    decreases |outs|
  {
    if outs != [] {
      var init, o := outs[..|outs| - 1], outs[|outs| - 1];
      assert outs == init + [o];
      SnocAssembles([], init, o);
      AssembledIsCompletions(init);
      QueueHoldsGathered(init, o.requestId);
      hide Assembled, QueueAtEnd, Own, Joined, Gathered;
    }
  }

  /// Messages that are sent one after the other

  datatype Msg = Msg(messageType: nat, requestId: U32, parts: seq<seq<Byte>>)

  function Total(parts: seq<seq<Byte>>): seq<Byte> {
    if parts == [] then [] else Total(parts[..|parts| - 1]) + parts[|parts| - 1]
  }

  /** Non-empty parts that fit into chunks, as many and as long as the receiver allows for a message. */
  predicate Allowed(config: Config, m: Msg) {
    && (m.messageType == MSG || m.messageType == CLO) && m.parts != []
    && (forall i :: 0 <= i < |m.parts| ==> m.parts[i] != [] && SYM_HEADER + |m.parts[i]| <= config.recvBufferSize
                                           && SYM_HEADER + |m.parts[i]| < W32)
    && (config.localMaxChunkCount != 0 ==> |m.parts| <= config.localMaxChunkCount)
    && (config.localMaxMessageSize != 0 ==> |Total(m.parts)| <= config.localMaxMessageSize)
  }

  /** The chunks from part `k` on; the last one is final. */
  function Outs(m: Msg, k: nat): (outs: seq<Out>)
    requires k <= |m.parts|
    decreases |m.parts| - k
  {
    if k == |m.parts| then []
    else [Out(m.messageType, m.requestId, k == |m.parts| - 1, m.parts[k])] + Outs(m, k + 1)
  }

  /** The first `k` parts as they wait in the queue. */
  function Waiting(m: Msg, k: nat): seq<Chunk>
    requires k <= |m.parts|
  {
    if k == 0 then [] else Waiting(m, k - 1) + [Chunk(m.messageType, INTERMEDIATE, m.requestId, m.parts[k - 1])]
  }

  lemma {:induction false} WaitingChunks(m: Msg, k: nat)
    requires k <= |m.parts|
    ensures |Waiting(m, k)| == k
    ensures forall c :: c in Waiting(m, k) ==> c.messageType == m.messageType && c.requestId == m.requestId
    decreases k
  {
    if k > 0 { WaitingChunks(m, k - 1); }
  }

  lemma {:induction false} AllOwn(queue: seq<Chunk>, id: U32)
    requires forall c :: c in queue ==> c.requestId == id
    ensures Own(queue, id) == queue && Others(queue, id) == []
  {
    if queue != [] {
      var init, c := queue[..|queue| - 1], queue[|queue| - 1];
      assert queue == init + [c] && c in queue;
      AllOwn(init, id);
    }
  }

  lemma {:induction false} WaitingBytes(m: Msg, k: nat)
    requires k <= |m.parts|
    ensures Joined(Waiting(m, k)) == Total(m.parts[..k]) && Length(Waiting(m, k)) == |Total(m.parts[..k])|
    decreases k
  {
    if k > 0 {
      WaitingBytes(m, k - 1);
      LengthSnoc(Waiting(m, k - 1), Chunk(m.messageType, INTERMEDIATE, m.requestId, m.parts[k - 1]));
      assert m.parts[..k][..k - 1] == m.parts[..k - 1];
      hide Joined, Length;
    }
  }

  lemma {:induction false} BytesGrow(parts: seq<seq<Byte>>, k: nat)
    requires k <= |parts|
    ensures |Total(parts[..k])| <= |Total(parts)|
    decreases |parts|
  {
    if k == |parts| {
      assert parts[..k] == parts;
    } else {
      var init := parts[..|parts| - 1];
      BytesGrow(init, k);
      assert init[..k] == parts[..k];
    }
  }

  function Stream(ms: seq<Msg>): seq<Out> {
    if ms == [] then [] else Outs(ms[0], 0) + Stream(ms[1..])
  }

  function Contents(ms: seq<Msg>): seq<Message> {
    if ms == [] then [] else [Message(ms[0].messageType, ms[0].requestId, Total(ms[0].parts))] + Contents(ms[1..])
  }

  predicate AllAllowed(config: Config, ms: seq<Msg>) {
    ms == [] || (Allowed(config, ms[0]) && AllAllowed(config, ms[1..]))
  }

  lemma {:induction false} OneMessage(config: Config, m: Msg, k: nat, more: seq<Out>)
    requires Allowed(config, m) && k < |m.parts| && Accepted(config, [], more)
    ensures var outs := Outs(m, k) + more;
            && Accepted(config, Waiting(m, k), outs)
            && Assembled(Waiting(m, k), outs)
               == [Message(m.messageType, m.requestId, Total(m.parts))] + Assembled([], more)
            && QueueAtEnd(Waiting(m, k), outs) == QueueAtEnd([], more)
    decreases |m.parts| - k
  {
    var o := Out(m.messageType, m.requestId, k == |m.parts| - 1, m.parts[k]);
    var outs := Outs(m, k) + more;
    assert outs[0] == o && outs[1..] == Outs(m, k + 1) + more;
    PartHandled(config, m, k, o);
    if k + 1 < |m.parts| {
      OneMessage(config, m, k + 1, more);
    } else {
      assert Outs(m, k + 1) + more == more;
    }
    hide Handle, Waiting, Allowed, Own, Others, Joined, QueueAfter, Completed, Total;
  }

  lemma PartHandled(config: Config, m: Msg, k: nat, o: Out)
    requires Allowed(config, m) && k < |m.parts|
    requires o == Out(m.messageType, m.requestId, k == |m.parts| - 1, m.parts[k])
    ensures Sendable(config, o) && !Handle(config, Waiting(m, k), ChunkOf(o)).Stop?
    ensures QueueAfter(Waiting(m, k), o) == if o.final then [] else Waiting(m, k + 1)
    ensures o.final ==> Completed(Waiting(m, k), o) == Message(m.messageType, m.requestId, Total(m.parts))
  {
    WaitingChunks(m, k);
    AllOwn(Waiting(m, k), m.requestId);
    WaitingBytes(m, k);
    BytesGrow(m.parts, k + 1);
    assert m.parts[..k + 1][..k] == m.parts[..k];
    assert m.parts[..|m.parts|] == m.parts;
    hide Own, Others, Joined, Length;
  }

  /** Messages that are split into allowed chunks assemble to themselves. */
  lemma {:induction false} StreamAssembles(config: Config, ms: seq<Msg>)
    requires AllAllowed(config, ms)
    ensures Accepted(config, [], Stream(ms)) && Assembled([], Stream(ms)) == Contents(ms)
            && QueueAtEnd([], Stream(ms)) == []
    decreases |ms|
  {
    if ms != [] {
      StreamAssembles(config, ms[1..]);
      hide Total;
      OneMessage(config, ms[0], 0, Stream(ms[1..]));
      hide Accepted, Assembled, QueueAtEnd;
    }
  }

  lemma StreamSendable(config: Config, ms: seq<Msg>)
    requires AllAllowed(config, ms)
    ensures AllSendable(config, Stream(ms))
  {
    StreamAssembles(config, ms);
    AcceptedIsSendable(config, [], Stream(ms));
  }

  /** End to end: messages that are split into allowed chunks and sent one after the other are delivered
      exactly as sent, once and in order, whatever pieces the bytes arrive in. */
  lemma EndToEnd<S(!new)>(env: Env<S>, rx: Rx<S>, ids: Ids, counter: U32, ms: seq<Msg>, pieces: seq<seq<Byte>>)
    requires Steady(env, rx.sec, ids) && InStep(env.legacy(rx.sec), counter, rx.last) && rx.queue == []
    requires AllAllowed(env.config, ms)
    requires (StreamSendable(env.config, ms);
              Flatten(pieces) == Wire(env.config, env.legacy(rx.sec), ids, counter, Stream(ms)))
    ensures var t := Receive(env, rx, [], pieces);
            t.messages == Contents(ms) && t.status == Good && t.rest == [] && t.rx.queue == []
  {
    hide Steady, InStep, Wire, Receive, AllAllowed, AllSendable;
    StreamSendable(env.config, ms);
    StreamAssembles(env.config, ms);
    hide Stream, Accepted, Assembled, Contents, QueueAtEnd;
    InterleavedDelivery(env, rx, ids, counter, Stream(ms), pieces);
  }

  /// Security policy None

  const BAD_CHANNEL_ID: nat := 0x8022_0000

  /** Nothing is encrypted; only the channel id is compared. */
  function PolicyNone(channelId: U32, s: seq<Byte>): Plain<()> {
    if |s| < MIN_LENGTH || U32At(s, 8) != channelId then Rejected(BAD_CHANNEL_ID) else Plain((), s[16..])
  }

  /** Without security the channel never changes what it checks. */
  lemma PolicyNoneIsSteady(env: Env<()>, ids: Ids)
    requires env.phase(()) == Open && (forall m :: env.react((), m) == Reaction(Good, ()))
    requires forall s :: env.sym((), s) == PolicyNone(ids.channelId, s)
    ensures Steady(env, (), ids)
  {
    forall s: seq<Byte> | |s| >= SYM_HEADER && U32At(s, 8) == ids.channelId && U32At(s, 12) == ids.tokenId
      ensures env.sym((), s) == Plain((), s[16..])
    {
      assert env.sym((), s) == PolicyNone(ids.channelId, s);
    }
  }

  /// A chunk without content

  lemma TakeEmpty<S(!new)>(env: Env<S>, rx: Rx<S>, ids: Ids, number: U32, o: Out, more: seq<Byte>)
    requires Steady(env, rx.sec, ids) && (o.messageType == MSG || o.messageType == CLO) && o.payload == []
    requires Accepts(env.legacy(rx.sec), rx.last, number) && env.config.recvBufferSize >= SYM_HEADER
    ensures Take(env, rx, Encoded(ids, number, o) + more) == Skips(Rx(rx.sec, number, rx.queue), more)
  {
    hide Encoded, U32At, Handle;
    var s := Encoded(ids, number, o);
    UnpackEncoded(env, rx, ids, number, o);
    EncodedFields(ids, number, o);
    hide Unpack, Steady;
    assert NextFrame(env.config, s) == Complete(|s|);
    FrameExtends(env.config, s, more);
    assert (s + more)[..|s|] == s && (s + more)[|s|..] == more;
  }

  /** A message behind an empty chunk in the same buffer waits for the next buffer; cut behind the empty chunk
      the same bytes deliver it at once. */
  lemma EmptyChunkDelays<S(!new)>(env: Env<S>, rx: Rx<S>, ids: Ids, counter: U32, empty: Out, o: Out)
    requires Steady(env, rx.sec, ids) && InStep(env.legacy(rx.sec), counter, rx.last) && rx.queue == []
    requires (empty.messageType == MSG || empty.messageType == CLO) && empty.payload == []
    requires Sendable(env.config, o) && o.final && !Handle(env.config, [], ChunkOf(o)).Stop?
    ensures var legacy := env.legacy(rx.sec);
            var a := Encoded(ids, Emitted(legacy, counter), empty);
            var b := Encoded(ids, Emitted(legacy, NextCounter(legacy, counter)), o);
            && Receive(env, rx, [], [a + b]).messages == []
            && Receive(env, rx, [], [a, b]).messages == [Message(o.messageType, o.requestId, o.payload)]
  {
    hide Take, Encoded, Handle, Sendable, Emitted, NextCounter, InStep, Accepts, Receive, Steady, QueueAfter;
    var legacy := env.legacy(rx.sec);
    var n1, counter' := Emitted(legacy, counter), NextCounter(legacy, counter);
    var n2 := Emitted(legacy, counter');
    StaysInStep(legacy, counter, rx.last);
    StaysInStep(legacy, counter', n1);
    EncodableSizes(env.config, empty, o);
    var a, b := Encoded(ids, n1, empty), Encoded(ids, n2, o);
    var rx' := Rx(rx.sec, n1, []);
    TakeEmpty(env, rx, ids, n1, empty, b);
    TakeEmpty(env, rx, ids, n1, empty, []);
    TakeEncoded(env, rx', ids, n2, o, []);
    assert a + [] == a && b + [] == b && Joined([]) + o.payload == o.payload;
    Delayed(env, rx, rx', ids, a, b);
  }

  lemma EncodableSizes(config: Config, empty: Out, o: Out)
    requires (empty.messageType == MSG || empty.messageType == CLO) && empty.payload == [] && Sendable(config, o)
    ensures config.recvBufferSize >= SYM_HEADER && o.messageType < 0x100_0000 && SYM_HEADER + |o.payload| < W32
  {
  }

  lemma Delayed<S(!new)>(env: Env<S>, rx: Rx<S>, rx': Rx<S>, ids: Ids, a: seq<Byte>, b: seq<Byte>)
    requires Steady(env, rx'.sec, ids) && Take(env, rx, a + b) == Skips(rx', b) && Take(env, rx, a) == Skips(rx', [])
    requires Take(env, rx', b).Gives? && Take(env, rx', b).rest == [] && Take(env, rx', b).rx.sec == rx'.sec
    ensures Receive(env, rx, [], [a + b]).messages == []
    ensures Receive(env, rx, [], [a, b]).messages == [Take(env, rx', b).message]
  {
    hide Take, Drain, Receive, Steady;
    OnePiece(env, rx, a + b);
    DrainSkips(env, rx, a + b);
    DrainSkips(env, rx, a);
    TwoPieces(env, rx, a, b, rx');
    DrainGives(env, rx', ids, b);
  }

  lemma OnePiece<S>(env: Env<S>, rx: Rx<S>, a: seq<Byte>)
    ensures Receive(env, rx, [], [a]).messages == Drain(env, rx, a).messages
  {
    hide Drain;
    assert [] + a == a && [a][1..] == [];
  }

  lemma TwoPieces<S>(env: Env<S>, rx: Rx<S>, a: seq<Byte>, b: seq<Byte>, rx': Rx<S>)
    requires Drain(env, rx, a) == Trace([], Good, rx', [])
    ensures Receive(env, rx, [], [a, b]).messages == Drain(env, rx', b).messages
  {
    hide Drain;
    assert [] + a == a && [a, b][1..] == [b];
    OnePiece(env, rx', b);
  }

  lemma DrainSkips<S>(env: Env<S>, rx: Rx<S>, s: seq<Byte>)
    requires Take(env, rx, s).Skips?
    ensures var r := Take(env, rx, s); Drain(env, rx, s) == Trace([], Good, r.rx, r.rest)
  {
    hide Take;
  }

  lemma DrainGives<S(!new)>(env: Env<S>, rx: Rx<S>, ids: Ids, s: seq<Byte>)
    requires Take(env, rx, s).Gives? && Take(env, rx, s).rest == [] && Take(env, rx, s).rx.sec == rx.sec
             && Steady(env, rx.sec, ids)
    ensures Drain(env, rx, s).messages == [Take(env, rx, s).message]
  {
    var r := Take(env, rx, s);
    assert env.react(rx.sec, r.message) == Reaction(Good, rx.sec);
    assert r.rx.(sec := rx.sec) == r.rx;
    TakeNothing(env, r.rx);
    hide Take;
    assert NextMessage(env, r.rx, []) == Result(Good, None, r.rx, []);
  }
}
