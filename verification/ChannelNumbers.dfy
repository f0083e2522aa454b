/** What the receiver accepts, in octets and numbers: which frames wait or are refused, which fields of a chunk are
    its number and its request, and that the numbers of all chunks taken from any bytes count up. */
module ChannelNumbers {
  import opened Bytes
  import opened ChannelDelivery
  import opened ChannelSpec
  import opened SequenceNumbers

  /// Fields

  /** Octets as a number, the least significant first. */
  function Little(s: seq<Byte>): nat {
    if s == [] then 0 else s[0] as nat + 256 * Little(s[1..])
  }

  lemma FieldIs(s: seq<Byte>, i: nat)
    requires i + 4 <= |s|
    ensures U32At(s, i) == Little(s[i..i + 4])
  {
    var f := s[i..i + 4];
    assert f[1..][1..] == f[2..] && f[2..][1..] == f[3..] && f[3..][1..] == [];
    assert Little(f[3..]) == f[3];
    assert Little(f[2..]) == f[2] as nat + 256 * f[3] as nat;
    assert Little(f[1..]) == f[1] as nat + 256 * (f[2] as nat + 256 * f[3] as nat);
  }

  /** The frame begins with these three characters. */
  predicate Tagged(s: seq<Byte>, tag: string) {
    |s| >= 4 && |tag| == 3 && s[0] == tag[0] as int && s[1] == tag[1] as int && s[2] == tag[2] as int
  }

  predicate Marked(s: seq<Byte>, mark: char) {
    |s| >= 4 && s[3] == mark as int
  }

  /** The types of messages and chunks by their characters. */
  lemma TypesAre(s: seq<Byte>)
    requires |s| >= HEADER
    ensures MessageTypeOf(s) == MSG <==> Tagged(s, "MSG")
    ensures MessageTypeOf(s) == CLO <==> Tagged(s, "CLO")
    ensures MessageTypeOf(s) == OPN <==> Tagged(s, "OPN")
    ensures MessageTypeOf(s) == HEL <==> Tagged(s, "HEL")
    ensures MessageTypeOf(s) == ACK <==> Tagged(s, "ACK")
    ensures MessageTypeOf(s) == ERR <==> Tagged(s, "ERR")
    ensures MessageTypeOf(s) == RHE <==> Tagged(s, "RHE")
    ensures ChunkTypeOf(s) == FINAL <==> Marked(s, 'F')
    ensures ChunkTypeOf(s) == INTERMEDIATE <==> Marked(s, 'C')
    ensures ChunkTypeOf(s) == ABORT <==> Marked(s, 'A')
  {
    TypeNumbers(s[0], s[1], s[2], s[3]);
  }

  lemma TypeNumbers(a: nat, b: nat, c: nat, d: nat)
    requires a < 256 && b < 256 && c < 256 && d < 256
    ensures var n := a + 0x100 * b + 0x1_0000 * c + 0x100_0000 * d;
            n % 0x100_0000 == a + 0x100 * b + 0x1_0000 * c && n - n % 0x100_0000 == 0x100_0000 * d
  {
  }

  /// Frames

  function SizeOf(s: seq<Byte>): nat
    requires |s| >= 8
  {
    Little(s[4..8])
  }

  /** A complete chunk of an allowed size. */
  predicate Whole(config: Config, s: seq<Byte>) {
    |s| >= 8 && 16 <= SizeOf(s) <= config.recvBufferSize && SizeOf(s) <= |s|
  }

  lemma FrameIs(config: Config, s: seq<Byte>)
    ensures NextFrame(config, s) ==
            if |s| < 8 then Frame.Incomplete
            else if SizeOf(s) < 16 then Refused(BadTcpMessageTypeInvalid)
            else if SizeOf(s) > config.recvBufferSize then Refused(BadTcpMessageTooLarge)
            else if SizeOf(s) > |s| then Frame.Incomplete
            else Frame.Complete(SizeOf(s))
  {
    hide U32At, Little;
    if |s| >= 8 { FieldIs(s, 4); }
  }

  /** A frame below 16 octets or above the size of the receive buffer is refused where it stands; otherwise the
      receiver waits exactly as long as it is not complete. */
  lemma FramesTaken<S>(env: Env<S>, rx: Rx<S>, s: seq<Byte>)
    ensures Take(env, rx, s).Waits? <==>
              |s| < 8 || (16 <= SizeOf(s) <= env.config.recvBufferSize && SizeOf(s) > |s|)
    ensures |s| >= 8 && SizeOf(s) < 16 ==> Take(env, rx, s) == Halts(BadTcpMessageTypeInvalid, rx, s)
    ensures |s| >= 8 && SizeOf(s) > env.config.recvBufferSize && SizeOf(s) >= 16
            ==> Take(env, rx, s) == Halts(BadTcpMessageTooLarge, rx, s)
    ensures Whole(env.config, s) ==> Take(env, rx, s).rest == s[SizeOf(s)..]
  {
    hide Unpack, Handle, SizeOf, NextFrame;
    FrameIs(env.config, s);
  }

  /// Chunks of messages

  function FrameOf(s: seq<Byte>): seq<Byte>
    requires |s| >= 8 && SizeOf(s) <= |s|
  {
    s[..SizeOf(s)]
  }

  predicate Secured(s: seq<Byte>) {
    (Tagged(s, "MSG") || Tagged(s, "CLO")) && (Marked(s, 'F') || Marked(s, 'C') || Marked(s, 'A'))
  }

  /** A complete MSG or CLO chunk on an open channel that passes the security checks. */
  predicate SymFrame<S>(env: Env<S>, rx: Rx<S>, s: seq<Byte>) {
    && Whole(env.config, s) && Secured(s) && env.phase(rx.sec) == Open
    && env.sym(rx.sec, FrameOf(s)).Plain? && |env.sym(rx.sec, FrameOf(s)).body| >= 8
  }

  function SymBody<S>(env: Env<S>, rx: Rx<S>, s: seq<Byte>): (b: seq<Byte>)
    requires SymFrame(env, rx, s)
    ensures |b| >= 8
  {
    env.sym(rx.sec, FrameOf(s)).body
  }

  /** The two numbers of the sequence header. */
  function NumberIn(body: seq<Byte>): (n: U32)
    requires |body| >= 8
  {
    FieldIs(body, 0);
    Little(body[0..4])
  }

  function RequestIn(body: seq<Byte>): (n: U32)
    requires |body| >= 8
  {
    FieldIs(body, 4);
    Little(body[4..8])
  }

  /** The number may come behind the last one: it counts on, modulo 2^32; in the legacy scheme it may also start
      again below 1024 once 4294966271 is reached. */
  predicate Follows(legacy: bool, last: nat, number: nat) {
    number == (last + 1) % 0x1_0000_0000 || (legacy && 4294966271 <= last < 4294967295 && number < 1024)
  }

  lemma AcceptsIs(legacy: bool, last: U32, number: U32)
    ensures Accepts(legacy, last, number) <==> Follows(legacy, last, number)
  {
  }

  /** The chunk that is in such a frame. */
  function SymChunk<S>(env: Env<S>, rx: Rx<S>, s: seq<Byte>): Chunk
    requires SymFrame(env, rx, s)
  {
    var body := SymBody(env, rx, s);
    Chunk(Little(s[0..3]), Little(s[3..4]) * 0x100_0000, RequestIn(body), body[8..])
  }

  lemma SymUnpacked<S>(env: Env<S>, rx: Rx<S>, s: seq<Byte>)
    requires SymFrame(env, rx, s)
    ensures |FrameOf(s)| >= MIN_LENGTH
    ensures var body := SymBody(env, rx, s);
            Unpack(env, rx.sec, rx.last, FrameOf(s)) ==
            if Follows(env.legacy(rx.sec), rx.last, NumberIn(body))
            then Unpacked(env.sym(rx.sec, FrameOf(s)).sec, NumberIn(body), SymChunk(env, rx, s))
            else Unpacked.Failed(BadSecurityChecksFailed)
  {
    hide U32At, Little, Accepts, Follows, MessageTypeOf, ChunkTypeOf, SizeOf;
    var frame, body := FrameOf(s), SymBody(env, rx, s);
    TypesAre(frame);
    SameHead(s, |frame|);
    TypeFields(frame);
    assert frame[0..3] == s[0..3] && frame[3..4] == s[3..4];
    FieldIs(body, 0);
    FieldIs(body, 4);
    AcceptsIs(env.legacy(rx.sec), rx.last, NumberIn(body));
  }

  lemma SameHead(s: seq<Byte>, n: nat)
    requires 8 <= n <= |s|
    ensures forall tag :: Tagged(s[..n], tag) <==> Tagged(s, tag)
    ensures forall mark :: Marked(s[..n], mark) <==> Marked(s, mark)
  {
  }

  lemma TypeFields(s: seq<Byte>)
    requires |s| >= HEADER
    ensures MessageTypeOf(s) == Little(s[0..3]) && ChunkTypeOf(s) == Little(s[3..4]) * 0x100_0000
  {
    TypeNumbers(s[0], s[1], s[2], s[3]);
    var a, b := s[0..3], s[3..4];
    assert a[1..][1..] == a[2..] && a[2..][1..] == [] && b[1..] == [];
    assert Little(a[2..]) == a[2] && Little(b) == b[0];
    assert Little(a[1..]) == a[1] as nat + 256 * a[2] as nat;
  }

  /** A number that does not follow the last one stops the receiver, and nothing of the chunk is kept. A number that
      follows is the new last one, whatever becomes of the chunk; only the limits of messages can stop it. */
  lemma NumberChecked<S>(env: Env<S>, rx: Rx<S>, s: seq<Byte>)
    requires SymFrame(env, rx, s)
    ensures var number := NumberIn(SymBody(env, rx, s));
            var r := Take(env, rx, s);
            if !Follows(env.legacy(rx.sec), rx.last, number)
            then r == Halts(BadSecurityChecksFailed, rx, s[SizeOf(s)..])
            else !r.Waits? && r.rx.last == number
                 && (r.Halts? ==> r.status != BadSecurityChecksFailed && r.rx.queue == rx.queue)
  {
    hide Unpack, Handle, SizeOf, NextFrame, Follows, NumberIn, SymChunk;
    FrameIs(env.config, s);
    SymUnpacked(env, rx, s);
    if Follows(env.legacy(rx.sec), rx.last, NumberIn(SymBody(env, rx, s))) {
      HandleStops(env.config, rx.queue, SymChunk(env, rx, s));
    }
  }

  lemma HandleStops(config: Config, queue: seq<Chunk>, chunk: Chunk)
    ensures var o := Handle(config, queue, chunk);
            o.Stop? ==> o.status == BadTcpMessageTooLarge || o.status == BadTcpMessageTypeInvalid
  {
    hide Own, Others, Joined, Length;
  }

  /** What becomes of the chunk: without content it is skipped; an abort drops the whole queue; an intermediate chunk
      joins the queue; a final one completes the message of its request. */
  lemma ChunkTaken<S>(env: Env<S>, rx: Rx<S>, s: seq<Byte>)
    requires SymFrame(env, rx, s)
    requires Follows(env.legacy(rx.sec), rx.last, NumberIn(SymBody(env, rx, s)))
    ensures var body, rest, config := SymBody(env, rx, s), s[SizeOf(s)..], env.config;
            var payload, id := body[8..], RequestIn(body);
            var rx' := Rx(env.sym(rx.sec, FrameOf(s)).sec, NumberIn(body), rx.queue);
            var own, r := Own(rx.queue, id), Take(env, rx, s);
            if payload == [] then r == Skips(rx', rest)
            else if Marked(s, 'A') then r == Absorbs(rx'.(queue := []), rest)
            else if Marked(s, 'C') then
              if (config.localMaxChunkCount != 0 && |rx.queue| >= config.localMaxChunkCount)
                 || (config.localMaxMessageSize != 0 && Length(rx.queue) + |payload| > config.localMaxMessageSize)
              then r == Halts(BadTcpMessageTooLarge, rx', rest)
              else r == Absorbs(rx'.(queue := rx.queue + [SymChunk(env, rx, s)]), rest)
            else if exists i :: 0 <= i < |own| && own[i].messageType != Little(s[0..3])
              then r == Halts(BadTcpMessageTypeInvalid, rx', rest)
            else if config.localMaxMessageSize != 0 && Length(own) + |payload| > config.localMaxMessageSize
              then r == Halts(BadTcpMessageTooLarge, rx', rest)
            else r == Gives(Message(Little(s[0..3]), id, Joined(own) + payload),
                            rx'.(queue := Others(rx.queue, id)), rest)
  {
    hide Unpack, SizeOf, NextFrame, Follows, NumberIn, RequestIn, Own, Others, Joined, Length, Little;
    FrameIs(env.config, s);
    SymUnpacked(env, rx, s);
    MarksAre(s);
  }

  lemma MarksAre(s: seq<Byte>)
    requires |s| >= 4
    ensures Little(s[3..4]) * 0x100_0000 == FINAL <==> Marked(s, 'F')
    ensures Little(s[3..4]) * 0x100_0000 == INTERMEDIATE <==> Marked(s, 'C')
    ensures Little(s[3..4]) * 0x100_0000 == ABORT <==> Marked(s, 'A')
  {
    var b := s[3..4];
    assert b[1..] == [] && Little(b) == b[0];
  }

  /// Other frames

  /** A complete chunk that opens a channel and passes the security checks. */
  predicate OpnFrame<S>(env: Env<S>, rx: Rx<S>, s: seq<Byte>) {
    && Whole(env.config, s) && Tagged(s, "OPN") && Marked(s, 'F') && env.phase(rx.sec) != OtherPhase
    && env.opn(rx.sec, FrameOf(s)).Plain? && |env.opn(rx.sec, FrameOf(s)).body| >= 8
  }

  function OpnBody<S>(env: Env<S>, rx: Rx<S>, s: seq<Byte>): (b: seq<Byte>)
    requires OpnFrame(env, rx, s)
    ensures |b| >= 8
  {
    env.opn(rx.sec, FrameOf(s)).body
  }

  /** It sets the number from which to count, and is delivered under its request. */
  lemma OpeningTaken<S>(env: Env<S>, rx: Rx<S>, s: seq<Byte>)
    requires OpnFrame(env, rx, s)
    ensures var body, r := OpnBody(env, rx, s), Take(env, rx, s);
            && !r.Waits? && r.rx.last == NumberIn(body) && r.rx.sec == env.opn(rx.sec, FrameOf(s)).sec
            && (body[8..] == [] ==> r.Skips? && r.rx.queue == rx.queue)
            && (r.Gives? ==> r.message.requestId == RequestIn(body) && r.message.messageType == Little(s[0..3])
                             && r.message.payload == Joined(Own(rx.queue, RequestIn(body))) + body[8..])
            && !r.Absorbs?
  {
    hide U32At, Little, MessageTypeOf, ChunkTypeOf, SizeOf, NextFrame, Own, Others, Joined, Length;
    FrameIs(env.config, s);
    var frame, body := FrameOf(s), OpnBody(env, rx, s);
    TypesAre(frame);
    SameHead(s, |frame|);
    TypeFields(frame);
    assert frame[0..3] == s[0..3];
    FieldIs(body, 0);
    FieldIs(body, 4);
    assert Unpack(env, rx.sec, rx.last, frame) ==
           Unpacked(env.opn(rx.sec, frame).sec, NumberIn(body),
                    Chunk(Little(s[0..3]), FINAL, RequestIn(body), body[8..]));
    hide Unpack;
  }

  predicate Plainly(s: seq<Byte>) {
    Tagged(s, "HEL") || Tagged(s, "ACK") || Tagged(s, "ERR") || Tagged(s, "RHE")
  }

  /** Chunks that are refused for what their first four octets say, or in the state of the channel. */
  lemma MisfitsRefused<S>(env: Env<S>, rx: Rx<S>, s: seq<Byte>)
    requires Whole(env.config, s)
    ensures var secured, opening := Tagged(s, "MSG") || Tagged(s, "CLO"), Tagged(s, "OPN");
            var halt := Halts(BadTcpMessageTypeInvalid, rx, s[SizeOf(s)..]);
            && (!secured && !opening && !Plainly(s) ==> Take(env, rx, s) == halt)
            && ((opening || Plainly(s)) && !Marked(s, 'F') ==> Take(env, rx, s) == halt)
            && (secured && !Secured(s) ==> Take(env, rx, s) == halt)
            && (secured && Secured(s) && env.phase(rx.sec) != Open
                ==> Take(env, rx, s) == halt.(status := BadInvalidState))
            && (opening && Marked(s, 'F') && env.phase(rx.sec) == OtherPhase
                ==> Take(env, rx, s) == halt.(status := BadInvalidState))
  {
    hide U32At, MessageTypeOf, ChunkTypeOf, SizeOf, NextFrame, Handle, UnpackOpn, UnpackSym;
    FrameIs(env.config, s);
    TypesAre(FrameOf(s));
    SameHead(s, |FrameOf(s)|);
  }

  /** The other messages leave the number alone. */
  lemma PlainTaken<S>(env: Env<S>, rx: Rx<S>, s: seq<Byte>)
    requires Whole(env.config, s) && Plainly(s) && Marked(s, 'F')
    ensures var r := Take(env, rx, s); !r.Waits? && r.rx.last == rx.last && r.rx.sec == rx.sec && !r.Absorbs?
    ensures var r := Take(env, rx, s);
            r.Gives? ==> r.message.requestId == 0 && r.message.messageType == Little(s[0..3])
                         && r.message.payload == Joined(Own(rx.queue, 0)) + s[8..SizeOf(s)]
  {
    hide U32At, Little, MessageTypeOf, ChunkTypeOf, SizeOf, NextFrame, Own, Others, Joined, Length;
    FrameIs(env.config, s);
    var frame := FrameOf(s);
    TypesAre(frame);
    SameHead(s, |frame|);
    TypeFields(frame);
    assert frame[0..3] == s[0..3] && frame[8..] == s[8..SizeOf(s)];
    TagsDiffer(frame);
    assert Unpack(env, rx.sec, rx.last, frame)
           == Unpacked(rx.sec, rx.last, Chunk(Little(s[0..3]), FINAL, 0, frame[8..]));
    hide Unpack;
  }

  lemma TagsDiffer(s: seq<Byte>)
    ensures Plainly(s) ==> !Tagged(s, "MSG") && !Tagged(s, "CLO") && !Tagged(s, "OPN")
  {
  }

  /** Chunks that fail the security checks, or are too short for a sequence header. */
  lemma ChecksRefused<S>(env: Env<S>, rx: Rx<S>, s: seq<Byte>)
    requires Whole(env.config, s) && Secured(s) && env.phase(rx.sec) == Open && !SymFrame(env, rx, s)
    ensures var plain := env.sym(rx.sec, FrameOf(s));
            Take(env, rx, s) ==
            Halts(if plain.Rejected? then BadOther(plain.code) else BadDecodingError, rx, s[SizeOf(s)..])
  {
    hide U32At, MessageTypeOf, ChunkTypeOf, SizeOf, NextFrame, Handle;
    FrameIs(env.config, s);
    TypesAre(FrameOf(s));
    SameHead(s, |FrameOf(s)|);
  }

  /// Runs

  /** A chunk that was taken: whether it opened the channel, the scheme at that time, and its number. */
  datatype Entry = Entry(opening: bool, legacy: bool, number: U32)

  function Noted<S>(env: Env<S>, rx: Rx<S>, s: seq<Byte>): seq<Entry> {
    if SymFrame(env, rx, s) then [Entry(false, env.legacy(rx.sec), NumberIn(SymBody(env, rx, s)))]
    else if OpnFrame(env, rx, s) then [Entry(true, env.legacy(rx.sec), NumberIn(OpnBody(env, rx, s)))]
    else []
  }

  /** The chunks that an uninterrupted run takes from the bytes, in order. */
  function Log<S>(env: Env<S>, rx: Rx<S>, s: seq<Byte>): seq<Entry>
    decreases |s|
  {
    match Take(env, rx, s)
    case Waits => []
    case Halts(_, _, _) => []
    case Skips(rx', rest) => Noted(env, rx, s) + Log(env, rx', rest)
    case Absorbs(rx', rest) => Noted(env, rx, s) + Log(env, rx', rest)
    case Gives(message, rx', rest) =>
      var reaction := env.react(rx'.sec, message);
      Noted(env, rx, s)
      + if reaction.status != Good then [] else Log(env, rx'.(sec := reaction.sec), rest)
  }

  /** Every number follows the one before it, but for those that open the channel. */
  predicate Counts(last: nat, log: seq<Entry>)
    decreases |log|
  {
    log == [] ||
    ((log[0].opening || Follows(log[0].legacy, last, log[0].number)) && Counts(log[0].number, log[1..]))
  }

  function LastOf(last: U32, log: seq<Entry>): U32 {
    if log == [] then last else log[|log| - 1].number
  }

  /** A step that goes on has taken the chunk that is noted, with a number that follows. */
  lemma StepNoted<S>(env: Env<S>, rx: Rx<S>, s: seq<Byte>)
    ensures var r, noted := Take(env, rx, s), Noted(env, rx, s);
            r.Skips? || r.Absorbs? || r.Gives?
            ==> |noted| <= 1 && Counts(rx.last, noted) && r.rx.last == LastOf(rx.last, noted)
                && (noted == [] ==> Whole(env.config, s) && Plainly(s))
  {
    hide Take, NumberIn, Follows, SymFrame, OpnFrame, Plainly, Whole, Secured;
    var r := Take(env, rx, s);
    if r.Skips? || r.Absorbs? || r.Gives? {
      GoesOnAs(env, rx, s);
      if SymFrame(env, rx, s) {
        NumberChecked(env, rx, s);
      } else if OpnFrame(env, rx, s) {
        OpeningTaken(env, rx, s);
      } else {
        PlainTaken(env, rx, s);
      }
    }
  }

  /** Only three kinds of frames let the receiver go on. */
  lemma GoesOnAs<S>(env: Env<S>, rx: Rx<S>, s: seq<Byte>)
    requires var r := Take(env, rx, s); r.Skips? || r.Absorbs? || r.Gives?
    ensures SymFrame(env, rx, s) || OpnFrame(env, rx, s) || (Whole(env.config, s) && Plainly(s) && Marked(s, 'F'))
  {
    hide U32At, MessageTypeOf, ChunkTypeOf, SizeOf, NextFrame, Handle;
    FrameIs(env.config, s);
    if Whole(env.config, s) {
      TypesAre(FrameOf(s));
      SameHead(s, |FrameOf(s)|);
    }
  }

  /** From any bytes: the numbers of the chunks taken count up, and the last of them is what the receiver
      remembers. */
  lemma {:induction false} NumbersCount<S>(env: Env<S>, rx: Rx<S>, s: seq<Byte>)
    ensures Counts(rx.last, Log(env, rx, s))
    ensures var t := Deliveries(env, rx, s); t.status == Good ==> t.rx.last == LastOf(rx.last, Log(env, rx, s))
    decreases |s|
  {
    hide Take, Noted, Follows, Counts, LastOf;
    var r := Take(env, rx, s);
    NoEntries(rx.last);
    StepNoted(env, rx, s);
    if r.Skips? || r.Absorbs? {
      NumbersCount(env, r.rx, r.rest);
      CountsOn(rx.last, Noted(env, rx, s), Log(env, r.rx, r.rest));
    } else if r.Gives? {
      var reaction := env.react(r.rx.sec, r.message);
      if reaction.status == Good {
        var rx' := r.rx.(sec := reaction.sec);
        NumbersCount(env, rx', r.rest);
        CountsOn(rx.last, Noted(env, rx, s), Log(env, rx', r.rest));
      } else {
        assert Noted(env, rx, s) + [] == Noted(env, rx, s);
      }
    }
  }

  lemma NoEntries(last: U32)
    ensures Counts(last, []) && LastOf(last, []) == last
  {
  }

  lemma CountsOn(last: U32, noted: seq<Entry>, log: seq<Entry>)
    requires |noted| <= 1 && Counts(last, noted) && Counts(LastOf(last, noted), log)
    ensures Counts(last, noted + log) && LastOf(last, noted + log) == LastOf(LastOf(last, noted), log)
  {
    hide Follows;
    if noted == [] {
      assert noted + log == log;
    } else {
      assert (noted + log)[1..] == log;
    }
  }

  /// No chunk twice

  /** Neither an opening nor the legacy scheme. */
  predicate Full(log: seq<Entry>) {
    forall i :: 0 <= i < |log| ==> !log[i].opening && !log[i].legacy
  }

  /** In the full scheme the numbers are consecutive modulo 2^32. */
  lemma {:induction false} FullIsConsecutive(last: nat, log: seq<Entry>, i: nat)
    requires Counts(last, log) && Full(log) && i < |log| && last < 0x1_0000_0000
    ensures log[i].number == (last + 1 + i) % 0x1_0000_0000
    decreases i
  {
    if i > 0 {
      FullIsConsecutive(log[0].number, log[1..], i - 1);
      assert log[1..][i - 1] == log[i];
      Wraps(last, i);
    }
  }

  lemma Wraps(last: nat, i: nat)
    requires last < 0x1_0000_0000 && i > 0
    ensures ((last + 1) % 0x1_0000_0000 + 1 + (i - 1)) % 0x1_0000_0000 == (last + 1 + i) % 0x1_0000_0000
  {
  }

  /** A number that was taken is refused when it comes again: in the full scheme whenever it is not older than 2^32
      chunks. */
  lemma ReplayRefused<S>(env: Env<S>, rx: Rx<S>, s: seq<Byte>, i: nat, again: seq<Byte>)
    requires var log, t := Log(env, rx, s), Deliveries(env, rx, s);
             && t.status == Good && Full(log) && i < |log| < i + 0x1_0000_0000
             && SymFrame(env, t.rx, again) && !env.legacy(t.rx.sec)
             && NumberIn(SymBody(env, t.rx, again)) == log[i].number
    ensures var t := Deliveries(env, rx, s);
            Take(env, t.rx, again) == Halts(BadSecurityChecksFailed, t.rx, again[SizeOf(again)..])
  {
    hide Deliveries, Log, Take, SymFrame, NumberIn, SizeOf, Counts;
    var log, t := Log(env, rx, s), Deliveries(env, rx, s);
    NumbersCount(env, rx, s);
    FullIsConsecutive(rx.last, log, i);
    FullIsConsecutive(rx.last, log, |log| - 1);
    NumberChecked(env, t.rx, again);
  }

  /** In both schemes a chunk that comes twice in a row is refused the second time. */
  lemma RepeatRefused<S>(env: Env<S>, rx: Rx<S>, s: seq<Byte>, again: seq<Byte>)
    requires SymFrame(env, rx, s) && !Take(env, rx, s).Halts? && !Take(env, rx, s).Waits?
    requires SymFrame(env, Take(env, rx, s).rx, again)
    requires NumberIn(SymBody(env, Take(env, rx, s).rx, again)) == NumberIn(SymBody(env, rx, s))
    ensures var rx' := Take(env, rx, s).rx;
            Take(env, rx', again) == Halts(BadSecurityChecksFailed, rx', again[SizeOf(again)..])
  {
    hide Take, SymFrame, NumberIn, SizeOf;
    NumberChecked(env, rx, s);
    NumberChecked(env, Take(env, rx, s).rx, again);
  }

  /// The sender

  /** The octets of a chunk that is sent. */
  lemma EncodedOctets(ids: Ids, number: U32, o: Out)
    requires (o.messageType == MSG || o.messageType == CLO) && SYM_HEADER + |o.payload| < 0x1_0000_0000
    ensures var s := Encoded(ids, number, o);
            && Tagged(s, if o.messageType == MSG then "MSG" else "CLO") && Marked(s, if o.final then 'F' else 'C')
            && |s| == 24 + |o.payload| && Little(s[4..8]) == |s| && Little(s[8..12]) == ids.channelId
            && Little(s[12..16]) == ids.tokenId && Little(s[16..20]) == number && Little(s[20..24]) == o.requestId
            && s[24..] == o.payload
  {
    hide U32At, Little, Encoded, MessageTypeOf, ChunkTypeOf;
    var s := Encoded(ids, number, o);
    EncodedFields(ids, number, o);
    TypesAre(s);
    FieldIs(s, 4);
    FieldIs(s, 8);
    FieldIs(s, 12);
    FieldIs(s[16..], 0);
    FieldIs(s[16..], 4);
    assert s[16..][0..4] == s[16..20] && s[16..][4..8] == s[20..24] && s[16..][8..] == s[24..];
  }
}
