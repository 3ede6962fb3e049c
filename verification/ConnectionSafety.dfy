/** What one end of a connection keeps at every step, whatever its peer and the network do. */
module ConnectionSafety {
  import opened Bytes
  import opened Framing
  import opened Handshake
  import opened ConnectionSpec

  // ---- The writing side ----

  function HandshakeBytes(c: Conn): seq<Byte> {
    if c.handshakeWrite == Unsent then [] else ToBytes(c.handshakeOut, 8)
  }

  /** All the bytes this end is to send for what has been posted so far. */
  function Stream(c: Conn): seq<Byte> {
    HandshakeBytes(c) + Frames(c.posted)
  }

  function BytesLeft(c: Conn): seq<Byte> {
    HandshakeBytesLeft(c.handshakeWrite) + MessageBytesLeft(c.write)
  }

  /** The part of the front message that has been passed to a write operation. */
  function Issued(c: Conn): seq<Byte>
    requires c.write.HeaderWrite? || c.write.BodyWrite? ==> c.out != []
  {
    match c.write
    case HeaderWrite(_) => Header(c.out[0])
    case BodyWrite(_) => Frame(c.out[0])
    case _ => []
  }

  function DoneCount(c: Conn): int {
    |c.posted| - |c.out|
  }

  /**
   The queue is the tail of what was posted, and a write is in flight exactly while it is not
   empty, unless one has failed; then the socket is closed.
   */
  ghost predicate QueueOk(c: Conn) {
    && DoneCount(c) >= 0
    && c.out == c.posted[DoneCount(c)..]
    && (c.write.NoWrite? <==> c.out == [])
    && (c.write.WriteFailed? || c.handshakeWrite.HandshakeFailed? ==> !c.open)
    && (c.owner == ClientEnd && c.posted != [] ==> c.handshakeWrite == Sent || c.handshakeWrite.HandshakeFailed?)
    && (c.handshakeWrite == Unsent ==> c.owner == ClientEnd)
  }

  /** What was written and what the operations in flight still have to write is what was issued. */
  ghost predicate Balanced(c: Conn)
    requires QueueOk(c)
  {
    && !c.write.WriteFailed? && !c.handshakeWrite.HandshakeFailed?
    && c.wrote + BytesLeft(c) == HandshakeBytes(c) + (Frames(c.posted[..DoneCount(c)]) + Issued(c))
    && (HandshakeBytesLeft(c.handshakeWrite) != [] ==>
          DoneCount(c) == 0 && (c.write.NoWrite? || c.write == HeaderWrite(Header(c.out[0]))))
  }

  ghost predicate WriterOk(c: Conn) {
    QueueOk(c) && (Balanced(c) || (!c.open && c.wrote <= Stream(c)))
  }

  lemma IssuedIsPosted(c: Conn)
    requires QueueOk(c)
    ensures Frames(c.posted[..DoneCount(c)]) + Issued(c) <= Frames(c.posted)
  {
    var n := DoneCount(c);
    if c.out == [] {
      assert c.posted[..n] == c.posted;
    } else {
      assert c.posted == c.posted[..n + 1] + c.posted[n + 1..];
      FramesConcat(c.posted[..n + 1], c.posted[n + 1..]);
      assert c.posted[..n + 1][..n] == c.posted[..n];
      assert c.posted[n] == c.out[0];
    }
  }

  lemma PrefixOfConcat(p: seq<Byte>, rest: seq<Byte>, h: seq<Byte>, a: seq<Byte>, b: seq<Byte>)
    requires p + rest == h + a && a <= b
    ensures p <= h + b
  {
    assert p <= h + a;
  }

  /** Nothing is ever written but the handshake and, in order, the posted messages. */
  lemma WrotePrefix(c: Conn)
    requires WriterOk(c)
    ensures c.wrote <= Stream(c)
  {
    if Balanced(c) {
      IssuedIsPosted(c);
      PrefixOfConcat(c.wrote, BytesLeft(c), HandshakeBytes(c),
                     Frames(c.posted[..DoneCount(c)]) + Issued(c), Frames(c.posted));
    }
  }

  lemma MoveFront(wrote: seq<Byte>, next: seq<Byte>, rest: seq<Byte>, n: nat)
    requires n <= |next|
    ensures (wrote + next[..n]) + (next[n..] + rest) == wrote + (next + rest)
  {
    assert next == next[..n] + next[n..];
  }

  lemma BalancedWrites(c: Conn, n: nat)
    requires WriterOk(c) && c.open && n <= |NextBytes(c)|
    ensures WriterOk(WriteSome(c, n))
  {
    var d := WriteSome(c, n);
    var h, m := HandshakeBytesLeft(c.handshakeWrite), MessageBytesLeft(c.write);
    assert d.wrote + BytesLeft(d) == c.wrote + BytesLeft(c) by {
      if h != [] {
        MoveFront(c.wrote, h, m, n);
      } else {
        MoveFront(c.wrote, m, [], n);
        assert BytesLeft(d) == m[n..] + [] && BytesLeft(c) == m + [];
      }
    }
    assert HandshakeBytes(d) == HandshakeBytes(c) && Issued(d) == Issued(c);
    hide Frames, Header;
    assert QueueOk(d);
  }

  lemma AppendBoth(wrote: seq<Byte>, left: seq<Byte>, h: seq<Byte>, done: seq<Byte>, x: seq<Byte>)
    requires wrote + left == h + done
    ensures wrote + (left + x) == h + (done + x)
  {
    assert wrote + (left + x) == (wrote + left) + x;
    assert h + (done + x) == (h + done) + x;
  }

  lemma PopDone(c: Conn)
    requires QueueOk(c) && c.out != []
    ensures QueueOk(PopFront(c)) && DoneCount(PopFront(c)) == DoneCount(c) + 1
    ensures Frames(c.posted[..DoneCount(c) + 1]) == Frames(c.posted[..DoneCount(c)]) + Frame(c.out[0])
  {
    var n := DoneCount(c);
    assert c.posted[..n + 1][..n] == c.posted[..n] && c.posted[n] == c.out[0];
  }

  lemma PopKeeps(c: Conn)
    requires QueueOk(c) && Balanced(c) && c.out != [] && BytesLeft(c) == []
    requires Issued(c) == Frame(c.out[0])
    ensures QueueOk(PopFront(c)) && Balanced(PopFront(c))
  {
    var d := PopFront(c);
    PopDone(c);
    assert HandshakeBytesLeft(d.handshakeWrite) == [] by {
      assert |BytesLeft(c)| == |HandshakeBytesLeft(c.handshakeWrite)| + |MessageBytesLeft(c.write)|;
    }
    hide Frames, Header, Frame;
    AppendBoth(c.wrote, [], HandshakeBytes(c), Frames(d.posted[..DoneCount(d)]), Issued(d));
    assert BytesLeft(d) == [] + Issued(d);
  }

  lemma StreamGrows(c: Conn, msg: Msg)
    requires QueueOk(c)
    ensures Stream(c) <= Stream(Send(c, msg))
  {
    var d := Send(c, msg);
    assert d.posted[..|c.posted|] == c.posted;
    assert Stream(d) == Stream(c) + Frame(msg);
  }

  lemma SendQueue(c: Conn, msg: Msg)
    requires QueueOk(c) && (c.owner == ClientEnd ==> c.handshakeWrite == Sent)
    ensures var d := Send(c, msg);
      && QueueOk(d) && DoneCount(d) == DoneCount(c)
      && d.posted[..DoneCount(c)] == c.posted[..DoneCount(c)]
      && d.out[0] == if c.out == [] then msg else c.out[0]
  {
  }

  lemma SendKeeps(c: Conn, msg: Msg)
    requires WriterOk(c) && (c.owner == ClientEnd ==> c.handshakeWrite == Sent)
    ensures WriterOk(Send(c, msg))
  {
    hide ToBytes, Frames, Header, Frame, QueueOk;
    var d := Send(c, msg);
    SendQueue(c, msg);
    StreamGrows(c, msg);
    assert HandshakeBytes(d) == HandshakeBytes(c);
    if Balanced(c) && c.write.NoWrite? {
      assert c.out == [] by { SendIdle(c); }
      var left, done := HandshakeBytesLeft(c.handshakeWrite), Frames(c.posted[..DoneCount(c)]);
      assert BytesLeft(c) == left + [] == left && Issued(c) == [] && done + [] == done;
      AppendBoth(c.wrote, left, HandshakeBytes(c), done, Header(msg));
    } else if Balanced(c) {
      assert c.out != [] by { SendIdle(c); }
    }
  }

  lemma SendIdle(c: Conn)
    requires QueueOk(c)
    ensures c.write.NoWrite? <==> c.out == []
  {
  }

  lemma BodyIssued(c: Conn)
    requires QueueOk(c) && Balanced(c) && c.write == HeaderWrite([])
    requires HandshakeBytesLeft(c.handshakeWrite) == []
    ensures var d := c.(write := BodyWrite(c.out[0].body)); QueueOk(d) && Balanced(d)
  {
    var head, body := Header(c.out[0]), c.out[0].body;
    assert Frame(c.out[0]) == head + body;
    hide Frames, Header, Frame;
    var done := Frames(c.posted[..DoneCount(c)]);
    assert c.wrote + [] == HandshakeBytes(c) + (done + head);
    AppendBoth(c.wrote, [], HandshakeBytes(c), done + head, body);
    assert (done + head) + body == done + (head + body);
    assert [] + body == body;
  }

  lemma HeaderWrittenKeeps(c: Conn, ok: bool, d: Conn)
    requires WriterOk(c) && Next(c, HeaderWritten(ok), d)
    ensures WriterOk(d)
  {
    WrotePrefix(c);
    if ok && Balanced(c) {
      assert |Header(c.out[0])| == HEADER_SIZE && HandshakeBytesLeft(c.handshakeWrite) == [];
      if |c.out[0].body| > 0 {
        BodyIssued(c);
      } else {
        assert Frame(c.out[0]) == Header(c.out[0]);
        PopKeeps(c);
      }
    }
  }

  lemma BodyWrittenKeeps(c: Conn, ok: bool, d: Conn)
    requires WriterOk(c) && Next(c, BodyWritten(ok), d)
    ensures WriterOk(d)
  {
    WrotePrefix(c);
    if ok && Balanced(c) {
      assert HandshakeBytesLeft(c.handshakeWrite) == [];
      PopKeeps(c);
    }
  }

  /** A write completes only when nothing of the handshake is left to send before it. */
  lemma HandshakeWrittenKeeps(c: Conn, ok: bool, d: Conn)
    requires WriterOk(c) && Next(c, HandshakeWritten(ok), d)
    ensures WriterOk(d)
  {
    hide Frames, Header, ToBytes;
    WrotePrefix(c);
    if ok {
      assert HandshakeBytes(d) == HandshakeBytes(c) && Issued(d) == Issued(c);
      assert BytesLeft(d) == BytesLeft(c);
    } else {
      assert Stream(d) == Stream(c);
    }
  }

  // ---- The reading side ----

  /** The bytes read after the handshake. */
  function Payload(c: Conn): seq<Byte>
    requires |c.consumed| >= 8
  {
    c.consumed[8..]
  }

  /** What has been delivered are messages as sent, but for the body of a bodyless one. */
  ghost predicate DeliveredOk(delivered: seq<Msg>) {
    && AllWellFormed(StripAll(delivered))
    && delivered == Sticky(StripAll(delivered))
  }

  /** The bytes read are the handshake, the frames delivered, and the part now being read. */
  ghost predicate ReaderOk(c: Conn) {
    && DeliveredOk(c.delivered)
    && match c.read
       case ValidationRead(got) =>
         c.consumed == got && |got| <= 8 && c.delivered == [] && c.scratch.body == []
       case NoRead => |c.consumed| == 8 && c.delivered == [] && c.scratch.body == []
       case HeaderRead(got) =>
         && |c.consumed| >= 8 && |got| <= HEADER_SIZE
         && Payload(c) == Frames(StripAll(c.delivered)) + got
         && c.scratch.body == LastBody(StripAll(c.delivered))
       case BodyRead(got) =>
         && |c.consumed| >= 8 && |got| <= |c.scratch.body| == c.scratch.size && c.scratch.size > 0
         && Payload(c) == Frames(StripAll(c.delivered)) + (Header(c.scratch) + got)
       case ReadStopped =>
         c.delivered != [] ==> |c.consumed| >= 8 && Frames(StripAll(c.delivered)) <= Payload(c)
  }

  /** A server delivers nothing and validates nobody before it has read the answer it expects. */
  ghost predicate GateOk(c: Conn) {
    && (c.owner == ServerEnd ==>
          && c.handshakeWrite != Unsent && c.read != NoRead
          && c.handshakeCheck == Scramble(c.handshakeOut)
          && (c.validated || c.delivered != [] || c.read.HeaderRead? || c.read.BodyRead? ==>
                |c.consumed| >= 8 && c.consumed[..8] == ToBytes(c.handshakeCheck, 8)))
    && (c.owner == ClientEnd ==>
          && (c.read.ValidationRead? ==> c.handshakeWrite == Unsent)
          && (c.handshakeWrite.Sending? ==> c.read == NoRead)
          && (c.handshakeWrite.HandshakeFailed? ==> c.read == NoRead)
          && (c.handshakeWrite == Unsent ==> c.delivered == [])
          && (c.read == NoRead || c.read.HeaderRead? || c.read.BodyRead? ==> c.handshakeWrite != Unsent)
          && (c.handshakeWrite != Unsent ==>
                |c.consumed| >= 8 && ToBytes(c.handshakeOut, 8) == Answer(c.consumed[..8])))
  }

  /** The bytes a client answers the eight bytes of a challenge with. */
  function Answer(challenge: seq<Byte>): seq<Byte>
    requires |challenge| == 8
  {
    RoundTripBack(challenge);
    Fits64(FromBytes(challenge));
    ToBytes(Scramble(FromBytes(challenge)), 8)
  }

  lemma StripAllAppend(delivered: seq<Msg>, m: Msg)
    ensures StripAll(delivered + [m]) == StripAll(delivered) + [Strip(m)]
  {
  }

  /** Handing over the scratch message extends what has been delivered by one good frame. */
  lemma DeliverOk(delivered: seq<Msg>, m: Msg)
    requires DeliveredOk(delivered) && WellFormed(Strip(m))
    requires m.size == 0 ==> m.body == LastBody(StripAll(delivered))
    ensures DeliveredOk(delivered + [m])
    ensures Frames(StripAll(delivered + [m])) == Frames(StripAll(delivered)) + Frame(Strip(m))
    ensures LastBody(StripAll(delivered + [m])) == m.body
  {
    var s, t := StripAll(delivered), StripAll(delivered + [m]);
    StripAllAppend(delivered, m);
    assert t[..|t| - 1] == s;
    assert Sticky(t) == Sticky(s) + [Strip(m).(body := LastBody(t))];
  }

  lemma BodylessKeeps(c: Conn, h: Msg)
    requires ReaderOk(c) && c.read.HeaderRead? && Header(h) == c.read.got && h.size == 0 && h.body == []
    ensures ReaderOk(Deliver(c.(scratch := c.scratch.(id := h.id, size := 0))))
  {
    var m := c.scratch.(id := h.id, size := 0);
    assert Strip(m) == h && Frame(h) == c.read.got + [];
    DeliverOk(c.delivered, m);
  }

  lemma HeaderDoneKeeps(c: Conn, ok: bool, d: Conn)
    requires ReaderOk(c) && Next(c, HeaderDone(ok), d)
    ensures ReaderOk(d)
  {
    FailReadKeeps(c);
    if ok {
      var h := Parse(c.read.got);
      HeaderParse(c.read.got);
      if h.size == 0 {
        BodylessKeeps(c, h);
      } else {
        hide ToBytes, DeliveredOk, StripAll, Frames, LastBody, Parse;
        assert Header(d.scratch) + [] == c.read.got by {
          HeadersAgree(d.scratch, h);
        }
      }
    }
  }

  lemma HeadersAgree(a: Msg, b: Msg)
    requires a.id == b.id && a.size == b.size
    ensures Header(a) == Header(b)
  {
  }

  lemma BodyDoneKeeps(c: Conn, ok: bool, d: Conn)
    requires ReaderOk(c) && Next(c, BodyDone(ok), d)
    ensures ReaderOk(d)
  {
    if ok {
      var m := c.scratch.(body := c.read.got);
      assert Header(m) == Header(c.scratch);
      assert Frame(Strip(m)) == Header(c.scratch) + c.read.got;
      DeliverOk(c.delivered, m);
    }
  }

  lemma ReadBytesKeeps(c: Conn, bytes: seq<Byte>, d: Conn)
    requires ReaderOk(c) && Next(c, ReadBytes(bytes), d)
    ensures ReaderOk(d)
  {
    if |c.consumed| >= 8 {
      assert Payload(d) == Payload(c) + bytes;
    }
    hide Frames, Header, Sticky, LastBody;
  }

  lemma FailReadKeeps(c: Conn)
    requires ReaderOk(c)
    ensures ReaderOk(FailRead(c))
  {
    hide Sticky, StripAll, LastBody, Header;
  }

  /** The first header is awaited right after the eight bytes of the handshake. */
  lemma FirstHeaderOk(c: Conn, d: Conn)
    requires |c.consumed| == 8 && c.delivered == [] && c.scratch.body == []
    requires d.read == HeaderRead([]) && d.consumed == c.consumed && d.delivered == [] && d.scratch == c.scratch
    ensures ReaderOk(d)
  {
    assert Payload(d) == [] + [];
    assert StripAll([]) == [];
  }

  lemma ValidationDoneKeeps(c: Conn, ok: bool, d: Conn)
    requires ReaderOk(c) && Next(c, ValidationDone(ok), d)
    ensures ReaderOk(d)
  {
    FailReadKeeps(c);
    hide ToBytes, FromBytes, Fits, Scramble;
    if d.read == HeaderRead([]) {
      FirstHeaderOk(c, d);
    }
  }

  lemma HandshakeDoneKeeps(c: Conn, ok: bool, d: Conn)
    requires ReaderOk(c) && GateOk(c) && Next(c, HandshakeWritten(ok), d)
    ensures ReaderOk(d)
  {
    hide Answer, ToBytes;
    if c.owner == ClientEnd && ok {
      FirstHeaderOk(c, d);
    } else {
      assert d.read == c.read && d.scratch == c.scratch && d.delivered == c.delivered && d.consumed == c.consumed;
      hide GateOk, DeliveredOk, StripAll, Frames, Header, LastBody;
    }
  }

  /** Writing, posting and closing leave the reading side alone. */
  lemma OtherStepsKeep(c: Conn, step: Step, d: Conn)
    requires Next(c, step, d)
    requires step.Post? || step.WriteBytes? || step.HeaderWritten? || step.BodyWritten? || step.CloseDown?
    ensures d.read == c.read && d.scratch == c.scratch && d.delivered == c.delivered
    ensures d.consumed == c.consumed && d.validated == c.validated && d.handshakeOut == c.handshakeOut
    ensures d.owner == c.owner && d.handshakeCheck == c.handshakeCheck
    ensures d.handshakeWrite == c.handshakeWrite || (d.handshakeWrite.Sending? && c.handshakeWrite.Sending?)
  {
  }

  /** Every step keeps what is known about the reading side. */
  lemma ReaderKeeps(c: Conn, step: Step, d: Conn)
    requires ReaderOk(c) && GateOk(c) && Next(c, step, d)
    ensures ReaderOk(d)
  {
    match step
    case ReadBytes(bytes) => ReadBytesKeeps(c, bytes, d);
    case HeaderDone(ok) => HeaderDoneKeeps(c, ok, d);
    case BodyDone(ok) => BodyDoneKeeps(c, ok, d);
    case ValidationDone(ok) => ValidationDoneKeeps(c, ok, d);
    case HandshakeWritten(ok) => HandshakeDoneKeeps(c, ok, d);
    case _ =>
      OtherStepsKeep(c, step, d);
      hide Next, Frames, Header, DeliveredOk, LastBody;
  }

  lemma GateKeepsOnBytes(c: Conn, bytes: seq<Byte>, d: Conn)
    requires ReaderOk(c) && GateOk(c) && Next(c, ReadBytes(bytes), d)
    ensures GateOk(d)
  {
    if |c.consumed| >= 8 {
      assert d.consumed[..8] == c.consumed[..8];
    }
    hide Answer, ReaderOk;
  }

  /** The fields the gate is about, across a message read. */
  ghost predicate PastGate(c: Conn, d: Conn) {
    && d.owner == c.owner && d.handshakeOut == c.handshakeOut && d.handshakeCheck == c.handshakeCheck
    && d.handshakeWrite == c.handshakeWrite && d.consumed == c.consumed && d.validated == c.validated
    && (d.read.HeaderRead? || d.read.BodyRead? || d.read.ReadStopped?)
  }

  lemma MessageReadsArePast(c: Conn, step: Step, d: Conn)
    requires Next(c, step, d)
    requires step.HeaderDone? || step.BodyDone?
    ensures PastGate(c, d)
  {
    hide Parse;
  }

  lemma GateKeepsOnMessage(c: Conn, step: Step, d: Conn)
    requires GateOk(c) && Next(c, step, d)
    requires step.HeaderDone? || step.BodyDone?
    ensures GateOk(d)
  {
    MessageReadsArePast(c, step, d);
    assert c.read.HeaderRead? || c.read.BodyRead?;
    hide Next, Answer, ToBytes, Scramble;
  }

  lemma GateKeepsOnAnswer(c: Conn, ok: bool, d: Conn)
    requires ReaderOk(c) && GateOk(c) && Next(c, HandshakeWritten(ok), d)
    ensures GateOk(d)
  {
    hide Answer;
  }

  lemma GateKeepsOnValidation(c: Conn, ok: bool, d: Conn)
    requires ReaderOk(c) && GateOk(c) && Next(c, ValidationDone(ok), d)
    ensures GateOk(d)
  {
    hide Scramble, ToBytes;
    var got := c.read.got;
    assert c.consumed == got;
    hide ReaderOk;
    if ok {
      assert got[..8] == got;
      RoundTripBack(got);
    }
  }

  lemma GateKeeps(c: Conn, step: Step, d: Conn)
    requires ReaderOk(c) && GateOk(c) && Next(c, step, d)
    ensures GateOk(d)
  {
    match step
    case ValidationDone(ok) => GateKeepsOnValidation(c, ok, d);
    case Post(_) => OtherStepsKeep(c, step, d);
    case WriteBytes(_) => OtherStepsKeep(c, step, d);
    case HeaderWritten(_) => OtherStepsKeep(c, step, d);
    case BodyWritten(_) => OtherStepsKeep(c, step, d);
    case CloseDown => OtherStepsKeep(c, step, d);
    case ReadBytes(bytes) => GateKeepsOnBytes(c, bytes, d);
    case HandshakeWritten(ok) => GateKeepsOnAnswer(c, ok, d);
    case _ => GateKeepsOnMessage(c, step, d);
  }

  // ---- Both sides together ----

  lemma WriterKeeps(c: Conn, step: Step, d: Conn)
    requires WriterOk(c) && GateOk(c) && Next(c, step, d)
    ensures WriterOk(d)
  {
    match step
    case Post(msg) => SendKeeps(c, msg);
    case WriteBytes(n) => BalancedWrites(c, n);
    case HandshakeWritten(ok) => HandshakeWrittenKeeps(c, ok, d);
    case HeaderWritten(ok) => HeaderWrittenKeeps(c, ok, d);
    case BodyWritten(ok) => BodyWrittenKeeps(c, ok, d);
    case _ => ReadingKeepsWriter(c, step, d);
  }

  ghost predicate SameWriter(c: Conn, d: Conn) {
    && d.owner == c.owner && d.posted == c.posted && d.out == c.out && d.write == c.write
    && d.handshakeWrite == c.handshakeWrite && d.handshakeOut == c.handshakeOut
    && d.wrote == c.wrote && (d.open ==> c.open)
  }

  lemma SameWriterOk(c: Conn, d: Conn)
    requires WriterOk(c) && SameWriter(c, d)
    ensures WriterOk(d)
  {
    hide Frames, Header;
  }

  /** Reading leaves the writing side alone, but a client then starts to write its answer. */
  lemma ReadingKeepsWriter(c: Conn, step: Step, d: Conn)
    requires WriterOk(c) && GateOk(c) && Next(c, step, d)
    requires step.ReadBytes? || step.ValidationDone? || step.HeaderDone? || step.BodyDone? || step.CloseDown?
    ensures WriterOk(d)
  {
    if c.owner == ClientEnd && step == ValidationDone(true) {
      AnswerStarts(c, d);
    } else {
      ReadsSameWriter(c, step, d);
      SameWriterOk(c, d);
      hide Next, GateOk;
    }
  }

  lemma ReadsSameWriter(c: Conn, step: Step, d: Conn)
    requires Next(c, step, d)
    requires step.ReadBytes? || step.ValidationDone? || step.HeaderDone? || step.BodyDone? || step.CloseDown?
    requires !(c.owner == ClientEnd && step == ValidationDone(true))
    ensures SameWriter(c, d)
  {
    hide Parse;
  }

  lemma AnswerStarts(c: Conn, d: Conn)
    requires WriterOk(c) && GateOk(c) && Next(c, ValidationDone(true), d) && c.owner == ClientEnd
    ensures WriterOk(d)
  {
    hide Frames, Header, ToBytes, FromBytes, Fits, Scramble;
    assert c.posted == [] && c.out == [] && c.write == NoWrite;
    hide QueueOk, Balanced;
    WrotePrefix(c);
    NothingPosted(c);
    AnswerBalanced(c, d.handshakeOut);
    hide WriterOk, GateOk;
  }

  lemma NothingPosted(c: Conn)
    requires c.posted == [] && c.handshakeWrite == Unsent
    ensures Stream(c) == []
  {
  }

  lemma AnswerBalanced(c: Conn, answer: Uint64)
    requires QueueOk(c) && c.posted == [] && c.write == NoWrite && c.wrote == [] && c.owner == ClientEnd
    requires !c.write.WriteFailed?
    ensures WriterOk(c.(handshakeOut := answer, handshakeWrite := Sending(ToBytes(answer, 8)), read := NoRead))
  {
    var d := c.(handshakeOut := answer, handshakeWrite := Sending(ToBytes(answer, 8)), read := NoRead);
    hide ToBytes;
    assert Frames(d.posted[..DoneCount(d)]) == [] && Issued(d) == [];
    assert HandshakeBytes(d) == BytesLeft(d);
  }

  ghost predicate ConnOk(c: Conn) {
    WriterOk(c) && ReaderOk(c) && GateOk(c)
  }

  lemma StartOk(challenge: Uint64)
    ensures ConnOk(NewServerEnd(challenge)) && ConnOk(NewClientEnd())
  {
    hide ToBytes, Scramble, FromBytes, Fits;
    assert StripAll([]) == [] && Sticky([]) == [] && Frames([]) == [];
    assert Balanced(NewServerEnd(challenge)) && Balanced(NewClientEnd()) by {
      assert [] + ToBytes(challenge, 8) == ToBytes(challenge, 8) + [];
    }
  }

  lemma NextKeeps(c: Conn, step: Step, d: Conn)
    requires ConnOk(c) && Next(c, step, d)
    ensures ConnOk(d)
  {
    WriterKeeps(c, step, d);
    ReaderKeeps(c, step, d);
    GateKeeps(c, step, d);
  }
}
