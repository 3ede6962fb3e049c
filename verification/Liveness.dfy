/** A connection never gets stuck: as long as anything is left to do, something can be done. */
module Liveness {
  import opened Bytes
  import opened Framing
  import opened Handshake
  import opened ConnectionSpec
  import opened ConnectionSafety
  import opened Links
  import opened Closings

  /** The steps with which an end gets on: bytes move, or an operation completes without error. */
  predicate Advances(step: Step) {
    match step
    case Post(_) => false
    case WriteBytes(n) => n > 0
    case HandshakeWritten(ok) => ok
    case HeaderWritten(ok) => ok
    case BodyWritten(ok) => ok
    case ReadBytes(bytes) => bytes != []
    case ValidationDone(ok) => ok
    case HeaderDone(ok) => ok
    case BodyDone(ok) => ok
    case CloseDown => false
  }

  ghost predicate CanAdvance(l: Link) {
    exists side, step, m :: Advances(step) && Links.Next(l, side, step, m)
  }

  /** The bytes on their way to one side. */
  function Incoming(l: Link, side: Side): seq<Byte> {
    if side == AtServer then l.up else l.down
  }

  function Other(side: Side): Side {
    if side == AtServer then AtClient else AtServer
  }

  lemma EndAdvances(l: Link, side: Side, step: Step, d: Conn)
    requires Advances(step) && ConnectionSpec.Next(End(l, side), step, d)
    requires Arriving(step) <= Incoming(l, side)
    ensures CanAdvance(l)
  {
    hide ConnectionSpec.Next, Advances, Leaving, Arriving;
    var c, arriving := End(l, side), Arriving(step);
    var rest, leaving := Incoming(l, side)[|arriving|..], Leaving(c, step);
    assert Incoming(l, side) == arriving + rest;
    var m := if side == AtServer then Link(d, l.client, l.down + leaving, rest)
             else Link(l.server, d, rest, l.up + leaving);
    assert Links.Next(l, side, step, m);
  }

  /** Bytes that are to leave can leave. */
  lemma BytesAdvance(l: Link, side: Side)
    requires End(l, side).open && NextBytes(End(l, side)) != []
    ensures CanAdvance(l)
  {
    hide End, CanAdvance, NextBytes;
    EndAdvances(l, side, WriteBytes(1), WriteSome(End(l, side), 1));
  }

  /** A write that has no bytes left completes. */
  lemma WriteCompletes(l: Link, side: Side)
    requires var c := End(l, side);
      && NextBytes(c) == [] && c.out != [] && !c.handshakeWrite.Sending?
      && (c.write.HeaderWrite? || c.write.BodyWrite?)
    ensures CanAdvance(l)
  {
    var c := End(l, side);
    hide End, CanAdvance, Header;
    if c.write.HeaderWrite? {
      EndAdvances(l, side, HeaderWritten(true), OnHeaderWritten(c, true));
    } else {
      EndAdvances(l, side, BodyWritten(true), OnBodyWritten(c, true));
    }
  }

  lemma HandshakeCompletes(l: Link, side: Side)
    requires NextBytes(End(l, side)) == [] && End(l, side).handshakeWrite.Sending?
    ensures CanAdvance(l)
  {
    hide End, CanAdvance;
    EndAdvances(l, side, HandshakeWritten(true), OnHandshakeWritten(End(l, side), true));
  }

  /** A writer with something left to write can go on. */
  lemma WriterAdvances(l: Link, side: Side)
    requires ConnOk(End(l, side)) && End(l, side).open
    requires End(l, side).handshakeWrite != Unsent && !WriterIdle(End(l, side))
    ensures CanAdvance(l)
  {
    var c := End(l, side);
    hide ConnOk, End, CanAdvance, NextBytes;
    OneWriteInFlight(c);
    FailedHandshake(c);
    if NextBytes(c) != [] {
      BytesAdvance(l, side);
    } else if c.handshakeWrite.Sending? {
      HandshakeCompletes(l, side);
    } else {
      WriteCompletes(l, side);
    }
  }

  lemma FailedHandshake(c: Conn)
    requires ConnOk(c)
    ensures c.handshakeWrite.HandshakeFailed? ==> !c.open
  {
    hide ReaderOk, GateOk, Balanced, Stream;
  }

  predicate Reading(c: Conn) {
    c.read.ValidationRead? || c.read.HeaderRead? || c.read.BodyRead?
  }

  lemma WantedNatural(c: Conn)
    requires ConnOk(c)
    ensures Wanted(c) >= 0
  {
    hide WriterOk, GateOk, DeliveredOk, Frames, Header, StripAll, LastBody;
  }

  /** A reader that has all it waits for, or for which bytes have come, can go on. */
  lemma ReaderAdvances(l: Link, side: Side)
    requires ConnOk(End(l, side)) && End(l, side).open && Reading(End(l, side))
    requires Wanted(End(l, side)) == 0 || Incoming(l, side) != []
    ensures CanAdvance(l)
  {
    var c := End(l, side);
    WantedNatural(c);
    hide ConnOk, End, CanAdvance, OnValidationRead, OnHeaderRead, OnBodyRead;
    if Wanted(c) > 0 {
      var bytes := Incoming(l, side)[..1];
      EndAdvances(l, side, ReadBytes(bytes), c.(read := Received(c.read, bytes), consumed := c.consumed + bytes));
    } else if c.read.ValidationRead? {
      EndAdvances(l, side, ValidationDone(true), OnValidationRead(c, true));
    } else if c.read.HeaderRead? {
      EndAdvances(l, side, HeaderDone(true), OnHeaderRead(c, true));
    } else {
      EndAdvances(l, side, BodyDone(true), OnBodyRead(c, true));
    }
  }

  // ---- When nothing is on its way ----

  lemma RestOfFrames(s: seq<Msg>, p: seq<Msg>, rest: seq<Byte>)
    requires AllWellFormed(s) && AllWellFormed(p) && Frames(s) + rest == Frames(p)
    ensures |s| <= |p| && rest == Frames(p[|s|..])
  {
    hide Frames, AllWellFormed;
    assert p[..|p|] == p;
    PrefixUnique(s, p, rest, |p|);
    var front, back := p[..|s|], p[|s|..];
    assert p == front + back && front == s;
    FramesConcat(front, back);
  }

  /** A row of frames, if there is one, begins with a whole frame. */
  lemma FirstFrame(q: seq<Msg>, m: Msg)
    requires AllWellFormed(q)
    ensures Frames([]) == []
    ensures q != [] ==> |Frames(q)| >= HEADER_SIZE
    ensures q != [] && Frames(q)[..HEADER_SIZE] == Header(m) ==> |Frames(q)| >= HEADER_SIZE + m.size
  {
    if q != [] {
      assert q == [q[0]] + q[1..];
      FramesHead(q[0], q[1..]);
      ParseHeader(q[0]);
      ParseHeader(m);
      assert Frames(q)[..HEADER_SIZE] == Header(q[0]);
      hide Frames, Header, Parse;
    }
  }

  /** A header or a body is not left half read. */
  lemma NoHalfFrame(b: Conn, p: seq<Msg>)
    requires ConnOk(b) && AllWellFormed(p) && |b.consumed| >= 8 && Payload(b) == Frames(p)
    requires (b.read.HeaderRead? || b.read.BodyRead?) && Wanted(b) > 0
    ensures b.read == HeaderRead([])
  {
    var s := StripAll(b.delivered);
    var rest := if b.read.HeaderRead? then b.read.got else Header(b.scratch) + b.read.got;
    assert DeliveredOk(b.delivered) && Frames(s) + rest == Frames(p);
    assert b.read.BodyRead? ==> |b.scratch.body| == b.scratch.size && rest[..HEADER_SIZE] == Header(b.scratch);
    hide ConnOk, Frames, StripAll, Header;
    RestOfFrames(s, p, rest);
    FirstFrame(p[|s|..], b.scratch);
  }

  /** A reader whose writer is done and whose channel is empty awaits a new message. */
  lemma AwaitsHeader(a: Conn, b: Conn)
    requires ConnOk(a) && ConnOk(b) && WriterIdle(a) && b.consumed == a.wrote && AllWellFormed(a.posted)
    requires Reading(b) && Wanted(b) > 0
    ensures b.read == HeaderRead([])
  {
    hide ConnOk, Frames, ToBytes, AllWellFormed, WriterIdle, Framing.Sticky;
    IdleWrote(a);
    var h := ToBytes(a.handshakeOut, 8);
    HandshakeRead(h, Frames(a.posted), b);
    NoHalfFrame(b, a.posted);
  }

  lemma HandshakeRead(h: seq<Byte>, f: seq<Byte>, b: Conn)
    requires ConnOk(b) && |h| == 8 && b.consumed == h + f && Wanted(b) > 0
    ensures |b.consumed| >= 8 && Payload(b) == f && !b.read.ValidationRead?
  {
    hide WriterOk, GateOk, DeliveredOk, Frames, StripAll, LastBody, Header;
  }

  // ---- Runs ----

  lemma LinkFacts(l: Link, side: Side)
    requires LinkOk(l)
    ensures ConnOk(End(l, side))
    ensures Incoming(l, side) == [] ==> End(l, side).consumed == End(l, Other(side)).wrote
  {
    hide WriterOk, ReaderOk, Answer, ToBytes, Handshake.Scramble;
  }

  /** One direction of a link in which nothing can be done. */
  lemma DirectionDone(l: Link, side: Side)
    requires LinkOk(l) && !CanAdvance(l) && End(l, side).open && End(l, Other(side)).open
    requires WriterIdle(End(l, side)) && AllWellFormed(End(l, side).posted) && Reading(End(l, Other(side)))
    ensures End(l, Other(side)).read == HeaderRead([]) && Incoming(l, Other(side)) == []
  {
    var a, b := End(l, side), End(l, Other(side));
    hide LinkOk, ConnOk, End, CanAdvance, WriterIdle, AllWellFormed, Incoming, Reading;
    LinkFacts(l, side);
    LinkFacts(l, Other(side));
    WantedNatural(b);
    if Wanted(b) == 0 || Incoming(l, Other(side)) != [] {
      ReaderAdvances(l, Other(side));
    }
    AwaitsHeader(a, b);
  }

  lemma WhoReads(l: Link)
    requires LinkOk(l) && ReadsOn(l.server) && ReadsOn(l.client) && l.server.open && l.client.open
    ensures Reading(l.server) && l.server.handshakeWrite != Unsent
    ensures !l.client.handshakeWrite.Sending? ==> Reading(l.client)
    ensures l.client.handshakeWrite == Unsent ==> l.client.read.ValidationRead?
  {
    hide WriterOk, ReaderOk, Answer, ToBytes, Handshake.Scramble;
  }

  lemma IdleIsSent(c: Conn)
    ensures WriterIdle(c) ==> c.handshakeWrite == Sent
  {
  }

  /** Where nothing can be done any more, both directions are quiet. */
  lemma OnlyQuietIsStuck(l: Link)
    requires LinkOk(l) && ReadsOn(l.server) && ReadsOn(l.client) && l.server.open && l.client.open
    requires AllWellFormed(l.server.posted) && AllWellFormed(l.client.posted) && !CanAdvance(l)
    ensures Quiet(l.server, l.client, l.down) && Quiet(l.client, l.server, l.up)
  {
    hide LinkOk, ConnOk, ReadsOn, CanAdvance, AllWellFormed, WriterIdle, Reading;
    WhoReads(l);
    LinkFacts(l, AtServer);
    LinkFacts(l, AtClient);
    IdleIsSent(l.client);
    if !WriterIdle(l.server) {
      WriterAdvances(l, AtServer);
    }
    if l.client.handshakeWrite == Unsent {
      DirectionDone(l, AtServer);
    } else if !WriterIdle(l.client) {
      WriterAdvances(l, AtClient);
    } else {
      DirectionDone(l, AtServer);
      DirectionDone(l, AtClient);
    }
  }

  /**
   In every state of every run in which both sockets are open and no size field posted was false,
   something can be done, or every message posted has been delivered, in both directions.
   */
  lemma NeverStuck(run: seq<Link>, sides: seq<Side>, steps: seq<Step>, challenge: Uint64, i: nat)
    requires Links.IsRun(run, sides, steps, challenge) && i < |run|
    requires run[i].server.open && run[i].client.open
    requires AllWellFormed(run[i].server.posted) && AllWellFormed(run[i].client.posted)
    ensures CanAdvance(run[i]) || (
      && StripAll(run[i].client.delivered) == run[i].server.posted
      && StripAll(run[i].server.delivered) == run[i].client.posted)
  {
    hide Links.IsRun, LinkOk, ReadsOn, CanAdvance, AllWellFormed, Quiet, StripAll, Sticky;
    RunKeeps(run, sides, steps, challenge, i);
    AlwaysReading(run, sides, steps, challenge, i, AtServer);
    AlwaysReading(run, sides, steps, challenge, i, AtClient);
    if !CanAdvance(run[i]) {
      OnlyQuietIsStuck(run[i]);
      QuiescentDelivery(run, sides, steps, challenge, i);
    }
  }
}
