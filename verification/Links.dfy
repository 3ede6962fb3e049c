/**
 Two ends joined by byte channels.  In every run, however the stream is cut into chunks and
 whatever fails, each end delivers the other end's messages in order, from the first.
 */
module Links {
  import opened Bytes
  import opened Framing
  import opened Handshake
  import opened ConnectionSpec
  import opened ConnectionSafety

  // ---- One end, with any peer ----

  ghost predicate IsEndRun(run: seq<Conn>, steps: seq<Step>, challenge: Uint64) {
    && |run| == |steps| + 1
    && run[0] == NewServerEnd(challenge)
    && (forall i :: 0 <= i < |steps| ==> ConnectionSpec.Next(run[i], steps[i], run[i + 1]))
  }

  lemma {:induction false} EndRunKeeps(run: seq<Conn>, steps: seq<Step>, challenge: Uint64, i: nat)
    requires IsEndRun(run, steps, challenge) && i < |run|
    ensures ConnOk(run[i]) && run[i].owner == ServerEnd && run[i].handshakeOut == challenge
  {
    if i == 0 {
      StartOk(challenge);
      hide ConnOk;
    } else {
      hide ConnOk, ConnectionSpec.Next, ToBytes;
      EndRunKeeps(run, steps, challenge, i - 1);
      ConnectionSafety.NextKeeps(run[i - 1], steps[i - 1], run[i]);
      ChallengeStays(run[i - 1], steps[i - 1], run[i]);
    }
  }

  lemma ChallengeStays(c: Conn, step: Step, d: Conn)
    requires ConnectionSpec.Next(c, step, d) && c.owner == ServerEnd
    ensures d.owner == ServerEnd && d.handshakeOut == c.handshakeOut
  {
    hide ToBytes, Scramble, Parse, Header;
  }

  /**
   Whatever bytes a peer sends: the server hands over no message of it and validates it not at
   all, unless its first eight bytes are the answer to the challenge it was given.
   */
  lemma NothingBeforeTheAnswer(run: seq<Conn>, steps: seq<Step>, challenge: Uint64, i: nat)
    requires IsEndRun(run, steps, challenge) && i < |run|
    requires run[i].validated || run[i].delivered != []
    ensures |run[i].consumed| >= 8 && run[i].consumed[..8] == ToBytes(Scramble(challenge), 8)
  {
    EndRunKeeps(run, steps, challenge, i);
    hide ToBytes, Scramble;
  }

  /** A write is in flight exactly while the queue is not empty, unless one has failed. */
  lemma OneWriteInFlight(c: Conn)
    requires ConnOk(c)
    ensures c.out != [] <==> c.write.HeaderWrite? || c.write.BodyWrite? || c.write.WriteFailed?
    ensures c.write.WriteFailed? ==> !c.open
  {
  }

  /** Reading changes neither the queue nor the write in flight nor what was written. */
  lemma ReadingLeavesWriting(c: Conn, step: Step, d: Conn)
    requires ConnectionSpec.Next(c, step, d)
    requires step.ReadBytes? || step.ValidationDone? || step.HeaderDone? || step.BodyDone?
    ensures d.out == c.out && d.write == c.write && d.wrote == c.wrote && (d.open ==> c.open)
  {
    hide ToBytes, Scramble, Parse, Header;
  }

  ghost predicate IsReading(step: Step) {
    step.ReadBytes? || step.ValidationDone? || step.HeaderDone? || step.BodyDone?
  }

  /** While it is in flight the front of the queue does not change, whatever is posted. */
  lemma FrontStays(c: Conn, step: Step, d: Conn)
    requires ConnOk(c) && ConnectionSpec.Next(c, step, d)
    requires c.write.HeaderWrite? || c.write.BodyWrite?
    requires !step.HeaderWritten? && !step.BodyWritten?
    ensures c.out != [] && d.out != [] && d.out[0] == c.out[0]
    ensures d.write.HeaderWrite? == c.write.HeaderWrite? && d.write.BodyWrite? == c.write.BodyWrite?
  {
    OneWriteInFlight(c);
    hide ConnOk, ToBytes, Header;
    if IsReading(step) {
      ReadingLeavesWriting(c, step, d);
      hide ConnectionSpec.Next;
    }
  }

  /** After a failed write the end never writes a byte again and stays closed. */
  lemma FailedIsFinal(c: Conn, step: Step, d: Conn)
    requires ConnOk(c) && ConnectionSpec.Next(c, step, d) && c.write.WriteFailed?
    ensures d.write.WriteFailed? && !d.open && d.wrote == c.wrote
  {
    OneWriteInFlight(c);
    hide ConnOk, ToBytes, Header;
    if IsReading(step) {
      ReadingLeavesWriting(c, step, d);
      hide ConnectionSpec.Next;
    }
  }

  // ---- A writer and the reader at its other end ----

  lemma DropHandshake(h: seq<Byte>, f: seq<Byte>, consumed: seq<Byte>)
    requires |h| == 8 && 8 <= |consumed| && consumed <= h + f
    ensures consumed[8..] <= f && consumed[..8] == h
  {
  }

  lemma SilentWhileUnsent(a: Conn)
    requires ConnOk(a)
    ensures a.handshakeWrite == Unsent ==> a.wrote == []
  {
    WrotePrefix(a);
  }

  lemma ReadStream(a: Conn, b: Conn)
    requires ConnOk(a) && b.consumed <= a.wrote && |b.consumed| >= 8
    ensures a.handshakeWrite != Unsent
    ensures b.consumed[..8] == ToBytes(a.handshakeOut, 8) && Payload(b) <= Frames(a.posted)
  {
    WrotePrefix(a);
    SilentWhileUnsent(a);
    hide ConnOk, ToBytes, Frames;
    DropHandshake(HandshakeBytes(a), Frames(a.posted), b.consumed);
  }

  /** The frames of what has been delivered are at the head of what has been read. */
  lemma FramesRead(b: Conn)
    requires ConnOk(b) && b.delivered != []
    ensures |b.consumed| >= 8 && Frames(StripAll(b.delivered)) <= Payload(b)
    ensures AllWellFormed(StripAll(b.delivered)) && b.delivered == Sticky(StripAll(b.delivered))
  {
    hide WriterOk, GateOk, ToBytes;
  }

  /**
   The first `n` messages posted are delivered first and in order, as the scratch message shows them;
   and if they are all that was posted, nothing else is delivered.
   */
  ghost predicate FirstDelivered(delivered: seq<Msg>, posted: seq<Msg>, n: nat)
    requires n <= |posted|
  {
    var m := if |delivered| < n then |delivered| else n;
    && delivered[..m] == Sticky(posted[..m])
    && StripAll(delivered)[..m] == posted[..m]
    && (n == |posted| ==> |delivered| <= n)
  }

  /** Messages are delivered in order, as far as the size fields posted are true. */
  ghost predicate InOrder(delivered: seq<Msg>, posted: seq<Msg>) {
    forall n: nat :: n <= |posted| && AllWellFormed(posted[..n]) ==> FirstDelivered(delivered, posted, n)
  }

  /** The reader has delivered in order what the writer posted. */
  lemma Delivers(a: Conn, b: Conn, n: nat)
    requires ConnOk(a) && ConnOk(b) && b.consumed <= a.wrote
    requires n <= |a.posted| && AllWellFormed(a.posted[..n])
    ensures FirstDelivered(b.delivered, a.posted, n)
  {
    hide ConnOk, Frames, Sticky, ToBytes;
    if b.delivered == [] {
      NothingDelivered(a.posted, n);
    } else {
      FramesRead(b);
      ReadStream(a, b);
      PrefixParsed(StripAll(b.delivered), a.posted, Payload(b), n);
      DeliveredFirst(b.delivered, a.posted, n);
    }
  }

  lemma NothingDelivered(posted: seq<Msg>, n: nat)
    requires n <= |posted|
    ensures FirstDelivered([], posted, n)
  {
    assert posted[..0] == [] && StripAll([]) == [];
  }

  lemma DeliveredFirst(delivered: seq<Msg>, posted: seq<Msg>, n: nat)
    requires n <= |posted| && delivered == Sticky(StripAll(delivered))
    requires forall k :: 0 <= k < |delivered| && k < n ==> StripAll(delivered)[k] == posted[k]
    requires n == |posted| ==> |delivered| <= n
    ensures FirstDelivered(delivered, posted, n)
  {
    hide Sticky;
    var m := if |delivered| < n then |delivered| else n;
    StickyPrefix(StripAll(delivered), m);
    assert StripAll(delivered)[..m] == posted[..m];
  }

  lemma PrefixParsed(s: seq<Msg>, p: seq<Msg>, payload: seq<Byte>, n: nat)
    requires n <= |p| && AllWellFormed(s) && AllWellFormed(p[..n])
    requires Frames(s) <= payload <= Frames(p)
    ensures forall k :: 0 <= k < |s| && k < n ==> s[k] == p[k]
    ensures n == |p| ==> |s| <= n
  {
    hide Frames, AllWellFormed;
    var f := Frames(s);
    var rest := payload[|f|..];
    assert payload == f + rest;
    PrefixUnique(s, p, rest, n);
  }

  /** The writer has nothing left to write. */
  predicate WriterIdle(a: Conn) {
    a.open && a.write == NoWrite && a.handshakeWrite == Sent
  }

  lemma IdleWrote(a: Conn)
    requires ConnOk(a) && WriterIdle(a)
    ensures a.wrote == ToBytes(a.handshakeOut, 8) + Frames(a.posted)
  {
    hide ReaderOk, GateOk, ToBytes, Frames;
    assert a.posted[..|a.posted|] == a.posted;
    assert a.wrote + BytesLeft(a) == a.wrote;
    assert Frames(a.posted) + [] == Frames(a.posted);
  }

  lemma SameFramesSameMessages(s: seq<Msg>, p: seq<Msg>)
    requires AllWellFormed(s) && AllWellFormed(p) && Frames(s) == Frames(p)
    ensures s == p
  {
    assert Frames(s) + [] == Frames(p) && p[..|p|] == p;
    PrefixUnique(s, p, [], |p|);
    var rest := p[|s|..];
    assert p == s + rest;
    FramesConcat(s, rest);
    FramesLength(rest);
    assert rest == [];
  }

  /**
   Once the writer is idle and the reader has read everything, what was delivered is what was
   posted exactly if the size fields posted were true.
   */
  lemma DeliversAll(a: Conn, b: Conn)
    requires ConnOk(a) && ConnOk(b) && b.consumed == a.wrote
    requires WriterIdle(a) && b.read == HeaderRead([])
    ensures StripAll(b.delivered) == a.posted <==> AllWellFormed(a.posted)
    ensures AllWellFormed(a.posted) ==> b.delivered == Sticky(a.posted)
  {
    IdleWrote(a);
    assert DeliveredOk(b.delivered) && Payload(b) == Frames(StripAll(b.delivered)) + [];
    hide ConnOk, Frames, Sticky, ToBytes;
    assert Payload(b) == Frames(a.posted);
    if AllWellFormed(a.posted) {
      SameFramesSameMessages(StripAll(b.delivered), a.posted);
    }
  }

  // ---- Both directions ----

  datatype Link = Link(server: Conn, client: Conn, down: seq<Byte>, up: seq<Byte>)

  datatype Side = AtServer | AtClient

  function Leaving(c: Conn, step: Step): seq<Byte> {
    if step.WriteBytes? && step.n <= |NextBytes(c)| then NextBytes(c)[..step.n] else []
  }

  function Arriving(step: Step): seq<Byte> {
    if step.ReadBytes? then step.bytes else []
  }

  /** A step of one end: what it writes enters its outgoing channel, what it reads leaves the other. */
  ghost predicate Next(l: Link, side: Side, step: Step, m: Link) {
    match side
    case AtServer =>
      && ConnectionSpec.Next(l.server, step, m.server) && m.client == l.client
      && m.down == l.down + Leaving(l.server, step) && l.up == Arriving(step) + m.up
    case AtClient =>
      && ConnectionSpec.Next(l.client, step, m.client) && m.server == l.server
      && m.up == l.up + Leaving(l.client, step) && l.down == Arriving(step) + m.down
  }

  ghost predicate IsRun(run: seq<Link>, sides: seq<Side>, steps: seq<Step>, challenge: Uint64) {
    && |run| == |steps| + 1 && |sides| == |steps|
    && run[0] == Link(NewServerEnd(challenge), NewClientEnd(), [], [])
    && (forall i :: 0 <= i < |steps| ==> Next(run[i], sides[i], steps[i], run[i + 1]))
  }

  ghost predicate LinkOk(l: Link) {
    && ConnOk(l.server) && ConnOk(l.client)
    && l.server.owner == ServerEnd && l.client.owner == ClientEnd
    && l.server.wrote == l.client.consumed + l.down
    && l.client.wrote == l.server.consumed + l.up
  }

  /** What a step writes and reads is what the channels carry. */
  lemma BytesMove(c: Conn, step: Step, d: Conn)
    requires ConnectionSpec.Next(c, step, d)
    ensures d.owner == c.owner
    ensures d.wrote == c.wrote + Leaving(c, step)
    ensures d.consumed == c.consumed + Arriving(step)
  {
    hide ToBytes, FromBytes, Fits, Scramble, Parse, Header, Resize;
    assert c.wrote + [] == c.wrote && c.consumed + [] == c.consumed;
  }

  /** A channel stays what has been written but not yet read. */
  lemma ChannelStays(wrote: seq<Byte>, consumed: seq<Byte>, channel: seq<Byte>, leaving: seq<Byte>)
    requires wrote == consumed + channel
    ensures wrote + leaving == consumed + (channel + leaving)
    ensures forall arriving: seq<Byte>, rest: seq<Byte> | channel == arriving + rest ::
      wrote == (consumed + arriving) + rest
  {
  }

  lemma LinkNextKeeps(l: Link, side: Side, step: Step, m: Link)
    requires LinkOk(l) && Next(l, side, step, m)
    ensures LinkOk(m)
  {
    hide ConnectionSpec.Next, ConnOk, Leaving, Arriving;
    match side
    case AtServer =>
      ConnectionSafety.NextKeeps(l.server, step, m.server);
      BytesMove(l.server, step, m.server);
      ChannelStays(l.server.wrote, l.client.consumed, l.down, Leaving(l.server, step));
      ChannelStays(l.client.wrote, l.server.consumed, l.up, []);
    case AtClient =>
      ConnectionSafety.NextKeeps(l.client, step, m.client);
      BytesMove(l.client, step, m.client);
      ChannelStays(l.client.wrote, l.server.consumed, l.up, Leaving(l.client, step));
      ChannelStays(l.server.wrote, l.client.consumed, l.down, []);
  }

  lemma {:induction false} RunKeeps(run: seq<Link>, sides: seq<Side>, steps: seq<Step>, challenge: Uint64, i: nat)
    requires IsRun(run, sides, steps, challenge) && i < |run|
    ensures LinkOk(run[i])
  {
    if i == 0 {
      StartOk(challenge);
      hide ConnOk;
    } else {
      hide LinkOk, ConnectionSpec.Next, ConnOk;
      RunKeeps(run, sides, steps, challenge, i - 1);
      assert Next(run[i - 1], sides[i - 1], steps[i - 1], run[i]);
      hide Next;
      LinkNextKeeps(run[i - 1], sides[i - 1], steps[i - 1], run[i]);
    }
  }

  lemma ServerToClient(l: Link)
    requires LinkOk(l)
    ensures InOrder(l.client.delivered, l.server.posted)
  {
    forall n: nat | n <= |l.server.posted| && AllWellFormed(l.server.posted[..n])
      ensures FirstDelivered(l.client.delivered, l.server.posted, n)
    {
      Delivers(l.server, l.client, n);
    }
    hide ConnOk, FirstDelivered, AllWellFormed;
  }

  lemma ClientToServer(l: Link)
    requires LinkOk(l)
    ensures InOrder(l.server.delivered, l.client.posted)
  {
    forall n: nat | n <= |l.client.posted| && AllWellFormed(l.client.posted[..n])
      ensures FirstDelivered(l.server.delivered, l.client.posted, n)
    {
      Delivers(l.client, l.server, n);
    }
    hide ConnOk, FirstDelivered, AllWellFormed;
  }

  /**
   In every state of every run each end has delivered in order the messages posted at the other:
   none lost, repeated, reordered or merged, bodies compared where there is one.  This holds up to
   the first message posted with a size field that is not the length of its body, if there is one.
   */
  lemma DeliveryInOrder(run: seq<Link>, sides: seq<Side>, steps: seq<Step>, challenge: Uint64, i: nat)
    requires IsRun(run, sides, steps, challenge) && i < |run|
    ensures InOrder(run[i].client.delivered, run[i].server.posted)
    ensures InOrder(run[i].server.delivered, run[i].client.posted)
  {
    hide IsRun, LinkOk, InOrder;
    RunKeeps(run, sides, steps, challenge, i);
    ServerToClient(run[i]);
    ClientToServer(run[i]);
  }

  /** Nothing is under way any more from `a` to `b`. */
  predicate Quiet(a: Conn, b: Conn, channel: seq<Byte>) {
    WriterIdle(a) && channel == [] && b.read == HeaderRead([])
  }

  /**
   Once nothing is under way any more, everything posted has been delivered, exactly if all the
   size fields posted were true.
   */
  lemma QuiescentDelivery(run: seq<Link>, sides: seq<Side>, steps: seq<Step>, challenge: Uint64, i: nat)
    requires IsRun(run, sides, steps, challenge) && i < |run|
    ensures var l := run[i]; Quiet(l.server, l.client, l.down) ==>
      && (StripAll(l.client.delivered) == l.server.posted <==> AllWellFormed(l.server.posted))
      && (AllWellFormed(l.server.posted) ==> l.client.delivered == Sticky(l.server.posted))
    ensures var l := run[i]; Quiet(l.client, l.server, l.up) ==>
      && (StripAll(l.server.delivered) == l.client.posted <==> AllWellFormed(l.client.posted))
      && (AllWellFormed(l.client.posted) ==> l.server.delivered == Sticky(l.client.posted))
  {
    RunKeeps(run, sides, steps, challenge, i);
    var l := run[i];
    hide ConnOk, IsRun, AllWellFormed, Sticky;
    if Quiet(l.server, l.client, l.down) {
      DeliversAll(l.server, l.client);
    }
    if Quiet(l.client, l.server, l.up) {
      DeliversAll(l.client, l.server);
    }
  }

  // ---- One end of a run, from one state to a later one ----

  function End(l: Link, side: Side): Conn {
    if side == AtServer then l.server else l.client
  }

  lemma EndStep(run: seq<Link>, sides: seq<Side>, steps: seq<Step>, challenge: Uint64, i: nat, side: Side)
    requires IsRun(run, sides, steps, challenge) && i < |steps|
    ensures ConnOk(End(run[i], side))
    ensures sides[i] == side ==> ConnectionSpec.Next(End(run[i], side), steps[i], End(run[i + 1], side))
    ensures sides[i] != side ==> End(run[i + 1], side) == End(run[i], side)
  {
    RunKeeps(run, sides, steps, challenge, i);
    hide ConnOk;
    assert Next(run[i], sides[i], steps[i], run[i + 1]);
    hide ConnectionSpec.Next, IsRun;
  }

  /** At every moment a write is in flight exactly while the queue is not empty, unless one has failed. */
  lemma OneWriteAlways(run: seq<Link>, sides: seq<Side>, steps: seq<Step>, challenge: Uint64, i: nat, side: Side)
    requires IsRun(run, sides, steps, challenge) && i < |run|
    ensures var c := End(run[i], side);
      && (c.out != [] <==> InFlight(c) || c.write.WriteFailed?)
      && (c.write.WriteFailed? ==> !c.open)
  {
    RunKeeps(run, sides, steps, challenge, i);
    hide ConnOk, IsRun;
    OneWriteInFlight(End(run[i], side));
  }

  predicate InFlight(c: Conn) {
    c.write.HeaderWrite? || c.write.BodyWrite?
  }

  /** From the start of a write to its end the front of the queue stays the same. */
  lemma {:induction false} FrontStaysInFlight(run: seq<Link>, sides: seq<Side>, steps: seq<Step>,
                                             challenge: Uint64, i: nat, j: nat, side: Side)
    requires IsRun(run, sides, steps, challenge) && i <= j < |run| && InFlight(End(run[i], side))
    requires forall k :: i <= k < j && sides[k] == side ==> !steps[k].HeaderWritten? && !steps[k].BodyWritten?
    ensures var c, d := End(run[i], side), End(run[j], side);
      && c.out != [] && d.out != [] && d.out[0] == c.out[0]
      && d.write.HeaderWrite? == c.write.HeaderWrite? && d.write.BodyWrite? == c.write.BodyWrite?
  {
    hide ConnOk, ConnectionSpec.Next, End;
    if i == j {
      OneWriteAlways(run, sides, steps, challenge, i, side);
    } else {
      FrontStaysInFlight(run, sides, steps, challenge, i, j - 1, side);
      EndStep(run, sides, steps, challenge, j - 1, side);
      hide IsRun;
      if sides[j - 1] == side {
        FrontStays(End(run[j - 1], side), steps[j - 1], End(run[j], side));
      }
    }
  }

  /** After a failed write the socket stays closed and no further byte is ever written. */
  lemma {:induction false} FailedForever(run: seq<Link>, sides: seq<Side>, steps: seq<Step>,
                                        challenge: Uint64, i: nat, j: nat, side: Side)
    requires IsRun(run, sides, steps, challenge) && i <= j < |run| && End(run[i], side).write.WriteFailed?
    ensures var c, d := End(run[i], side), End(run[j], side);
      d.write.WriteFailed? && !d.open && d.wrote == c.wrote
  {
    hide ConnOk, ConnectionSpec.Next, End;
    if i == j {
      OneWriteAlways(run, sides, steps, challenge, i, side);
    } else {
      FailedForever(run, sides, steps, challenge, i, j - 1, side);
      EndStep(run, sides, steps, challenge, j - 1, side);
      hide IsRun;
      if sides[j - 1] == side {
        FailedIsFinal(End(run[j - 1], side), steps[j - 1], End(run[j], side));
      }
    }
  }

  /** A peer that follows the client path is accepted: what the server compares is what it expects. */
  lemma HonestPeerAccepted(run: seq<Link>, sides: seq<Side>, steps: seq<Step>, challenge: Uint64, i: nat)
    requires IsRun(run, sides, steps, challenge) && i < |run|
    requires run[i].server.read.ValidationRead? && |run[i].server.read.got| == 8
    ensures OnValidationRead(run[i].server, true).validated
    ensures OnValidationRead(run[i].server, true).read == HeaderRead([])
  {
    RunKeeps(run, sides, steps, challenge, i);
    var s, c := run[i].server, run[i].client;
    assert s.consumed == s.read.got && s.consumed <= c.wrote;
    ReadStream(c, s);
    assert |c.consumed| >= 8 && ToBytes(c.handshakeOut, 8) == Answer(c.consumed[..8]);
    ReadStream(s, c);
    assert s.read.got[..8] == s.read.got;
    AnswerExpected(s, c);
  }

  lemma AnswerExpected(s: Conn, c: Conn)
    requires |c.consumed| >= 8 && c.consumed[..8] == ToBytes(s.handshakeOut, 8)
    requires ToBytes(c.handshakeOut, 8) == Answer(c.consumed[..8])
    requires s.read == ValidationRead(ToBytes(c.handshakeOut, 8))
    requires s.owner == ServerEnd && s.handshakeCheck == Scramble(s.handshakeOut)
    ensures FromBytes(s.read.got) == s.handshakeCheck
    ensures OnValidationRead(s, true).validated && OnValidationRead(s, true).read == HeaderRead([])
  {
    hide Scramble, ToBytes, FromBytes, Fits;
    Fits64(s.handshakeOut);
    RoundTrip(s.handshakeOut, 8);
    Fits64(Scramble(s.handshakeOut));
    RoundTrip(Scramble(s.handshakeOut), 8);
  }
}
