/** When a connection's socket is open: exactly until one of a few things has happened. */
module Closings {
  import opened Bytes
  import opened Handshake
  import opened ConnectionSpec
  import opened ConnectionSafety
  import opened Links

  /** The bytes that answer a challenge. */
  function AnswerBytes(challenge: Uint64): seq<Byte> {
    ToBytes(Handshake.Scramble(challenge), 8)
  }

  /**
   The steps that close the socket: closing it, any operation that completes with an error, and on a
   server the arrival of eight bytes that are not the answer to its challenge.
   */
  predicate Closes(c: Conn, step: Step) {
    match step
    case CloseDown => true
    case HandshakeWritten(ok) => !ok
    case HeaderWritten(ok) => !ok
    case BodyWritten(ok) => !ok
    case ValidationDone(ok) => !ok || (c.owner == ServerEnd && c.consumed != AnswerBytes(c.handshakeOut))
    case HeaderDone(ok) => !ok
    case BodyDone(ok) => !ok
    case _ => false
  }

  lemma SameAnswer(got: seq<Byte>, check: Uint64)
    requires |got| == 8
    ensures FromBytes(got) == check <==> got == ToBytes(check, 8)
  {
    RoundTripBack(got);
    Fits64(check);
    RoundTrip(check, 8);
    hide ToBytes, FromBytes, Fits;
  }

  lemma AnswerRead(c: Conn, d: Conn)
    requires ConnOk(c) && ConnectionSpec.Next(c, ValidationDone(true), d) && c.owner == ServerEnd
    ensures c.read.ValidationRead? && |c.read.got| == 8 && c.consumed == c.read.got
    ensures c.handshakeCheck == Handshake.Scramble(c.handshakeOut)
  {
    hide WriterOk, ToBytes, Handshake.Scramble, FromBytes, Fits;
  }

  lemma ValidationCloses(c: Conn, d: Conn)
    requires ConnOk(c) && ConnectionSpec.Next(c, ValidationDone(true), d) && c.owner == ServerEnd
    ensures d.open <==> c.open && c.consumed == AnswerBytes(c.handshakeOut)
    ensures d.validated <==> c.validated || c.consumed == AnswerBytes(c.handshakeOut)
    ensures d.read == if c.consumed == AnswerBytes(c.handshakeOut) then HeaderRead([]) else ReadStopped
  {
    hide ConnOk, ToBytes, Handshake.Scramble, FromBytes, Fits;
    AnswerRead(c, d);
    SameAnswer(c.read.got, c.handshakeCheck);
  }

  lemma StepCloses(c: Conn, step: Step, d: Conn)
    requires ConnOk(c) && ConnectionSpec.Next(c, step, d)
    ensures d.open <==> c.open && !Closes(c, step)
  {
    hide ConnOk, ToBytes, Handshake.Scramble, FromBytes, Fits, Framing.Parse;
    if step == ValidationDone(true) && c.owner == ServerEnd {
      ValidationCloses(c, d);
    }
  }

  /** A read that has stopped will not go on, and it stops only as the socket closes. */
  lemma StepStops(c: Conn, step: Step, d: Conn)
    requires ConnOk(c) && ConnectionSpec.Next(c, step, d) && (c.read.ReadStopped? ==> !c.open)
    ensures d.read.ReadStopped? ==> !d.open
  {
    hide ConnOk, ToBytes, Handshake.Scramble, FromBytes, Fits, Framing.Parse;
  }

  // ---- Over runs of both ends ----

  lemma {:induction false} OpenExactly(run: seq<Link>, sides: seq<Side>, steps: seq<Step>, challenge: Uint64, i: nat,
                                      side: Side)
    requires Links.IsRun(run, sides, steps, challenge) && i < |run|
    ensures |sides| == |steps| == |run| - 1
    ensures End(run[i], side).open <==>
      forall j :: 0 <= j < i && sides[j] == side ==> !Closes(End(run[j], side), steps[j])
    ensures End(run[i], side).read.ReadStopped? ==> !End(run[i], side).open
  {
    hide ConnOk, ConnectionSpec.Next, End, Closes;
    if i == 0 {
      StartsOpen(run, sides, steps, challenge, side);
    } else {
      OpenExactly(run, sides, steps, challenge, i - 1, side);
      EndStep(run, sides, steps, challenge, i - 1, side);
      hide Links.IsRun;
      if sides[i - 1] == side {
        StepCloses(End(run[i - 1], side), steps[i - 1], End(run[i], side));
        StepStops(End(run[i - 1], side), steps[i - 1], End(run[i], side));
      }
    }
  }

  lemma StartsOpen(run: seq<Link>, sides: seq<Side>, steps: seq<Step>, challenge: Uint64, side: Side)
    requires Links.IsRun(run, sides, steps, challenge)
    ensures End(run[0], side).open && !End(run[0], side).read.ReadStopped?
  {
    hide Links.Next, ToBytes, Handshake.Scramble;
  }

  /** After a read, a write or the handshake has failed at an end, its socket is closed for good. */
  lemma ClosedForGood(run: seq<Link>, sides: seq<Side>, steps: seq<Step>, challenge: Uint64, i: nat, j: nat, side: Side)
    requires Links.IsRun(run, sides, steps, challenge) && i < j < |run|
    requires |sides| == |steps| == |run| - 1 && sides[i] == side && Closes(End(run[i], side), steps[i])
    ensures !End(run[j], side).open
  {
    hide Links.IsRun, Closes, End;
    OpenExactly(run, sides, steps, challenge, j, side);
  }

  // ---- One end, with any peer ----

  lemma {:induction false} EndOpenExactly(run: seq<Conn>, steps: seq<Step>, challenge: Uint64, i: nat)
    requires IsEndRun(run, steps, challenge) && i < |run|
    ensures run[i].open <==> forall j :: 0 <= j < i ==> !Closes(run[j], steps[j])
    ensures run[i].read.ReadStopped? ==> !run[i].open
  {
    hide ConnOk, ConnectionSpec.Next, Closes;
    EndRunKeeps(run, steps, challenge, i);
    if i > 0 {
      EndOpenExactly(run, steps, challenge, i - 1);
      EndRunKeeps(run, steps, challenge, i - 1);
      StepCloses(run[i - 1], steps[i - 1], run[i]);
      StepStops(run[i - 1], steps[i - 1], run[i]);
    }
  }

  /**
   Whatever a peer sends: if its first eight bytes are not the answer to the challenge, then as soon as
   they have been looked at the socket is closed, and nothing of it is validated or delivered.
   */
  lemma WrongAnswerCloses(run: seq<Conn>, steps: seq<Step>, challenge: Uint64, i: nat)
    requires IsEndRun(run, steps, challenge) && i < |run|
    requires |run[i].consumed| >= 8 && run[i].consumed[..8] != AnswerBytes(challenge)
    ensures !run[i].validated && run[i].delivered == []
    ensures run[i].read.ValidationRead? || (run[i].read.ReadStopped? && !run[i].open)
  {
    EndOpenExactly(run, steps, challenge, i);
    EndRunKeeps(run, steps, challenge, i);
    hide WriterOk, ReaderOk, ToBytes, Handshake.Scramble, IsEndRun;
  }

  /** And the right answer, once it is looked at, is accepted: the first header is awaited. */
  lemma RightAnswerOpens(run: seq<Conn>, steps: seq<Step>, challenge: Uint64, i: nat)
    requires IsEndRun(run, steps, challenge) && i < |steps| && steps[i] == ValidationDone(true)
    ensures i + 1 < |run|
    ensures run[i + 1].validated && run[i + 1].read == HeaderRead([]) <==> run[i].consumed == AnswerBytes(challenge)
  {
    EndRunKeeps(run, steps, challenge, i);
    EndRunKeeps(run, steps, challenge, i + 1);
    assert ConnectionSpec.Next(run[i], steps[i], run[i + 1]);
    hide ConnOk, ToBytes, Handshake.Scramble, IsEndRun, ConnectionSpec.Next;
    ValidationCloses(run[i], run[i + 1]);
  }

  // ---- Reading goes on ----

  /** While the socket is open a read is in flight, but for a client that is writing its answer. */
  ghost predicate ReadsOn(c: Conn) {
    c.open ==> !c.read.ReadStopped? && (c.read.NoRead? ==> c.owner == ClientEnd && c.handshakeWrite.Sending?)
  }

  lemma StepReadsOn(c: Conn, step: Step, d: Conn)
    requires ConnOk(c) && ConnectionSpec.Next(c, step, d) && ReadsOn(c)
    ensures ReadsOn(d)
  {
    hide WriterOk, ReaderOk, ToBytes, Handshake.Scramble, FromBytes, Fits, Framing.Parse, Answer;
  }

  lemma StartsReading(run: seq<Link>, sides: seq<Side>, steps: seq<Step>, challenge: Uint64, side: Side)
    requires Links.IsRun(run, sides, steps, challenge)
    ensures ReadsOn(End(run[0], side))
  {
    hide Links.Next, ToBytes, Handshake.Scramble;
  }

  lemma {:induction false} AlwaysReading(run: seq<Link>, sides: seq<Side>, steps: seq<Step>, challenge: Uint64, i: nat,
                                        side: Side)
    requires Links.IsRun(run, sides, steps, challenge) && i < |run|
    ensures ReadsOn(End(run[i], side))
  {
    hide ConnOk, ConnectionSpec.Next, End, ReadsOn;
    if i == 0 {
      StartsReading(run, sides, steps, challenge, side);
    } else {
      AlwaysReading(run, sides, steps, challenge, i - 1, side);
      EndStep(run, sides, steps, challenge, i - 1, side);
      hide Links.IsRun;
      if sides[i - 1] == side {
        StepReadsOn(End(run[i - 1], side), steps[i - 1], End(run[i], side));
      }
    }
  }
}
