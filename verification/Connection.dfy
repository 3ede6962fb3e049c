/**
 A connection as the program has it: an object whose buffers are filled and emptied while operations
 are in flight, and whose completion handlers update its fields.  Seen from outside it is the value of
 module `ConnectionSpec`.
 */
module Connections {
  import opened Bytes
  import opened Framing
  import opened Handshake
  import opened ConnectionSpec

  /** What becomes of the write of the handshake value. */
  datatype Answering = NotYet | UnderWay | Answered | NeverAnswered

  /** What is being written of the message at the front of the queue. */
  datatype Writing = Nothing | ItsHeader | ItsBody | Broken

  /** Which buffer is being read into. */
  datatype Reading = Validation | Paused | TheHeader | TheBody | Ended

  class Connection {
    const owner: Owner
    var open: bool
    var handshakeOut: Uint64
    var handshakeCheck: Uint64
    var answering: Answering
    var answered: nat               // bytes of the handshake value that have left
    var out: seq<Msg>               // m_qMessagesOut
    var writing: Writing
    var written: nat                // bytes that have left of what is being written
    var reading: Reading
    var got: nat                    // bytes that have arrived of what is being read
    const handshakeIn: array<Byte>  // m_nHandshakeIn
    const header: array<Byte>       // m_msgTemporaryIn.header
    var body: array<Byte>           // m_msgTemporaryIn.body
    var validated: bool
    var delivered: seq<Msg>
    ghost var scratch: Msg          // m_msgTemporaryIn as it was when the read in flight began
    ghost var posted: seq<Msg>
    ghost var wrote: seq<Byte>
    ghost var consumed: seq<Byte>

    ghost predicate Valid()
      reads this, handshakeIn, header, body
    {
      && handshakeIn.Length == 8 && header.Length == HEADER_SIZE
      && handshakeIn != header && handshakeIn != body && header != body
      && answered <= 8
      && (writing.ItsHeader? ==> out != [] && written <= HEADER_SIZE)
      && (writing.ItsBody? ==> out != [] && written <= |out[0].body|)
      && (reading.Validation? ==> got <= 8)
      && (reading.TheHeader? ==> got <= HEADER_SIZE)
      && (reading.TheBody? ==> got <= body.Length == |scratch.body| && HeaderIs(scratch))
      && (reading.Validation? || reading.Paused? || reading.TheHeader? ==> body[..] == scratch.body)
    }

    /** The header buffer holds the header of `m`. */
    ghost predicate HeaderIs(m: Msg)
      requires header.Length == HEADER_SIZE
      reads header
    {
      Parse(header[..]) == m.(body := [])
    }

    ghost function HandshakeInFlight(): HandshakeWrite
      requires answered <= 8
      reads this
    {
      match answering
      case NotYet => Unsent
      case UnderWay => Sending(ToBytes(handshakeOut, 8)[answered..])
      case Answered => Sent
      case NeverAnswered => HandshakeFailed
    }

    ghost function WriteInFlight(): MessageWrite
      requires Valid()
      reads this, handshakeIn, header, body
    {
      match writing
      case Nothing => NoWrite
      case ItsHeader => HeaderWrite(Header(out[0])[written..])
      case ItsBody => BodyWrite(out[0].body[written..])
      case Broken => WriteFailed
    }

    ghost function ReadInFlight(): Read
      requires Valid()
      reads this, handshakeIn, header, body
    {
      match reading
      case Validation => ValidationRead(handshakeIn[..got])
      case Paused => NoRead
      case TheHeader => HeaderRead(header[..got])
      case TheBody => BodyRead(body[..got])
      case Ended => ReadStopped
    }

    ghost function View(): Conn
      requires Valid()
      reads this, handshakeIn, header, body
    {
      Conn(owner, open, handshakeOut, handshakeCheck, HandshakeInFlight(), out, WriteInFlight(), ReadInFlight(),
           scratch, validated, delivered, posted, wrote, consumed)
    }

    /** The server's end, after `ConnectToClient`. */
    constructor ForServer(challenge: Uint64)
      ensures Valid() && View() == NewServerEnd(challenge)
      ensures fresh(handshakeIn) && fresh(header) && fresh(body)
    {
      hide ToBytes, Handshake.Scramble;
      owner, open := ServerEnd, true;
      handshakeOut, handshakeCheck := challenge, Handshake.Scramble(challenge);
      answering, answered, writing, written, reading, got := UnderWay, 0, Nothing, 0, Validation, 0;
      handshakeIn, header, body := new Byte[8], new Byte[HEADER_SIZE], new Byte[0];
      out, scratch, validated, delivered := [], NO_MSG, false, [];
      posted, wrote, consumed := [], [], [];
    }

    /** The client's end, once `async_connect` has succeeded. */
    constructor ForClient()
      ensures Valid() && View() == NewClientEnd()
      ensures fresh(handshakeIn) && fresh(header) && fresh(body)
    {
      owner, open := ClientEnd, true;
      handshakeOut, handshakeCheck := 0, 0;
      answering, answered, writing, written, reading, got := NotYet, 0, Nothing, 0, Validation, 0;
      handshakeIn, header, body := new Byte[8], new Byte[HEADER_SIZE], new Byte[0];
      out, scratch, validated, delivered := [], NO_MSG, false, [];
      posted, wrote, consumed := [], [], [];
    }

    // ---- Bytes on their way ----

    /** `n` bytes leave, from wherever those of the write in flight are. */
    method WriteSome(n: nat)
      requires Valid() && n <= |NextBytes(View())|
      modifies this`answered, this`written, this`wrote
      ensures Valid() && View() == ConnectionSpec.WriteSome(old(View()), n)
    {
      hide ToBytes, Header, HeaderIs;
      wrote := wrote + NextBytes(View())[..n];
      if answering.UnderWay? && answered < 8 {
        answered := answered + n;
      } else {
        written := written + n;
      }
    }

    /** `bytes` arrive and are put behind those that have arrived before. */
    method ReadSome(bytes: seq<Byte>)
      requires Valid() && |bytes| <= Wanted(View())
      modifies this`got, this`consumed, handshakeIn, header, body
      ensures Valid()
      ensures View() == old(View().(read := Received(View().read, bytes), consumed := View().consumed + bytes))
    {
      hide ToBytes, Header, Parse;
      match reading {
        case Validation => Fill(handshakeIn, got, bytes);
        case TheHeader => Fill(header, got, bytes);
        case TheBody => Fill(body, got, bytes);
        case Paused =>
        case Ended =>
      }
      got := got + |bytes|;
      consumed := consumed + bytes;
    }

    // ---- Writing ----

    method Close()
      requires Valid()
      modifies this`open
      ensures Valid() && View() == CloseSocket(old(View()))
    {
      open := false;
    }

    /** The handler that `Send` posts to the context. */
    method Send(msg: Msg)
      requires Valid()
      modifies this`out, this`posted, this`writing, this`written
      ensures Valid() && View() == ConnectionSpec.Send(old(View()), msg)
    {
      hide ToBytes, Header, HeaderIs;
      var writingMessage := out != [];
      out := out + [msg];
      posted := posted + [msg];
      if !writingMessage {
        WriteHeader();
      }
    }

    method WriteHeader()
      requires out != []
      modifies this`writing, this`written
      ensures writing == ItsHeader && written == 0
    {
      writing, written := ItsHeader, 0;
    }

    method PopAndGoOn()
      requires Valid() && out != []
      modifies this`out, this`writing, this`written
      ensures Valid() && View() == PopFront(old(View()))
    {
      hide ToBytes, Header, HeaderIs;
      out := out[1..];
      writing := Nothing;
      if out != [] {
        WriteHeader();
      }
    }

    method OnHeaderWritten(ok: bool)
      requires Valid() && writing.ItsHeader?
      modifies this`open, this`out, this`writing, this`written
      ensures Valid() && View() == ConnectionSpec.OnHeaderWritten(old(View()), ok)
    {
      hide ToBytes, Header, HeaderIs;
      if ok {
        if |out[0].body| > 0 {
          writing, written := ItsBody, 0;
        } else {
          PopAndGoOn();
        }
      } else {
        writing := Broken;
        Close();
      }
    }

    method OnBodyWritten(ok: bool)
      requires Valid() && writing.ItsBody?
      modifies this`open, this`out, this`writing, this`written
      ensures Valid() && View() == ConnectionSpec.OnBodyWritten(old(View()), ok)
    {
      hide ToBytes, Header, HeaderIs;
      if ok {
        PopAndGoOn();
      } else {
        writing := Broken;
        Close();
      }
    }

    method OnHandshakeWritten(ok: bool)
      requires Valid() && (owner == ClientEnd ==> reading.Paused?)
      modifies this`open, this`answering, this`reading, this`got
      ensures Valid() && View() == ConnectionSpec.OnHandshakeWritten(old(View()), ok)
    {
      hide ToBytes, Header, HeaderIs;
      if ok {
        answering := Answered;
        if owner == ClientEnd {
          ReadHeader();
        }
      } else {
        answering := NeverAnswered;
        Close();
      }
    }

    // ---- Reading ----

    method ReadHeader()
      modifies this`reading, this`got
      ensures reading == TheHeader && got == 0
    {
      reading, got := TheHeader, 0;
    }

    method StopReading()
      requires Valid()
      modifies this`open, this`reading
      ensures Valid() && View() == FailRead(old(View()))
    {
      reading := Ended;
      Close();
    }

    method OnValidationRead(ok: bool)
      requires Valid() && reading.Validation? && (ok ==> got == 8)
      modifies this`open, this`handshakeOut, this`answering, this`answered, this`reading, this`got, this`validated
      ensures Valid() && View() == ConnectionSpec.OnValidationRead(old(View()), ok)
    {
      hide ToBytes, FromBytes, Fits, Handshake.Scramble, Header, HeaderIs;
      if !ok {
        StopReading();
        return;
      }
      assert handshakeIn[..got] == handshakeIn[..];
      var received := ReceivedValue();
      if owner == ServerEnd {
        if received == handshakeCheck {
          validated := true;
          ReadHeader();
        } else {
          StopReading();
        }
      } else {
        Answer(Handshake.Scramble(received));
      }
    }

    /** The client's answer is on its way; until it has left nothing is read. */
    method Answer(value: Uint64)
      requires Valid() && reading.Validation?
      modifies this`handshakeOut, this`answering, this`answered, this`reading
      ensures Valid() && View() == old(View()).(handshakeOut := value, read := NoRead,
                                                handshakeWrite := Sending(ToBytes(value, 8)))
    {
      hide ToBytes, Header, HeaderIs;
      handshakeOut := value;
      answering, answered := UnderWay, 0;
      reading := Paused;
    }

    /** The eight bytes of `m_nHandshakeIn` read as an integer. */
    method ReceivedValue() returns (received: Uint64)
      requires handshakeIn.Length == 8
      ensures received == FromBytes(handshakeIn[..])
    {
      RoundTripBack(handshakeIn[..]);
      Fits64(FromBytes(handshakeIn[..]));
      received := FromBytes(handshakeIn[..]);
    }

    method AddToIncomingMessageQueue()
      requires Valid() && HeaderIs(scratch) && body[..] == scratch.body
      modifies this`delivered, this`reading, this`got
      ensures Valid() && View() == Deliver(old(View()))
    {
      hide Parse;
      var read := Parse(header[..]);
      delivered := delivered + [read.(body := body[..])];
      ReadHeader();
    }

    method OnHeaderRead(ok: bool)
      requires Valid() && reading.TheHeader? && (ok ==> got == HEADER_SIZE)
      modifies this`open, this`body, this`scratch, this`delivered, this`reading, this`got
      ensures Valid() && View() == ConnectionSpec.OnHeaderRead(old(View()), ok)
      ensures body == old(body) || fresh(body)
    {
      hide ToBytes, Header, Parse, Resize, FromBytes, HandshakeBytesLeft;
      if !ok {
        StopReading();
        return;
      }
      assert header[..got] == header[..];
      var read := Parse(header[..]);
      ParsedBody(header[..]);
      scratch := scratch.(id := read.id, size := read.size);
      if read.size > 0 {
        ReadBody();
      } else {
        AddToIncomingMessageQueue();
      }
    }

    /** Makes room for the body that the header tells of, and begins to read it. */
    method ReadBody()
      requires Valid() && HeaderIs(scratch) && body[..] == scratch.body
      modifies this`body, this`scratch, this`reading, this`got
      ensures Valid() && fresh(body)
      ensures View() == old(View()).(scratch := scratch, read := BodyRead([]))
      ensures scratch == old(scratch).(body := Resize(old(scratch).body, old(scratch).size))
    {
      hide ToBytes, Header, Parse, FromBytes;
      var size := Parse(header[..]).size;
      body := Resized(body, size);
      scratch := scratch.(body := body[..]);
      reading, got := TheBody, 0;
    }

    method OnBodyRead(ok: bool)
      requires Valid() && reading.TheBody? && (ok ==> got == body.Length)
      modifies this`open, this`scratch, this`delivered, this`reading, this`got
      ensures Valid() && View() == ConnectionSpec.OnBodyRead(old(View()), ok)
    {
      hide ToBytes, Header, Parse;
      if !ok {
        StopReading();
        return;
      }
      assert body[..got] == body[..];
      scratch := scratch.(body := body[..]);
      AddToIncomingMessageQueue();
    }
  }

  lemma ParsedBody(s: seq<Byte>)
    requires |s| == HEADER_SIZE
    ensures Parse(s).body == []
  {
  }

  /** Bytes arriving in a buffer. */
  method Fill(buffer: array<Byte>, got: nat, bytes: seq<Byte>)
    requires got + |bytes| <= buffer.Length
    modifies buffer
    ensures buffer[..got + |bytes|] == old(buffer[..got]) + bytes
  {
    for i := 0 to |bytes|
      invariant buffer[..got + i] == old(buffer[..got]) + bytes[..i]
    {
      buffer[got + i] := bytes[i];
      assert buffer[..got + i + 1] == buffer[..got + i] + [bytes[i]];
    }
  }

  /** `std::vector::resize`. */
  method Resized(body: array<Byte>, n: nat) returns (resized: array<Byte>)
    ensures fresh(resized) && resized[..] == Resize(body[..], n)
  {
    resized := new Byte[n](_ => 0);
    var kept := if n <= body.Length then n else body.Length;
    for i := 0 to kept
      invariant resized[..i] == body[..i]
      invariant forall k :: i <= k < n ==> resized[k] == 0
    {
      resized[i] := body[i];
      assert resized[..i + 1] == resized[..i] + [body[i]];
    }
    assert resized[..] == Resize(body[..], n);
  }
}
