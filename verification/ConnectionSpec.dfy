/**
 One end of a connection as a value, and what each of its asynchronous completion handlers does.

 The environment is everything else: it decides when bytes move and when an operation fails.
 Bytes go out in the order the writes were issued, so those of the handshake come first.
 */
module ConnectionSpec {
  import opened Bytes
  import opened Framing
  import opened Handshake

  datatype Owner = ServerEnd | ClientEnd

  /** The write of the handshake value, and the bytes of it still to go. */
  datatype HandshakeWrite = Unsent | Sending(left: seq<Byte>) | Sent | HandshakeFailed

  /** The message write in flight, and the bytes of it still to go. */
  datatype MessageWrite = NoWrite | HeaderWrite(left: seq<Byte>) | BodyWrite(left: seq<Byte>) | WriteFailed

  /** The read in flight, and the bytes it has received. */
  datatype Read =
    | ValidationRead(got: seq<Byte>)
    | NoRead                      // a client that is still writing its answer
    | HeaderRead(got: seq<Byte>)
    | BodyRead(got: seq<Byte>)
    | ReadStopped

  datatype Conn = Conn(
    owner: Owner,
    open: bool,
    handshakeOut: Uint64,
    handshakeCheck: Uint64,
    handshakeWrite: HandshakeWrite,
    out: seq<Msg>,          // m_qMessagesOut
    write: MessageWrite,
    read: Read,
    scratch: Msg,           // m_msgTemporaryIn
    validated: bool,        // OnClientValidated has been called
    delivered: seq<Msg>,    // everything ever pushed to m_qMessagesIn
    posted: seq<Msg>,       // everything ever passed to Send
    wrote: seq<Byte>,       // everything ever written to the socket
    consumed: seq<Byte>)    // everything ever read from it

  const NO_MSG := Msg(0, 0, [])

  /** The server's end after `ConnectToClient`: the challenge is being written and the answer awaited. */
  function NewServerEnd(challenge: Uint64): Conn {
    Conn(ServerEnd, true, challenge, Scramble(challenge), Sending(ToBytes(challenge, 8)), [], NoWrite,
         ValidationRead([]), NO_MSG, false, [], [], [], [])
  }

  /** The client's end once `async_connect` has succeeded. */
  function NewClientEnd(): Conn {
    Conn(ClientEnd, true, 0, 0, Unsent, [], NoWrite, ValidationRead([]), NO_MSG, false, [], [], [], [])
  }

  function CloseSocket(c: Conn): Conn {
    c.(open := false)
  }

  // ---- Writing ----

  /** The posted part of `Send`. */
  function Send(c: Conn, msg: Msg): Conn {
    c.(posted := c.posted + [msg], out := c.out + [msg],
       write := if c.out == [] then HeaderWrite(Header(msg)) else c.write)
  }

  /** The front message is done: on to the next header, if there is one. */
  function PopFront(c: Conn): Conn
    requires c.out != []
  {
    c.(out := c.out[1..], write := if |c.out| > 1 then HeaderWrite(Header(c.out[1])) else NoWrite)
  }

  function FailWrite(c: Conn): Conn {
    CloseSocket(c).(write := WriteFailed)
  }

  function OnHeaderWritten(c: Conn, ok: bool): Conn
    requires c.out != []
  {
    if !ok then FailWrite(c)
    else if |c.out[0].body| > 0 then c.(write := BodyWrite(c.out[0].body))
    else PopFront(c)
  }

  function OnBodyWritten(c: Conn, ok: bool): Conn
    requires c.out != []
  {
    if ok then PopFront(c) else FailWrite(c)
  }

  function OnHandshakeWritten(c: Conn, ok: bool): Conn {
    if !ok then CloseSocket(c).(handshakeWrite := HandshakeFailed)
    else c.(handshakeWrite := Sent, read := if c.owner == ClientEnd then HeaderRead([]) else c.read)
  }

  // ---- Reading ----

  function FailRead(c: Conn): Conn {
    CloseSocket(c).(read := ReadStopped)
  }

  function OnValidationRead(c: Conn, ok: bool): Conn
    requires ok ==> c.read.ValidationRead? && |c.read.got| == 8
  {
    if !ok then FailRead(c)
    else
      RoundTripBack(c.read.got);
      Fits64(FromBytes(c.read.got));
      var received: Uint64 := FromBytes(c.read.got);
      match c.owner
      case ServerEnd =>
        if received == c.handshakeCheck then c.(validated := true, read := HeaderRead([])) else FailRead(c)
      case ClientEnd =>
        var answer := Scramble(received);
        c.(handshakeOut := answer, handshakeWrite := Sending(ToBytes(answer, 8)), read := NoRead)
  }

  /** `AddToIncomingMessageQueue`, which hands over the scratch message as it is. */
  function Deliver(c: Conn): Conn {
    c.(delivered := c.delivered + [c.scratch], read := HeaderRead([]))
  }

  /** `std::vector::resize`. */
  function Resize(body: seq<Byte>, n: nat): (r: seq<Byte>)
    ensures |r| == n
  {
    if n <= |body| then body[..n] else body + seq(n - |body|, _ => 0)
  }

  function OnHeaderRead(c: Conn, ok: bool): Conn
    requires ok ==> c.read.HeaderRead? && |c.read.got| == HEADER_SIZE
  {
    if !ok then FailRead(c)
    else
      var h := Parse(c.read.got);
      if h.size > 0 then
        c.(scratch := h.(body := Resize(c.scratch.body, h.size)), read := BodyRead([]))
      else
        Deliver(c.(scratch := c.scratch.(id := h.id, size := h.size)))
  }

  function OnBodyRead(c: Conn, ok: bool): Conn
    requires ok ==> c.read.BodyRead?
  {
    if !ok then FailRead(c) else Deliver(c.(scratch := c.scratch.(body := c.read.got)))
  }

  // ---- The steps of one end in an arbitrary environment ----

  datatype Step =
    | Post(msg: Msg)               // the handler posted by Send runs
    | WriteBytes(n: nat)           // n bytes leave
    | HandshakeWritten(ok: bool)
    | HeaderWritten(ok: bool)
    | BodyWritten(ok: bool)
    | ReadBytes(bytes: seq<Byte>)  // these bytes arrive
    | ValidationDone(ok: bool)
    | HeaderDone(ok: bool)
    | BodyDone(ok: bool)
    | CloseDown                    // Disconnect, or an error elsewhere

  /** How many more bytes the read in flight waits for. */
  function Wanted(c: Conn): int {
    match c.read
    case ValidationRead(got) => 8 - |got|
    case HeaderRead(got) => HEADER_SIZE - |got|
    case BodyRead(got) => |c.scratch.body| - |got|
    case _ => 0
  }

  function Received(r: Read, bytes: seq<Byte>): Read {
    match r
    case ValidationRead(got) => ValidationRead(got + bytes)
    case HeaderRead(got) => HeaderRead(got + bytes)
    case BodyRead(got) => BodyRead(got + bytes)
    case _ => r
  }

  function MessageBytesLeft(w: MessageWrite): seq<Byte> {
    match w
    case HeaderWrite(left) => left
    case BodyWrite(left) => left
    case _ => []
  }

  function WithMessageBytesLeft(w: MessageWrite, left: seq<Byte>): MessageWrite {
    match w
    case HeaderWrite(_) => HeaderWrite(left)
    case BodyWrite(_) => BodyWrite(left)
    case _ => w
  }

  function HandshakeBytesLeft(w: HandshakeWrite): seq<Byte> {
    if w.Sending? then w.left else []
  }

  /** The next `n` bytes to leave: those of the handshake first. */
  function NextBytes(c: Conn): seq<Byte> {
    if HandshakeBytesLeft(c.handshakeWrite) != [] then HandshakeBytesLeft(c.handshakeWrite)
    else MessageBytesLeft(c.write)
  }

  function WriteSome(c: Conn, n: nat): Conn
    requires n <= |NextBytes(c)|
  {
    var d := c.(wrote := c.wrote + NextBytes(c)[..n]);
    if HandshakeBytesLeft(c.handshakeWrite) != [] then d.(handshakeWrite := Sending(NextBytes(c)[n..]))
    else d.(write := WithMessageBytesLeft(c.write, NextBytes(c)[n..]))
  }

  ghost predicate Next(c: Conn, step: Step, d: Conn) {
    match step
    case Post(msg) =>
      // A client application speaks first in answer to a message, after its handshake is written.
      && (c.owner == ClientEnd ==> c.handshakeWrite == Sent)
      && d == Send(c, msg)
    case WriteBytes(n) => c.open && n <= |NextBytes(c)| && d == WriteSome(c, n)
    case HandshakeWritten(ok) =>
      c.handshakeWrite.Sending? && (ok ==> c.handshakeWrite.left == []) && d == OnHandshakeWritten(c, ok)
    case HeaderWritten(ok) =>
      c.out != [] && c.write.HeaderWrite? && (ok ==> c.write.left == []) && d == OnHeaderWritten(c, ok)
    case BodyWritten(ok) =>
      c.out != [] && c.write.BodyWrite? && (ok ==> c.write.left == []) && d == OnBodyWritten(c, ok)
    case ReadBytes(bytes) =>
      && c.open && |bytes| <= Wanted(c)
      && d == c.(read := Received(c.read, bytes), consumed := c.consumed + bytes)
    case ValidationDone(ok) =>
      c.read.ValidationRead? && (ok ==> Wanted(c) == 0) && d == OnValidationRead(c, ok)
    case HeaderDone(ok) => c.read.HeaderRead? && (ok ==> Wanted(c) == 0) && d == OnHeaderRead(c, ok)
    case BodyDone(ok) => c.read.BodyRead? && (ok ==> Wanted(c) == 0) && d == OnBodyRead(c, ok)
    case CloseDown => d == CloseSocket(c)
  }
}
