/**
 The game's typed messages as they travel: each is a header and the bytes of one value.  A receiver
 that never clears the body of its scratch message still reads every one of them correctly.
 */
module Wire {
  import opened Basics
  import opened Bytes
  import opened Protocol
  import opened Framing
  import opened Messages
  import opened ConnectionSpec
  import opened ConnectionSafety
  import Handshake
  import Links

  const ACCEPTED := 2
  const ASSIGN_ID := 3
  const REGISTER := 4
  const UNREGISTER := 5
  const ADD_PLAYER := 6
  const REMOVE_PLAYER := 7
  const UPDATE_PLAYER := 8

  const ID_SIZE := 4
  const DESC_SIZE := 56

  // ---- Values as bytes ----

  function IdBytes(id: Uint32): (s: seq<Byte>)
    ensures |s| == ID_SIZE
  {
    ToBytes(id, 4)
  }

  function IdOf(s: seq<Byte>): Uint32
    requires |s| == ID_SIZE
  {
    RoundTripBack(s);
    Fits32(FromBytes(s));
    FromBytes(s)
  }

  function DescBytes(d: Desc): (s: seq<Byte>)
    ensures |s| == DESC_SIZE
  {
    IdBytes(d.uniqueId) + d.body
  }

  function DescOf(s: seq<Byte>): Desc
    requires |s| == DESC_SIZE
  {
    Desc(IdOf(s[..ID_SIZE]), s[ID_SIZE..])
  }

  lemma IdRoundTrip(id: Uint32)
    ensures IdOf(IdBytes(id)) == id
  {
    Fits32(id);
    RoundTrip(id, 4);
    hide ToBytes, FromBytes;
  }

  lemma DescRoundTrip(d: Desc)
    ensures DescOf(DescBytes(d)) == d
  {
    IdRoundTrip(d.uniqueId);
    hide IdBytes, IdOf;
    assert DescBytes(d)[..ID_SIZE] == IdBytes(d.uniqueId) && DescBytes(d)[ID_SIZE..] == d.body;
  }

  // ---- Messages as frames ----

  /** A message with one value pushed onto it, or none. */
  function Holding(id: Uint32, value: seq<Byte>): Msg {
    if value == [] then Msg(id, 0, []) else Pushed(Msg(id, 0, []), value)
  }

  function EncodeServer(m: ServerMsg): Msg {
    match m
    case Accepted => Holding(ACCEPTED, [])
    case AssignId(id) => Holding(ASSIGN_ID, IdBytes(id))
    case AddPlayer(desc) => Holding(ADD_PLAYER, DescBytes(desc))
    case RemovePlayer(id) => Holding(REMOVE_PLAYER, IdBytes(id))
    case UpdatePlayer(desc) => Holding(UPDATE_PLAYER, DescBytes(desc))
  }

  function EncodeClient(m: ClientMsg): Msg {
    match m
    case Register(desc) => Holding(REGISTER, DescBytes(desc))
    case Unregister => Holding(UNREGISTER, [])
    case Update(desc) => Holding(UPDATE_PLAYER, DescBytes(desc))
  }

  /** The identifier that `operator>>` pulls. */
  function PullId(m: Msg): Option<Uint32> {
    if |m.body| >= ID_SIZE then Some(IdOf(Top(m, ID_SIZE))) else None
  }

  function PullDesc(m: Msg): Option<Desc> {
    if |m.body| >= DESC_SIZE then Some(DescOf(Top(m, DESC_SIZE))) else None
  }

  /** What the client's `UpdateClientState` makes of a message: it looks at no body it does not need. */
  function DecodeServer(m: Msg): Option<ServerMsg> {
    if m.id == ACCEPTED then Some(Accepted)
    else if m.id == ASSIGN_ID && PullId(m).Some? then Some(AssignId(PullId(m).value))
    else if m.id == ADD_PLAYER && PullDesc(m).Some? then Some(AddPlayer(PullDesc(m).value))
    else if m.id == REMOVE_PLAYER && PullId(m).Some? then Some(RemovePlayer(PullId(m).value))
    else if m.id == UPDATE_PLAYER && PullDesc(m).Some? then Some(UpdatePlayer(PullDesc(m).value))
    else None
  }

  /** What the server's `OnMessage` makes of one. */
  function DecodeClient(m: Msg): Option<ClientMsg> {
    if m.id == UNREGISTER then Some(Unregister)
    else if m.id == REGISTER && PullDesc(m).Some? then Some(Register(PullDesc(m).value))
    else if m.id == UPDATE_PLAYER && PullDesc(m).Some? then Some(Update(PullDesc(m).value))
    else None
  }

  lemma PulledBack(id: Uint32, value: seq<Byte>)
    requires 0 < |value| < TWO_32
    ensures var m := Holding(id, value);
      m.id == id && m.size == |value| && m.body == value && Top(m, |value|) == value && WellFormed(m)
  {
    assert [] + value == value;
  }

  lemma HoldsId(k: Uint32, id: Uint32)
    ensures WellFormed(Holding(k, IdBytes(id))) && Holding(k, IdBytes(id)).id == k && Holding(k, IdBytes(id)).size > 0
    ensures PullId(Holding(k, IdBytes(id))) == Some(id)
  {
    hide IdBytes, IdOf, Holding, Top;
    PulledBack(k, IdBytes(id));
    IdRoundTrip(id);
  }

  lemma HoldsDesc(k: Uint32, d: Desc)
    ensures WellFormed(Holding(k, DescBytes(d))) && Holding(k, DescBytes(d)).id == k
    ensures Holding(k, DescBytes(d)).size > 0
    ensures PullDesc(Holding(k, DescBytes(d))) == Some(d)
  {
    hide DescBytes, DescOf, Holding, Top;
    PulledBack(k, DescBytes(d));
    DescRoundTrip(d);
  }

  /** A message comes back as it was sent, also when it has no body and a stale one is attached. */
  lemma ServerRoundTrip(m: ServerMsg, stale: Msg)
    requires Strip(stale) == EncodeServer(m) && (EncodeServer(m).size > 0 ==> stale == EncodeServer(m))
    ensures DecodeServer(stale) == Some(m)
  {
    hide PullId, PullDesc, IdBytes, DescBytes;
    match m
    case Accepted =>
    case AssignId(id) => HoldsId(ASSIGN_ID, id); hide Holding;
    case AddPlayer(desc) => HoldsDesc(ADD_PLAYER, desc); hide Holding;
    case RemovePlayer(id) => HoldsId(REMOVE_PLAYER, id); hide Holding;
    case UpdatePlayer(desc) => HoldsDesc(UPDATE_PLAYER, desc); hide Holding;
  }

  lemma ClientRoundTrip(m: ClientMsg, stale: Msg)
    requires Strip(stale) == EncodeClient(m) && (EncodeClient(m).size > 0 ==> stale == EncodeClient(m))
    ensures DecodeClient(stale) == Some(m)
  {
    hide PullId, PullDesc, IdBytes, DescBytes;
    match m
    case Register(desc) => HoldsDesc(REGISTER, desc); hide Holding;
    case Unregister =>
    case Update(desc) => HoldsDesc(UPDATE_PLAYER, desc); hide Holding;
  }

  function EncodeServerAll(ms: seq<ServerMsg>): (r: seq<Msg>)
    ensures |r| == |ms| && forall i :: 0 <= i < |r| ==> r[i] == EncodeServer(ms[i])
  {
    seq(|ms|, i requires 0 <= i < |ms| => EncodeServer(ms[i]))
  }

  function EncodeClientAll(ms: seq<ClientMsg>): (r: seq<Msg>)
    ensures |r| == |ms| && forall i :: 0 <= i < |r| ==> r[i] == EncodeClient(ms[i])
  {
    seq(|ms|, i requires 0 <= i < |ms| => EncodeClient(ms[i]))
  }

  lemma ServerWellFormed(m: ServerMsg)
    ensures WellFormed(EncodeServer(m))
  {
    hide IdBytes, DescBytes;
    match m
    case Accepted =>
    case AssignId(id) => HoldsId(ASSIGN_ID, id); hide Holding;
    case AddPlayer(desc) => HoldsDesc(ADD_PLAYER, desc); hide Holding;
    case RemovePlayer(id) => HoldsId(REMOVE_PLAYER, id); hide Holding;
    case UpdatePlayer(desc) => HoldsDesc(UPDATE_PLAYER, desc); hide Holding;
  }

  lemma ClientWellFormed(m: ClientMsg)
    ensures WellFormed(EncodeClient(m))
  {
    hide IdBytes, DescBytes;
    match m
    case Register(desc) => HoldsDesc(REGISTER, desc); hide Holding;
    case Unregister =>
    case Update(desc) => HoldsDesc(UPDATE_PLAYER, desc); hide Holding;
  }

  // ---- Over a connection ----

  /** What has been delivered of a log of encoded messages. */
  lemma DeliveredOfLog(delivered: seq<Msg>, posted: seq<Msg>, j: nat)
    requires Links.InOrder(delivered, posted) && AllWellFormed(posted) && j < |delivered|
    ensures |delivered| <= |posted| && Strip(delivered[j]) == posted[j]
    ensures posted[j].size > 0 ==> delivered[j] == posted[j]
  {
    var n := |posted|;
    assert posted[..n] == posted;
    assert Links.FirstDelivered(delivered, posted, n);
    var m := |delivered|;
    assert delivered[..m] == delivered && delivered[j] == Sticky(posted[..m])[j];
    DeliveredAt(posted[..m], j);
    hide Sticky;
  }

  lemma ServerLogWellFormed(log: seq<ServerMsg>)
    ensures AllWellFormed(EncodeServerAll(log))
  {
    forall k | 0 <= k < |log| ensures WellFormed(EncodeServerAll(log)[k]) {
      ServerWellFormed(log[k]);
    }
  }

  lemma ClientLogWellFormed(log: seq<ClientMsg>)
    ensures AllWellFormed(EncodeClientAll(log))
  {
    forall k | 0 <= k < |log| ensures WellFormed(EncodeClientAll(log)[k]) {
      ClientWellFormed(log[k]);
    }
  }

  /** In any state of a link the client decodes what the server sent, in order and from the first. */
  lemma ClientDecodes(l: Links.Link, log: seq<ServerMsg>, j: nat)
    requires Links.LinkOk(l) && l.server.posted == EncodeServerAll(log) && j < |l.client.delivered|
    ensures |l.client.delivered| <= |log| && DecodeServer(l.client.delivered[j]) == Some(log[j])
  {
    hide Links.InOrder, Links.LinkOk, AllWellFormed, Strip, EncodeServer, DecodeServer;
    Links.ServerToClient(l);
    ServerLogWellFormed(log);
    DeliveredOfLog(l.client.delivered, l.server.posted, j);
    ServerRoundTrip(log[j], l.client.delivered[j]);
  }

  lemma ServerDecodes(l: Links.Link, log: seq<ClientMsg>, j: nat)
    requires Links.LinkOk(l) && l.client.posted == EncodeClientAll(log) && j < |l.server.delivered|
    ensures |l.server.delivered| <= |log| && DecodeClient(l.server.delivered[j]) == Some(log[j])
    ensures EncodeClient(log[j]).size > 0 ==> l.server.delivered[j] == EncodeClient(log[j])
  {
    hide Links.InOrder, Links.LinkOk, AllWellFormed, Strip, EncodeClient, DecodeClient;
    Links.ClientToServer(l);
    ClientLogWellFormed(log);
    DeliveredOfLog(l.server.delivered, l.client.posted, j);
    ClientRoundTrip(log[j], l.server.delivered[j]);
  }

  /**
   A client decodes from what its connection delivers the messages that the server sent it, in
   order and from the first, in every state of every run of the two ends.
   */
  lemma ClientReadsServer(run: seq<Links.Link>, sides: seq<Links.Side>, steps: seq<Step>, challenge: Handshake.Uint64,
                          i: nat, log: seq<ServerMsg>, j: nat)
    requires Links.IsRun(run, sides, steps, challenge) && i < |run|
    requires run[i].server.posted == EncodeServerAll(log) && j < |run[i].client.delivered|
    ensures |run[i].client.delivered| <= |log| && DecodeServer(run[i].client.delivered[j]) == Some(log[j])
  {
    hide Links.IsRun, Links.LinkOk, DecodeServer;
    Links.RunKeeps(run, sides, steps, challenge, i);
    ClientDecodes(run[i], log, j);
  }

  /** And the server those that the client sent. */
  lemma ServerReadsClient(run: seq<Links.Link>, sides: seq<Links.Side>, steps: seq<Step>, challenge: Handshake.Uint64,
                          i: nat, log: seq<ClientMsg>, j: nat)
    requires Links.IsRun(run, sides, steps, challenge) && i < |run|
    requires run[i].client.posted == EncodeClientAll(log) && j < |run[i].server.delivered|
    ensures |run[i].server.delivered| <= |log| && DecodeClient(run[i].server.delivered[j]) == Some(log[j])
  {
    hide Links.IsRun, Links.LinkOk, DecodeClient, EncodeClient;
    Links.RunKeeps(run, sides, steps, challenge, i);
    ServerDecodes(run[i], log, j);
  }

  // ---- Relaying ----

  /** An update travels the same way in both directions, so relaying it is encoding it again. */
  lemma RelayIsEncoding(d: Desc)
    ensures EncodeClient(Update(d)) == EncodeServer(UpdatePlayer(d))
  {
  }

  /** What the server relays of a client's update, byte for byte, is what it would have encoded. */
  lemma HonestRelay(l: Links.Link, log: seq<ClientMsg>, j: nat)
    requires Links.LinkOk(l) && l.client.posted == EncodeClientAll(log) && j < |l.server.delivered|
    ensures j < |log|
    ensures log[j].Update? ==>
      l.server.delivered[j] == EncodeServer(UpdatePlayer(log[j].desc)) && WellFormed(l.server.delivered[j])
  {
    hide Links.LinkOk, DecodeClient;
    ServerDecodes(l, log, j);
    if log[j].Update? {
      RelayIsEncoding(log[j].desc);
      HoldsDesc(UPDATE_PLAYER, log[j].desc);
      hide DescBytes, Holding, PullDesc;
    }
  }

  /**
   A peer that is not the game's client can have the server relay a broken frame: an update, then a
   bodyless message with the update's identifier.  The relayed frame's header tells of no body, yet
   the stale body follows it, where the next header is expected.
   */
  lemma BrokenRelay(body: seq<Byte>)
    requires |body| == DESC_SIZE
    ensures var sent := [Msg(UPDATE_PLAYER, DESC_SIZE, body), Msg(UPDATE_PLAYER, 0, [])];
      var relayed := Sticky(sent)[1];
      && AllWellFormed(sent) && relayed.id == UPDATE_PLAYER && !WellFormed(relayed)
      && Frame(relayed) == Frame(sent[1]) + body
  {
    var sent := [Msg(UPDATE_PLAYER, DESC_SIZE, body), Msg(UPDATE_PLAYER, 0, [])];
    StickyAt(sent, 1);
    assert sent[..2] == sent && sent[..1] == [sent[0]];
    assert LastBody(sent) == LastBody([sent[0]]) == body;
    hide Sticky, LastBody, Header;
    assert Header(Sticky(sent)[1]) == Header(sent[1]) by { HeadersAgree(Sticky(sent)[1], sent[1]); }
    assert Header(sent[1]) + [] + body == Header(sent[1]) + body;
  }

  // ---- The bytes themselves ----

  /** A small number as the four bytes of a header field. */
  function Field(n: Byte): seq<Byte> {
    [n, 0, 0, 0]
  }

  function IdField(id: Uint32): seq<Byte> {
    [id % 256, id / 0x100 % 256, id / 0x1_0000 % 256, id / 0x100_0000 % 256]
  }

  lemma SmallField(n: Byte)
    ensures ToBytes(n, 4) == Field(n)
  {
    FourBytes(n);
  }

  lemma FrameOf(k: Byte, value: seq<Byte>)
    requires |value| < 256
    ensures Frame(Holding(k, value)) == Field(k) + Field(|value|) + value
  {
    SmallField(k);
    SmallField(|value|);
    hide ToBytes;
    assert [] + value == value;
  }

  /** Each message of the server as it stands on the wire: its number, the length of its value, the value. */
  lemma ServerBytes(m: ServerMsg)
    ensures Frame(EncodeServer(m)) ==
      match m
      case Accepted => Field(2) + Field(0)
      case AssignId(id) => Field(3) + Field(4) + IdField(id)
      case AddPlayer(d) => Field(6) + Field(56) + (IdField(d.uniqueId) + d.body)
      case RemovePlayer(id) => Field(7) + Field(4) + IdField(id)
      case UpdatePlayer(d) => Field(8) + Field(56) + (IdField(d.uniqueId) + d.body)
  {
    hide Frame, Holding, ToBytes;
    match m
    case Accepted =>
      FrameOf(ACCEPTED, []);
      assert Field(2) + Field(0) + [] == Field(2) + Field(0);
    case AssignId(id) => FrameOf(ASSIGN_ID, IdBytes(id)); FourBytes(id);
    case AddPlayer(d) => FrameOf(ADD_PLAYER, DescBytes(d)); FourBytes(d.uniqueId);
    case RemovePlayer(id) => FrameOf(REMOVE_PLAYER, IdBytes(id)); FourBytes(id);
    case UpdatePlayer(d) => FrameOf(UPDATE_PLAYER, DescBytes(d)); FourBytes(d.uniqueId);
  }

  /** And each message of a client. */
  lemma ClientBytes(m: ClientMsg)
    ensures Frame(EncodeClient(m)) ==
      match m
      case Register(d) => Field(4) + Field(56) + (IdField(d.uniqueId) + d.body)
      case Unregister => Field(5) + Field(0)
      case Update(d) => Field(8) + Field(56) + (IdField(d.uniqueId) + d.body)
  {
    hide Frame, Holding, ToBytes;
    match m
    case Register(d) => FrameOf(REGISTER, DescBytes(d)); FourBytes(d.uniqueId);
    case Unregister =>
      FrameOf(UNREGISTER, []);
      assert Field(5) + Field(0) + [] == Field(5) + Field(0);
    case Update(d) => FrameOf(UPDATE_PLAYER, DescBytes(d)); FourBytes(d.uniqueId);
  }
}
