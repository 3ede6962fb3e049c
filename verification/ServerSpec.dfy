/**
 The server's bookkeeping as a value: the table of all connections ever accepted, the container
 of current ones, the ID counter, the player roster and the IDs waiting to be announced as removed.

 A `shared_ptr<Connection>` is a handle: the position of the connection in the table, or `None`
 for the null pointer.  Every function below is what one member function of the server does to
 this value when the liveness of the sockets does not change while it runs.
 */
module ServerSpec {
  import opened Basics
  import opened Protocol
  import opened Sequences

  type Handle = Option<nat>

  datatype Server = Server(
    open: seq<bool>,              // is the socket of connection c open
    ids: seq<Uint32>,             // the ID connection c was given
    posted: seq<seq<ServerMsg>>,  // everything ever posted through connection c
    container: seq<Handle>,       // m_deqConnections
    idCounter: Uint32,            // nIDCounter
    roster: map<Uint32, Desc>,    // m_mapPlayerRoster
    garbage: seq<Uint32>)         // m_vGarbageIDs
  {
    ghost predicate WellFormed() {
      && |ids| == |open| == |posted|
      && (forall i :: 0 <= i < |container| && container[i].Some? ==> container[i].value < |open|)
    }

    predicate Connected(h: Handle)
      requires h.Some? ==> h.value < |open|
    {
      h.Some? && open[h.value]
    }

    function Post(c: nat, msg: ServerMsg): Server
      requires c < |posted|
    {
      this.(posted := posted[c := posted[c] + [msg]])
    }

    /** `GameServer::OnClientDisconnect`. */
    function Disconnect(h: Handle): Server
      requires h.Some? ==> h.value < |ids|
    {
      if h.None? || ids[h.value] !in roster then this
      else this.(roster := roster - {ids[h.value]}, garbage := garbage + [ids[h.value]])
    }
  }

  const EMPTY := Server([], [], [], [], FIRST_ID, map[], [])

  /** `std::remove(..., nullptr)` followed by `erase`. */
  function WithoutNulls(container: seq<Handle>): (r: seq<Handle>)
    ensures forall i :: 0 <= i < |r| ==> r[i].Some? && r[i] in container
    ensures forall h :: h in container && h.Some? ==> h in r
  {
    if container == [] then []
    else
      var last := container[|container| - 1];
      WithoutNulls(container[..|container| - 1]) + if last.Some? then [last] else []
  }

  /** What no message handler changes: the connections there are, their sockets and their IDs. */
  ghost predicate SameConnections(s: Server, t: Server) {
    t.open == s.open && t.ids == s.ids && t.idCounter == s.idCounter
  }

  /** The handler of `async_accept`: a new connection, its ID, and its place in the container. */
  function Accept(s: Server): Server {
    s.(open := s.open + [true], ids := s.ids + [s.idCounter], posted := s.posted + [[]],
       container := s.container + [Some(|s.open|)], idCounter := (s.idCounter + 1) % TWO_32)
  }

  /** `m_socket.close()` on one connection. */
  function Close(s: Server, c: nat): Server
    requires c < |s.open|
  {
    s.(open := s.open[c := false])
  }

  /** `MessageClient`. */
  function MessageClient(s: Server, h: Handle, msg: ServerMsg): Server
    requires s.WellFormed() && (h.Some? ==> h.value < |s.open|)
  {
    if s.Connected(h) then s.Post(h.value, msg)
    else var t := s.Disconnect(h); t.(container := WithoutNulls(t.container))
  }

  /** One iteration of the loop of `MessageAllClients`. */
  function Visit(s: Server, i: nat, msg: ServerMsg, ignore: Handle): (t: Server)
    requires s.WellFormed() && i < |s.container|
  {
    var h := s.container[i];
    if s.Connected(h) then
      if h != ignore then s.Post(h.value, msg) else s
    else
      s.Disconnect(h).(container := s.container[i := None])
  }

  /** The first `n` iterations of that loop. */
  function VisitFirst(s: Server, n: nat, msg: ServerMsg, ignore: Handle): (t: Server)
    requires s.WellFormed() && n <= |s.container|
    ensures t.WellFormed() && |t.container| == |s.container| && SameConnections(s, t)
  {
    if n == 0 then s else Visit(VisitFirst(s, n - 1, msg, ignore), n - 1, msg, ignore)
  }

  /** `MessageAllClients`. */
  function MessageAll(s: Server, msg: ServerMsg, ignore: Handle): (t: Server)
    requires s.WellFormed()
    ensures t.WellFormed() && SameConnections(s, t)
  {
    var t := VisitFirst(s, |s.container|, msg, ignore);
    t.(container := WithoutNulls(t.container))
  }

  /** The first `n` iterations of the loop over the garbage IDs; the vector may grow meanwhile. */
  function FlushFirst(s: Server, n: nat): (t: Server)
    requires s.WellFormed() && n <= |s.garbage|
    ensures t.WellFormed() && SameConnections(s, t)
  {
    if n == 0 then s
    else MessageAll(FlushFirst(s, n - 1), RemovePlayer(s.garbage[n - 1]), None)
  }

  function Flush(s: Server): (t: Server)
    requires s.WellFormed()
    ensures t.WellFormed() && SameConnections(s, t)
  {
    FlushFirst(s, |s.garbage|).(garbage := [])
  }

  /** Registering, up to the loop over the roster. */
  function Announce(s: Server, c: nat, desc: Desc): (t: Server)
    requires s.WellFormed() && c < |s.open|
    ensures t.WellFormed() && SameConnections(s, t)
  {
    var d := desc.(uniqueId := s.ids[c]);
    var t := MessageClient(s.(roster := s.roster[s.ids[c] := d]), Some(c), AssignId(s.ids[c]));
    MessageAll(t, AddPlayer(d), None)
  }

  /** The first `n` iterations of the loop over the roster, which visits it in the given order. */
  function SendRosterFirst(s: Server, c: nat, order: seq<Uint32>, n: nat): (t: Server)
    requires s.WellFormed() && c < |s.open| && n <= |order|
    ensures t.WellFormed() && SameConnections(s, t)
  {
    if n == 0 then s
    else
      var t := SendRosterFirst(s, c, order, n - 1);
      if order[n - 1] in t.roster then MessageClient(t, Some(c), AddPlayer(t.roster[order[n - 1]])) else t
  }

  /** `GameServer::OnMessage`. */
  function OnMessage(s: Server, c: nat, msg: ClientMsg, order: seq<Uint32>): (t: Server)
    requires s.WellFormed() && c < |s.open|
    ensures t.WellFormed() && SameConnections(s, t)
  {
    var f := Flush(s);
    match msg
    case Register(desc) => SendRosterFirst(Announce(f, c, desc), c, order, |order|)
    case Unregister => f
    case Update(desc) => MessageAll(f, UpdatePlayer(desc), Some(c))
  }

  /** The map the roster loop of `OnMessage` runs over, whose iteration order is not fixed. */
  function LoopRoster(s: Server, c: nat, msg: ClientMsg): map<Uint32, Desc>
    requires s.WellFormed() && c < |s.open|
  {
    match msg
    case Register(desc) => Announce(Flush(s), c, desc).roster
    case _ => map[]
  }
}
