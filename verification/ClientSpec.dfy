/** The game client's message-driven state as a value. */
module ClientSpec {
  import opened Basics
  import opened Protocol

  datatype Client = Client(
    objects: map<Uint32, Desc>,  // mapObjects
    playerId: Uint32,            // nPlayerID
    waiting: bool,               // bWaitingForConnection
    player: Desc,                // descPlayer
    sent: seq<ClientMsg>)        // everything ever sent to the server

  const NEW_CLIENT := Client(map[], 0, true, DEFAULT_DESC, [])

  /** `ClientInterface::Send`: nothing is sent once the client's own socket is closed. */
  function Send(c: Client, msg: ClientMsg, connected: bool): Client {
    if connected then c.(sent := c.sent + [msg]) else c
  }

  /** `UpdateClientState`; `start` stands for the starting position written into `descPlayer`. */
  function Receive(c: Client, msg: ServerMsg, start: Carried, connected: bool): Client {
    match msg
    case Accepted =>
      var d := c.player.(body := start);
      Send(c.(player := d), Register(d), connected)
    case AssignId(id) => c.(playerId := id)
    case AddPlayer(desc) =>
      var d := c.(objects := c.objects[desc.uniqueId := desc]);
      if desc.uniqueId == c.playerId then d.(waiting := false) else d
    case RemovePlayer(id) => c.(objects := c.objects - {id})
    case UpdatePlayer(desc) => c.(objects := c.objects[desc.uniqueId := desc])
  }

  /** What `mapObjects[nPlayerID]` yields: a missing entry is inserted with default values. */
  function Own(c: Client): Desc {
    if c.playerId in c.objects then c.objects[c.playerId] else DEFAULT_DESC
  }

  /** An object after steering and local movement, if they change it. */
  function Moved(d: Desc, k: Uint32, bodies: map<Uint32, Carried>): Desc {
    if k in bodies then Desc(d.uniqueId, bodies[k]) else d
  }

  /** Steering and local movement: bodies change, keys and IDs do not, but for that insertion. */
  function Move(c: Client, bodies: map<Uint32, Carried>): Client {
    var all := c.objects[c.playerId := Own(c)];
    c.(objects := map k | k in all :: Moved(all[k], k, bodies))
  }

  /** The part of `OnUserUpdate` after the incoming messages: gated by the waiting flag. */
  function Tick(c: Client, bodies: map<Uint32, Carried>, connected: bool): Client {
    if c.waiting then c
    else var m := Move(c, bodies); Send(m, Update(Own(m)), connected)
  }
}
