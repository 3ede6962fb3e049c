/** The client as the program has it: an object whose handlers update its fields in place. */
module GameClients {
  import opened Basics
  import opened Protocol
  import opened ClientSpec
  import opened ThreadSafeQueues

  function ReceiveAll(c: Client, msgs: seq<ServerMsg>, start: Carried, connected: bool): Client {
    if msgs == [] then c
    else Receive(ReceiveAll(c, msgs[..|msgs| - 1], start, connected), msgs[|msgs| - 1], start, connected)
  }

  /** One frame: the incoming messages are drained if the socket is open, then the gated part runs. */
  function Frame(c: Client, msgs: seq<ServerMsg>, start: Carried, bodies: map<Uint32, Carried>,
                 connected: bool): Client {
    Tick(if connected then ReceiveAll(c, msgs, start, connected) else c, bodies, connected)
  }

  class GameClient {
    var objects: map<Uint32, Desc>
    var playerId: Uint32
    var waiting: bool
    var player: Desc
    var sent: seq<ClientMsg>
    const incoming: ThreadSafeQueue<ServerMsg>

    ghost function View(): Client
      reads this
    {
      Client(objects, playerId, waiting, player, sent)
    }

    /** Between two calls both threads are outside the queue. */
    ghost predicate Valid()
      reads this, incoming
    {
      incoming.Valid() && incoming.threads == [Outside, Outside]
    }

    constructor ()
      ensures Valid() && View() == NEW_CLIENT && incoming.queue == incoming.popped == [] && fresh(incoming)
    {
      objects, playerId, waiting, player := map[], 0, true, DEFAULT_DESC;
      sent := [];
      incoming := new ThreadSafeQueue(2);
    }

    /** The connection hands a message over to the game loop. */
    method AddToIncomingMessageQueue(msg: ServerMsg)
      requires Valid()
      modifies incoming
      ensures Valid() && incoming.queue == old(incoming.queue) + [msg] && incoming.popped == old(incoming.popped)
    {
      incoming.Push(msg, ASIO);
    }

    method Send(msg: ClientMsg, connected: bool)
      modifies this`sent
      ensures View() == ClientSpec.Send(old(View()), msg, connected)
    {
      if connected {
        sent := sent + [msg];
      }
    }

    method UpdateClientState(msg: ServerMsg, start: Carried, connected: bool)
      modifies this
      ensures View() == Receive(old(View()), msg, start, connected)
    {
      match msg
      case Accepted =>
        player := player.(body := start);
        Send(Register(player), connected);
      case AssignId(id) =>
        playerId := id;
      case AddPlayer(desc) =>
        objects := objects[desc.uniqueId := desc];
        if desc.uniqueId == playerId {
          waiting := false;
        }
      case RemovePlayer(id) =>
        objects := objects - {id};
      case UpdatePlayer(desc) =>
        objects := objects[desc.uniqueId := desc];
    }

    /** `mapObjects[nPlayerID]`, which inserts a default entry where there is none. */
    method Own() returns (own: Desc)
      modifies this`objects
      ensures own == ClientSpec.Own(old(View()))
      ensures objects == old(objects)[playerId := own]
    {
      if playerId !in objects {
        objects := objects[playerId := DEFAULT_DESC];
      }
      own := objects[playerId];
    }

    /** `ControlOfPlayerObject` and `UpdateObjectsLocally`, reduced to the bodies they compute. */
    method Move(bodies: map<Uint32, Carried>)
      modifies this`objects
      ensures View() == ClientSpec.Move(old(View()), bodies)
    {
      var own := Own();
      objects := map k | k in objects :: Moved(objects[k], k, bodies);
    }

    method SendPlayerDescription(connected: bool)
      modifies this`objects, this`sent
      ensures View() == ClientSpec.Send(
        old(View()).(objects := old(objects)[playerId := ClientSpec.Own(old(View()))]),
        Update(ClientSpec.Own(old(View()))), connected)
    {
      var own := Own();
      Send(Update(own), connected);
    }

    method OnUserUpdate(start: Carried, bodies: map<Uint32, Carried>, connected: bool)
      requires Valid()
      modifies this, incoming
      ensures Valid()
      ensures View() == Frame(old(View()), old(incoming.queue), start, bodies, connected)
      ensures incoming.queue == if connected then [] else old(incoming.queue)
      ensures incoming.popped == old(incoming.popped) + if connected then old(incoming.queue) else []
    {
      hide StateOk;
      if connected {
        ghost var msgs, n := incoming.queue, 0;
        var empty := incoming.Empty();
        while !empty
          invariant Valid() && n <= |msgs|
          invariant incoming.queue == msgs[n..] && empty == (incoming.queue == [])
          invariant incoming.popped == old(incoming.popped) + msgs[..n]
          invariant View() == ReceiveAll(old(View()), msgs[..n], start, connected)
          decreases |incoming.queue|
        {
          var msg := incoming.Pop(GAME_LOOP);
          assert msgs[n..] == [msgs[n]] + msgs[n + 1..];
          assert msg == msgs[n] && incoming.queue == msgs[n + 1..];
          UpdateClientState(msg, start, connected);
          assert msgs[..n + 1][..n] == msgs[..n];
          n := n + 1;
          empty := incoming.Empty();
        }
        assert msgs[..n] == msgs;
      }
      if waiting {
        return;
      }
      Move(bodies);
      ghost var moved := View();
      SendPlayerDescription(connected);
      assert moved.objects[playerId := ClientSpec.Own(moved)] == moved.objects;
    }
  }
}
