/** The server as the program has it: an object whose methods update its containers in place. */
module GameServers {
  import opened Basics
  import opened Protocol
  import opened Sequences
  import opened ServerSpec
  import opened ThreadSafeQueues
  import ServerEffects

  datatype Owned = Owned(remote: nat, msg: ClientMsg)

  ghost predicate FromKnown(queue: seq<Owned>, n: nat) {
    forall i :: 0 <= i < |queue| ==> queue[i].remote < n
  }

  /** The first `|orders|` queued messages are handled in turn; `orders[i]` is the i-th roster order. */
  function HandleFirst(s: Server, queue: seq<Owned>, orders: seq<seq<Uint32>>): (t: Server)
    requires s.WellFormed() && |orders| <= |queue| && FromKnown(queue, |s.open|)
    ensures t.WellFormed() && |t.open| == |s.open|
  {
    var n := |orders|;
    if n == 0 then s
    else
      OnMessage(HandleFirst(s, queue, orders[..n - 1]), queue[n - 1].remote, queue[n - 1].msg, orders[n - 1])
  }

  ghost predicate OrdersFit(s: Server, queue: seq<Owned>, orders: seq<seq<Uint32>>)
    requires s.WellFormed() && |orders| <= |queue| && FromKnown(queue, |s.open|)
  {
    var n := |orders|;
    n == 0 || (
      && OrdersFit(s, queue, orders[..n - 1])
      && var u, m := HandleFirst(s, queue, orders[..n - 1]), queue[n - 1];
         Enumerates(orders[n - 1], LoopRoster(u, m.remote, m.msg).Keys))
  }

  lemma NothingHandled(s: Server, queue: seq<Owned>)
    requires s.WellFormed() && FromKnown(queue, |s.open|)
    ensures HandleFirst(s, queue, []) == s && OrdersFit(s, queue, [])
  {
  }

  lemma HandleNext(s: Server, queue: seq<Owned>, orders: seq<seq<Uint32>>, order: seq<Uint32>)
    requires s.WellFormed() && |orders| < |queue| && FromKnown(queue, |s.open|)
    ensures var m, u := queue[|orders|], HandleFirst(s, queue, orders);
      && HandleFirst(s, queue, orders + [order]) == OnMessage(u, m.remote, m.msg, order)
      && (OrdersFit(s, queue, orders) && Enumerates(order, LoopRoster(u, m.remote, m.msg).Keys) ==>
            OrdersFit(s, queue, orders + [order]))
  {
    hide OnMessage, LoopRoster;
    assert (orders + [order])[..|orders|] == orders;
  }

  lemma {:induction false} SendRosterPrefix(s: Server, c: nat, order: seq<Uint32>, more: seq<Uint32>, n: nat)
    requires s.WellFormed() && c < |s.open| && n <= |order|
    ensures SendRosterFirst(s, c, order + more, n) == SendRosterFirst(s, c, order, n)
  {
    if n > 0 {
      SendRosterPrefix(s, c, order, more, n - 1);
    }
  }

  lemma NothingSent(s: Server, c: nat)
    requires s.WellFormed() && c < |s.open|
    ensures SendRosterFirst(s, c, [], 0) == s
  {
  }

  lemma SendRosterNext(s: Server, c: nat, order: seq<Uint32>, k: Uint32)
    requires s.WellFormed() && c < |s.open|
    ensures var t := SendRosterFirst(s, c, order, |order|);
      SendRosterFirst(s, c, order + [k], |order| + 1) ==
      if k in t.roster then ServerSpec.MessageClient(t, Some(c), AddPlayer(t.roster[k])) else t
  {
    SendRosterPrefix(s, c, order, [k], |order|);
    assert (order + [k])[|order|] == k;
  }

  class GameServer {
    var open: seq<bool>
    var ids: seq<Uint32>
    var posted: seq<seq<ServerMsg>>
    var container: seq<Handle>
    var idCounter: Uint32
    var roster: map<Uint32, Desc>
    var garbage: seq<Uint32>
    const incoming: ThreadSafeQueue<Owned>

    ghost function View(): Server
      reads this
    {
      Server(open, ids, posted, container, idCounter, roster, garbage)
    }

    /** Between two calls both threads are outside the queue, and what it holds is from known connections. */
    ghost predicate Valid()
      reads this, incoming
    {
      && View().WellFormed() && FromKnown(incoming.queue, |open|)
      && incoming.Valid() && incoming.threads == [Outside, Outside]
    }

    constructor ()
      ensures Valid() && View() == EMPTY && incoming.queue == incoming.popped == [] && fresh(incoming)
    {
      open, ids, posted, container := [], [], [], [];
      idCounter, roster, garbage := FIRST_ID, map[], [];
      incoming := new ThreadSafeQueue(2);
    }

    /** The accept handler of `WaitForClientConnection`, for an accept without error. */
    method OnAccept()
      requires Valid()
      modifies this
      ensures Valid() && View() == Accept(old(View()))
    {
      container := container + [Some(|open|)];
      open, ids, posted := open + [true], ids + [idCounter], posted + [[]];
      idCounter := (idCounter + 1) % TWO_32;
    }

    method OnClientDisconnect(client: Handle)
      requires Valid() && (client.Some? ==> client.value < |open|)
      modifies this`roster, this`garbage
      ensures Valid() && View() == old(View()).Disconnect(client)
    {
      if client.Some? {
        var id := ids[client.value];
        if id in roster {
          roster := roster - {id};
          garbage := garbage + [id];
        }
      }
    }

    /** A connection hands a message over to the game loop. */
    method AddToIncomingMessageQueue(c: nat, msg: ClientMsg)
      requires Valid() && c < |open|
      modifies incoming
      ensures Valid() && incoming.queue == old(incoming.queue) + [Owned(c, msg)]
      ensures incoming.popped == old(incoming.popped)
    {
      incoming.Push(Owned(c, msg), ASIO);
    }

    method Send(c: nat, msg: ServerMsg)
      requires Valid() && c < |open|
      modifies this`posted
      ensures Valid() && View() == old(View()).Post(c, msg)
    {
      posted := posted[c := posted[c] + [msg]];
    }

    /** `erase(std::remove(begin, end, nullptr), end)` on the container. */
    method EraseNulls()
      requires Valid()
      modifies this`container
      ensures Valid() && container == WithoutNulls(old(container))
    {
      var kept: seq<Handle> := [];
      for i := 0 to |container|
        invariant kept == WithoutNulls(container[..i])
        invariant container == old(container)
      {
        assert container[..i + 1][..i] == container[..i];
        if container[i].Some? {
          kept := kept + [container[i]];
        }
      }
      assert container[..|container|] == container;
      container := kept;
    }

    method MessageClient(client: Handle, msg: ServerMsg)
      requires Valid() && (client.Some? ==> client.value < |open|)
      modifies this`posted, this`roster, this`garbage, this`container
      ensures Valid() && View() == ServerSpec.MessageClient(old(View()), client, msg)
    {
      if client.Some? && open[client.value] {
        Send(client.value, msg);
      } else {
        OnClientDisconnect(client);
        EraseNulls();
      }
    }

    /** The body of the loop of `MessageAllClients`. */
    method VisitEntry(i: nat, msg: ServerMsg, ignore: Handle) returns (reached: bool)
      requires Valid() && i < |container|
      modifies this`posted, this`roster, this`garbage, this`container
      ensures Valid() && View() == Visit(old(View()), i, msg, ignore)
      ensures container == if reached then old(container) else old(container)[i := None]
      ensures reached ==> container[i].Some?
    {
      var client := container[i];
      reached := client.Some? && open[client.value];
      if reached {
        if client != ignore {
          Send(client.value, msg);
        }
      } else {
        OnClientDisconnect(client);
        container := container[i := None];
      }
    }

    method MessageAllClients(msg: ServerMsg, ignore: Handle)
      requires Valid()
      modifies this`posted, this`roster, this`garbage, this`container
      ensures Valid() && View() == MessageAll(old(View()), msg, ignore)
    {
      hide Visit, WithoutNulls;
      ghost var s := View();
      var invalidClientExists := false;
      for i := 0 to |container|
        invariant Valid() && |container| == |s.container|
        invariant View() == VisitFirst(s, i, msg, ignore)
        invariant !invalidClientExists ==> forall j :: 0 <= j < i ==> container[j].Some?
      {
        var reached := VisitEntry(i, msg, ignore);
        if !reached {
          invalidClientExists := true;
        }
      }
      if invalidClientExists {
        EraseNulls();
      } else {
        ServerEffects.WithoutNullsIdentity(container);
      }
    }

    /** The loop at the head of `OnMessage`; the vector keeps what is pushed until it is cleared. */
    method FlushGarbage()
      requires Valid()
      modifies this`posted, this`roster, this`garbage, this`container
      ensures Valid() && View() == Flush(old(View()))
    {
      if garbage != [] {
        ghost var s := View();
        var ids := garbage;
        for i := 0 to |ids|
          invariant Valid()
          invariant View() == FlushFirst(s, i)
        {
          MessageAllClients(RemovePlayer(ids[i]), None);
        }
        garbage := [];
      }
    }

    /** The loop over the roster; a hash map is visited in an order of its own. */
    method SendRoster(c: nat) returns (order: seq<Uint32>)
      requires Valid() && c < |open|
      modifies this`posted, this`roster, this`garbage, this`container
      ensures Valid() && Enumerates(order, old(roster).Keys)
      ensures View() == SendRosterFirst(old(View()), c, order, |order|)
    {
      hide SendRosterFirst, ServerSpec.MessageClient;
      ghost var s := View();
      order := [];
      NothingSent(s, c);
      var todo := roster.Keys;
      while todo != {}
        invariant Valid() && |open| == |s.open|
        invariant todo <= s.roster.Keys && NoDuplicates(order)
        invariant forall k :: k in order <==> k in s.roster.Keys - todo
        invariant View() == SendRosterFirst(s, c, order, |order|)
        decreases todo
      {
        var k :| k in todo;
        SendRosterNext(s, c, order, k);
        assert k !in order;
        order, todo := order + [k], todo - {k};
        if k in roster {
          MessageClient(Some(c), AddPlayer(roster[k]));
        }
      }
    }

    method OnMessage(c: nat, msg: ClientMsg) returns (order: seq<Uint32>)
      requires Valid() && c < |open|
      modifies this`posted, this`roster, this`garbage, this`container
      ensures Valid()
      ensures Enumerates(order, LoopRoster(old(View()), c, msg).Keys)
      ensures View() == ServerSpec.OnMessage(old(View()), c, msg, order)
    {
      order := [];
      FlushGarbage();
      match msg
      case Register(received) =>
        var desc := received.(uniqueId := ids[c]);
        roster := roster[desc.uniqueId := desc];
        MessageClient(Some(c), AssignId(desc.uniqueId));
        MessageAllClients(AddPlayer(desc), None);
        order := SendRoster(c);
      case Unregister =>
      case Update(desc) =>
        MessageAllClients(UpdatePlayer(desc), Some(c));
    }

    /** `Update`: pops and handles queued messages, at most `maxMessages` of them, in order. */
    method Update(maxMessages: nat) returns (orders: seq<seq<Uint32>>)
      requires Valid()
      modifies this, incoming
      ensures Valid()
      ensures |orders| == if maxMessages < |old(incoming.queue)| then maxMessages else |old(incoming.queue)|
      ensures incoming.queue == old(incoming.queue)[|orders|..]
      ensures incoming.popped == old(incoming.popped) + old(incoming.queue)[..|orders|]
      ensures OrdersFit(old(View()), old(incoming.queue), orders)
      ensures View() == HandleFirst(old(View()), old(incoming.queue), orders)
    {
      hide HandleFirst, OrdersFit, ServerSpec.OnMessage, LoopRoster, StateOk;
      ghost var s, queue := View(), incoming.queue;
      orders := [];
      NothingHandled(s, queue);
      var messageCount := 0;
      var empty := incoming.Empty();
      while messageCount < maxMessages && !empty
        invariant Valid() && |open| == |s.open|
        invariant messageCount == |orders| <= |queue| && messageCount <= maxMessages
        invariant incoming.queue == queue[messageCount..] && empty == (incoming.queue == [])
        invariant incoming.popped == old(incoming.popped) + queue[..messageCount]
        invariant OrdersFit(s, queue, orders) && View() == HandleFirst(s, queue, orders)
        decreases |incoming.queue|
      {
        var m := incoming.Pop(GAME_LOOP);
        assert queue[messageCount..] == [queue[messageCount]] + queue[messageCount + 1..];
        assert m == queue[messageCount] && incoming.queue == queue[messageCount + 1..];
        var order := OnMessage(m.remote, m.msg);
        HandleNext(s, queue, orders, order);
        orders := orders + [order];
        messageCount := messageCount + 1;
        empty := incoming.Empty();
      }
    }
  }
}
