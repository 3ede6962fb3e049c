/**
 A frame of the client and a round of the server's loop are rows of steps of the whole system: each
 message is taken in its turn, and none is left out.
 */
module Rounds {
  import opened Basics
  import opened Protocol
  import opened Sequences
  import opened ServerSpec
  import opened ClientSpec
  import opened GameClients
  import opened GameServers
  import opened GameSystem

  ghost predicate Leads(run: seq<System>, steps: seq<Step>) {
    && |run| == |steps| + 1
    && (forall i :: 0 <= i < |run| ==> GameSystem.WellFormed(run[i]))
    && (forall i :: 0 <= i < |steps| ==> GameSystem.Next(run[i], steps[i], run[i + 1]))
  }

  lemma LeadsOn(run: seq<System>, steps: seq<Step>, step: Step, z: System)
    requires Leads(run, steps) && GameSystem.WellFormed(z) && GameSystem.Next(run[|steps|], step, z)
    ensures Leads(run + [z], steps + [step])
  {
    hide GameSystem.Next, GameSystem.WellFormed;
    var run', steps' := run + [z], steps + [step];
    forall i | 0 <= i < |steps'| ensures GameSystem.Next(run'[i], steps'[i], run'[i + 1]) {
      assert i < |steps| ==> GameSystem.Next(run[i], steps[i], run[i + 1]);
    }
  }

  // ---- A frame of the client ----

  /** The system once client `c` is `client` and has handled `n` more messages. */
  function WithClient(y: System, c: nat, n: nat, client: Client): System
    requires c < |y.clients| == |y.got|
  {
    y.(clients := y.clients[c := client], got := y.got[c := y.got[c] + n])
  }

  lemma ReceiveAllNext(c: Client, msgs: seq<ServerMsg>, n: nat, start: Carried, connected: bool)
    requires n < |msgs|
    ensures ReceiveAll(c, msgs[..n + 1], start, connected) ==
      Receive(ReceiveAll(c, msgs[..n], start, connected), msgs[n], start, connected)
  {
    assert msgs[..n + 1][..n] == msgs[..n];
    hide Receive;
  }

  /** The messages `msgs` are the next ones posted to client `c`. */
  ghost predicate Waiting(y: System, c: nat, msgs: seq<ServerMsg>) {
    && GameSystem.WellFormed(y) && c < |y.clients|
    && y.got[c] + |msgs| <= |y.server.posted[c]|
    && msgs == y.server.posted[c][y.got[c]..y.got[c] + |msgs|]
  }

  ghost predicate AllReceive(steps: seq<Step>, c: nat, start: Carried, connected: bool) {
    forall i :: 0 <= i < |steps| ==> steps[i] == ClientReceives(c, start, connected)
  }

  lemma {:induction false} DrainIsSteps(y: System, c: nat, msgs: seq<ServerMsg>, n: nat, start: Carried,
                                       connected: bool)
    returns (run: seq<System>, steps: seq<Step>)
    requires Waiting(y, c, msgs) && n <= |msgs|
    ensures Leads(run, steps) && run[0] == y && |steps| == n && AllReceive(steps, c, start, connected)
    ensures run[n] == WithClient(y, c, n, ReceiveAll(y.clients[c], msgs[..n], start, connected))
  {
    hide Receive;
    if n == 0 {
      run, steps := [y], [];
    } else {
      run, steps := DrainIsSteps(y, c, msgs, n - 1, start, connected);
      ReceiveAllNext(y.clients[c], msgs, n - 1, start, connected);
      var z := WithClient(y, c, n, ReceiveAll(y.clients[c], msgs[..n], start, connected));
      hide ReceiveAll;
      assert y.server.posted[c][y.got[c] + n - 1] == msgs[n - 1];
      LeadsOn(run, steps, ClientReceives(c, start, connected), z);
      hide Leads;
      run, steps := run + [z], steps + [ClientReceives(c, start, connected)];
    }
  }

  /**
   A frame in which the messages `msgs` are in the queue: while connected the client receives each of
   them in order, and then, or at once, it goes through its own part.
   */
  lemma FrameIsSteps(y: System, c: nat, msgs: seq<ServerMsg>, start: Carried, bodies: map<Uint32, Carried>,
                     connected: bool)
    returns (run: seq<System>, steps: seq<Step>)
    requires Waiting(y, c, msgs)
    ensures var n := if connected then |msgs| else 0;
      && Leads(run, steps) && run[0] == y && |steps| == n + 1
      && AllReceive(steps[..n], c, start, connected) && steps[n] == ClientTicks(c, bodies, connected)
      && run[n + 1] == WithClient(y, c, n, Frame(y.clients[c], msgs, start, bodies, connected))
  {
    var n := if connected then |msgs| else 0;
    run, steps := DrainIsSteps(y, c, msgs, n, start, connected);
    assert msgs[..|msgs|] == msgs;
    var z := WithClient(y, c, n, Frame(y.clients[c], msgs, start, bodies, connected));
    hide ReceiveAll, Tick, Receive;
    LeadsOn(run, steps, ClientTicks(c, bodies, connected), z);
    hide Leads;
    run, steps := run + [z], steps + [ClientTicks(c, bodies, connected)];
    assert steps[..n] == steps[..|steps| - 1];
  }

  // ---- A round of the server's loop ----

  /** The step of handling a message in which the roster is visited in each of these orders. */
  ghost predicate AllHandle(steps: seq<Step>, orders: seq<seq<Uint32>>) {
    |steps| == |orders| && forall i :: 0 <= i < |steps| ==> steps[i] == ServerHandles(orders[i])
  }

  lemma OrdersFitPrefix(s: Server, queue: seq<Owned>, orders: seq<seq<Uint32>>)
    requires s.WellFormed() && 0 < |orders| <= |queue| && FromKnown(queue, |s.open|) && OrdersFit(s, queue, orders)
    ensures var n := |orders|; var u, m := HandleFirst(s, queue, orders[..n - 1]), queue[n - 1];
      && OrdersFit(s, queue, orders[..n - 1]) && Enumerates(orders[n - 1], LoopRoster(u, m.remote, m.msg).Keys)
      && HandleFirst(s, queue, orders) == OnMessage(u, m.remote, m.msg, orders[n - 1])
  {
    hide OnMessage, LoopRoster;
  }

  /** The system once the server is `s` and has taken `n` messages from its queue. */
  function WithServer(y: System, n: nat, s: Server): System
    requires n <= |y.incoming|
  {
    y.(server := s, incoming := y.incoming[n..])
  }

  /** `Update` handles the messages in the queue one after the other, each in one step of the system. */
  lemma {:induction false} UpdateIsSteps(y: System, orders: seq<seq<Uint32>>)
    returns (run: seq<System>, steps: seq<Step>)
    requires GameSystem.WellFormed(y) && |orders| <= |y.incoming| && FromKnown(y.incoming, |y.server.open|)
    requires OrdersFit(y.server, y.incoming, orders)
    ensures Leads(run, steps) && run[0] == y && AllHandle(steps, orders)
    ensures run[|orders|] == WithServer(y, |orders|, HandleFirst(y.server, y.incoming, orders))
  {
    hide OnMessage, LoopRoster;
    if orders == [] {
      run, steps := [y], [];
      assert y.incoming[0..] == y.incoming;
    } else {
      var n := |orders|;
      OrdersFitPrefix(y.server, y.incoming, orders);
      run, steps := UpdateIsSteps(y, orders[..n - 1]);
      var z := WithServer(y, n, HandleFirst(y.server, y.incoming, orders));
      hide HandleFirst, OrdersFit;
      assert y.incoming[n - 1..][1..] == y.incoming[n..];
      LeadsOn(run, steps, ServerHandles(orders[n - 1]), z);
      hide Leads;
      run, steps := run + [z], steps + [ServerHandles(orders[n - 1])];
    }
  }
}
