/**
 The server and any number of game clients as one transition system.

 Each connection is a pair of FIFO channels.  A channel is the log of all messages ever posted to
 it together with the number already taken out, so what a broken connection loses is the part of
 the log that is never taken.  (Module `NetworkedGame` shows that the game over real connections is
 this system.)
 */
module GameSystem {
  import opened Basics
  import opened Protocol
  import opened Sequences
  import opened ServerSpec
  import opened ServerEffects
  import opened ServerSafety
  import opened ClientSpec
  import opened GameServers
  import ServerRuns

  datatype System = System(
    server: Server,
    incoming: seq<Owned>,   // m_qMessagesIn of the server
    clients: seq<Client>,
    got: seq<nat>,          // how many of posted[c] client c has handled
    taken: seq<nat>)        // how many of clients[c].sent the server has queued

  const START := System(EMPTY, [], [], [], [])

  datatype Step =
    | AcceptClient
    | ValidateClient(c: nat)
    | CloseSocket(c: nat)
    | ClientReceives(c: nat, start: Carried, connected: bool)
    | ClientTicks(c: nat, bodies: map<Uint32, Carried>, connected: bool)
    | ServerQueues(c: nat)
    | ServerHandles(order: seq<Uint32>)
    | ServerReallocates   // handling a message moves the garbage vector while it is iterated

  ghost predicate WellFormed(y: System) {
    && y.server.WellFormed()
    && |y.clients| == |y.got| == |y.taken| == |y.server.open|
    && (forall i :: 0 <= i < |y.incoming| ==> y.incoming[i].remote < |y.server.open|)
  }

  ghost predicate Next(y: System, step: Step, z: System)
    requires WellFormed(y)
  {
    var s := y.server;
    match step
    case AcceptClient =>
      z == y.(server := Accept(s), clients := y.clients + [NEW_CLIENT], got := y.got + [0], taken := y.taken + [0])
    case ValidateClient(c) =>
      c < |s.open| && Accepted !in s.posted[c] && z == y.(server := s.Post(c, Accepted))
    case CloseSocket(c) =>
      c < |s.open| && z == y.(server := Close(s, c))
    case ClientReceives(c, start, connected) =>
      && c < |s.open| && y.got[c] < |s.posted[c]|
      && z == y.(clients := y.clients[c := Receive(y.clients[c], s.posted[c][y.got[c]], start, connected)],
                 got := y.got[c := y.got[c] + 1])
    case ClientTicks(c, bodies, connected) =>
      c < |s.open| && z == y.(clients := y.clients[c := Tick(y.clients[c], bodies, connected)])
    case ServerQueues(c) =>
      && c < |s.open| && y.taken[c] < |y.clients[c].sent|
      && z == y.(incoming := y.incoming + [Owned(c, y.clients[c].sent[y.taken[c]])],
                 taken := y.taken[c := y.taken[c] + 1])
    case ServerHandles(order) =>
      && y.incoming != []
      && var m := y.incoming[0];
         && Enumerates(order, LoopRoster(s, m.remote, m.msg).Keys)
         && z == y.(server := OnMessage(s, m.remote, m.msg, order), incoming := y.incoming[1..])
    case ServerReallocates => y.incoming != [] && ServerRuns.PushedWhileIterated(s)
  }

  /** Up to state `i` the garbage vector has not moved while it was iterated. */
  ghost predicate Defined(steps: seq<Step>, i: nat) {
    forall j :: 0 <= j < i && j < |steps| ==> !steps[j].ServerReallocates?
  }

  ghost predicate IsRun(run: seq<System>, steps: seq<Step>) {
    && |run| == |steps| + 1
    && run[0] == START
    && (forall i :: 0 <= i < |run| ==> WellFormed(run[i]))
    && (forall i :: 0 <= i < |steps| ==> Next(run[i], steps[i], run[i + 1]))
  }

  // ---- The log of one connection with ID `id`, `n` connections having been accepted ----

  ghost predicate Known(id: Uint32, n: nat) {
    FIRST_ID <= id < FIRST_ID + n
  }

  ghost predicate MsgOk(msg: ServerMsg, id: Uint32, n: nat) {
    match msg
    case Accepted => true
    case AssignId(i) => i == id
    case AddPlayer(d) => Known(d.uniqueId, n)
    case RemovePlayer(i) => Known(i, n) && i != id
    case UpdatePlayer(d) => Known(d.uniqueId, n)
  }

  ghost predicate IsOwnAdd(msg: ServerMsg, id: Uint32) {
    msg.AddPlayer? && msg.desc.uniqueId == id
  }

  /** Every ID assignment is followed by the entry of the assigned player itself. */
  ghost predicate Introduced(log: seq<ServerMsg>, id: Uint32) {
    forall i :: 0 <= i < |log| && log[i].AssignId? ==> exists j :: i < j < |log| && IsOwnAdd(log[j], id)
  }

  ghost predicate LogOk(log: seq<ServerMsg>, id: Uint32, n: nat) {
    && (forall i :: 0 <= i < |log| ==> MsgOk(log[i], id, n))
    && Introduced(log, id)
  }

  lemma LogOkConcat(a: seq<ServerMsg>, b: seq<ServerMsg>, id: Uint32, n: nat)
    requires LogOk(a, id, n) && LogOk(b, id, n)
    ensures LogOk(a + b, id, n)
  {
    forall i | 0 <= i < |a + b| && (a + b)[i].AssignId?
      ensures exists j :: i < j < |a + b| && IsOwnAdd((a + b)[j], id)
    {
      if i < |a| {
        var j :| i < j < |a| && IsOwnAdd(a[j], id);
        assert (a + b)[j] == a[j];
      } else {
        var j :| i - |a| < j < |b| && IsOwnAdd(b[j], id);
        assert (a + b)[|a| + j] == b[j];
      }
    }
  }

  // ---- One client ----

  ghost predicate ClientMsgOk(msg: ClientMsg, id: Uint32) {
    msg.Update? ==> msg.desc.uniqueId == id
  }

  /** Having handled the messages `seen`, the client has been told its ID and entered the world. */
  ghost predicate Played(seen: seq<ServerMsg>, id: Uint32) {
    exists i, j :: 0 <= i < j < |seen| && seen[i].AssignId? && IsOwnAdd(seen[j], id)
  }

  /**
   What holds of a client that has handled the messages `seen` on the connection with ID `id`:
   its map is keyed by the IDs of its entries; once it no longer waits it plays under the ID the
   server gave its own connection and has that object; it has sent no update while it waited; and
   it no longer waits once it has been introduced.
   */
  ghost predicate ClientOk(c: Client, seen: seq<ServerMsg>, id: Uint32, n: nat) {
    && (forall k :: k in c.objects ==> c.objects[k].uniqueId == k && Known(k, n))
    && (c.playerId == 0 || c.playerId == id)
    && (!c.waiting ==> c.playerId == id && id in c.objects)
    && (forall i :: 0 <= i < |c.sent| ==> ClientMsgOk(c.sent[i], id) && (c.sent[i].Update? ==> !c.waiting))
    && ((exists i :: 0 <= i < |seen| && seen[i].AssignId?) ==> c.playerId == id)
    && (Played(seen, id) ==> !c.waiting)
  }

  lemma PlayedExtended(seen: seq<ServerMsg>, msg: ServerMsg, id: Uint32)
    requires Played(seen + [msg], id)
    ensures Played(seen, id) || (IsOwnAdd(msg, id) && exists i :: 0 <= i < |seen| && seen[i].AssignId?)
  {
    var more := seen + [msg];
    var i, j :| 0 <= i < j < |more| && more[i].AssignId? && IsOwnAdd(more[j], id);
    assert seen[i].AssignId? && (j < |seen| ==> IsOwnAdd(seen[j], id));
  }

  lemma ReceiveKeeps(c: Client, seen: seq<ServerMsg>, id: Uint32, n: nat, msg: ServerMsg, start: Carried,
                     connected: bool)
    requires ClientOk(c, seen, id, n) && MsgOk(msg, id, n) && Known(id, n)
    ensures ClientOk(Receive(c, msg, start, connected), seen + [msg], id, n)
  {
    var more := seen + [msg];
    assert forall i :: 0 <= i < |more| && more[i].AssignId? ==> (i < |seen| && seen[i].AssignId?) || msg.AssignId?;
    if Played(more, id) {
      PlayedExtended(seen, msg, id);
    }
  }

  lemma TickKeeps(c: Client, seen: seq<ServerMsg>, id: Uint32, n: nat, bodies: map<Uint32, Carried>, connected: bool)
    requires ClientOk(c, seen, id, n)
    ensures ClientOk(Tick(c, bodies, connected), seen, id, n)
  {
  }

  // ---- The whole system ----

  ghost predicate LogsOk(y: System)
    requires WellFormed(y)
  {
    forall c :: 0 <= c < |y.server.open| ==> LogOk(y.server.posted[c], y.server.ids[c], |y.server.open|)
  }

  ghost predicate ClientsOk(y: System)
    requires WellFormed(y)
  {
    forall c :: 0 <= c < |y.server.open| ==>
      && y.got[c] <= |y.server.posted[c]|
      && ClientOk(y.clients[c], y.server.posted[c][..y.got[c]], y.server.ids[c], |y.server.open|)
  }

  ghost predicate IncomingOk(y: System)
    requires WellFormed(y)
  {
    forall i :: 0 <= i < |y.incoming| ==> ClientMsgOk(y.incoming[i].msg, y.server.ids[y.incoming[i].remote])
  }

  ghost predicate SystemOk(y: System) {
    WellFormed(y) && Invariant(y.server) && LogsOk(y) && ClientsOk(y) && IncomingOk(y)
  }

  lemma LoopRosterKnown(s: Server, c: nat, desc: Desc)
    requires Invariant(s) && c < |s.open|
    ensures var r := LoopRoster(s, c, Register(desc));
      forall k :: k in r ==> Known(r[k].uniqueId, |s.open|)
  {
    FlushKeeps(s);
    AnnounceEffect(Flush(s), c, desc);
    hide Announce, Flush;
  }

  lemma RegisterReplyOk(s: Server, c: nat, desc: Desc, order: seq<Uint32>, b: nat)
    requires Invariant(s) && c < |s.open| && b < |s.open| && s.open[b]
    requires Enumerates(order, LoopRoster(s, c, Register(desc)).Keys)
    ensures LogOk(Reply(s, c, Register(desc), order, b), s.ids[b], |s.open|)
  {
    LoopRosterKnown(s, c, desc);
    hide LoopRoster;
    var reply := Reply(s, c, Register(desc), order, b);
    if b == c {
      var rest := Entries(LoopRoster(s, c, Register(desc)), order);
      assert reply == [AssignId(s.ids[c]), AddPlayer(desc.(uniqueId := s.ids[c]))] + rest;
      assert forall i :: 0 <= i < |rest| ==> order[i] in order && rest[i].AddPlayer?;
      assert IsOwnAdd(reply[1], s.ids[b]);
    } else {
      assert reply == [AddPlayer(desc.(uniqueId := s.ids[c]))];
    }
  }

  lemma RemovalsOk(s: Server, b: nat)
    requires Invariant(s) && b < |s.open| && s.open[b]
    ensures LogOk(Removals(s.garbage), s.ids[b], |s.open|)
  {
    forall i | 0 <= i < |s.garbage| ensures MsgOk(RemovePlayer(s.garbage[i]), s.ids[b], |s.open|) {
      assert s.garbage[i] in s.garbage;
    }
  }

  /** Handling a message keeps every log in order: no live client is told of its own removal. */
  lemma HandleKeepsLog(s: Server, c: nat, msg: ClientMsg, order: seq<Uint32>, b: nat)
    requires Invariant(s) && c < |s.open| && b < |s.open|
    requires ClientMsgOk(msg, s.ids[c])
    requires Enumerates(order, LoopRoster(s, c, msg).Keys)
    requires LogOk(s.posted[b], s.ids[b], |s.open|)
    ensures var t := OnMessage(s, c, msg, order);
      |t.posted| == |s.posted| && s.posted[b] <= t.posted[b] && LogOk(t.posted[b], s.ids[b], |s.open|)
  {
    OnMessagePosts(s, c, msg, order, b);
    hide OnMessage, LoopRoster;
    if s.open[b] {
      var reply := Reply(s, c, msg, order, b);
      RemovalsOk(s, b);
      assert LogOk(reply, s.ids[b], |s.open|) by {
        if msg.Register? {
          RegisterReplyOk(s, c, msg.desc, order, b);
        }
      }
      LogOkConcat(Removals(s.garbage), reply, s.ids[b], |s.open|);
      LogOkConcat(s.posted[b], Removals(s.garbage) + reply, s.ids[b], |s.open|);
    }
  }

  /** More connections, or a longer log, change nothing for a client. */
  lemma ClientOkGrows(c: Client, seen: seq<ServerMsg>, id: Uint32, n: nat, m: nat)
    requires ClientOk(c, seen, id, n) && n <= m
    ensures ClientOk(c, seen, id, m)
  {
  }

  lemma AcceptKeeps(y: System, z: System)
    requires SystemOk(y) && Next(y, AcceptClient, z) && FIRST_ID + |z.server.open| <= TWO_32
    ensures SystemOk(z)
  {
    assert Invariant(z.server) by {
      ServerRuns.NextKeeps(y.server, ServerRuns.AcceptOne, z.server);
    }
    var n := |y.server.open|;
    forall c: nat | c < n + 1
      ensures LogOk(z.server.posted[c], z.server.ids[c], n + 1)
      ensures z.got[c] <= |z.server.posted[c]|
      ensures ClientOk(z.clients[c], z.server.posted[c][..z.got[c]], z.server.ids[c], n + 1)
    {
      if c < n {
        LogOkGrows(y.server.posted[c], y.server.ids[c], n, n + 1);
        ClientOkGrows(y.clients[c], y.server.posted[c][..y.got[c]], y.server.ids[c], n, n + 1);
      } else {
        NewClientOk(z.server.ids[c], n + 1);
      }
      hide LogOk, ClientOk, Invariant;
    }
    hide LogOk, ClientOk, Invariant;
  }

  lemma LogOkGrows(log: seq<ServerMsg>, id: Uint32, n: nat, m: nat)
    requires LogOk(log, id, n) && n <= m
    ensures LogOk(log, id, m)
  {
  }

  lemma NewClientOk(id: Uint32, n: nat)
    ensures LogOk([], id, n) && ClientOk(NEW_CLIENT, [], id, n)
  {
  }

  lemma ValidateKeeps(y: System, c: nat, z: System)
    requires SystemOk(y) && Next(y, ValidateClient(c), z)
    ensures SystemOk(z)
  {
    PostingKeeps(y.server, z.server.posted);
    LogOkConcat(y.server.posted[c], [Accepted], y.server.ids[c], |y.server.open|);
    assert z.server.posted[c][..y.got[c]] == y.server.posted[c][..y.got[c]];
  }

  lemma ReceivesKeeps(y: System, c: nat, start: Carried, connected: bool, z: System)
    requires SystemOk(y) && Next(y, ClientReceives(c, start, connected), z)
    ensures SystemOk(z)
  {
    var log, id, n := y.server.posted[c], y.server.ids[c], |y.server.open|;
    ReceiveKeeps(y.clients[c], log[..y.got[c]], id, n, log[y.got[c]], start, connected);
    assert log[..y.got[c] + 1] == log[..y.got[c]] + [log[y.got[c]]];
  }

  lemma HandlesKeeps(y: System, order: seq<Uint32>, z: System)
    requires SystemOk(y) && Next(y, ServerHandles(order), z)
    ensures SystemOk(z)
  {
    var m, s := y.incoming[0], y.server;
    OnMessageKeeps(s, m.remote, m.msg, order);
    assert Invariant(z.server) && z.server.open == s.open && z.server.ids == s.ids;
    forall c: nat | c < |s.open|
      ensures LogOk(z.server.posted[c], s.ids[c], |s.open|)
      ensures s.posted[c] <= z.server.posted[c]
      ensures z.server.posted[c][..y.got[c]] == s.posted[c][..y.got[c]]
    {
      HandleKeepsLog(s, m.remote, m.msg, order, c);
    }
    hide OnMessage, LoopRoster, Invariant;
    assert LogsOk(z) && ClientsOk(z) && IncomingOk(z);
  }

  lemma NextKeeps(y: System, step: Step, z: System)
    requires SystemOk(y) && Next(y, step, z) && !step.ServerReallocates? && FIRST_ID + |z.server.open| <= TWO_32
    ensures SystemOk(z)
  {
    match step
    case AcceptClient => AcceptKeeps(y, z);
    case ValidateClient(c) => ValidateKeeps(y, c, z);
    case CloseSocket(c) => ServerRuns.NextKeeps(y.server, ServerRuns.CloseSocket(c), z.server);
    case ClientReceives(c, start, connected) => ReceivesKeeps(y, c, start, connected, z);
    case ClientTicks(c, bodies, connected) =>
      TickKeeps(y.clients[c], y.server.posted[c][..y.got[c]], y.server.ids[c], |y.server.open|, bodies, connected);
    case ServerQueues(c) =>
    case ServerHandles(order) => HandlesKeeps(y, order, z);
  }

  lemma NextGrows(y: System, step: Step, z: System)
    requires WellFormed(y) && Next(y, step, z) && !step.ServerReallocates?
    ensures |y.server.open| <= |z.server.open|
  {
  }

  lemma StartOk()
    ensures SystemOk(START)
  {
  }

  lemma {:induction false} RunKeeps(run: seq<System>, steps: seq<Step>, i: nat)
    requires IsRun(run, steps) && i < |run| && Defined(steps, i)
    requires FIRST_ID + |run[i].server.open| <= TWO_32
    ensures SystemOk(run[i])
  {
    hide SystemOk, Next;
    if i == 0 {
      StartOk();
    } else {
      assert Next(run[i - 1], steps[i - 1], run[i]);
      NextGrows(run[i - 1], steps[i - 1], run[i]);
      RunKeeps(run, steps, i - 1);
      NextKeeps(run[i - 1], steps[i - 1], run[i]);
    }
  }

  /**
   A client's map is keyed by the IDs of its entries; once it no longer waits it plays under the ID
   `id` the server knows its connection by, and that object is in its map; while it waits it has
   sent no update, and every update it ever sent is of its own object.
   */
  ghost predicate Safe(client: Client, id: Uint32) {
    && (forall k :: k in client.objects ==> client.objects[k].uniqueId == k)
    && (!client.waiting ==> client.playerId == id && id in client.objects)
    && (client.waiting ==> forall m :: m in client.sent ==> !m.Update?)
    && (forall m :: m in client.sent && m.Update? ==> m.desc.uniqueId == id)
  }

  lemma OkIsSafe(y: System, c: nat)
    requires SystemOk(y) && c < |y.clients|
    ensures Safe(y.clients[c], y.server.ids[c])
    ensures RemovePlayer(y.server.ids[c]) !in y.server.posted[c]
  {
    assert ClientOk(y.clients[c], y.server.posted[c][..y.got[c]], y.server.ids[c], |y.server.open|);
    assert LogOk(y.server.posted[c], y.server.ids[c], |y.server.open|);
    hide Invariant;
  }

  /**
   In every state of every run every client is safe, as long as the garbage vector has not moved
   while it was iterated.
   */
  lemma ClientsAreSafe(run: seq<System>, steps: seq<Step>, i: nat, c: nat)
    requires IsRun(run, steps) && i < |run| && c < |run[i].clients| && Defined(steps, i)
    requires FIRST_ID + |run[i].server.open| <= TWO_32
    ensures Safe(run[i].clients[c], run[i].server.ids[c])
  {
    RunKeeps(run, steps, i);
    OkIsSafe(run[i], c);
    hide Safe;
  }

  /** A `Game_RemovePlayer` with its own ID is in no client's log, whatever has closed meanwhile. */
  lemma NeverTold(run: seq<System>, steps: seq<Step>, i: nat, c: nat)
    requires IsRun(run, steps) && i < |run| && c < |run[i].clients| && Defined(steps, i)
    requires FIRST_ID + |run[i].server.open| <= TWO_32
    ensures RemovePlayer(run[i].server.ids[c]) !in run[i].server.posted[c]
  {
    RunKeeps(run, steps, i);
    OkIsSafe(run[i], c);
    hide SystemOk;
  }

  /** A registered client that has caught up with its connection is in the game. */
  lemma RegisteredClientPlays(run: seq<System>, steps: seq<Step>, i: nat, c: nat)
    requires IsRun(run, steps) && i < |run| && c < |run[i].clients| && Defined(steps, i)
    requires FIRST_ID + |run[i].server.open| <= TWO_32
    requires run[i].got[c] == |run[i].server.posted[c]|
    requires AssignId(run[i].server.ids[c]) in run[i].server.posted[c]
    ensures !run[i].clients[c].waiting
  {
    RunKeeps(run, steps, i);
    var y := run[i];
    var log, id := y.server.posted[c], y.server.ids[c];
    assert LogOk(log, id, |y.server.open|);
    assert ClientOk(y.clients[c], log[..y.got[c]], id, |y.server.open|);
    assert log[..y.got[c]] == log;
    var k :| 0 <= k < |log| && log[k] == AssignId(id);
    var j :| k < j < |log| && IsOwnAdd(log[j], id);
    assert Played(log, id);
  }

  /** A run is defined as long as no message is handled in a state in which the vector is pushed to. */
  lemma DefinedUnlessPushed(run: seq<System>, steps: seq<Step>, i: nat)
    requires IsRun(run, steps) && i < |run|
    requires forall j :: 0 <= j < i && (steps[j].ServerHandles? || steps[j].ServerReallocates?) ==>
      !ServerRuns.PushedWhileIterated(run[j].server)
    ensures Defined(steps, i)
  {
    forall j | 0 <= j < i ensures !steps[j].ServerReallocates? {
      assert Next(run[j], steps[j], run[j + 1]);
      hide ServerRuns.PushedWhileIterated;
    }
  }
}
