/**
 What a client knows, told from the messages it has handled: who is in its world and where, which ID
 it plays under, whether it is in the game, and what it has sent.
 */
module ClientWorlds {
  import opened Basics
  import opened Protocol
  import opened Sequences
  import opened ServerSpec
  import opened ServerSafety
  import opened ClientSpec
  import opened GameServers
  import opened GameSystem

  // ---- Scanning a log ----

  predicate Names(msg: ServerMsg, k: Uint32) {
    match msg
    case Accepted => false
    case AssignId(_) => false
    case AddPlayer(desc) => desc.uniqueId == k
    case RemovePlayer(id) => id == k
    case UpdatePlayer(desc) => desc.uniqueId == k
  }

  /** Message `n` is the last one of the log that names `k`. */
  ghost predicate LastNaming(log: seq<ServerMsg>, k: Uint32, n: nat) {
    n < |log| && Names(log[n], k) && forall j :: n < j < |log| ==> !Names(log[j], k)
  }

  ghost predicate Present(log: seq<ServerMsg>, k: Uint32) {
    exists n: nat :: LastNaming(log, k, n) && !log[n].RemovePlayer?
  }

  ghost predicate Assigned(log: seq<ServerMsg>) {
    exists i :: 0 <= i < |log| && log[i].AssignId?
  }

  lemma LastNamingExtended(log: seq<ServerMsg>, msg: ServerMsg, k: Uint32, n: nat)
    ensures LastNaming(log + [msg], k, n) <==>
      if Names(msg, k) then n == |log| else LastNaming(log, k, n)
  {
    var more := log + [msg];
    assert more[|log|] == msg;
    assert forall j :: 0 <= j < |log| ==> more[j] == log[j];
    hide Names;
  }

  lemma PresentExtended(log: seq<ServerMsg>, msg: ServerMsg, k: Uint32)
    ensures Present(log + [msg], k) <==> if Names(msg, k) then !msg.RemovePlayer? else Present(log, k)
  {
    var more := log + [msg];
    forall n: nat
      ensures LastNaming(more, k, n) <==> if Names(msg, k) then n == |log| else LastNaming(log, k, n)
    {
      LastNamingExtended(log, msg, k, n);
    }
    assert LastNaming(more, k, |log|) <==> Names(msg, k);
    assert forall n: nat :: LastNaming(log, k, n) ==> more[n] == log[n];
    assert more[|log|] == msg;
    hide LastNaming, Names;
  }

  lemma AssignedExtended(log: seq<ServerMsg>, msg: ServerMsg)
    ensures Assigned(log + [msg]) <==> Assigned(log) || msg.AssignId?
  {
    var more := log + [msg];
    assert more[|log|] == msg;
    assert forall i :: 0 <= i < |log| ==> more[i] == log[i];
  }

  lemma PlayedExactly(log: seq<ServerMsg>, msg: ServerMsg, id: Uint32)
    ensures Played(log + [msg], id) <==> Played(log, id) || (Assigned(log) && IsOwnAdd(msg, id))
  {
    var more := log + [msg];
    assert more[|log|] == msg;
    assert forall i :: 0 <= i < |log| ==> more[i] == log[i];
    if Played(more, id) {
      PlayedExtended(log, msg, id);
    }
    if Played(log, id) {
      var i, j :| 0 <= i < j < |log| && log[i].AssignId? && IsOwnAdd(log[j], id);
      assert more[i].AssignId? && IsOwnAdd(more[j], id);
    }
    if Assigned(log) && IsOwnAdd(msg, id) {
      var i :| 0 <= i < |log| && log[i].AssignId?;
      assert more[i].AssignId? && IsOwnAdd(more[|log|], id);
    }
    hide IsOwnAdd;
  }

  // ---- One client ----

  /**
   What a client that has handled the messages `seen` on the connection with ID `id` knows: the
   players last spoken of but as removed are in its map; its ID is its own as soon as it was told;
   and it waits until its own entry has been added after that.
   */
  ghost predicate Sees(c: Client, seen: seq<ServerMsg>, id: Uint32) {
    && (forall k: Uint32 :: k in c.objects <==> Present(seen, k))
    && c.playerId == (if Assigned(seen) then id else 0)
    && (c.waiting <==> !Played(seen, id))
    && c.player.uniqueId == DEFAULT_DESC.uniqueId
  }

  lemma NewClientSees(id: Uint32)
    ensures Sees(NEW_CLIENT, [], id)
  {
  }

  /** Which entries one message changes, and to what. */
  lemma ReceiveEntry(c: Client, msg: ServerMsg, start: Carried, connected: bool, k: Uint32)
    ensures var d := Receive(c, msg, start, connected);
      && (k in d.objects <==> if Names(msg, k) then !msg.RemovePlayer? else k in c.objects)
      && (k in d.objects ==> d.objects[k] == if Names(msg, k) then msg.desc else c.objects[k])
  {
  }

  lemma ReceiveSees(c: Client, seen: seq<ServerMsg>, id: Uint32, n: nat, msg: ServerMsg, start: Carried,
                    connected: bool)
    requires Sees(c, seen, id) && MsgOk(msg, id, n) && Known(id, n)
    ensures Sees(Receive(c, msg, start, connected), seen + [msg], id)
  {
    var d := Receive(c, msg, start, connected);
    forall k: Uint32 ensures k in d.objects <==> Present(seen + [msg], k) {
      ReceiveEntry(c, msg, start, connected, k);
      PresentExtended(seen, msg, k);
    }
    AssignedExtended(seen, msg);
    PlayedExactly(seen, msg, id);
    hide Present, Assigned, Played, Names;
  }

  lemma TickSees(c: Client, seen: seq<ServerMsg>, id: Uint32, bodies: map<Uint32, Carried>, connected: bool)
    requires Sees(c, seen, id) && (!c.waiting ==> c.playerId in c.objects)
    ensures Sees(Tick(c, bodies, connected), seen, id)
  {
    hide Present, Assigned, Played;
  }

  // ---- What a step does to a client ----

  function Seen(y: System, c: nat): seq<ServerMsg>
    requires GameSystem.WellFormed(y) && c < |y.clients| && y.got[c] <= |y.server.posted[c]|
  {
    y.server.posted[c][..y.got[c]]
  }

  predicate Receives(step: Step, c: nat) {
    step.ClientReceives? && step.c == c
  }

  predicate Ticks(step: Step, c: nat) {
    step.ClientTicks? && step.c == c
  }

  lemma ClientFacts(y: System, c: nat)
    requires SystemOk(y) && c < |y.clients|
    ensures y.got[c] <= |y.server.posted[c]| && y.server.ids[c] == FIRST_ID + c
    ensures var d, id := y.clients[c], y.server.ids[c]; !d.waiting ==> d.playerId == id && id in d.objects
    ensures forall i :: 0 <= i < |y.server.posted[c]| ==> MsgOk(y.server.posted[c][i], y.server.ids[c], |y.server.open|)
    ensures Known(y.server.ids[c], |y.server.open|)
  {
    assert ClientOk(y.clients[c], y.server.posted[c][..y.got[c]], y.server.ids[c], |y.server.open|);
    assert LogOk(y.server.posted[c], y.server.ids[c], |y.server.open|);
  }

  /** A step leaves the messages a client has handled alone, and but for its own steps the client too. */
  lemma StepKeepsSeen(y: System, step: Step, z: System, c: nat)
    requires SystemOk(y) && GameSystem.Next(y, step, z) && GameSystem.WellFormed(z) && !step.ServerReallocates?
    requires c < |y.clients|
    ensures c < |z.clients| && y.got[c] <= |y.server.posted[c]| && z.server.ids[c] == y.server.ids[c]
    ensures y.server.posted[c] <= z.server.posted[c]
    ensures z.got[c] == y.got[c] + if Receives(step, c) then 1 else 0
    ensures !Receives(step, c) && !Ticks(step, c) ==> z.clients[c] == y.clients[c]
  {
    ClientFacts(y, c);
    if step.ServerHandles? {
      var m := y.incoming[0];
      HandleKeepsLog(y.server, m.remote, m.msg, step.order, c);
      hide ServerSpec.OnMessage, LoopRoster;
    }
    hide Receive, Tick;
  }

  /** Of the messages handled, the step adds the one received. */
  lemma SeenNext(y: System, step: Step, z: System, c: nat)
    requires SystemOk(y) && GameSystem.Next(y, step, z) && GameSystem.WellFormed(z) && !step.ServerReallocates?
    requires c < |y.clients|
    ensures c < |z.clients| && y.got[c] <= |y.server.posted[c]| && z.got[c] <= |z.server.posted[c]|
    ensures Receives(step, c) ==> y.got[c] < |y.server.posted[c]|
    ensures Seen(z, c) == Seen(y, c) + if Receives(step, c) then [y.server.posted[c][y.got[c]]] else []
  {
    StepKeepsSeen(y, step, z, c);
    hide SystemOk;
    if Receives(step, c) {
      assert z.server == y.server;
    } else {
      assert z.server.posted[c][..y.got[c]] == y.server.posted[c][..y.got[c]];
    }
  }

  lemma StepSees(y: System, step: Step, z: System, c: nat)
    requires SystemOk(y) && GameSystem.Next(y, step, z) && GameSystem.WellFormed(z) && !step.ServerReallocates?
    requires c < |y.clients| && y.got[c] <= |y.server.posted[c]| && Sees(y.clients[c], Seen(y, c), y.server.ids[c])
    ensures c < |z.clients| && z.got[c] <= |z.server.posted[c]|
    ensures Sees(z.clients[c], Seen(z, c), z.server.ids[c])
  {
    hide Sees, Receive, Tick;
    StepKeepsSeen(y, step, z, c);
    SeenNext(y, step, z, c);
    ClientFacts(y, c);
    hide SystemOk;
    var id := y.server.ids[c];
    assert Seen(y, c) + [] == Seen(y, c);
    if Receives(step, c) {
      ReceiveSees(y.clients[c], Seen(y, c), id, |y.server.open|, y.server.posted[c][y.got[c]], step.start,
                  step.connected);
    } else if Ticks(step, c) {
      PlayingHasObject(y.clients[c], id);
      TickSees(y.clients[c], Seen(y, c), id, step.bodies, step.connected);
    }
  }

  lemma PlayingHasObject(c: Client, id: Uint32)
    requires !c.waiting ==> c.playerId == id && id in c.objects
    ensures !c.waiting ==> c.playerId in c.objects
  {
  }

  // ---- Whole runs ----

  /** A state of a run that the theorems below are about. */
  ghost predicate At(run: seq<System>, steps: seq<Step>, i: nat) {
    IsRun(run, steps) && i < |run| && Defined(steps, i) && FIRST_ID + |run[i].server.open| <= TWO_32
  }

  lemma StepOfRun(run: seq<System>, steps: seq<Step>, i: nat)
    requires At(run, steps, i)
    ensures |run| == |steps| + 1 && i < |run| && SystemOk(run[i]) && GameSystem.WellFormed(run[i])
    ensures i > 0 ==>
      && At(run, steps, i - 1) && SystemOk(run[i - 1]) && GameSystem.WellFormed(run[i - 1])
      && GameSystem.Next(run[i - 1], steps[i - 1], run[i]) && !steps[i - 1].ServerReallocates?
  {
    hide SystemOk, GameSystem.Next;
    RunKeeps(run, steps, i);
    if i > 0 {
      assert GameSystem.Next(run[i - 1], steps[i - 1], run[i]);
      GameSystem.NextGrows(run[i - 1], steps[i - 1], run[i]);
      RunKeeps(run, steps, i - 1);
    }
  }

  lemma NewClient(y: System, step: Step, z: System, c: nat)
    requires GameSystem.WellFormed(y) && GameSystem.Next(y, step, z) && GameSystem.WellFormed(z)
    requires !step.ServerReallocates? && |y.clients| <= c < |z.clients|
    ensures z.clients[c] == NEW_CLIENT && z.got[c] == 0
  {
    hide Receive, Tick, ServerSpec.OnMessage, LoopRoster;
  }

  /**
   In every state of every run a client knows exactly what the messages it has handled tell: whoever
   was last spoken of but as removed is in its map and nobody else, it plays under its own ID once it
   was told, and it has stopped waiting exactly if it was introduced after that.
   */
  lemma {:induction false} ClientsSee(run: seq<System>, steps: seq<Step>, i: nat, c: nat)
    requires At(run, steps, i) && c < |run[i].clients|
    ensures run[i].got[c] <= |run[i].server.posted[c]|
    ensures Sees(run[i].clients[c], Seen(run[i], c), run[i].server.ids[c])
  {
    hide SystemOk, GameSystem.Next, Sees, At;
    StepOfRun(run, steps, i);
    ClientFacts(run[i], c);
    if i == 0 {
      NothingAccepted(run, steps, c);
    } else if c < |run[i - 1].clients| {
      ClientsSee(run, steps, i - 1, c);
      StepSees(run[i - 1], steps[i - 1], run[i], c);
    } else {
      NewClient(run[i - 1], steps[i - 1], run[i], c);
      NewClientSees(run[i].server.ids[c]);
      assert Seen(run[i], c) == [];
    }
  }

  lemma NothingAccepted(run: seq<System>, steps: seq<Step>, c: nat)
    requires At(run, steps, 0)
    ensures |run[0].clients| == 0
  {
  }

  /** Step `m` moves what the client knows of `k` after it has handled message `n`. */
  ghost predicate Moves(run: seq<System>, steps: seq<Step>, m: nat, c: nat, k: Uint32, n: nat) {
    && m < |steps| && m < |run| && c < |run[m].clients| == |run[m].got| && Ticks(steps[m], c)
    && !run[m].clients[c].waiting && k in steps[m].bodies && run[m].got[c] > n
  }

  /** It is the last one to do so before state `i`. */
  ghost predicate LastMove(run: seq<System>, steps: seq<Step>, i: nat, m: nat, c: nat, k: Uint32, n: nat) {
    m < i && Moves(run, steps, m, c, k, n) && forall j: nat :: m < j < i ==> !Moves(run, steps, j, c, k, n)
  }

  ghost predicate NeverMoved(run: seq<System>, steps: seq<Step>, i: nat, c: nat, k: Uint32, n: nat) {
    forall m: nat :: m < i ==> !Moves(run, steps, m, c, k, n)
  }

  /** The entry is `desc`, but for the last movement since. */
  ghost predicate EntryIs(run: seq<System>, steps: seq<Step>, i: nat, c: nat, k: Uint32, n: nat, desc: Desc)
    requires i < |run| && c < |run[i].clients|
  {
    var objects := run[i].clients[c].objects;
    && k in objects
    && (NeverMoved(run, steps, i, c, k, n) ==> objects[k] == desc)
    && (forall m: nat :: LastMove(run, steps, i, m, c, k, n) ==> objects[k] == desc.(body := steps[m].bodies[k]))
  }

  lemma {:induction false} GotGrows(run: seq<System>, steps: seq<Step>, m: nat, i: nat, c: nat)
    requires At(run, steps, i) && m <= i && c < |run[m].clients| == |run[m].got|
    ensures c < |run[i].clients| == |run[i].got| && run[m].got[c] <= run[i].got[c]
  {
    hide SystemOk, GameSystem.Next, At;
    StepOfRun(run, steps, i);
    if m < i {
      GotGrows(run, steps, m, i - 1, c);
      StepKeepsSeen(run[i - 1], steps[i - 1], run[i], c);
    }
  }

  /** An entry just received has not moved since. */
  lemma JustReceived(run: seq<System>, steps: seq<Step>, i: nat, c: nat, k: Uint32)
    requires At(run, steps, i) && i > 0 && c < |run[i - 1].clients| == |run[i - 1].got|
    requires Receives(steps[i - 1], c)
    ensures NeverMoved(run, steps, i, c, k, run[i - 1].got[c])
  {
    hide GameSystem.Next;
    StepOfRun(run, steps, i);
    var n := run[i - 1].got[c];
    forall m: nat | m < i ensures !Moves(run, steps, m, c, k, n) {
      if m < i - 1 && c < |run[m].clients| == |run[m].got| {
        hide At, SystemOk;
        GotGrows(run, steps, m, i - 1, c);
      }
    }
  }

  /** Between two states that a step does not move an entry in, the movements are the same. */
  lemma SameMoves(run: seq<System>, steps: seq<Step>, i: nat, c: nat, k: Uint32, n: nat)
    requires i > 0 && !Moves(run, steps, i - 1, c, k, n)
    ensures NeverMoved(run, steps, i, c, k, n) ==> NeverMoved(run, steps, i - 1, c, k, n)
    ensures forall m: nat :: LastMove(run, steps, i, m, c, k, n) ==> LastMove(run, steps, i - 1, m, c, k, n)
  {
    hide Moves;
  }

  lemma MovedNow(run: seq<System>, steps: seq<Step>, i: nat, c: nat, k: Uint32, n: nat)
    requires i > 0 && Moves(run, steps, i - 1, c, k, n)
    ensures !NeverMoved(run, steps, i, c, k, n)
    ensures forall m: nat :: LastMove(run, steps, i, m, c, k, n) ==> m == i - 1
  {
    hide Moves;
  }

  /** What a frame makes of an entry. */
  lemma TickEntry(c: Client, bodies: map<Uint32, Carried>, connected: bool, k: Uint32)
    requires !c.waiting ==> c.playerId in c.objects
    ensures var d := Tick(c, bodies, connected);
      && (k in d.objects <==> k in c.objects)
      && (k in c.objects ==>
            d.objects[k] == if !c.waiting && k in bodies then c.objects[k].(body := bodies[k]) else c.objects[k])
  {
  }

  /** A message received, as far as one entry is concerned. */
  lemma EntryReceived(run: seq<System>, steps: seq<Step>, i: nat, c: nat, k: Uint32, n: nat, desc: Desc)
    requires At(run, steps, i) && i > 0 && c < |run[i - 1].clients| == |run[i - 1].got| && Receives(steps[i - 1], c)
    requires c < |run[i - 1].server.posted| && run[i - 1].got[c] < |run[i - 1].server.posted[c]|
    requires var msg := run[i - 1].server.posted[c][run[i - 1].got[c]];
      if Names(msg, k) then n == run[i - 1].got[c] && !msg.RemovePlayer? && msg.desc == desc
      else EntryIs(run, steps, i - 1, c, k, n, desc)
    ensures c < |run[i].clients| && EntryIs(run, steps, i, c, k, n, desc)
  {
    hide SystemOk, At, Moves;
    StepOfRun(run, steps, i);
    var y := run[i - 1];
    var msg := y.server.posted[c][y.got[c]];
    ReceiveEntry(y.clients[c], msg, steps[i - 1].start, steps[i - 1].connected, k);
    hide Receive;
    if Names(msg, k) {
      JustReceived(run, steps, i, c, k);
    } else {
      OnlyTicksMove(run, steps, i - 1, c, k, n);
      SameMoves(run, steps, i, c, k, n);
    }
    hide Names;
  }

  lemma OnlyTicksMove(run: seq<System>, steps: seq<Step>, m: nat, c: nat, k: Uint32, n: nat)
    requires m < |steps| && !Ticks(steps[m], c)
    ensures !Moves(run, steps, m, c, k, n)
  {
  }

  lemma EntryTicked(run: seq<System>, steps: seq<Step>, i: nat, c: nat, k: Uint32, n: nat, desc: Desc)
    requires At(run, steps, i) && i > 0 && c < |run[i - 1].clients| == |run[i - 1].got| && Ticks(steps[i - 1], c)
    requires EntryIs(run, steps, i - 1, c, k, n, desc) && n < run[i - 1].got[c]
    ensures c < |run[i].clients| && EntryIs(run, steps, i, c, k, n, desc)
  {
    hide At, SystemOk;
    StepOfRun(run, steps, i);
    var y, step := run[i - 1], steps[i - 1];
    ClientFacts(y, c);
    TickEntry(y.clients[c], step.bodies, step.connected, k);
    hide Tick;
    if !y.clients[c].waiting && k in step.bodies {
      assert Moves(run, steps, i - 1, c, k, n);
      MovedNow(run, steps, i, c, k, n);
      SameDesc(run, steps, i - 1, c, k, n, desc);
    } else {
      assert !Moves(run, steps, i - 1, c, k, n);
      SameMoves(run, steps, i, c, k, n);
    }
    hide Moves, LastMove, NeverMoved;
  }

  /** However an entry was moved, its ID has stayed. */
  lemma {:induction false} SameDesc(run: seq<System>, steps: seq<Step>, i: nat, c: nat, k: Uint32, n: nat, desc: Desc)
    requires i < |run| && c < |run[i].clients| && EntryIs(run, steps, i, c, k, n, desc)
    ensures run[i].clients[c].objects[k].uniqueId == desc.uniqueId
  {
    SomeLastMove(run, steps, i, c, k, n);
    hide NeverMoved, LastMove;
  }

  lemma {:induction false} SomeLastMove(run: seq<System>, steps: seq<Step>, i: nat, c: nat, k: Uint32, n: nat)
    ensures NeverMoved(run, steps, i, c, k, n) || exists m: nat :: LastMove(run, steps, i, m, c, k, n)
  {
    hide Moves;
    if i > 0 {
      var j := i - 1;
      SomeLastMove(run, steps, j, c, k, n);
      if Moves(run, steps, j, c, k, n) {
        assert LastMove(run, steps, i, j, c, k, n);
      } else if m: nat :| LastMove(run, steps, j, m, c, k, n) {
        assert LastMove(run, steps, i, m, c, k, n);
      }
    }
  }

  lemma EntryUntouched(run: seq<System>, steps: seq<Step>, i: nat, c: nat, k: Uint32, n: nat, desc: Desc)
    requires At(run, steps, i) && i > 0 && c < |run[i - 1].clients|
    requires !Receives(steps[i - 1], c) && !Ticks(steps[i - 1], c)
    requires EntryIs(run, steps, i - 1, c, k, n, desc)
    ensures c < |run[i].clients| && EntryIs(run, steps, i, c, k, n, desc)
  {
    hide At, SystemOk, GameSystem.Next, Moves, NeverMoved, LastMove;
    StepOfRun(run, steps, i);
    StepKeepsSeen(run[i - 1], steps[i - 1], run[i], c);
    OnlyTicksMove(run, steps, i - 1, c, k, n);
    SameMoves(run, steps, i, c, k, n);
  }

  /**
   In every state of every run a client holds of every player what the last message that names it
   said, but for what was moved locally since that message was handled.
   */
  lemma {:induction false} EntryIsLatest(run: seq<System>, steps: seq<Step>, i: nat, c: nat, k: Uint32, n: nat)
    requires At(run, steps, i) && c < |run[i].clients| && run[i].got[c] <= |run[i].server.posted[c]|
    requires LastNaming(Seen(run[i], c), k, n) && !Seen(run[i], c)[n].RemovePlayer?
    ensures EntryIs(run, steps, i, c, k, n, Seen(run[i], c)[n].desc)
  {
    hide SystemOk, GameSystem.Next, At, LastNaming, Names, Receive, Tick, EntryIs;
    StepOfRun(run, steps, i);
    InLog(Seen(run[i], c), k, n);
    if i == 0 {
      NothingAccepted(run, steps, c);
    } else if c < |run[i - 1].clients| {
      var y, step, z := run[i - 1], steps[i - 1], run[i];
      SeenNext(y, step, z, c);
      assert Seen(y, c) + [] == Seen(y, c);
      if Receives(step, c) {
        var msg := y.server.posted[c][y.got[c]];
        LastNamingExtended(Seen(y, c), msg, k, n);
        if !Names(msg, k) {
          InLog(Seen(y, c), k, n);
          EntryIsLatest(run, steps, i - 1, c, k, n);
        }
        NamedDesc(Seen(z, c), k, n);
        EntryReceived(run, steps, i, c, k, n, Seen(z, c)[n].desc);
      } else {
        InLog(Seen(y, c), k, n);
        EntryIsLatest(run, steps, i - 1, c, k, n);
        if Ticks(step, c) {
          EntryTicked(run, steps, i, c, k, n, Seen(y, c)[n].desc);
        } else {
          EntryUntouched(run, steps, i, c, k, n, Seen(y, c)[n].desc);
        }
      }
    } else {
      NewClient(run[i - 1], steps[i - 1], run[i], c);
    }
  }

  lemma NamedDesc(log: seq<ServerMsg>, k: Uint32, n: nat)
    requires LastNaming(log, k, n)
    ensures log[n].AddPlayer? || log[n].UpdatePlayer? || log[n].RemovePlayer?
  {
  }

  lemma InLog(log: seq<ServerMsg>, k: Uint32, n: nat)
    requires LastNaming(log, k, n)
    ensures n < |log| && Names(log[n], k)
  {
  }

  // ---- What a client sends ----

  /** What the step after state `i` has client `c` send. */
  function SentAt(run: seq<System>, steps: seq<Step>, i: nat, c: nat): seq<ClientMsg>
    requires i < |steps| && i + 1 < |run| && c < |run[i].clients| == |run[i].server.posted| == |run[i].got|
    requires c < |run[i + 1].clients| && c < |run[i].server.ids|
  {
    var y, log := run[i], run[i].server.posted[c];
    match steps[i]
    case ClientReceives(b, start, connected) =>
      // An acceptance is answered with the registration of the player.
      if b == c && connected && y.got[c] < |log| && log[y.got[c]] == Accepted then
        [Register(Desc(DEFAULT_DESC.uniqueId, start))]
      else []
    case ClientTicks(b, _, connected) =>
      // Once in the game, every frame sends what the client then holds of its own player.
      var own, objects := y.server.ids[c], run[i + 1].clients[c].objects;
      if b == c && connected && !y.clients[c].waiting && own in objects then [Update(objects[own])] else []
    case _ => []
  }

  lemma ReceiveSends(c: Client, msg: ServerMsg, start: Carried, connected: bool)
    requires c.player.uniqueId == DEFAULT_DESC.uniqueId
    ensures Receive(c, msg, start, connected).sent ==
      c.sent + if connected && msg == Accepted then [Register(Desc(DEFAULT_DESC.uniqueId, start))] else []
  {
  }

  lemma TickSends(c: Client, bodies: map<Uint32, Carried>, connected: bool)
    requires !c.waiting ==> c.playerId in c.objects
    ensures var d := Tick(c, bodies, connected);
      d.sent == c.sent +
        if connected && !c.waiting && c.playerId in d.objects then [Update(d.objects[c.playerId])] else []
  {
  }

  /** Every step of every run has a client send exactly that. */
  lemma SendsExactly(run: seq<System>, steps: seq<Step>, i: nat, c: nat)
    requires At(run, steps, i + 1) && c < |run[i].clients|
    ensures SystemOk(run[i]) && SystemOk(run[i + 1]) && c < |run[i + 1].clients|
    ensures run[i + 1].clients[c].sent == run[i].clients[c].sent + SentAt(run, steps, i, c)
  {
    hide SystemOk, Receive, Tick, At, Sees;
    StepOfRun(run, steps, i + 1);
    var y, step, z := run[i], steps[i], run[i + 1];
    StepKeepsSeen(y, step, z, c);
    ClientFacts(y, c);
    ClientsSee(run, steps, i, c);
    PlayerIs(y.clients[c], Seen(y, c), y.server.ids[c]);
    if Receives(step, c) {
      ReceiveSends(y.clients[c], y.server.posted[c][y.got[c]], step.start, step.connected);
    } else if Ticks(step, c) {
      TickSends(y.clients[c], step.bodies, step.connected);
    } else {
      hide GameSystem.Next;
    }
  }

  lemma PlayerIs(c: Client, seen: seq<ServerMsg>, id: Uint32)
    requires Sees(c, seen, id)
    ensures c.player.uniqueId == DEFAULT_DESC.uniqueId
  {
  }
}
