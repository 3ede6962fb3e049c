/** Who is in the roster and who waits to be announced as removed, once a message has been handled. */
module ServerAftermath {
  import opened Basics
  import opened Protocol
  import opened Sequences
  import opened ServerSpec
  import opened ServerEffects
  import opened ServerSafety

  lemma MembersOfConcat<T>(a: seq<T>, b: seq<T>, x: T)
    ensures x in a + b <==> x in a || x in b
  {
  }

  /** A broadcast queues the registered connections that it finds closed. */
  lemma BroadcastQueues(s: Server, msg: ServerMsg, ignore: Handle, k: Uint32)
    requires Invariant(s)
    ensures k in MessageAll(s, msg, ignore).garbage <==>
      k in s.garbage || (k in s.roster && !s.open[k - FIRST_ID])
  {
    var n := |s.container|;
    assert MessageAll(s, msg, ignore).garbage == s.garbage + Dropped(s, n) by { MessageAllEffect(s, msg, ignore); }
    MembersOfConcat(s.garbage, Dropped(s, n), k);
    DroppedMembers(s, n, k);
    LeavesMeans(s, n, k);
    assert s.container[..n] == s.container;
    hide MessageAll, Leaves, Dropped;
  }

  /** What registering queues. */
  lemma AnnounceQueues(f: Server, c: nat, desc: Desc, k: Uint32)
    requires Invariant(f) && f.garbage == [] && c < |f.open|
    ensures k in Announce(f, c, desc).garbage <==>
      if k == f.ids[c] then !f.open[c] else k in f.roster && !f.open[k - FIRST_ID]
  {
    EnterKeeps(f, c, desc);
    EnterQueues(f, c, desc);
    hide Enter, MessageAll;
    BroadcastQueues(Enter(f, c, desc), AddPlayer(desc.(uniqueId := f.ids[c])), None, k);
  }

  lemma EnterQueues(f: Server, c: nat, desc: Desc)
    requires Invariant(f) && f.garbage == [] && c < |f.open|
    ensures Enter(f, c, desc).garbage == if f.open[c] then [] else [f.ids[c]]
  {
    hide Enter;
    if f.open[c] {
      EnterLive(f, c, desc);
    } else {
      EnterDead(f, c, desc);
      assert [] + [f.ids[c]] == [f.ids[c]];
    }
  }

  /** The loop over the roster queues nobody. */
  lemma RosterLoopQueues(f: Server, c: nat, desc: Desc, order: seq<Uint32>)
    requires Invariant(f) && f.garbage == [] && c < |f.open|
    requires forall k :: k in order ==> k in Announce(f, c, desc).roster
    ensures var a := Announce(f, c, desc); var t := SendRosterFirst(a, c, order, |order|);
      t.garbage == a.garbage && t.roster == a.roster
  {
    var a := Announce(f, c, desc);
    AnnounceEffect(f, c, desc);
    hide Announce;
    if f.open[c] {
      SendRosterLive(a, c, order, |order|);
    } else {
      SendRosterDead(a, c, order, |order|);
    }
  }

  /** Whether handling `msg` sends anything to everybody, and so finds the dead. */
  predicate Broadcasts(s: Server, msg: ClientMsg) {
    s.garbage != [] || !msg.Unregister?
  }

  predicate Registers(s: Server, c: nat, msg: ClientMsg, k: Uint32)
    requires c < |s.ids|
  {
    msg.Register? && k == s.ids[c]
  }

  /**
   The roster after a message: the registrant, if alive, with what it sent; and all others that were in
   it, unchanged, but for those a broadcast has found dead.
   */
  lemma RosterExactly(s: Server, c: nat, msg: ClientMsg, order: seq<Uint32>, k: Uint32)
    requires Invariant(s) && c < |s.open|
    requires Enumerates(order, LoopRoster(s, c, msg).Keys)
    ensures var t := OnMessage(s, c, msg, order);
      && (k in t.roster <==>
            if Registers(s, c, msg, k) then s.open[c]
            else k in s.roster && (Broadcasts(s, msg) ==> s.open[k - FIRST_ID]))
      && (k in t.roster ==>
            t.roster[k] == if Registers(s, c, msg, k) then msg.desc.(uniqueId := k) else s.roster[k])
  {
    FlushKeeps(s);
    hide Flush;
    match msg
    case Register(desc) =>
      AnnounceEffect(Flush(s), c, desc);
      RosterLoopQueues(Flush(s), c, desc, order);
      hide Announce;
    case Unregister =>
    case Update(desc) =>
      MessageAllKeeps(Flush(s), UpdatePlayer(desc), Some(c));
      hide MessageAll;
  }

  /**
   Who waits to be announced as removed after it: a dead registrant, and the registered connections
   found closed, but none of these if there was something to announce before.
   */
  lemma GarbageExactly(s: Server, c: nat, msg: ClientMsg, order: seq<Uint32>, k: Uint32)
    requires Invariant(s) && c < |s.open|
    requires Enumerates(order, LoopRoster(s, c, msg).Keys)
    ensures k in OnMessage(s, c, msg, order).garbage <==>
      if Registers(s, c, msg, k) then !s.open[c]
      else s.garbage == [] && !msg.Unregister? && k in s.roster && !s.open[k - FIRST_ID]
  {
    FlushKeeps(s);
    hide Flush;
    match msg
    case Register(desc) =>
      AnnounceQueues(Flush(s), c, desc, k);
      RosterLoopQueues(Flush(s), c, desc, order);
      hide Announce;
    case Unregister =>
    case Update(desc) =>
      BroadcastQueues(Flush(s), UpdatePlayer(desc), Some(c), k);
      hide MessageAll;
  }

  /**
   So a registered player whose connection is found closed while others are being announced as removed
   leaves the roster and is never queued: nobody is told, now or later.
   */
  lemma LeavesUnannounced(s: Server, c: nat, msg: ClientMsg, order: seq<Uint32>, k: Uint32, b: nat)
    requires Invariant(s) && c < |s.open| && b < |s.open|
    requires Enumerates(order, LoopRoster(s, c, msg).Keys)
    requires s.garbage != [] && k in s.roster && !s.open[k - FIRST_ID] && !Registers(s, c, msg, k)
    ensures var t := OnMessage(s, c, msg, order);
      && k !in t.roster && k !in t.garbage
      && |t.posted| == |s.posted| && s.posted[b] <= t.posted[b]
      && RemovePlayer(k) !in t.posted[b][|s.posted[b]|..]
  {
    RosterExactly(s, c, msg, order, k);
    GarbageExactly(s, c, msg, order, k);
    OnMessagePosts(s, c, msg, order, b);
    NotAmongRemovals(s, c, msg, order, k, b);
    hide OnMessage;
  }

  lemma NotAmongRemovals(s: Server, c: nat, msg: ClientMsg, order: seq<Uint32>, k: Uint32, b: nat)
    requires Invariant(s) && c < |s.open| && b < |s.open| && k in s.roster
    requires Enumerates(order, LoopRoster(s, c, msg).Keys)
    ensures RemovePlayer(k) !in Removals(s.garbage) + Reply(s, c, msg, order, b)
  {
    assert k !in s.garbage;
    hide LoopRoster, Invariant;
  }
}
