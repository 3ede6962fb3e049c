/**
 What every step of the server keeps, and what holds over all its runs: connections are accepted,
 sockets close at any time, and messages from connections, dropped ones included, are handled.
 */
module ServerSafety {
  import opened Basics
  import opened Protocol
  import opened Sequences
  import opened ServerSpec
  import opened ServerEffects

  /** Every roster key is its entry's `nUniqueID` and the ID of a connection in the container. */
  ghost predicate RosterOk(s: Server) {
    forall k :: k in s.roster ==>
      && s.roster[k].uniqueId == k
      && FIRST_ID <= k < FIRST_ID + |s.open|
      && Some(k - FIRST_ID) in s.container
  }

  /** Garbage IDs are distinct, unregistered, and IDs of closed connections. */
  ghost predicate GarbageOk(s: Server) {
    && NoDuplicates(s.garbage)
    && (forall k :: k in s.garbage ==>
          k !in s.roster && FIRST_ID <= k < FIRST_ID + |s.open| && !s.open[k - FIRST_ID])
  }

  ghost predicate Invariant(s: Server) {
    Tables(s) && ContainerOk(s) && RosterOk(s) && GarbageOk(s)
  }

  /** The container is exactly the open connections: so it is after every broadcast. */
  ghost predicate Swept(s: Server) {
    forall c: nat :: Some(c) in s.container <==> c < |s.open| && s.open[c]
  }

  // ---- One broadcast ----

  lemma BroadcastEntry(s: Server, msg: ServerMsg, ignore: Handle, k: Uint32)
    requires Tables(s) && ContainerOk(s) && RosterOk(s)
    ensures var t := MessageAll(s, msg, ignore);
      && (k in t.roster <==> k in s.roster && s.open[k - FIRST_ID])
      && (k in t.roster ==> t.roster[k] == s.roster[k])
  {
    VisitFirstRoster(s, |s.container|, msg, ignore);
    LeavesMeans(s, |s.container|, k);
    assert s.container[..|s.container|] == s.container;
  }

  lemma BroadcastRoster(s: Server, msg: ServerMsg, ignore: Handle)
    requires Tables(s) && ContainerOk(s) && RosterOk(s)
    ensures var t := MessageAll(s, msg, ignore);
      && Tables(t) && ContainerOk(t) && RosterOk(t) && Swept(t)
      && (forall k :: k in t.roster <==> k in s.roster && s.open[k - FIRST_ID])
      && (forall k :: k in t.roster ==> t.roster[k] == s.roster[k])
  {
    var t := MessageAll(s, msg, ignore);
    MessageAllContainer(s, msg, ignore);
    forall k: Uint32
      ensures k in t.roster <==> k in s.roster && s.open[k - FIRST_ID]
      ensures k in t.roster ==> t.roster[k] == s.roster[k]
    {
      BroadcastEntry(s, msg, ignore, k);
    }
  }

  lemma DroppedOk(s: Server)
    requires Tables(s) && ContainerOk(s)
    ensures var d := Dropped(s, |s.container|);
      && NoDuplicates(d)
      && (forall k :: k in d ==>
            k in s.roster && FIRST_ID <= k < FIRST_ID + |s.open| && !s.open[k - FIRST_ID])
  {
    var n := |s.container|;
    DroppedDistinct(s, n);
    forall k | k in Dropped(s, n)
      ensures k in s.roster && FIRST_ID <= k < FIRST_ID + |s.open| && !s.open[k - FIRST_ID]
    {
      DroppedMembers(s, n, k);
      LeavesMeans(s, n, k);
    }
  }

  lemma BroadcastGarbage(s: Server, msg: ServerMsg, ignore: Handle)
    requires Invariant(s)
    ensures GarbageOk(MessageAll(s, msg, ignore))
  {
    BroadcastRoster(s, msg, ignore);
    DroppedOk(s);
    NoDuplicatesConcat(s.garbage, Dropped(s, |s.container|));
    assert MessageAll(s, msg, ignore).garbage == s.garbage + Dropped(s, |s.container|) &&
           MessageAll(s, msg, ignore).open == s.open by {
      MessageAllEffect(s, msg, ignore);
    }
  }

  /** A broadcast keeps the invariant and leaves exactly the open connections in the container. */
  lemma MessageAllKeeps(s: Server, msg: ServerMsg, ignore: Handle)
    requires Invariant(s)
    ensures var t := MessageAll(s, msg, ignore);
      && Invariant(t) && Swept(t)
      && (forall k :: k in t.roster <==> k in s.roster && s.open[k - FIRST_ID])
      && (forall k :: k in t.roster ==> t.roster[k] == s.roster[k])
  {
    BroadcastRoster(s, msg, ignore);
    BroadcastGarbage(s, msg, ignore);
  }

  // ---- The flush at the head of OnMessage ----

  function Removals(ids: seq<Uint32>): (r: seq<ServerMsg>)
    ensures |r| == |ids| && forall i :: 0 <= i < |r| ==> r[i] == RemovePlayer(ids[i])
  {
    seq(|ids|, i requires 0 <= i < |ids| => RemovePlayer(ids[i]))
  }

  lemma {:induction false} FlushFirstKeeps(s: Server, n: nat)
    requires Invariant(s) && n <= |s.garbage|
    ensures var t := FlushFirst(s, n);
      && SameTables(s, t) && Invariant(t)
      && (forall k :: k in t.roster <==> k in s.roster && (n > 0 ==> s.open[k - FIRST_ID]))
      && (forall k :: k in t.roster ==> t.roster[k] == s.roster[k])
  {
    if n > 0 {
      FlushFirstKeeps(s, n - 1);
      var u, msg := FlushFirst(s, n - 1), RemovePlayer(s.garbage[n - 1]);
      MessageAllKeeps(u, msg, None);
      MessageAllContainer(u, msg, None);
    }
  }

  lemma {:induction false} FlushFirstPosts(s: Server, n: nat, c: nat)
    requires Invariant(s) && n <= |s.garbage| && c < |s.open|
    ensures |FlushFirst(s, n).posted| == |s.posted|
    ensures FlushFirst(s, n).posted[c] ==
      s.posted[c] + if s.open[c] then Removals(s.garbage[..n]) else []
  {
    hide MessageAll;
    if n == 0 {
      assert s.garbage[..0] == [];
    } else {
      var u, msg := FlushFirst(s, n - 1), RemovePlayer(s.garbage[n - 1]);
      FlushFirstPosts(s, n - 1, c);
      assert Invariant(u) && u.open == s.open by {
        FlushFirstKeeps(s, n - 1);
      }
      MessageAllPosts(u, msg, None, c);
      assert FlushFirst(s, n) == MessageAll(u, msg, None);
      if s.open[c] {
        ConcatAssociative(s.posted[c], Removals(s.garbage[..n - 1]), [msg]);
        assert Removals(s.garbage[..n]) == Removals(s.garbage[..n - 1]) + [msg];
      }
    }
  }

  lemma FlushKeeps(s: Server)
    requires Invariant(s)
    ensures var t := Flush(s);
      && SameTables(s, t) && Invariant(t) && t.garbage == []
      && (forall k :: k in t.roster <==> k in s.roster && (s.garbage != [] ==> s.open[k - FIRST_ID]))
      && (forall k :: k in t.roster ==> t.roster[k] == s.roster[k])
  {
    FlushFirstKeeps(s, |s.garbage|);
    hide FlushFirst, ContainerOk;
  }

  /** Every open connection is told of every garbage ID; a closed one of none. */
  lemma FlushPosts(s: Server, c: nat)
    requires Invariant(s) && c < |s.open|
    ensures |Flush(s).posted| == |s.posted|
    ensures Flush(s).posted[c] == s.posted[c] + if s.open[c] then Removals(s.garbage) else []
  {
    FlushFirstPosts(s, |s.garbage|, c);
    assert s.garbage[..|s.garbage|] == s.garbage;
  }

  // ---- Registration ----

  /** The registrant is entered and told its ID; a dead one is struck out again at once. */
  function Enter(s: Server, c: nat, desc: Desc): Server
    requires s.WellFormed() && c < |s.open|
  {
    MessageClient(s.(roster := s.roster[s.ids[c] := desc.(uniqueId := s.ids[c])]), Some(c), AssignId(s.ids[c]))
  }

  lemma MessageClientDead(s: Server, c: nat, msg: ServerMsg)
    requires s.WellFormed() && NoNulls(s.container) && c < |s.open| && !s.open[c]
    ensures MessageClient(s, Some(c), msg) == s.Disconnect(Some(c))
  {
    WithoutNullsIdentity(s.container);
  }

  lemma EnterLive(s: Server, c: nat, desc: Desc)
    requires Invariant(s) && c < |s.open| && s.open[c]
    ensures Enter(s, c, desc) ==
      s.(roster := s.roster[s.ids[c] := desc.(uniqueId := s.ids[c])]).Post(c, AssignId(s.ids[c]))
    ensures s.garbage == [] ==> Invariant(Enter(s, c, desc))
  {
  }

  lemma EnterDead(s: Server, c: nat, desc: Desc)
    requires Invariant(s) && c < |s.open| && !s.open[c]
    ensures Enter(s, c, desc) == s.(roster := s.roster - {s.ids[c]}, garbage := s.garbage + [s.ids[c]])
  {
    var id := s.ids[c];
    var r := s.(roster := s.roster[id := desc.(uniqueId := id)]);
    MessageClientDead(r, c, AssignId(id));
    assert r.roster - {id} == s.roster - {id};
  }

  lemma StruckOutOk(s: Server, c: nat)
    requires Invariant(s) && s.garbage == [] && c < |s.open| && !s.open[c]
    ensures Invariant(s.(roster := s.roster - {s.ids[c]}, garbage := [s.ids[c]]))
  {
  }

  /** The roster after registering: the other live players, and the registrant if alive. */
  ghost predicate RosterAfter(s: Server, c: nat, d: Desc, roster: map<Uint32, Desc>)
    requires Invariant(s) && c < |s.open|
  {
    && (forall k :: k in roster <==>
          if k == s.ids[c] then s.open[c] else k in s.roster && s.open[k - FIRST_ID])
    && (forall k :: k in roster ==> roster[k] == if k == s.ids[c] then d else s.roster[k])
  }

  lemma EnterKeeps(s: Server, c: nat, desc: Desc)
    requires Invariant(s) && s.garbage == [] && c < |s.open|
    ensures var m := Enter(s, c, desc); SameTables(s, m) && Invariant(m)
    ensures var m, d := Enter(s, c, desc), desc.(uniqueId := s.ids[c]);
      m.roster == if s.open[c] then s.roster[s.ids[c] := d] else s.roster - {s.ids[c]}
  {
    hide Enter;
    if s.open[c] {
      EnterLive(s, c, desc);
    } else {
      EnterDead(s, c, desc);
      StruckOutOk(s, c);
    }
  }

  lemma EnterPosts(s: Server, c: nat, desc: Desc, b: nat)
    requires Invariant(s) && c < |s.open| && b < |s.open|
    ensures |Enter(s, c, desc).posted| == |s.posted|
    ensures Enter(s, c, desc).posted[b] ==
      s.posted[b] + if b == c && s.open[c] then [AssignId(s.ids[c])] else []
  {
    hide Enter;
    if s.open[c] {
      EnterLive(s, c, desc);
    } else {
      EnterDead(s, c, desc);
    }
  }

  lemma AnnounceKeeps(s: Server, c: nat, desc: Desc)
    requires Invariant(s) && s.garbage == [] && c < |s.open|
    ensures var m, t := Enter(s, c, desc), Announce(s, c, desc);
      && SameTables(s, t) && Invariant(t) && Swept(t)
      && (forall k :: k in t.roster <==> k in m.roster && s.open[k - FIRST_ID])
      && (forall k :: k in t.roster ==> t.roster[k] == m.roster[k])
  {
    EnterKeeps(s, c, desc);
    var m, msg := Enter(s, c, desc), AddPlayer(desc.(uniqueId := s.ids[c]));
    hide Enter, MessageAll;
    MessageAllKeeps(m, msg, None);
    MessageAllContainer(m, msg, None);
  }

  lemma AnnounceEffect(s: Server, c: nat, desc: Desc)
    requires Invariant(s) && s.garbage == [] && c < |s.open|
    ensures var t := Announce(s, c, desc);
      && SameTables(s, t) && Invariant(t) && Swept(t)
      && RosterAfter(s, c, desc.(uniqueId := s.ids[c]), t.roster)
  {
    hide Enter, Announce;
    AnnounceKeeps(s, c, desc);
    EnterKeeps(s, c, desc);
    hide ContainerOk, GarbageOk, SameTables, Swept;
  }

  /** What registering posts to connection `b` before the loop over the roster. */
  function Greeting(s: Server, c: nat, desc: Desc, b: nat): seq<ServerMsg>
    requires s.WellFormed() && c < |s.open| && b < |s.open|
  {
    var add := AddPlayer(desc.(uniqueId := s.ids[c]));
    if !s.open[b] then [] else if b == c then [AssignId(s.ids[c]), add] else [add]
  }

  lemma AnnouncePosts(s: Server, c: nat, desc: Desc, b: nat)
    requires Invariant(s) && s.garbage == [] && c < |s.open| && b < |s.open|
    ensures |Announce(s, c, desc).posted| == |s.posted|
    ensures Announce(s, c, desc).posted[b] == s.posted[b] + Greeting(s, c, desc, b)
  {
    EnterKeeps(s, c, desc);
    EnterPosts(s, c, desc, b);
    MessageAllPosts(Enter(s, c, desc), AddPlayer(desc.(uniqueId := s.ids[c])), None, b);
  }

  function Entries(roster: map<Uint32, Desc>, order: seq<Uint32>): (r: seq<ServerMsg>)
    requires forall k :: k in order ==> k in roster
    ensures |r| == |order| && forall i :: 0 <= i < |r| ==> r[i] == AddPlayer(roster[order[i]])
  {
    seq(|order|, i requires 0 <= i < |order| => AddPlayer(roster[order[i]]))
  }

  /** For a dead registrant the loop over the roster does nothing at all. */
  lemma {:induction false} SendRosterDead(s: Server, c: nat, order: seq<Uint32>, n: nat)
    requires s.WellFormed() && c < |s.open| && !s.open[c] && n <= |order|
    requires NoNulls(s.container) && s.ids[c] !in s.roster
    ensures SendRosterFirst(s, c, order, n) == s
  {
    if n > 0 {
      SendRosterDead(s, c, order, n - 1);
      if order[n - 1] in s.roster {
        MessageClientDead(s, c, AddPlayer(s.roster[order[n - 1]]));
      }
    }
  }

  /** For a live one it posts one entry per player and changes nothing else, the roster included. */
  lemma {:induction false} SendRosterLive(s: Server, c: nat, order: seq<Uint32>, n: nat)
    requires s.WellFormed() && c < |s.open| && s.open[c] && n <= |order|
    requires forall k :: k in order ==> k in s.roster
    ensures SendRosterFirst(s, c, order, n) ==
      s.(posted := s.posted[c := s.posted[c] + Entries(s.roster, order[..n])])
  {
    if n == 0 {
      assert s.posted[c] + Entries(s.roster, order[..0]) == s.posted[c];
    } else {
      var u, msg := SendRosterFirst(s, c, order, n - 1), AddPlayer(s.roster[order[n - 1]]);
      SendRosterLive(s, c, order, n - 1);
      assert Entries(s.roster, order[..n]) == Entries(s.roster, order[..n - 1]) + [msg];
      assert u.posted[c] + [msg] == s.posted[c] + Entries(s.roster, order[..n]);
      assert u.posted[c := u.posted[c] + [msg]] == s.posted[c := u.posted[c] + [msg]];
      assert SendRosterFirst(s, c, order, n) == u.Post(c, msg);
    }
  }

  // ---- One call of OnMessage ----

  /** What handling `msg` from connection `c` posts to connection `b`, after the removals. */
  function Reply(s: Server, c: nat, msg: ClientMsg, order: seq<Uint32>, b: nat): seq<ServerMsg>
    requires s.WellFormed() && c < |s.open| && b < |s.open|
    requires forall k :: k in order ==> k in LoopRoster(s, c, msg)
  {
    match msg
    case Register(desc) =>
      Greeting(s, c, desc, b) + if b == c then Entries(LoopRoster(s, c, msg), order) else []
    case Unregister => []
    case Update(desc) => if b == c then [] else [UpdatePlayer(desc)]
  }

  lemma PostingKeeps(s: Server, posted: seq<seq<ServerMsg>>)
    requires Invariant(s) && |posted| == |s.posted|
    ensures Invariant(s.(posted := posted))
  {
  }

  lemma RegisterKeeps(f: Server, c: nat, desc: Desc, order: seq<Uint32>)
    requires Invariant(f) && f.garbage == [] && c < |f.open|
    requires forall k :: k in order ==> k in Announce(f, c, desc).roster
    ensures var a := Announce(f, c, desc); var t := SendRosterFirst(a, c, order, |order|);
      SameTables(f, t) && Invariant(t) && t.roster == a.roster
  {
    var a := Announce(f, c, desc);
    AnnounceEffect(f, c, desc);
    hide Announce;
    if f.open[c] {
      hide Invariant;
      SendRosterLive(a, c, order, |order|);
      PostingKeeps(a, a.posted[c := a.posted[c] + Entries(a.roster, order[..|order|])]);
    } else {
      SendRosterDead(a, c, order, |order|);
    }
  }

  /**
   `OnMessage` keeps the invariant whoever sent the message, also a connection long dropped.
   Only the sender's own ID can enter the roster, and after a register message it is there
   exactly if the sender is alive.
   */
  lemma OnMessageKeeps(s: Server, c: nat, msg: ClientMsg, order: seq<Uint32>)
    requires Invariant(s) && c < |s.open|
    requires Enumerates(order, LoopRoster(s, c, msg).Keys)
    ensures var t := OnMessage(s, c, msg, order);
      && SameTables(s, t) && Invariant(t)
      && (forall k :: k in t.roster ==> k in s.roster || (msg.Register? && k == s.ids[c]))
      && (msg.Register? ==> (s.ids[c] in t.roster <==> s.open[c]))
  {
    FlushKeeps(s);
    match msg
    case Register(desc) =>
      AnnounceEffect(Flush(s), c, desc);
      RegisterKeeps(Flush(s), c, desc, order);
    case Unregister =>
    case Update(desc) =>
      MessageAllKeeps(Flush(s), UpdatePlayer(desc), Some(c));
      MessageAllContainer(Flush(s), UpdatePlayer(desc), Some(c));
  }

  lemma RegisterPosts(f: Server, c: nat, desc: Desc, order: seq<Uint32>, b: nat)
    requires Invariant(f) && f.garbage == [] && c < |f.open| && b < |f.open|
    requires forall k :: k in order ==> k in Announce(f, c, desc).roster
    ensures var a := Announce(f, c, desc); var t := SendRosterFirst(a, c, order, |order|);
      && |t.posted| == |f.posted|
      && t.posted[b] == f.posted[b] + (Greeting(f, c, desc, b) +
           if f.open[b] && b == c then Entries(a.roster, order) else [])
  {
    hide Announce;
    AnnounceEffect(f, c, desc);
    AnnouncePosts(f, c, desc, b);
    var a := Announce(f, c, desc);
    if f.open[c] {
      SendRosterLive(a, c, order, |order|);
      assert order[..|order|] == order;
    } else {
      SendRosterDead(a, c, order, |order|);
    }
  }

  lemma AnswerPosts(s: Server, c: nat, msg: ClientMsg, order: seq<Uint32>, b: nat)
    requires Invariant(s) && c < |s.open| && b < |s.open|
    requires Enumerates(order, LoopRoster(s, c, msg).Keys)
    ensures |OnMessage(s, c, msg, order).posted| == |Flush(s).posted| == |s.posted|
    ensures OnMessage(s, c, msg, order).posted[b] ==
      Flush(s).posted[b] + if s.open[b] then Reply(s, c, msg, order, b) else []
  {
    FlushKeeps(s);
    match msg
    case Register(desc) =>
      RegisterPosts(Flush(s), c, desc, order, b);
      assert Greeting(Flush(s), c, desc, b) == Greeting(s, c, desc, b);
    case Unregister =>
    case Update(desc) =>
      MessageAllPosts(Flush(s), UpdatePlayer(desc), Some(c), b);
  }

  /**
   `OnMessage` posts to each open connection the removals of all garbage IDs and then the reply,
   and nothing to a closed one.
   */
  lemma OnMessagePosts(s: Server, c: nat, msg: ClientMsg, order: seq<Uint32>, b: nat)
    requires Invariant(s) && c < |s.open| && b < |s.open|
    requires Enumerates(order, LoopRoster(s, c, msg).Keys)
    ensures |OnMessage(s, c, msg, order).posted| == |s.posted|
    ensures OnMessage(s, c, msg, order).posted[b] ==
      s.posted[b] + if s.open[b] then Removals(s.garbage) + Reply(s, c, msg, order, b) else []
  {
    AnswerPosts(s, c, msg, order, b);
    FlushPosts(s, b);
    if s.open[b] {
      ConcatAssociative(s.posted[b], Removals(s.garbage), Reply(s, c, msg, order, b));
    }
  }

  // ---- Registration, in full ----

  /** The roster is not modified while the loop over it runs. */
  lemma RosterLoopKeepsRoster(s: Server, c: nat, desc: Desc, order: seq<Uint32>, n: nat)
    requires Invariant(s) && c < |s.open| && n <= |order|
    requires Enumerates(order, LoopRoster(s, c, Register(desc)).Keys)
    ensures var a := Announce(Flush(s), c, desc);
      SendRosterFirst(a, c, order, n).roster == a.roster
  {
    FlushKeeps(s);
    AnnounceEffect(Flush(s), c, desc);
    var a := Announce(Flush(s), c, desc);
    hide Announce;
    if s.open[c] {
      SendRosterLive(a, c, order, n);
    } else {
      SendRosterDead(a, c, order, n);
    }
  }

  /**
   Handling a register message.  A live registrant is told of the removals, then its own ID, then
   its own entry, then each entry of the roster; every other live connection of the removals and
   of the new player once; a closed connection of nothing.  Afterwards the registrant is in the
   roster, under its own ID, exactly if it is alive.
   */
  lemma RegistrationAnnounced(s: Server, c: nat, desc: Desc, order: seq<Uint32>, b: nat)
    requires Invariant(s) && c < |s.open| && b < |s.open|
    requires Enumerates(order, LoopRoster(s, c, Register(desc)).Keys)
    ensures var t, d := OnMessage(s, c, Register(desc), order), desc.(uniqueId := s.ids[c]);
      && |t.posted| == |s.posted|
      && Enumerates(order, t.roster.Keys)
      && (s.ids[c] in t.roster <==> s.open[c])
      && (s.open[c] ==> t.roster[s.ids[c]] == d)
      && t.posted[b] == s.posted[b] + (
           if !s.open[b] then []
           else if b == c then
             Removals(s.garbage) + [AssignId(s.ids[c]), AddPlayer(d)] + Entries(t.roster, order)
           else Removals(s.garbage) + [AddPlayer(d)])
  {
    FlushKeeps(s);
    AnnounceEffect(Flush(s), c, desc);
    RosterLoopKeepsRoster(s, c, desc, order, |order|);
    OnMessagePosts(s, c, Register(desc), order, b);
    hide Announce, Flush, Invariant, SendRosterFirst;
    var d := desc.(uniqueId := s.ids[c]);
    if s.open[b] && b == c {
      ConcatAssociative(Removals(s.garbage), [AssignId(s.ids[c]), AddPlayer(d)],
                        Entries(LoopRoster(s, c, Register(desc)), order));
    }
  }
}
