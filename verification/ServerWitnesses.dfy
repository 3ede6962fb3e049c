/** States the server can reach in which the program does what its documentation does not expect. */
module ServerWitnesses {
  import opened Basics
  import opened Protocol
  import opened Sequences
  import opened ServerSpec
  import opened ServerEffects
  import opened ServerSafety
  import opened ServerRuns
  import opened Framing
  import opened Wire

  /** Some run leads to `s`, and so far the garbage vector has not moved while it was iterated. */
  ghost predicate Reachable(s: Server) {
    exists run, steps :: IsRun(run, steps) && Defined(steps, |steps|) && run[|steps|] == s
  }

  lemma StartReachable()
    ensures Reachable(EMPTY)
  {
    assert IsRun([EMPTY], []) && Defined([], 0) && [EMPTY][0] == EMPTY;
  }

  lemma NextReachable(s: Server, step: Step, t: Server)
    requires Reachable(s) && s.WellFormed() && t.WellFormed() && Next(s, step, t) && !step.Reallocate?
    ensures Reachable(t)
  {
    hide Next, Server.WellFormed;
    var run, steps :| IsRun(run, steps) && Defined(steps, |steps|) && run[|steps|] == s;
    var run', steps' := run + [t], steps + [step];
    forall i | 0 <= i < |steps'| ensures Next(run'[i], steps'[i], run'[i + 1]) {
      assert i < |steps| ==> Next(run[i], steps[i], run[i + 1]);
    }
    assert IsRun(run', steps') && Defined(steps', |steps'|) && run'[|steps'|] == t;
  }

  lemma SomeOrder(keys: set<Uint32>) returns (order: seq<Uint32>)
    ensures Enumerates(order, keys)
    decreases |keys|
  {
    if keys == {} {
      order := [];
    } else {
      var k :| k in keys;
      var rest := SomeOrder(keys - {k});
      order := rest + [k];
    }
  }

  /** Everybody registered is alive and there is nothing to announce. */
  ghost predicate Calm(s: Server) {
    Invariant(s) && s.garbage == [] && forall k :: k in s.roster ==> s.open[k - FIRST_ID]
  }

  lemma NothingToFlush(s: Server)
    requires s.WellFormed() && s.garbage == []
    ensures Flush(s) == s
  {
  }

  /** A live connection registers. */
  lemma Registers(s: Server, c: nat, desc: Desc) returns (t: Server)
    requires Reachable(s) && Calm(s) && c < |s.open| && s.open[c]
    ensures Reachable(t) && Calm(t) && SameConnections(s, t)
    ensures forall k :: k in t.roster <==> k in s.roster || k == s.ids[c]
    ensures |t.posted| == |s.posted|
    ensures forall b: nat :: b < |s.open| && b != c && s.open[b] ==>
      t.posted[b] == s.posted[b] + [AddPlayer(desc.(uniqueId := s.ids[c]))]
  {
    hide Reachable, MessageAll, Flush, Announce, SendRosterFirst, Calm;
    CalmFacts(s);
    var msg := Register(desc);
    var order := SomeOrder(LoopRoster(s, c, msg).Keys);
    t := OnMessage(s, c, msg, order);
    NextReachable(s, Step.Handle(c, msg, order), t);
    RegistersCalmly(s, c, desc, order);
    forall b: nat | b < |s.open| && b != c && s.open[b]
      ensures t.posted[b] == s.posted[b] + [AddPlayer(desc.(uniqueId := s.ids[c]))]
    {
      RegistrationAnnounced(s, c, desc, order, b);
      assert Removals([]) == [];
    }
  }

  lemma CalmFacts(s: Server)
    requires Calm(s)
    ensures Invariant(s) && s.garbage == []
  {
  }

  lemma RegistersCalmly(s: Server, c: nat, desc: Desc, order: seq<Uint32>)
    requires Calm(s) && c < |s.open| && s.open[c]
    requires Enumerates(order, LoopRoster(s, c, Register(desc)).Keys)
    ensures var t := OnMessage(s, c, Register(desc), order);
      && Calm(t) && |t.posted| == |s.posted| && forall k :: k in t.roster <==> k in s.roster || k == s.ids[c]
  {
    NothingToFlush(s);
    EnterLive(s, c, desc);
    AnnounceEffect(s, c, desc);
    RegisterKeeps(s, c, desc, order);
    var a, m := Announce(s, c, desc), Enter(s, c, desc);
    QuietBroadcast(m, AddPlayer(desc.(uniqueId := s.ids[c])), None);
    SendRosterLive(a, c, order, |order|);
  }

  lemma Accepts(s: Server) returns (t: Server)
    requires Reachable(s) && Calm(s) && FIRST_ID + |s.open| < TWO_32
    ensures t == Accept(s) && Reachable(t) && Calm(t)
  {
    hide Reachable;
    t := Accept(s);
    NextReachable(s, AcceptOne, t);
    ServerRuns.NextKeeps(s, AcceptOne, t);
  }

  /** Two live connections, not yet registered. */
  lemma TwoConnections() returns (s: Server)
    ensures Reachable(s) && Calm(s) && s.open == [true, true] && s.ids == [FIRST_ID, FIRST_ID + 1]
    ensures s.posted == [[], []] && s.roster == map[]
  {
    hide Reachable;
    StartReachable();
    assert Calm(EMPTY);
    hide Calm;
    s := Accepts(EMPTY);
    s := Accepts(s);
  }

  /** A registered connection closes and is found dead by a relayed update of another one. */
  lemma Drops(s: Server, dead: nat, c: nat, desc: Desc) returns (t: Server)
    requires Reachable(s) && Calm(s) && dead < |s.open| && c < |s.open| && dead != c && s.open[c]
    requires s.ids[dead] in s.roster && s.ids[c] in s.roster
    ensures Reachable(t) && Invariant(t) && t.garbage != []
    ensures |t.open| == |s.open| && t.ids == s.ids && s.ids[c] in t.roster
  {
    hide Reachable, MessageAll, Flush, Announce, SendRosterFirst;
    var u := Close(s, dead);
    NextReachable(s, CloseSocket(dead), u);
    ServerRuns.NextKeeps(s, CloseSocket(dead), u);
    NothingToFlush(u);
    var msg := Update(desc);
    var order := SomeOrder(LoopRoster(u, c, msg).Keys);
    t := OnMessage(u, c, msg, order);
    NextReachable(u, Step.Handle(c, msg, order), t);
    ServerRuns.NextKeeps(u, Step.Handle(c, msg, order), t);
    FoundDead(u, UpdatePlayer(desc), Some(c), dead);
    BroadcastEntry(u, UpdatePlayer(desc), Some(c), u.ids[c]);
  }

  lemma FoundDead(u: Server, msg: ServerMsg, ignore: Handle, dead: nat)
    requires Invariant(u) && dead < |u.open| && !u.open[dead] && u.ids[dead] in u.roster
    ensures MessageAll(u, msg, ignore).garbage != []
  {
    var k, n := u.ids[dead], |u.container|;
    MessageAllLists(u, msg, ignore);
    DroppedMembers(u, n, k);
    LeavesMeans(u, n, k);
    assert u.container[..n] == u.container;
    hide MessageAll, Leaves;
  }

  /**
   A run leads to a state from which handling any message pushes to the garbage vector while it is
   iterated: two players close, the second one after the first has been found dead.
   */
  lemma PushIsReachable() returns (s: Server)
    ensures Reachable(s) && PushedWhileIterated(s)
  {
    hide Reachable, Calm, Invariant;
    s := TwoConnections();
    s := Registers(s, 0, DEFAULT_DESC);
    s := Registers(s, 1, DEFAULT_DESC);
    s := Drops(s, 0, 1, DEFAULT_DESC);
    var t := ClosesToo(s, 1);
    s := t;
  }

  lemma ClosesToo(s: Server, c: nat) returns (t: Server)
    requires Reachable(s) && Invariant(s) && s.garbage != [] && c < |s.open| && s.ids[c] in s.roster
    ensures Reachable(t) && PushedWhileIterated(t)
  {
    hide Reachable;
    t := Close(s, c);
    NextReachable(s, CloseSocket(c), t);
    ServerRuns.NextKeeps(s, CloseSocket(c), t);
    assert t.ids[c] in t.roster && !t.open[t.ids[c] - FIRST_ID];
    PushedExactly(t);
    hide PushedWhileIterated;
  }

  lemma Validates(s: Server, c: nat) returns (t: Server)
    requires Reachable(s) && Calm(s) && c < |s.open|
    ensures t == s.Post(c, Accepted) && Reachable(t) && Calm(t)
  {
    hide Reachable;
    t := s.Post(c, Accepted);
    NextReachable(s, Validate(c), t);
    ServerRuns.NextKeeps(s, Validate(c), t);
  }

  /**
   A run leads to a state in which a client is sent a message with a body before its bodyless
   acceptance: another one registers while its handshake is still going on.  The acceptance is
   then delivered with that body attached.
   */
  lemma StaleBodyIsReachable(desc: Desc) returns (s: Server, c: nat)
    ensures Reachable(s) && c < |s.open| && s.open[c]
    ensures exists d :: s.posted[c] == [AddPlayer(d), Accepted]
    ensures Sticky(EncodeServerAll(s.posted[c])) != EncodeServerAll(s.posted[c])
  {
    hide Reachable, Calm, Sticky;
    s := TwoConnections();
    s := Validates(s, 0);
    var d := desc.(uniqueId := s.ids[0]);
    s := Registers(s, 0, desc);
    s := Validates(s, 1);
    c := 1;
    assert s.posted[1] == [AddPlayer(d), Accepted];
    StaleAcceptance(d);
  }

  lemma StaleAcceptance(d: Desc)
    ensures var log := EncodeServerAll([AddPlayer(d), Accepted]); Sticky(log) != log
  {
    var log := EncodeServerAll([AddPlayer(d), Accepted]);
    HoldsDesc(ADD_PLAYER, d);
    ServerLogWellFormed([AddPlayer(d), Accepted]);
    hide DescBytes, PullDesc;
    assert log[0].size > 0 && log[1].size == 0;
    DeliveredUnchangedExactly(log);
    hide Sticky;
  }
}
