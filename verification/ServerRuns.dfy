/** Safety of the server's bookkeeping over whole runs. */
module ServerRuns {
  import opened Basics
  import opened Protocol
  import opened Sequences
  import opened ServerSpec
  import opened ServerEffects
  import opened ServerSafety

  /**
   The steps of the server; the message handled may come from any connection ever accepted.

   A push to the garbage vector during the loop over it may have to move its elements, and then
   the loop goes on over memory that is no longer theirs.  Such a step may lead anywhere.
   */
  datatype Step =
    | AcceptOne
    | Validate(c: nat)
    | CloseSocket(c: nat)
    | Handle(c: nat, msg: ClientMsg, order: seq<Uint32>)
    | Reallocate

  ghost predicate Next(s: Server, step: Step, t: Server)
    requires s.WellFormed()
  {
    match step
    case AcceptOne => t == Accept(s)
    case Validate(c) => c < |s.open| && t == s.Post(c, Accepted)
    case CloseSocket(c) => c < |s.open| && t == Close(s, c)
    case Handle(c, msg, order) =>
      && c < |s.open|
      && Enumerates(order, LoopRoster(s, c, msg).Keys)
      && t == OnMessage(s, c, msg, order)
    case Reallocate => PushedWhileIterated(s)
  }

  ghost predicate IsRun(run: seq<Server>, steps: seq<Step>) {
    && |run| == |steps| + 1
    && run[0] == EMPTY
    && (forall i :: 0 <= i < |run| ==> run[i].WellFormed())
    && (forall i :: 0 <= i < |steps| ==> Next(run[i], steps[i], run[i + 1]))
  }

  /** Up to state `i` the garbage vector has not moved while it was iterated. */
  ghost predicate Defined(steps: seq<Step>, i: nat) {
    forall j :: 0 <= j < i && j < |steps| ==> !steps[j].Reallocate?
  }

  lemma NextKeeps(s: Server, step: Step, t: Server)
    requires Invariant(s) && Next(s, step, t) && !step.Reallocate?
    requires FIRST_ID + |t.open| <= TWO_32
    ensures Invariant(t)
  {
    match step
    case AcceptOne =>
      assert forall h :: h in s.container ==> h in t.container;
      assert t.container[|s.container|] == Some(|s.open|);
    case Validate(c) =>
    case CloseSocket(c) =>
    case Handle(c, msg, order) =>
      hide OnMessage;
      OnMessageKeeps(s, c, msg, order);
  }

  lemma NextGrows(s: Server, step: Step, t: Server)
    requires s.WellFormed() && Next(s, step, t) && !step.Reallocate?
    ensures |s.open| <= |t.open|
  {
  }

  /**
   In every state of every run with at most 2^32 - 10000 accepts the invariant holds, however
   accepts, closures and messages interleave and whatever the clients send, as long as the garbage
   vector has not moved while it was iterated.
   */
  lemma {:induction false} RunKeeps(run: seq<Server>, steps: seq<Step>, i: nat)
    requires IsRun(run, steps) && i < |run| && Defined(steps, i)
    requires FIRST_ID + |run[i].open| <= TWO_32
    ensures Invariant(run[i])
  {
    hide Invariant, Next;
    if i == 0 {
      EmptyOk();
    } else {
      assert Next(run[i - 1], steps[i - 1], run[i]);
      NextGrows(run[i - 1], steps[i - 1], run[i]);
      RunKeeps(run, steps, i - 1);
      NextKeeps(run[i - 1], steps[i - 1], run[i]);
    }
  }

  lemma EmptyOk()
    ensures Invariant(EMPTY)
  {
  }

  /** The invariant in the source's words. */
  lemma RunIsSafe(run: seq<Server>, steps: seq<Step>, i: nat)
    requires IsRun(run, steps) && i < |run| && Defined(steps, i)
    requires FIRST_ID + |run[i].open| < TWO_32
    ensures var s := run[i];
      && NoDuplicates(s.ids)
      && (forall c :: 0 <= c < |s.ids| ==> s.ids[c] < s.idCounter)
      && None !in s.container
      && NoDuplicates(s.container)
      && (forall k :: k in s.roster ==>
            s.roster[k].uniqueId == k && exists c: nat :: c < |s.ids| && Some(c) in s.container && s.ids[c] == k)
      && NoDuplicates(s.garbage)
      && (forall k :: k in s.garbage ==>
            k !in s.roster && forall c :: 0 <= c < |s.ids| && s.ids[c] == k ==> !s.open[c])
  {
    RunKeeps(run, steps, i);
    var s := run[i];
    forall k | k in s.roster
      ensures exists c: nat :: c < |s.ids| && Some(c) in s.container && s.ids[c] == k
    {
      assert s.ids[k - FIRST_ID] == k;
    }
  }

  // ---- The 32-bit counter wraps ----

  /** Connections get the counter's values in turn. */
  ghost predicate InTurn(s: Server)
    requires s.WellFormed()
  {
    && s.idCounter == (FIRST_ID + |s.ids|) % TWO_32
    && (forall c :: 0 <= c < |s.ids| ==> s.ids[c] == (FIRST_ID + c) % TWO_32)
  }

  lemma CounterWraps(x: nat)
    ensures (x % TWO_32 + 1) % TWO_32 == (x + 1) % TWO_32
  {
  }

  lemma {:induction false} IdsInTurn(run: seq<Server>, steps: seq<Step>, i: nat)
    requires IsRun(run, steps) && i < |run| && Defined(steps, i)
    ensures InTurn(run[i])
  {
    hide Next, InTurn;
    if i == 0 {
      EmptyInTurn();
    } else {
      IdsInTurn(run, steps, i - 1);
      assert Next(run[i - 1], steps[i - 1], run[i]);
      StaysInTurn(run[i - 1], steps[i - 1], run[i]);
    }
  }

  lemma EmptyInTurn()
    ensures InTurn(EMPTY)
  {
  }

  lemma StaysInTurn(s: Server, step: Step, t: Server)
    requires s.WellFormed() && t.WellFormed() && Next(s, step, t) && !step.Reallocate? && InTurn(s)
    ensures InTurn(t)
  {
    hide OnMessage, LoopRoster;
    CounterWraps(FIRST_ID + |s.ids|);
  }

  lemma WrapsApart(x: nat, y: nat)
    requires x < y < x + TWO_32
    ensures x % TWO_32 != y % TWO_32
  {
  }

  /** In every run IDs are distinct exactly as long as no more than 2^32 connections were accepted. */
  lemma IdsDistinctExactly(run: seq<Server>, steps: seq<Step>, i: nat)
    requires IsRun(run, steps) && i < |run| && Defined(steps, i)
    ensures NoDuplicates(run[i].ids) <==> |run[i].ids| <= TWO_32
  {
    IdsInTurn(run, steps, i);
    hide IsRun;
    var ids := run[i].ids;
    if |ids| > TWO_32 {
      assert (FIRST_ID + 0) % TWO_32 == (FIRST_ID + TWO_32) % TWO_32;
      assert ids[0] == ids[TWO_32];
    } else {
      forall i, j | 0 <= i < j < |ids| ensures ids[i] != ids[j] {
        WrapsApart(FIRST_ID + i, FIRST_ID + j);
      }
    }
  }

  // ---- The vector that may grow while it is iterated ----

  /** Whether the garbage vector is pushed to during the loop that iterates over it. */
  ghost predicate PushedWhileIterated(s: Server)
    requires s.WellFormed()
  {
    exists n: nat :: n <= |s.garbage| && FlushFirst(s, n).garbage != s.garbage
  }

  lemma DeadIsPushed(s: Server, k: Uint32)
    requires Invariant(s) && s.garbage != [] && k in s.roster && !s.open[k - FIRST_ID]
    ensures FlushFirst(s, 1).garbage != s.garbage
  {
    assert FlushFirst(s, 1) == MessageAll(FlushFirst(s, 0), RemovePlayer(s.garbage[0]), None);
    VisitFirstGarbage(s, |s.container|, RemovePlayer(s.garbage[0]), None);
    LeavesMeans(s, |s.container|, k);
    assert s.container[..|s.container|] == s.container;
    DroppedMembers(s, |s.container|, k);
  }

  /** It is, exactly when there is something to announce and a registered client is found dead. */
  lemma PushedExactly(s: Server)
    requires Invariant(s)
    ensures PushedWhileIterated(s) <==>
      s.garbage != [] && exists k :: k in s.roster && !s.open[k - FIRST_ID]
  {
    if s.garbage != [] && exists k :: k in s.roster && !s.open[k - FIRST_ID] {
      var k :| k in s.roster && !s.open[k - FIRST_ID];
      DeadIsPushed(s, k);
    } else if s.garbage != [] {
      forall n: nat | n <= |s.garbage| ensures FlushFirst(s, n).garbage == s.garbage {
        NothingDropped(s, n);
      }
    }
  }

  lemma HasMember(ids: seq<Uint32>)
    ensures ids == [] || exists k :: k in ids
  {
    if ids != [] {
      assert ids[0] in ids;
    }
  }

  lemma {:induction false} NothingDropped(s: Server, n: nat)
    requires Invariant(s) && n <= |s.garbage|
    requires forall k :: k in s.roster ==> s.open[k - FIRST_ID]
    ensures FlushFirst(s, n).garbage == s.garbage
  {
    hide MessageAll;
    if n > 0 {
      var u := FlushFirst(s, n - 1);
      NothingDropped(s, n - 1);
      FlushFirstKeeps(s, n - 1);
      assert u.open == s.open;
      hide Invariant;
      QuietBroadcast(u, RemovePlayer(s.garbage[n - 1]), None);
    }
  }

  /** A broadcast that finds no registered client dead drops nobody. */
  lemma QuietBroadcast(u: Server, msg: ServerMsg, ignore: Handle)
    requires Invariant(u) && forall k :: k in u.roster ==> u.open[k - FIRST_ID]
    ensures MessageAll(u, msg, ignore).garbage == u.garbage
  {
    VisitFirstGarbage(u, |u.container|, msg, ignore);
    DroppedOk(u);
    HasMember(Dropped(u, |u.container|));
    hide Invariant, VisitFirst, Dropped;
  }

  /** A run is defined as long as no message is handled in a state in which that happens. */
  lemma DefinedUnlessPushed(run: seq<Server>, steps: seq<Step>, i: nat)
    requires IsRun(run, steps) && i < |run|
    requires forall j :: 0 <= j < i && (steps[j].Handle? || steps[j].Reallocate?) ==> !PushedWhileIterated(run[j])
    ensures Defined(steps, i)
  {
    forall j | 0 <= j < i ensures !steps[j].Reallocate? {
      assert Next(run[j], steps[j], run[j + 1]);
      hide PushedWhileIterated;
    }
  }
}
