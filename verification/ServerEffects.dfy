/** What the server's loops do to its state, in closed form. */
module ServerEffects {
  import opened Basics
  import opened Protocol
  import opened Sequences
  import opened ServerSpec

  /** The connection table agrees with itself and no ID has been handed out twice. */
  ghost predicate Tables(s: Server) {
    && s.WellFormed()
    && FIRST_ID + |s.open| <= TWO_32
    && (forall c :: 0 <= c < |s.ids| ==> s.ids[c] == FIRST_ID + c)
    && s.idCounter == (FIRST_ID + |s.open|) % TWO_32
  }

  ghost predicate NoNulls(container: seq<Handle>) {
    forall i :: 0 <= i < |container| ==> container[i].Some?
  }

  /** Handles other than null appear in the order the connections were accepted. */
  ghost predicate Increasing(container: seq<Handle>) {
    forall i, j :: 0 <= i < j < |container| && container[i].Some? && container[j].Some? ==>
      container[i].value < container[j].value
  }

  /** The container holds no null entry, no connection twice, and every connection still open. */
  ghost predicate ContainerOk(s: Server) {
    && NoNulls(s.container)
    && Increasing(s.container)
    && (forall c: nat :: c < |s.open| && s.open[c] ==> Some(c) in s.container)
  }

  /** The part of the table that no message handler changes. */
  ghost predicate SameTables(s: Server, t: Server) {
    t.open == s.open && t.ids == s.ids && t.idCounter == s.idCounter && |t.posted| == |s.posted|
  }

  /** One of the first `n` entries of the container is a closed connection with ID `k`. */
  ghost predicate Leaves(s: Server, n: nat, k: Uint32)
    requires s.WellFormed() && NoNulls(s.container) && n <= |s.container|
  {
    n > 0 && (
      || Leaves(s, n - 1, k)
      || (var c := s.container[n - 1].value; s.ids[c] == k && !s.open[c]))
  }

  lemma {:induction false} LeavesMeans(s: Server, n: nat, k: Uint32)
    requires Tables(s) && NoNulls(s.container) && n <= |s.container|
    ensures Leaves(s, n, k) <==>
      FIRST_ID <= k < FIRST_ID + |s.open| && Some(k - FIRST_ID) in s.container[..n] && !s.open[k - FIRST_ID]
  {
    if n > 0 {
      LeavesMeans(s, n - 1, k);
      assert s.container[..n] == s.container[..n - 1] + [s.container[n - 1]];
    }
  }

  /** The IDs of the registered connections found closed among the first `n` entries, in order. */
  ghost function Dropped(s: Server, n: nat): (r: seq<Uint32>)
    requires s.WellFormed() && NoNulls(s.container) && n <= |s.container|
  {
    if n == 0 then []
    else
      var c := s.container[n - 1].value;
      Dropped(s, n - 1) + if !s.open[c] && s.ids[c] in s.roster then [s.ids[c]] else []
  }

  lemma {:induction false} DroppedMembers(s: Server, n: nat, k: Uint32)
    requires Tables(s) && NoNulls(s.container) && n <= |s.container|
    ensures k in Dropped(s, n) <==>
      k in s.roster && Leaves(s, n, k)
  {
    if n > 0 {
      DroppedMembers(s, n - 1, k);
    }
  }

  lemma {:induction false} DroppedDistinct(s: Server, n: nat)
    requires Tables(s) && NoNulls(s.container) && Increasing(s.container) && n <= |s.container|
    ensures NoDuplicates(Dropped(s, n))
  {
    if n > 0 {
      DroppedDistinct(s, n - 1);
      DroppedMembers(s, n - 1, s.ids[s.container[n - 1].value]);
      LeavesMeans(s, n - 1, s.ids[s.container[n - 1].value]);
    }
  }

  lemma {:induction false} VisitFirstContainer(s: Server, n: nat, msg: ServerMsg, ignore: Handle)
    requires s.WellFormed() && NoNulls(s.container) && n <= |s.container|
    ensures var t := VisitFirst(s, n, msg, ignore); SameTables(s, t) && Visited(s, n, t.container)
  {
    hide Visited, SameTables, Visit;
    if n > 0 {
      VisitFirstContainer(s, n - 1, msg, ignore);
      VisitNext(s, VisitFirst(s, n - 1, msg, ignore), n, msg, ignore);
    } else {
      VisitedNone(s);
    }
  }

  /** The first `n` entries have been visited: those of closed connections are null now. */
  ghost predicate Visited(s: Server, n: nat, container: seq<Handle>)
    requires s.WellFormed() && NoNulls(s.container) && n <= |s.container|
  {
    && |container| == |s.container|
    && (forall i :: 0 <= i < n ==> container[i] == if !s.open[s.container[i].value] then None else s.container[i])
    && (forall i :: n <= i < |s.container| ==> container[i] == s.container[i])
  }

  lemma VisitedNone(s: Server)
    requires s.WellFormed() && NoNulls(s.container)
    ensures Visited(s, 0, s.container) && SameTables(s, s)
  {
  }

  lemma VisitNext(s: Server, u: Server, n: nat, msg: ServerMsg, ignore: Handle)
    requires s.WellFormed() && NoNulls(s.container) && 0 < n <= |s.container|
    requires u.WellFormed() && SameTables(s, u) && Visited(s, n - 1, u.container)
    ensures SameTables(s, Visit(u, n - 1, msg, ignore)) && Visited(s, n, Visit(u, n - 1, msg, ignore).container)
  {
    assert u.container[n - 1] == s.container[n - 1];
    VisitContainer(u, n - 1, msg, ignore);
    hide Visit;
  }

  lemma VisitUnfolds(s: Server, n: nat, msg: ServerMsg, ignore: Handle)
    requires s.WellFormed() && 0 < n <= |s.container|
    ensures VisitFirst(s, n, msg, ignore) == Visit(VisitFirst(s, n - 1, msg, ignore), n - 1, msg, ignore)
  {
  }

  lemma VisitContainer(s: Server, i: nat, msg: ServerMsg, ignore: Handle)
    requires s.WellFormed() && i < |s.container| && s.container[i].Some?
    ensures SameTables(s, Visit(s, i, msg, ignore))
    ensures Visit(s, i, msg, ignore).container ==
      if s.open[s.container[i].value] then s.container else s.container[i := None]
  {
  }

  lemma VisitPosts(s: Server, i: nat, msg: ServerMsg, ignore: Handle, c: nat)
    requires s.WellFormed() && i < |s.container| && s.container[i].Some? && c < |s.open|
    ensures |Visit(s, i, msg, ignore).posted| == |s.posted|
    ensures Visit(s, i, msg, ignore).posted[c] ==
      s.posted[c] + if s.container[i] == Some(c) && s.open[c] && Some(c) != ignore then [msg] else []
  {
  }

  lemma {:induction false} VisitFirstPosts(s: Server, n: nat, msg: ServerMsg, ignore: Handle, c: nat)
    requires s.WellFormed() && NoNulls(s.container) && NoDuplicates(s.container)
    requires n <= |s.container| && c < |s.open|
    ensures |VisitFirst(s, n, msg, ignore).posted| == |s.posted|
    ensures VisitFirst(s, n, msg, ignore).posted[c] == s.posted[c] +
      if Some(c) in s.container[..n] && s.open[c] && Some(c) != ignore then [msg] else []
  {
    hide Visit, Visited;
    if n > 0 {
      var u := VisitFirst(s, n - 1, msg, ignore);
      VisitFirstPosts(s, n - 1, msg, ignore, c);
      VisitedSoFar(s, n, msg, ignore);
      VisitPosts(u, n - 1, msg, ignore, c);
      VisitUnfolds(s, n, msg, ignore);
      hide VisitFirst;
      NextInPrefix(s.container, n, Some(c));
    }
  }

  lemma VisitedSoFar(s: Server, n: nat, msg: ServerMsg, ignore: Handle)
    requires s.WellFormed() && NoNulls(s.container) && 0 < n <= |s.container|
    ensures var u := VisitFirst(s, n - 1, msg, ignore);
      u.open == s.open && u.ids == s.ids && u.container[n - 1] == s.container[n - 1]
  {
    VisitFirstContainer(s, n - 1, msg, ignore);
  }

  lemma NextInPrefix(container: seq<Handle>, n: nat, h: Handle)
    requires NoDuplicates(container) && 0 < n <= |container|
    ensures h in container[..n] <==> h in container[..n - 1] || h == container[n - 1]
    ensures h in container[..n - 1] ==> h != container[n - 1]
  {
    assert container[..n] == container[..n - 1] + [container[n - 1]];
  }

  lemma VisitDrops(s: Server, i: nat, msg: ServerMsg, ignore: Handle)
    requires s.WellFormed() && i < |s.container| && s.container[i].Some?
    ensures var t := Visit(s, i, msg, ignore); var c := s.container[i].value;
      && t.garbage == s.garbage + (if !s.open[c] && s.ids[c] in s.roster then [s.ids[c]] else [])
      && t.roster == if s.open[c] then s.roster else s.roster - {s.ids[c]}
  {
    assert s.ids[s.container[i].value] !in s.roster ==>
      s.roster == s.roster - {s.ids[s.container[i].value]};
  }

  lemma {:induction false} VisitFirstRoster(s: Server, n: nat, msg: ServerMsg, ignore: Handle)
    requires s.WellFormed() && NoNulls(s.container) && n <= |s.container|
    ensures var t := VisitFirst(s, n, msg, ignore);
      && (forall k :: k in t.roster <==>
            k in s.roster && !Leaves(s, n, k))
      && (forall k :: k in t.roster ==> t.roster[k] == s.roster[k])
  {
    if n > 0 {
      var u := VisitFirst(s, n - 1, msg, ignore);
      VisitFirstRoster(s, n - 1, msg, ignore);
      VisitedSoFar(s, n, msg, ignore);
      VisitDrops(u, n - 1, msg, ignore);
      VisitUnfolds(s, n, msg, ignore);
      hide VisitFirst, Visit;
    }
  }

  /** Each connection is in the container once, so its ID has not left before it is visited. */
  lemma NotYetLeft(s: Server, n: nat)
    requires Tables(s) && NoNulls(s.container) && Increasing(s.container) && 0 < n <= |s.container|
    ensures !Leaves(s, n - 1, s.ids[s.container[n - 1].value])
  {
    LeavesMeans(s, n - 1, s.ids[s.container[n - 1].value]);
    hide Leaves;
  }

  /** So before the n-th iteration its connection is still registered if it was at first. */
  lemma StillRegistered(s: Server, n: nat, msg: ServerMsg, ignore: Handle)
    requires Tables(s) && NoNulls(s.container) && Increasing(s.container) && 0 < n <= |s.container|
    ensures var u, h := VisitFirst(s, n - 1, msg, ignore), s.container[n - 1];
      && u.container[n - 1] == h && u.open == s.open && u.ids == s.ids
      && (s.ids[h.value] in u.roster <==> s.ids[h.value] in s.roster)
  {
    hide VisitFirst, Leaves;
    VisitedSoFar(s, n, msg, ignore);
    VisitFirstRoster(s, n - 1, msg, ignore);
    NotYetLeft(s, n);
  }

  /** What the n-th iteration appends to the garbage is what `Dropped` lists for it. */
  lemma VisitGarbage(s: Server, n: nat, msg: ServerMsg, ignore: Handle) returns (e: seq<Uint32>)
    requires Tables(s) && NoNulls(s.container) && Increasing(s.container) && 0 < n <= |s.container|
    ensures Dropped(s, n) == Dropped(s, n - 1) + e
    ensures VisitFirst(s, n, msg, ignore).garbage == VisitFirst(s, n - 1, msg, ignore).garbage + e
  {
    hide VisitFirst, Visit, Leaves, Increasing;
    var u, c := VisitFirst(s, n - 1, msg, ignore), s.container[n - 1].value;
    StillRegistered(s, n, msg, ignore);
    VisitDrops(u, n - 1, msg, ignore);
    VisitUnfolds(s, n, msg, ignore);
    e := if !s.open[c] && s.ids[c] in s.roster then [s.ids[c]] else [];
    assert Dropped(s, n) == Dropped(s, n - 1) + e;
  }

  lemma {:induction false} VisitFirstGarbage(s: Server, n: nat, msg: ServerMsg, ignore: Handle)
    requires Tables(s) && NoNulls(s.container) && Increasing(s.container) && n <= |s.container|
    ensures VisitFirst(s, n, msg, ignore).garbage == s.garbage + Dropped(s, n)
  {
    if n > 0 {
      hide VisitFirst, Dropped;
      VisitFirstGarbage(s, n - 1, msg, ignore);
      var e := VisitGarbage(s, n, msg, ignore);
      ConcatAssociative(s.garbage, Dropped(s, n - 1), e);
    }
  }

  lemma {:induction false} WithoutNullsConcat(a: seq<Handle>, b: seq<Handle>)
    ensures WithoutNulls(a + b) == WithoutNulls(a) + WithoutNulls(b)
  {
    if b == [] {
      assert a + b == a;
    } else {
      var front, last := b[..|b| - 1], b[|b| - 1];
      WithoutNullsConcat(a, front);
      assert (a + b)[..|a + b| - 1] == a + front;
      ConcatAssociative(WithoutNulls(a), WithoutNulls(front), if last.Some? then [last] else []);
    }
  }

  lemma WithoutNullsOne(h: Handle)
    ensures WithoutNulls([h]) == if h.Some? then [h] else []
  {
    assert WithoutNulls([h][..0]) == [];
  }

  /** What is kept of an entry stands between what is kept of those before and after it. */
  lemma WithoutNullsInOrder(container: seq<Handle>, i: nat)
    requires i < |container|
    ensures WithoutNulls(container) ==
      WithoutNulls(container[..i]) + (if container[i].Some? then [container[i]] else [])
      + WithoutNulls(container[i + 1..])
  {
    hide WithoutNulls;
    var before, h, after := container[..i], container[i], container[i + 1..];
    SplitAt(container, i);
    WithoutNullsConcat(before + [h], after);
    WithoutNullsConcat(before, [h]);
    WithoutNullsOne(h);
  }

  lemma {:induction false} WithoutNullsIncreasing(container: seq<Handle>)
    requires Increasing(container)
    ensures Increasing(WithoutNulls(container))
  {
    if container != [] {
      var rest, last := container[..|container| - 1], container[|container| - 1];
      WithoutNullsIncreasing(rest);
      forall h | h in WithoutNulls(rest) && last.Some? ensures h.value < last.value {
        assert h in rest;
      }
    }
  }

  lemma {:induction false} WithoutNullsIdentity(container: seq<Handle>)
    requires NoNulls(container)
    ensures WithoutNulls(container) == container
  {
    if container != [] {
      WithoutNullsIdentity(container[..|container| - 1]);
    }
  }

  lemma MessageAllContainer(s: Server, msg: ServerMsg, ignore: Handle)
    requires Tables(s) && ContainerOk(s)
    ensures var t := MessageAll(s, msg, ignore);
      && SameTables(s, t) && Increasing(t.container) && NoNulls(t.container)
      && (forall c: nat :: Some(c) in t.container <==> c < |s.open| && s.open[c])
  {
    hide VisitFirst;
    var u := VisitFirst(s, |s.container|, msg, ignore);
    VisitFirstContainer(s, |s.container|, msg, ignore);
    VisitedIncreasing(s, u.container);
    WithoutNullsIncreasing(u.container);
    forall c: nat ensures Some(c) in WithoutNulls(u.container) <==> c < |s.open| && s.open[c] {
      VisitedOpen(s, u.container, c);
    }
    hide Visited, Tables;
  }

  lemma VisitedIncreasing(s: Server, container: seq<Handle>)
    requires s.WellFormed() && NoNulls(s.container) && Increasing(s.container) && Visited(s, |s.container|, container)
    ensures Increasing(container)
  {
  }

  /** After the loop exactly the open connections are left. */
  lemma VisitedOpen(s: Server, container: seq<Handle>, c: nat)
    requires s.WellFormed() && ContainerOk(s) && Visited(s, |s.container|, container)
    ensures Some(c) in WithoutNulls(container) <==> c < |s.open| && s.open[c]
  {
    hide WithoutNulls;
    if c < |s.open| && s.open[c] {
      var i :| 0 <= i < |s.container| && s.container[i] == Some(c);
      assert container[i] == Some(c);
    }
  }

  lemma MessageAllPosts(s: Server, msg: ServerMsg, ignore: Handle, c: nat)
    requires Tables(s) && ContainerOk(s) && c < |s.open|
    ensures |MessageAll(s, msg, ignore).posted| == |s.posted|
    ensures MessageAll(s, msg, ignore).posted[c] ==
      s.posted[c] + if s.open[c] && Some(c) != ignore then [msg] else []
  {
    VisitFirstPosts(s, |s.container|, msg, ignore, c);
    assert s.container[..|s.container|] == s.container;
  }

  lemma MessageAllLists(s: Server, msg: ServerMsg, ignore: Handle)
    requires Tables(s) && ContainerOk(s)
    ensures var t := MessageAll(s, msg, ignore);
      && t.garbage == s.garbage + Dropped(s, |s.container|)
      && (forall k :: k in t.roster <==> k in s.roster && !Leaves(s, |s.container|, k))
      && (forall k :: k in t.roster ==> t.roster[k] == s.roster[k])
  {
    VisitFirstRoster(s, |s.container|, msg, ignore);
    VisitFirstGarbage(s, |s.container|, msg, ignore);
    hide VisitFirst, Leaves, Dropped, Increasing;
  }

  /**
   A broadcast: every open connection but the ignored one gets the message once; exactly the
   closed connections leave the container; those of them that were registered leave the roster
   and their IDs are queued for removal, each once.
   */
  lemma MessageAllEffect(s: Server, msg: ServerMsg, ignore: Handle)
    requires Tables(s) && ContainerOk(s)
    ensures var t := MessageAll(s, msg, ignore);
      && SameTables(s, t) && Tables(t) && ContainerOk(t)
      && (forall c: nat :: Some(c) in t.container <==> c < |s.open| && s.open[c])
      && (forall c: nat :: c < |s.open| ==>
            t.posted[c] == s.posted[c] + if s.open[c] && Some(c) != ignore then [msg] else [])
      && t.garbage == s.garbage + Dropped(s, |s.container|)
      && (forall k :: k in t.roster <==> k in s.roster && !Leaves(s, |s.container|, k))
      && (forall k :: k in t.roster ==> t.roster[k] == s.roster[k])
  {
    hide MessageAll, Leaves, Dropped, Increasing, VisitFirst, WithoutNulls;
    MessageAllContainer(s, msg, ignore);
    MessageAllLists(s, msg, ignore);
    forall c: nat | c < |s.open|
      ensures MessageAll(s, msg, ignore).posted[c] ==
        s.posted[c] + if s.open[c] && Some(c) != ignore then [msg] else []
    {
      MessageAllPosts(s, msg, ignore, c);
    }
  }
}
