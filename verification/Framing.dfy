/** Messages as byte frames: a header of identifier and size, then the body. */
module Framing {
  import opened Basics
  import opened Bytes
  import opened Sequences

  datatype Msg = Msg(id: Uint32, size: Uint32, body: seq<Byte>)

  /** `sizeof(MessageHeader<T>)`. */
  const HEADER_SIZE := 8

  /** The header's size field tells the length of the body. */
  predicate WellFormed(m: Msg) {
    m.size == |m.body|
  }

  predicate AllWellFormed(ms: seq<Msg>) {
    forall i :: 0 <= i < |ms| ==> WellFormed(ms[i])
  }

  function Header(m: Msg): (s: seq<Byte>)
    ensures |s| == HEADER_SIZE
  {
    ToBytes(m.id, 4) + ToBytes(m.size, 4)
  }

  function Frame(m: Msg): seq<Byte> {
    Header(m) + m.body
  }

  function Frames(ms: seq<Msg>): seq<Byte> {
    if ms == [] then [] else Frames(ms[..|ms| - 1]) + Frame(ms[|ms| - 1])
  }

  /** The header that eight bytes received spell. */
  function Parse(s: seq<Byte>): (m: Msg)
    requires |s| == HEADER_SIZE
  {
    RoundTripBack(s[..4]);
    RoundTripBack(s[4..]);
    Fits32(FromBytes(s[..4]));
    Fits32(FromBytes(s[4..]));
    Msg(FromBytes(s[..4]), FromBytes(s[4..]), [])
  }

  lemma ParseHeader(m: Msg)
    ensures Parse(Header(m)) == m.(body := [])
  {
    assert Header(m)[..4] == ToBytes(m.id, 4) && Header(m)[4..] == ToBytes(m.size, 4);
    Fits32(m.id);
    Fits32(m.size);
    RoundTrip(m.id, 4);
    RoundTrip(m.size, 4);
  }

  lemma HeaderParse(s: seq<Byte>)
    requires |s| == HEADER_SIZE
    ensures Header(Parse(s)) == s
  {
    RoundTripBack(s[..4]);
    RoundTripBack(s[4..]);
    assert s == s[..4] + s[4..];
  }

  lemma FramesLast(ms: seq<Msg>, m: Msg)
    ensures Frames(ms + [m]) == Frames(ms) + Frame(m)
  {
    assert (ms + [m])[..|ms|] == ms;
  }

  lemma {:induction false} FramesHead(m: Msg, ms: seq<Msg>)
    ensures Frames([m] + ms) == Frame(m) + Frames(ms)
  {
    var all := [m] + ms;
    if ms == [] {
      assert all[..0] == [];
      assert Frames(all) == Frame(m);
    } else {
      var rest, last := ms[..|ms| - 1], ms[|ms| - 1];
      FramesHead(m, rest);
      assert ms == rest + [last] && all == ([m] + rest) + [last];
      FramesLast(rest, last);
      FramesLast([m] + rest, last);
      hide Frame, Frames;
      ConcatAssociative(Frame(m), Frames(rest), Frame(last));
    }
  }

  lemma {:induction false} FramesConcat(a: seq<Msg>, b: seq<Msg>)
    ensures Frames(a + b) == Frames(a) + Frames(b)
  {
    if b == [] {
      assert a + b == a;
    } else {
      var rest, last := b[..|b| - 1], b[|b| - 1];
      FramesConcat(a, rest);
      assert b == rest + [last] && a + b == (a + rest) + [last];
      FramesLast(rest, last);
      FramesLast(a + rest, last);
      hide Frame, Frames;
      ConcatAssociative(Frames(a), Frames(rest), Frame(last));
    }
  }

  /** A well-formed frame at the head of two byte strings is the same frame. */
  lemma SameFirstFrame(a: Msg, b: Msg, x: seq<Byte>, y: seq<Byte>)
    requires WellFormed(a) && WellFormed(b)
    requires Frame(a) + x <= Frame(b) + y
    ensures a == b && x <= y
  {
    var s, t := Frame(a) + x, Frame(b) + y;
    assert Header(a) == s[..HEADER_SIZE] == t[..HEADER_SIZE] == Header(b);
    ParseHeader(a);
    ParseHeader(b);
    assert a.size == b.size;
    assert a.body == s[HEADER_SIZE..|Frame(a)|] && b.body == t[HEADER_SIZE..|Frame(a)|];
    assert x == s[|Frame(a)|..] && y == t[|Frame(a)|..];
  }

  lemma {:induction false} FramesLength(ms: seq<Msg>)
    ensures |Frames(ms)| >= HEADER_SIZE * |ms|
  {
    if ms != [] {
      FramesLength(ms[..|ms| - 1]);
    }
  }

  lemma FirstFrameOff(ds: seq<Msg>, ps: seq<Msg>, rest: seq<Byte>)
    requires ds != [] && ps != [] && WellFormed(ds[0]) && WellFormed(ps[0])
    requires Frames(ds) + rest <= Frames(ps)
    ensures ds[0] == ps[0] && Frames(ds[1..]) + rest <= Frames(ps[1..])
  {
    var d, p, ds', ps' := ds[0], ps[0], ds[1..], ps[1..];
    assert ds == [d] + ds' && ps == [p] + ps';
    FramesHead(d, ds');
    FramesHead(p, ps');
    hide Frames, Frame;
    ConcatAssociative(Frame(d), Frames(ds'), rest);
    SameFirstFrame(d, p, Frames(ds') + rest, Frames(ps'));
  }

  /**
   Framing is unambiguous: frames at the head of a stream of frames are the first messages, as far
   as these are well-formed.
   */
  lemma {:induction false} PrefixUnique(ds: seq<Msg>, ps: seq<Msg>, rest: seq<Byte>, n: nat)
    requires n <= |ps| && AllWellFormed(ds) && AllWellFormed(ps[..n])
    requires Frames(ds) + rest <= Frames(ps)
    ensures forall k :: 0 <= k < |ds| && k < n ==> ds[k] == ps[k]
    ensures |ds| <= n ==> rest <= Frames(ps[|ds|..])
    ensures n == |ps| ==> |ds| <= n
    decreases |ds|
  {
    if ds == [] {
      assert ps[0..] == ps;
      assert Frames(ds) + rest == rest;
    } else {
      FramesLength(ds);
      assert ps != [];
      if n > 0 {
        assert ps[..n][0] == ps[0] && ps[1..][..n - 1] == ps[..n][1..];
        FirstFrameOff(ds, ps, rest);
        hide Frames;
        PrefixUnique(ds[1..], ps[1..], rest, n - 1);
        assert |ds| <= n ==> ps[1..][|ds| - 1..] == ps[|ds|..];
      }
    }
  }

  // ---- What a receiver sees that never clears the body of its scratch message ----

  /** The body of the last message that has one. */
  function LastBody(ms: seq<Msg>): seq<Byte> {
    if ms == [] then []
    else
      var m := ms[|ms| - 1];
      if m.size > 0 then m.body else LastBody(ms[..|ms| - 1])
  }

  /** The messages as delivered: a bodyless one carries the body of the last one that had any. */
  function Sticky(ms: seq<Msg>): (r: seq<Msg>)
    ensures |r| == |ms|
  {
    if ms == [] then []
    else Sticky(ms[..|ms| - 1]) + [ms[|ms| - 1].(body := LastBody(ms))]
  }

  function Strip(m: Msg): Msg {
    if m.size == 0 then m.(body := []) else m
  }

  function StripAll(ms: seq<Msg>): (r: seq<Msg>)
    ensures |r| == |ms| && forall i :: 0 <= i < |r| ==> r[i] == Strip(ms[i])
  {
    seq(|ms|, i requires 0 <= i < |ms| => Strip(ms[i]))
  }

  lemma {:induction false} StickyAt(ms: seq<Msg>, i: nat)
    requires i < |ms|
    ensures Sticky(ms)[i] == ms[i].(body := LastBody(ms[..i + 1]))
  {
    if i == |ms| - 1 {
      assert ms[..i + 1] == ms;
    } else {
      StickyAt(ms[..|ms| - 1], i);
      assert ms[..|ms| - 1][..i + 1] == ms[..i + 1];
    }
  }

  lemma {:induction false} StickyPrefix(ms: seq<Msg>, n: nat)
    requires n <= |ms|
    ensures Sticky(ms)[..n] == Sticky(ms[..n])
  {
    if n == |ms| {
      assert ms[..n] == ms;
    } else {
      StickyPrefix(ms[..|ms| - 1], n);
      assert ms[..|ms| - 1][..n] == ms[..n];
    }
  }

  lemma {:induction false} LastBodyEmpty(ms: seq<Msg>)
    requires AllWellFormed(ms)
    ensures LastBody(ms) == [] <==> forall i :: 0 <= i < |ms| ==> ms[i].size == 0
  {
    if ms != [] {
      LastBodyEmpty(ms[..|ms| - 1]);
      var m := ms[|ms| - 1];
      assert m.size > 0 ==> m.body != [];
    }
  }

  lemma DeliveredAt(ms: seq<Msg>, j: nat)
    requires AllWellFormed(ms) && j < |ms|
    ensures Strip(Sticky(ms)[j]) == ms[j]
    ensures ms[j].size > 0 ==> Sticky(ms)[j] == ms[j]
    ensures ms[j].size == 0 ==> (Sticky(ms)[j] == ms[j] <==> LastBody(ms[..j + 1]) == [])
  {
    StickyAt(ms, j);
    assert ms[..j + 1][j] == ms[j];
  }

  lemma PlainSoFar(ms: seq<Msg>, j: nat)
    requires AllWellFormed(ms) && j < |ms|
    ensures LastBody(ms[..j + 1]) == [] <==> forall i :: 0 <= i <= j ==> ms[i].size == 0
  {
    var upto := ms[..j + 1];
    LastBodyEmpty(upto);
    assert forall i :: 0 <= i <= j ==> upto[i] == ms[i];
  }

  /** Identifiers and sizes always arrive, and so do the bodies of messages that have one. */
  lemma StripSticky(ms: seq<Msg>)
    requires AllWellFormed(ms)
    ensures StripAll(Sticky(ms)) == ms
  {
    forall j | 0 <= j < |ms| ensures Strip(Sticky(ms)[j]) == ms[j] {
      DeliveredAt(ms, j);
    }
  }

  /** No bodyless message follows one with a body. */
  ghost predicate BodylessFirst(ms: seq<Msg>) {
    forall i, j :: 0 <= i < j < |ms| && ms[i].size > 0 ==> ms[j].size > 0
  }

  /** Messages arrive unchanged exactly if no bodyless message follows one with a body. */
  lemma DeliveredUnchangedExactly(ms: seq<Msg>)
    requires AllWellFormed(ms)
    ensures Sticky(ms) == ms <==> BodylessFirst(ms)
  {
    if BodylessFirst(ms) {
      forall j | 0 <= j < |ms| ensures Sticky(ms)[j] == ms[j] {
        DeliveredAt(ms, j);
        PlainSoFar(ms, j);
      }
    }
    if i, j :| 0 <= i < j < |ms| && ms[i].size > 0 && ms[j].size == 0 {
      DeliveredAt(ms, j);
      PlainSoFar(ms, j);
    }
  }

  /** A delivered message is well-formed exactly if it has a body or no body came before it. */
  lemma DeliveredWellFormedExactly(ms: seq<Msg>, j: nat)
    requires AllWellFormed(ms) && j < |ms|
    ensures WellFormed(Sticky(ms)[j]) <==> ms[j].size > 0 || forall i :: 0 <= i <= j ==> ms[i].size == 0
  {
    StickyAt(ms, j);
    DeliveredAt(ms, j);
    PlainSoFar(ms, j);
  }
}
