/** `Message`: values are pushed onto the end of its body and pulled off again, last in first out. */
module Messages {
  import opened Basics
  import opened Bytes
  import opened Framing

  /** `operator<<` with the bytes of one value; the size field has 32 bits. */
  function Pushed(m: Msg, data: seq<Byte>): Msg {
    m.(body := m.body + data, size := |m.body + data| % TWO_32)
  }

  /** What `operator>>` leaves after pulling a value of `n` bytes. */
  function Popped(m: Msg, n: nat): Msg
    requires n <= |m.body|
  {
    var i := |m.body| - n;
    m.(body := m.body[..i], size := i % TWO_32)
  }

  /** The value `operator>>` pulls. */
  function Top(m: Msg, n: nat): seq<Byte>
    requires n <= |m.body|
  {
    m.body[|m.body| - n..]
  }

  class Message {
    var id: Uint32
    var size: Uint32
    var body: seq<Byte>

    function View(): Msg
      reads this
    {
      Msg(id, size, body)
    }

    constructor (id: Uint32)
      ensures View() == Msg(id, 0, [])
    {
      this.id, size, body := id, 0, [];
    }

    method Push(data: seq<Byte>)
      modifies this`size, this`body
      ensures View() == Pushed(old(View()), data)
    {
      body := body + data;
      size := |body| % TWO_32;
    }

    method Pull(n: nat) returns (data: seq<Byte>)
      requires n <= |body|
      modifies this`size, this`body
      ensures data == Top(old(View()), n) && View() == Popped(old(View()), n)
    {
      var i := |body| - n;
      data := body[i..];
      body := body[..i];
      size := i % TWO_32;
    }
  }

  function PushAll(m: Msg, values: seq<seq<Byte>>): Msg {
    if values == [] then m else Pushed(PushAll(m, values[..|values| - 1]), values[|values| - 1])
  }

  /** The size field is the body's length, as far as it has room for it. */
  ghost predicate SizeOk(m: Msg) {
    m.size == |m.body| % TWO_32
  }

  lemma {:induction false} PushAllSize(m: Msg, values: seq<seq<Byte>>)
    requires SizeOk(m)
    ensures SizeOk(PushAll(m, values)) && m.body <= PushAll(m, values).body
    ensures WellFormed(PushAll(m, values)) <==> |PushAll(m, values).body| < TWO_32
  {
    if values != [] {
      PushAllSize(m, values[..|values| - 1]);
    }
  }

  /** Each pull after a row of pushes yields the value pushed last and undoes that push. */
  lemma PullUndoesPush(m: Msg, values: seq<seq<Byte>>)
    requires SizeOk(m) && values != []
    ensures var v, n := values[|values| - 1], |values[|values| - 1]|; var p := PushAll(m, values);
      n <= |p.body| && Top(p, n) == v && Popped(p, n) == PushAll(m, values[..|values| - 1])
  {
    PushAllSize(m, values[..|values| - 1]);
  }

  /** Pulls values of the given sizes, the last size first. */
  function PullAll(m: Msg, sizes: seq<nat>): (Msg, seq<seq<Byte>>)
    requires Total(sizes) <= |m.body|
    decreases |sizes|
  {
    if sizes == [] then (m, [])
    else
      var n := sizes[|sizes| - 1];
      var (rest, values) := PullAll(Popped(m, n), sizes[..|sizes| - 1]);
      (rest, values + [Top(m, n)])
  }

  function Total(sizes: seq<nat>): nat {
    if sizes == [] then 0 else Total(sizes[..|sizes| - 1]) + sizes[|sizes| - 1]
  }

  function Sizes(values: seq<seq<Byte>>): (r: seq<nat>)
    ensures |r| == |values|
  {
    if values == [] then [] else Sizes(values[..|values| - 1]) + [|values[|values| - 1]|]
  }

  lemma {:induction false} PushAllLength(m: Msg, values: seq<seq<Byte>>)
    ensures |PushAll(m, values).body| == |m.body| + Total(Sizes(values))
  {
    if values != [] {
      PushAllLength(m, values[..|values| - 1]);
      assert Sizes(values)[..|values| - 1] == Sizes(values[..|values| - 1]);
    }
  }

  /** Pushing any values and pulling them in reverse order returns them and restores the message. */
  lemma {:induction false} PushPullRoundTrip(m: Msg, values: seq<seq<Byte>>)
    requires SizeOk(m)
    ensures Total(Sizes(values)) <= |PushAll(m, values).body|
    ensures PullAll(PushAll(m, values), Sizes(values)) == (m, values)
  {
    PushAllLength(m, values);
    if values != [] {
      var front := values[..|values| - 1];
      PushAllLength(m, front);
      PushPullRoundTrip(m, front);
      PullUndoesPush(m, values);
      assert Sizes(values)[..|values| - 1] == Sizes(front);
      assert values == front + [values[|values| - 1]];
    }
  }

  /** The values one after the other. */
  function Joined(values: seq<seq<Byte>>): seq<Byte> {
    if values == [] then [] else values[0] + Joined(values[1..])
  }

  lemma {:induction false} JoinedAppend(values: seq<seq<Byte>>, v: seq<Byte>)
    ensures Joined(values + [v]) == Joined(values) + v
  {
    if values == [] {
      assert [v][1..] == [] && v + [] == [] + v;
    } else {
      JoinedAppend(values[1..], v);
      assert (values + [v])[1..] == values[1..] + [v];
      assert values[0] + (Joined(values[1..]) + v) == (values[0] + Joined(values[1..])) + v;
    }
  }

  /** On the wire the values stand in the order they were pushed, behind what was there before. */
  lemma {:induction false} PushAllBody(m: Msg, values: seq<seq<Byte>>)
    ensures PushAll(m, values).body == m.body + Joined(values) && PushAll(m, values).id == m.id
  {
    if values == [] {
      assert m.body + [] == m.body;
    } else {
      var front, v := values[..|values| - 1], values[|values| - 1];
      PushAllBody(m, front);
      assert values == front + [v];
      JoinedAppend(front, v);
      assert (m.body + Joined(front)) + v == m.body + (Joined(front) + v);
    }
  }
}
