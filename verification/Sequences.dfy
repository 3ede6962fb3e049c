/** Sequences without repetition, and sequences found within others. */
module Sequences {

  ghost predicate NoDuplicates<T>(s: seq<T>) {
    forall i, j :: 0 <= i < j < |s| ==> s[i] != s[j]
  }

  lemma ConcatAssociative<T>(a: seq<T>, b: seq<T>, c: seq<T>)
    ensures (a + b) + c == a + (b + c)
  {
  }

  lemma SplitAt<T>(s: seq<T>, i: nat)
    requires i < |s|
    ensures s == (s[..i] + [s[i]]) + s[i + 1..]
  {
  }

  lemma NoDuplicatesConcat<T(!new)>(a: seq<T>, b: seq<T>)
    requires NoDuplicates(a) && NoDuplicates(b)
    requires forall x :: x in a ==> x !in b
    ensures NoDuplicates(a + b)
  {
    forall i, j | 0 <= i < j < |a + b| ensures (a + b)[i] != (a + b)[j] {
      if i < |a| <= j {
        assert a[i] in a && b[j - |a|] in b;
      }
    }
  }

  /** `order` lists the keys of a hash map, each once, in some order. */
  ghost predicate Enumerates<T(!new)>(order: seq<T>, keys: set<T>) {
    && NoDuplicates(order)
    && (forall k :: k in order <==> k in keys)
  }

  /** `b` stands in `s` from `pos` on. */
  ghost predicate FoundAt<T>(s: seq<T>, pos: int, b: seq<T>) {
    0 <= pos && pos + |b| <= |s| && s[pos..pos + |b|] == b
  }

  lemma FoundBehind<T>(a: seq<T>, b: seq<T>)
    ensures FoundAt(a + b, |a|, b)
  {
  }

  lemma FoundLonger<T>(s: seq<T>, pos: int, b: seq<T>, rest: seq<T>)
    requires FoundAt(s, pos, b)
    ensures FoundAt(s + rest, pos, b)
  {
  }

  lemma FoundShifted<T>(front: seq<T>, s: seq<T>, pos: int, b: seq<T>)
    requires FoundAt(s, pos, b)
    ensures FoundAt(front + s, |front| + pos, b)
  {
    assert (front + s)[|front| + pos..|front| + pos + |b|] == s[pos..pos + |b|];
  }

  lemma FoundInside<T>(s: seq<T>, pos: int, b: seq<T>, i: int, c: seq<T>)
    requires FoundAt(s, pos, b) && FoundAt(b, i, c)
    ensures FoundAt(s, pos + i, c)
  {
    forall k | 0 <= k < |c| ensures s[pos + i + k] == c[k] {
      assert s[pos..pos + |b|][i + k] == b[i + k] && b[i..i + |c|][k] == c[k];
    }
  }
}
