/** Generic facts about sequences and arrays, stated once for any element type
    so that proofs about heavy elements need not look inside them. */
module Seqs {

  /** Taking one more element of `s` onto a prefix. */
  lemma SliceSnoc<T>(s: seq<T>, i: nat)
    requires i < |s|
    ensures s[..i + 1] == s[..i] + [s[i]]
  {
  }

  /** Appending the next element of `s` after a prefix and the first `i` elements. */
  lemma AppendSnoc<T>(prefix: seq<T>, s: seq<T>, i: nat)
    requires i < |s|
    ensures (prefix + s[..i]) + [s[i]] == prefix + s[..i + 1]
  {
    assert s[..i + 1] == s[..i] + [s[i]];
  }

  /** Moving the first element of `es` to the end of `done`. */
  lemma MoveFirst<T>(done: seq<T>, es: seq<T>)
    requires es != []
    ensures (done + [es[0]]) + es[1..] == done + es
  {
    assert es == [es[0]] + es[1..];
  }

  /** Three pushes onto `row`. */
  lemma PushThree<T>(row: seq<T>, a: T, b: T, c: T)
    ensures ((row + [a]) + [b]) + [c] == row + [a, b, c]
  {
  }

  /** A rearrangement has the same length, and each of its elements comes from the original. */
  lemma PermutationMembers<T>(u: seq<T>, s: seq<T>)
    requires multiset(s) == multiset(u)
    ensures |s| == |u|
    ensures forall j :: 0 <= j < |s| ==> exists i :: 0 <= i < |u| && u[i] == s[j]
  {
    assert |multiset(s)| == |multiset(u)|;
    forall j | 0 <= j < |s| ensures exists i :: 0 <= i < |u| && u[i] == s[j] {
      assert s[j] in multiset(u);
    }
  }

  /** A fresh array holding the elements of `s`. */
  method ToArray<T>(s: seq<T>) returns (a: array<T>)
    ensures fresh(a) && a[..] == s
  {
    a := new T[|s|](i requires 0 <= i < |s| => s[i]);
  }
}
