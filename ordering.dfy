/** Orders and sorts: JavaScript's default string order and `Array.prototype.sort`
    (stable since ES2019), the insertion-ordered `Set`, and the facts about them
    the pipeline relies on. */
module Ordering {

  /** The order of the default `sort` on strings: lexicographic on characters,
      a proper prefix before its extensions. */
  predicate StrLt(a: string, b: string) {
    if |a| == 0 then |b| > 0
    else |b| > 0 && (a[0] < b[0] || (a[0] == b[0] && StrLt(a[1..], b[1..])))
  }

  predicate StrLe(a: string, b: string) {
    a == b || StrLt(a, b)
  }

  lemma {:induction false} StrLtIrreflexive(a: string)
    ensures !StrLt(a, a)
  {
    if |a| > 0 { StrLtIrreflexive(a[1..]); }
  }

  lemma {:induction false} StrLtTrichotomy(a: string, b: string)
    ensures StrLt(a, b) || a == b || StrLt(b, a)
  {
    if |a| > 0 && |b| > 0 && a[0] == b[0] {
      StrLtTrichotomy(a[1..], b[1..]);
      if a[1..] == b[1..] {
        assert a == [a[0]] + a[1..] && b == [b[0]] + b[1..];
      }
    }
  }

  lemma {:induction false} StrLtTransitive(a: string, b: string, c: string)
    requires StrLt(a, b) && StrLt(b, c)
    ensures StrLt(a, c)
  {
    if |a| > 0 && a[0] == b[0] && b[0] == c[0] {
      StrLtTransitive(a[1..], b[1..], c[1..]);
    }
  }

  lemma StrLtAsymmetric(a: string, b: string)
    requires StrLt(a, b)
    ensures !StrLt(b, a) && a != b
  {
    StrLtIrreflexive(a);
    if StrLt(b, a) { StrLtTransitive(a, b, a); }
  }

  lemma StrLeTransitive(a: string, b: string, c: string)
    requires StrLe(a, b) && StrLe(b, c)
    ensures StrLe(a, c)
  {
    if a != b && b != c { StrLtTransitive(a, b, c); }
  }

  predicate Sorted(xs: seq<string>) {
    forall i, j :: 0 <= i < j < |xs| ==> StrLe(xs[i], xs[j])
  }

  predicate NoDup<T(==)>(xs: seq<T>) {
    forall i, j :: 0 <= i < j < |xs| ==> xs[i] != xs[j]
  }

  function Insert(x: string, xs: seq<string>): (r: seq<string>)
    requires Sorted(xs)
    ensures Sorted(r) && multiset(r) == multiset(xs) + multiset{x}
  {
    if xs == [] then [x]
    else if StrLe(x, xs[0]) then
      InsertFront(x, xs);
      [x] + xs
    else
      var rest := Insert(x, xs[1..]);
      InsertBehind(x, xs, rest);
      [xs[0]] + rest
  }

  /** `x` goes in front of a sorted sequence whose head is not smaller. */
  lemma InsertFront(x: string, xs: seq<string>)
    requires Sorted(xs) && xs != [] && StrLe(x, xs[0])
    ensures Sorted([x] + xs)
  {
    forall j | 0 <= j < |xs| ensures StrLe(x, xs[j]) {
      if j > 0 { StrLeTransitive(x, xs[0], xs[j]); }
    }
  }

  /** The head stays in front when `x` was inserted into the tail. */
  lemma InsertBehind(x: string, xs: seq<string>, rest: seq<string>)
    requires Sorted(xs) && xs != [] && !StrLe(x, xs[0])
    requires Sorted(rest) && multiset(rest) == multiset(xs[1..]) + multiset{x}
    ensures Sorted([xs[0]] + rest) && multiset([xs[0]] + rest) == multiset(xs) + multiset{x}
  {
    assert xs == [xs[0]] + xs[1..];
    StrLtTrichotomy(x, xs[0]);
    forall j | 0 <= j < |rest| ensures StrLe(xs[0], rest[j]) {
      assert rest[j] in multiset(rest);
    }
  }

  /** `Array.prototype.sort()` with no comparator, on strings. */
  function SortStrings(xs: seq<string>): (r: seq<string>)
    ensures Sorted(r) && multiset(r) == multiset(xs)
  {
    if xs == [] then []
    else
      assert xs == [xs[0]] + xs[1..];
      Insert(xs[0], SortStrings(xs[1..]))
  }

  /** A sorted permutation is unique: any sorted sequence holding the same
      strings as `xs` is `SortStrings(xs)`. */
  lemma {:induction false} SortedUnique(a: seq<string>, b: seq<string>)
    requires Sorted(a) && Sorted(b) && multiset(a) == multiset(b)
    ensures a == b
  {
    if a != [] {
      assert a[0] in multiset(b);
      var i :| 0 <= i < |b| && b[i] == a[0];
      assert b[0] in multiset(a);
      var j :| 0 <= j < |a| && a[j] == b[0];
      assert StrLe(a[0], b[0]) by { if j > 0 { assert StrLe(a[0], a[j]); } }
      assert StrLe(b[0], a[0]) by { if i > 0 { assert StrLe(b[0], b[i]); } }
      if a[0] != b[0] {
        StrLtAsymmetric(a[0], b[0]);
        assert false;
      }
      assert a == [a[0]] + a[1..] && b == [b[0]] + b[1..];
      assert multiset(a[1..]) == multiset(b[1..]) by {
        assert multiset(a) == multiset{a[0]} + multiset(a[1..]);
        assert multiset(b) == multiset{a[0]} + multiset(b[1..]);
        forall y ensures multiset(a[1..])[y] == multiset(b[1..])[y] {
          assert multiset(a)[y] == multiset{a[0]}[y] + multiset(a[1..])[y];
          assert multiset(b)[y] == multiset{a[0]}[y] + multiset(b[1..])[y];
        }
      }
      SortedUnique(a[1..], b[1..]);
    }
  }

  lemma SortStringsUnique(xs: seq<string>, ys: seq<string>)
    requires Sorted(ys) && multiset(ys) == multiset(xs)
    ensures ys == SortStrings(xs)
  {
    SortedUnique(ys, SortStrings(xs));
  }

  /** A duplicate-free sequence counts each element at most once. */
  lemma {:induction false} NoDupMultiset<T>(xs: seq<T>)
    requires NoDup(xs)
    ensures forall x :: multiset(xs)[x] == if x in xs then 1 else 0
  {
    if xs != [] {
      assert xs == [xs[0]] + xs[1..];
      NoDupMultiset(xs[1..]);
    }
  }

  /** A sequence that counts each element at most once is duplicate-free. */
  lemma {:induction false} MultisetNoDup<T>(xs: seq<T>)
    requires forall x :: multiset(xs)[x] <= 1
    ensures NoDup(xs)
  {
    if xs != [] {
      assert xs == [xs[0]] + xs[1..];
      assert forall x :: multiset(xs[1..])[x] <= multiset(xs)[x];
      MultisetNoDup(xs[1..]);
      assert multiset(xs)[xs[0]] == multiset(xs[1..])[xs[0]] + 1;
      assert xs[0] !in xs[1..];
      forall i, j | 0 <= i < j < |xs| ensures xs[i] != xs[j] {
        if i == 0 { assert xs[j] in xs[1..]; } else { assert xs[i] == xs[1..][i - 1]; }
      }
    }
  }

  lemma SameElementsSameMultiset<T>(a: seq<T>, b: seq<T>)
    requires NoDup(a) && NoDup(b) && (forall x :: x in a <==> x in b)
    ensures multiset(a) == multiset(b)
  {
    NoDupMultiset(a);
    NoDupMultiset(b);
  }

  lemma PermutationKeepsNoDup<T>(a: seq<T>, b: seq<T>)
    requires NoDup(a) && multiset(a) == multiset(b)
    ensures NoDup(b) && (forall x :: x in a <==> x in b)
  {
    NoDupMultiset(a);
    MultisetNoDup(b);
    assert forall x :: x in a <==> x in multiset(a);
    assert forall x :: x in b <==> x in multiset(b);
  }

  /** A JavaScript `Set` filled from `xs` in order: each element once, at the
      place where it first occurs. */
  function Distinct(xs: seq<string>): seq<string> {
    if xs == [] then []
    else
      var d := Distinct(xs[..|xs| - 1]);
      if xs[|xs| - 1] in d then d else d + [xs[|xs| - 1]]
  }

  /** Each element of `xs` appears exactly once in `Distinct(xs)`, and nothing else does. */
  lemma {:induction false} DistinctSpec(xs: seq<string>)
    ensures NoDup(Distinct(xs))
    ensures forall x :: x in Distinct(xs) <==> x in xs
  {
    if xs != [] {
      var init := xs[..|xs| - 1];
      DistinctSpec(init);
      assert xs == init + [xs[|xs| - 1]];
    }
  }

  lemma DistinctSnoc(xs: seq<string>, x: string)
    ensures Distinct(xs + [x]) == if x in xs then Distinct(xs) else Distinct(xs) + [x]
  {
    assert (xs + [x])[..|xs|] == xs;
    DistinctSpec(xs);
  }

  /** Taking the next key of `keys` into the distinct elements of a prefix. */
  lemma DistinctExtend(xs: seq<string>, keys: seq<string>, j: nat)
    requires j < |keys|
    ensures var d := Distinct(xs + keys[..j]);
      Distinct(xs + keys[..j + 1]) == if keys[j] in d then d else d + [keys[j]]
  {
    assert xs + keys[..j + 1] == (xs + keys[..j]) + [keys[j]];
    DistinctSnoc(xs + keys[..j], keys[j]);
    DistinctSpec(xs + keys[..j]);
  }

  /** A `Set` never holds more elements than were added to it. */
  lemma {:induction false} DistinctShorter(xs: seq<string>)
    ensures |Distinct(xs)| <= |xs|
  {
    if xs != [] {
      DistinctShorter(xs[..|xs| - 1]);
    }
  }

  predicate NonIncreasing<T>(xs: seq<T>, key: T -> real) {
    forall i, j :: 0 <= i < j < |xs| ==> key(xs[i]) >= key(xs[j])
  }

  /** Inserting `x` before the first element whose key is not larger. */
  function InsertDesc<T>(x: T, xs: seq<T>, key: T -> real): seq<T> {
    if xs == [] || key(x) >= key(xs[0]) then [x] + xs
    else [xs[0]] + InsertDesc(x, xs[1..], key)
  }

  lemma {:induction false} InsertDescPermutes<T>(x: T, xs: seq<T>, key: T -> real)
    ensures multiset(InsertDesc(x, xs, key)) == multiset(xs) + multiset{x}
  {
    if xs != [] && key(x) < key(xs[0]) {
      InsertDescPermutes(x, xs[1..], key);
      assert xs == [xs[0]] + xs[1..];
    }
  }

  lemma {:induction false} InsertDescOrdered<T>(x: T, xs: seq<T>, key: T -> real)
    requires NonIncreasing(xs, key)
    ensures NonIncreasing(InsertDesc(x, xs, key), key)
  {
    if xs != [] && key(x) < key(xs[0]) {
      var rest := InsertDesc(x, xs[1..], key);
      InsertDescOrdered(x, xs[1..], key);
      InsertDescPermutes(x, xs[1..], key);
      forall j | 0 <= j < |rest| ensures key(xs[0]) >= key(rest[j]) {
        assert rest[j] in multiset(rest);
        if rest[j] != x {
          assert rest[j] in multiset(xs[1..]);
        }
      }
    }
  }

  /** `xs.sort((a, b) => key(b) - key(a))`: a stable sort, largest key first. */
  function SortDesc<T>(xs: seq<T>, key: T -> real): seq<T> {
    if xs == [] then [] else InsertDesc(xs[0], SortDesc(xs[1..], key), key)
  }

  /** The sort orders by key, largest first, and keeps every element. */
  lemma {:induction false} SortDescSpec<T>(xs: seq<T>, key: T -> real)
    ensures NonIncreasing(SortDesc(xs, key), key)
    ensures multiset(SortDesc(xs, key)) == multiset(xs)
  {
    if xs != [] {
      SortDescSpec(xs[1..], key);
      InsertDescOrdered(xs[0], SortDesc(xs[1..], key), key);
      InsertDescPermutes(xs[0], SortDesc(xs[1..], key), key);
      assert xs == [xs[0]] + xs[1..];
    }
  }

  /** Sorted by `key` descending, and by `pos` ascending among equal keys. */
  predicate DescThenAsc<T>(xs: seq<T>, key: T -> real, pos: T -> int) {
    forall i, j :: 0 <= i < j < |xs| ==>
      key(xs[i]) > key(xs[j]) || (key(xs[i]) == key(xs[j]) && pos(xs[i]) < pos(xs[j]))
  }

  predicate Increasing<T>(xs: seq<T>, pos: T -> int) {
    forall i, j :: 0 <= i < j < |xs| ==> pos(xs[i]) < pos(xs[j])
  }

  lemma {:induction false} InsertDescStable<T>(x: T, xs: seq<T>, key: T -> real, pos: T -> int)
    requires DescThenAsc(xs, key, pos)
    requires forall y :: y in xs ==> pos(x) < pos(y)
    ensures DescThenAsc(InsertDesc(x, xs, key), key, pos)
  {
    if xs != [] && key(x) < key(xs[0]) {
      var rest := InsertDesc(x, xs[1..], key);
      InsertDescStable(x, xs[1..], key, pos);
      InsertDescPermutes(x, xs[1..], key);
      forall j | 0 <= j < |rest|
        ensures key(xs[0]) > key(rest[j]) || (key(xs[0]) == key(rest[j]) && pos(xs[0]) < pos(rest[j]))
      {
        assert rest[j] in multiset(rest);
        if rest[j] != x {
          assert rest[j] in multiset(xs[1..]);
          var k :| 0 <= k < |xs[1..]| && xs[1..][k] == rest[j];
          assert xs[k + 1] == rest[j];
        }
      }
    }
  }

  /** Stability: a sort of a sequence in increasing `pos` order breaks ties by `pos`. */
  lemma {:induction false} SortDescStable<T>(xs: seq<T>, key: T -> real, pos: T -> int)
    requires Increasing(xs, pos)
    ensures DescThenAsc(SortDesc(xs, key), key, pos)
  {
    if xs != [] {
      assert xs == [xs[0]] + xs[1..];
      SortDescStable(xs[1..], key, pos);
      SortDescSpec(xs[1..], key);
      forall y | y in SortDesc(xs[1..], key) ensures pos(xs[0]) < pos(y) {
        assert y in multiset(SortDesc(xs[1..], key));
        assert y in xs[1..];
      }
      InsertDescStable(xs[0], SortDesc(xs[1..], key), key, pos);
    }
  }
}
