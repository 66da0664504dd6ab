/** Pass 1 of the rarity engine (components/rarity/utils.ts:279-331): how often
    each (type, value) pair occurs over all records, and how many records have
    each number of selected entries. */
module RarityCounts {
  import opened Wrappers
  import opened Seqs
  import opened JsValues
  import opened TraitEntries

  /** A trait type and a trimmed value, as the rarity engine reads an entry. */
  type Pair = (string, string)

  /** The pairs read from `entries`, in order; entries without one are skipped. */
  function Pairs(entries: seq<Value>): seq<Pair> {
    if entries == [] then []
    else
      Pairs(entries[..|entries| - 1])
        + match ScoringPair(entries[|entries| - 1]) { case Some(p) => [p] case None => [] }
  }

  lemma {:induction false} PairsAppend(a: seq<Value>, b: seq<Value>)
    ensures Pairs(a + b) == Pairs(a) + Pairs(b)
  {
    if b != [] {
      PairsAppend(a, b[..|b| - 1]);
      assert (a + b)[..|a + b| - 1] == a + b[..|b| - 1];
    } else {
      assert a + b == a;
    }
  }

  /** How many of `pairs` have a selected type. */
  function SelectedCount(pairs: seq<Pair>, selected: seq<string>): nat {
    if pairs == [] then 0
    else SelectedCount(pairs[..|pairs| - 1], selected) + if pairs[|pairs| - 1].0 in selected then 1 else 0
  }

  /** The number of selected entries of each record. */
  function SelectedCounts(data: seq<Item>, key: string, selected: seq<string>): seq<nat> {
    seq(|data|, i requires 0 <= i < |data| => SelectedCount(Pairs(AttrsOf(data[i], key)), selected))
  }

  /** The occurrence count of each element of `xs`; absent elements have no key. */
  function Frequencies<T(==)>(xs: seq<T>): map<T, nat> {
    map x | x in multiset(xs) :: multiset(xs)[x]
  }

  /** `if (!m[x]) m[x] = 0; m[x]++`. */
  function Inc<T>(m: map<T, nat>, x: T): map<T, nat> {
    m[x := (if x in m then m[x] else 0) + 1]
  }

  lemma FrequenciesSnoc<T>(xs: seq<T>, x: T)
    ensures Frequencies(xs + [x]) == Inc(Frequencies(xs), x)
  {
    assert multiset(xs + [x]) == multiset(xs) + multiset{x};
  }

  /** The pair of one more entry, if it has one, comes last. */
  function PairList(e: Value): seq<Pair> {
    match ScoringPair(e) { case Some(p) => [p] case None => [] }
  }

  lemma PairsSnoc(entries: seq<Value>, e: Value)
    ensures Pairs(entries + [e]) == Pairs(entries) + PairList(e)
  {
    assert (entries + [e])[..|entries|] == entries;
  }

  /** What pass 1 has counted so far within one record. */
  datatype Counting = Counting(valueCounts: map<Pair, nat>, selectedTraitCount: nat)

  /** One entry counted: its pair, if it has one, into `valueCounts`, and into
      `selectedTraitCount` when its type is selected. */
  function CountStep(st: Counting, pair: Option<Pair>, selected: seq<string>): Counting {
    match pair
    case None => st
    case Some(p) => Counting(Inc(st.valueCounts, p), st.selectedTraitCount + if p.0 in selected then 1 else 0)
  }

  /** The entries counted front to back. */
  function CountFold(st: Counting, es: seq<Value>, selected: seq<string>): Counting
    decreases |es|
  {
    if es == [] then st else CountFold(CountStep(st, ScoringPair(es[0]), selected), es[1..], selected)
  }

  /** The pairs counted front to back. */
  function PairFold(st: Counting, ps: seq<Pair>, selected: seq<string>): Counting
    decreases |ps|
  {
    if ps == [] then st else PairFold(CountStep(st, Some(ps[0]), selected), ps[1..], selected)
  }

  /** Counting entries is counting their pairs. */
  lemma {:induction false} CountFoldPairs(st: Counting, es: seq<Value>, selected: seq<string>)
    ensures CountFold(st, es, selected) == PairFold(st, Pairs(es), selected)
    decreases |es|
  {
    if es != [] {
      var e := es[0];
      PairsAppend([e], es[1..]);
      assert [e] + es[1..] == es;
      assert [e][..0] == [];
      assert Pairs([e]) == PairList(e);
      CountFoldPairs(CountStep(st, ScoringPair(e), selected), es[1..], selected);
      if ScoringPair(e).Some? {
        assert Pairs(es) == [ScoringPair(e).value] + Pairs(es[1..]);
        assert Pairs(es)[1..] == Pairs(es[1..]);
      } else {
        assert Pairs(es) == Pairs(es[1..]);
      }
    }
  }

  /** Counting pairs adds them to the frequencies, and the selected ones to the
      selected count. */
  lemma {:induction false} PairFoldSpec(st: Counting, ps: seq<Pair>, selected: seq<string>, done: seq<Pair>)
    requires st.valueCounts == Frequencies(done)
    ensures PairFold(st, ps, selected).valueCounts == Frequencies(done + ps)
    ensures PairFold(st, ps, selected).selectedTraitCount == st.selectedTraitCount + SelectedCount(ps, selected)
    decreases |ps|
  {
    if ps == [] {
      assert done + ps == done;
    } else {
      var p := ps[0];
      FrequenciesSnoc(done, p);
      PairFoldSpec(CountStep(st, Some(p), selected), ps[1..], selected, done + [p]);
      MoveFirst(done, ps);
      assert ps == [p] + ps[1..];
      SelectedCountCons(p, ps[1..], selected);
    }
  }

  lemma {:induction false} SelectedCountCons(p: Pair, pairs: seq<Pair>, selected: seq<string>)
    ensures SelectedCount([p] + pairs, selected) == (if p.0 in selected then 1 else 0) + SelectedCount(pairs, selected)
    decreases |pairs|
  {
    if pairs == [] {
      assert ([p] + pairs)[..0] == [];
    } else {
      var init := pairs[..|pairs| - 1];
      SelectedCountCons(p, init, selected);
      assert ([p] + pairs)[..|pairs|] == [p] + init;
    }
  }

  /** The body of the inner `attributes.forEach` of pass 1 for an entry read as
      `pair`, updating the counts in place. */
  method CountEntry(valueCounts: map<Pair, nat>, selectedTraitCount: nat, pair: Option<Pair>, selectedTraitTypes: seq<string>)
    returns (valueCounts': map<Pair, nat>, selectedTraitCount': nat)
    ensures Counting(valueCounts', selectedTraitCount') ==
      CountStep(Counting(valueCounts, selectedTraitCount), pair, selectedTraitTypes)
  {
    valueCounts', selectedTraitCount' := valueCounts, selectedTraitCount;
    if pair.Some? {
      var p := pair.value;
      var c := if p in valueCounts' then valueCounts'[p] else 0;
      valueCounts' := valueCounts'[p := c + 1];
      if p.0 in selectedTraitTypes {
        selectedTraitCount' := selectedTraitCount' + 1;
      }
    }
  }

  /** The inner `attributes.forEach` of pass 1: the pairs of one record counted
      into `valueCounts`, and its selected pairs numbered. */
  method CountPairs(valueCounts: map<Pair, nat>, attributes: seq<Value>, selectedTraitTypes: seq<string>, ghost done: seq<Pair>)
    returns (valueCounts': map<Pair, nat>, selectedTraitCount: nat)
    requires valueCounts == Frequencies(done)
    ensures valueCounts' == Frequencies(done + Pairs(attributes))
    ensures selectedTraitCount == SelectedCount(Pairs(attributes), selectedTraitTypes)
  {
    valueCounts', selectedTraitCount := valueCounts, 0;
    var j := 0;
    while j < |attributes|
      invariant 0 <= j <= |attributes|
      invariant CountFold(Counting(valueCounts', selectedTraitCount), attributes[j..], selectedTraitTypes)
        == CountFold(Counting(valueCounts, 0), attributes, selectedTraitTypes)
    {
      assert attributes[j..][1..] == attributes[j + 1..];
      valueCounts', selectedTraitCount := CountEntry(valueCounts', selectedTraitCount, ScoringPair(attributes[j]), selectedTraitTypes);
      j := j + 1;
    }
    CountFoldPairs(Counting(valueCounts, 0), attributes, selectedTraitTypes);
    PairFoldSpec(Counting(valueCounts, 0), Pairs(attributes), selectedTraitTypes, done);
  }

  /** Pass 1 of `calculateRarity`: `traitValueCounts` (keyed by pair instead of
      by type, then value) and `traitCountCounts`. */
  method CountOccurrences(data: seq<Item>, attributeKey: string, selectedTraitTypes: seq<string>)
    returns (valueCounts: map<Pair, nat>, countCounts: map<nat, nat>)
    ensures valueCounts == Frequencies(Pairs(AllEntries(data, attributeKey)))
    ensures countCounts == Frequencies(SelectedCounts(data, attributeKey, selectedTraitTypes))
  {
    valueCounts, countCounts := map[], map[];
    var i := 0;
    assert Pairs(AllEntries(data[..0], attributeKey)) == [];
    assert SelectedCounts(data[..0], attributeKey, selectedTraitTypes) == [];
    while i < |data|
      invariant 0 <= i <= |data|
      invariant valueCounts == Frequencies(Pairs(AllEntries(data[..i], attributeKey)))
      invariant countCounts == Frequencies(SelectedCounts(data[..i], attributeKey, selectedTraitTypes))
    {
      RecordStep(data, attributeKey, selectedTraitTypes, i);
      var selectedTraitCount;
      valueCounts, selectedTraitCount :=
        CountPairs(valueCounts, AttrsOf(data[i], attributeKey), selectedTraitTypes, Pairs(AllEntries(data[..i], attributeKey)));
      FrequenciesSnoc(SelectedCounts(data[..i], attributeKey, selectedTraitTypes), selectedTraitCount);
      var c := if selectedTraitCount in countCounts then countCounts[selectedTraitCount] else 0;
      countCounts := countCounts[selectedTraitCount := c + 1];
      i := i + 1;
    }
    assert data[..i] == data;
  }

  /** Taking one more record adds its pairs and its selected count. */
  lemma RecordStep(data: seq<Item>, key: string, selected: seq<string>, i: nat)
    requires i < |data|
    ensures Pairs(AllEntries(data[..i + 1], key)) == Pairs(AllEntries(data[..i], key)) + Pairs(AttrsOf(data[i], key))
    ensures SelectedCounts(data[..i + 1], key, selected)
      == SelectedCounts(data[..i], key, selected) + [SelectedCount(Pairs(AttrsOf(data[i], key)), selected)]
  {
    assert data[..i + 1] == data[..i] + [data[i]];
    RecordPairs(data[..i], data[i], key);
    RecordSelectedCount(data[..i], data[i], key, selected);
  }

  lemma RecordPairs(data: seq<Item>, item: Item, key: string)
    ensures Pairs(AllEntries(data + [item], key)) == Pairs(AllEntries(data, key)) + Pairs(AttrsOf(item, key))
  {
    AllEntriesSnoc(data, item, key);
    PairsAppend(AllEntries(data, key), AttrsOf(item, key));
  }

  lemma RecordSelectedCount(data: seq<Item>, item: Item, key: string, selected: seq<string>)
    ensures SelectedCounts(data + [item], key, selected)
      == SelectedCounts(data, key, selected) + [SelectedCount(Pairs(AttrsOf(item, key)), selected)]
  {
  }

  /** A pair has a count exactly when it occurs, and then it is its number of
      occurrences, at least one. */
  lemma FrequenciesMeaning<T>(xs: seq<T>, x: T)
    ensures x in Frequencies(xs) <==> x in xs
    ensures x in Frequencies(xs) ==> Frequencies(xs)[x] == multiset(xs)[x] >= 1
  {
  }

  /** The sum of `m[k]` over `k < bound`, absent keys counting 0. */
  function SumBelow(m: map<nat, nat>, bound: nat): nat {
    if bound == 0 then 0 else SumBelow(m, bound - 1) + if bound - 1 in m then m[bound - 1] else 0
  }

  lemma {:induction false} SumBelowInc(m: map<nat, nat>, x: nat, bound: nat)
    ensures SumBelow(Inc(m, x), bound) == SumBelow(m, bound) + if x < bound then 1 else 0
  {
    if bound > 0 {
      SumBelowInc(m, x, bound - 1);
    }
  }

  /** The `trait_count` histogram accounts for every record once: summed over all
      counts below any bound above every count, it is the number of records. */
  lemma {:induction false} HistogramTotal(counts: seq<nat>, bound: nat)
    requires forall k :: 0 <= k < |counts| ==> counts[k] < bound
    ensures SumBelow(Frequencies(counts), bound) == |counts|
  {
    if counts == [] {
      assert Frequencies(counts) == map[];
      assert forall b: nat :: SumBelow(map[], b) == 0 by {
        forall b: nat ensures SumBelow(map[], b) == 0 { ZeroSum(b); }
      }
    } else {
      var init := counts[..|counts| - 1];
      var last := counts[|counts| - 1];
      HistogramTotal(init, bound);
      assert counts == init + [last];
      FrequenciesSnoc(init, last);
      SumBelowInc(Frequencies(init), last, bound);
    }
  }

  lemma {:induction false} ZeroSum(b: nat)
    ensures SumBelow(map[], b) == 0
  {
    if b > 0 { ZeroSum(b - 1); }
  }

  /** A record's pairs are among the pairs counted over all records. */
  lemma {:induction false} RecordPairsCounted(data: seq<Item>, key: string, i: nat)
    requires i < |data|
    ensures multiset(Pairs(AttrsOf(data[i], key))) <= multiset(Pairs(AllEntries(data, key)))
  {
    var init := data[..|data| - 1];
    assert data == init + [data[|data| - 1]];
    AllEntriesSnoc(init, data[|data| - 1], key);
    PairsAppend(AllEntries(init, key), AttrsOf(data[|data| - 1], key));
    if i < |data| - 1 {
      RecordPairsCounted(init, key, i);
      assert init[i] == data[i];
    }
  }
}
