/** Phase 3 of the rarity engine (components/rarity/utils.ts:425-438): the
    scored records sorted by total score, largest first, and ranked so that
    equal scores share a rank and the next rank skips over them (1, 1, 3). */
module Ranking {
  import opened JsValues
  import opened Seqs
  import opened Ordering
  import opened TraitEntries
  import opened RarityCounts
  import opened RarityScores

  function ScoreOf(x: ScoredItem): real {
    x.rarityScore
  }

  function IndexOf(x: ScoredItem): int {
    x.index
  }

  function Scores(xs: seq<ScoredItem>): seq<real> {
    seq(|xs|, i requires 0 <= i < |xs| => xs[i].rarityScore)
  }

  /** The ranks the loop assigns: 1 at the front, `i + 1` at a position `i`
      whose score differs from the one before, and otherwise the rank before. */
  function Ranks(scores: seq<real>): (r: seq<nat>)
    ensures |r| == |scores|
  {
    if scores == [] then []
    else
      var i := |scores| - 1;
      var before := Ranks(scores[..i]);
      before + [if i == 0 then 1 else if scores[i] != scores[i - 1] then i + 1 else before[i - 1]]
  }

  /** The ranks of a prefix are a prefix of the ranks. */
  lemma {:induction false} RanksPrefix(scores: seq<real>, k: nat)
    requires k <= |scores|
    ensures Ranks(scores[..k]) == Ranks(scores)[..k]
    decreases |scores| - k
  {
    if k < |scores| {
      RanksPrefix(scores, k + 1);
      assert scores[..k + 1][..k] == scores[..k];
    } else {
      assert scores[..k] == scores;
    }
  }

  /** The rank at `i` follows from the rank at `i - 1` as in the loop. */
  lemma RanksStep(scores: seq<real>, i: nat)
    requires i < |scores|
    ensures Ranks(scores)[i] == if i == 0 then 1 else if scores[i] != scores[i - 1] then i + 1 else Ranks(scores)[i - 1]
  {
    var s := scores[..i + 1];
    assert s[..i] == scores[..i];
    var before := Ranks(scores[..i]);
    assert Ranks(s) == before + [if i == 0 then 1 else if s[i] != s[i - 1] then i + 1 else before[i - 1]];
    RanksPrefix(scores, i + 1);
    RanksPrefix(scores, i);
    assert Ranks(scores)[i] == Ranks(s)[i];
    assert i > 0 ==> Ranks(scores)[i - 1] == before[i - 1];
  }

  /** A record with its rank set. */
  function WithRank(x: ScoredItem, rank: nat): ScoredItem {
    x.(rank := rank)
  }

  /** Every record with its rank set; nothing else changes. */
  function Ranked(xs: seq<ScoredItem>): seq<ScoredItem> {
    var ranks := Ranks(Scores(xs));
    seq(|xs|, i requires 0 <= i < |xs| => WithRank(xs[i], ranks[i]))
  }

  /** The ranking loop: `results[i].rank` is set front to back, `currentRank`
      moving to `i + 1` whenever the score changes. */
  method AssignRanks(results: array<ScoredItem>)
    modifies results
    ensures results[..] == Ranked(old(results[..]))
  {
    ghost var original := results[..];
    ghost var scores := Scores(original);
    ghost var ranks := Ranks(scores);
    var currentRank := 1;
    var i := 0;
    while i < results.Length
      invariant 0 <= i <= results.Length == |ranks|
      invariant forall j :: 0 <= j < i ==> results[j] == WithRank(original[j], ranks[j])
      invariant forall j :: i <= j < results.Length ==> results[j] == original[j]
      invariant currentRank == if i == 0 then 1 else ranks[i - 1]
    {
      RanksStep(scores, i);
      if i > 0 && results[i].rarityScore != results[i - 1].rarityScore {
        currentRank := i + 1;
      }
      results[i] := WithRank(results[i], currentRank);
      i := i + 1;
    }
    assert results[..] == Ranked(original);
  }

  /** How many of `scores[..upto]` are strictly larger than `x`. */
  function CountAbove(scores: seq<real>, upto: nat, x: real): nat
    requires upto <= |scores|
  {
    if upto == 0 then 0
    else CountAbove(scores, upto - 1, x) + if scores[upto - 1] > x then 1 else 0
  }

  predicate Descending(scores: seq<real>) {
    forall i, j :: 0 <= i < j < |scores| ==> scores[i] >= scores[j]
  }

  lemma {:induction false} CountAboveAll(scores: seq<real>, upto: nat, x: real)
    requires upto <= |scores|
    requires forall j :: 0 <= j < upto ==> scores[j] > x
    ensures CountAbove(scores, upto, x) == upto
  {
    if upto > 0 {
      CountAboveAll(scores, upto - 1, x);
    }
  }

  lemma {:induction false} CountAboveNone(scores: seq<real>, from: nat, upto: nat, x: real)
    requires from <= upto <= |scores|
    requires forall j :: from <= j < upto ==> scores[j] <= x
    ensures CountAbove(scores, upto, x) == CountAbove(scores, from, x)
    decreases upto - from
  {
    if upto > from {
      CountAboveNone(scores, from, upto - 1, x);
    }
  }

  lemma {:induction false} CountAboveGrows(scores: seq<real>, from: nat, upto: nat, x: real)
    requires from <= upto <= |scores|
    ensures CountAbove(scores, from, x) <= CountAbove(scores, upto, x)
    decreases upto - from
  {
    if upto > from {
      CountAboveGrows(scores, from, upto - 1, x);
    }
  }

  /** On descending scores, the loop's rank is one more than the number of
      earlier scores strictly larger. */
  lemma {:induction false} RankCountsEarlier(scores: seq<real>, i: nat)
    requires Descending(scores) && i < |scores|
    ensures Ranks(scores)[i] == 1 + CountAbove(scores, i, scores[i])
  {
    RanksStep(scores, i);
    if i > 0 {
      if scores[i] != scores[i - 1] {
        CountAboveAll(scores, i, scores[i]);
      } else {
        RankCountsEarlier(scores, i - 1);
      }
    }
  }

  /** Standard competition ranking: on descending scores, a record's rank is
      one more than the number of records with a strictly larger score. */
  lemma RankCountsAbove(scores: seq<real>, i: nat)
    requires Descending(scores) && i < |scores|
    ensures Ranks(scores)[i] == 1 + CountAbove(scores, |scores|, scores[i])
  {
    RankCountsEarlier(scores, i);
    CountAboveNone(scores, i, |scores|, scores[i]);
  }

  /** The first rank is 1 and no rank exceeds the position plus one. */
  lemma {:induction false} RankBounds(scores: seq<real>, i: nat)
    requires i < |scores|
    ensures 1 <= Ranks(scores)[i] <= i + 1
    ensures i == 0 ==> Ranks(scores)[i] == 1
  {
    RanksStep(scores, i);
    if i > 0 && scores[i] == scores[i - 1] {
      RankBounds(scores, i - 1);
    }
  }

  /** On descending scores, equal scores share a rank and a larger score has
      a strictly smaller rank. */
  lemma RankOrder(scores: seq<real>, i: nat, j: nat)
    requires Descending(scores) && i < j < |scores|
    ensures scores[i] == scores[j] ==> Ranks(scores)[i] == Ranks(scores)[j]
    ensures scores[i] > scores[j] ==> Ranks(scores)[i] < Ranks(scores)[j]
  {
    RankCountsAbove(scores, i);
    RankCountsAbove(scores, j);
    if scores[i] > scores[j] {
      RankBounds(scores, i);
      RankCountsEarlier(scores, j);
      CountAboveAll(scores, i + 1, scores[j]);
      CountAboveGrows(scores, i + 1, j, scores[j]);
    }
  }

  /** Scores 10, 10, 8 are ranked 1, 1, 3. */
  lemma TiedRanksExample()
    ensures Ranks([10.0, 10.0, 8.0]) == [1, 1, 3]
  {
    var s := [10.0, 10.0, 8.0];
    assert s[..2][..1] == [10.0];
    assert s[..2] == [10.0, 10.0];
    assert [10.0][..0] == [];
  }

  /** `calculateRarity` as a value: the pass 2 results sorted by total score,
      largest first, ties kept in input order, then ranked. */
  function Rarity(data: seq<Item>, key: string, selected: seq<string>): seq<ScoredItem> {
    Ranked(SortDesc(Unranked(data, key, selected), ScoreOf))
  }

  /** `calculateRarity`: the two counting passes, the sort, and the ranking
      loop over the sorted array. */
  method CalculateRarity(data: seq<Item>, attributeKey: string, selectedTraitTypes: seq<string>)
    returns (results: seq<ScoredItem>)
    ensures results == Rarity(data, attributeKey, selectedTraitTypes)
  {
    var valueCounts, countCounts := CountOccurrences(data, attributeKey, selectedTraitTypes);
    var unranked := ScoreRecords(data, attributeKey, selectedTraitTypes, valueCounts, countCounts);
    var sorted := SortDesc(unranked, ScoreOf);
    var arr := ToArray(sorted);
    AssignRanks(arr);
    results := arr[..];
  }

  /** Ranking changes neither the scores nor the indices. */
  lemma RankedKeeps(xs: seq<ScoredItem>)
    ensures |Ranked(xs)| == |xs| && Scores(Ranked(xs)) == Scores(xs)
    ensures forall i :: 0 <= i < |xs| ==> WithRank(Ranked(xs)[i], 0) == WithRank(xs[i], 0)
  {
  }

  /** The records before ranking carry their own input position. */
  lemma UnrankedIndices(data: seq<Item>, key: string, selected: seq<string>)
    ensures |Unranked(data, key, selected)| == |data|
    ensures forall i :: 0 <= i < |data| ==>
      Unranked(data, key, selected)[i].index == i && Unranked(data, key, selected)[i].rank == 0
  {
    forall i | 0 <= i < |data|
      ensures Unranked(data, key, selected)[i].index == i && Unranked(data, key, selected)[i].rank == 0
    {
      ItemLines(data, key, selected, i);
    }
  }

  /** The records with their ranks cleared. */
  function Unrank(xs: seq<ScoredItem>): seq<ScoredItem> {
    seq(|xs|, j requires 0 <= j < |xs| => WithRank(xs[j], 0))
  }

  /** The sort keeps the pass 2 results: each sorted record is the result of
      the record at its `index`, still unranked. */
  lemma SortedResults(data: seq<Item>, key: string, selected: seq<string>)
    ensures var sorted := SortDesc(Unranked(data, key, selected), ScoreOf);
      && |sorted| == |data|
      && multiset(sorted) == multiset(Unranked(data, key, selected))
      && forall j :: 0 <= j < |sorted| ==>
           sorted[j].index < |data| && sorted[j].rank == 0 && sorted[j] == ItemResult(data, key, selected, sorted[j].index)
  {
    var u := Unranked(data, key, selected);
    var sorted := SortDesc(u, ScoreOf);
    SortDescSpec(u, ScoreOf);
    UnrankedIndices(data, key, selected);
    PermutationMembers(u, sorted);
    forall j | 0 <= j < |sorted|
      ensures sorted[j].index < |data| && sorted[j].rank == 0 && sorted[j] == ItemResult(data, key, selected, sorted[j].index)
    {
      var i :| 0 <= i < |u| && u[i] == sorted[j];
    }
  }

  /** Clearing the ranks of ranked unranked records gives them back. */
  lemma UnrankRanked(xs: seq<ScoredItem>)
    requires forall j :: 0 <= j < |xs| ==> xs[j].rank == 0
    ensures Unrank(Ranked(xs)) == xs
  {
  }

  /** Every result is the pass 2 result of the record at its `index`, with a
      rank set; each record appears exactly once. */
  lemma RarityPermutes(data: seq<Item>, key: string, selected: seq<string>)
    ensures var r := Rarity(data, key, selected);
      && |r| == |data|
      && multiset(Unrank(r)) == multiset(Unranked(data, key, selected))
      && forall j :: 0 <= j < |r| ==> r[j].index < |data| && WithRank(r[j], 0) == ItemResult(data, key, selected, r[j].index)
  {
    var sorted := SortDesc(Unranked(data, key, selected), ScoreOf);
    SortedResults(data, key, selected);
    UnrankRanked(sorted);
    RankedKeeps(sorted);
  }

  /** The results run from the largest total score to the smallest, records
      with equal scores in input order. */
  lemma RarityOrdered(data: seq<Item>, key: string, selected: seq<string>)
    ensures DescThenAsc(Rarity(data, key, selected), ScoreOf, IndexOf)
    ensures Descending(Scores(Rarity(data, key, selected)))
  {
    var u := Unranked(data, key, selected);
    var sorted := SortDesc(u, ScoreOf);
    UnrankedIndices(data, key, selected);
    SortDescStable(u, ScoreOf, IndexOf);
    RankedKeeps(sorted);
  }

  /** Each result's rank is one more than the number of results with a
      strictly larger total score; the first is ranked 1. */
  lemma RarityRanks(data: seq<Item>, key: string, selected: seq<string>, i: nat)
    requires i < |data|
    ensures var r := Rarity(data, key, selected);
      && |r| == |data|
      && r[i].rank == 1 + CountAbove(Scores(r), |r|, r[i].rarityScore)
      && (i == 0 ==> r[i].rank == 1)
  {
    RarityPermutes(data, key, selected);
    RarityOrdered(data, key, selected);
    var sorted := SortDesc(Unranked(data, key, selected), ScoreOf);
    RankedKeeps(sorted);
    RankCountsAbove(Scores(sorted), i);
    RankBounds(Scores(sorted), i);
  }
}
