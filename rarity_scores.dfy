/** Pass 2 of the rarity engine (components/rarity/utils.ts:340-415): each record's
    breakdown of per-trait scores and its total score. A trait value seen `c`
    times among `n` records scores `n / c`. */
module RarityScores {
  import opened Wrappers
  import opened Seqs
  import opened JsValues
  import opened Ordering
  import opened TraitEntries
  import opened RarityCounts

  /** One line of a record's breakdown. `value` is the trait's value, or for
      `trait_count` the record's number of selected entries. */
  datatype TraitScore = TraitScore(value: Value, rarityScore: real, count: nat, percentage: real)

  /** One property of a record's `traits` object. */
  datatype TraitLine = TraitLine(traitType: string, score: TraitScore)

  /** `NFTWithRarity`: the record, its position in the input, its total score,
      its rank (0 until ranked) and its breakdown. */
  datatype ScoredItem = ScoredItem(item: Item, index: nat, rarityScore: real, rank: nat, traits: seq<TraitLine>)

  /** The key of the synthetic line counting a record's selected entries. */
  const TraitCountKey := "trait_count"

  /** The line of a value seen `count` times among `n` records. */
  function Score(value: Value, n: nat, count: nat): TraitScore
    requires n > 0 && count > 0
  {
    TraitScore(value, n as real / count as real, count, (count as real / n as real) * 100.0)
  }

  /** `traits[t] = s`: the line is replaced in place when `t` is present and
      appended otherwise. */
  function Assign(traits: seq<TraitLine>, t: string, s: TraitScore): seq<TraitLine> {
    if traits == [] then [TraitLine(t, s)]
    else if traits[0].traitType == t then [TraitLine(t, s)] + traits[1..]
    else [traits[0]] + Assign(traits[1..], t, s)
  }

  /** `traits[t]`. */
  function Lookup(traits: seq<TraitLine>, t: string): Option<TraitScore> {
    if traits == [] then None
    else if traits[0].traitType == t then Some(traits[0].score)
    else Lookup(traits[1..], t)
  }

  /** After `traits[t] = s`, `traits[t]` is `s` and every other line reads as before. */
  lemma {:induction false} AssignLookup(traits: seq<TraitLine>, t: string, s: TraitScore)
    ensures Lookup(Assign(traits, t, s), t) == Some(s)
    ensures forall u :: u != t ==> Lookup(Assign(traits, t, s), u) == Lookup(traits, u)
  {
    if traits != [] && traits[0].traitType != t {
      AssignLookup(traits[1..], t, s);
    }
  }

  /** Every pair has a positive count. */
  predicate Covered(ps: seq<Pair>, valueCounts: map<Pair, nat>) {
    ps == [] || (Covered(ps[..|ps| - 1], valueCounts) && ps[|ps| - 1] in valueCounts && valueCounts[ps[|ps| - 1]] > 0)
  }

  lemma {:induction false} CoveredMembers(ps: seq<Pair>, valueCounts: map<Pair, nat>)
    ensures Covered(ps, valueCounts) <==> forall p :: p in ps ==> p in valueCounts && valueCounts[p] > 0
  {
    if ps != [] {
      var init := ps[..|ps| - 1];
      CoveredMembers(init, valueCounts);
      assert ps == init + [ps[|ps| - 1]];
    }
  }

  lemma {:induction false} CoveredPrefix(a: seq<Pair>, b: seq<Pair>, valueCounts: map<Pair, nat>)
    requires Covered(a + b, valueCounts)
    ensures Covered(a, valueCounts)
  {
    if b == [] {
      assert a + b == a;
    } else {
      assert (a + b)[..|a + b| - 1] == a + b[..|b| - 1];
      CoveredPrefix(a, b[..|b| - 1], valueCounts);
    }
  }

  /** A record's breakdown, total and selected count while its entries are read. */
  datatype Scoring = Scoring(traits: seq<TraitLine>, total: real, selectedTraitCount: nat)

  /** One pair read: its line is written, and when its type is selected its
      score is added to the total and it is counted. */
  function ScoreStep(st: Scoring, p: Pair, count: nat, n: nat, selected: seq<string>): Scoring
    requires n > 0 && count > 0
  {
    var s := Score(Str(p.1), n, count);
    if p.0 in selected then Scoring(Assign(st.traits, p.0, s), st.total + s.rarityScore, st.selectedTraitCount + 1)
    else Scoring(Assign(st.traits, p.0, s), st.total, st.selectedTraitCount)
  }

  /** The pairs of a record read front to back. */
  function ScorePairs(ps: seq<Pair>, valueCounts: map<Pair, nat>, n: nat, selected: seq<string>): Scoring
    requires n > 0 && Covered(ps, valueCounts)
  {
    if ps == [] then Scoring([], 0.0, 0)
    else
      var last := ps[|ps| - 1];
      ScoreStep(ScorePairs(ps[..|ps| - 1], valueCounts, n, selected), last, valueCounts[last], n, selected)
  }

  /** The scored record: the breakdown of its pairs with the `trait_count` line
      written last, and the total of its selected scores plus the `trait_count` score. */
  function Scored(item: Item, index: nat, ps: seq<Pair>, valueCounts: map<Pair, nat>, countCounts: map<nat, nat>,
                  n: nat, selected: seq<string>): ScoredItem
    requires n > 0 && Covered(ps, valueCounts)
    requires SelectedCount(ps, selected) in countCounts && countCounts[SelectedCount(ps, selected)] > 0
  {
    var st := ScorePairs(ps, valueCounts, n, selected);
    ScorePairsCount(ps, valueCounts, n, selected);
    var k := st.selectedTraitCount;
    var countScore := Score(Num(k), n, countCounts[k]);
    ScoredItem(item, index, st.total + countScore.rarityScore, 0, Assign(st.traits, TraitCountKey, countScore))
  }

  /** The counter of selected pairs is `SelectedCount`. */
  lemma {:induction false} ScorePairsCount(ps: seq<Pair>, valueCounts: map<Pair, nat>, n: nat, selected: seq<string>)
    requires n > 0 && Covered(ps, valueCounts)
    ensures ScorePairs(ps, valueCounts, n, selected).selectedTraitCount == SelectedCount(ps, selected)
  {
    if ps != [] {
      ScorePairsCount(ps[..|ps| - 1], valueCounts, n, selected);
    }
  }

  /** The pass 2 result for record `i`, scored against the counts of pass 1. */
  function ItemResult(data: seq<Item>, key: string, selected: seq<string>, i: nat): ScoredItem
    requires i < |data|
  {
    RecordCovered(data, key, selected, i);
    Scored(data[i], i, Pairs(AttrsOf(data[i], key)), Frequencies(Pairs(AllEntries(data, key))),
           Frequencies(SelectedCounts(data, key, selected)), |data|, selected)
  }

  lemma ItemResultScored(data: seq<Item>, key: string, selected: seq<string>, i: nat)
    requires i < |data|
    ensures var ps := Pairs(AttrsOf(data[i], key));
      var vc := Frequencies(Pairs(AllEntries(data, key)));
      var cc := Frequencies(SelectedCounts(data, key, selected));
      && Covered(ps, vc) && SelectedCount(ps, selected) in cc && cc[SelectedCount(ps, selected)] > 0
      && ItemResult(data, key, selected, i) == Scored(data[i], i, ps, vc, cc, |data|, selected)
  {
    RecordCovered(data, key, selected, i);
  }

  /** Pass 1 counted every pair of every record, and every record's selected count. */
  lemma RecordCovered(data: seq<Item>, key: string, selected: seq<string>, i: nat)
    requires i < |data|
    ensures Covered(Pairs(AttrsOf(data[i], key)), Frequencies(Pairs(AllEntries(data, key))))
    ensures var k := SelectedCount(Pairs(AttrsOf(data[i], key)), selected);
      k in Frequencies(SelectedCounts(data, key, selected)) && Frequencies(SelectedCounts(data, key, selected))[k] > 0
  {
    var ps := Pairs(AttrsOf(data[i], key));
    var all := Pairs(AllEntries(data, key));
    RecordPairsCounted(data, key, i);
    forall p | p in ps ensures p in Frequencies(all) && Frequencies(all)[p] > 0 {
      assert p in multiset(ps);
    }
    CoveredMembers(ps, Frequencies(all));
    var counts := SelectedCounts(data, key, selected);
    assert counts[i] == SelectedCount(ps, selected);
    assert counts[i] in multiset(counts);
  }

  /** The trait types of the breakdown lines, in order. */
  function LineTypes(traits: seq<TraitLine>): seq<string> {
    if traits == [] then [] else [traits[0].traitType] + LineTypes(traits[1..])
  }

  /** The types of the pairs, in order, repeats kept. */
  function TypesOf(ps: seq<Pair>): seq<string> {
    if ps == [] then [] else TypesOf(ps[..|ps| - 1]) + [ps[|ps| - 1].0]
  }

  /** Writing a line adds its type at the end unless the type already has a line. */
  lemma {:induction false} AssignTypes(traits: seq<TraitLine>, t: string, s: TraitScore)
    ensures LineTypes(Assign(traits, t, s)) ==
      if t in LineTypes(traits) then LineTypes(traits) else LineTypes(traits) + [t]
  {
    if traits != [] {
      var rest := traits[1..];
      if traits[0].traitType == t {
        assert ([TraitLine(t, s)] + rest)[1..] == rest;
      } else {
        AssignTypes(rest, t, s);
        assert ([traits[0]] + Assign(rest, t, s))[1..] == Assign(rest, t, s);
      }
    }
  }

  /** The breakdown has one line per type read, in first-seen order. */
  lemma {:induction false} ScorePairsTypes(ps: seq<Pair>, valueCounts: map<Pair, nat>, n: nat, selected: seq<string>)
    requires n > 0 && Covered(ps, valueCounts)
    ensures LineTypes(ScorePairs(ps, valueCounts, n, selected).traits) == Distinct(TypesOf(ps))
  {
    if ps != [] {
      var init, last := ps[..|ps| - 1], ps[|ps| - 1];
      ScorePairsTypes(init, valueCounts, n, selected);
      var before := ScorePairs(init, valueCounts, n, selected);
      AssignTypes(before.traits, last.0, Score(Str(last.1), n, valueCounts[last]));
      DistinctSnoc(TypesOf(init), last.0);
      DistinctSpec(TypesOf(init));
    }
  }

  /** The value of the last pair of type `t`, if any. */
  function LastValue(ps: seq<Pair>, t: string): Option<string> {
    if ps == [] then None
    else if ps[|ps| - 1].0 == t then Some(ps[|ps| - 1].1)
    else LastValue(ps[..|ps| - 1], t)
  }

  /** `LastValue` finds the value of the last pair of type `t`, and nothing
      exactly when no pair has type `t`. */
  lemma {:induction false} LastValueSpec(ps: seq<Pair>, t: string)
    ensures LastValue(ps, t).None? <==> t !in TypesOf(ps)
    ensures LastValue(ps, t).Some? ==>
      exists i :: 0 <= i < |ps| && ps[i] == (t, LastValue(ps, t).value) && forall j :: i < j < |ps| ==> ps[j].0 != t
  {
    if ps != [] {
      var init, last := ps[..|ps| - 1], ps[|ps| - 1];
      LastValueSpec(init, t);
      assert TypesOf(ps) == TypesOf(init) + [last.0];
      if last.0 == t {
        assert ps[|ps| - 1] == (t, LastValue(ps, t).value);
      } else if LastValue(init, t).Some? {
        var i :| 0 <= i < |init| && init[i] == (t, LastValue(init, t).value)
          && forall j :: i < j < |init| ==> init[j].0 != t;
        assert ps[i] == init[i];
        assert forall j :: i < j < |ps| ==> ps[j].0 != t;
      }
    }
  }

  /** The line of type `t` holds the score of the last pair of that type. */
  lemma {:induction false} ScorePairsLookup(ps: seq<Pair>, valueCounts: map<Pair, nat>, n: nat, selected: seq<string>, t: string)
    requires n > 0 && Covered(ps, valueCounts)
    ensures LastValue(ps, t).None? ==> Lookup(ScorePairs(ps, valueCounts, n, selected).traits, t) == None
    ensures LastValue(ps, t).Some? ==>
      && (t, LastValue(ps, t).value) in ps
      && (t, LastValue(ps, t).value) in valueCounts && valueCounts[(t, LastValue(ps, t).value)] > 0
      && Lookup(ScorePairs(ps, valueCounts, n, selected).traits, t)
         == Some(Score(Str(LastValue(ps, t).value), n, valueCounts[(t, LastValue(ps, t).value)]))
  {
    if ps != [] {
      var init, last := ps[..|ps| - 1], ps[|ps| - 1];
      assert ps == init + [last];
      CoveredMembers(ps, valueCounts);
      ScorePairsLookup(init, valueCounts, n, selected, t);
      var before := ScorePairs(init, valueCounts, n, selected);
      AssignLookup(before.traits, last.0, Score(Str(last.1), n, valueCounts[last]));
    }
  }

  /** The sum of `n / count` over the pairs whose type is selected, repeats included. */
  function SelectedSum(ps: seq<Pair>, valueCounts: map<Pair, nat>, n: nat, selected: seq<string>): real
    requires n > 0 && Covered(ps, valueCounts)
  {
    if ps == [] then 0.0
    else
      var last := ps[|ps| - 1];
      SelectedSum(ps[..|ps| - 1], valueCounts, n, selected)
        + if last.0 in selected then n as real / valueCounts[last] as real else 0.0
  }

  /** The running total is the selected sum; unselected pairs add nothing. */
  lemma {:induction false} ScorePairsTotal(ps: seq<Pair>, valueCounts: map<Pair, nat>, n: nat, selected: seq<string>)
    requires n > 0 && Covered(ps, valueCounts)
    ensures ScorePairs(ps, valueCounts, n, selected).total == SelectedSum(ps, valueCounts, n, selected)
  {
    if ps != [] {
      ScorePairsTotal(ps[..|ps| - 1], valueCounts, n, selected);
    }
  }

  /** Every line's score is `n / count` for a positive count, and its
      percentage `count / n * 100`. */
  ghost predicate WellScored(traits: seq<TraitLine>, n: nat)
    requires n > 0
  {
    forall l :: l in traits ==> l.score.count > 0 && l.score == Score(l.score.value, n, l.score.count)
  }

  lemma {:induction false} AssignWellScored(traits: seq<TraitLine>, t: string, s: TraitScore, n: nat)
    requires n > 0 && WellScored(traits, n) && s.count > 0 && s == Score(s.value, n, s.count)
    ensures WellScored(Assign(traits, t, s), n)
  {
    if traits != [] && traits[0].traitType != t {
      AssignWellScored(traits[1..], t, s, n);
      forall l | l in Assign(traits, t, s) ensures l.score.count > 0 && l.score == Score(l.score.value, n, l.score.count) {
        if l != traits[0] {
          assert l in Assign(traits[1..], t, s);
        }
      }
    } else if traits != [] {
      forall l | l in Assign(traits, t, s) ensures l.score.count > 0 && l.score == Score(l.score.value, n, l.score.count) {
        if l != TraitLine(t, s) {
          assert l in traits[1..];
        }
      }
    }
  }

  lemma {:induction false} ScorePairsWellScored(ps: seq<Pair>, valueCounts: map<Pair, nat>, n: nat, selected: seq<string>)
    requires n > 0 && Covered(ps, valueCounts)
    ensures WellScored(ScorePairs(ps, valueCounts, n, selected).traits, n)
  {
    if ps != [] {
      var init, last := ps[..|ps| - 1], ps[|ps| - 1];
      ScorePairsWellScored(init, valueCounts, n, selected);
      AssignWellScored(ScorePairs(init, valueCounts, n, selected).traits, last.0, Score(Str(last.1), n, valueCounts[last]), n);
    }
  }

  /** A line's score times its count is the number of records, and its score
      times its percentage is 100. */
  lemma ScoreLaw(value: Value, n: nat, count: nat)
    requires n > 0 && count > 0
    ensures Score(value, n, count).rarityScore * count as real == n as real
    ensures Score(value, n, count).rarityScore * Score(value, n, count).percentage == 100.0
    ensures Score(value, n, count).rarityScore > 0.0 && Score(value, n, count).percentage > 0.0
  {
    var c, m := count as real, n as real;
    assert (m / c) * c == m;
    assert (m / c) * ((c / m) * 100.0) == 100.0;
  }

  /** What a scored record holds: its `trait_count` line scores its number of
      selected pairs, every other line is the breakdown of its pairs, its lines
      follow the first-seen order of their types with `trait_count` last unless
      a pair already had that type, and its total is the selected sum plus the
      `trait_count` score. */
  lemma ScoredFacts(item: Item, index: nat, ps: seq<Pair>, valueCounts: map<Pair, nat>, countCounts: map<nat, nat>,
                    n: nat, selected: seq<string>, t: string)
    requires n > 0 && Covered(ps, valueCounts)
    requires SelectedCount(ps, selected) in countCounts && countCounts[SelectedCount(ps, selected)] > 0
    ensures var r := Scored(item, index, ps, valueCounts, countCounts, n, selected);
      var k := SelectedCount(ps, selected);
      && r.item == item && r.index == index && r.rank == 0
      && Lookup(r.traits, TraitCountKey) == Some(Score(Num(k), n, countCounts[k]))
      && (t != TraitCountKey ==> Lookup(r.traits, t) == Lookup(ScorePairs(ps, valueCounts, n, selected).traits, t))
      && r.rarityScore == SelectedSum(ps, valueCounts, n, selected) + n as real / countCounts[k] as real
      && LineTypes(r.traits) == Distinct(TypesOf(ps) + [TraitCountKey])
      && WellScored(r.traits, n)
  {
    var st := ScorePairs(ps, valueCounts, n, selected);
    ScorePairsCount(ps, valueCounts, n, selected);
    var k := st.selectedTraitCount;
    var countScore := Score(Num(k), n, countCounts[k]);
    AssignLookup(st.traits, TraitCountKey, countScore);
    ScorePairsTotal(ps, valueCounts, n, selected);
    ScorePairsTypes(ps, valueCounts, n, selected);
    AssignTypes(st.traits, TraitCountKey, countScore);
    DistinctSnoc(TypesOf(ps), TraitCountKey);
    DistinctSpec(TypesOf(ps));
    ScorePairsWellScored(ps, valueCounts, n, selected);
    AssignWellScored(st.traits, TraitCountKey, countScore, n);
  }

  /** Record `i`'s `trait_count` line: the number `k` of its selected entries,
      scored by how many records have exactly `k`. */
  lemma ItemCountLine(data: seq<Item>, key: string, selected: seq<string>, i: nat)
    requires i < |data|
    ensures var k := SelectedCount(Pairs(AttrsOf(data[i], key)), selected);
      var records := multiset(SelectedCounts(data, key, selected))[k];
      records >= 1 && Lookup(ItemResult(data, key, selected, i).traits, TraitCountKey) == Some(Score(Num(k), |data|, records))
  {
    RecordCovered(data, key, selected, i);
    var ps := Pairs(AttrsOf(data[i], key));
    var counts := SelectedCounts(data, key, selected);
    FrequenciesMeaning(counts, SelectedCount(ps, selected));
    ScoredFacts(data[i], i, ps, Frequencies(Pairs(AllEntries(data, key))), Frequencies(counts), |data|, selected, TraitCountKey);
  }

  /** Record `i`'s line of trait type `t` (other than `trait_count`): absent
      when the record has no pair of type `t` (see `LastValueSpec`), and
      otherwise holding the last such value, scored by how often that (type, value) pair occurs over all records. */
  lemma ItemTraitLine(data: seq<Item>, key: string, selected: seq<string>, i: nat, t: string)
    requires i < |data| && t != TraitCountKey
    ensures var ps := Pairs(AttrsOf(data[i], key));
      var line := Lookup(ItemResult(data, key, selected, i).traits, t);
      && (LastValue(ps, t).None? ==> line.None?)
      && (LastValue(ps, t).Some? ==>
           var v := LastValue(ps, t).value;
           var count := multiset(Pairs(AllEntries(data, key)))[(t, v)];
           count >= 1 && line == Some(Score(Str(v), |data|, count)))
  {
    RecordCovered(data, key, selected, i);
    var ps := Pairs(AttrsOf(data[i], key));
    var all := Pairs(AllEntries(data, key));
    var vc := Frequencies(all);
    ScoredFacts(data[i], i, ps, vc, Frequencies(SelectedCounts(data, key, selected)), |data|, selected, t);
    ScorePairsLookup(ps, vc, |data|, selected, t);
    LastValueSpec(ps, t);
    if LastValue(ps, t).Some? {
      FrequenciesMeaning(all, (t, LastValue(ps, t).value));
    }
  }

  /** Record `i`'s total: `n / count` summed over its entries of selected types,
      repeats included, plus the score of its `trait_count` line. */
  lemma ItemTotal(data: seq<Item>, key: string, selected: seq<string>, i: nat)
    requires i < |data|
    ensures var ps := Pairs(AttrsOf(data[i], key));
      var vc := Frequencies(Pairs(AllEntries(data, key)));
      var k := SelectedCount(ps, selected);
      var records := multiset(SelectedCounts(data, key, selected))[k];
      && Covered(ps, vc) && records >= 1
      && ItemResult(data, key, selected, i).rarityScore == SelectedSum(ps, vc, |data|, selected) + |data| as real / records as real
  {
    RecordCovered(data, key, selected, i);
    var ps := Pairs(AttrsOf(data[i], key));
    var counts := SelectedCounts(data, key, selected);
    FrequenciesMeaning(counts, SelectedCount(ps, selected));
    ScoredFacts(data[i], i, ps, Frequencies(Pairs(AllEntries(data, key))), Frequencies(counts), |data|, selected, TraitCountKey);
  }

  /** Record `i`'s lines: one per trait type of its entries in first-seen
      order, then `trait_count`; each scores `n / count` with a positive count. */
  lemma ItemLines(data: seq<Item>, key: string, selected: seq<string>, i: nat)
    requires i < |data|
    ensures var r := ItemResult(data, key, selected, i);
      && r.item == data[i] && r.index == i && r.rank == 0
      && LineTypes(r.traits) == Distinct(TypesOf(Pairs(AttrsOf(data[i], key))) + [TraitCountKey])
      && WellScored(r.traits, |data|)
  {
    RecordCovered(data, key, selected, i);
    ScoredFacts(data[i], i, Pairs(AttrsOf(data[i], key)), Frequencies(Pairs(AllEntries(data, key))),
                Frequencies(SelectedCounts(data, key, selected)), |data|, selected, TraitCountKey);
  }

  /** Two entries of one selected type both add to the total, while the
      breakdown keeps only the later value. */
  lemma RepeatedTypeQuirk()
    ensures var ps := [("Hat", "Red"), ("Hat", "Blue")];
      var vc := map[("Hat", "Red") := 1, ("Hat", "Blue") := 1];
      var st := ScorePairs(ps, vc, 1, ["Hat"]);
      st.total == 2.0 && st.selectedTraitCount == 2 && st.traits == [TraitLine("Hat", Score(Str("Blue"), 1, 1))]
  {
    var ps := [("Hat", "Red"), ("Hat", "Blue")];
    assert ps[..1] == [("Hat", "Red")];
    assert ps[..1][..0] == [];
  }

  /** The records before ranking: one result per record, in input order. */
  function Unranked(data: seq<Item>, key: string, selected: seq<string>): seq<ScoredItem> {
    seq(|data|, i requires 0 <= i < |data| => ItemResult(data, key, selected, i))
  }

  /** The pair read from an entry, as a list of zero or one pairs. */
  function OptList(pair: Option<Pair>): seq<Pair> {
    match pair { case Some(p) => [p] case None => [] }
  }

  /** Scoring one more pair is one more `ScoreStep`, with that pair's count. */
  lemma ScorePairsSnoc(before: seq<Pair>, p: Pair, valueCounts: map<Pair, nat>, n: nat, selected: seq<string>)
    requires n > 0 && Covered(before + [p], valueCounts)
    ensures Covered(before, valueCounts) && p in valueCounts && valueCounts[p] > 0
    ensures ScorePairs(before + [p], valueCounts, n, selected) ==
      ScoreStep(ScorePairs(before, valueCounts, n, selected), p, valueCounts[p], n, selected)
  {
    var ps := before + [p];
    assert ps[..|ps| - 1] == before && ps[|ps| - 1] == p;
  }

  /** The body of the inner `attributes.forEach` of pass 2 for an entry read as
      `pair`: the scoring of the pairs before it is extended by that pair. */
  method ScoreEntry(traits: seq<TraitLine>, total: real, selectedTraitCount: nat, pair: Option<Pair>,
                    ghost before: seq<Pair>, valueCounts: map<Pair, nat>, n: nat, selectedTraitTypes: seq<string>)
    returns (traits': seq<TraitLine>, total': real, selectedTraitCount': nat)
    requires n > 0 && Covered(before, valueCounts) && Covered(before + OptList(pair), valueCounts)
    requires Scoring(traits, total, selectedTraitCount) == ScorePairs(before, valueCounts, n, selectedTraitTypes)
    ensures Scoring(traits', total', selectedTraitCount') ==
      ScorePairs(before + OptList(pair), valueCounts, n, selectedTraitTypes)
  {
    traits', total', selectedTraitCount' := traits, total, selectedTraitCount;
    if pair.Some? {
      var p := pair.value;
      ScorePairsSnoc(before, p, valueCounts, n, selectedTraitTypes);
      var count := valueCounts[p];
      var rarityScore := n as real / count as real;
      var percentage := (count as real / n as real) * 100.0;
      traits' := Assign(traits, p.0, TraitScore(Str(p.1), rarityScore, count, percentage));
      if p.0 in selectedTraitTypes {
        total' := total' + rarityScore;
        selectedTraitCount' := selectedTraitCount' + 1;
      }
    } else {
      assert before + [] == before;
    }
  }

  /** The inner `attributes.forEach` of pass 2: a record's entries read in order. */
  method ScoreAttributes(attributes: seq<Value>, n: nat, valueCounts: map<Pair, nat>, selectedTraitTypes: seq<string>)
    returns (traits: seq<TraitLine>, total: real, selectedTraitCount: nat)
    requires n > 0 && Covered(Pairs(attributes), valueCounts)
    ensures Scoring(traits, total, selectedTraitCount) == ScorePairs(Pairs(attributes), valueCounts, n, selectedTraitTypes)
  {
    traits, total, selectedTraitCount := [], 0.0, 0;
    var j := 0;
    PrefixCovered(attributes, 0, valueCounts);
    while j < |attributes|
      invariant 0 <= j <= |attributes|
      invariant Covered(Pairs(attributes[..j]), valueCounts)
      invariant Scoring(traits, total, selectedTraitCount) == ScorePairs(Pairs(attributes[..j]), valueCounts, n, selectedTraitTypes)
    {
      PrefixSnoc(attributes, j);
      PrefixCovered(attributes, j + 1, valueCounts);
      var pair := ScoringPair(attributes[j]);
      traits, total, selectedTraitCount :=
        ScoreEntry(traits, total, selectedTraitCount, pair, Pairs(attributes[..j]), valueCounts, n, selectedTraitTypes);
      j := j + 1;
    }
    assert attributes[..j] == attributes;
  }

  /** One iteration of pass 2: a record scored against the counts of pass 1,
      its `trait_count` line written after its entries. */
  method ScoreRecord(item: Item, index: nat, attributeKey: string, n: nat, valueCounts: map<Pair, nat>,
                     countCounts: map<nat, nat>, selectedTraitTypes: seq<string>) returns (r: ScoredItem)
    requires n > 0 && Covered(Pairs(AttrsOf(item, attributeKey)), valueCounts)
    requires var k := SelectedCount(Pairs(AttrsOf(item, attributeKey)), selectedTraitTypes);
      k in countCounts && countCounts[k] > 0
    ensures r == Scored(item, index, Pairs(AttrsOf(item, attributeKey)), valueCounts, countCounts, n, selectedTraitTypes)
  {
    ghost var ps := Pairs(AttrsOf(item, attributeKey));
    var traits, total, selectedTraitCount := ScoreAttributes(AttrsOf(item, attributeKey), n, valueCounts, selectedTraitTypes);
    ScorePairsCount(ps, valueCounts, n, selectedTraitTypes);
    var countScore := Score(Num(selectedTraitCount), n, countCounts[selectedTraitCount]);
    traits := Assign(traits, TraitCountKey, countScore);
    total := total + countScore.rarityScore;
    r := ScoredItem(item, index, total, 0, traits);
  }

  /** One more entry read: its pair, if it has one, comes last. */
  lemma PrefixSnoc(attributes: seq<Value>, j: nat)
    requires j < |attributes|
    ensures Pairs(attributes[..j + 1]) == Pairs(attributes[..j]) + OptList(ScoringPair(attributes[j]))
  {
    assert attributes[..j + 1] == attributes[..j] + [attributes[j]];
    PairsSnoc(attributes[..j], attributes[j]);
  }

  /** The pairs of a prefix of a covered record are covered. */
  lemma PrefixCovered(attributes: seq<Value>, j: nat, valueCounts: map<Pair, nat>)
    requires j <= |attributes| && Covered(Pairs(attributes), valueCounts)
    ensures Covered(Pairs(attributes[..j]), valueCounts)
  {
    var front, back := attributes[..j], attributes[j..];
    assert front + back == attributes;
    PairsAppend(front, back);
    CoveredPrefix(Pairs(front), Pairs(back), valueCounts);
  }

  /** Pass 2 of `calculateRarity`: every record scored, in input order. */
  method ScoreRecords(data: seq<Item>, attributeKey: string, selectedTraitTypes: seq<string>,
                      valueCounts: map<Pair, nat>, countCounts: map<nat, nat>) returns (results: seq<ScoredItem>)
    requires valueCounts == Frequencies(Pairs(AllEntries(data, attributeKey)))
    requires countCounts == Frequencies(SelectedCounts(data, attributeKey, selectedTraitTypes))
    ensures results == Unranked(data, attributeKey, selectedTraitTypes)
  {
    results := [];
    var i := 0;
    while i < |data|
      invariant 0 <= i <= |data|
      invariant results == Unranked(data, attributeKey, selectedTraitTypes)[..i]
    {
      RecordCovered(data, attributeKey, selectedTraitTypes, i);
      var r := ScoreRecord(data[i], i, attributeKey, |data|, valueCounts, countCounts, selectedTraitTypes);
      ItemResultScored(data, attributeKey, selectedTraitTypes, i);
      assert r == ItemResult(data, attributeKey, selectedTraitTypes, i);
      SliceSnoc(Unranked(data, attributeKey, selectedTraitTypes), i);
      results := results + [r];
      i := i + 1;
    }
    assert Unranked(data, attributeKey, selectedTraitTypes)[..i] == Unranked(data, attributeKey, selectedTraitTypes);
  }
}
