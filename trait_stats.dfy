/** Trait statistics (components/rarity/utils.ts:189-238): for every trait type,
    how many entries name it, how many of those carry a value, and its distinct
    values; the types come out ordered by how often they occur. */
module TraitStats {
  import opened Wrappers
  import opened Seqs
  import opened JsValues
  import opened Ordering
  import opened TraitEntries

  datatype TraitTypeInfo = TraitTypeInfo(name: string, count: nat, uniqueValues: seq<string>, totalValues: nat)

  datatype TraitValidation = TraitValidation(traitTypes: seq<TraitTypeInfo>)

  /** How many entries name type `t`. */
  function CountOf(entries: seq<Value>, t: string): nat {
    if entries == [] then 0
    else CountOf(entries[..|entries| - 1], t) + if TypeName(entries[|entries| - 1]) == Some(t) then 1 else 0
  }

  /** The non-blank values of the entries naming type `t`, in order, repeats kept. */
  function ValuesOf(entries: seq<Value>, t: string): seq<string> {
    if entries == [] then []
    else
      var last := entries[|entries| - 1];
      ValuesOf(entries[..|entries| - 1], t)
        + if TypeName(last) == Some(t) && StatsValue(last) != "" then [StatsValue(last)] else []
  }

  /** The record kept for `t` after reading `entries`, before its values are sorted. */
  function Tally(entries: seq<Value>, t: string): TraitTypeInfo {
    TraitTypeInfo(t, CountOf(entries, t), Distinct(ValuesOf(entries, t)), |ValuesOf(entries, t)|)
  }

  /** The record after one more entry of its type with value `v` (`""` for none). */
  function Bump(info: TraitTypeInfo, v: string): TraitTypeInfo {
    if v == "" then info.(count := info.count + 1)
    else info.(count := info.count + 1, totalValues := info.totalValues + 1,
               uniqueValues := if v in info.uniqueValues then info.uniqueValues else info.uniqueValues + [v])
  }

  /** The dictionary being filled, and the order its keys were inserted in. */
  datatype Stats = Stats(order: seq<string>, info: map<string, TraitTypeInfo>)

  /** The dictionary is the one reading `done` builds. */
  ghost predicate Tallied(st: Stats, done: seq<Value>) {
    && st.order == Distinct(Names(done))
    && (forall t :: t in st.info <==> t in st.order)
    && (forall t :: t in st.info ==> st.info[t] == Tally(done, t))
  }

  /** Reading one entry: an entry with a type name creates the record for its type
      if needed and bumps it; any other entry is skipped. */
  function Step(st: Stats, e: Value): Stats {
    match TypeName(e)
    case None => st
    case Some(t) => Record(st, t, StatsValue(e))
  }

  /** An entry of type `t` with value `v` (`""` for none) read into the dictionary. */
  function Record(st: Stats, t: string, v: string): Stats {
    var base := if t in st.info then st.info[t] else TraitTypeInfo(t, 0, [], 0);
    Stats(if t in st.info then st.order else st.order + [t], st.info[t := Bump(base, v)])
  }

  /** Reading `es` front to back. */
  function Fold(st: Stats, es: seq<Value>): Stats
    decreases |es|
  {
    if es == [] then st else Fold(Step(st, es[0]), es[1..])
  }

  lemma {:induction false} FoldAppend(st: Stats, a: seq<Value>, b: seq<Value>)
    ensures Fold(st, a + b) == Fold(Fold(st, a), b)
    decreases |a|
  {
    if a == [] {
      assert a + b == b;
    } else {
      FoldAppend(Step(st, a[0]), a[1..], b);
      assert (a + b)[1..] == a[1..] + b;
    }
  }

  lemma TallySnoc(done: seq<Value>, e: Value, t: string)
    ensures Tally(done + [e], t) ==
      if TypeName(e) == Some(t) then Bump(Tally(done, t), StatsValue(e)) else Tally(done, t)
  {
    var d := done + [e];
    assert d[..|done|] == done;
    var vs := ValuesOf(done, t);
    assert CountOf(d, t) == CountOf(done, t) + if TypeName(e) == Some(t) then 1 else 0;
    if TypeName(e) == Some(t) && StatsValue(e) != "" {
      assert ValuesOf(d, t) == vs + [StatsValue(e)];
      DistinctSnoc(vs, StatsValue(e));
      DistinctSpec(vs);
    } else {
      assert ValuesOf(d, t) == vs + [];
      assert vs + [] == vs;
    }
  }

  /** A type no entry names has an empty record. */
  lemma {:induction false} AbsentTally(done: seq<Value>, t: string)
    requires t !in Names(done)
    ensures Tally(done, t) == TraitTypeInfo(t, 0, [], 0)
  {
    if done != [] {
      AbsentTally(done[..|done| - 1], t);
    }
  }

  /** Reading an entry keeps the dictionary in step with the entries read. */
  lemma StepTallied(st: Stats, done: seq<Value>, e: Value)
    requires Tallied(st, done)
    ensures Tallied(Step(st, e), done + [e])
  {
    var d := done + [e];
    assert d[..|done|] == done;
    var st' := Step(st, e);
    match TypeName(e)
    case None =>
      assert Names(d) == Names(done);
      forall u | u in st'.info ensures st'.info[u] == Tally(d, u) {
        TallySnoc(done, e, u);
      }
    case Some(t) =>
      assert Names(d) == Names(done) + [t];
      DistinctSnoc(Names(done), t);
      DistinctSpec(Names(done));
      if t !in st.info {
        AbsentTally(done, t);
      }
      forall u | u in st'.info ensures st'.info[u] == Tally(d, u) {
        TallySnoc(done, e, u);
      }
  }

  /** Reading entries one by one keeps the dictionary in step with them. */
  lemma {:induction false} FoldTallied(st: Stats, done: seq<Value>, es: seq<Value>)
    requires Tallied(st, done)
    ensures Tallied(Fold(st, es), done + es)
    decreases |es|
  {
    if es == [] {
      assert done + es == done;
    } else {
      StepTallied(st, done, es[0]);
      FoldTallied(Step(st, es[0]), done + [es[0]], es[1..]);
      MoveFirst(done, es);
    }
  }

  /** The body of the inner `attributes.forEach` of `validateTraitTypes`: one
      entry read into the dictionary. */
  method AddEntry(order: seq<string>, info: map<string, TraitTypeInfo>, attr: Value)
    returns (order': seq<string>, info': map<string, TraitTypeInfo>)
    ensures Stats(order', info') == Step(Stats(order, info), attr)
  {
    var name := TypeName(attr);
    if name.None? {
      return order, info;
    }
    order', info' := CountEntry(order, info, name.value, StatsValue(attr));
  }

  /** The dictionary updated in place for an entry of type `traitType` with value
      `value`: the record is created on first sight, then counted. */
  method CountEntry(order: seq<string>, info: map<string, TraitTypeInfo>, traitType: string, value: string)
    returns (order': seq<string>, info': map<string, TraitTypeInfo>)
    ensures Stats(order', info') == Record(Stats(order, info), traitType, value)
  {
    order', info' := order, info;
    var ti := TraitTypeInfo(traitType, 0, [], 0);
    if traitType in info' {
      ti := info'[traitType];
    } else {
      order' := order' + [traitType];
    }
    ti := ti.(count := ti.count + 1);
    if value != "" {
      ti := ti.(totalValues := ti.totalValues + 1);
      if value !in ti.uniqueValues {
        ti := ti.(uniqueValues := ti.uniqueValues + [value]);
      }
    }
    info' := info'[traitType := ti];
  }

  /** The inner `attributes.forEach` of `validateTraitTypes`: one record's entries
      read into the dictionary. */
  method TallyEntries(order: seq<string>, info: map<string, TraitTypeInfo>, attributes: seq<Value>)
    returns (order': seq<string>, info': map<string, TraitTypeInfo>)
    ensures Stats(order', info') == Fold(Stats(order, info), attributes)
  {
    order', info' := order, info;
    var j := 0;
    while j < |attributes|
      invariant 0 <= j <= |attributes|
      invariant Fold(Stats(order', info'), attributes[j..]) == Fold(Stats(order, info), attributes)
    {
      assert attributes[j..][1..] == attributes[j + 1..];
      order', info' := AddEntry(order', info', attributes[j]);
      j := j + 1;
    }
  }

  /** The outer `data.forEach` of `validateTraitTypes`: the dictionary holds, for
      every type named by an entry of a record, the record `Tally` describes. */
  method TallyRecords(data: seq<Item>, attributeKey: string) returns (order: seq<string>, info: map<string, TraitTypeInfo>)
    ensures Tallied(Stats(order, info), AllEntries(data, attributeKey))
  {
    order, info := [], map[];
    var i := 0;
    while i < |data|
      invariant 0 <= i <= |data|
      invariant Stats(order, info) == Fold(Stats([], map[]), AllEntries(data[..i], attributeKey))
    {
      var attributes := AttrsOf(data[i], attributeKey);
      AllEntriesSnoc(data[..i], data[i], attributeKey);
      assert data[..i + 1] == data[..i] + [data[i]];
      FoldAppend(Stats([], map[]), AllEntries(data[..i], attributeKey), attributes);
      order, info := TallyEntries(order, info, attributes);
      i := i + 1;
    }
    assert data[..i] == data;
    assert Distinct(Names([])) == [];
    FoldTallied(Stats([], map[]), [], AllEntries(data, attributeKey));
    assert [] + AllEntries(data, attributeKey) == AllEntries(data, attributeKey);
  }

  /** The record returned for `t`: its distinct values sorted. */
  function Summary(entries: seq<Value>, t: string): TraitTypeInfo {
    Finished(Tally(entries, t))
  }

  /** A record after `uniqueValues.sort()`. */
  function Finished(info: TraitTypeInfo): TraitTypeInfo {
    info.(uniqueValues := SortStrings(info.uniqueValues))
  }

  /** `Object.values(traitTypeInfo)`: one record per type, in first-seen order. */
  function Summaries(entries: seq<Value>): seq<TraitTypeInfo> {
    var order := Distinct(Names(entries));
    seq(|order|, k requires 0 <= k < |order| => Summary(entries, order[k]))
  }

  /** The sort key of `(a, b) => b.count - a.count`. */
  function CountKey(info: TraitTypeInfo): real {
    info.count as real
  }

  /** `validateTraitTypes`: the per-type records of every entry of every record,
      most frequent type first. */
  method ValidateTraitTypes(data: seq<Item>, attributeKey: string) returns (r: TraitValidation)
    ensures r.traitTypes == SortDesc(Summaries(AllEntries(data, attributeKey)), CountKey)
  {
    var order, info := TallyRecords(data, attributeKey);
    var values := SortedRecords(order, info);
    RecordsAreSummaries(order, info, AllEntries(data, attributeKey), values);
    r := TraitValidation(SortDesc(values, CountKey));
  }

  /** `Object.values(traitTypeInfo)` after the `uniqueValues.sort()` pass: the
      records in key insertion order, each with its values sorted. */
  method SortedRecords(order: seq<string>, info: map<string, TraitTypeInfo>) returns (values: seq<TraitTypeInfo>)
    requires forall t :: t in order ==> t in info
    ensures |values| == |order|
    ensures forall m :: 0 <= m < |order| ==> values[m] == Finished(info[order[m]])
  {
    values := [];
    var k := 0;
    while k < |order|
      invariant 0 <= k <= |order|
      invariant |values| == k
      invariant forall m :: 0 <= m < k ==> values[m] == Finished(info[order[m]])
    {
      var record := info[order[k]];
      values := values + [record.(uniqueValues := SortStrings(record.uniqueValues))];
      k := k + 1;
    }
  }

  /** The finished records of the dictionary reading `entries` builds are the
      summaries of `entries`. */
  lemma RecordsAreSummaries(order: seq<string>, info: map<string, TraitTypeInfo>, entries: seq<Value>, values: seq<TraitTypeInfo>)
    requires Tallied(Stats(order, info), entries)
    requires |values| == |order|
    requires forall m :: 0 <= m < |order| ==> order[m] in info && values[m] == Finished(info[order[m]])
    ensures values == Summaries(entries)
  {
  }

  /** An entry with a value also counts as an entry. */
  lemma {:induction false} ValuesWithinCount(entries: seq<Value>, t: string)
    ensures |ValuesOf(entries, t)| <= CountOf(entries, t)
  {
    if entries != [] {
      ValuesWithinCount(entries[..|entries| - 1], t);
    }
  }

  /** A type is counted exactly when some entry names it. */
  lemma {:induction false} CountPositive(entries: seq<Value>, t: string)
    ensures CountOf(entries, t) > 0 <==> t in Names(entries)
  {
    if entries != [] {
      CountPositive(entries[..|entries| - 1], t);
    }
  }

  /** What each returned record says about its type: the number of entries naming
      it (at least one), the number of those with a value, and its distinct
      values, sorted and each once. */
  lemma SummaryFacts(entries: seq<Value>, t: string)
    requires t in Names(entries)
    ensures var s := Summary(entries, t);
      && s.name == t
      && s.count == CountOf(entries, t) && s.count >= 1
      && s.totalValues == |ValuesOf(entries, t)| && s.totalValues <= s.count
      && Sorted(s.uniqueValues) && NoDup(s.uniqueValues)
      && |s.uniqueValues| <= s.totalValues
      && (forall v :: v in s.uniqueValues <==> v in ValuesOf(entries, t))
  {
    var vs := ValuesOf(entries, t);
    var d := Distinct(vs);
    var sorted := SortStrings(d);
    DistinctSpec(vs);
    DistinctShorter(vs);
    PermutationKeepsNoDup(d, sorted);
    assert |sorted| == |multiset(sorted)| == |multiset(d)| == |d|;
    ValuesWithinCount(entries, t);
    CountPositive(entries, t);
  }

  /** The records before sorting: one per type, in first-seen order. */
  lemma SummariesShape(entries: seq<Value>)
    ensures var order := Distinct(Names(entries));
      && |Summaries(entries)| == |order|
      && (forall k :: 0 <= k < |order| ==>
            Summaries(entries)[k] == Summary(entries, order[k]) && Summaries(entries)[k].name == order[k])
  {
  }

  /** Sorting keeps one record per type, each the record of its own type. */
  lemma SortedSummaries(entries: seq<Value>)
    ensures var r := SortDesc(Summaries(entries), CountKey);
      && NoDup(r)
      && (forall x :: x in r <==> x in Summaries(entries))
      && (forall x :: x in r ==> x == Summary(entries, x.name))
  {
    var order := Distinct(Names(entries));
    var s := Summaries(entries);
    var r := SortDesc(s, CountKey);
    DistinctSpec(Names(entries));
    SummariesShape(entries);
    assert NoDup(s) by {
      forall i, j | 0 <= i < j < |s| ensures s[i] != s[j] {
        assert s[i].name == order[i] && s[j].name == order[j];
      }
    }
    SortDescSpec(s, CountKey);
    PermutationKeepsNoDup(s, r);
  }

  /** `validateTraitTypes` returns the records ordered by count, largest first. */
  lemma TraitTypesByCount(entries: seq<Value>)
    ensures NonIncreasing(SortDesc(Summaries(entries), CountKey), CountKey)
  {
    SortDescSpec(Summaries(entries), CountKey);
  }

  /** Every type named by some entry appears exactly once, with its own record,
      and no other type appears. */
  lemma TraitTypesOnce(entries: seq<Value>)
    ensures var r := SortDesc(Summaries(entries), CountKey);
      && (forall i :: 0 <= i < |r| ==> r[i] == Summary(entries, r[i].name))
      && (forall i, j :: 0 <= i < j < |r| ==> r[i].name != r[j].name)
      && (forall t :: t in Names(entries) <==> exists i :: 0 <= i < |r| && r[i].name == t)
  {
    var order := Distinct(Names(entries));
    var s := Summaries(entries);
    var r := SortDesc(s, CountKey);
    SortedSummaries(entries);
    SummariesShape(entries);
    DistinctSpec(Names(entries));
    forall i | 0 <= i < |r| ensures r[i] == Summary(entries, r[i].name) {
      assert r[i] in r;
    }
    forall t ensures t in Names(entries) <==> exists i :: 0 <= i < |r| && r[i].name == t {
      if t in Names(entries) {
        var k :| 0 <= k < |order| && order[k] == t;
        assert s[k] in r;
      } else {
        forall i | 0 <= i < |r| ensures r[i].name != t {
          assert r[i] in s;
        }
      }
    }
  }
}
