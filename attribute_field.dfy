/** The attribute-field analyzer (components/rarity/utils.ts:158-187): which trait
    types appear under a chosen field, looking at a strided sample of the records. */
module AttributeField {
  import opened Wrappers
  import opened JsValues
  import opened Ordering
  import opened TraitEntries

  datatype AttributeFieldSelection = AttributeFieldSelection(
    selectedKey: string,
    availableTraitTypes: seq<string>,
    selectedTraitTypes: seq<string>)

  /** At most this many records are meant to be examined. */
  const SampleLimit := 1000

  /** The sampling step `max(1, floor(n / min(1000, n)))`. For no records the
      source computes NaN, but then the loop does not run; 1 stands in for it. */
  function Stride(n: nat): (s: nat)
    ensures s >= 1
  {
    if n == 0 then 1
    else
      var sampleSize := if n < SampleLimit then n else SampleLimit;
      Max(1, n / sampleSize)
  }

  function Max(a: int, b: int): int {
    if a < b then b else a
  }

  /** Below twice the limit the step is 1: every record is examined. */
  lemma SmallDataStrideOne(n: nat)
    requires n < 2 * SampleLimit
    ensures Stride(n) == 1
  {
    if n >= SampleLimit {
      assert n / SampleLimit < 2;
    }
  }

  /** From the limit on, the step is the whole part of `n / 1000`. */
  lemma LargeDataStride(n: nat)
    requires n >= SampleLimit
    ensures Stride(n) == n / SampleLimit && Stride(n) >= 1
  {
  }

  /** The entries of the records at `i`, `i + stride`, `i + 2 * stride`, ... */
  function SampledFrom(data: seq<Item>, key: string, stride: nat, i: nat): seq<Value>
    requires stride >= 1
    decreases |data| - i
  {
    if i >= |data| then [] else AttrsOf(data[i], key) + SampledFrom(data, key, stride, i + stride)
  }

  /** With step 1 the sample is every entry of every record. */
  lemma {:induction false} StrideOneSamplesAll(data: seq<Item>, key: string, i: nat)
    requires i <= |data|
    ensures SampledFrom(data, key, 1, i) == AllEntries(data[i..], key)
    decreases |data| - i
  {
    if i < |data| {
      StrideOneSamplesAll(data, key, i + 1);
      AllEntriesCons(data[i], data[i + 1..], key);
      assert data[i..] == [data[i]] + data[i + 1..];
    } else {
      assert data[i..] == [];
    }
  }

  lemma {:induction false} AllEntriesCons(item: Item, rest: seq<Item>, key: string)
    ensures AllEntries([item] + rest, key) == AttrsOf(item, key) + AllEntries(rest, key)
    decreases |rest|
  {
    var whole := [item] + rest;
    if rest == [] {
      assert whole[..0] == [];
      assert AllEntries(whole, key) == AllEntries([], key) + AttrsOf(item, key);
    } else {
      var init := rest[..|rest| - 1];
      var last := rest[|rest| - 1];
      assert whole[..|whole| - 1] == [item] + init;
      assert whole[|whole| - 1] == last;
      calc {
        AllEntries(whole, key);
        AllEntries([item] + init, key) + AttrsOf(last, key);
        { AllEntriesCons(item, init, key); }
        AttrsOf(item, key) + AllEntries(init, key) + AttrsOf(last, key);
        AttrsOf(item, key) + AllEntries(rest, key);
      }
    }
  }

  /** Index `j` is reached from `i` by whole steps of `stride`. */
  predicate OnGrid(j: int, i: int, stride: nat)
    requires stride >= 1
    decreases j - i
  {
    j == i || (j >= i + stride && OnGrid(j - stride, i, stride))
  }

  lemma {:induction false} OnGridStep(j: int, i: int, stride: nat)
    requires stride >= 1 && OnGrid(j, i + stride, stride)
    ensures OnGrid(j, i, stride)
    decreases j - i
  {
    if j != i + stride {
      OnGridStep(j - stride, i, stride);
    }
  }

  /** Records off the sampling grid do not affect the sample. */
  lemma {:induction false} OffGridIrrelevant(data: seq<Item>, other: seq<Item>, key: string, stride: nat, i: nat)
    requires stride >= 1 && |data| == |other|
    requires forall j :: i <= j < |data| && OnGrid(j, i, stride) ==> data[j] == other[j]
    ensures SampledFrom(data, key, stride, i) == SampledFrom(other, key, stride, i)
    decreases |data| - i
  {
    if i < |data| {
      assert OnGrid(i, i, stride);
      forall j | i + stride <= j < |data| && OnGrid(j, i + stride, stride)
        ensures data[j] == other[j]
      {
        OnGridStep(j, i, stride);
      }
      OffGridIrrelevant(data, other, key, stride, i + stride);
    }
  }

  /** Reading one more entry adds its type name to the distinct names, unless
      the name was already there. */
  lemma DistinctNamesSnoc(done: seq<Value>, attr: Value)
    ensures Distinct(Names(done + [attr])) ==
      match TypeName(attr)
      case Some(t) => if t in Distinct(Names(done)) then Distinct(Names(done)) else Distinct(Names(done)) + [t]
      case None => Distinct(Names(done))
  {
    assert (done + [attr])[..|done|] == done;
    DistinctSpec(Names(done));
    match TypeName(attr)
    case Some(t) =>
      assert Names(done + [attr]) == Names(done) + [t];
      DistinctSnoc(Names(done), t);
    case None =>
      assert Names(done + [attr]) == Names(done);
  }

  /** One entry added to the set of names seen so far. */
  function AddName(acc: seq<string>, attr: Value): seq<string> {
    match TypeName(attr)
    case Some(t) => if t in acc then acc else acc + [t]
    case None => acc
  }

  /** The entries added one by one, front to back. */
  function AddNames(acc: seq<string>, entries: seq<Value>): seq<string>
    decreases |entries|
  {
    if entries == [] then acc else AddNames(AddName(acc, entries[0]), entries[1..])
  }

  /** Adding entries to the distinct names of `seen` gives the distinct names of
      `seen` followed by the entries. */
  lemma {:induction false} AddNamesDistinct(seen: seq<Value>, entries: seq<Value>)
    ensures AddNames(Distinct(Names(seen)), entries) == Distinct(Names(seen + entries))
    decreases |entries|
  {
    if entries == [] {
      assert seen + entries == seen;
    } else {
      var next := seen + [entries[0]];
      assert next + entries[1..] == seen + entries;
      calc {
        AddNames(Distinct(Names(seen)), entries);
        AddNames(AddName(Distinct(Names(seen)), entries[0]), entries[1..]);
        { DistinctNamesSnoc(seen, entries[0]); }
        AddNames(Distinct(Names(next)), entries[1..]);
        { AddNamesDistinct(next, entries[1..]); }
        Distinct(Names(next + entries[1..]));
      }
    }
  }

  /** Taking one record off the front of the sample. */
  lemma SampleStep(data: seq<Item>, key: string, stride: nat, i: nat, seen: seq<Value>)
    requires stride >= 1 && i < |data|
    ensures seen + SampledFrom(data, key, stride, i)
      == (seen + AttrsOf(data[i], key)) + SampledFrom(data, key, stride, i + stride)
  {
  }

  /** The `attributes.forEach` step of the analyzer: add the type name of each
      entry to the names seen so far, keeping each name once. */
  method AddTypeNames(traitTypes: seq<string>, attributes: seq<Value>) returns (result: seq<string>)
    ensures result == AddNames(traitTypes, attributes)
    ensures forall seen :: traitTypes == Distinct(Names(seen)) ==> result == Distinct(Names(seen + attributes))
  {
    result := traitTypes;
    var j := 0;
    while j < |attributes|
      invariant 0 <= j <= |attributes|
      invariant AddNames(result, attributes[j..]) == AddNames(traitTypes, attributes)
    {
      var attr := attributes[j];
      assert attributes[j..][1..] == attributes[j + 1..];
      var name := TypeName(attr);
      if name.Some? && name.value !in result {
        result := result + [name.value];
      }
      j := j + 1;
    }
    assert attributes[j..] == [];
    forall seen | traitTypes == Distinct(Names(seen)) ensures result == Distinct(Names(seen + attributes)) {
      AddNamesDistinct(seen, attributes);
    }
  }

  /** The sampling loop of `analyzeAttributeField`: the distinct type names of
      the entries of the records at 0, step, 2 * step, ..., in first-seen order. */
  method SampleTypeNames(data: seq<Item>, attributeKey: string) returns (traitTypes: seq<string>)
    ensures traitTypes == Distinct(Names(SampledFrom(data, attributeKey, Stride(|data|), 0)))
  {
    var step := Stride(|data|);
    traitTypes := [];
    ghost var seen: seq<Value> := [];
    var i := 0;
    assert Distinct(Names([])) == [];
    assert seen + SampledFrom(data, attributeKey, step, 0) == SampledFrom(data, attributeKey, step, 0);
    while i < |data|
      invariant 0 <= i
      invariant traitTypes == Distinct(Names(seen))
      invariant seen + SampledFrom(data, attributeKey, step, i) == SampledFrom(data, attributeKey, step, 0)
      decreases |data| - i
    {
      var attributes := AttrsOf(data[i], attributeKey);
      traitTypes := AddTypeNames(traitTypes, attributes);
      SampleStep(data, attributeKey, step, i, seen);
      seen := seen + attributes;
      i := i + step;
    }
    assert seen + [] == seen;
  }

  /** `analyzeAttributeField`: every distinct sampled type name is selected, in
      first-seen order; the same names, sorted, are available. */
  method AnalyzeAttributeField(data: seq<Item>, attributeKey: string) returns (r: AttributeFieldSelection)
    ensures r.selectedKey == attributeKey
    ensures r.selectedTraitTypes == Distinct(Names(SampledFrom(data, attributeKey, Stride(|data|), 0)))
    ensures Sorted(r.availableTraitTypes)
    ensures multiset(r.availableTraitTypes) == multiset(r.selectedTraitTypes)
  {
    var traitTypes := SampleTypeNames(data, attributeKey);
    r := AttributeFieldSelection(attributeKey, SortStrings(traitTypes), traitTypes);
  }

  /** A type is selected exactly when some sampled entry names it, and each is
      selected once. */
  lemma SelectedTypes(data: seq<Item>, key: string, t: string)
    ensures var selected := Distinct(Names(SampledFrom(data, key, Stride(|data|), 0)));
      NoDup(selected)
      && (t in selected <==>
          exists k :: 0 <= k < |SampledFrom(data, key, Stride(|data|), 0)|
            && TypeName(SampledFrom(data, key, Stride(|data|), 0)[k]) == Some(t))
  {
    NamesMembership(SampledFrom(data, key, Stride(|data|), 0), t);
    DistinctSpec(Names(SampledFrom(data, key, Stride(|data|), 0)));
  }

  /** Under 2000 records, the analyzer sees every entry of every record. */
  lemma SmallDataFullyScanned(data: seq<Item>, key: string)
    requires |data| < 2 * SampleLimit
    ensures SampledFrom(data, key, Stride(|data|), 0) == AllEntries(data, key)
  {
    SmallDataStrideOne(|data|);
    StrideOneSamplesAll(data, key, 0);
    assert data[0..] == data;
  }
}
