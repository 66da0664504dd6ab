/** The CSV export of ranked results (components/rarity/utils.ts:441-521): the
    cell escaping, `toFixed(10)`, the column set, the header and the rows. The
    download that follows the text is not part of this model. */
module CsvExport {
  import opened Wrappers
  import opened Seqs
  import opened Text
  import opened JsValues
  import opened Ordering
  import opened TraitEntries
  import opened RarityCounts
  import opened AttributeField
  import opened RarityScores
  import opened Ranking

  // ---------------------------------------------------------------- escaping

  /** The value holds a comma, a double quote or a line feed. */
  predicate NeedsQuoting(s: string) {
    ',' in s || '"' in s || '\n' in s
  }

  /** `s.replace(/"/g, '""')`: every double quote doubled. */
  function DoubleQuotes(s: string): (r: string)
    ensures |r| >= |s|
  {
    if s == [] then []
    else (if s[0] == '"' then "\"\"" else [s[0]]) + DoubleQuotes(s[1..])
  }

  /** A cell as written: quoted, with inner quotes doubled, when it holds a
      comma, a quote or a line feed, and unchanged otherwise. */
  function Escape(s: string): (r: string)
    ensures r == s <==> !NeedsQuoting(s)
    ensures NeedsQuoting(s) ==> |r| >= 2 && r[0] == '"' && r[|r| - 1] == '"'
  {
    if NeedsQuoting(s) then "\"" + DoubleQuotes(s) + "\"" else s
  }

  /** `escapeCsvValue(value)`: null becomes the empty cell; anything else is
      escaped in its `String(...)` form. */
  function EscapeCsvValue(v: Value): string {
    if v.Null? then "" else Escape(ToJsString(v))
  }

  /** Reading doubled quotes back as one. */
  function Undouble(s: string): string {
    if s == [] then []
    else if |s| >= 2 && s[0] == '"' && s[1] == '"' then ['"'] + Undouble(s[2..])
    else [s[0]] + Undouble(s[1..])
  }

  /** How a CSV reader takes one cell back: a quoted cell loses its quotes and
      its doubled quotes are halved. */
  function Unescape(cell: string): string {
    if |cell| >= 2 && cell[0] == '"' && cell[|cell| - 1] == '"' then Undouble(cell[1..|cell| - 1])
    else cell
  }

  lemma {:induction false} UndoubleDoubleQuotes(s: string)
    ensures Undouble(DoubleQuotes(s)) == s
  {
    if s != [] {
      var d := DoubleQuotes(s);
      UndoubleDoubleQuotes(s[1..]);
      if s[0] == '"' {
        assert d == "\"\"" + DoubleQuotes(s[1..]);
        assert d[2..] == DoubleQuotes(s[1..]);
      } else {
        assert d == [s[0]] + DoubleQuotes(s[1..]);
        assert d[1..] == DoubleQuotes(s[1..]);
      }
      assert s == [s[0]] + s[1..];
    }
  }

  /** An escaped cell reads back as the text it was made from. */
  lemma EscapeRoundTrip(s: string)
    ensures Unescape(Escape(s)) == s
  {
    if NeedsQuoting(s) {
      var cell := Escape(s);
      assert cell[1..|cell| - 1] == DoubleQuotes(s);
      UndoubleDoubleQuotes(s);
    } else if |s| >= 2 {
      assert s[0] != '"';
    }
  }

  // ---------------------------------------------------------------- toFixed

  /** The number of digits `toFixed` is asked for, and ten to that power. */
  const FractionDigits: nat := 10
  const Scale: nat := 10_000_000_000

  /** The integer `n` for which `n / 10^10 - x` is closest to zero, the larger
      one on a tie, for a non-negative `x`. */
  function Scaled(x: real): (n: nat)
    requires x >= 0.0
    ensures n as real - 0.5 <= x * Scale as real < n as real + 0.5
  {
    (x * Scale as real + 0.5).Floor
  }

  function Zeros(k: nat): (r: string)
    ensures |r| == k && forall i :: 0 <= i < k ==> r[i] == '0'
  {
    seq(k, _ => '0')
  }

  /** Digits padded with zeros on the left to at least eleven. */
  function Padded(m: string): (p: string)
    ensures |p| >= FractionDigits + 1
  {
    if |m| <= FractionDigits then Zeros(FractionDigits + 1 - |m|) + m else m
  }

  /** The point put before the last ten digits. */
  function InsertPoint(p: string): string
    requires |p| >= FractionDigits
  {
    p[..|p| - FractionDigits] + "." + p[|p| - FractionDigits..]
  }

  /** The digits of `Scaled(x)`, padded, with the point inserted. */
  function FixedNonNegative(x: real): string
    requires x >= 0.0
  {
    InsertPoint(Padded(Digits(Scaled(x))))
  }

  /** `x.toFixed(10)` for a value below 10^21: a minus sign for a negative `x`,
      then the fixed-point form of its magnitude. */
  function ToFixed10(x: real): string {
    if x < 0.0 then "-" + FixedNonNegative(-x) else FixedNonNegative(x)
  }

  lemma {:induction false} ZerosValue(k: nat)
    ensures DigitsValue(Zeros(k)) == 0
  {
    if k > 0 {
      ZerosValue(k - 1);
      assert Zeros(k)[..k - 1] == Zeros(k - 1);
    }
  }

  /** Leading zeros do not change the value of a digit string. */
  lemma {:induction false} LeadingZerosValue(k: nat, m: string)
    ensures DigitsValue(Zeros(k) + m) == DigitsValue(m)
  {
    if m == [] {
      assert Zeros(k) + m == Zeros(k);
      ZerosValue(k);
    } else {
      var init := m[..|m| - 1];
      LeadingZerosValue(k, init);
      assert (Zeros(k) + m)[..|Zeros(k) + m| - 1] == Zeros(k) + init;
    }
  }

  /** A number of two digits or more does not start with a zero. */
  lemma {:induction false} DigitsNoLeadingZero(n: nat)
    ensures |Digits(n)| > 1 ==> Digits(n)[0] != '0'
  {
    if n >= 10 {
      DigitsNoLeadingZero(n / 10);
      assert Digits(n)[0] == Digits(n / 10)[0];
      if n / 10 < 10 {
        assert Digits(n / 10) == [DigitChar(n / 10)];
        assert 1 <= n / 10 <= 9;
      }
    }
  }

  /** The padded digits of `n` are digits, read as `n`, with no superfluous
      leading zero. */
  lemma PaddedForm(n: nat)
    ensures var p := Padded(Digits(n));
      && (forall k :: 0 <= k < |p| ==> IsDigit(p[k]))
      && DigitsValue(p) == n
      && (|p| == FractionDigits + 1 || p[0] != '0')
  {
    var m := Digits(n);
    DigitsRoundTrip(n);
    if |m| <= FractionDigits {
      LeadingZerosValue(FractionDigits + 1 - |m|, m);
      var p := Padded(m);
      forall k | 0 <= k < |p| ensures IsDigit(p[k]) {
        if k >= FractionDigits + 1 - |m| {
          assert p[k] == m[k - (FractionDigits + 1 - |m|)];
        }
      }
    } else {
      DigitsNoLeadingZero(n);
    }
  }

  /** Digits on both sides of a point: every character but the point is a digit. */
  lemma DigitsAroundPoint(a: string, b: string)
    requires forall k :: 0 <= k < |a| ==> IsDigit(a[k])
    requires forall k :: 0 <= k < |b| ==> IsDigit(b[k])
    ensures var r := a + "." + b;
      forall k :: 0 <= k < |r| && k != |a| ==> IsDigit(r[k])
  {
    var r := a + "." + b;
    forall k | 0 <= k < |r| && k != |a| ensures IsDigit(r[k]) {
      if k < |a| {
        assert r[k] == a[k];
      } else {
        assert r[k] == b[k - |a| - 1];
      }
    }
  }

  lemma PointForm(p: string)
    requires |p| >= FractionDigits + 1
    requires forall k :: 0 <= k < |p| ==> IsDigit(p[k])
    ensures var r := InsertPoint(p);
      && |r| == |p| + 1 && r[0] == p[0]
      && r[|r| - FractionDigits - 1] == '.'
      && (forall k :: 0 <= k < |r| && k != |r| - FractionDigits - 1 ==> IsDigit(r[k]))
      && r[..|r| - FractionDigits - 1] + r[|r| - FractionDigits..] == p
  {
    var a := p[..|p| - FractionDigits];
    var b := p[|p| - FractionDigits..];
    var r := a + "." + b;
    assert InsertPoint(p) == r;
    assert r[..|a|] == a;
    assert r[|a| + 1..] == b;
    assert a + b == p;
    DigitsAroundPoint(a, b);
  }

  /** The shape and the value of `x.toFixed(10)` for `x >= 0`: digits, a point,
      then exactly ten digits; no superfluous leading zero; and the digits read
      without the point are `x * 10^10` rounded to the nearest integer. */
  lemma FixedForm(x: real)
    requires x >= 0.0
    ensures var r := ToFixed10(x);
      && |r| >= FractionDigits + 2
      && r[|r| - FractionDigits - 1] == '.'
      && (forall k :: 0 <= k < |r| && k != |r| - FractionDigits - 1 ==> IsDigit(r[k]))
      && (|r| == FractionDigits + 2 || r[0] != '0')
      && DigitsValue(r[..|r| - FractionDigits - 1] + r[|r| - FractionDigits..]) == Scaled(x)
  {
    PaddedForm(Scaled(x));
    PointForm(Padded(Digits(Scaled(x))));
  }

  /** A negative value is written as its magnitude after a minus sign. */
  lemma NegativeFixed(x: real)
    requires x < 0.0
    ensures var r := ToFixed10(x);
      |r| >= FractionDigits + 3 && r[0] == '-' && r[1..] == ToFixed10(-x)
  {
    FixedForm(-x);
  }

  /** Only digits, points and minus signs. */
  predicate NumberChars(s: string) {
    forall k :: 0 <= k < |s| ==> IsDigit(s[k]) || s[k] == '.' || s[k] == '-'
  }

  lemma NumberNeedsNoQuoting(s: string)
    requires NumberChars(s)
    ensures Escape(s) == s
  {
  }

  lemma SignedNumberChars(u: string)
    requires NumberChars(u)
    ensures NumberChars("-" + u)
  {
    var r := "-" + u;
    forall k | 0 <= k < |r| ensures IsDigit(r[k]) || r[k] == '.' || r[k] == '-' {
      if k > 0 {
        assert r[k] == u[k - 1];
      }
    }
  }

  lemma UnsignedFixedChars(y: real)
    requires y >= 0.0
    ensures NumberChars(FixedNonNegative(y))
  {
    FixedForm(y);
  }

  lemma FixedChars(x: real)
    ensures NumberChars(ToFixed10(x))
  {
    if x < 0.0 {
      var y := -x;
      UnsignedFixedChars(y);
      var u := FixedNonNegative(y);
      SignedNumberChars(u);
      assert ToFixed10(x) == "-" + u;
    } else {
      UnsignedFixedChars(x);
    }
  }

  /** A fixed-point number needs no quoting, so its cell is the number itself. */
  lemma FixedNeedsNoQuoting(x: real)
    ensures Escape(ToFixed10(x)) == ToFixed10(x)
  {
    FixedChars(x);
    NumberNeedsNoQuoting(ToFixed10(x));
  }

  /** Neither does a decimal integer. */
  lemma IntNeedsNoQuoting(n: int)
    ensures Escape(IntToString(n)) == IntToString(n)
  {
    var r := IntToString(n);
    forall k | 0 <= k < |r| ensures IsDigit(r[k]) || r[k] == '.' || r[k] == '-' {
      if n < 0 && k > 0 {
        assert r[k] == Digits(-n)[k - 1];
      }
    }
    NumberNeedsNoQuoting(r);
  }

  // ---------------------------------------------------------------- columns

  /** `traits[t]` is set exactly when `t` is among the keys of `traits`. */
  lemma {:induction false} LookupPresent(traits: seq<TraitLine>, t: string)
    ensures Lookup(traits, t).Some? <==> t in LineTypes(traits)
  {
    if traits != [] {
      LookupPresent(traits[1..], t);
    }
  }

  /** `Object.keys(nft.traits)` of every result in turn, repeats kept. */
  function TraitKeys(results: seq<ScoredItem>): seq<string> {
    if results == [] then []
    else TraitKeys(results[..|results| - 1]) + LineTypes(results[|results| - 1].traits)
  }

  lemma {:induction false} TraitKeysMembership(results: seq<ScoredItem>, t: string)
    ensures t in TraitKeys(results) <==> exists j :: 0 <= j < |results| && t in LineTypes(results[j].traits)
  {
    if results != [] {
      var init := results[..|results| - 1];
      TraitKeysMembership(init, t);
      assert forall j :: 0 <= j < |init| ==> init[j] == results[j];
    }
  }

  /** `Array.from(allTraitTypes).sort()`: the distinct keys in code-unit order. */
  function ColumnTypes(results: seq<ScoredItem>): seq<string> {
    SortStrings(Distinct(TraitKeys(results)))
  }

  /** The column types are sorted, each appears once, and a type has columns
      exactly when some result has a line for it. */
  lemma ColumnTypesSpec(results: seq<ScoredItem>, t: string)
    ensures var types := ColumnTypes(results);
      && Sorted(types) && NoDup(types)
      && (t in types <==> exists j :: 0 <= j < |results| && t in LineTypes(results[j].traits))
  {
    var d := Distinct(TraitKeys(results));
    DistinctSpec(TraitKeys(results));
    PermutationKeepsNoDup(d, SortStrings(d));
    TraitKeysMembership(results, t);
  }

  /** One result's keys added to the set: `allTraitTypes.add(traitType)`. */
  method AddTraitTypes(allTraitTypes: seq<string>, keys: seq<string>, ghost seen: seq<string>)
    returns (r: seq<string>)
    requires allTraitTypes == Distinct(seen)
    ensures r == Distinct(seen + keys)
  {
    r := allTraitTypes;
    var j := 0;
    assert seen + keys[..0] == seen;
    while j < |keys|
      invariant 0 <= j <= |keys|
      invariant r == Distinct(seen + keys[..j])
    {
      DistinctExtend(seen, keys, j);
      if keys[j] !in r {
        r := r + [keys[j]];
      }
      j := j + 1;
    }
    assert keys[..j] == keys;
  }

  /** The column types of the export: every key of every result's traits,
      each once, sorted. */
  method CollectTraitTypes(results: seq<ScoredItem>) returns (sortedTraitTypes: seq<string>)
    ensures sortedTraitTypes == ColumnTypes(results)
  {
    var allTraitTypes: seq<string> := [];
    var i := 0;
    while i < |results|
      invariant 0 <= i <= |results|
      invariant allTraitTypes == Distinct(TraitKeys(results[..i]))
    {
      assert results[..i + 1][..i] == results[..i];
      allTraitTypes := AddTraitTypes(allTraitTypes, LineTypes(results[i].traits), TraitKeys(results[..i]));
      i := i + 1;
    }
    assert results[..i] == results;
    sortedTraitTypes := SortStrings(allTraitTypes);
  }

  /** Every record the engine scores has a `trait_count` line, so a non-empty
      export always has `trait_count` columns. */
  lemma TraitCountColumn(data: seq<Item>, key: string, selected: seq<string>)
    requires |data| > 0
    ensures TraitCountKey in ColumnTypes(Rarity(data, key, selected))
  {
    var r := Rarity(data, key, selected);
    RarityPermutes(data, key, selected);
    var i := r[0].index;
    ItemLines(data, key, selected, i);
    DistinctSpec(TypesOf(Pairs(AttrsOf(data[i], key))) + [TraitCountKey]);
    assert r[0].traits == ItemResult(data, key, selected, i).traits;
    assert TraitCountKey in LineTypes(r[0].traits);
    ColumnTypesSpec(r, TraitCountKey);
  }

  // ---------------------------------------------------------------- cells in groups

  /** The groups of cells one after the other. */
  function Flatten<T>(groups: seq<seq<T>>): seq<T> {
    if groups == [] then [] else Flatten(groups[..|groups| - 1]) + groups[|groups| - 1]
  }

  lemma FlattenSnoc<T>(groups: seq<seq<T>>, i: nat)
    requires i < |groups|
    ensures Flatten(groups[..i + 1]) == Flatten(groups[..i]) + groups[i]
  {
    assert groups[..i + 1][..i] == groups[..i];
  }

  lemma LeadFlattenSnoc<T>(lead: seq<T>, groups: seq<seq<T>>, i: nat)
    requires i < |groups|
    ensures (lead + Flatten(groups[..i])) + groups[i] == lead + Flatten(groups[..i + 1])
  {
    FlattenSnoc(groups, i);
  }

  predicate Triples<T>(groups: seq<seq<T>>) {
    forall k :: 0 <= k < |groups| ==> |groups[k]| == 3
  }

  lemma {:induction false} FlattenLength<T>(groups: seq<seq<T>>)
    requires Triples(groups)
    ensures |Flatten(groups)| == 3 * |groups|
  {
    if groups != [] {
      FlattenLength(groups[..|groups| - 1]);
    }
  }

  /** Group `k` of triples starts at cell `3 * k`. */
  lemma {:induction false} FlattenTripleAt<T>(groups: seq<seq<T>>, k: nat)
    requires Triples(groups) && k < |groups|
    ensures |Flatten(groups)| == 3 * |groups| && Flatten(groups)[3 * k..3 * k + 3] == groups[k]
  {
    var init := groups[..|groups| - 1];
    FlattenLength(groups);
    FlattenLength(init);
    if k < |init| {
      FlattenTripleAt(init, k);
      assert Flatten(groups)[3 * k..3 * k + 3] == Flatten(init)[3 * k..3 * k + 3];
    }
  }

  /** After a lead of fixed cells, group `k` of triples starts at cell `|lead| + 3 * k`. */
  lemma LeadThenTripleAt<T>(lead: seq<T>, groups: seq<seq<T>>, k: nat)
    requires Triples(groups) && k < |groups|
    ensures var all := lead + Flatten(groups);
      && |all| == |lead| + 3 * |groups|
      && all[|lead| + 3 * k..|lead| + 3 * k + 3] == groups[k]
  {
    FlattenTripleAt(groups, k);
    var all := lead + Flatten(groups);
    assert all[|lead| + 3 * k..|lead| + 3 * k + 3] == Flatten(groups)[3 * k..3 * k + 3];
  }

  // ---------------------------------------------------------------- header

  const LeadHeaders: seq<string> :=
    ["tokenId", "statisticalRarityScore", "statisticalRarityRank", "aestheticRarityScore", "aestheticRarityRank"]

  /** The three columns of one trait type. */
  function TraitHeaders(t: string): seq<string> {
    [t + "_value", t + "_count", t + "_score"]
  }

  function HeaderGroups(types: seq<string>): (groups: seq<seq<string>>)
    ensures |groups| == |types| && Triples(groups)
  {
    seq(|types|, k requires 0 <= k < |types| => TraitHeaders(types[k]))
  }

  /** The five leading columns, then three per trait type, in order. */
  function HeaderCells(types: seq<string>): seq<string> {
    LeadHeaders + Flatten(HeaderGroups(types))
  }

  method BuildHeaders(sortedTraitTypes: seq<string>) returns (headers: seq<string>)
    ensures headers == HeaderCells(sortedTraitTypes)
  {
    ghost var groups := HeaderGroups(sortedTraitTypes);
    headers := LeadHeaders;
    var i := 0;
    while i < |sortedTraitTypes|
      invariant 0 <= i <= |sortedTraitTypes|
      invariant headers == LeadHeaders + Flatten(groups[..i])
    {
      var traitType := sortedTraitTypes[i];
      LeadFlattenSnoc(LeadHeaders, groups, i);
      headers := headers + [traitType + "_value"];
      headers := headers + [traitType + "_count"];
      headers := headers + [traitType + "_score"];
      i := i + 1;
    }
    assert groups[..i] == groups;
  }

  // ---------------------------------------------------------------- rows

  /** The properties tried, in order, for a record's token id. */
  const TokenIdKeys: seq<string> := ["name", "tokenId", "token_id", "id"]

  /** The property is present and truthy. */
  predicate TruthyAt(item: Item, key: string) {
    match Get(item, key)
    case Some(v) => Truthy(v)
    case None => false
  }

  /** `item[keys[0]] || item[keys[1]] || ...`, when one of them is truthy. */
  function FirstTruthy(item: Item, keys: seq<string>): Option<Value> {
    if keys == [] then None
    else if TruthyAt(item, keys[0]) then Get(item, keys[0])
    else FirstTruthy(item, keys[1..])
  }

  /** The value found is that of the first truthy property; none is found
      exactly when no property is truthy. */
  lemma {:induction false} FirstTruthySpec(item: Item, keys: seq<string>)
    ensures FirstTruthy(item, keys).None? <==> forall j :: 0 <= j < |keys| ==> !TruthyAt(item, keys[j])
    ensures FirstTruthy(item, keys).Some? ==>
      exists i :: 0 <= i < |keys| && TruthyAt(item, keys[i]) && Get(item, keys[i]) == FirstTruthy(item, keys)
        && forall j :: 0 <= j < i ==> !TruthyAt(item, keys[j])
  {
    if keys != [] && !TruthyAt(item, keys[0]) {
      FirstTruthySpec(item, keys[1..]);
      assert forall j :: 0 < j < |keys| ==> keys[1..][j - 1] == keys[j];
      if FirstTruthy(item, keys).Some? {
        var i :| 0 <= i < |keys[1..]| && TruthyAt(item, keys[1..][i]) && Get(item, keys[1..][i]) == FirstTruthy(item, keys)
          && forall j :: 0 <= j < i ==> !TruthyAt(item, keys[1..][j]);
        assert TruthyAt(item, keys[i + 1]);
      }
    }
  }

  /** The token id: the first truthy of `name`, `tokenId`, `token_id`, `id`,
      and otherwise the one-based position in the input. */
  function TokenId(nft: ScoredItem): Value {
    match FirstTruthy(nft.item, TokenIdKeys)
    case Some(v) => v
    case None => Str(IntToString(nft.index + 1))
  }

  /** The score of a type is left blank when an attribute selection is given,
      offers the type and does not select it. */
  predicate ExcludedFromScore(selection: Option<AttributeFieldSelection>, t: string) {
    selection.Some? && t in selection.value.availableTraitTypes && t !in selection.value.selectedTraitTypes
  }

  /** The five leading cells; escaping the two empty aesthetic cells leaves them empty. */
  function LeadCells(nft: ScoredItem): (cells: seq<string>)
    ensures |cells| == 5
  {
    [EscapeCsvValue(TokenId(nft)), Escape(ToFixed10(nft.rarityScore)), Escape(IntToString(nft.rank)), "", ""]
  }

  /** The value, count and score cells of one type: blank when the result has
      no line for it. */
  function TraitCells(nft: ScoredItem, t: string, selection: Option<AttributeFieldSelection>): (cells: seq<string>)
    ensures |cells| == 3
  {
    match Lookup(nft.traits, t)
    case None => ["", "", ""]
    case Some(score) =>
      [EscapeCsvValue(score.value), Escape(IntToString(score.count)),
       if ExcludedFromScore(selection, t) then "" else Escape(ToFixed10(score.rarityScore))]
  }

  function TraitGroups(nft: ScoredItem, types: seq<string>, selection: Option<AttributeFieldSelection>): (groups: seq<seq<string>>)
    ensures |groups| == |types| && Triples(groups)
  {
    seq(|types|, k requires 0 <= k < |types| => TraitCells(nft, types[k], selection))
  }

  /** The cells of one result's row: the leading cells, then three per type. */
  function RowCells(nft: ScoredItem, types: seq<string>, selection: Option<AttributeFieldSelection>): seq<string> {
    LeadCells(nft) + Flatten(TraitGroups(nft, types, selection))
  }

  /** The cells of one trait type pushed onto the row. */
  method PushTraitCells(row: seq<string>, nft: ScoredItem, traitType: string,
                        attributeSelection: Option<AttributeFieldSelection>)
    returns (r: seq<string>)
    ensures r == row + TraitCells(nft, traitType, attributeSelection)
  {
    r := row;
    var found := Lookup(nft.traits, traitType);
    if found.Some? {
      var shouldExcludeFromScore := attributeSelection.Some?
        && traitType in attributeSelection.value.availableTraitTypes
        && traitType !in attributeSelection.value.selectedTraitTypes;
      var value := EscapeCsvValue(found.value.value);
      var count := Escape(IntToString(found.value.count));
      var score := if shouldExcludeFromScore then "" else Escape(ToFixed10(found.value.rarityScore));
      PushThree(row, value, count, score);
      r := r + [value];
      r := r + [count];
      r := r + [score];
    } else {
      PushThree(row, "", "", "");
      r := r + [""];
      r := r + [""];
      r := r + [""];
    }
  }

  method BuildRow(nft: ScoredItem, sortedTraitTypes: seq<string>, attributeSelection: Option<AttributeFieldSelection>)
    returns (row: seq<string>)
    ensures row == RowCells(nft, sortedTraitTypes, attributeSelection)
  {
    ghost var groups := TraitGroups(nft, sortedTraitTypes, attributeSelection);
    row := LeadCells(nft);
    ghost var lead := row;
    var i := 0;
    while i < |sortedTraitTypes|
      invariant 0 <= i <= |sortedTraitTypes|
      invariant row == lead + Flatten(groups[..i])
    {
      LeadFlattenSnoc(lead, groups, i);
      assert groups[i] == TraitCells(nft, sortedTraitTypes[i], attributeSelection);
      row := PushTraitCells(row, nft, sortedTraitTypes[i], attributeSelection);
      i := i + 1;
    }
    assert groups[..i] == groups;
  }

  // ---------------------------------------------------------------- the text

  /** One line per result, in the order of the results. */
  function RowLines(results: seq<ScoredItem>, types: seq<string>, selection: Option<AttributeFieldSelection>): (lines: seq<string>)
    ensures |lines| == |results|
  {
    seq(|results|, j requires 0 <= j < |results| => Join(RowCells(results[j], types, selection), ','))
  }

  /** The header line, then the row lines, separated by line feeds. */
  function CsvText(results: seq<ScoredItem>, selection: Option<AttributeFieldSelection>): string {
    var types := ColumnTypes(results);
    Join([Join(HeaderCells(types), ',')] + RowLines(results, types, selection), '\n')
  }

  /** What `exportRarityResults` downloads: nothing for no results. */
  function ExportCsv(results: seq<ScoredItem>, selection: Option<AttributeFieldSelection>): (r: Option<string>)
    ensures r.None? <==> results == []
  {
    if results == [] then None else Some(CsvText(results, selection))
  }

  /** `rarityResults.forEach(nft => csvRows.push(row.join(',')))`. */
  method PushRowLines(csvRows: seq<string>, rarityResults: seq<ScoredItem>, sortedTraitTypes: seq<string>,
                      attributeSelection: Option<AttributeFieldSelection>)
    returns (r: seq<string>)
    ensures r == csvRows + RowLines(rarityResults, sortedTraitTypes, attributeSelection)
  {
    ghost var lines := RowLines(rarityResults, sortedTraitTypes, attributeSelection);
    r := csvRows;
    var i := 0;
    while i < |rarityResults|
      invariant 0 <= i <= |rarityResults|
      invariant r == csvRows + lines[..i]
    {
      var row := BuildRow(rarityResults[i], sortedTraitTypes, attributeSelection);
      assert Join(row, ',') == lines[i];
      AppendSnoc(csvRows, lines, i);
      r := r + [Join(row, ',')];
      i := i + 1;
    }
    assert lines[..i] == lines;
  }

  /** `exportRarityResults` up to the text handed to the download. */
  method ExportRarityResults(rarityResults: seq<ScoredItem>, attributeSelection: Option<AttributeFieldSelection>)
    returns (csvContent: Option<string>)
    ensures csvContent == ExportCsv(rarityResults, attributeSelection)
  {
    if |rarityResults| == 0 {
      return None;
    }
    var sortedTraitTypes := CollectTraitTypes(rarityResults);
    var headers := BuildHeaders(sortedTraitTypes);
    var csvRows := [Join(headers, ',')];
    csvRows := PushRowLines(csvRows, rarityResults, sortedTraitTypes, attributeSelection);
    csvContent := Some(Join(csvRows, '\n'));
  }

  // ---------------------------------------------------------------- what the text says

  /** Every row has as many cells as the header: five, then three per type. */
  lemma RowWidth(nft: ScoredItem, types: seq<string>, selection: Option<AttributeFieldSelection>)
    ensures |RowCells(nft, types, selection)| == |HeaderCells(types)| == |LeadHeaders| + 3 * |types|
  {
    FlattenLength(TraitGroups(nft, types, selection));
    FlattenLength(HeaderGroups(types));
  }

  /** The three cells of type `types[k]` sit under that type's three headers. */
  lemma ColumnsAligned(nft: ScoredItem, types: seq<string>, selection: Option<AttributeFieldSelection>, k: nat)
    requires k < |types|
    ensures var at := |LeadHeaders| + 3 * k;
      && |RowCells(nft, types, selection)| == |HeaderCells(types)| == |LeadHeaders| + 3 * |types|
      && RowCells(nft, types, selection)[at..at + 3] == TraitCells(nft, types[k], selection)
      && HeaderCells(types)[at..at + 3] == TraitHeaders(types[k])
  {
    LeadThenTripleAt(LeadCells(nft), TraitGroups(nft, types, selection), k);
    LeadThenTripleAt(LeadHeaders, HeaderGroups(types), k);
  }

  /** The five leading cells come first in every row. */
  lemma RowStartsWithLead(nft: ScoredItem, types: seq<string>, selection: Option<AttributeFieldSelection>)
    ensures |RowCells(nft, types, selection)| >= 5 && RowCells(nft, types, selection)[..5] == LeadCells(nft)
  {
  }

  /** The numbers in the leading cells need no quoting: after the token id come
      the total score to ten places, the rank, and two blank aesthetic cells. */
  lemma LeadCellsMeaning(nft: ScoredItem)
    ensures LeadCells(nft) ==
      [EscapeCsvValue(TokenId(nft)), ToFixed10(nft.rarityScore), IntToString(nft.rank), "", ""]
  {
    FixedNeedsNoQuoting(nft.rarityScore);
    IntNeedsNoQuoting(nft.rank);
  }

  /** The token id cell: the one-based position in the input when no id
      property is truthy, and otherwise the first truthy one, read back as written. */
  lemma TokenIdCell(nft: ScoredItem)
    ensures FirstTruthy(nft.item, TokenIdKeys).None? ==>
      var cell := EscapeCsvValue(TokenId(nft));
      cell == IntToString(nft.index + 1) && DigitsValue(cell) == nft.index + 1
    ensures FirstTruthy(nft.item, TokenIdKeys).Some? ==>
      Unescape(EscapeCsvValue(TokenId(nft))) == ToJsString(FirstTruthy(nft.item, TokenIdKeys).value)
  {
    match FirstTruthy(nft.item, TokenIdKeys)
    case None =>
      IntNeedsNoQuoting(nft.index + 1);
      DigitsRoundTrip(nft.index + 1);
    case Some(v) =>
      FirstTruthySpec(nft.item, TokenIdKeys);
      var i :| 0 <= i < |TokenIdKeys| && TruthyAt(nft.item, TokenIdKeys[i]) && Get(nft.item, TokenIdKeys[i]) == Some(v);
      assert v != Null;
      EscapeRoundTrip(ToJsString(v));
  }

  /** The cells of one type: blank when the result has no line for it;
      otherwise the value (read back as written), the count, and the score to
      ten places, which is blank exactly when the selection excludes the type. */
  lemma TraitCellsMeaning(nft: ScoredItem, t: string, selection: Option<AttributeFieldSelection>)
    ensures t !in LineTypes(nft.traits) ==> TraitCells(nft, t, selection) == ["", "", ""]
    ensures t in LineTypes(nft.traits) ==>
      var cells := TraitCells(nft, t, selection);
      var score := Lookup(nft.traits, t);
      && score.Some?
      && (score.value.value != Null ==> Unescape(cells[0]) == ToJsString(score.value.value))
      && cells[1] == IntToString(score.value.count)
      && (cells[2] == "" <==> ExcludedFromScore(selection, t))
      && (!ExcludedFromScore(selection, t) ==> cells[2] == ToFixed10(score.value.rarityScore))
  {
    LookupPresent(nft.traits, t);
    match Lookup(nft.traits, t)
    case None =>
    case Some(score) =>
      if score.value != Null {
        EscapeRoundTrip(ToJsString(score.value));
      }
      IntNeedsNoQuoting(score.count);
      FixedNeedsNoQuoting(score.rarityScore);
      FixedNonEmpty(score.rarityScore);
  }

  /** A fixed-point rendering is never the empty cell. */
  lemma FixedNonEmpty(x: real)
    ensures ToFixed10(x) != ""
  {
    if x < 0.0 {
      NegativeFixed(x);
    } else {
      FixedForm(x);
    }
  }

  predicate NoComma(s: string) {
    ',' !in s
  }

  lemma LeadHeadersNoComma()
    ensures forall k :: 0 <= k < |LeadHeaders| ==> NoComma(LeadHeaders[k])
  {
    assert NoComma("tokenId");
    assert NoComma("statisticalRarityScore");
    assert NoComma("statisticalRarityRank");
    assert NoComma("aestheticRarityScore");
    assert NoComma("aestheticRarityRank");
  }

  lemma TraitHeadersNoComma(t: string)
    requires NoComma(t)
    ensures forall k :: 0 <= k < 3 ==> NoComma(TraitHeaders(t)[k])
  {
    assert NoComma("_value") && NoComma("_count") && NoComma("_score");
  }

  lemma HeaderCellsNoComma(types: seq<string>)
    requires forall k :: 0 <= k < |types| ==> NoComma(types[k])
    ensures forall k :: 0 <= k < |HeaderCells(types)| ==> NoComma(HeaderCells(types)[k])
  {
    var groups := HeaderGroups(types);
    LeadHeadersNoComma();
    FlattenLength(groups);
    forall k | 0 <= k < |HeaderCells(types)| ensures NoComma(HeaderCells(types)[k]) {
      if k >= |LeadHeaders| {
        var g := (k - |LeadHeaders|) / 3;
        FlattenTripleAt(groups, g);
        TraitHeadersNoComma(types[g]);
        assert HeaderCells(types)[k] == groups[g][k - |LeadHeaders| - 3 * g];
      }
    }
  }

  /** The header cells are written without escaping, so the header line splits
      back into them as long as no trait type holds a comma. */
  lemma HeaderSplits(types: seq<string>)
    requires forall k :: 0 <= k < |types| ==> NoComma(types[k])
    ensures Split(Join(HeaderCells(types), ','), ',') == HeaderCells(types)
  {
    HeaderCellsNoComma(types);
    SplitJoin(HeaderCells(types), ',');
  }
}
