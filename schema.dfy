/** Schema validation of uploaded JSON (components/rarity/utils.ts:101-156): the
    data must be a non-empty array, and the first record must hold at least one
    array field whose first element looks like a trait entry. */
module Schema {
  import opened Wrappers
  import opened Text
  import opened JsValues

  datatype SchemaValidation = SchemaValidation(
    isValid: bool,
    itemCount: nat,
    sampleItem: Option<Value>,
    possibleAttributeKeys: seq<string>,
    errors: seq<string>)

  const NotArrayMessage := "Data must be an array of NFT items"
  const EmptyMessage := "Data array is empty"
  const NoTraitArrayMessage := "No array fields found that could contain traits/attributes"
  /** The TypeError `Object.entries(null)` throws. */
  const NullSampleMessage := "Cannot convert undefined or null to object"

  /** The index keys "0", "1", ... of a sequence of length `n`. */
  function IndexKeys(n: nat): (r: seq<string>)
    ensures |r| == n
    ensures forall k :: 0 <= k < n ==> r[k] == IntToString(k)
  {
    seq(n, k requires 0 <= k < n => IntToString(k))
  }

  /** `Object.keys(v)` for a value `typeof` calls an object. */
  function OwnKeys(v: Value): seq<string> {
    match v
    case Obj(fields) => Keys(fields)
    case Arr(items) => IndexKeys(|items|)
    case _ => []
  }

  /** `Object.entries(v)`: an object's properties, an array's or a string's
      elements under their index keys, nothing for a number or a boolean, and a
      TypeError for null. */
  function Entries(v: Value): (r: Result<seq<Field>>)
    ensures r.Failure? <==> v.Null?
    ensures r.Success? && (v.Obj? || v.Arr?) ==> |r.value| == |OwnKeys(v)|
    ensures r.Success? && (v.Obj? || v.Arr?) ==>
      forall k :: 0 <= k < |r.value| ==> r.value[k].key == OwnKeys(v)[k]
  {
    match v
    case Null => Failure(NullSampleMessage)
    case Bool(_) => Success([])
    case Num(_) => Success([])
    case Str(s) => Success(seq(|s|, k requires 0 <= k < |s| => Field(IntToString(k), Str([s[k]]))))
    case Arr(items) => Success(seq(|items|, k requires 0 <= k < |items| => Field(IntToString(k), items[k])))
    case Obj(fields) => Success(fields)
  }

  /** Some key mentions "trait" or "type" in any case, some key is "value", or
      there are at least two keys. */
  predicate TraitLike(keys: seq<string>) {
    || (exists k :: 0 <= k < |keys| && (Contains(ToLower(keys[k]), "trait") || Contains(ToLower(keys[k]), "type")))
    || "value" in keys
    || |keys| >= 2
  }

  /** A field value that could hold trait entries: a non-empty array whose first
      element is a non-null object (or array) with trait-like keys. */
  predicate Candidate(v: Value) {
    v.Arr? && |v.items| > 0 && (v.items[0].Obj? || v.items[0].Arr?) && TraitLike(OwnKeys(v.items[0]))
  }

  /** The keys of the candidate fields, in property order. */
  function CandidateKeys(entries: seq<Field>): seq<string> {
    if entries == [] then []
    else
      var init := entries[..|entries| - 1];
      var last := entries[|entries| - 1];
      CandidateKeys(init) + if Candidate(last.val) then [last.key] else []
  }

  /** A key is reported exactly when some property under it is a candidate. */
  lemma {:induction false} CandidateKeysMembership(entries: seq<Field>, key: string)
    ensures key in CandidateKeys(entries) <==>
      exists i :: 0 <= i < |entries| && entries[i].key == key && Candidate(entries[i].val)
  {
    if entries != [] {
      var init := entries[..|entries| - 1];
      CandidateKeysMembership(init, key);
      assert forall i :: 0 <= i < |init| ==> init[i] == entries[i];
    }
  }

  /** No more keys are reported than the record has properties. */
  lemma {:induction false} CandidateKeysBound(entries: seq<Field>)
    ensures |CandidateKeys(entries)| <= |entries|
  {
    if entries != [] {
      CandidateKeysBound(entries[..|entries| - 1]);
    }
  }

  /** `validateSchema`. A null first element makes `Object.entries` throw, which
      is the `Failure` case. */
  method ValidateSchema(data: Value) returns (r: Result<SchemaValidation>)
    ensures !data.Arr? ==> r == Success(SchemaValidation(false, 0, None, [], [NotArrayMessage]))
    ensures data == Arr([]) ==> r == Success(SchemaValidation(false, 0, None, [], [EmptyMessage]))
    ensures r.Failure? <==> data.Arr? && |data.items| > 0 && data.items[0].Null?
    ensures r.Failure? ==> r.error == NullSampleMessage
    ensures data.Arr? && |data.items| > 0 && r.Success? ==>
      var entries := Entries(data.items[0]).value;
      && r.value.itemCount == |data.items|
      && r.value.sampleItem == Some(data.items[0])
      && r.value.possibleAttributeKeys == CandidateKeys(entries)
      && (r.value.isValid <==> exists i :: 0 <= i < |entries| && Candidate(entries[i].val))
      && r.value.errors == if r.value.isValid then [] else [NoTraitArrayMessage]
  {
    if !data.Arr? {
      return Success(SchemaValidation(false, 0, None, [], [NotArrayMessage]));
    }
    var itemCount := |data.items|;
    if itemCount == 0 {
      return Success(SchemaValidation(false, itemCount, None, [], [EmptyMessage]));
    }
    var sampleItem := data.items[0];
    var entries := Entries(sampleItem);
    if entries.Failure? {
      return Failure(entries.error);
    }
    var fields := entries.value;
    var possibleKeys: seq<string> := [];
    var i := 0;
    while i < |fields|
      invariant 0 <= i <= |fields|
      invariant possibleKeys == CandidateKeys(fields[..i])
    {
      assert fields[..i + 1][..i] == fields[..i];
      if Candidate(fields[i].val) {
        possibleKeys := possibleKeys + [fields[i].key];
      }
      i := i + 1;
    }
    assert fields[..i] == fields;
    var isValid := |possibleKeys| > 0;
    if isValid {
      assert possibleKeys[0] in CandidateKeys(fields);
      CandidateKeysMembership(fields, possibleKeys[0]);
    } else {
      forall j | 0 <= j < |fields| ensures !Candidate(fields[j].val) {
        CandidateKeysMembership(fields, fields[j].key);
      }
    }
    r := Success(SchemaValidation(isValid, itemCount, Some(sampleItem), possibleKeys,
      if isValid then [] else [NoTraitArrayMessage]));
  }

  /** A first record shaped like `{"attributes": [{"trait_type": t, "value": v}]}`
      passes, with "attributes" as the only candidate key. */
  lemma TypicalRecordIsValid(t: Value, v: Value)
    ensures var entry := Obj([Field("trait_type", t), Field("value", v)]);
      Candidate(Arr([entry]))
      && CandidateKeys([Field("attributes", Arr([entry]))]) == ["attributes"]
  {
    var entry := Obj([Field("trait_type", t), Field("value", v)]);
    assert OwnKeys(entry) == ["trait_type", "value"];
    var entries := [Field("attributes", Arr([entry]))];
    assert entries[..0] == [];
  }
}
