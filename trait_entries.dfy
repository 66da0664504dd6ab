/** How a trait entry is read: the type name comes from the first present key
    among `trait_type`, `traitType`, `type`, `name`, the value from the first
    present key among `value`, `val`, `trait_value`. The three readers differ in
    which values they accept (components/rarity/utils.ts:173-174, 198-203, 300-307). */
module TraitEntries {
  import opened Wrappers
  import opened Text
  import opened JsValues

  const TypeKeys: seq<string> := ["trait_type", "traitType", "type", "name"]
  const ValueKeys: seq<string> := ["value", "val", "trait_value"]

  /** `keys[i]` is present and no earlier key is. */
  predicate FirstPresentAt(fields: seq<Field>, keys: seq<string>, i: int) {
    0 <= i < |keys| && HasKey(fields, keys[i]) && forall j :: 0 <= j < i ==> !HasKey(fields, keys[j])
  }

  /** `keys.find(field => field in attr)`. */
  function FirstPresent(fields: seq<Field>, keys: seq<string>): Option<string> {
    if keys == [] then None
    else if HasKey(fields, keys[0]) then Some(keys[0])
    else FirstPresent(fields, keys[1..])
  }

  /** The key found is the first of `keys` the entry has; none is found exactly
      when the entry has none of them. */
  lemma {:induction false} FirstPresentSpec(fields: seq<Field>, keys: seq<string>)
    ensures FirstPresent(fields, keys).None? <==> forall j :: 0 <= j < |keys| ==> !HasKey(fields, keys[j])
    ensures FirstPresent(fields, keys).Some? ==>
      exists i :: FirstPresentAt(fields, keys, i) && keys[i] == FirstPresent(fields, keys).value
  {
    if keys != [] {
      if HasKey(fields, keys[0]) {
        assert FirstPresentAt(fields, keys, 0);
      } else {
        FirstPresentSpec(fields, keys[1..]);
        var r := FirstPresent(fields, keys[1..]);
        assert forall j :: 0 < j < |keys| ==> keys[1..][j - 1] == keys[j];
        if r.Some? {
          var i :| FirstPresentAt(fields, keys[1..], i) && keys[1..][i] == r.value;
          assert FirstPresentAt(fields, keys, i + 1);
        }
      }
    }
  }

  /** The value stored under the first present key of `keys`. */
  function FirstPresentValue(fields: seq<Field>, keys: seq<string>): (r: Option<Value>)
  {
    match FirstPresent(fields, keys)
    case None => None
    case Some(k) => Get(fields, k)
  }

  /** The type name of an entry as the field analyzer reads it: the first present
      type key must hold a truthy value, whatever later keys hold. */
  function TypeName(attr: Value): Option<string> {
    match attr
    case Obj(fields) =>
      (match FirstPresentValue(fields, TypeKeys)
       case Some(v) => if Truthy(v) then Some(ToJsString(v)) else None
       case None => None)
    case _ => None
  }

  /** The value of an entry as the trait validator reads it: the trimmed string
      form of a truthy value, and `""` for any falsy or missing one. */
  function StatsValue(attr: Value): string {
    match attr
    case Obj(fields) =>
      (match FirstPresentValue(fields, ValueKeys)
       case Some(v) => if Truthy(v) then Trim(ToJsString(v)) else ""
       case None => "")
    case _ => ""
  }

  /** A (type, value) pair as the rarity engine reads it: the value may be any
      non-null value whose trimmed string form is not empty, `0` and `false` included. */
  function ScoringPair(attr: Value): Option<(string, string)> {
    match TypeName(attr)
    case None => None
    case Some(t) =>
      (match FirstPresentValue(attr.fields, ValueKeys)
       case Some(v) =>
         if v != Null && Trim(ToJsString(v)) != "" then Some((t, Trim(ToJsString(v)))) else None
       case None => None)
  }

  /** `item[attributeKey]` when it is an array, and no entries otherwise. */
  function AttrsOf(item: Item, key: string): seq<Value> {
    match Get(item, key)
    case Some(Arr(entries)) => entries
    case _ => []
  }

  /** Every entry of every record, record by record. */
  function AllEntries(data: seq<Item>, key: string): seq<Value> {
    if data == [] then [] else AllEntries(data[..|data| - 1], key) + AttrsOf(data[|data| - 1], key)
  }

  lemma AllEntriesSnoc(data: seq<Item>, item: Item, key: string)
    ensures AllEntries(data + [item], key) == AllEntries(data, key) + AttrsOf(item, key)
  {
    assert (data + [item])[..|data|] == data;
  }

  /** The type names read from `entries` (by `TypeName`), in order, repeats kept. */
  function Names(entries: seq<Value>): seq<string> {
    if entries == [] then []
    else
      var last := entries[|entries| - 1];
      Names(entries[..|entries| - 1]) + match TypeName(last) { case Some(t) => [t] case None => [] }
  }

  /** A name is read exactly when some entry carries it. */
  lemma {:induction false} NamesMembership(entries: seq<Value>, t: string)
    ensures t in Names(entries) <==> exists k :: 0 <= k < |entries| && TypeName(entries[k]) == Some(t)
  {
    if entries != [] {
      var init := entries[..|entries| - 1];
      NamesMembership(init, t);
      assert forall k :: 0 <= k < |init| ==> init[k] == entries[k];
    }
  }

  lemma {:induction false} NamesAppend(a: seq<Value>, b: seq<Value>)
    ensures Names(a + b) == Names(a) + Names(b)
  {
    if b != [] {
      NamesAppend(a, b[..|b| - 1]);
      assert (a + b)[..|a + b| - 1] == a + b[..|b| - 1];
    } else {
      assert a + b == a;
    }
  }

  /** A number 0 in the value is blank to the trait validator ... */
  lemma ZeroValueIsBlankForStats()
    ensures StatsValue(Obj([Field("trait_type", Str("Eyes")), Field("value", Num(0))])) == ""
  {
    var f := [Field("trait_type", Str("Eyes")), Field("value", Num(0))];
    assert Keys(f) == ["trait_type", "value"];
    assert FirstPresent(f, ValueKeys) == Some("value");
  }

  /** ... but a value "0" to the rarity engine. */
  lemma ZeroValueIsKeptForScoring()
    ensures ScoringPair(Obj([Field("trait_type", Str("Eyes")), Field("value", Num(0))])) == Some(("Eyes", "0"))
  {
    TwoFieldEntry(Str("Eyes"), Num(0));
    ZeroRendersAsZero();
  }

  lemma ZeroRendersAsZero()
    ensures Trim(ToJsString(Num(0))) == "0"
  {
    var z := ToJsString(Num(0));
    assert z == "0" by { assert Digits(0) == "0"; }
    assert !IsJsSpace(z[0]);
    assert TrimStart(z) == z;
    assert TrimEnd(z) == z;
  }

  /** How an entry `{trait_type: t, value: v}` is read. */
  lemma TwoFieldEntry(t: Value, v: Value)
    ensures var f := [Field("trait_type", t), Field("value", v)];
      FirstPresentValue(f, TypeKeys) == Some(t) && FirstPresentValue(f, ValueKeys) == Some(v)
  {
    var f := [Field("trait_type", t), Field("value", v)];
    assert Keys(f) == ["trait_type", "value"];
    assert FirstPresent(f, TypeKeys) == Some("trait_type");
    assert FirstPresent(f, ValueKeys) == Some("value");
    assert f[1..] == [Field("value", v)];
    assert "trait_type" != "value" by { assert "trait_type"[0] != "value"[0]; }
    assert Get(f, "trait_type") == Some(t);
    assert Get(f, "value") == Get(f[1..], "value") == Some(v);
  }

  /** The first present type key decides: a falsy `trait_type` drops the entry
      even when `name` is set. */
  lemma FirstTypeKeyQuirk()
    ensures TypeName(Obj([Field("trait_type", Str("")), Field("name", Str("Hat"))])) == None
  {
    var f := [Field("trait_type", Str("")), Field("name", Str("Hat"))];
    assert Keys(f) == ["trait_type", "name"];
  }
}
