/** The parsed records the pipeline works on: JSON values as JavaScript sees
    them, with the truthiness test and the `String(...)` conversion written out. */
module JsValues {
  import opened Wrappers
  import opened Text

  /** A JSON value. Numbers are integers (see README). */
  datatype Value =
    | Null
    | Bool(b: bool)
    | Num(n: int)
    | Str(s: string)
    | Arr(items: seq<Value>)
    | Obj(fields: seq<Field>)

  /** One own property of an object; an object lists its properties in insertion order. */
  datatype Field = Field(key: string, val: Value)

  /** An NFT item record: an object's properties. */
  type Item = seq<Field>

  /** `Object.keys(obj)`. */
  function Keys(fields: seq<Field>): (r: seq<string>)
    ensures |r| == |fields|
    ensures forall k :: 0 <= k < |fields| ==> r[k] == fields[k].key
  {
    seq(|fields|, k requires 0 <= k < |fields| => fields[k].key)
  }

  /** `key in obj` for an object's own properties. */
  predicate HasKey(fields: seq<Field>, key: string) {
    key in Keys(fields)
  }

  /** `obj[key]`, `None` standing for `undefined`: the first property with that key. */
  function Get(fields: seq<Field>, key: string): Option<Value> {
    if fields == [] then None
    else if fields[0].key == key then Some(fields[0].val)
    else Get(fields[1..], key)
  }

  /** A property can be read exactly when the object has it. */
  lemma {:induction false} GetDefined(fields: seq<Field>, key: string)
    ensures Get(fields, key).Some? <==> HasKey(fields, key)
  {
    if fields != [] {
      assert Keys(fields) == [fields[0].key] + Keys(fields[1..]);
      GetDefined(fields[1..], key);
    }
  }

  /** `obj[key] = v`: replaces the property in place when it exists, appends it otherwise. */
  function Put(fields: seq<Field>, key: string, v: Value): seq<Field> {
    if fields == [] then [Field(key, v)]
    else if fields[0].key == key then [Field(key, v)] + fields[1..]
    else [fields[0]] + Put(fields[1..], key, v)
  }

  /** After `obj[key] = v`, `obj[key]` is `v` and every other property reads as before. */
  lemma {:induction false} PutReads(fields: seq<Field>, key: string, v: Value)
    ensures Get(Put(fields, key, v), key) == Some(v)
    ensures forall other :: other != key ==> Get(Put(fields, key, v), other) == Get(fields, other)
  {
    if fields != [] && fields[0].key != key {
      PutReads(fields[1..], key, v);
    }
  }

  /** The key order changes only by appending a new key. */
  lemma {:induction false} PutKeys(fields: seq<Field>, key: string, v: Value)
    ensures Keys(Put(fields, key, v)) == if HasKey(fields, key) then Keys(fields) else Keys(fields) + [key]
  {
    if fields != [] {
      KeysCons(fields[0], fields[1..]);
      assert fields == [fields[0]] + fields[1..];
      if fields[0].key != key {
        PutKeys(fields[1..], key, v);
        KeysCons(fields[0], Put(fields[1..], key, v));
      } else {
        KeysCons(Field(key, v), fields[1..]);
      }
    }
  }

  lemma KeysCons(f: Field, rest: seq<Field>)
    ensures Keys([f] + rest) == [f.key] + Keys(rest)
  {
  }

  /** JavaScript truthiness: `null`, `false`, `0` and `""` are falsy. */
  predicate Truthy(v: Value) {
    match v
    case Null => false
    case Bool(b) => b
    case Num(n) => n != 0
    case Str(s) => s != ""
    case Arr(_) => true
    case Obj(_) => true
  }

  /** `String(v)`. An array joins its elements with commas, `null` elements
      rendering as empty; every plain object renders as `[object Object]`. */
  function ToJsString(v: Value): string
    decreases v
  {
    match v
    case Null => "null"
    case Bool(b) => if b then "true" else "false"
    case Num(n) => IntToString(n)
    case Str(s) => s
    case Arr(items) => JoinElements(items)
    case Obj(_) => "[object Object]"
  }

  /** The elements of an array in their `String(...)` form, `null` as empty,
      joined with commas. */
  function JoinElements(items: seq<Value>): string
    decreases items
  {
    if |items| == 0 then ""
    else
      var first := if items[0].Null? then "" else ToJsString(items[0]);
      if |items| == 1 then first else first + "," + JoinElements(items[1..])
  }
}
