/**
 * The closed set of JavaScript values that flow through the admin forms, the
 * server actions and the data grid, and plain objects as ordered key/value
 * entries (JavaScript objects keep their keys in insertion order).
 */
module JsValues {
  import opened Text

  datatype JsValue =
    | Undefined
    | Null
    | Bool(b: bool)
    | Num(n: int)
      /** The number `Number(arg)` evaluates to; the conversion itself is not interpreted. */
    | NumberOf(arg: JsValue)
    | Str(s: string)
      /** A `Date` object holding a time value. */
    | DateObj(time: int)
    | Object(entries: seq<(string, JsValue)>)
    | Array(items: seq<JsValue>)

  /** A plain object such as `Record<string, any>`, as its entries in key order. */
  type Entries = seq<(string, JsValue)>

  /** Every key of a JavaScript object occurs once. */
  ghost predicate DistinctKeys(obj: Entries)
  {
    forall i, j :: 0 <= i < j < |obj| ==> obj[i].0 != obj[j].0
  }

  /** `Object.keys(obj)`. */
  function Keys(obj: Entries): (ks: seq<string>)
    ensures |ks| == |obj|
    ensures forall i :: 0 <= i < |obj| ==> ks[i] == obj[i].0
  {
    if obj == [] then [] else [obj[0].0] + Keys(obj[1..])
  }

  /** `obj[key]`: the value stored under `key`, `undefined` when there is none. */
  function Get(obj: Entries, key: string): (v: JsValue)
    ensures key !in Keys(obj) ==> v == Undefined
  {
    if obj == [] then Undefined
    else if obj[0].0 == key then obj[0].1
    else Get(obj[1..], key)
  }

  /** With distinct keys, `obj[key]` is the value of the one entry named `key`. */
  lemma {:induction false} GetEntry(obj: Entries, key: string, i: nat)
    requires DistinctKeys(obj) && i < |obj| && obj[i].0 == key
    ensures Get(obj, key) == obj[i].1
  {
    if i > 0 {
      assert obj[0].0 != key;
      GetEntry(obj[1..], key, i - 1);
    }
  }

  /** `{ ...obj, [key]: v }`: an existing key keeps its position, a new key goes last. */
  function Set(obj: Entries, key: string, v: JsValue): (r: Entries)
    ensures Get(r, key) == v
    ensures forall k :: k != key ==> Get(r, k) == Get(obj, k)
  {
    if obj == [] then [(key, v)]
    else if obj[0].0 == key then [(key, v)] + obj[1..]
    else [obj[0]] + Set(obj[1..], key, v)
  }

  /** Setting a key keeps the key order and appends a key that was not there. */
  lemma {:induction false} SetKeys(obj: Entries, key: string, v: JsValue)
    ensures key in Keys(obj) ==> Keys(Set(obj, key, v)) == Keys(obj)
    ensures key !in Keys(obj) ==> Keys(Set(obj, key, v)) == Keys(obj) + [key]
  {
    if obj != [] {
      var r := Set(obj, key, v);
      if obj[0].0 == key {
        assert Keys(r) == [key] + Keys(obj[1..]);
      } else {
        SetKeys(obj[1..], key, v);
        assert r[1..] == Set(obj[1..], key, v);
        assert Keys(r) == [obj[0].0] + Keys(r[1..]);
        assert Keys(obj) == [obj[0].0] + Keys(obj[1..]);
        assert key in Keys(obj) <==> key in Keys(obj[1..]);
      }
    }
  }

  /** Updating or adding a key keeps an object's keys distinct. */
  lemma SetKeepsKeysDistinct(obj: Entries, key: string, v: JsValue)
    requires DistinctKeys(obj)
    ensures DistinctKeys(Set(obj, key, v))
  {
    var r := Set(obj, key, v);
    var ks, rs := Keys(obj), Keys(r);
    SetKeys(obj, key, v);
    forall i, j | 0 <= i < j < |r| ensures r[i].0 != r[j].0 {
      assert rs[i] == r[i].0 && rs[j] == r[j].0;
      if key in ks {
        assert rs == ks;
      } else {
        assert rs == ks + [key];
        assert j < |ks| ==> ks[i] == obj[i].0 && ks[j] == obj[j].0;
      }
    }
  }
}

/** Column metadata as the schema-introspection query returns it. */
module Schema {
  import opened Wrappers

  datatype ModelColumn = ModelColumn(
    columnName: string,
    dataType: string,
    characterMaximumLength: Option<int>,
    columnDefault: Option<string>,
    isNullable: string)

  /** The columns of one table have distinct names. */
  ghost predicate DistinctNames(columns: seq<ModelColumn>)
  {
    forall i, j :: 0 <= i < j < |columns| ==> columns[i].columnName != columns[j].columnName
  }
}
