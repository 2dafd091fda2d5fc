/** The JSON values of the content document, with `undefined` for a
    property that is not there, and the few JavaScript operations the merge
    applies to them: truthiness, `||`, property reads, property writes,
    object spread and `toString`. Objects keep their keys in insertion
    order. */
module Json {
  import opened Text

  datatype Json =
    | JUndefined
    | JNull
    | JBool(b: bool)
    | JNum(n: int)
    | JStr(s: string)
    | JArr(items: seq<Json>)
    | JObj(fields: seq<(string, Json)>)

  /** A value, or the `TypeError` JavaScript throws on reading a property
      of null or undefined or on calling a method a value does not have. */
  datatype Result<+T> = Ok(value: T) | TypeError

  /** JavaScript truthiness. */
  predicate Truthy(v: Json) {
    match v
    case JUndefined => false
    case JNull => false
    case JBool(b) => b
    case JNum(n) => n != 0
    case JStr(s) => s != ""
    case JArr(_) => true
    case JObj(_) => true
  }

  /** `a || b`. */
  function Or(a: Json, b: Json): (r: Json)
    ensures Truthy(a) ==> r == a
    ensures !Truthy(a) ==> r == b
  {
    if Truthy(a) then a else b
  }

  /** The keys of an object's fields, in order. */
  function Keys(fields: seq<(string, Json)>): (r: seq<string>)
    ensures |r| == |fields|
    ensures forall k :: 0 <= k < |fields| ==> r[k] == fields[k].0
  {
    seq(|fields|, k requires 0 <= k < |fields| => fields[k].0)
  }

  /** The value under `key`, `undefined` when there is none. */
  function Lookup(fields: seq<(string, Json)>, key: string): (r: Json)
    ensures key !in Keys(fields) ==> r == JUndefined
    decreases |fields|
  {
    if |fields| == 0 then JUndefined
    else if fields[0].0 == key then fields[0].1
    else Lookup(fields[1..], key)
  }

  /** `v.key`, and `v?.key` when `v` is null or undefined: only an object
      has the properties the merge reads. */
  function Get(v: Json, key: string): Json {
    if v.JObj? then Lookup(v.fields, key) else JUndefined
  }

  /** Writing a property: an existing key keeps its place and takes the new
      value, a new key goes last, and no other key changes. */
  function Set(fields: seq<(string, Json)>, key: string, value: Json): (r: seq<(string, Json)>)
    ensures Keys(r) == if key in Keys(fields) then Keys(fields) else Keys(fields) + [key]
    ensures Lookup(r, key) == value
    ensures forall k :: k != key ==> Lookup(r, k) == Lookup(fields, k)
    decreases |fields|
  {
    if |fields| == 0 then [(key, value)]
    else if fields[0].0 == key then [(key, value)] + fields[1..]
    else [fields[0]] + Set(fields[1..], key, value)
  }

  /** Writing a key to the value it already has changes nothing. */
  lemma {:induction false} SetSame(fields: seq<(string, Json)>, key: string, value: Json)
    requires key in Keys(fields) && Lookup(fields, key) == value
    ensures Set(fields, key, value) == fields
    decreases |fields|
  {
    if fields[0].0 != key {
      assert Keys(fields[1..]) == Keys(fields)[1..];
      SetSame(fields[1..], key, value);
    }
  }

  /** No key twice. */
  predicate DistinctKeys(fields: seq<(string, Json)>) {
    forall i, j :: 0 <= i < j < |fields| ==> fields[i].0 != fields[j].0
  }

  /** `{ ...base, k1: v1, k2: v2, … }`: the pairs written one after the
      other. */
  function SetAll(fields: seq<(string, Json)>, pairs: seq<(string, Json)>): (r: seq<(string, Json)>)
    ensures Keys(fields) <= Keys(r)
    ensures forall k :: k in Keys(r) <==> k in Keys(fields) || k in Keys(pairs)
    ensures forall k :: k !in Keys(pairs) ==> Lookup(r, k) == Lookup(fields, k)
    decreases |pairs|
  {
    if |pairs| == 0 then fields
    else
      assert Keys(pairs[1..]) == Keys(pairs)[1..];
      SetAll(Set(fields, pairs[0].0, pairs[0].1), pairs[1..])
  }

  /** With no key twice, each pair's key holds the pair's value. */
  lemma {:induction false} SetAllLookup(fields: seq<(string, Json)>, pairs: seq<(string, Json)>)
    requires DistinctKeys(pairs)
    ensures forall i :: 0 <= i < |pairs| ==> Lookup(SetAll(fields, pairs), pairs[i].0) == pairs[i].1
    decreases |pairs|
  {
    if |pairs| > 0 {
      var f := Set(fields, pairs[0].0, pairs[0].1);
      var rest := pairs[1..];
      SetAllLookup(f, rest);
      assert pairs[0].0 !in Keys(rest);
    }
  }

  /** Writing pairs the object already holds changes nothing. */
  lemma {:induction false} SetAllSame(fields: seq<(string, Json)>, pairs: seq<(string, Json)>)
    requires forall i :: 0 <= i < |pairs| ==> pairs[i].0 in Keys(fields) && Lookup(fields, pairs[i].0) == pairs[i].1
    ensures SetAll(fields, pairs) == fields
    decreases |pairs|
  {
    if |pairs| > 0 {
      SetSame(fields, pairs[0].0, pairs[0].1);
      SetAllSame(fields, pairs[1..]);
    }
  }

  /** `{ ...v }`: an object's own fields; an array's elements and a
      string's characters under their indices; nothing for anything else. */
  function SpreadFields(v: Json): seq<(string, Json)> {
    match v
    case JObj(fields) => fields
    case JArr(items) => seq(|items|, i requires 0 <= i < |items| => (NatToString(i), items[i]))
    case JStr(s) => seq(|s|, i requires 0 <= i < |s| => (NatToString(i), JStr([s[i]])))
    case _ => []
  }

  /** `String(v)` for the values JSON can hold; numbers are integers here.
      An object whose own `toString` key holds a value (JSON cannot hold a
      function) makes the conversion throw, at the top or as an array
      element at any depth. */
  function ToStr(v: Json): (r: Result<string>)
    ensures v.JStr? ==> r == Ok(v.s)
    decreases v
  {
    match v
    case JUndefined => Ok("undefined")
    case JNull => Ok("null")
    case JBool(b) => Ok(if b then "true" else "false")
    case JNum(n) => Ok(if n < 0 then "-" + NatToString(-n) else NatToString(n))
    case JStr(s) => Ok(s)
    case JArr(items) =>
      // `Array.prototype.join` writes null and undefined elements as ''
      var parts := seq(|items|, i requires 0 <= i < |items| =>
        if items[i].JNull? || items[i].JUndefined? then Ok("") else ToStr(items[i]));
      if exists i :: 0 <= i < |parts| && parts[i].TypeError? then TypeError
      else Ok(Join(seq(|parts|, i requires 0 <= i < |parts| => ValueOr(parts[i], "")), ","))
    case JObj(fields) => if "toString" in Keys(fields) then TypeError else Ok("[object Object]")
  }

  function ValueOr<T>(r: Result<T>, d: T): T {
    if r.Ok? then r.value else d
  }
}
