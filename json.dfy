/**
 * JSON values as `JSON.parse` produces them, and the object reflection the validators
 * use: `typeof v === 'object' && v !== null`, `Object.keys`, property reads (a missing
 * property is `undefined`, here `None`) and the rest of a destructuring pattern.
 *
 * `Object.keys` of an object is its property list in list order, so a value is taken to
 * list its properties in the order JavaScript enumerates them (integer-like keys first,
 * ascending, then the others in insertion order); nothing here enforces that. An array
 * is an object too: its own enumerable keys are its index strings "0", "1", ...
 */
module Json {
  import opened Wrappers
  import opened JsString

  datatype Json =
    | JNull
    | JBool(b: bool)
    | JNum(n: real)
    | JStr(s: string)
    | JArr(items: seq<Json>)
    | JObj(props: seq<(string, Json)>)

  /** `typeof v === 'object' && v !== null`. */
  predicate IsObject(v: Json) {
    v.JObj? || v.JArr?
  }

  /** `Object.keys(v)` of an object or array. */
  function OwnKeys(v: Json): (keys: seq<string>)
    ensures v.JObj? ==> |keys| == |v.props| && forall i :: 0 <= i < |keys| ==> keys[i] == v.props[i].0
    ensures v.JArr? ==> |keys| == |v.items| && forall i :: 0 <= i < |keys| ==> keys[i] == NatToString(i)
    ensures !IsObject(v) ==> keys == []
  {
    match v
    case JObj(props) => seq(|props|, i requires 0 <= i < |props| => props[i].0)
    case JArr(items) => seq(|items|, i requires 0 <= i < |items| => NatToString(i))
    case _ => []
  }

  /** The value of the first property named `key`, or None. */
  function PropField(props: seq<(string, Json)>, key: string): (r: Option<Json>)
    ensures r.None? <==> forall i :: 0 <= i < |props| ==> props[i].0 != key
    ensures r.Some? ==> exists i :: 0 <= i < |props| && props[i] == (key, r.value)
  {
    if |props| == 0 then None
    else if props[0].0 == key then assert props[0] == (key, props[0].1); Some(props[0].1)
    else
      var r := PropField(props[1..], key);
      assert forall i :: 1 <= i < |props| ==> props[i] == props[1..][i - 1];
      r
  }

  /** `v[key]` on an object or array; None stands for `undefined`. */
  function Field(v: Json, key: string): Option<Json> {
    match v
    case JObj(props) => PropField(props, key)
    case JArr(items) => ArrayField(items, key, 0)
    case _ => None
  }

  /** The element whose index string is `key`, searching from index i. */
  function ArrayField(items: seq<Json>, key: string, i: nat): Option<Json>
    decreases |items| - i
  {
    if i >= |items| then None
    else if NatToString(i) == key then Some(items[i])
    else ArrayField(items, key, i + 1)
  }

  /** Decimal index strings consist of digits. */
  lemma {:induction false} RenderDecimal(ds: seq<nat>)
    requires forall i :: 0 <= i < |ds| ==> ds[i] < 10
    ensures forall i :: 0 <= i < |Render(ds)| ==> '0' <= Render(ds)[i] <= '9'
  {
    if |ds| > 0 {
      RenderDecimal(ds[..|ds| - 1]);
      assert Render(ds) == Render(ds[..|ds| - 1]) + [DigitChar(ds[|ds| - 1])];
    }
  }

  /** A key that does not start with a digit is no array index, so arrays lack it. */
  lemma {:induction false} ArrayFieldNamed(items: seq<Json>, key: string, i: nat)
    requires |key| > 0 && !('0' <= key[0] <= '9')
    ensures ArrayField(items, key, i) == None
    decreases |items| - i
  {
    if i < |items| {
      RenderDecimal(Digits(i, 10));
      assert NatToString(i) != key by {
        assert |NatToString(i)| > 0;
      }
      ArrayFieldNamed(items, key, i + 1);
    }
  }

  /** The keys of `keys` that are not among `named`, in order: a destructuring rest. */
  function RestKeys(keys: seq<string>, named: seq<string>): (r: seq<string>)
    ensures forall k :: k in r <==> k in keys && k !in named
    ensures |r| <= |keys|
  {
    if |keys| == 0 then []
    else if keys[0] in named then RestKeys(keys[1..], named)
    else [keys[0]] + RestKeys(keys[1..], named)
  }

  /** `Object.keys(invalidRest)` for `const {a, b, ...invalidRest} = v`. */
  function InvalidKeys(v: Json, named: seq<string>): seq<string> {
    RestKeys(OwnKeys(v), named)
  }

  /** An object with distinct keys, as `JSON.parse` builds it. */
  predicate DistinctKeys(props: seq<(string, Json)>) {
    forall i, j :: 0 <= i < j < |props| ==> props[i].0 != props[j].0
  }

  /** The destructuring rest is empty exactly when every key is one of the named ones. */
  lemma InvalidKeysNone(v: Json, named: seq<string>)
    ensures |InvalidKeys(v, named)| == 0 <==> forall k :: k in OwnKeys(v) ==> k in named
  {
    var r := InvalidKeys(v, named);
    if |r| > 0 {
      assert r[0] in r;
    }
  }

  /** With distinct keys, reading a key gives the value stored under it. */
  lemma {:induction false} UniqueField(props: seq<(string, Json)>, key: string, i: int)
    requires DistinctKeys(props) && 0 <= i < |props| && props[i].0 == key
    ensures PropField(props, key) == Some(props[i].1)
  {
    if i > 0 {
      assert props[0].0 != key;
      assert DistinctKeys(props[1..]) by {
        forall a, b | 0 <= a < b < |props[1..]| ensures props[1..][a].0 != props[1..][b].0 {
          assert props[1..][a] == props[a + 1] && props[1..][b] == props[b + 1];
        }
      }
      UniqueField(props[1..], key, i - 1);
    }
  }
}
