/**
 * Plain JavaScript objects as the translator uses them: string keys in
 * `Object.keys` order, JSON values, truthiness, and the properties every plain
 * object inherits from `Object.prototype`.
 */
module JsObjects {

  /** A JSON value (what `JSON.parse` can produce). */
  datatype Json =
    | JNull
    | JBool(b: bool)
    | JNumber(n: real)
    | JString(s: string)
    | JArray(items: seq<Json>)
    | JObject(entries: seq<(string, Json)>)

  /** JavaScript truthiness of a JSON value (`NaN` never comes out of `JSON.parse`). */
  predicate Truthy(v: Json) {
    match v
    case JNull => false
    case JBool(b) => b
    case JNumber(n) => n != 0.0
    case JString(s) => s != ""
    case _ => true
  }

  /** The value that marks a key as still waiting for its translation. */
  const PENDING: Json := JString("")

  /**
   * The members every plain object inherits from `Object.prototype`; reading
   * one of them from an object that lacks it as an own property yields a
   * function (or, for `__proto__`, the prototype itself), which is truthy.
   */
  const PROTOTYPE_NAMES: set<string> := {
    "constructor", "hasOwnProperty", "isPrototypeOf", "propertyIsEnumerable",
    "toString", "toLocaleString", "valueOf", "__proto__",
    "__defineGetter__", "__defineSetter__", "__lookupGetter__", "__lookupSetter__"
  }

  predicate Distinct(s: seq<string>) {
    forall i, j :: 0 <= i < j < |s| ==> s[i] != s[j]
  }

  /** A snapshot of a plain object: its own keys in enumeration order and their values. */
  datatype Dict = Dict(keys: seq<string>, vals: map<string, Json>) {

    /** Keys are listed once each, and exactly the keys that have values are listed. */
    predicate Valid() {
      && Distinct(keys)
      && (forall k | k in vals :: k in keys)
      && (forall k | k in keys :: k in vals)
    }

    /** `o[k] === ""`: an inherited member is a function, never the empty string. */
    predicate IsPending(k: string) {
      k in vals && vals[k] == PENDING
    }

    /** `!!o[k]`, looking through to `Object.prototype` when `k` is not an own key. */
    predicate HasTruthy(k: string) {
      if k in vals then Truthy(vals[k]) else k in PROTOTYPE_NAMES
    }

    /** `o[k] = v`: an own key keeps its place, a new key goes last. */
    function Put(k: string, v: Json): (r: Dict)
      ensures Valid() ==> r.Valid()
      ensures k in r.vals && r.vals[k] == v
      ensures forall j :: j != k ==> (j in r.vals <==> j in vals)
      ensures forall j :: j != k && j in vals ==> r.vals[j] == vals[j]
      ensures |keys| <= |r.keys| && r.keys[..|keys|] == keys
      ensures k in vals ==> r.keys == keys
      ensures k !in vals ==> r.keys == keys + [k]
    {
      if k in vals then Dict(keys, vals[k := v])
      else Dict(keys + [k], vals[k := v])
    }
  }

  const EMPTY: Dict := Dict([], map[])

  /** True when no own key of `d` is pending. */
  predicate NoPending(d: Dict) {
    forall k :: k in d.vals ==> d.vals[k] != PENDING
  }

  /** A plain object that the translator changes in place. */
  class JsObject {
    var keys: seq<string>
    var vals: map<string, Json>

    function Value(): Dict
      reads this
    {
      Dict(keys, vals)
    }

    predicate Valid()
      reads this
    {
      Value().Valid()
    }

    /** `{ ...d }`: a new object with the same own keys, in the same order. */
    constructor Copy(d: Dict)
      ensures Value() == d
    {
      keys := d.keys;
      vals := d.vals;
    }

    /** `this[k] = v`. */
    method Put(k: string, v: Json)
      modifies this
      ensures Value() == old(Value()).Put(k, v)
    {
      if k !in vals {
        keys := keys + [k];
      }
      vals := vals[k := v];
    }
  }
}
