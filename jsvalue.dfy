/**
 * Untyped JavaScript values, as the configuration objects and command-line options reach the
 * core: `undefined`, `null`, booleans, numbers, strings, arrays and plain objects whose keys
 * remember their insertion order. NaN and the infinities are not represented.
 */
module JsValues {

  datatype Json =
    | Undefined
    | Null
    | Bool(b: bool)
    | Num(n: real)
    | Str(s: string)
    | Arr(items: seq<Json>)
    | Obj(keys: seq<string>, fields: map<string, Json>)

  /** JavaScript truthiness: `undefined`, `null`, `false`, `0` and `''` are falsy, everything else truthy. */
  predicate Truthy(v: Json) {
    match v
    case Undefined => false
    case Null => false
    case Bool(b) => b
    case Num(n) => n != 0.0
    case Str(s) => s != ""
    case Arr(_) => true
    case Obj(_, _) => true
  }

  /** `v[key]`: a property of a plain object, `undefined` for an absent key or a non-object. */
  function Get(v: Json, key: string): (r: Json)
    ensures !v.Obj? ==> r == Undefined
    ensures v.Obj? && key in v.fields ==> r == v.fields[key]
  {
    if v.Obj? && key in v.fields then v.fields[key] else Undefined
  }

  /** `v ?? fallback`. */
  function OrElse(v: Json, fallback: Json): (r: Json)
    ensures r == (if v.Undefined? || v.Null? then fallback else v)
  {
    if v.Undefined? || v.Null? then fallback else v
  }

  /** `v || fallback`. */
  function OrIfFalsy(v: Json, fallback: Json): (r: Json)
    ensures Truthy(v) ==> r == v
    ensures !Truthy(v) ==> r == fallback
  {
    if Truthy(v) then v else fallback
  }

  /** `typeof v === 'object'` for a non-null value: arrays and plain objects. */
  predicate IsObject(v: Json) {
    v.Arr? || v.Obj?
  }

  /** A plain object with the given key/value pairs, in order (later pairs overwrite earlier ones). */
  function MakeObj(pairs: seq<(string, Json)>): (r: Json)
    ensures r.Obj?
    ensures forall i :: 0 <= i < |pairs| ==> pairs[i].0 in r.fields
    ensures |pairs| > 0 ==> r.fields[pairs[|pairs| - 1].0] == pairs[|pairs| - 1].1
  {
    if |pairs| == 0 then Obj([], map[])
    else
      var o := MakeObj(pairs[..|pairs| - 1]);
      var (k, v) := pairs[|pairs| - 1];
      assert forall i :: 0 <= i < |pairs| - 1 ==> pairs[i] == pairs[..|pairs| - 1][i];
      Obj(if k in o.fields then o.keys else o.keys + [k], o.fields[k := v])
  }

  /** `{ ...base, ...over }`: every key of `over` replaces that of `base`; new keys go last. */
  function Spread(base: Json, over: Json): (r: Json)
    ensures r.Obj?
    ensures forall k :: k in r.fields <==> (base.Obj? && k in base.fields) || (over.Obj? && k in over.fields)
    ensures forall k :: over.Obj? && k in over.fields ==> r.fields[k] == over.fields[k]
    ensures forall k :: base.Obj? && k in base.fields && !(over.Obj? && k in over.fields) ==> r.fields[k] == base.fields[k]
  {
    var b := if base.Obj? then base else Obj([], map[]);
    if !over.Obj? then Obj(b.keys, b.fields)
    else
      Obj(b.keys + NewKeys(b.fields, over.keys), b.fields + over.fields)
  }

  /** `{ ...v }`: a plain-object copy (empty for anything that is not an object). */
  function Copy(v: Json): (r: Json)
    ensures r.Obj?
    ensures forall k :: Get(r, k) == Get(v, k)
  {
    Spread(v, Undefined)
  }

  /** `{ ...v, [key]: value }`, which is also what assigning a property of a fresh copy gives. */
  function Assign(v: Json, key: string, value: Json): (r: Json)
    ensures r.Obj?
    ensures Get(r, key) == value
    ensures forall k :: k != key ==> Get(r, k) == Get(v, k)
  {
    Spread(v, Obj([key], map[key := value]))
  }

  /** The keys of `ks` not already in `m`, in order. */
  function NewKeys(m: map<string, Json>, ks: seq<string>): seq<string>
    decreases |ks|
  {
    if |ks| == 0 then []
    else (if ks[0] in m then [] else [ks[0]]) + NewKeys(m[ks[0] := Null], ks[1..])
  }
}
