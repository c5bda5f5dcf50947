/**
 * The values an ordered record holds and the tokens its decoder reads.
 *
 * A record is the pair the Go map types keep in step: the insertion list of keys (`keys`) and
 * the key-to-value dictionary (`dict`). Both `FeatureMap` (pkg/featuremap/feature_map.go) and
 * `OrderedMap` (pkg/formatter/ordered_map.go) have exactly this shape.
 */
module Json {

  /**
   * A decoded JSON value. Numbers keep their source text (`json.Number`), `Null` is Go's nil
   * interface, objects are nested records and arrays are sequences.
   */
  datatype Value =
    | String(s: string)
    | Number(text: string)
    | Bool(b: bool)
    | Null
    | Object(obj: Record)
    | Array(items: seq<Value>)

  datatype Record = Record(keys: seq<string>, dict: map<string, Value>)

  /** The tokens `json.Decoder.Token` delivers: the four delimiters and the scalar tokens. */
  datatype Token =
    | BeginObject
    | EndObject
    | BeginArray
    | EndArray
    | Str(s: string)
    | Num(text: string)
    | Boolean(b: bool)
    | NullToken

  /** The two string encoders the marshallers call: `%q` for keys, `json.Marshal` for strings. */
  datatype Quoting = Quoting(key: string -> string, str: string -> string)

  /** A fresh record with no entries (`NewWithPalette`, `NewOrderedMap`); it keeps the invariant. */
  function Empty(): (r: Record)
    ensures WellFormed(r)
    ensures |r.keys| == 0 && |r.dict| == 0
  {
    Record([], map[])
  }

  /** `dict[key]` in Go: the stored value, or the nil interface when the key is absent. */
  function Lookup(m: Record, k: string): (v: Value)
    ensures k in m.dict ==> v == m.dict[k]
    ensures k !in m.dict ==> v == Null
  {
    if k in m.dict then m.dict[k] else Null
  }

  ghost predicate NoDuplicates(s: seq<string>)
  {
    forall i, j :: 0 <= i < j < |s| ==> s[i] != s[j]
  }

  /** The invariant of the list-plus-dictionary pair: each key listed once, and listed iff stored. */
  ghost predicate WellFormed(m: Record)
  {
    && NoDuplicates(m.keys)
    && (forall k :: k in m.dict ==> k in m.keys)
    && (forall i :: 0 <= i < |m.keys| ==> m.keys[i] in m.dict)
  }

  /** Every record inside the value, at any depth, is well formed. */
  ghost predicate WellFormedValue(v: Value)
  {
    match v
    case Object(m) => WellFormed(m) && forall k :: k in m.dict ==> WellFormedValue(m.dict[k])
    case Array(xs) => forall i :: 0 <= i < |xs| ==> WellFormedValue(xs[i])
    case _ => true
  }
}
