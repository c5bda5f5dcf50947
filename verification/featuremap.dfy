/**
 * The parts of `FeatureMap` (pkg/featuremap/feature_map.go) that differ from `OrderedMap`: the
 * palette-aware `MarshalJSON`, `Get` with Go's nil for a missing key, and `New`.
 */
module FeatureMap {
  import opened Json
  import opened Colour
  import Records

  /** `New()`: `NewWithPalette` with the no-colour palette; the record itself starts empty. */
  function New(): (r: (Record, Palette))
    ensures r.0 == Empty() && r.1 == NoColour()
  {
    (Empty(), NoColour())
  }

  /** `Get`: the stored value, or nil for an absent key. */
  function Get(m: Record, k: string): (v: Value)
    ensures Records.Has(m, k) ==> v == m.dict[k]
    ensures !Records.Has(m, k) ==> v == Null
  {
    Lookup(m, k)
  }

  /** A new map reports nothing: no keys, length zero, every read misses, and it prints `{}`. */
  lemma NewIsEmpty(k: string, q: Quoting)
    ensures WellFormed(New().0)
    ensures Records.Keys(New().0) == [] && Records.Len(New().0) == 0
    ensures Get(New().0, k) == Null && !Records.Has(New().0, k)
    ensures MarshalJSON(New().0, New().1, q) == "{}"
  {
  }

  /** What `Get` reads after `Set` and `Delete`; `Delete` hands back what `Get` read before. */
  lemma GetAfterWrite(m: Record, k: string, x: string, v: Value)
    ensures Get(Records.Set(m, k, v), k) == v
    ensures x != k ==> Get(Records.Set(m, k, v), x) == Get(m, x)
    ensures Get(Records.Delete(m, k).0, k) == Null
    ensures x != k ==> Get(Records.Delete(m, k).0, x) == Get(m, x)
    ensures Records.Delete(m, k).1 == Get(m, k)
  {
  }

  /**
   * `json.Marshal` of a decoded value: strings through the string encoder, numbers as their
   * text, the three literals, nested maps through their own `MarshalJSON` (which shares the
   * palette of the map they were decoded into) and arrays with their elements between `[`, `]`.
   */
  function MarshalValue(v: Value, p: Palette, q: Quoting): string
    decreases v, 2
  {
    match v
    case String(s) => q.str(s)
    case Number(text) => text
    case Bool(b) => if b then "true" else "false"
    case Null => "null"
    case Object(m) => MarshalJSON(m, p, q)
    case Array(xs) => "[" + MarshalItems(xs, p, q) + "]"
  }

  function MarshalItems(xs: seq<Value>, p: Palette, q: Quoting): string
    decreases xs, 1
  {
    if |xs| == 0 then ""
    else if |xs| == 1 then MarshalValue(xs[0], p, q)
    else MarshalValue(xs[0], p, q) + "," + MarshalItems(xs[1..], p, q)
  }

  /**
   * One member: the key quoted with `%q` and followed by `:`, passed through `Key`; then the
   * value, passed through `Value` only when it is a string.
   */
  function Member(m: Record, k: string, p: Palette, q: Quoting): string
    decreases m, 0
  {
    p.key(q.key(k) + ":")
      + if k in m.dict then
          (if m.dict[k].String? then p.value(q.str(m.dict[k].s)) else MarshalValue(m.dict[k], p, q))
        else "null"
  }

  /** The members for the list nodes `ks`, separated by commas. */
  function Members(m: Record, ks: seq<string>, p: Palette, q: Quoting): string
    decreases m, 1, |ks|
  {
    if |ks| == 0 then ""
    else if |ks| == 1 then Member(m, ks[0], p, q)
    else Member(m, ks[0], p, q) + "," + Members(m, ks[1..], p, q)
  }

  /** `MarshalJSON`: `{`, the members in list order with a comma after all but the last, `}`. */
  function MarshalJSON(m: Record, p: Palette, q: Quoting): (r: string)
    ensures |r| >= 2 && r[0] == '{' && r[|r| - 1] == '}'
    ensures |m.keys| == 0 ==> r == "{}"
    decreases m, 2
  {
    "{" + Members(m, m.keys, p, q) + "}"
  }

  /**
   * Only keys and string values take colour: a number, boolean or nil member is the same under
   * any two palettes that colour keys alike, and a string member tells two value colourings
   * apart exactly when they differ on its encoded string.
   */
  lemma ValueColourOnStrings(m: Record, k: string, p: Palette, p': Palette, q: Quoting)
    requires forall s :: p.key(s) == p'.key(s)
    ensures (Lookup(m, k).Number? || Lookup(m, k).Bool? || Lookup(m, k).Null?) ==>
      Member(m, k, p, q) == Member(m, k, p', q)
    ensures Lookup(m, k).String? ==>
      (Member(m, k, p, q) == Member(m, k, p', q) <==> p.value(q.str(Lookup(m, k).s)) == p'.value(q.str(Lookup(m, k).s)))
  {
    var pre := p.key(q.key(k) + ":");
    assert p'.key(q.key(k) + ":") == pre;
    if Lookup(m, k).String? {
      var a := p.value(q.str(Lookup(m, k).s));
      var b := p'.value(q.str(Lookup(m, k).s));
      assert Member(m, k, p, q) == pre + a;
      assert Member(m, k, p', q) == pre + b;
      assert (pre + a)[|pre|..] == a;
      assert (pre + b)[|pre|..] == b;
    }
  }

  /** Appending a node to the list appends its member after a comma, if there was a member before. */
  lemma {:induction false} MembersSnoc(m: Record, ks: seq<string>, k: string, p: Palette, q: Quoting)
    ensures Members(m, ks + [k], p, q)
      == Members(m, ks, p, q) + (if |ks| == 0 then "" else ",") + Member(m, k, p, q)
    decreases |ks|
  {
    if |ks| == 0 {
      assert ks + [k] == [k];
    } else if |ks| == 1 {
      assert (ks + [k])[1..] == [k];
    } else {
      assert (ks + [k])[1..] == ks[1..] + [k];
      MembersSnoc(m, ks[1..], k, p, q);
    }
  }

  /** The members of the given nodes only depend on the values stored under those keys. */
  lemma {:induction false} MembersFrame(m: Record, m': Record, ks: seq<string>, p: Palette, q: Quoting)
    requires forall i :: 0 <= i < |ks| ==> Lookup(m, ks[i]) == Lookup(m', ks[i])
    ensures Members(m, ks, p, q) == Members(m', ks, p, q)
    decreases |ks|
  {
    if |ks| > 0 {
      assert Member(m, ks[0], p, q) == Member(m', ks[0], p, q);
      if |ks| > 1 {
        MembersFrame(m, m', ks[1..], p, q);
      }
    }
  }

  /**
   * Setting a new key inserts its member before the closing brace, after a comma when the map
   * already had members; the members already there are left as they were.
   */
  lemma MarshalAfterSet(m: Record, k: string, v: Value, p: Palette, q: Quoting)
    requires WellFormed(m) && !Records.Has(m, k)
    ensures var before := MarshalJSON(m, p, q);
      MarshalJSON(Records.Set(m, k, v), p, q)
        == before[..|before| - 1] + (if |m.keys| == 0 then "" else ",") + Member(Records.Set(m, k, v), k, p, q) + "}"
  {
    SetLeavesListed(m, k, v);
    MarshalAppended(m, Records.Set(m, k, v), k, p, q);
  }

  lemma MarshalAppended(m: Record, m1: Record, k: string, p: Palette, q: Quoting)
    requires m1.keys == m.keys + [k]
    requires forall i :: 0 <= i < |m.keys| ==> Lookup(m, m.keys[i]) == Lookup(m1, m.keys[i])
    ensures var before := MarshalJSON(m, p, q);
      MarshalJSON(m1, p, q) == before[..|before| - 1] + (if |m.keys| == 0 then "" else ",") + Member(m1, k, p, q) + "}"
  {
    var body := Members(m, m.keys, p, q);
    var sep := if |m.keys| == 0 then "" else ",";
    MembersSnoc(m1, m.keys, k, p, q);
    MembersFrame(m, m1, m.keys, p, q);
    assert MarshalJSON(m1, p, q) == "{" + (body + sep + Member(m1, k, p, q)) + "}";
    CloseAfter(MarshalJSON(m, p, q), body, sep, Member(m1, k, p, q));
  }

  lemma CloseAfter(before: string, body: string, sep: string, member: string)
    requires before == "{" + body + "}"
    ensures "{" + (body + sep + member) + "}" == before[..|before| - 1] + sep + member + "}"
  {
    assert before[..|before| - 1] == "{" + body;
  }

  lemma SetLeavesListed(m: Record, k: string, v: Value)
    requires WellFormed(m) && !Records.Has(m, k)
    ensures Records.Set(m, k, v).keys == m.keys + [k]
    ensures forall i :: 0 <= i < |m.keys| ==> Lookup(m, m.keys[i]) == Lookup(Records.Set(m, k, v), m.keys[i])
  {
  }

  /** With the no-colour palette every key is the `%q` text and every string value is plain JSON. */
  lemma NoColourMember(m: Record, k: string, q: Quoting)
    ensures Member(m, k, NoColour(), q) == q.key(k) + ":" + MarshalValue(Lookup(m, k), NoColour(), q)
  {
  }
}
