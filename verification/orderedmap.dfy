/**
 * The parts of `OrderedMap` (pkg/formatter/ordered_map.go) that differ from `FeatureMap`: the
 * colourless `MarshalJSON`, `Get` with its string type assertion, and
 * `NewOrderedMapFromKVPairs`.
 */
module OrderedMap {
  import opened Json
  import opened Colour
  import Records
  import FeatureMap

  /** `Get`: the value under a present key, which must hold a string (the type assertion). */
  function Get(m: Record, k: string): (s: string)
    requires Records.Has(m, k) && m.dict[k].String?
    ensures Lookup(m, k) == String(s)
  {
    m.dict[k].s
  }

  /** What `Set` stores `Get` reads back. */
  lemma GetAfterSet(m: Record, k: string, s: string)
    ensures Get(Records.Set(m, k, String(s)), k) == s
  {
  }

  /** `json.Marshal` of a value held by an `OrderedMap`: nested maps use their own `MarshalJSON`. */
  function MarshalValue(v: Value, q: Quoting): string
    decreases v, 2
  {
    match v
    case String(s) => q.str(s)
    case Number(text) => text
    case Bool(b) => if b then "true" else "false"
    case Null => "null"
    case Object(m) => MarshalJSON(m, q)
    case Array(xs) => "[" + MarshalItems(xs, q) + "]"
  }

  function MarshalItems(xs: seq<Value>, q: Quoting): string
    decreases xs, 1
  {
    if |xs| == 0 then ""
    else if |xs| == 1 then MarshalValue(xs[0], q)
    else MarshalValue(xs[0], q) + "," + MarshalItems(xs[1..], q)
  }

  /** One member: the `%q` key, `:`, and the marshalled value. */
  function Member(m: Record, k: string, q: Quoting): string
    decreases m, 0
  {
    q.key(k) + ":" + (if k in m.dict then MarshalValue(m.dict[k], q) else "null")
  }

  function Members(m: Record, ks: seq<string>, q: Quoting): string
    decreases m, 1, |ks|
  {
    if |ks| == 0 then ""
    else if |ks| == 1 then Member(m, ks[0], q)
    else Member(m, ks[0], q) + "," + Members(m, ks[1..], q)
  }

  /** `MarshalJSON`: `{`, the members in list order separated by commas, `}`. */
  function MarshalJSON(m: Record, q: Quoting): (r: string)
    ensures |r| >= 2 && r[0] == '{' && r[|r| - 1] == '}'
    ensures |m.keys| == 0 ==> r == "{}"
    decreases m, 2
  {
    "{" + Members(m, m.keys, q) + "}"
  }

  /**
   * The two serialisers agree once colour is switched off: an `OrderedMap` prints exactly what
   * a `FeatureMap` with the no-colour palette prints, at every depth.
   */
  lemma {:induction false} SameAsNoColour(m: Record, q: Quoting)
    ensures MarshalJSON(m, q) == FeatureMap.MarshalJSON(m, NoColour(), q)
    decreases m, 2
  {
    MembersAgree(m, m.keys, q);
  }

  lemma {:induction false} ValueAgrees(v: Value, q: Quoting)
    ensures MarshalValue(v, q) == FeatureMap.MarshalValue(v, NoColour(), q)
    decreases v, 2
  {
    match v
    case Object(m) => SameAsNoColour(m, q);
    case Array(xs) => ItemsAgree(xs, q);
    case _ =>
  }

  lemma {:induction false} ItemsAgree(xs: seq<Value>, q: Quoting)
    ensures MarshalItems(xs, q) == FeatureMap.MarshalItems(xs, NoColour(), q)
    decreases xs, 1
  {
    if |xs| > 0 {
      ValueAgrees(xs[0], q);
      if |xs| > 1 {
        ItemsAgree(xs[1..], q);
      }
    }
  }

  lemma {:induction false} MemberAgrees(m: Record, k: string, q: Quoting)
    ensures Member(m, k, q) == FeatureMap.Member(m, k, NoColour(), q)
    decreases m, 0
  {
    if k in m.dict {
      ValueAgrees(m.dict[k], q);
    }
  }

  lemma {:induction false} MembersAgree(m: Record, ks: seq<string>, q: Quoting)
    ensures Members(m, ks, q) == FeatureMap.Members(m, ks, NoColour(), q)
    decreases m, 1, |ks|
  {
    if |ks| > 0 {
      MemberAgrees(m, ks[0], q);
      if |ks| > 1 {
        MembersAgree(m, ks[1..], q);
      }
    }
  }

  /** `NewOrderedMapFromKVPairs`: `Set` of every pair in turn, starting from an empty map. */
  function FromKVPairs(pairs: seq<(string, Value)>): (r: Record)
    ensures |r.keys| <= |pairs|
    ensures forall k :: k in r.keys ==> exists i :: 0 <= i < |pairs| && pairs[i].0 == k
  {
    if |pairs| == 0 then Empty()
    else
      var init := pairs[..|pairs| - 1];
      var last := pairs[|pairs| - 1];
      assert forall i :: 0 <= i < |init| ==> init[i] == pairs[i];
      Records.Set(FromKVPairs(init), last.0, last.1)
  }

  /** The position of the first pair with key `k`, or `|pairs|` when there is none. */
  function FirstIndex(pairs: seq<(string, Value)>, k: string): (r: nat)
    ensures r <= |pairs|
    ensures r < |pairs| ==> pairs[r].0 == k
    ensures forall i :: 0 <= i < r ==> pairs[i].0 != k
  {
    if |pairs| == 0 then 0 else if pairs[0].0 == k then 0 else 1 + FirstIndex(pairs[1..], k)
  }

  /** The value of the last pair with key `k` (nil when there is none). */
  function LastValue(pairs: seq<(string, Value)>, k: string): Value
  {
    if |pairs| == 0 then Null
    else if pairs[|pairs| - 1].0 == k then pairs[|pairs| - 1].1
    else LastValue(pairs[..|pairs| - 1], k)
  }

  lemma FirstIndexSnoc(pairs: seq<(string, Value)>, x: (string, Value), k: string)
    ensures FirstIndex(pairs + [x], k)
      == if FirstIndex(pairs, k) < |pairs| then FirstIndex(pairs, k) else if x.0 == k then |pairs| else |pairs| + 1
  {
    var p := pairs + [x];
    var i := FirstIndex(pairs, k);
    assert forall j :: 0 <= j < |pairs| ==> p[j] == pairs[j];
    var r := FirstIndex(p, k);
    if i < |pairs| {
      assert p[i].0 == k;
    } else if x.0 == k {
      assert p[|pairs|].0 == k;
    }
  }

  /** Building from pairs keeps the list-and-dictionary invariant. */
  lemma {:induction false} FromKVPairsWellFormed(pairs: seq<(string, Value)>)
    ensures WellFormed(FromKVPairs(pairs))
  {
    if |pairs| > 0 {
      FromKVPairsWellFormed(pairs[..|pairs| - 1]);
    }
  }

  /** A key is in the built map exactly when some pair carries it, and holds its last pair's value. */
  lemma {:induction false} FromKVPairsContents(pairs: seq<(string, Value)>)
    ensures forall k :: Records.Has(FromKVPairs(pairs), k) <==> FirstIndex(pairs, k) < |pairs|
    ensures forall k :: Records.Has(FromKVPairs(pairs), k) ==> Lookup(FromKVPairs(pairs), k) == LastValue(pairs, k)
  {
    if |pairs| > 0 {
      var init := pairs[..|pairs| - 1];
      var x := pairs[|pairs| - 1];
      FromKVPairsContents(init);
      SnocAll(init, x);
      assert pairs == init + [x];
    }
  }

  /** How the first-pair positions change when one pair is appended. */
  ghost predicate FirstIndexAfter(init: seq<(string, Value)>, x: (string, Value))
  {
    forall k :: FirstIndex(init + [x], k)
      == if FirstIndex(init, k) < |init| then FirstIndex(init, k) else if x.0 == k then |init| else |init| + 1
  }

  /** The list of `m` is ordered by the position of each key's first pair. */
  ghost predicate InFirstOrder(m: Record, pairs: seq<(string, Value)>)
  {
    forall a, b :: 0 <= a < b < |m.keys| ==> FirstIndex(pairs, m.keys[a]) < FirstIndex(pairs, m.keys[b])
  }

  lemma SnocAll(init: seq<(string, Value)>, x: (string, Value))
    ensures FirstIndexAfter(init, x)
  {
    forall k {
      FirstIndexSnoc(init, x, k);
    }
  }

  /** The keys of the built map come in the order of their first pair. */
  lemma {:induction false} FromKVPairsOrder(pairs: seq<(string, Value)>)
    ensures InFirstOrder(FromKVPairs(pairs), pairs)
  {
    if |pairs| > 0 {
      var init := pairs[..|pairs| - 1];
      var x := pairs[|pairs| - 1];
      assert pairs == init + [x];
      FromKVPairsOrder(init);
      FromKVPairsWellFormed(init);
      FromKVPairsContents(init);
      SnocAll(init, x);
      var m := FromKVPairs(init);
      if Records.Has(m, x.0) {
        OrderKept(m, init, x);
      } else {
        OrderExtended(m, init, x);
      }
    }
  }

  lemma OrderKept(m: Record, init: seq<(string, Value)>, x: (string, Value))
    requires Records.Has(m, x.0)
    requires forall k :: Records.Has(m, k) <==> FirstIndex(init, k) < |init|
    requires InFirstOrder(m, init) && FirstIndexAfter(init, x)
    requires forall i :: 0 <= i < |m.keys| ==> m.keys[i] in m.dict
    ensures InFirstOrder(Records.Set(m, x.0, x.1), init + [x])
  {
    assert Records.Set(m, x.0, x.1).keys == m.keys;
  }

  lemma OrderExtended(m: Record, init: seq<(string, Value)>, x: (string, Value))
    requires !Records.Has(m, x.0)
    requires forall k :: Records.Has(m, k) <==> FirstIndex(init, k) < |init|
    requires InFirstOrder(m, init) && FirstIndexAfter(init, x)
    requires forall i :: 0 <= i < |m.keys| ==> m.keys[i] in m.dict
    ensures InFirstOrder(Records.Set(m, x.0, x.1), init + [x])
  {
    var r := Records.Set(m, x.0, x.1);
    assert r.keys == m.keys + [x.0];
    forall i | 0 <= i < |m.keys| ensures FirstIndex(init, m.keys[i]) < |init| {
      assert Records.Has(m, m.keys[i]);
    }
    assert FirstIndex(init, x.0) == |init|;
    AppendedLast(m.keys, x.0, init, x);
  }

  lemma AppendedLast(ks: seq<string>, k: string, init: seq<(string, Value)>, x: (string, Value))
    requires x.0 == k && FirstIndex(init, k) == |init| && FirstIndexAfter(init, x)
    requires forall i :: 0 <= i < |ks| ==> FirstIndex(init, ks[i]) < |init|
    requires forall a, b :: 0 <= a < b < |ks| ==> FirstIndex(init, ks[a]) < FirstIndex(init, ks[b])
    ensures forall a, b :: 0 <= a < b < |ks + [k]| ==>
      FirstIndex(init + [x], (ks + [k])[a]) < FirstIndex(init + [x], (ks + [k])[b])
  {
    var p := init + [x];
    var ks1 := ks + [k];
    forall a, b | 0 <= a < b < |ks1| ensures FirstIndex(p, ks1[a]) < FirstIndex(p, ks1[b]) {
      assert ks1[a] == ks[a];
      assert FirstIndex(p, ks[a]) == FirstIndex(init, ks[a]);
      if b < |ks| {
        assert ks1[b] == ks[b];
        assert FirstIndex(p, ks[b]) == FirstIndex(init, ks[b]);
      } else {
        assert FirstIndex(p, k) == |init|;
      }
    }
  }
}
