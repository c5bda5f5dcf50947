/**
 * The single-key operations and iterators that `FeatureMap` (pkg/featuremap/feature_map.go:57-116)
 * and `OrderedMap` (pkg/formatter/ordered_map.go:61-120) implement with identical code.
 */
module Records {
  import opened Json

  /** `Has`: the dictionary holds the key; on a well-formed record, exactly the listed keys. */
  predicate Has(m: Record, k: string)
    ensures WellFormed(m) ==> (Has(m, k) <==> k in m.keys)
  {
    k in m.dict
  }

  /** `Keys`: the insertion list, front to back; on a well-formed record, each stored key once. */
  function Keys(m: Record): (ks: seq<string>)
    ensures WellFormed(m) ==> NoDuplicates(ks) && forall k :: k in ks <==> k in m.dict
  {
    m.keys
  }

  /**
   * `Len`: the size of the dictionary (not of the list). The invariant makes the two agree, so
   * `Len() == len(Keys())`.
   */
  function Len(m: Record): (n: nat)
    ensures WellFormed(m) ==> n == |Keys(m)|
  {
    DictSizeIsListLength(m);
    |m.dict|
  }

  /** `GetValue`: the stored value and whether the key is present. */
  function GetValue(m: Record, k: string): (r: (Value, bool))
    ensures r.1 <==> Has(m, k)
    ensures r.1 ==> r.0 == m.dict[k]
    ensures !r.1 ==> r.0 == Null
  {
    (Lookup(m, k), k in m.dict)
  }

  /** `s` with every occurrence of `k` removed, the rest in order. */
  function Without(s: seq<string>, k: string): (r: seq<string>)
    ensures forall x :: x in r <==> x in s && x != k
    ensures |r| <= |s|
  {
    if |s| == 0 then []
    else if s[0] == k then Without(s[1..], k)
    else [s[0]] + Without(s[1..], k)
  }

  /** `s` with its last occurrence of `k` removed: the list node the key index points at. */
  function RemoveLast(s: seq<string>, k: string): seq<string>
  {
    if |s| == 0 then []
    else if s[|s| - 1] == k then s[..|s| - 1]
    else RemoveLast(s[..|s| - 1], k) + [s[|s| - 1]]
  }

  lemma {:induction false} WithoutNoDuplicates(s: seq<string>, k: string)
    requires NoDuplicates(s)
    ensures NoDuplicates(Without(s, k))
  {
    if |s| > 0 {
      WithoutNoDuplicates(s[1..], k);
      assert s[0] !in s[1..] by {
        forall j | 0 <= j < |s[1..]| ensures s[1..][j] != s[0] {
          assert s[1..][j] == s[j + 1];
        }
      }
      var t := Without(s[1..], k);
      if s[0] != k {
        forall i, j | 0 <= i < j < |[s[0]] + t| ensures ([s[0]] + t)[i] != ([s[0]] + t)[j] {
          if i == 0 {
            assert ([s[0]] + t)[j] == t[j - 1];
            assert t[j - 1] in t;
          }
        }
      }
    }
  }

  /** When `k` occurs at most once, removing its last occurrence removes all of them. */
  lemma {:induction false} RemoveLastSingle(s: seq<string>, k: string)
    requires NoDuplicates(s)
    ensures RemoveLast(s, k) == Without(s, k)
  {
    if |s| > 0 {
      var init := s[..|s| - 1];
      var last := s[|s| - 1];
      assert NoDuplicates(init);
      assert last !in init by {
        forall j | 0 <= j < |init| ensures init[j] != last {
          assert init[j] == s[j];
        }
      }
      if last == k {
        WithoutAbsent(init, k);
        WithoutSnoc(init, last, k);
      } else {
        RemoveLastSingle(init, k);
        WithoutSnoc(init, last, k);
      }
      assert s == init + [last];
    }
  }

  lemma {:induction false} WithoutAbsent(s: seq<string>, k: string)
    requires k !in s
    ensures Without(s, k) == s
  {
    if |s| > 0 {
      assert k !in s[1..] by {
        forall j | 0 <= j < |s[1..]| ensures s[1..][j] != k {
          assert s[1..][j] == s[j + 1];
        }
      }
      WithoutAbsent(s[1..], k);
      assert s == [s[0]] + s[1..];
    }
  }

  lemma {:induction false} WithoutSnoc(s: seq<string>, x: string, k: string)
    ensures Without(s + [x], k) == Without(s, k) + (if x == k then [] else [x])
  {
    if |s| == 0 {
      assert s + [x] == [x];
    } else {
      assert (s + [x])[1..] == s[1..] + [x];
      WithoutSnoc(s[1..], x, k);
    }
  }

  /** A list without repeats has as many distinct elements as positions. */
  lemma {:induction false} DistinctCount(s: seq<string>)
    requires NoDuplicates(s)
    ensures |set x | x in s| == |s|
  {
    if |s| > 0 {
      var t := s[1..];
      assert NoDuplicates(t);
      DistinctCount(t);
      assert s[0] !in t by {
        forall j | 0 <= j < |t| ensures t[j] != s[0] {
          assert t[j] == s[j + 1];
        }
      }
      assert (set x | x in s) == (set x | x in t) + {s[0]} by {
        assert s == [s[0]] + t;
      }
    }
  }

  lemma DictSizeIsListLength(m: Record)
    ensures WellFormed(m) ==> |m.dict| == |m.keys|
  {
    if WellFormed(m) {
      DistinctCount(m.keys);
      assert m.dict.Keys == set x | x in m.keys;
    }
  }

  /**
   * `Set`: a new key is pushed to the back of the list; an existing key keeps its place and
   * only its value changes. No other key is affected.
   */
  function Set(m: Record, k: string, v: Value): (r: Record)
    ensures Has(m, k) ==> Keys(r) == Keys(m)
    ensures !Has(m, k) ==> Keys(r) == Keys(m) + [k]
    ensures Has(r, k) && Lookup(r, k) == v
    ensures forall x :: x != k ==> (Has(r, x) <==> Has(m, x)) && Lookup(r, x) == Lookup(m, x)
    ensures WellFormed(m) ==> WellFormed(r)
    ensures WellFormed(m) ==> Len(r) == Len(m) + (if Has(m, k) then 0 else 1)
  {
    var r := Record(if k in m.dict then m.keys else m.keys + [k], m.dict[k := v]);
    assert WellFormed(m) && k !in m.dict ==> NoDuplicates(r.keys) by {
      if WellFormed(m) && k !in m.dict {
        forall i, j | 0 <= i < j < |r.keys| ensures r.keys[i] != r.keys[j] {
          if j == |m.keys| {
            assert r.keys[i] == m.keys[i];
          }
        }
      }
    }
    r
  }

  /**
   * `Delete`: for a present key, the stored value and `true`, with the key's list node and
   * dictionary entry gone; for an absent key, `(nil, false)` and the record unchanged.
   */
  function Delete(m: Record, k: string): (r: (Record, Value, bool))
    ensures r.2 <==> Has(m, k)
    ensures Has(m, k) ==> r.1 == m.dict[k] && !Has(r.0, k) && Keys(r.0) == RemoveLast(Keys(m), k)
    ensures !Has(m, k) ==> r.0 == m && r.1 == Null
    ensures forall x :: x != k ==> (Has(r.0, x) <==> Has(m, x)) && Lookup(r.0, x) == Lookup(m, x)
    ensures WellFormed(m) ==> WellFormed(r.0) && Keys(r.0) == Without(Keys(m), k)
    ensures WellFormed(m) && Has(m, k) ==> Len(r.0) == Len(m) - 1
  {
    if k in m.dict then
      var r := Record(RemoveLast(m.keys, k), m.dict - {k});
      assert WellFormed(m) ==> WellFormed(r) && r.keys == Without(m.keys, k) by {
        if WellFormed(m) {
          DeleteKeepsWellFormed(m, k);
        }
      }
      assert |r.dict| == |m.dict| - 1 by {
        assert r.dict.Keys == m.dict.Keys - {k};
      }
      (r, m.dict[k], true)
    else
      assert WellFormed(m) ==> Without(m.keys, k) == m.keys by {
        if WellFormed(m) {
          WithoutAbsent(m.keys, k);
        }
      }
      (m, Null, false)
  }

  lemma DeleteKeepsWellFormed(m: Record, k: string)
    requires WellFormed(m) && k in m.dict
    ensures WellFormed(Record(RemoveLast(m.keys, k), m.dict - {k}))
    ensures RemoveLast(m.keys, k) == Without(m.keys, k)
  {
    RemoveLastSingle(m.keys, k);
    WithoutNoDuplicates(m.keys, k);
    var ks := Without(m.keys, k);
    assert forall i :: 0 <= i < |ks| ==> ks[i] in ks;
  }

  /** Deleting a key just set anew gives back the record as it was before. */
  lemma SetThenDelete(m: Record, k: string, v: Value)
    requires !Has(m, k)
    ensures Delete(Set(m, k, v), k) == (m, v, true)
  {
    assert (m.keys + [k])[..|m.keys|] == m.keys;
    assert m.dict[k := v] - {k} == m.dict;
  }

  /** A deleted key that is set again moves to the back of the list. */
  lemma DeleteThenSet(m: Record, k: string, v: Value)
    requires WellFormed(m) && Has(m, k)
    ensures Keys(Set(Delete(m, k).0, k, v)) == Without(Keys(m), k) + [k]
    ensures Lookup(Set(Delete(m, k).0, k, v), k) == v
  {
  }

  /** What `GetValue` reads after `Set` and `Delete`, and before any write. */
  lemma GetValueAfterWrite(m: Record, k: string, x: string, v: Value)
    ensures GetValue(Set(m, k, v), k) == (v, true)
    ensures x != k ==> GetValue(Set(m, k, v), x) == GetValue(m, x)
    ensures GetValue(Delete(m, k).0, k) == (Null, false)
    ensures x != k ==> GetValue(Delete(m, k).0, x) == GetValue(m, x)
    ensures GetValue(Empty(), k) == (Null, false)
    ensures WellFormed(m) ==> (GetValue(m, k).1 <==> k in Keys(m))
  {
  }

  /** Deleting twice is deleting once. */
  lemma DeleteIdempotent(m: Record, k: string)
    ensures Delete(Delete(m, k).0, k).0 == Delete(m, k).0
    ensures !Delete(Delete(m, k).0, k).2
  {
  }

  /** The position of the last occurrence of `k`: the node the key index points at. */
  function LastIndex(s: seq<string>, k: string): (j: nat)
    requires k in s
    ensures j < |s| && s[j] == k
    ensures forall i :: j < i < |s| ==> s[i] != k
  {
    if s[|s| - 1] == k then |s| - 1
    else
      assert k in s[..|s| - 1] by {
        var i :| 0 <= i < |s| && s[i] == k;
        assert s[..|s| - 1][i] == k;
      }
      LastIndex(s[..|s| - 1], k)
  }

  /** `RemoveLast` unlinks exactly the node at `LastIndex`. */
  lemma {:induction false} RemoveLastAt(s: seq<string>, k: string)
    requires k in s
    ensures RemoveLast(s, k) == s[..LastIndex(s, k)] + s[LastIndex(s, k) + 1..]
  {
    if s[|s| - 1] != k {
      var init := s[..|s| - 1];
      assert k in init by {
        var i :| 0 <= i < |s| && s[i] == k;
        assert init[i] == k;
      }
      RemoveLastAt(init, k);
      var j := LastIndex(s, k);
      assert init[..j] == s[..j];
      assert init[j + 1..] + [s[|s| - 1]] == s[j + 1..];
    }
  }

  /** Without repeats, the last occurrence of the key at `i` is at `i`. */
  lemma LastIndexAt(s: seq<string>, i: nat)
    requires NoDuplicates(s) && i < |s|
    ensures LastIndex(s, s[i]) == i
  {
    var j := LastIndex(s, s[i]);
    assert s[j] == s[i];
  }

  /** In a well-formed record, `Delete` of the key at position `i` unlinks that node. */
  lemma DeleteAt(m: Record, i: nat)
    requires WellFormed(m) && i < |m.keys|
    ensures LastIndex(m.keys, m.keys[i]) == i
    ensures Delete(m, m.keys[i]).0 == Record(m.keys[..i] + m.keys[i + 1..], m.dict - {m.keys[i]})
  {
    var k := m.keys[i];
    LastIndexAt(m.keys, i);
    RemoveLastAt(m.keys, k);
    assert k in m.dict;
    assert Delete(m, k).0 == Record(RemoveLast(m.keys, k), m.dict - {k});
  }

  /** The yields of `EntriesIter`, given the keys still to visit. */
  function EntriesOf(m: Record, ks: seq<string>): (r: seq<(string, Value)>)
    ensures |r| == |ks|
    ensures forall i :: 0 <= i < |ks| ==> r[i] == (ks[i], Lookup(m, ks[i]))
  {
    if |ks| == 0 then [] else [(ks[0], Lookup(m, ks[0]))] + EntriesOf(m, ks[1..])
  }

  /** `EntriesIter`: every list node front to back, each with its dictionary value. */
  function Entries(m: Record): (r: seq<(string, Value)>)
    ensures |r| == |Keys(m)|
    ensures forall i :: 0 <= i < |r| ==> r[i].0 == Keys(m)[i] && r[i].1 == Lookup(m, Keys(m)[i])
  {
    EntriesOf(m, m.keys)
  }

  /** The yields of `EntriesReverseIter` when the cursor is at list position `n - 1`. */
  function ReverseFrom(m: Record, n: nat): seq<(string, Value)>
    requires n <= |m.keys|
  {
    if n == 0 then [] else [(m.keys[n - 1], Lookup(m, m.keys[n - 1]))] + ReverseFrom(m, n - 1)
  }

  /** `EntriesReverseIter`: the list walked from the back through `Prev`, the forward yields mirrored. */
  function ReverseEntries(m: Record): (r: seq<(string, Value)>)
    ensures |r| == |Entries(m)|
    ensures forall i :: 0 <= i < |r| ==> r[i] == Entries(m)[|r| - 1 - i]
  {
    ReverseFromMirrors(m, |m.keys|);
    ReverseFrom(m, |m.keys|)
  }

  lemma {:induction false} ReverseFromMirrors(m: Record, n: nat)
    requires n <= |m.keys|
    ensures |ReverseFrom(m, n)| == n
    ensures forall i :: 0 <= i < n ==> ReverseFrom(m, n)[i] == Entries(m)[n - 1 - i]
  {
    if n > 0 {
      ReverseFromMirrors(m, n - 1);
    }
  }

  /** `Values`: the string values in list order; a non-string value is a failed type assertion. */
  function Values(m: Record): (r: seq<string>)
    requires forall i :: 0 <= i < |m.keys| ==> Lookup(m, m.keys[i]).String?
    ensures |r| == |Entries(m)|
    ensures forall i :: 0 <= i < |r| ==> Entries(m)[i].1 == String(r[i])
  {
    seq(|m.keys|, i requires 0 <= i < |m.keys| => Lookup(m, m.keys[i]).s)
  }
}
