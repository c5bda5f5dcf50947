/**
 * Field projection and error classification of pkg/formatter/formatter.go: `Fields`, with the
 * interplay between its entry iterator and `Delete` reproduced node by node, and `IsErr`.
 */
module Formatter {
  import opened Wrappers
  import opened Json
  import opened Regexp
  import opened Decoder
  import opened Colour
  import Records
  import FeatureMap

  /** The layout `time` values are read with, and the one they are rewritten to. */
  const TimeFormatFrom: string := "2006-01-02T15:04:05.999999-07:00"
  const TimeFormatTo: string := "15:04:05"
  const TimeKey: string := "time"

  /** `time.Parse(layout, s)` (absent on a parse error) and `t.Format(layout)`. */
  datatype TimeLib<!T> = TimeLib(parse: (string, string) -> Option<T>, format: (T, string) -> string)

  datatype FormatError =
    | Undecodable(e: DecodeError)  // the line is not an object the decoder accepts
    | Panic                        // `MustCompile` on a bad pattern, or a `time` value that is not a string
    | BadTime                      // `time.Parse` rejected the `time` value

  /** The rewrite of a `time` value: parsed with the input layout, formatted with the output one. */
  function Retime<T>(tl: TimeLib<T>, s: string): Option<string>
  {
    match tl.parse(TimeFormatFrom, s)
    case None => None
    case Some(t) => Some(tl.format(t, TimeFormatTo))
  }

  /**
   * One pass of `Fields` for one pattern, with the iterator's cursor at list position `i`;
   * `keep` is the pattern's `MatchString`. A kept `time` entry is rewritten in place by `Set`;
   * an entry that is not kept is removed by `Delete`, which unlinks the key's LAST node `j`:
   *  - `j == i`: the node just yielded goes and the cursor's node now sits at `i`;
   *  - `j == i + 1`: the cursor's own node goes; `Next` of an unlinked node is nil, so the
   *    iterator yields that node once more, with the now missing value, and stops. That yield
   *    has the same key, is again not kept and its `Delete` finds nothing, so the pass ends;
   *  - `j > i + 1`: the cursor is unaffected.
   * With distinct keys only the first case occurs.
   */
  function PassFrom<T>(tl: TimeLib<T>, keep: string -> bool, m: Record, i: nat): (r: Result<Record, FormatError>)
    requires i <= |m.keys|
    ensures r.Failure? ==> r.error == Panic || r.error == BadTime
    ensures r.Success? ==> forall k :: k in r.value.dict ==> k in m.dict
    ensures r.Success? ==> forall k :: k in r.value.dict && k != TimeKey ==> r.value.dict[k] == m.dict[k]
    decreases |m.keys| - i
  {
    if i == |m.keys| then Success(m)
    else
      var k := m.keys[i];
      if keep(k) then
        if k == TimeKey then
          if k !in m.dict || !m.dict[k].String? then Failure(Panic)
          else
            match Retime(tl, m.dict[k].s)
            case None => Failure(BadTime)
            case Some(t) => PassFrom(tl, keep, Records.Set(m, k, String(t)), i + 1)
        else PassFrom(tl, keep, m, i + 1)
      else if k !in m.dict then PassFrom(tl, keep, m, i + 1)
      else
        var j := Records.LastIndex(m.keys, k);
        var d := Records.Delete(m, k).0;
        assert |d.keys| == |m.keys| - 1 by {
          Records.RemoveLastAt(m.keys, k);
        }
        if j == i then PassFrom(tl, keep, d, i)
        else if j == i + 1 then Success(d)
        else PassFrom(tl, keep, d, i + 1)
  }

  /** `e.MatchString` as the pass's test. */
  function Pattern(re: Regex, pat: string): string -> bool
  {
    k => re.matches(pat, k)
  }

  /** The passes of `Fields`, one per pattern in order, each on what the previous one left. */
  function Passes<T>(re: Regex, tl: TimeLib<T>, pats: seq<string>, m: Record): (r: Result<Record, FormatError>)
    ensures r.Failure? ==> r.error == Panic || r.error == BadTime
    ensures r.Success? ==> forall k :: k in r.value.dict ==> k in m.dict
    ensures r.Success? ==> forall k :: k in r.value.dict && k != TimeKey ==> r.value.dict[k] == m.dict[k]
  {
    if |pats| == 0 then Success(m)
    else
      match PassFrom(tl, Pattern(re, pats[0]), m, 0)
      case Failure(e) => Failure(e)
      case Success(m1) => Passes(re, tl, pats[1..], m1)
  }

  /** `MustCompile` of every pattern, before any pass runs. */
  predicate AllCompile(re: Regex, pats: seq<string>)
  {
    forall i :: 0 <= i < |pats| ==> re.compiles(pats[i])
  }

  /** `Fields`: decode the line, compile the patterns, run the passes, marshal without colour. */
  function Fields<T>(re: Regex, tl: TimeLib<T>, q: Quoting, line: seq<Token>, fields: seq<string>): (r: Result<string, FormatError>)
    ensures Decode(line).Failure? ==> r == Failure(Undecodable(Decode(line).error))
    ensures Decode(line).Success? && !AllCompile(re, fields) ==> r == Failure(Panic)
    ensures Decode(line).Success? && |fields| == 0 ==> r == Success(FeatureMap.MarshalJSON(Decode(line).value, NoColour(), q))
  {
    match Decode(line)
    case Failure(e) => Failure(Undecodable(e))
    case Success(m) =>
      if !AllCompile(re, fields) then Failure(Panic)
      else
        match Passes(re, tl, fields, m)
        case Failure(e) => Failure(e)
        case Success(out) => Success(FeatureMap.MarshalJSON(out, NoColour(), q))
  }

  // ---------------------------------------------------------------------------------------
  // A pass over a well-formed record is a filter.

  /** The keys of `ks` that `keep` accepts, in order. */
  function Keep(ks: seq<string>, keep: string -> bool): (r: seq<string>)
    ensures forall x :: x in r <==> x in ks && keep(x)
    ensures |r| <= |ks|
  {
    if |ks| == 0 then [] else (if keep(ks[0]) then [ks[0]] else []) + Keep(ks[1..], keep)
  }

  /** A kept `time` value not yet handled can be rewritten: it is a string and it parses. */
  ghost predicate TimeOkAfter<T>(tl: TimeLib<T>, keep: string -> bool, dict: map<string, Value>, done: seq<string>)
  {
    TimeKey in dict && TimeKey !in done && keep(TimeKey) ==> dict[TimeKey].String? && Retime(tl, dict[TimeKey].s).Some?
  }

  ghost predicate TimeOk<T>(tl: TimeLib<T>, keep: string -> bool, m: Record)
  {
    TimeOkAfter(tl, keep, m.dict, [])
  }

  /**
   * The dictionary a pass leaves once the keys in `done` have been handled: the finished keys
   * and the keys `keep` accepts, with a `time` value not yet handled rewritten.
   */
  function PassDict<T>(tl: TimeLib<T>, keep: string -> bool, dict: map<string, Value>, done: seq<string>): map<string, Value>
    requires TimeOkAfter(tl, keep, dict, done)
  {
    map k | k in dict && (k in done || keep(k)) ::
      if k == TimeKey && k !in done then String(Retime(tl, dict[k].s).value) else dict[k]
  }

  /**
   * What a pass should leave: the entries `keep` accepts, in their order, with a kept `time`
   * value rewritten and every other value as it was.
   */
  function Filtered<T>(tl: TimeLib<T>, keep: string -> bool, m: Record): (r: Record)
    requires TimeOk(tl, keep, m)
  {
    Record(Keep(m.keys, keep), PassDict(tl, keep, m.dict, []))
  }

  /** `Filtered` for a pass whose cursor has reached `i`: the nodes before it have all been kept. */
  function FilteredFrom<T>(tl: TimeLib<T>, keep: string -> bool, m: Record, i: nat): Record
    requires i <= |m.keys|
    requires TimeOkAfter(tl, keep, m.dict, m.keys[..i])
  {
    Record(m.keys[..i] + Keep(m.keys[i..], keep), PassDict(tl, keep, m.dict, m.keys[..i]))
  }

  lemma {:induction false} PassFromFilters<T>(tl: TimeLib<T>, keep: string -> bool, m: Record, i: nat)
    requires WellFormed(m) && i <= |m.keys|
    requires forall j :: 0 <= j < i ==> keep(m.keys[j])
    requires TimeOkAfter(tl, keep, m.dict, m.keys[..i])
    ensures PassFrom(tl, keep, m, i) == Success(FilteredFrom(tl, keep, m, i))
    decreases |m.keys| - i
  {
    if i == |m.keys| {
      AtEnd(tl, keep, m);
    } else {
      var k := m.keys[i];
      assert k in m.dict;
      Disjoint(m.keys, i, k);
      if keep(k) {
        if k == TimeKey {
          var t := Retime(tl, m.dict[k].s).value;
          var m1 := RetimeUnfold(tl, keep, m, i, t);
          RetimeStep(tl, keep, m, m1, i, t);
          PassFromFilters(tl, keep, m1, i + 1);
        } else {
          KeepUnfold(tl, keep, m, i);
          KeepStep(tl, keep, m, i);
          PassFromFilters(tl, keep, m, i + 1);
        }
      } else {
        var d := DropUnfold(tl, keep, m, i);
        DropStep(tl, keep, m, d, i);
        PassFromFilters(tl, keep, d, i);
      }
    }
  }

  /** One step of a pass at a kept key other than `time`. */
  lemma KeepUnfold<T>(tl: TimeLib<T>, keep: string -> bool, m: Record, i: nat)
    requires i < |m.keys| && keep(m.keys[i]) && m.keys[i] != TimeKey
    ensures PassFrom(tl, keep, m, i) == PassFrom(tl, keep, m, i + 1)
  {
  }

  /** One step of a pass at a kept, parseable `time`. */
  lemma RetimeUnfold<T>(tl: TimeLib<T>, keep: string -> bool, m: Record, i: nat, t: string) returns (m1: Record)
    requires i < |m.keys| && keep(m.keys[i]) && m.keys[i] == TimeKey
    requires TimeKey in m.dict && m.dict[TimeKey].String?
    requires Retime(tl, m.dict[TimeKey].s) == Some(t)
    ensures m1 == Record(m.keys, m.dict[TimeKey := String(t)])
    ensures PassFrom(tl, keep, m, i) == PassFrom(tl, keep, m1, i + 1)
  {
    m1 := Records.Set(m, TimeKey, String(t));
  }

  /** One step of a pass at a key that is not kept: in a well-formed record its node is unlinked. */
  lemma DropUnfold<T>(tl: TimeLib<T>, keep: string -> bool, m: Record, i: nat) returns (d: Record)
    requires WellFormed(m) && i < |m.keys| && !keep(m.keys[i])
    ensures d == Record(m.keys[..i] + m.keys[i + 1..], m.dict - {m.keys[i]})
    ensures WellFormed(d)
    ensures PassFrom(tl, keep, m, i) == PassFrom(tl, keep, d, i)
  {
    Records.DeleteAt(m, i);
    d := Records.Delete(m, m.keys[i]).0;
  }

  lemma AtEnd<T>(tl: TimeLib<T>, keep: string -> bool, m: Record)
    requires WellFormed(m)
    requires forall j :: 0 <= j < |m.keys| ==> keep(m.keys[j])
    requires TimeOkAfter(tl, keep, m.dict, m.keys)
    ensures m.keys[..|m.keys|] == m.keys
    ensures FilteredFrom(tl, keep, m, |m.keys|) == m
  {
    assert m.keys[..|m.keys|] == m.keys;
    assert m.keys[|m.keys|..] == [];
    DictAllDone(tl, keep, m);
  }

  lemma DictAllDone<T>(tl: TimeLib<T>, keep: string -> bool, m: Record)
    requires WellFormed(m) && TimeOkAfter(tl, keep, m.dict, m.keys)
    ensures PassDict(tl, keep, m.dict, m.keys) == m.dict
  {
  }

  /** Keys before position `i` and keys from it on are disjoint when the list has no repeats. */
  lemma Disjoint(ks: seq<string>, i: nat, k: string)
    requires NoDuplicates(ks) && i < |ks| && k == ks[i]
    ensures k !in ks[..i] && k !in ks[i + 1..]
  {
    var before := ks[..i];
    forall j | 0 <= j < |before| ensures before[j] != k {
      assert before[j] == ks[j];
    }
    var after := ks[i + 1..];
    forall j | 0 <= j < |after| ensures after[j] != k {
      assert after[j] == ks[i + 1 + j];
    }
  }

  /** Moving a kept key into the finished prefix: its place in the key list does not change. */
  lemma KeysMoveOn(ks: seq<string>, i: nat, keep: string -> bool)
    requires i < |ks| && keep(ks[i])
    ensures ks[..i + 1] + Keep(ks[i + 1..], keep) == ks[..i] + Keep(ks[i..], keep)
  {
    assert ks[i..] == [ks[i]] + ks[i + 1..];
    assert ks[i..][1..] == ks[i + 1..];
    assert ks[..i + 1] == ks[..i] + [ks[i]];
  }

  /** Dropping the node at the cursor: the kept keys after it are the same. */
  lemma KeysDrop(ks: seq<string>, d: seq<string>, i: nat, keep: string -> bool)
    requires i < |ks| && !keep(ks[i]) && d == ks[..i] + ks[i + 1..]
    ensures d[..i] == ks[..i]
    ensures d[..i] + Keep(d[i..], keep) == ks[..i] + Keep(ks[i..], keep)
  {
    assert d[..i] == ks[..i];
    assert d[i..] == ks[i + 1..];
    assert ks[i..] == [ks[i]] + ks[i + 1..];
    assert ks[i..][1..] == ks[i + 1..];
  }

  lemma DictKeep<T>(tl: TimeLib<T>, keep: string -> bool, dict: map<string, Value>, done: seq<string>, k: string)
    requires keep(k) && k != TimeKey && TimeOkAfter(tl, keep, dict, done)
    ensures TimeOkAfter(tl, keep, dict, done + [k])
    ensures PassDict(tl, keep, dict, done + [k]) == PassDict(tl, keep, dict, done)
  {
    assert forall x :: x in done + [k] <==> x in done || x == k;
  }

  lemma DictRetime<T>(tl: TimeLib<T>, keep: string -> bool, dict: map<string, Value>, done: seq<string>, t: string)
    requires keep(TimeKey) && TimeKey in dict && TimeKey !in done && TimeOkAfter(tl, keep, dict, done)
    requires t == Retime(tl, dict[TimeKey].s).value
    ensures TimeOkAfter(tl, keep, dict[TimeKey := String(t)], done + [TimeKey])
    ensures PassDict(tl, keep, dict[TimeKey := String(t)], done + [TimeKey]) == PassDict(tl, keep, dict, done)
  {
    assert forall x :: x in done + [TimeKey] <==> x in done || x == TimeKey;
  }

  lemma DictDrop<T>(tl: TimeLib<T>, keep: string -> bool, dict: map<string, Value>, done: seq<string>, k: string)
    requires !keep(k) && k !in done && TimeOkAfter(tl, keep, dict, done)
    ensures TimeOkAfter(tl, keep, dict - {k}, done)
    ensures PassDict(tl, keep, dict - {k}, done) == PassDict(tl, keep, dict, done)
  {
  }

  /** A kept key other than `time`: the cursor moves on and the key joins the finished prefix. */
  lemma KeepStep<T>(tl: TimeLib<T>, keep: string -> bool, m: Record, i: nat)
    requires WellFormed(m) && i < |m.keys| && keep(m.keys[i]) && m.keys[i] != TimeKey
    requires TimeOkAfter(tl, keep, m.dict, m.keys[..i])
    ensures TimeOkAfter(tl, keep, m.dict, m.keys[..i + 1])
    ensures FilteredFrom(tl, keep, m, i + 1) == FilteredFrom(tl, keep, m, i)
  {
    assert m.keys[..i + 1] == m.keys[..i] + [m.keys[i]];
    KeysMoveOn(m.keys, i, keep);
    DictKeep(tl, keep, m.dict, m.keys[..i], m.keys[i]);
  }

  /** A kept `time`: its value is rewritten in place, and the key joins the finished prefix. */
  lemma RetimeStep<T>(tl: TimeLib<T>, keep: string -> bool, m: Record, m1: Record, i: nat, t: string)
    requires WellFormed(m) && i < |m.keys| && keep(m.keys[i]) && m.keys[i] == TimeKey
    requires TimeOkAfter(tl, keep, m.dict, m.keys[..i])
    requires t == Retime(tl, m.dict[TimeKey].s).value
    requires m1 == Record(m.keys, m.dict[TimeKey := String(t)])
    ensures WellFormed(m1)
    ensures TimeOkAfter(tl, keep, m1.dict, m1.keys[..i + 1])
    ensures FilteredFrom(tl, keep, m1, i + 1) == FilteredFrom(tl, keep, m, i)
  {
    Disjoint(m.keys, i, TimeKey);
    assert m.keys[..i + 1] == m.keys[..i] + [TimeKey];
    KeysMoveOn(m.keys, i, keep);
    DictRetime(tl, keep, m.dict, m.keys[..i], t);
  }

  /** A dropped key: its only node, at the cursor, is unlinked and the rest moves up. */
  lemma DropStep<T>(tl: TimeLib<T>, keep: string -> bool, m: Record, d: Record, i: nat)
    requires WellFormed(m) && i < |m.keys| && !keep(m.keys[i])
    requires TimeOkAfter(tl, keep, m.dict, m.keys[..i])
    requires d == Record(m.keys[..i] + m.keys[i + 1..], m.dict - {m.keys[i]})
    ensures forall j :: 0 <= j < i ==> d.keys[j] == m.keys[j]
    ensures TimeOkAfter(tl, keep, d.dict, d.keys[..i])
    ensures FilteredFrom(tl, keep, d, i) == FilteredFrom(tl, keep, m, i)
  {
    Disjoint(m.keys, i, m.keys[i]);
    KeysDrop(m.keys, d.keys, i, keep);
    DictDrop(tl, keep, m.dict, m.keys[..i], m.keys[i]);
  }

  /** A pass over a well-formed record whose kept `time` can be rewritten is the filter `Filtered`. */
  lemma PassIsFilter<T>(tl: TimeLib<T>, keep: string -> bool, m: Record)
    requires WellFormed(m) && TimeOk(tl, keep, m)
    ensures PassFrom(tl, keep, m, 0) == Success(Filtered(tl, keep, m))
  {
    StartIsFiltered(tl, keep, m);
    PassFromFilters(tl, keep, m, 0);
  }

  lemma StartIsFiltered<T>(tl: TimeLib<T>, keep: string -> bool, m: Record)
    requires TimeOk(tl, keep, m)
    ensures TimeOkAfter(tl, keep, m.dict, m.keys[..0])
    ensures FilteredFrom(tl, keep, m, 0) == Filtered(tl, keep, m)
  {
    assert m.keys[..0] == [];
    assert m.keys[0..] == m.keys;
  }

  lemma {:induction false} KeepNoDuplicates(ks: seq<string>, keep: string -> bool)
    requires NoDuplicates(ks)
    ensures NoDuplicates(Keep(ks, keep))
  {
    if |ks| > 0 {
      KeepNoDuplicates(ks[1..], keep);
      assert ks[0] !in ks[1..] by {
        forall j | 0 <= j < |ks| - 1 ensures ks[1..][j] != ks[0] {
          assert ks[1..][j] == ks[j + 1];
        }
      }
      var rest := Keep(ks[1..], keep);
      var r := Keep(ks, keep);
      if keep(ks[0]) {
        assert r == [ks[0]] + rest;
        forall i, j | 0 <= i < j < |r| ensures r[i] != r[j] {
          if i == 0 {
            assert r[j] == rest[j - 1];
          } else {
            assert r[i] == rest[i - 1] && r[j] == rest[j - 1];
          }
        }
      } else {
        assert r == rest;
      }
    }
  }

  /** The filter keeps the record well formed. */
  lemma FilteredWellFormed<T>(tl: TimeLib<T>, keep: string -> bool, m: Record)
    requires WellFormed(m) && TimeOk(tl, keep, m)
    ensures WellFormed(Filtered(tl, keep, m))
  {
    KeepNoDuplicates(m.keys, keep);
    var r := Filtered(tl, keep, m);
    forall i | 0 <= i < |r.keys| ensures r.keys[i] in r.dict {
      assert r.keys[i] in r.keys;
    }
  }

  /** The entries the filter keeps other than `time` have their values unchanged. */
  lemma FilteredValues<T>(tl: TimeLib<T>, keep: string -> bool, m: Record)
    requires TimeOk(tl, keep, m)
    ensures forall k :: k in Filtered(tl, keep, m).dict <==> k in m.dict && keep(k)
    ensures forall k :: k in Filtered(tl, keep, m).dict && k != TimeKey ==> Filtered(tl, keep, m).dict[k] == m.dict[k]
    ensures TimeKey in Filtered(tl, keep, m).dict ==>
      Filtered(tl, keep, m).dict[TimeKey] == String(Retime(tl, m.dict[TimeKey].s).value)
  {
  }

  /** The cursor has not yet passed the `time` node. */
  ghost predicate TimeAhead(m: Record, i: nat)
    requires i <= |m.keys|
  {
    TimeKey in m.keys[i..]
  }

  lemma AheadAfter(ks: seq<string>, i: nat)
    requires i < |ks| && TimeKey in ks[i..] && ks[i] != TimeKey
    ensures TimeKey in ks[i + 1..]
  {
    var j :| 0 <= j < |ks[i..]| && ks[i..][j] == TimeKey;
    assert j > 0;
    assert ks[i + 1..][j - 1] == TimeKey;
  }

  /**
   * A pass that keeps `time` fails when it reaches a `time` value that is not a string (the
   * type assertion panics) or does not parse.
   */
  lemma {:induction false} PassFromFails<T>(tl: TimeLib<T>, keep: string -> bool, m: Record, i: nat)
    requires WellFormed(m) && i <= |m.keys| && keep(TimeKey) && TimeAhead(m, i)
    requires !TimeOk(tl, keep, m)
    ensures PassFrom(tl, keep, m, i) == Failure(if m.dict[TimeKey].String? then BadTime else Panic)
    decreases |m.keys| - i
  {
    var k := m.keys[i];
    assert k in m.dict;
    if k != TimeKey {
      AheadAfter(m.keys, i);
      if keep(k) {
        KeepUnfold(tl, keep, m, i);
        PassFromFails(tl, keep, m, i + 1);
      } else {
        var d := DropUnfold(tl, keep, m, i);
        assert TimeAhead(d, i) by {
          assert d.keys[i..] == m.keys[i + 1..];
        }
        PassFromFails(tl, keep, d, i);
      }
    }
  }

  /** A pass succeeds exactly when a kept `time` can be rewritten, and then it is `Filtered`. */
  lemma PassOutcome<T>(tl: TimeLib<T>, keep: string -> bool, m: Record)
    requires WellFormed(m)
    ensures PassFrom(tl, keep, m, 0).Success? <==> TimeOk(tl, keep, m)
    ensures TimeOk(tl, keep, m) ==> PassFrom(tl, keep, m, 0) == Success(Filtered(tl, keep, m))
    ensures !TimeOk(tl, keep, m) ==>
      PassFrom(tl, keep, m, 0) == Failure(if m.dict[TimeKey].String? then BadTime else Panic)
  {
    if TimeOk(tl, keep, m) {
      PassIsFilter(tl, keep, m);
    } else {
      assert m.keys[0..] == m.keys;
      PassFromFails(tl, keep, m, 0);
    }
  }

  // ---------------------------------------------------------------------------------------
  // Several patterns: each pass filters what the previous one left.

  /** A key matches every pattern. */
  function MatchesEvery(re: Regex, pats: seq<string>): string -> bool
  {
    k => forall i | 0 <= i < |pats| :: re.matches(pats[i], k)
  }

  lemma {:induction false} KeepEverything(ks: seq<string>, keep: string -> bool)
    requires forall x :: keep(x)
    ensures Keep(ks, keep) == ks
  {
    if |ks| > 0 {
      KeepEverything(ks[1..], keep);
      assert ks == [ks[0]] + ks[1..];
    }
  }

  /** Filtering twice is filtering once by both tests. */
  lemma {:induction false} KeepCompose(ks: seq<string>, f: string -> bool, g: string -> bool, h: string -> bool)
    requires forall x :: h(x) == (f(x) && g(x))
    ensures Keep(Keep(ks, f), g) == Keep(ks, h)
  {
    if |ks| > 0 {
      KeepCompose(ks[1..], f, g, h);
      var rest := Keep(ks[1..], f);
      if f(ks[0]) {
        var once := [ks[0]] + rest;
        assert Keep(ks, f) == once;
        assert once[0] == ks[0] && once[1..] == rest;
        assert Keep(once, g) == (if g(ks[0]) then [ks[0]] else []) + Keep(rest, g);
      } else {
        assert Keep(ks, f) == rest;
      }
    }
  }

  lemma EverySplits(re: Regex, pats: seq<string>)
    requires |pats| > 0
    ensures forall x :: MatchesEvery(re, pats)(x) == (Pattern(re, pats[0])(x) && MatchesEvery(re, pats[1..])(x))
  {
    forall x ensures MatchesEvery(re, pats)(x) == (Pattern(re, pats[0])(x) && MatchesEvery(re, pats[1..])(x)) {
      if Pattern(re, pats[0])(x) && MatchesEvery(re, pats[1..])(x) {
        forall i | 0 <= i < |pats| ensures re.matches(pats[i], x) {
          if i > 0 {
            assert pats[1..][i - 1] == pats[i];
          }
        }
      }
    }
  }

  /**
   * The passes of `Fields`: a record without `time` always gets through, and what gets through
   * is well formed and holds exactly the keys that match EVERY pattern, in their order, with every
   * value other than `time`'s unchanged.
   */
  lemma {:induction false} PassesSurvivors<T>(re: Regex, tl: TimeLib<T>, pats: seq<string>, m: Record)
    requires WellFormed(m)
    ensures TimeKey !in m.dict ==> Passes(re, tl, pats, m).Success?
    ensures Passes(re, tl, pats, m).Success? ==>
      var out := Passes(re, tl, pats, m).value;
      && WellFormed(out)
      && out.keys == Keep(m.keys, MatchesEvery(re, pats))
      && (forall k :: k in out.dict && k != TimeKey ==> out.dict[k] == m.dict[k])
  {
    if |pats| == 0 {
      KeepEverything(m.keys, MatchesEvery(re, pats));
    } else {
      var keep := Pattern(re, pats[0]);
      PassOutcome(tl, keep, m);
      if TimeOk(tl, keep, m) {
        var m1 := Filtered(tl, keep, m);
        FilteredWellFormed(tl, keep, m);
        FilteredValues(tl, keep, m);
        PassesSurvivors(re, tl, pats[1..], m1);
        EverySplits(re, pats);
        KeepCompose(m.keys, keep, MatchesEvery(re, pats[1..]), MatchesEvery(re, pats));
      }
    }
  }

  // ---------------------------------------------------------------------------------------
  // The projection the flag promises: one pass keeping the keys that match ANY pattern.

  /** A key matches at least one pattern. */
  function MatchesSome(re: Regex, pats: seq<string>): string -> bool
  {
    k => exists i | 0 <= i < |pats| :: re.matches(pats[i], k)
  }

  /**
   * `Fields` with the patterns ORed: no patterns leave the record as decoded, otherwise a single
   * pass keeps the keys that match some pattern, so a kept `time` is rewritten once.
   */
  function FieldsIntended<T>(re: Regex, tl: TimeLib<T>, q: Quoting, line: seq<Token>, fields: seq<string>): (r: Result<string, FormatError>)
    ensures Decode(line).Failure? ==> r == Failure(Undecodable(Decode(line).error))
    ensures Decode(line).Success? && !AllCompile(re, fields) ==> r == Failure(Panic)
    ensures Decode(line).Success? && |fields| == 0 ==> r == Success(FeatureMap.MarshalJSON(Decode(line).value, NoColour(), q))
  {
    match Decode(line)
    case Failure(e) => Failure(Undecodable(e))
    case Success(m) =>
      if !AllCompile(re, fields) then Failure(Panic)
      else if |fields| == 0 then Success(FeatureMap.MarshalJSON(m, NoColour(), q))
      else
        match PassFrom(tl, MatchesSome(re, fields), m, 0)
        case Failure(e) => Failure(e)
        case Success(out) => Success(FeatureMap.MarshalJSON(out, NoColour(), q))
  }

  /**
   * On a well-formed line the ORed projection fails only on a kept `time` it cannot rewrite;
   * otherwise it prints the entries whose key matches SOME pattern, in order, `time` rewritten
   * once and every other value unchanged.
   */
  lemma FieldsIntendedKeepsAny<T>(re: Regex, tl: TimeLib<T>, q: Quoting, line: seq<Token>, fields: seq<string>)
    requires Decode(line).Success? && WellFormed(Decode(line).value)
    requires AllCompile(re, fields) && |fields| > 0
    ensures var m := Decode(line).value;
      var keep := MatchesSome(re, fields);
      && (FieldsIntended(re, tl, q, line, fields).Success? <==> TimeOk(tl, keep, m))
      && (!TimeOk(tl, keep, m) ==>
            FieldsIntended(re, tl, q, line, fields) == Failure(if m.dict[TimeKey].String? then BadTime else Panic))
      && (TimeOk(tl, keep, m) ==>
            var out := Filtered(tl, keep, m);
            && FieldsIntended(re, tl, q, line, fields) == Success(FeatureMap.MarshalJSON(out, NoColour(), q))
            && WellFormed(out)
            && (forall x :: x in out.keys <==> x in m.keys && exists i | 0 <= i < |fields| :: re.matches(fields[i], x))
            && (forall k :: k in out.dict && k != TimeKey ==> out.dict[k] == m.dict[k])
            && (TimeKey in out.dict ==> out.dict[TimeKey] == String(Retime(tl, m.dict[TimeKey].s).value)))
  {
    var m := Decode(line).value;
    var keep := MatchesSome(re, fields);
    PassOutcome(tl, keep, m);
    if TimeOk(tl, keep, m) {
      FilteredWellFormed(tl, keep, m);
      FilteredValues(tl, keep, m);
    }
  }

  // ---------------------------------------------------------------------------------------
  // Two lines on which the passes as written differ from the ORed projection.

  /** `{"time": s, "message": "hi"}`. */
  function Sample(s: string): Record
  {
    Record(["time", "message"], map["time" := String(s), "message" := String("hi")])
  }

  lemma SampleWellFormed(s: string)
    ensures WellFormed(Sample(s)) && WellFormed(SampleTime(s))
  {
  }

  /** Both samples are what the decoder makes of their own tokens. */
  lemma SamplesDecode(s: string)
    ensures Decode(Tokens(Object(Sample(s)))) == Success(Sample(s))
    ensures Decode(Tokens(Object(SampleTime(s)))) == Success(SampleTime(s))
  {
    DecodeTokens(Sample(s));
    DecodeTokens(SampleTime(s));
  }

  /** `{"time": s}`. */
  function SampleTime(s: string): Record
  {
    Record(["time"], map["time" := String(s)])
  }

  /** `Keep` on a two-key list. */
  lemma KeepTwo(a: string, b: string, keep: string -> bool)
    ensures Keep([a, b], keep) == (if keep(a) then [a] else []) + (if keep(b) then [b] else [])
  {
    assert [a, b][1..] == [b];
    assert [b][1..] == [];
  }

  lemma FilteredDropsMessage<T>(tl: TimeLib<T>, keep: string -> bool, s: string, t: T)
    requires keep("time") && !keep("message")
    requires tl.parse(TimeFormatFrom, s) == Some(t)
    ensures TimeOk(tl, keep, Sample(s))
    ensures Filtered(tl, keep, Sample(s)) == SampleTime(tl.format(t, TimeFormatTo))
  {
    var m := Sample(s);
    var out := Filtered(tl, keep, m);
    KeepTwo("time", "message", keep);
    FilteredValues(tl, keep, m);
    var want := map["time" := String(tl.format(t, TimeFormatTo))];
    assert forall x :: x in out.dict <==> x in want;
    assert out.dict == want;
  }

  /** The first pass of `-f tim`: `message` goes and `time` is rewritten. */
  lemma FirstPassDropsMessage<T>(re: Regex, tl: TimeLib<T>, s: string, t: T)
    requires re.matches("tim", "time") && !re.matches("tim", "message")
    requires tl.parse(TimeFormatFrom, s) == Some(t)
    ensures PassFrom(tl, Pattern(re, "tim"), Sample(s), 0) == Success(SampleTime(tl.format(t, TimeFormatTo)))
  {
    SampleWellFormed(s);
    FilteredDropsMessage(tl, Pattern(re, "tim"), s, t);
    PassIsFilter(tl, Pattern(re, "tim"), Sample(s));
  }

  /** A pass whose pattern does not match `time` leaves nothing of `{"time": u}`. */
  lemma PassDropsTime<T>(tl: TimeLib<T>, keep: string -> bool, u: string)
    requires !keep("time")
    ensures PassFrom(tl, keep, SampleTime(u), 0) == Success(Record([], map[]))
  {
    var m := SampleTime(u);
    PassOutcome(tl, keep, m);
    FilteredValues(tl, keep, m);
    assert Filtered(tl, keep, m).keys == [];
  }

  /** A pass whose pattern matches `time` rewrites `{"time": s}`, or fails where `s` does not parse. */
  lemma PassRetimes<T>(tl: TimeLib<T>, keep: string -> bool, s: string)
    requires keep("time")
    ensures tl.parse(TimeFormatFrom, s).None? ==> PassFrom(tl, keep, SampleTime(s), 0) == Failure(BadTime)
    ensures tl.parse(TimeFormatFrom, s).Some? ==>
      PassFrom(tl, keep, SampleTime(s), 0) == Success(SampleTime(tl.format(tl.parse(TimeFormatFrom, s).value, TimeFormatTo)))
  {
    var m := SampleTime(s);
    PassOutcome(tl, keep, m);
    if tl.parse(TimeFormatFrom, s).Some? {
      FilteredValues(tl, keep, m);
      var out := Filtered(tl, keep, m);
      assert out.keys == ["time"];
      assert out.dict == map["time" := String(tl.format(tl.parse(TimeFormatFrom, s).value, TimeFormatTo))];
    }
  }

  /**
   * `-f tim -f mes` on `{"time": s, "message": "hi"}` prints `{}`: the first pass drops
   * `message`, the second drops `time`.
   */
  lemma FieldsAndCounterexample<T>(re: Regex, tl: TimeLib<T>, q: Quoting, line: seq<Token>, s: string, t: T)
    requires Decode(line) == Success(Sample(s))
    requires re.compiles("tim") && re.compiles("mes")
    requires re.matches("tim", "time") && !re.matches("tim", "message") && !re.matches("mes", "time")
    requires tl.parse(TimeFormatFrom, s) == Some(t)
    ensures Fields(re, tl, q, line, ["tim", "mes"]) == Success("{}")
  {
    var pats := ["tim", "mes"];
    assert AllCompile(re, pats);
    var u := tl.format(t, TimeFormatTo);
    FirstPassDropsMessage(re, tl, s, t);
    PassDropsTime(tl, Pattern(re, "mes"), u);
    assert pats[1..] == ["mes"];
    assert Passes(re, tl, ["mes"], SampleTime(u)) == Success(Record([], map[])) by {
      assert ["mes"][1..] == [];
    }
    assert Passes(re, tl, pats, Sample(s)) == Success(Record([], map[]));
    assert FeatureMap.MarshalJSON(Record([], map[]), NoColour(), q) == "{}";
  }

  /** The ORed projection keeps both entries of the same line. */
  lemma FieldsIntendedKeepsBoth<T>(re: Regex, tl: TimeLib<T>, q: Quoting, line: seq<Token>, s: string, t: T)
    requires Decode(line) == Success(Sample(s))
    requires re.compiles("tim") && re.compiles("mes")
    requires re.matches("tim", "time") && re.matches("mes", "message")
    requires tl.parse(TimeFormatFrom, s) == Some(t)
    ensures var out := Record(["time", "message"], map["time" := String(tl.format(t, TimeFormatTo)), "message" := String("hi")]);
      FieldsIntended(re, tl, q, line, ["tim", "mes"]) == Success(FeatureMap.MarshalJSON(out, NoColour(), q))
  {
    var pats := ["tim", "mes"];
    assert AllCompile(re, pats);
    PassKeepsBoth(tl, MatchesSome(re, pats), s, t) by {
      assert re.matches(pats[0], "time") && re.matches(pats[1], "message");
    }
  }

  lemma PassKeepsBoth<T>(tl: TimeLib<T>, keep: string -> bool, s: string, t: T)
    requires keep("time") && keep("message")
    requires tl.parse(TimeFormatFrom, s) == Some(t)
    ensures PassFrom(tl, keep, Sample(s), 0)
      == Success(Record(["time", "message"], map["time" := String(tl.format(t, TimeFormatTo)), "message" := String("hi")]))
  {
    SampleWellFormed(s);
    FilteredKeepsBoth(tl, keep, s, t);
    PassIsFilter(tl, keep, Sample(s));
  }

  lemma FilteredKeepsBoth<T>(tl: TimeLib<T>, keep: string -> bool, s: string, t: T)
    requires keep("time") && keep("message")
    requires tl.parse(TimeFormatFrom, s) == Some(t)
    ensures TimeOk(tl, keep, Sample(s))
    ensures Filtered(tl, keep, Sample(s))
      == Record(["time", "message"], map["time" := String(tl.format(t, TimeFormatTo)), "message" := String("hi")])
  {
    var m := Sample(s);
    FilteredValues(tl, keep, m);
    var out := Filtered(tl, keep, m);
    KeepTwo("time", "message", keep);
    var want := map["time" := String(tl.format(t, TimeFormatTo)), "message" := String("hi")];
    assert forall x :: x in out.dict <==> x in want;
    assert out.dict == want;
  }

  /**
   * `-f tim -f ime` on `{"time": s}` fails: the first pass rewrites `time` to the short layout,
   * and the second pass parses that with the long layout again.
   */
  lemma FieldsTimeTwiceCounterexample<T>(re: Regex, tl: TimeLib<T>, q: Quoting, line: seq<Token>, s: string, t: T)
    requires Decode(line) == Success(SampleTime(s))
    requires re.compiles("tim") && re.compiles("ime")
    requires re.matches("tim", "time") && re.matches("ime", "time")
    requires tl.parse(TimeFormatFrom, s) == Some(t)
    requires tl.parse(TimeFormatFrom, tl.format(t, TimeFormatTo)) == None
    ensures Fields(re, tl, q, line, ["tim", "ime"]) == Failure(BadTime)
  {
    var pats := ["tim", "ime"];
    assert AllCompile(re, pats);
    PassRetimes(tl, Pattern(re, "tim"), s);
    var u := tl.format(t, TimeFormatTo);
    PassRetimes(tl, Pattern(re, "ime"), u);
    assert pats[1..] == ["ime"];
    assert Passes(re, tl, ["ime"], SampleTime(u)) == Failure(BadTime);
    assert Passes(re, tl, pats, SampleTime(s)) == Failure(BadTime);
  }

  /** The ORed projection rewrites `time` once and succeeds on the same line. */
  lemma FieldsIntendedRetimesOnce<T>(re: Regex, tl: TimeLib<T>, q: Quoting, line: seq<Token>, s: string, t: T)
    requires Decode(line) == Success(SampleTime(s))
    requires re.compiles("tim") && re.compiles("ime")
    requires re.matches("tim", "time")
    requires tl.parse(TimeFormatFrom, s) == Some(t)
    ensures FieldsIntended(re, tl, q, line, ["tim", "ime"])
      == Success(FeatureMap.MarshalJSON(SampleTime(tl.format(t, TimeFormatTo)), NoColour(), q))
  {
    var pats := ["tim", "ime"];
    assert AllCompile(re, pats);
    PassRetimes(tl, MatchesSome(re, pats), s) by {
      assert re.matches(pats[0], "time");
    }
  }

  // ---------------------------------------------------------------------------------------
  // IsErr

  /** The record's `level` is the string `error` or the string `warning`. */
  predicate Severe(m: Record)
  {
    Records.Has(m, "level") && Lookup(m, "level") in {String("error"), String("warning")}
  }

  /** `IsErr`: decode the line and report whether its level is `error` or `warning`. */
  function IsErr(line: seq<Token>): (r: Result<bool, FormatError>)
    ensures r.Success? <==> Decode(line).Success?
    ensures Decode(line).Failure? ==> r.error == Undecodable(Decode(line).error)
    ensures r.Success? ==> (r.value <==>
      exists s :: s in {"error", "warning"} && "level" in Decode(line).value.dict && Decode(line).value.dict["level"] == String(s))
  {
    match Decode(line)
    case Failure(e) => Failure(Undecodable(e))
    case Success(m) =>
      assert Severe(m) ==> m.dict["level"] == String(m.dict["level"].s);
      Success(Severe(m))
  }

  /** Only the `level` entry matters: setting any other key leaves the classification alone. */
  lemma SevereFrame(m: Record, k: string, v: Value)
    requires k != "level"
    ensures Severe(Records.Set(m, k, v)) == Severe(m)
  {
  }

  /** Setting `level` to a string makes the line severe exactly when the string is `error` or `warning`. */
  lemma SevereLevel(m: Record, level: string)
    ensures Severe(Records.Set(m, "level", String(level))) <==> level == "error" || level == "warning"
  {
  }

  /** A severe line stays severe through the projection of a pattern set that keeps `level`. */
  lemma SevereKept<T>(tl: TimeLib<T>, keep: string -> bool, m: Record)
    requires TimeOk(tl, keep, m) && keep("level")
    ensures Severe(Filtered(tl, keep, m)) == Severe(m)
  {
    FilteredValues(tl, keep, m);
  }
}
