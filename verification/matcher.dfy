/**
 * The selector of pkg/matcher/matcher.go: bare-key expansion (`Exp`, `ExpWithout`,
 * `ContainsExp`), the per-pair test against a decoded line (`pairMatchesMapping`), the
 * all-pairs `Match`, and `Value`.
 */
module Matcher {
  import opened Wrappers
  import opened Json
  import opened Text
  import opened Regexp
  import opened Decoder
  import opened StringMap
  import Records

  datatype MatchError =
    | Panic                        // `regexp.MustCompile` on a bad pattern, or `split[1]` out of range
    | Undecodable(e: DecodeError)  // the line is not an object the decoder accepts

  /** A spec without `:`: the single-key form. */
  predicate Bare(s: string)
  {
    |Split(s, ':')| == 1
  }

  lemma BareIffNoColon(s: string)
    ensures Bare(s) <==> ':' !in s
  {
    CountZero(s, ':');
  }

  /** `Exp`: every bare spec becomes `spec:.*`; specs with a `:` are dropped. */
  function Exp(list: seq<string>): (pairs: seq<string>)
    ensures |pairs| <= |list|
  {
    if |list| == 0 then []
    else (if Bare(list[0]) then [list[0] + ":" + DotStar] else []) + Exp(list[1..])
  }

  /** `Exp` keeps exactly the bare specs, each with `:.*` appended. */
  lemma {:induction false} ExpMembers(list: seq<string>)
    ensures forall x :: x in Exp(list) <==> exists i :: 0 <= i < |list| && ':' !in list[i] && x == list[i] + ":" + DotStar
  {
    if |list| > 0 {
      ExpMembers(list[1..]);
      BareIffNoColon(list[0]);
      forall x ensures x in Exp(list) <==> exists i :: 0 <= i < |list| && ':' !in list[i] && x == list[i] + ":" + DotStar {
        if x in Exp(list[1..]) {
          var i :| 0 <= i < |list[1..]| && ':' !in list[1..][i] && x == list[1..][i] + ":" + DotStar;
          assert list[i + 1] == list[1..][i];
        }
        if exists i :: 0 <= i < |list| && ':' !in list[i] && x == list[i] + ":" + DotStar {
          var i :| 0 <= i < |list| && ':' !in list[i] && x == list[i] + ":" + DotStar;
          if i > 0 {
            assert list[1..][i - 1] == list[i];
          }
        }
      }
    }
  }

  /** `Exp` works spec by spec, so it keeps the order of its input. */
  lemma {:induction false} ExpAppend(a: seq<string>, b: seq<string>)
    ensures Exp(a + b) == Exp(a) + Exp(b)
  {
    if |a| == 0 {
      assert a + b == b;
    } else {
      var ab := a + b;
      assert ab[0] == a[0] && ab[1..] == a[1..] + b;
      ExpAppend(a[1..], b);
      var head := if Bare(a[0]) then [a[0] + ":" + DotStar] else [];
      assert Exp(ab) == head + Exp(a[1..] + b);
      assert Exp(a) == head + Exp(a[1..]);
    }
  }

  /**
   * `ContainsExp`: whether pattern `field` matches some element of `fields`. The pattern is
   * compiled inside the loop, so a bad pattern panics only when `fields` is not empty.
   */
  function ContainsExp(re: Regex, fields: seq<string>, field: string): (r: Result<bool, MatchError>)
    ensures |fields| == 0 ==> r == Success(false)
    ensures |fields| > 0 && !re.compiles(field) ==> r == Failure(Panic)
    ensures re.compiles(field) ==> r == Success(exists i :: 0 <= i < |fields| && re.matches(field, fields[i]))
  {
    if |fields| == 0 then Success(false)
    else if !re.compiles(field) then Failure(Panic)
    else if re.matches(field, fields[0]) then Success(true)
    else
      var r := ContainsExp(re, fields[1..], field);
      assert forall i :: 1 <= i < |fields| ==> fields[i] == fields[1..][i - 1];
      r
  }

  /** The loop of `ExpWithout`: bare specs not matched against any of `without`, in order. */
  function KeptSpecs(re: Regex, list: seq<string>, without: seq<string>): Result<seq<string>, MatchError>
  {
    if |list| == 0 then Success([])
    else
      match ContainsExp(re, without, list[0])
      case Failure(e) => Failure(e)
      case Success(excluded) =>
        match KeptSpecs(re, list[1..], without)
        case Failure(e) => Failure(e)
        case Success(rest) => Success(if excluded || !Bare(list[0]) then rest else [list[0]] + rest)
  }

  /**
   * `ExpWithout`: `Exp` of the specs the loop keeps. It only fails by panicking, and when it
   * succeeds it expands exactly the kept specs of the input, in input order, repeats included.
   */
  function ExpWithout(re: Regex, list: seq<string>, without: seq<string>): (r: Result<seq<string>, MatchError>)
    ensures r.Failure? ==> r.error == Panic
    ensures r.Success? ==> r.value == Exp(FilterKept(re, list, without))
  {
    KeptSpecsFilter(re, list, without);
    match KeptSpecs(re, list, without)
    case Failure(e) => Failure(e)
    case Success(kept) => Success(Exp(kept))
  }

  /** A spec `ExpWithout` keeps: bare, and matching none of the excluded names as a pattern. */
  ghost predicate Kept(re: Regex, s: string, without: seq<string>)
  {
    ':' !in s && forall i :: 0 <= i < |without| ==> !re.matches(s, without[i])
  }

  /** The kept specs of `list`, in order and with repeats: the reference for the loop. */
  ghost function FilterKept(re: Regex, list: seq<string>, without: seq<string>): seq<string>
  {
    if |list| == 0 then []
    else (if Kept(re, list[0], without) then [list[0]] else []) + FilterKept(re, list[1..], without)
  }

  /** Whenever the loop finishes, it has kept exactly `FilterKept`; its only failure is a panic. */
  lemma {:induction false} KeptSpecsFilter(re: Regex, list: seq<string>, without: seq<string>)
    ensures KeptSpecs(re, list, without).Failure? ==> KeptSpecs(re, list, without).error == Panic
    ensures KeptSpecs(re, list, without).Success? ==> KeptSpecs(re, list, without).value == FilterKept(re, list, without)
  {
    if |list| > 0 {
      KeptSpecsFilter(re, list[1..], without);
      BareIffNoColon(list[0]);
      var c := ContainsExp(re, without, list[0]);
      if c.Success? {
        assert Kept(re, list[0], without) <==> !c.value && Bare(list[0]);
      }
    }
  }

  /**
   * When every spec compiles (or nothing is excluded), the loop succeeds and keeps `FilterKept`:
   * the kept specs in input order, repeats included. Those are all bare, so each one gains `:.*`.
   */
  lemma {:induction false} ExpWithoutKeeps(re: Regex, list: seq<string>, without: seq<string>)
    requires |without| == 0 || forall i :: 0 <= i < |list| ==> re.compiles(list[i])
    ensures KeptSpecs(re, list, without).Success?
    ensures var kept := KeptSpecs(re, list, without).value;
      && kept == FilterKept(re, list, without)
      && (forall x :: x in kept <==> x in list && Kept(re, x, without))
      && Exp(kept) == seq(|kept|, i requires 0 <= i < |kept| => kept[i] + ":" + DotStar)
  {
    if |list| > 0 {
      assert forall i :: 0 <= i < |list[1..]| ==> list[1..][i] == list[i + 1];
      ExpWithoutKeeps(re, list[1..], without);
      BareIffNoColon(list[0]);
      var rest := KeptSpecs(re, list[1..], without).value;
      var kept := KeptSpecs(re, list, without).value;
      assert list == [list[0]] + list[1..];
      if |without| > 0 {
        assert re.compiles(list[0]);
      }
      assert ContainsExp(re, without, list[0]).Success?;
      assert Kept(re, list[0], without) <==> !ContainsExp(re, without, list[0]).value && Bare(list[0]);
      AllBareExp(kept, re, without, list);
    }
  }

  lemma {:induction false} AllBareExp(kept: seq<string>, re: Regex, without: seq<string>, list: seq<string>)
    requires forall x :: x in kept ==> Kept(re, x, without)
    ensures Exp(kept) == seq(|kept|, i requires 0 <= i < |kept| => kept[i] + ":" + DotStar)
  {
    if |kept| > 0 {
      assert kept[0] in kept;
      BareIffNoColon(kept[0]);
      assert forall x :: x in kept[1..] ==> x in kept;
      AllBareExp(kept[1..], re, without, list);
    }
  }

  /** An excluded list with a spec that does not compile makes `ExpWithout` panic. */
  lemma {:induction false} ExpWithoutPanics(re: Regex, list: seq<string>, without: seq<string>)
    requires |without| > 0 && exists i :: 0 <= i < |list| && !re.compiles(list[i])
    ensures ExpWithout(re, list, without) == Failure(Panic)
  {
    if re.compiles(list[0]) {
      var i :| 0 <= i < |list| && !re.compiles(list[i]);
      assert list[1..][i - 1] == list[i];
      ExpWithoutPanics(re, list[1..], without);
    }
  }

  // ---------------------------------------------------------------------------------------
  // Matching a decoded line.

  /** The loop of `pairMatchesMapping` over the remaining iterator yields. */
  function PairMatchesFrom(re: Regex, kp: string, vp: string, es: seq<(string, Value)>): (r: bool)
    ensures r <==> exists i :: 0 <= i < |es| && re.matches(kp, es[i].0) && (!es[i].1.String? || re.matches(vp, es[i].1.s))
  {
    if |es| == 0 then false
    else
      var matchKey := re.matches(kp, es[0].0);
      var s := if es[0].1.String? then es[0].1.s else "";
      if matchKey && !es[0].1.String? then true
      else if matchKey && re.matches(vp, s) then true
      else
        var r := PairMatchesFrom(re, kp, vp, es[1..]);
        assert forall i :: 1 <= i < |es| ==> es[i] == es[1..][i - 1];
        r
  }

  /**
   * `pairMatchesMapping`: some entry's key matches the key pattern and its value is either not
   * a string (only the key is compared) or a string the value pattern matches.
   */
  predicate PairMatchesMapping(re: Regex, pair: (string, string), m: Record)
    ensures PairMatchesMapping(re, pair, m) <==>
      exists i :: 0 <= i < |m.keys| && re.matches(pair.0, m.keys[i])
        && (!Lookup(m, m.keys[i]).String? || re.matches(pair.1, Lookup(m, m.keys[i]).s))
  {
    PairMatchesFrom(re, pair.0, pair.1, Records.Entries(m))
  }

  /** For a well-formed record the iterator is irrelevant: it is a statement about the stored keys. */
  lemma PairMatchesStored(re: Regex, pair: (string, string), m: Record)
    requires WellFormed(m)
    ensures PairMatchesMapping(re, pair, m) <==>
      exists k :: k in m.dict && re.matches(pair.0, k) && (!m.dict[k].String? || re.matches(pair.1, m.dict[k].s))
  {
    var es := Records.Entries(m);
    if PairMatchesMapping(re, pair, m) {
      var i :| 0 <= i < |es| && re.matches(pair.0, es[i].0) && (!es[i].1.String? || re.matches(pair.1, es[i].1.s));
      assert m.keys[i] in m.dict;
    }
    if exists k :: k in m.dict && re.matches(pair.0, k) && (!m.dict[k].String? || re.matches(pair.1, m.dict[k].s)) {
      var k :| k in m.dict && re.matches(pair.0, k) && (!m.dict[k].String? || re.matches(pair.1, m.dict[k].s));
      var i :| 0 <= i < |m.keys| && m.keys[i] == k;
      assert es[i].0 == k;
    }
  }

  /** A map with no entries matches no pair. */
  lemma EmptyNeverMatches(re: Regex, pair: (string, string), m: Record)
    requires |m.keys| == 0
    ensures !PairMatchesMapping(re, pair, m)
  {
  }

  /**
   * The compile loop of `Match`: each select is split on `:`, and its first segment and then
   * its second are compiled with `MustCompile`; a select without `:` has no second segment.
   * Further segments are ignored.
   */
  function Compile(re: Regex, selects: seq<string>): (r: Result<seq<(string, string)>, MatchError>)
    ensures r.Success? ==> |r.value| == |selects|
    ensures r.Failure? ==> r.error == Panic
  {
    if |selects| == 0 then Success([])
    else
      var split := Split(selects[0], ':');
      if !re.compiles(split[0]) || |split| < 2 || !re.compiles(split[1]) then Failure(Panic)
      else
        match Compile(re, selects[1..])
        case Failure(e) => Failure(e)
        case Success(rest) => Success([(split[0], split[1])] + rest)
  }

  /** A select compiles when it has a `:` and its first two segments compile. */
  ghost predicate Compilable(re: Regex, s: string)
  {
    ':' in s && re.compiles(Split(s, ':')[0]) && re.compiles(Split(s, ':')[1])
  }

  lemma {:induction false} CompileSpec(re: Regex, selects: seq<string>)
    ensures Compile(re, selects).Success? <==> forall i :: 0 <= i < |selects| ==> Compilable(re, selects[i])
    ensures Compile(re, selects).Success? ==> forall i :: 0 <= i < |selects| ==>
      Compile(re, selects).value[i] == (Split(selects[i], ':')[0], Split(selects[i], ':')[1])
  {
    if |selects| > 0 {
      CompileSpec(re, selects[1..]);
      CountZero(selects[0], ':');
      assert forall i :: 1 <= i < |selects| ==> selects[i] == selects[1..][i - 1];
    }
  }

  /** The number of pairs that match, as `matched` counts them. */
  function Matched(re: Regex, pairs: seq<(string, string)>, m: Record): (n: nat)
    ensures n <= |pairs|
  {
    if |pairs| == 0 then 0
    else (if PairMatchesMapping(re, pairs[0], m) then 1 else 0) + Matched(re, pairs[1..], m)
  }

  /** The count reaches the number of pairs exactly when every pair matches. */
  lemma {:induction false} MatchedAll(re: Regex, pairs: seq<(string, string)>, m: Record)
    ensures Matched(re, pairs, m) == |pairs| <==> forall i :: 0 <= i < |pairs| ==> PairMatchesMapping(re, pairs[i], m)
  {
    if |pairs| > 0 {
      MatchedAll(re, pairs[1..], m);
      assert forall i :: 1 <= i < |pairs| ==> pairs[i] == pairs[1..][i - 1];
    }
  }

  /** `Match`: compile every select, decode the line, then count the pairs that match. */
  function Match(re: Regex, line: seq<Token>, selects: seq<string>): (r: Result<bool, MatchError>)
    ensures Compile(re, selects).Failure? ==> r == Failure(Panic)
    ensures Compile(re, selects).Success? && Decode(line).Failure? ==> r == Failure(Undecodable(Decode(line).error))
  {
    match Compile(re, selects)
    case Failure(e) => Failure(e)
    case Success(pairs) =>
      match Decode(line)
      case Failure(e) => Failure(Undecodable(e))
      case Success(m) => Success(Matched(re, pairs, m) == |pairs|)
  }

  /** A line that decodes matches exactly when every select pair matches some entry. */
  lemma MatchIsConjunction(re: Regex, line: seq<Token>, selects: seq<string>)
    requires Compile(re, selects).Success? && Decode(line).Success?
    ensures Match(re, line, selects)
      == Success(forall i :: 0 <= i < |selects| ==> PairMatchesMapping(re, Compile(re, selects).value[i], Decode(line).value))
  {
    MatchedAll(re, Compile(re, selects).value, Decode(line).value);
  }

  /** With no selects every decodable line matches; an undecodable one is an error, not a mismatch. */
  lemma NoSelectsMatch(re: Regex, line: seq<Token>)
    ensures Decode(line).Success? ==> Match(re, line, []) == Success(true)
    ensures Decode(line).Failure? ==> Match(re, line, []).Failure?
  {
  }

  /**
   * A bare key expanded by `Exp` selects exactly the lines holding a key its pattern matches,
   * whatever the value, given an engine for which `.*` matches everything.
   */
  lemma BareKeySelects(re: Regex, key: string, m: Record)
    requires DotStarMatchesAll(re) && re.compiles(key) && ':' !in key
    ensures Compile(re, Exp([key])) == Success([(key, DotStar)])
    ensures PairMatchesMapping(re, (key, DotStar), m) <==>
      exists i :: 0 <= i < |m.keys| && re.matches(key, m.keys[i])
  {
    BareIffNoColon(key);
    assert Exp([key]) == [key + ":" + DotStar];
    var parts := [key, DotStar];
    assert Join(parts[1..], ':') == DotStar;
    assert Join(parts, ':') == key + ":" + DotStar;
    assert forall i :: 0 <= i < |parts| ==> ':' !in parts[i];
    SplitUnique(key + ":" + DotStar, ':', parts);
    var spec := key + ":" + DotStar;
    assert Split(spec, ':') == parts;
    assert re.compiles(DotStar);
    assert [spec][1..] == [];
    assert Compile(re, []) == Success([]);
    assert [(key, DotStar)] + [] == [(key, DotStar)];
    assert Compile(re, [spec]) == Success([(key, DotStar)]);
    var es := Records.Entries(m);
    if exists i :: 0 <= i < |m.keys| && re.matches(key, m.keys[i]) {
      var i :| 0 <= i < |m.keys| && re.matches(key, m.keys[i]);
      assert re.matches(key, es[i].0);
      if es[i].1.String? {
        assert re.matches(DotStar, es[i].1.s);
      }
    }
  }

  /**
   * `Value`: decode the line into a string map, compile the pattern, and return the value of a
   * key the pattern matches, taken in Go's unspecified map order; `""` when no key matches.
   */
  method Value(re: Regex, line: seq<Token>, s: string) returns (r: Result<string, MatchError>)
    ensures UnmarshalStrings(line).Failure? ==> r == Failure(Undecodable(UnmarshalStrings(line).error))
    ensures UnmarshalStrings(line).Success? && !re.compiles(s) ==> r == Failure(Panic)
    ensures UnmarshalStrings(line).Success? && re.compiles(s) ==> r.Success?
    ensures r.Success? ==> var m := UnmarshalStrings(line).value;
      && ((forall k :: k in m ==> !re.matches(s, k)) ==> r.value == "")
      && ((exists k :: k in m && re.matches(s, k)) ==> exists k :: k in m && re.matches(s, k) && r.value == m[k])
  {
    var decoded := UnmarshalStrings(line);
    if decoded.Failure? {
      return Failure(Undecodable(decoded.error));
    }
    var m := decoded.value;
    if !re.compiles(s) {
      return Failure(Panic);
    }
    var unseen := m.Keys;
    while unseen != {}
      invariant unseen <= m.Keys
      invariant forall k :: k in m.Keys - unseen ==> !re.matches(s, k)
      decreases |unseen|
    {
      var k :| k in unseen;
      if re.matches(s, k) {
        return Success(m[k]);
      }
      unseen := unseen - {k};
    }
    return Success("");
  }
}
