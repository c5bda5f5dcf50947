/**
 * The older selector of pkg/matcher/filter.go: the line is decoded into a string-only map and
 * each `key:value` grep must be matched, key and value together, by one of its entries.
 */
module LegacyMatcher {
  import opened Wrappers
  import opened Json
  import opened Regexp
  import opened StringMap
  import Matcher

  /** A pair matched by some entry: the key pattern matches the key and the value pattern the value. */
  ghost predicate Satisfied(re: Regex, pair: (string, string), m: map<string, string>)
  {
    exists k :: k in m && re.matches(pair.0, k) && re.matches(pair.1, m[k])
  }

  /**
   * `pairMatchesMapping`: the map is walked in Go's unspecified order and the first entry that
   * matches both patterns ends the walk. There is no fallback for other value types: the map
   * only holds strings.
   */
  method PairMatchesMapping(re: Regex, pair: (string, string), m: map<string, string>) returns (r: bool)
    ensures r <==> Satisfied(re, pair, m)
    ensures |m| == 0 ==> !r
  {
    var unseen := m.Keys;
    while unseen != {}
      invariant unseen <= m.Keys
      invariant forall k :: k in m.Keys - unseen ==> !(re.matches(pair.0, k) && re.matches(pair.1, m[k]))
      decreases |unseen|
    {
      var k :| k in unseen;
      if re.matches(pair.0, k) && re.matches(pair.1, m[k]) {
        return true;
      }
      unseen := unseen - {k};
    }
    return false;
  }

  /**
   * `Match`: the greps are compiled first (as in the newer matcher: `:` required, two segments
   * compiled, the rest ignored), then the line is decoded, then the matching pairs are counted.
   */
  method Match(re: Regex, line: seq<Token>, greps: seq<string>) returns (r: Result<bool, Matcher.MatchError>)
    ensures Matcher.Compile(re, greps).Failure? ==> r == Failure(Matcher.Panic)
    ensures Matcher.Compile(re, greps).Success? && UnmarshalStrings(line).Failure? ==>
      r == Failure(Matcher.Undecodable(UnmarshalStrings(line).error))
    ensures Matcher.Compile(re, greps).Success? && UnmarshalStrings(line).Success? ==>
      r.Success? && (r.value <==> forall i :: 0 <= i < |greps| ==>
        Satisfied(re, Matcher.Compile(re, greps).value[i], UnmarshalStrings(line).value))
  {
    var compiled := Matcher.Compile(re, greps);
    if compiled.Failure? {
      return Failure(compiled.error);
    }
    var pairs := compiled.value;
    var decoded := UnmarshalStrings(line);
    if decoded.Failure? {
      return Failure(Matcher.Undecodable(decoded.error));
    }
    var m := decoded.value;
    var matched := 0;
    var i := 0;
    while i < |pairs|
      invariant 0 <= i <= |pairs|
      invariant 0 <= matched <= i
      invariant matched == i <==> forall j :: 0 <= j < i ==> Satisfied(re, pairs[j], m)
    {
      var ok := PairMatchesMapping(re, pairs[i], m);
      if ok {
        matched := matched + 1;
      }
      i := i + 1;
    }
    assert |pairs| == |greps|;
    assert pairs == Matcher.Compile(re, greps).value;
    assert m == UnmarshalStrings(line).value;
    assert (matched == |pairs|) <==> forall j :: 0 <= j < |greps| ==> Satisfied(re, Matcher.Compile(re, greps).value[j], UnmarshalStrings(line).value);
    return Success(matched == |pairs|);
  }
}
