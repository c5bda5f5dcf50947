/** The pieces of Go's `strings` package and of `len` on strings that the core relies on. */
module Text {

  /** Number of occurrences of `c` in `s`. */
  function Count(s: string, c: char): nat
  {
    if |s| == 0 then 0 else (if s[0] == c then 1 else 0) + Count(s[1..], c)
  }

  lemma {:induction false} CountZero(s: string, c: char)
    ensures Count(s, c) == 0 <==> c !in s
  {
    if |s| > 0 {
      CountZero(s[1..], c);
      assert s == [s[0]] + s[1..];
    }
  }

  /** The inverse of `Split`: the parts glued back together with `sep` between neighbours. */
  function Join(parts: seq<string>, sep: char): string
    requires |parts| >= 1
  {
    if |parts| == 1 then parts[0] else parts[0] + [sep] + Join(parts[1..], sep)
  }

  /**
   * `strings.Split(s, sep)` for a one-character separator: the maximal runs of `s` between
   * occurrences of `sep`. An empty `s` gives one empty part, as in Go.
   */
  function Split(s: string, sep: char): (parts: seq<string>)
    ensures |parts| == Count(s, sep) + 1
    ensures forall i :: 0 <= i < |parts| ==> sep !in parts[i]
    ensures Join(parts, sep) == s
    decreases |s|
  {
    if |s| == 0 then [""]
    else
      var rest := Split(s[1..], sep);
      if s[0] == sep then
        assert Join([""] + rest, sep) == [sep] + Join(rest, sep) by {
          assert ([""] + rest)[1..] == rest;
        }
        [""] + rest
      else
        var parts := [[s[0]] + rest[0]] + rest[1..];
        assert Join(parts, sep) == s by {
          assert parts[1..] == rest[1..];
          assert s == [s[0]] + s[1..];
        }
        parts
  }

  /** The parts `Split` returns are the only sep-free parts that join to `s`. */
  lemma {:induction false} SplitUnique(s: string, sep: char, parts: seq<string>)
    requires |parts| >= 1
    requires forall i :: 0 <= i < |parts| ==> sep !in parts[i]
    requires Join(parts, sep) == s
    ensures Split(s, sep) == parts
    decreases |s|
  {
    if |s| == 0 {
    } else if |parts[0]| == 0 {
      assert |parts| > 1;
      assert s[0] == sep && s[1..] == Join(parts[1..], sep);
      SplitUnique(s[1..], sep, parts[1..]);
    } else {
      var p0 := parts[0][1..];
      var tail := [p0] + parts[1..];
      assert s[0] == parts[0][0];
      assert s[0] != sep by { assert parts[0][0] in parts[0]; }
      assert forall i :: 0 <= i < |tail| ==> sep !in tail[i] by {
        forall i | 0 <= i < |tail| ensures sep !in tail[i] {
          if i == 0 {
            assert forall x :: x in p0 ==> x in parts[0];
          } else {
            assert tail[i] == parts[i];
          }
        }
      }
      if |parts| == 1 {
        assert Join(tail, sep) == p0;
        assert s[1..] == p0;
      } else {
        assert tail[1..] == parts[1..];
        assert Join(tail, sep) == p0 + [sep] + Join(parts[1..], sep);
        assert parts[0] == [s[0]] + p0;
        assert s[1..] == Join(tail, sep);
      }
      SplitUnique(s[1..], sep, tail);
      var rest := Split(s[1..], sep);
      assert rest == tail;
      assert Split(s, sep) == [[s[0]] + p0] + parts[1..];
    }
  }

  /** A string without `sep` splits into itself alone. */
  lemma SplitNoSep(s: string, sep: char)
    requires sep !in s
    ensures Split(s, sep) == [s]
  {
    CountZero(s, sep);
  }

  /** Bytes the character takes in UTF-8, the unit of Go's `len` on strings. */
  function Utf8Width(c: char): nat
  {
    if c as int < 0x80 then 1
    else if c as int < 0x800 then 2
    else if c as int < 0x1_0000 then 3
    else 4
  }

  /** `len(s)` in Go: the UTF-8 length of the string. */
  function ByteLen(s: string): (n: nat)
    ensures |s| <= n <= 4 * |s|
  {
    if |s| == 0 then 0 else Utf8Width(s[0]) + ByteLen(s[1..])
  }

  /** An ASCII string is as long in bytes as in characters. */
  lemma {:induction false} ByteLenAscii(s: string)
    requires forall i :: 0 <= i < |s| ==> s[i] as int < 0x80
    ensures ByteLen(s) == |s|
  {
    if |s| > 0 {
      ByteLenAscii(s[1..]);
    }
  }
}
