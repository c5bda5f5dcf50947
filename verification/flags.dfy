/**
 * The command-line flag checks of cmd/flag.go: `-f/--field`, `-g/--group` and `-s/--select`
 * values are checked in that order and the first offending value decides the error. `-c` and
 * `-t` are never checked.
 */
module Flags {
  import opened Wrappers
  import opened Text
  import opened Regexp
  import Matcher
  import Formatter

  datatype Flags = Flags(colour: bool, fields: seq<string>, group: string, selects: seq<string>, time: string)

  datatype FlagError =
    | EmptyField          // a `-f` value is empty
    | ShortField          // a `-f` value is shorter than 3 bytes
    | ShortGroup          // the `-g` value is non-empty and shorter than 3 bytes
    | SelectFormat        // a `-s` value does not split into exactly two parts at `:`
    | ShortSelect         // a part of a `-s` value is shorter than 3 bytes
    | BadPattern(p: string)  // `regexp.Compile` rejected `p`

  /** The verdict on one `-f` value. */
  function FieldError(re: Regex, p: string): Option<FlagError>
  {
    if p == "" then Some(EmptyField)
    else if ByteLen(p) < 3 then Some(ShortField)
    else if !re.compiles(p) then Some(BadPattern(p))
    else None
  }

  /** The verdict on the `-g` value; the empty group switches grouping off and is fine. */
  function GroupError(re: Regex, g: string): Option<FlagError>
  {
    if g == "" then None
    else if ByteLen(g) < 3 then Some(ShortGroup)
    else if !re.compiles(g) then Some(BadPattern(g))
    else None
  }

  /** The verdict on one side of a `-s` value. */
  function SegmentError(re: Regex, s: string): Option<FlagError>
  {
    if ByteLen(s) < 3 then Some(ShortSelect)
    else if !re.compiles(s) then Some(BadPattern(s))
    else None
  }

  /** The verdict on one `-s` value: two parts at `:`, the key side checked before the value side. */
  function SelectError(re: Regex, s: string): Option<FlagError>
  {
    var parts := Split(s, ':');
    if |parts| != 2 then Some(SelectFormat)
    else if SegmentError(re, parts[0]).Some? then SegmentError(re, parts[0])
    else SegmentError(re, parts[1])
  }

  ghost predicate FieldsOk(re: Regex, fields: seq<string>)
  {
    forall i :: 0 <= i < |fields| ==> FieldError(re, fields[i]) == None
  }

  ghost predicate SelectsOk(re: Regex, selects: seq<string>)
  {
    forall i :: 0 <= i < |selects| ==> SelectError(re, selects[i]) == None
  }

  /** Every checked value passes its check. */
  ghost predicate Valid(re: Regex, f: Flags)
  {
    FieldsOk(re, f.fields) && GroupError(re, f.group) == None && SelectsOk(re, f.selects)
  }

  /** `e` is the verdict on the first `-f` value that fails. */
  ghost predicate FirstFieldError(re: Regex, fields: seq<string>, e: FlagError)
  {
    exists i :: 0 <= i < |fields| && FieldsOk(re, fields[..i]) && FieldError(re, fields[i]) == Some(e)
  }

  /** `e` is the verdict on the first `-s` value that fails. */
  ghost predicate FirstSelectError(re: Regex, selects: seq<string>, e: FlagError)
  {
    exists i :: 0 <= i < |selects| && SelectsOk(re, selects[..i]) && SelectError(re, selects[i]) == Some(e)
  }

  /** `e` is the error of the first failing check, in the order fields, group, selects. */
  ghost predicate FirstError(re: Regex, f: Flags, e: FlagError)
  {
    || FirstFieldError(re, f.fields, e)
    || (FieldsOk(re, f.fields) && GroupError(re, f.group) == Some(e))
    || (FieldsOk(re, f.fields) && GroupError(re, f.group) == None && FirstSelectError(re, f.selects, e))
  }

  lemma PrefixOk(re: Regex, fields: seq<string>, selects: seq<string>, i: nat, k: nat)
    requires i <= |fields| && k <= |selects|
    ensures FieldsOk(re, fields[..i]) <==> forall j :: 0 <= j < i ==> FieldError(re, fields[j]) == None
    ensures SelectsOk(re, selects[..k]) <==> forall j :: 0 <= j < k ==> SelectError(re, selects[j]) == None
  {
    assert forall j :: 0 <= j < i ==> fields[..i][j] == fields[j];
    assert forall j :: 0 <= j < k ==> selects[..k][j] == selects[j];
  }

  /** `Validate`: the checks in the order fields, group, selects; the first failure is returned. */
  method Validate(re: Regex, f: Flags) returns (r: Outcome<FlagError>)
    ensures r.Pass? <==> Valid(re, f)
    ensures r.Fail? ==> FirstError(re, f, r.error)
  {
    var i := 0;
    while i < |f.fields|
      invariant 0 <= i <= |f.fields|
      invariant forall j :: 0 <= j < i ==> FieldError(re, f.fields[j]) == None
    {
      var p := f.fields[i];
      var e: Option<FlagError> := None;
      if p == "" {
        e := Some(EmptyField);
      } else if ByteLen(p) < 3 {
        e := Some(ShortField);
      } else if !re.compiles(p) {
        e := Some(BadPattern(p));
      }
      if e.Some? {
        PrefixOk(re, f.fields, f.selects, i, 0);
        assert FieldError(re, f.fields[i]) == e;
        return Fail(e.value);
      }
      i := i + 1;
    }
    PrefixOk(re, f.fields, f.selects, |f.fields|, 0);
    assert f.fields[..|f.fields|] == f.fields;

    if f.group != "" {
      if ByteLen(f.group) < 3 {
        return Fail(ShortGroup);
      }
      if !re.compiles(f.group) {
        return Fail(BadPattern(f.group));
      }
    }

    var k := 0;
    while k < |f.selects|
      invariant 0 <= k <= |f.selects|
      invariant forall j :: 0 <= j < k ==> SelectError(re, f.selects[j]) == None
    {
      var split := Split(f.selects[k], ':');
      var e: Option<FlagError> := None;
      if |split| != 2 {
        e := Some(SelectFormat);
      } else {
        var n := 0;
        while n < |split| && e.None?
          invariant 0 <= n <= |split|
          invariant e.None? ==> forall j :: 0 <= j < n ==> SegmentError(re, split[j]) == None
          invariant e.Some? ==> n >= 1 && (forall j :: 0 <= j < n - 1 ==> SegmentError(re, split[j]) == None) && SegmentError(re, split[n - 1]) == e
        {
          var s := split[n];
          if ByteLen(s) < 3 {
            e := Some(ShortSelect);
          } else if !re.compiles(s) {
            e := Some(BadPattern(s));
          }
          n := n + 1;
        }
      }
      if e.Some? {
        PrefixOk(re, f.fields, f.selects, 0, k);
        assert SelectError(re, f.selects[k]) == e;
        return Fail(e.value);
      }
      assert SelectError(re, f.selects[k]) == None;
      k := k + 1;
    }
    return Pass;
  }

  /** A check reports at most one error: the first failing check is unique. */
  lemma FirstErrorUnique(re: Regex, f: Flags, e1: FlagError, e2: FlagError)
    requires FirstError(re, f, e1) && FirstError(re, f, e2)
    ensures e1 == e2
  {
    if !FieldsOk(re, f.fields) {
      var i :| 0 <= i < |f.fields| && FieldsOk(re, f.fields[..i]) && FieldError(re, f.fields[i]) == Some(e1);
      FirstFieldAt(re, f.fields, i, e2);
    } else if GroupError(re, f.group).None? {
      var i :| 0 <= i < |f.selects| && SelectsOk(re, f.selects[..i]) && SelectError(re, f.selects[i]) == Some(e1);
      FirstSelectAt(re, f.selects, i, e2);
    }
  }

  /** Once the first failing select is at `i`, every first select error is its verdict. */
  lemma FirstSelectAt(re: Regex, selects: seq<string>, i: nat, e: FlagError)
    requires i < |selects| && SelectsOk(re, selects[..i]) && SelectError(re, selects[i]).Some?
    ensures FirstSelectError(re, selects, e) ==> SelectError(re, selects[i]) == Some(e)
  {
    PrefixOk(re, [], selects, 0, i);
    if FirstSelectError(re, selects, e) {
      var k :| 0 <= k < |selects| && SelectsOk(re, selects[..k]) && SelectError(re, selects[k]) == Some(e);
      PrefixOk(re, [], selects, 0, k);
    }
  }

  /** Once the first failing field is at `i`, no other verdict is a first field error, and the fields are not all fine. */
  lemma FirstFieldAt(re: Regex, fields: seq<string>, i: nat, e: FlagError)
    requires i < |fields| && FieldsOk(re, fields[..i]) && FieldError(re, fields[i]).Some?
    ensures FirstFieldError(re, fields, e) ==> FieldError(re, fields[i]) == Some(e)
    ensures !FieldsOk(re, fields)
  {
    PrefixOk(re, fields, [], i, 0);
    if FirstFieldError(re, fields, e) {
      var k :| 0 <= k < |fields| && FieldsOk(re, fields[..k]) && FieldError(re, fields[k]) == Some(e);
      PrefixOk(re, fields, [], k, 0);
    }
  }

  /** Flags that pass `Validate` can be compiled: every `-f` pattern compiles. */
  lemma ValidFieldsCompile(re: Regex, f: Flags)
    requires Valid(re, f)
    ensures Formatter.AllCompile(re, f.fields)
  {
    forall i | 0 <= i < |f.fields| ensures re.compiles(f.fields[i]) {
      assert FieldError(re, f.fields[i]) == None;
    }
  }

  /**
   * Flags that pass `Validate` do not make the matcher panic: each `-s` value is exactly
   * `key:val` and compiles to that pair.
   */
  lemma ValidSelectsCompile(re: Regex, f: Flags)
    requires Valid(re, f)
    ensures Matcher.Compile(re, f.selects).Success?
    ensures forall i :: 0 <= i < |f.selects| ==>
      Join([Matcher.Compile(re, f.selects).value[i].0, Matcher.Compile(re, f.selects).value[i].1], ':') == f.selects[i]
  {
    forall i | 0 <= i < |f.selects| ensures Matcher.Compilable(re, f.selects[i]) {
      var s := f.selects[i];
      assert SelectError(re, s) == None;
      CountZero(s, ':');
    }
    Matcher.CompileSpec(re, f.selects);
    forall i | 0 <= i < |f.selects|
      ensures Join([Matcher.Compile(re, f.selects).value[i].0, Matcher.Compile(re, f.selects).value[i].1], ':') == f.selects[i]
    {
      var parts := Split(f.selects[i], ':');
      assert SelectError(re, f.selects[i]) == None;
      assert parts == [parts[0], parts[1]];
    }
  }
}
