/**
 * The streaming decoder both ordered maps use (`UnmarshalJSON`, `parseobject`, `handledelim`,
 * `parsearray`), over the token sequence `json.Decoder.Token` would deliver, and the token
 * serialiser that is its inverse on well-formed records.
 */
module Decoder {
  import opened Wrappers
  import opened Json

  datatype DecodeError =
    | NotAnObject                    // "data must be JSON object"
    | NotAnArray                     // "data must be JSON array"
    | UnexpectedDelimiter(t: Token)  // a closing delimiter where a value belongs
    | UnexpectedEnd                  // `Token()` called with no input left
    | NotStrings                     // a value `json.Unmarshal` cannot store in a string

  /** `dec.More()`: input remains and its next token does not close the current array or object. */
  predicate More(ts: seq<Token>)
  {
    |ts| > 0 && ts[0] != EndObject && ts[0] != EndArray
  }

  /** The decoder's insertion: the key is pushed to the list unconditionally (feature_map.go:217). */
  function Push(m: Record, k: string, v: Value): Record
  {
    Record(m.keys + [k], m.dict[k := v])
  }

  /** `handledelim`: the value that starts with token `t`, and the tokens after it. */
  function HandleDelim(t: Token, ts: seq<Token>): (r: Result<(Value, seq<Token>), DecodeError>)
    ensures r.Success? ==> |r.value.1| <= |ts|
    decreases |ts|, 1
  {
    match t
    case BeginObject =>
      (match ParseObject(Empty(), ts)
       case Success(p) => Success((Object(p.0), p.1))
       case Failure(e) => Failure(e))
    case BeginArray =>
      (match ParseArray([], ts)
       case Success(p) => Success((Array(p.0), p.1))
       case Failure(e) => Failure(e))
    case EndObject => Failure(UnexpectedDelimiter(t))
    case EndArray => Failure(UnexpectedDelimiter(t))
    case Str(s) => Success((String(s), ts))
    case Num(text) => Success((Number(text), ts))
    case Boolean(b) => Success((Bool(b), ts))
    case NullToken => Success((Null, ts))
  }

  /**
   * `parseobject`: members are read into `m` while `More` holds, then the closing `}` is
   * required. A key token that is not a string fails; running out of input after a key
   * breaks the loop and the closing read fails.
   */
  function ParseObject(m: Record, ts: seq<Token>): (r: Result<(Record, seq<Token>), DecodeError>)
    ensures r.Success? ==> |r.value.1| < |ts|
    decreases |ts|, 0
  {
    if More(ts) then
      if !ts[0].Str? then Failure(NotAnObject)
      else if |ts| == 1 then CloseObject(m, ts[1..])
      else
        match HandleDelim(ts[1], ts[2..])
        case Failure(e) => Failure(e)
        case Success(p) => ParseObject(Push(m, ts[0].s, p.0), p.1)
    else
      CloseObject(m, ts)
  }

  function CloseObject(m: Record, ts: seq<Token>): (r: Result<(Record, seq<Token>), DecodeError>)
    ensures r.Success? ==> |ts| > 0 && ts[0] == EndObject && r.value == (m, ts[1..])
  {
    if |ts| == 0 then Failure(UnexpectedEnd)
    else if ts[0] != EndObject then Failure(NotAnObject)
    else Success((m, ts[1..]))
  }

  /** `parsearray`: elements are appended to `acc` while `More` holds, then `]` is required. */
  function ParseArray(acc: seq<Value>, ts: seq<Token>): (r: Result<(seq<Value>, seq<Token>), DecodeError>)
    ensures r.Success? ==> |r.value.1| < |ts|
    decreases |ts|, 0
  {
    if More(ts) then
      match HandleDelim(ts[0], ts[1..])
      case Failure(e) => Failure(e)
      case Success(p) => ParseArray(acc + [p.0], p.1)
    else if |ts| == 0 then Failure(UnexpectedEnd)
    else if ts[0] != EndArray then Failure(NotAnArray)
    else Success((acc, ts[1..]))
  }

  /**
   * `UnmarshalJSON` into the receiver `into`: the first token must be `{`, the object must
   * close, and no token may follow it.
   */
  function Unmarshal(into: Record, ts: seq<Token>): (r: Result<Record, DecodeError>)
    ensures (|ts| == 0 || ts[0] != BeginObject) ==> r.Failure?
  {
    if |ts| == 0 then Failure(UnexpectedEnd)
    else if ts[0] != BeginObject then Failure(NotAnObject)
    else
      match ParseObject(into, ts[1..])
      case Failure(e) => Failure(e)
      case Success(p) => if |p.1| == 0 then Success(p.0) else Failure(NotAnObject)
  }

  /** Decoding a line into a fresh map, as every caller in the core does (`New()` then `UnmarshalJSON`). */
  function Decode(ts: seq<Token>): (r: Result<Record, DecodeError>)
    ensures (|ts| == 0 || ts[0] != BeginObject) ==> r.Failure?
    ensures r.Success? ==> Depth(ts, []) == Some([])
  {
    var r := Unmarshal(Empty(), ts);
    if r.Success? then DecodeBalanced(Empty(), ts); r else r
  }

  /** A value read from the front of `ts`. */
  function ParseValue(ts: seq<Token>): Result<(Value, seq<Token>), DecodeError>
  {
    if |ts| == 0 then Failure(UnexpectedEnd) else HandleDelim(ts[0], ts[1..])
  }

  // ---------------------------------------------------------------------------------------
  // The token serialiser: the inverse of the decoder.

  /** The tokens of a value: objects as `{`, then key and value tokens in key order, then `}`. */
  function Tokens(v: Value): (r: seq<Token>)
    ensures |r| >= 1 && r[0] != EndObject && r[0] != EndArray
    decreases v, 1
  {
    match v
    case String(s) => [Str(s)]
    case Number(text) => [Num(text)]
    case Bool(b) => [Boolean(b)]
    case Null => [NullToken]
    case Object(m) => [BeginObject] + MemberTokens(m, m.keys) + [EndObject]
    case Array(xs) => [BeginArray] + ItemTokens(xs) + [EndArray]
  }

  function MemberTokens(m: Record, ks: seq<string>): seq<Token>
    decreases m, 0, |ks|
  {
    if |ks| == 0 then []
    else
      var k := ks[0];
      [Str(k)] + (if k in m.dict then Tokens(m.dict[k]) else [NullToken]) + MemberTokens(m, ks[1..])
  }

  function ItemTokens(xs: seq<Value>): (r: seq<Token>)
    ensures |xs| > 0 ==> |r| > 0 && r[0] != EndObject && r[0] != EndArray
    decreases xs, 0
  {
    if |xs| == 0 then [] else Tokens(xs[0]) + ItemTokens(xs[1..])
  }

  /** The first `i` keys of `m` with their values: what the decoder has built after `i` members. */
  function Prefix(m: Record, i: nat): Record
    requires i <= |m.keys|
  {
    Record(m.keys[..i], map k | k in m.dict && k in m.keys[..i] :: m.dict[k])
  }

  lemma PrefixEnds(m: Record)
    requires WellFormed(m)
    ensures Prefix(m, 0) == Empty()
    ensures Prefix(m, |m.keys|) == m
  {
    assert Prefix(m, 0).dict == map[];
    assert m.keys[..|m.keys|] == m.keys;
    assert Prefix(m, |m.keys|).dict == m.dict;
  }

  lemma PrefixStep(m: Record, i: nat)
    requires WellFormed(m) && i < |m.keys|
    ensures Push(Prefix(m, i), m.keys[i], m.dict[m.keys[i]]) == Prefix(m, i + 1)
  {
    assert m.keys[..i] + [m.keys[i]] == m.keys[..i + 1];
    var k := m.keys[i];
    var lhs := Push(Prefix(m, i), k, m.dict[k]).dict;
    var rhs := Prefix(m, i + 1).dict;
    forall x ensures (x in lhs <==> x in rhs) && (x in lhs ==> lhs[x] == rhs[x]) {
      assert x in m.keys[..i + 1] <==> x in m.keys[..i] || x == k;
    }
    assert lhs == rhs;
  }

  /** Decoding the tokens of a well-formed value gives it back, and leaves what follows. */
  lemma {:induction false} RoundTripValue(v: Value, rest: seq<Token>)
    requires WellFormedValue(v)
    ensures ParseValue(Tokens(v) + rest) == Success((v, rest))
    decreases v, 1
  {
    var ts := Tokens(v) + rest;
    match v
    case Object(m) =>
      assert ts[1..] == MemberTokens(m, m.keys[0..]) + [EndObject] + rest by {
        assert m.keys[0..] == m.keys;
      }
      RoundTripMembers(m, 0, rest);
      PrefixEnds(m);
    case Array(xs) =>
      assert ts[1..] == ItemTokens(xs[0..]) + [EndArray] + rest by {
        assert xs[0..] == xs;
      }
      RoundTripItems(xs, 0, rest);
      assert xs[..0] == [];
    case _ =>
      assert ts[1..] == rest;
  }

  lemma {:induction false} RoundTripMembers(m: Record, i: nat, rest: seq<Token>)
    requires WellFormedValue(Object(m)) && i <= |m.keys|
    ensures ParseObject(Prefix(m, i), MemberTokens(m, m.keys[i..]) + [EndObject] + rest) == Success((m, rest))
    decreases m, 0, |m.keys| - i
  {
    if i == |m.keys| {
      assert m.keys[i..] == [];
      PrefixEnds(m);
    } else {
      var k := m.keys[i];
      var v := m.dict[k];
      var after := MemberTokens(m, m.keys[i + 1..]) + [EndObject] + rest;
      UnconsMember(m, i, rest);
      RoundTripValue(v, after);
      MemberStep(Prefix(m, i), k, Tokens(v) + after, v, after);
      PrefixStep(m, i);
      RoundTripMembers(m, i + 1, rest);
    }
  }

  /** The member tokens from position `i` on split into the `i`-th key, its value, and the rest. */
  lemma UnconsMember(m: Record, i: nat, rest: seq<Token>)
    requires WellFormed(m) && i < |m.keys|
    ensures MemberTokens(m, m.keys[i..]) + [EndObject] + rest
      == [Str(m.keys[i])] + (Tokens(m.dict[m.keys[i]]) + (MemberTokens(m, m.keys[i + 1..]) + [EndObject] + rest))
  {
    assert m.keys[i..][1..] == m.keys[i + 1..];
    MemberTokensCons(m, m.keys[i..]);
    GlueCons(Str(m.keys[i]), Tokens(m.dict[m.keys[i]]), MemberTokens(m, m.keys[i + 1..]), [EndObject] + rest);
  }

  lemma GlueCons(t: Token, tv: seq<Token>, mt: seq<Token>, tail: seq<Token>)
    ensures [t] + tv + mt + tail == [t] + (tv + (mt + tail))
  {
  }

  /** One member read by `parseobject`: the key, then the value `handledelim` returns. */
  lemma MemberStep(m: Record, k: string, tv: seq<Token>, v: Value, after: seq<Token>)
    requires ParseValue(tv) == Success((v, after))
    ensures ParseObject(m, [Str(k)] + tv) == ParseObject(Push(m, k, v), after)
  {
    var ts := [Str(k)] + tv;
    assert ts[0] == Str(k) && ts[1..] == tv;
    assert ts[2..] == tv[1..];
  }

  lemma {:induction false} RoundTripItems(xs: seq<Value>, i: nat, rest: seq<Token>)
    requires WellFormedValue(Array(xs)) && i <= |xs|
    ensures ParseArray(xs[..i], ItemTokens(xs[i..]) + [EndArray] + rest) == Success((xs, rest))
    decreases xs, 0, |xs| - i
  {
    if i == |xs| {
      assert xs[i..] == [];
      assert xs[..i] == xs;
    } else {
      var after := ItemTokens(xs[i + 1..]) + [EndArray] + rest;
      assert ItemTokens(xs[i..]) + [EndArray] + rest == Tokens(xs[i]) + after by {
        assert xs[i..][1..] == xs[i + 1..];
      }
      RoundTripValue(xs[i], after);
      ItemStep(xs[..i], Tokens(xs[i]) + after, xs[i], after);
      assert xs[..i] + [xs[i]] == xs[..i + 1];
      RoundTripItems(xs, i + 1, rest);
    }
  }

  /** One element read by `parsearray`. */
  lemma ItemStep(acc: seq<Value>, ts: seq<Token>, v: Value, after: seq<Token>)
    requires ParseValue(ts) == Success((v, after))
    ensures ParseArray(acc, ts) == ParseArray(acc + [v], after)
  {
  }

  /** A well-formed record decodes from its own tokens: key order, nesting and scalars survive. */
  lemma DecodeTokens(m: Record)
    requires WellFormedValue(Object(m))
    ensures Decode(Tokens(Object(m))) == Success(m)
  {
    RoundTripValue(Object(m), []);
    assert Tokens(Object(m)) + [] == Tokens(Object(m));
  }

  // ---------------------------------------------------------------------------------------
  // The converse: a decoded well-formed record is exactly the value its tokens spell.

  /**
   * `parseobject` only appends: the keys of `m` stay in front, and a key it does not push keeps
   * the value it had in `m`.
   */
  lemma {:induction false} ParseObjectExtends(m: Record, ts: seq<Token>)
    requires ParseObject(m, ts).Success?
    ensures var out := ParseObject(m, ts).value.0;
      && |m.keys| <= |out.keys| && out.keys[..|m.keys|] == m.keys
      && forall k :: k !in out.keys[|m.keys|..] ==> Lookup(out, k) == Lookup(m, k)
    decreases |ts|
  {
    var out := ParseObject(m, ts).value.0;
    if More(ts) {
      var hd := ObjectStep(m, ts);
      var m1 := Push(m, ts[0].s, hd.0);
      ParseObjectExtends(m1, hd.1);
      assert out.keys[..|m.keys|] == out.keys[..|m1.keys|][..|m.keys|];
      assert out.keys[|m.keys|..] == [ts[0].s] + out.keys[|m1.keys|..];
    }
  }

  lemma {:induction false} ParseArrayExtends(acc: seq<Value>, ts: seq<Token>)
    requires ParseArray(acc, ts).Success?
    ensures |acc| <= |ParseArray(acc, ts).value.0| && ParseArray(acc, ts).value.0[..|acc|] == acc
    decreases |ts|
  {
    var out := ParseArray(acc, ts).value.0;
    if More(ts) {
      var hd := ArrayStep(acc, ts);
      ParseArrayExtends(acc + [hd.0], hd.1);
      assert out[..|acc|] == out[..|acc| + 1][..|acc|];
    }
  }

  lemma ObjectStep(m: Record, ts: seq<Token>) returns (hd: (Value, seq<Token>))
    requires ParseObject(m, ts).Success? && More(ts)
    ensures ts[0].Str? && |ts| > 1 && HandleDelim(ts[1], ts[2..]) == Success(hd)
    ensures ParseObject(m, ts) == ParseObject(Push(m, ts[0].s, hd.0), hd.1)
  {
    hd := HandleDelim(ts[1], ts[2..]).value;
  }

  lemma ArrayStep(acc: seq<Value>, ts: seq<Token>) returns (hd: (Value, seq<Token>))
    requires ParseArray(acc, ts).Success? && More(ts)
    ensures HandleDelim(ts[0], ts[1..]) == Success(hd)
    ensures ParseArray(acc, ts) == ParseArray(acc + [hd.0], hd.1)
  {
    hd := HandleDelim(ts[0], ts[1..]).value;
  }

  /** The key pushed first is the first of the keys `parseobject` adds, and keeps its value. */
  lemma PushedFirst(m: Record, k: string, v: Value, ts: seq<Token>)
    requires ParseObject(Push(m, k, v), ts).Success?
    requires NoDuplicates(ParseObject(Push(m, k, v), ts).value.0.keys)
    ensures var out := ParseObject(Push(m, k, v), ts).value.0;
      && |out.keys| > |m.keys| && out.keys[|m.keys|] == k
      && out.keys[|m.keys|..][1..] == out.keys[|m.keys| + 1..]
      && Lookup(out, k) == v
  {
    var m1 := Push(m, k, v);
    var out := ParseObject(m1, ts).value.0;
    ParseObjectExtends(m1, ts);
    assert out.keys[|m.keys|] == out.keys[..|m1.keys|][|m.keys|];
    NotRepeatedLater(out.keys, |m.keys|);
  }

  lemma NotRepeatedLater(s: seq<string>, i: nat)
    requires NoDuplicates(s) && i < |s|
    ensures s[i] !in s[i + 1..]
  {
    var later := s[i + 1..];
    forall j | 0 <= j < |later| ensures later[j] != s[i] {
      assert later[j] == s[i + 1 + j];
    }
  }

  lemma MemberTokensCons(m: Record, ks: seq<string>)
    requires |ks| > 0 && ks[0] in m.dict
    ensures MemberTokens(m, ks) == [Str(ks[0])] + Tokens(m.dict[ks[0]]) + MemberTokens(m, ks[1..])
  {
  }

  lemma GlueMember(ts: seq<Token>, k: string, tv: seq<Token>, after: seq<Token>, mt: seq<Token>, rest: seq<Token>)
    requires ts == [Str(k)] + (tv + after) && after == mt + [EndObject] + rest
    ensures ts == ([Str(k)] + tv + mt) + [EndObject] + rest
  {
  }

  lemma GlueItem(ts: seq<Token>, tv: seq<Token>, after: seq<Token>, it: seq<Token>, rest: seq<Token>)
    requires ts == tv + after && after == it + [EndArray] + rest
    ensures ts == (tv + it) + [EndArray] + rest
  {
  }

  lemma HandleDelimOpen(t: Token, ts: seq<Token>)
    requires HandleDelim(t, ts).Success?
    ensures t == BeginObject ==>
      && ParseObject(Empty(), ts).Success?
      && HandleDelim(t, ts).value == (Object(ParseObject(Empty(), ts).value.0), ParseObject(Empty(), ts).value.1)
    ensures t == BeginArray ==>
      && ParseArray([], ts).Success?
      && HandleDelim(t, ts).value == (Array(ParseArray([], ts).value.0), ParseArray([], ts).value.1)
    ensures t != BeginObject && t != BeginArray ==>
      && HandleDelim(t, ts).value.1 == ts
      && Tokens(HandleDelim(t, ts).value.0) == [t]
  {
  }

  lemma {:induction false} HandleDelimComplete(t: Token, ts: seq<Token>)
    requires HandleDelim(t, ts).Success? && WellFormedValue(HandleDelim(t, ts).value.0)
    ensures [t] + ts == Tokens(HandleDelim(t, ts).value.0) + HandleDelim(t, ts).value.1
    decreases |ts|, 1
  {
    HandleDelimOpen(t, ts);
    if t == BeginObject {
      var po := ParseObject(Empty(), ts).value;
      ParseObjectComplete(Empty(), ts);
      assert po.0.keys[0..] == po.0.keys;
      OpenGlue(ts, [BeginObject] + MemberTokens(po.0, po.0.keys) + [EndObject], MemberTokens(po.0, po.0.keys), EndObject, po.1);
    } else if t == BeginArray {
      var pa := ParseArray([], ts).value;
      ParseArrayComplete([], ts);
      assert pa.0[0..] == pa.0;
      OpenGlue(ts, [BeginArray] + ItemTokens(pa.0) + [EndArray], ItemTokens(pa.0), EndArray, pa.1);
    }
  }

  /** The opening delimiter in front of the body, the body and its closing delimiter, then the rest. */
  lemma OpenGlue(ts: seq<Token>, whole: seq<Token>, body: seq<Token>, close: Token, rest: seq<Token>)
    requires |whole| > 0 && whole == [whole[0]] + body + [close] && ts == body + [close] + rest
    ensures [whole[0]] + ts == whole + rest
  {
  }

  lemma {:induction false} ParseObjectComplete(m: Record, ts: seq<Token>)
    requires ParseObject(m, ts).Success?
    requires WellFormedValue(Object(ParseObject(m, ts).value.0))
    ensures var out := ParseObject(m, ts).value.0;
      && |m.keys| <= |out.keys|
      && ts == MemberTokens(out, out.keys[|m.keys|..]) + [EndObject] + ParseObject(m, ts).value.1
    decreases |ts|, 0
  {
    var out := ParseObject(m, ts).value.0;
    var rest := ParseObject(m, ts).value.1;
    if More(ts) {
      var hd := ObjectStep(m, ts);
      var k := ts[0].s;
      PushedFirst(m, k, hd.0, hd.1);
      var ks := out.keys[|m.keys|..];
      assert WellFormedValue(hd.0) by {
        assert k in out.dict;
      }
      HandleDelimComplete(ts[1], ts[2..]);
      ParseObjectComplete(Push(m, k, hd.0), hd.1);
      assert ts == [Str(k)] + (Tokens(hd.0) + hd.1) by {
        assert ts == [ts[0]] + ([ts[1]] + ts[2..]);
      }
      ObjectCompleteGlue(m, out, ks, k, hd.0, ts, hd.1, rest);
    } else {
      assert out == m && ts == [EndObject] + rest;
      assert out.keys[|m.keys|..] == [];
    }
  }

  lemma ObjectCompleteGlue(m: Record, out: Record, ks: seq<string>, k: string, v: Value, ts: seq<Token>, r1: seq<Token>, rest: seq<Token>)
    requires |m.keys| < |out.keys| && ks == out.keys[|m.keys|..] && out.keys[|m.keys|] == k
    requires k in out.dict && out.dict[k] == v
    requires ts == [Str(k)] + (Tokens(v) + r1)
    requires r1 == MemberTokens(out, out.keys[|m.keys| + 1..]) + [EndObject] + rest
    ensures ts == MemberTokens(out, ks) + [EndObject] + rest
  {
    assert ks[0] == k && ks[1..] == out.keys[|m.keys| + 1..];
    MemberTokensCons(out, ks);
    GlueMember(ts, k, Tokens(v), r1, MemberTokens(out, ks[1..]), rest);
  }

  lemma {:induction false} ParseArrayComplete(acc: seq<Value>, ts: seq<Token>)
    requires ParseArray(acc, ts).Success?
    requires WellFormedValue(Array(ParseArray(acc, ts).value.0))
    ensures var out := ParseArray(acc, ts).value.0;
      && |acc| <= |out|
      && ts == ItemTokens(out[|acc|..]) + [EndArray] + ParseArray(acc, ts).value.1
    decreases |ts|, 0
  {
    var out := ParseArray(acc, ts).value.0;
    var rest := ParseArray(acc, ts).value.1;
    if More(ts) {
      var hd := ArrayStep(acc, ts);
      var acc1 := acc + [hd.0];
      ParseArrayExtends(acc1, hd.1);
      assert out[|acc|] == out[..|acc1|][|acc|];
      var xs := out[|acc|..];
      assert xs[0] == hd.0 && xs[1..] == out[|acc1|..];
      HandleDelimComplete(ts[0], ts[1..]);
      ParseArrayComplete(acc1, hd.1);
      assert ts == [ts[0]] + ts[1..];
      GlueItem(ts, Tokens(hd.0), hd.1, ItemTokens(xs[1..]), rest);
    } else {
      assert out == acc && ts == [EndArray] + rest;
      assert out[|acc|..] == [];
    }
  }

  /**
   * For records without repeated keys at any depth, decoding succeeds exactly on the record's
   * own tokens.
   */
  lemma DecodeExactly(ts: seq<Token>, m: Record)
    requires WellFormedValue(Object(m))
    ensures Decode(ts) == Success(m) <==> ts == Tokens(Object(m))
  {
    if Decode(ts) == Success(m) {
      DecodeOnlyTokens(ts, m);
    }
    if ts == Tokens(Object(m)) {
      DecodeTokens(m);
    }
  }

  /** The only line that decodes to a record without repeated keys is the record's own tokens. */
  lemma DecodeOnlyTokens(ts: seq<Token>, m: Record)
    requires WellFormedValue(Object(m)) && Decode(ts) == Success(m)
    ensures ts == Tokens(Object(m))
  {
    var body := ts[1..];
    assert ts == [BeginObject] + body;
    var p := ParseObject(Empty(), body).value;
    assert p.0 == m && p.1 == [];
    ParseObjectComplete(Empty(), body);
    assert m.keys[0..] == m.keys;
    OpenGlue(body, Tokens(Object(m)), MemberTokens(m, m.keys), EndObject, []);
  }

  // ---------------------------------------------------------------------------------------
  // Bracket matching and the end of input.

  datatype Frame = InObject | InArray

  /**
   * A bracket matcher over tokens: the stack of open delimiters after reading `ts` from
   * `stack`, or `None` when a closing delimiter does not match the innermost open one.
   */
  function Depth(ts: seq<Token>, stack: seq<Frame>): Option<seq<Frame>>
  {
    if |ts| == 0 then Some(stack)
    else match ts[0]
      case BeginObject => Depth(ts[1..], stack + [InObject])
      case BeginArray => Depth(ts[1..], stack + [InArray])
      case EndObject =>
        if |stack| > 0 && stack[|stack| - 1] == InObject then Depth(ts[1..], stack[..|stack| - 1]) else None
      case EndArray =>
        if |stack| > 0 && stack[|stack| - 1] == InArray then Depth(ts[1..], stack[..|stack| - 1]) else None
      case _ => Depth(ts[1..], stack)
  }

  /** Matching a concatenation is matching the first part, then the second from where it left off. */
  lemma {:induction false} DepthAppend(a: seq<Token>, b: seq<Token>, stack: seq<Frame>)
    ensures Depth(a + b, stack) == (match Depth(a, stack) case None => None case Some(st) => Depth(b, st))
  {
    if |a| > 0 {
      assert (a + b)[0] == a[0] && (a + b)[1..] == a[1..] + b;
      match a[0]
      case BeginObject => DepthAppend(a[1..], b, stack + [InObject]);
      case BeginArray => DepthAppend(a[1..], b, stack + [InArray]);
      case EndObject =>
        if |stack| > 0 && stack[|stack| - 1] == InObject {
          DepthAppend(a[1..], b, stack[..|stack| - 1]);
        }
      case EndArray =>
        if |stack| > 0 && stack[|stack| - 1] == InArray {
          DepthAppend(a[1..], b, stack[..|stack| - 1]);
        }
      case _ => DepthAppend(a[1..], b, stack);
    } else {
      assert a + b == b;
    }
  }

  /** A single scalar token leaves the stack as it is. */
  lemma DepthScalar(t: Token, stack: seq<Frame>)
    requires t != BeginObject && t != BeginArray && t != EndObject && t != EndArray
    ensures Depth([t], stack) == Some(stack)
  {
    assert [t][1..] == [];
  }

  /** The token a successful `handledelim` reads, with everything it consumes, is balanced. */
  lemma {:induction false} HandleDelimBalanced(t: Token, ts: seq<Token>, stack: seq<Frame>) returns (c: seq<Token>)
    requires HandleDelim(t, ts).Success?
    ensures [t] + ts == c + HandleDelim(t, ts).value.1
    ensures Depth(c, stack) == Some(stack)
    decreases |ts|, 1
  {
    HandleDelimOpen(t, ts);
    if t == BeginObject {
      var body := ObjectBalanced(Empty(), ts, stack);
      c := [t] + body;
      OpenClose(t, body, stack, InObject);
    } else if t == BeginArray {
      var body := ArrayBalanced([], ts, stack);
      c := [t] + body;
      OpenClose(t, body, stack, InArray);
    } else {
      c := [t];
      DepthScalar(t, stack);
    }
  }

  lemma OpenClose(t: Token, body: seq<Token>, stack: seq<Frame>, f: Frame)
    requires t == (if f == InObject then BeginObject else BeginArray)
    requires Depth(body, stack + [f]) == Some(stack)
    ensures Depth([t] + body, stack) == Some(stack)
  {
    assert ([t] + body)[0] == t && ([t] + body)[1..] == body;
  }

  /** `parseobject` consumes tokens that close the object opened just before them. */
  lemma {:induction false} ObjectBalanced(m: Record, ts: seq<Token>, stack: seq<Frame>) returns (c: seq<Token>)
    requires ParseObject(m, ts).Success?
    ensures ts == c + ParseObject(m, ts).value.1
    ensures Depth(c, stack + [InObject]) == Some(stack)
    decreases |ts|, 0
  {
    var rest := ParseObject(m, ts).value.1;
    if More(ts) {
      var hd := ObjectStep(m, ts);
      var c1 := HandleDelimBalanced(ts[1], ts[2..], stack + [InObject]);
      var c2 := ObjectBalanced(Push(m, ts[0].s, hd.0), hd.1, stack);
      c := [ts[0]] + c1 + c2;
      GlueThree(ts, c1, hd.1, c2, rest);
      KeyThenValue(ts[0], c1, c2, stack + [InObject], stack);
    } else {
      c := [EndObject];
      assert ts == [EndObject] + rest;
      CloseOne(EndObject, stack, InObject);
    }
  }

  lemma {:induction false} ArrayBalanced(acc: seq<Value>, ts: seq<Token>, stack: seq<Frame>) returns (c: seq<Token>)
    requires ParseArray(acc, ts).Success?
    ensures ts == c + ParseArray(acc, ts).value.1
    ensures Depth(c, stack + [InArray]) == Some(stack)
    decreases |ts|, 0
  {
    var rest := ParseArray(acc, ts).value.1;
    if More(ts) {
      var hd := ArrayStep(acc, ts);
      var c1 := HandleDelimBalanced(ts[0], ts[1..], stack + [InArray]);
      var c2 := ArrayBalanced(acc + [hd.0], hd.1, stack);
      c := c1 + c2;
      assert ts == [ts[0]] + ts[1..];
      DepthAppend(c1, c2, stack + [InArray]);
    } else {
      c := [EndArray];
      assert ts == [EndArray] + rest;
      CloseOne(EndArray, stack, InArray);
    }
  }

  lemma GlueThree(ts: seq<Token>, c1: seq<Token>, r1: seq<Token>, c2: seq<Token>, rest: seq<Token>)
    requires |ts| >= 2 && [ts[1]] + ts[2..] == c1 + r1 && r1 == c2 + rest
    ensures ts == [ts[0]] + c1 + c2 + rest
  {
    assert ts == [ts[0]] + ([ts[1]] + ts[2..]);
  }

  lemma KeyThenValue(k: Token, c1: seq<Token>, c2: seq<Token>, inner: seq<Frame>, outer: seq<Frame>)
    requires k.Str?
    requires Depth(c1, inner) == Some(inner) && Depth(c2, inner) == Some(outer)
    ensures Depth([k] + c1 + c2, inner) == Some(outer)
  {
    assert [k] + c1 + c2 == [k] + (c1 + c2);
    DepthAppend([k], c1 + c2, inner);
    DepthScalar(k, inner);
    DepthAppend(c1, c2, inner);
  }

  lemma CloseOne(t: Token, stack: seq<Frame>, f: Frame)
    requires t == (if f == InObject then EndObject else EndArray)
    ensures Depth([t], stack + [f]) == Some(stack)
  {
    assert [t][1..] == [];
    assert (stack + [f])[..|stack|] == stack;
  }

  /** Every input `UnmarshalJSON` accepts is a balanced bracket sequence. */
  lemma DecodeBalanced(into: Record, ts: seq<Token>)
    requires Unmarshal(into, ts).Success?
    ensures Depth(ts, []) == Some([])
  {
    var body := ObjectBalanced(into, ts[1..], []);
    assert ts == [BeginObject] + body;
    OpenClose(BeginObject, body, [], InObject);
  }

  /** The decoders never look past the end of the value they read: input after it is carried along. */
  lemma {:induction false} HandleDelimExtends(t: Token, ts: seq<Token>, extra: seq<Token>)
    requires HandleDelim(t, ts).Success?
    ensures HandleDelim(t, ts + extra)
      == Success((HandleDelim(t, ts).value.0, HandleDelim(t, ts).value.1 + extra))
    decreases |ts|, 1
  {
    if t == BeginObject {
      ParseObjectExtendsInput(Empty(), ts, extra);
    } else if t == BeginArray {
      ParseArrayExtendsInput([], ts, extra);
    }
  }

  lemma {:induction false} ParseObjectExtendsInput(m: Record, ts: seq<Token>, extra: seq<Token>)
    requires ParseObject(m, ts).Success?
    ensures ParseObject(m, ts + extra)
      == Success((ParseObject(m, ts).value.0, ParseObject(m, ts).value.1 + extra))
    decreases |ts|, 0
  {
    var u := ts + extra;
    if More(ts) {
      var hd := ObjectStep(m, ts);
      assert u[0] == ts[0] && u[1] == ts[1] && u[2..] == ts[2..] + extra;
      HandleDelimExtends(ts[1], ts[2..], extra);
      ParseObjectExtendsInput(Push(m, ts[0].s, hd.0), hd.1, extra);
    } else {
      assert u[0] == ts[0] && u[1..] == ts[1..] + extra;
    }
  }

  lemma {:induction false} ParseArrayExtendsInput(acc: seq<Value>, ts: seq<Token>, extra: seq<Token>)
    requires ParseArray(acc, ts).Success?
    ensures ParseArray(acc, ts + extra)
      == Success((ParseArray(acc, ts).value.0, ParseArray(acc, ts).value.1 + extra))
    decreases |ts|, 0
  {
    var u := ts + extra;
    if More(ts) {
      var hd := ArrayStep(acc, ts);
      assert u[0] == ts[0] && u[1..] == ts[1..] + extra;
      HandleDelimExtends(ts[0], ts[1..], extra);
      ParseArrayExtendsInput(acc + [hd.0], hd.1, extra);
    } else {
      assert u[0] == ts[0] && u[1..] == ts[1..] + extra;
    }
  }

  /** Once a line decodes, appending any token makes it fail: nothing may follow the object. */
  lemma TrailingTokensRejected(into: Record, ts: seq<Token>, extra: seq<Token>)
    requires Unmarshal(into, ts).Success? && |extra| > 0
    ensures Unmarshal(into, ts + extra) == Failure(NotAnObject)
  {
    assert (ts + extra)[0] == ts[0] && (ts + extra)[1..] == ts[1..] + extra;
    ParseObjectExtendsInput(into, ts[1..], extra);
  }

  // ---------------------------------------------------------------------------------------
  // Repeated keys: the decoder does not keep the record invariant.

  /** `{"a":1,"a":2}` decodes to a list holding `a` twice over a one-entry dictionary. */
  lemma RepeatedKeyBreaksInvariant()
    ensures Decode([BeginObject, Str("a"), Num("1"), Str("a"), Num("2"), EndObject])
      == Success(Record(["a", "a"], map["a" := Number("2")]))
    ensures !WellFormed(Record(["a", "a"], map["a" := Number("2")]))
  {
    var ts := [BeginObject, Str("a"), Num("1"), Str("a"), Num("2"), EndObject];
    var m1 := Push(Empty(), "a", Number("1"));
    var m2 := Push(m1, "a", Number("2"));
    assert ts[1..][2..][2..] == [EndObject];
    assert ParseObject(m2, [EndObject]) == Success((m2, []));
    assert ParseObject(m1, ts[1..][2..]) == Success((m2, []));
    assert ParseObject(Empty(), ts[1..]) == Success((m2, []));
    assert m2 == Record(["a", "a"], map["a" := Number("2")]);
    assert m2.keys[0] == m2.keys[1];
  }
}
