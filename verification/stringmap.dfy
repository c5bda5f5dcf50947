/**
 * `json.Unmarshal` into a `map[string]string`, which `Value` (pkg/matcher/matcher.go:85-101) and
 * the legacy `Match` (pkg/matcher/filter.go:11-44) decode lines with. Only string and `null`
 * member values fit the map (`null` leaves the zero string); a later repeated key overwrites an
 * earlier one; a top-level `null` leaves the map empty; anything else is an error.
 */
module StringMap {
  import opened Wrappers
  import opened Json
  import opened Decoder

  function UnmarshalStrings(ts: seq<Token>): (r: Result<map<string, string>, DecodeError>)
    ensures ts == [NullToken] ==> r == Success(map[])
    ensures (|ts| == 0 || (ts[0] != BeginObject && ts != [NullToken])) ==> r.Failure?
  {
    if ts == [NullToken] then Success(map[])
    else if |ts| == 0 then Failure(UnexpectedEnd)
    else if ts[0] != BeginObject then Failure(NotStrings)
    else ReadMembers(map[], ts[1..])
  }

  /** The members of the object after `{`, stored into `acc`, up to the `}` that must end the input. */
  function ReadMembers(acc: map<string, string>, ts: seq<Token>): Result<map<string, string>, DecodeError>
    decreases |ts|
  {
    if |ts| == 0 then Failure(UnexpectedEnd)
    else if ts[0] == EndObject then (if |ts| == 1 then Success(acc) else Failure(NotAnObject))
    else if !ts[0].Str? then Failure(NotAnObject)
    else if |ts| == 1 then Failure(UnexpectedEnd)
    else match ts[1]
      case Str(v) => ReadMembers(acc[ts[0].s := v], ts[2..])
      case NullToken => ReadMembers(acc[ts[0].s := ""], ts[2..])
      case _ => Failure(NotStrings)
  }

  /** A token that can stand inside a flat object of strings: a string, `null` or the closing `}`. */
  predicate FlatToken(t: Token)
  {
    t.Str? || t == NullToken || t == EndObject
  }

  /** An object without nested values, numbers or booleans: `{` then only flat tokens. */
  predicate FlatObject(ts: seq<Token>)
  {
    |ts| > 0 && ts[0] == BeginObject && forall i :: 1 <= i < |ts| ==> FlatToken(ts[i])
  }

  /** The string a flat value leaves in the map: its text, or `""` for `null`. */
  function StrOf(v: Value): string
  {
    if v.String? then v.s else ""
  }

  /** The string map a decoded record stands for. */
  function Flatten(m: Record): (r: map<string, string>)
    ensures r.Keys == m.dict.Keys
    ensures forall k :: k in r ==> r[k] == StrOf(m.dict[k])
  {
    map k | k in m.dict :: StrOf(m.dict[k])
  }

  lemma FlattenPush(m: Record, k: string, v: Value)
    ensures Flatten(Push(m, k, v)) == Flatten(m)[k := StrOf(v)]
  {
  }

  lemma {:induction false} MembersSound(m: Record, ts: seq<Token>)
    requires ReadMembers(Flatten(m), ts).Success?
    ensures ParseObject(m, ts).Success? && ParseObject(m, ts).value.1 == []
    ensures Flatten(ParseObject(m, ts).value.0) == ReadMembers(Flatten(m), ts).value
    ensures forall i :: 0 <= i < |ts| ==> FlatToken(ts[i])
    decreases |ts|
  {
    if ts[0] != EndObject {
      var k := ts[0].s;
      var v := if ts[1].Str? then String(ts[1].s) else Null;
      FlattenPush(m, k, v);
      assert HandleDelim(ts[1], ts[2..]) == Success((v, ts[2..]));
      MembersSound(Push(m, k, v), ts[2..]);
      assert forall i :: 2 <= i < |ts| ==> ts[i] == ts[2..][i - 2];
    }
  }

  lemma {:induction false} MembersComplete(m: Record, ts: seq<Token>)
    requires ParseObject(m, ts).Success? && ParseObject(m, ts).value.1 == []
    requires forall i :: 0 <= i < |ts| ==> FlatToken(ts[i])
    ensures ReadMembers(Flatten(m), ts) == Success(Flatten(ParseObject(m, ts).value.0))
    decreases |ts|
  {
    if More(ts) {
      var hd := ObjectStep(m, ts);
      assert FlatToken(ts[1]);
      assert ts[1] != EndObject;
      var k := ts[0].s;
      FlattenPush(m, k, hd.0);
      assert forall i :: 0 <= i < |ts[2..]| ==> ts[2..][i] == ts[i + 2];
      MembersComplete(Push(m, k, hd.0), hd.1);
    }
  }

  /**
   * Apart from a top-level `null`, `json.Unmarshal` into a string map succeeds exactly on the
   * flat objects the ordered decoder accepts, and yields the decoded record's strings.
   */
  lemma AgreesWithDecode(ts: seq<Token>)
    requires ts != [NullToken]
    ensures UnmarshalStrings(ts).Success? <==> Decode(ts).Success? && FlatObject(ts)
    ensures UnmarshalStrings(ts).Success? ==> UnmarshalStrings(ts).value == Flatten(Decode(ts).value)
  {
    if UnmarshalStrings(ts).Success? {
      MembersSound(Empty(), ts[1..]);
      assert Flatten(Empty()) == map[];
      assert forall i :: 1 <= i < |ts| ==> ts[i] == ts[1..][i - 1];
    }
    if Decode(ts).Success? && FlatObject(ts) {
      assert forall i :: 0 <= i < |ts[1..]| ==> ts[1..][i] == ts[i + 1];
      MembersComplete(Empty(), ts[1..]);
      assert Flatten(Empty()) == map[];
    }
  }
}
