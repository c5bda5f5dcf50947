# gg's structured-record layer, in Dafny

gg reads JSON log lines, keeps or drops them by `key:value` regular expressions, projects them
down to chosen fields, and prints them, coloured or not. This project models the layer that works
on one decoded line:

- **the ordered maps.** `FeatureMap` (pkg/featuremap/feature_map.go) and `OrderedMap`
  (pkg/formatter/ordered_map.go) hold a line as an insertion list of keys plus a dictionary. Both
  files implement `Set`, `Delete`, `Get`, `GetValue`, `Has`, `Keys`, `Len`, `Values`, the forward
  and reverse iterators, and the streaming decoder (`UnmarshalJSON`, `parseobject`,
  `handledelim`, `parsearray`) with the same code. The model defines that code once:
  - the `Records` module holds the map operations and iterators;
  - the `Decoder` module holds the decoder.

  Only `MarshalJSON` and `Get` differ, and they live in the `FeatureMap` and `OrderedMap` modules.
  `FeatureMap.MarshalJSON` colours through a palette and `OrderedMap.MarshalJSON` never colours.
  `OrderedMap.SameAsNoColour` proves that the second is the first with the no-colour palette.
- **the selectors.**
  - `Matcher` models pkg/matcher/matcher.go: `Exp`, `ExpWithout`, `ContainsExp`,
    `pairMatchesMapping`, `Match` and `Value`.
  - `LegacyMatcher` models the older pkg/matcher/filter.go.
  - `StringMap` models the `json.Unmarshal` into `map[string]string` that both of them use.
- **the formatter.** `Formatter` models pkg/formatter/formatter.go: `Fields`, which projects a line
  onto `-f` patterns and reformats `time`, and `IsErr`.
- **the flags.** `Flags` models the `Validate` method of cmd/flag.go.
- **the colours.** `Colour` models pkg/colour/colour.go and pkg/colour/palette.go.

A record is `Record(keys, dict)` (json.dfy). The invariant the Go types keep is `WellFormed`: every
key is listed once, and a key is listed exactly when it is stored. The decoder does not keep this
invariant when a line repeats a key (`Decoder.RepeatedKeyBreaksInvariant`). For that reason every
operation is defined on all records, and the invariant appears only where a property needs it.

Go facilities the core calls but does not define are parameters:

- `Regex(compiles, matches)` stands for `regexp.Compile`/`MustCompile` and `MatchString`;
- `TimeLib(parse, format)` stands for `time.Parse` and `Time.Format`;
- `Quoting(key, str)` stands for `%q` on keys and `json.Marshal` on strings;
- `Palette(key, value)` stands for the colour functions.

The decoders read the token sequence that `json.Decoder.Token` delivers, not bytes. A panic the
source can reach from user input is an error value:

- `MustCompile` of a bad pattern gives `Panic`;
- a `.(string)` assertion on a non-string `time` gives `Panic`.

A panic that only a caller's misuse can reach is a precondition instead; an example is
`OrderedMap.Get` on a non-string value.

Four behaviours of the code that a reader might not expect are modelled as written:

- `Fields` runs one deleting pass per `-f` pattern, so the patterns are ANDed; see Findings.
- `Match` selects a line only when every `-s` pair matches (`matched == len(pairs)` at
  pkg/matcher/matcher.go:78-80), also when two pairs share a key pattern.
- `MarshalJSON` colours only string values (pkg/featuremap/feature_map.go:135-140).
- `Fields` always reformats `time` with the fixed layouts `timeFormatFrom` and `timeFormatTo`
  (pkg/formatter/formatter.go:18-21), whatever the `-t` flag says.

## Model

| member | source | states |
|---|---|---|
| Colour.Blue | pkg/colour/colour.go:9-11 | the result is the ESC `[38;5;117m` prefix, the text, then the `[39;49m` reset |
| Colour.Green | pkg/colour/colour.go:13-15 | the same template with colour code 114 |
| Colour.Red | pkg/colour/colour.go:17-19 | the same template with colour code 161 |
| Colour.WrapperShape | pkg/colour/colour.go:5-23 | every wrapper adds exactly 19 characters and ends with the reset sequence |
| Colour.WrapperStrip | pkg/colour/colour.go:5-23 | cutting the 11-character prefix and the reset gives back the wrapped text |
| Colour.WrapperInjective | pkg/colour/colour.go:5-23 | each wrapper is injective, so the colouring loses nothing |
| Colour.WrappersDistinct | pkg/colour/colour.go:9-19 | the three colours never produce the same string for the same text |
| Colour.NoColour | pkg/colour/palette.go:8-13 | the no-colour palette leaves keys and values unchanged; what that makes of printed output is `FeatureMap.NoColourMember` and `OrderedMap.SameAsNoColour` |
| Json.Empty | pkg/formatter/ordered_map.go:45-51 | a new map keeps the invariant of well-formed records, with no key listed and none stored |
| Json.Lookup | pkg/featuremap/feature_map.go:91-98 | the shared read of both maps, nil for an absent key; its meaning after writes is `Records.GetValueAfterWrite` and `FeatureMap.GetAfterWrite` |
| Records.Set | pkg/featuremap/feature_map.go:150-155 | a new key is appended at the end; an existing key keeps its place; the key then maps to the value; other keys are untouched; well-formedness is kept; `Len` grows by one only for a new key |
| Records.Has | pkg/featuremap/feature_map.go:100-103 | on a well-formed record a key is present iff it is listed |
| Records.Keys | pkg/featuremap/feature_map.go:105-112 | on a well-formed record the keys are distinct and are exactly the stored keys |
| Records.Len | pkg/featuremap/feature_map.go:114-116 | on a well-formed record `Len` is the number of listed keys |
| Records.GetValue | pkg/featuremap/feature_map.go:95-98 | presence is reported iff the key is stored; its meaning after writes is `Records.GetValueAfterWrite` |
| Records.GetValueAfterWrite | pkg/featuremap/feature_map.go:95-98 | `GetValue` reads back what `Set` stored, reports a deleted or never-set key absent, is unaffected by writes to other keys, and on a well-formed record reports presence iff the key is listed |
| Records.Delete | pkg/featuremap/feature_map.go:57-65 | reports presence, returns the old value, removes the key from the dictionary and its last node from the list, leaves every other key alone, and on a well-formed record removes the key from the list entirely and shrinks `Len` by one |
| Records.DeleteKeepsWellFormed | pkg/featuremap/feature_map.go:57-65 | removing the last node of a listed key from a well-formed record keeps it well formed, and removes every occurrence |
| Records.RemoveLastSingle | pkg/featuremap/feature_map.go:57-65 | when keys are distinct, removing the last node of a key equals removing the key |
| Records.DeleteAt | pkg/featuremap/feature_map.go:57-65 | deleting the key at position i of a well-formed record removes exactly position i from the list and the key from the dictionary |
| Records.SetThenDelete | pkg/featuremap/feature_map.go:150-155 | deleting a key just added returns the original record and the added value |
| Records.DeleteThenSet | pkg/featuremap/feature_map.go:57-65 | deleting and then re-setting a key moves it to the end of the key list with the new value |
| Records.DeleteIdempotent | pkg/featuremap/feature_map.go:57-65 | a second delete of the same key changes nothing and reports the key absent |
| Records.Entries | pkg/featuremap/feature_map.go:67-77 | the forward iterator yields one pair per listed key, in list order, each with the key's value |
| Records.ReverseFromMirrors | pkg/featuremap/feature_map.go:79-89 | walking back from position n yields the first n entries in reverse |
| Records.ReverseEntries | pkg/featuremap/feature_map.go:79-89 | the reverse iterator yields exactly the forward entries, last first |
| Records.Values | pkg/featuremap/feature_map.go:183-190 | the values, in key order, are the forward entries' string values |
| FeatureMap.MarshalJSON | pkg/featuremap/feature_map.go:118-148 | the output is braced, and it is `{}` for an empty map |
| FeatureMap.New | pkg/featuremap/feature_map.go:48-55 | a new map pairs an empty record with the no-colour palette; its observable emptiness is `FeatureMap.NewIsEmpty` |
| FeatureMap.NewIsEmpty | pkg/featuremap/feature_map.go:48-55 | a new map is well formed, lists no keys, has length zero, misses every read and prints `{}` |
| FeatureMap.Get | pkg/featuremap/feature_map.go:91-93 | nil for an absent key; its meaning after writes is `FeatureMap.GetAfterWrite` |
| FeatureMap.GetAfterWrite | pkg/featuremap/feature_map.go:91-93 | `Get` reads back what `Set` stored, gives nil for a deleted key, is unaffected by writes to other keys, and `Delete` hands back what `Get` read |
| FeatureMap.ValueColourOnStrings | pkg/featuremap/feature_map.go:126-140 | number, boolean and nil members look the same under any two palettes with the same key colour; a string member differs between two palettes exactly when their value colours differ on its encoded string |
| FeatureMap.MembersSnoc | pkg/featuremap/feature_map.go:142-144 | members are joined with a comma between neighbours and none at the ends |
| FeatureMap.MembersFrame | pkg/featuremap/feature_map.go:118-148 | the output depends only on the values of the listed keys |
| FeatureMap.MarshalAfterSet | pkg/featuremap/feature_map.go:118-155 | setting a new key appends exactly one member before the closing brace |
| FeatureMap.MarshalAppended | pkg/featuremap/feature_map.go:118-148 | a record with one key appended marshals to the old output plus that member before the brace |
| FeatureMap.SetLeavesListed | pkg/featuremap/feature_map.go:150-155 | setting a new key leaves every listed key's value and position alone |
| FeatureMap.NoColourMember | pkg/colour/palette.go:8-13 | with the no-colour palette a member is the quoted key, a colon and the marshalled value, with nothing wrapped around either |
| OrderedMap.Get | pkg/formatter/ordered_map.go:95-97 | the string held under a present key whose value is a string |
| OrderedMap.GetAfterSet | pkg/formatter/ordered_map.go:95-97 | reading a key just set to a string gives that string |
| OrderedMap.MarshalJSON | pkg/formatter/ordered_map.go:122-143 | the output is braced, and it is `{}` for an empty map |
| OrderedMap.SameAsNoColour | pkg/formatter/ordered_map.go:122-143 | the colourless marshaller equals the FeatureMap marshaller with the no-colour palette |
| OrderedMap.ValueAgrees | pkg/formatter/ordered_map.go:122-143 | the same agreement for a single value, nested records included |
| OrderedMap.ItemsAgree | pkg/formatter/ordered_map.go:122-143 | the same agreement for array items |
| OrderedMap.MemberAgrees | pkg/formatter/ordered_map.go:128-139 | the same agreement for one member |
| OrderedMap.MembersAgree | pkg/formatter/ordered_map.go:122-143 | the same agreement for a list of members |
| OrderedMap.FromKVPairsWellFormed | pkg/formatter/ordered_map.go:53-59 | building from pairs gives a well-formed record |
| OrderedMap.FromKVPairs | pkg/formatter/ordered_map.go:53-59 | building from pairs lists at most one key per pair and only keys some pair carries |
| OrderedMap.FromKVPairsContents | pkg/formatter/ordered_map.go:53-59 | a key is present iff some pair carries it, and it holds the value of its last pair |
| OrderedMap.FromKVPairsOrder | pkg/formatter/ordered_map.go:53-59 | keys are listed in the order of their first pair |
| OrderedMap.OrderKept | pkg/formatter/ordered_map.go:145-150 | setting a present key keeps the first-occurrence order |
| OrderedMap.OrderExtended | pkg/formatter/ordered_map.go:145-150 | setting a new key extends the first-occurrence order |
| Decoder.Unmarshal | pkg/featuremap/feature_map.go:157-168 | input that does not start with `{` is rejected |
| Decoder.Decode | pkg/formatter/formatter.go:59-63 | decoding into a fresh map rejects input that does not start with `{`, and accepts only balanced input; `Decoder.DecodeExactly` characterises it fully |
| Decoder.HandleDelim | pkg/featuremap/feature_map.go:232-255 | a value consumes at least its own token; `Decoder.HandleDelimOpen` and `Decoder.RoundTripValue` give what it yields |
| Decoder.ParseObject | pkg/featuremap/feature_map.go:192-230 | an object body consumes at least one token; `Decoder.RoundTripMembers` and `Decoder.ParseObjectComplete` give what it yields |
| Decoder.ParseArray | pkg/featuremap/feature_map.go:257-282 | an array body consumes at least one token; `Decoder.RoundTripItems` and `Decoder.ParseArrayComplete` give what it yields |
| Decoder.CloseObject | pkg/featuremap/feature_map.go:221-227 | an object closes only on `}`, which is consumed |
| Decoder.RoundTripValue | pkg/featuremap/feature_map.go:232-255 | decoding the tokens of a well-formed value gives the value back and leaves the rest of the input |
| Decoder.RoundTripMembers | pkg/featuremap/feature_map.go:192-230 | decoding the member tokens of a record's keys from position i, starting from its first i members, gives the whole record |
| Decoder.RoundTripItems | pkg/featuremap/feature_map.go:257-282 | decoding the item tokens of an array from position i, starting from its first i items, gives the whole array |
| Decoder.DecodeTokens | pkg/featuremap/feature_map.go:157-181 | `UnmarshalJSON` of the token form `Tokens` of a well-formed record gives the record back |
| Decoder.ParseObjectExtends | pkg/featuremap/feature_map.go:192-230 | parsing an object only appends keys to the record it starts from, and every key it does not add keeps its value |
| Decoder.ParseArrayExtends | pkg/featuremap/feature_map.go:257-282 | parsing an array only appends to the items it starts from |
| Decoder.PushedFirst | pkg/featuremap/feature_map.go:217-218 | when no key repeats, the first member pushed is the first key the parse adds and keeps its value |
| Decoder.HandleDelimOpen | pkg/featuremap/feature_map.go:232-255 | `{` yields an object, `[` an array, and any other token is its own scalar |
| Decoder.HandleDelimComplete | pkg/featuremap/feature_map.go:232-255 | a decoded well-formed value consumed exactly its own tokens |
| Decoder.ParseObjectComplete | pkg/featuremap/feature_map.go:192-230 | a parsed well-formed object consumed exactly its members' tokens and the `}` |
| Decoder.ParseArrayComplete | pkg/featuremap/feature_map.go:257-282 | a parsed well-formed array consumed exactly its items' tokens and the `]` |
| Decoder.DecodeExactly | pkg/featuremap/feature_map.go:157-181 | a well-formed record is decoded from exactly one token sequence, its own serialisation |
| Decoder.DecodeOnlyTokens | pkg/featuremap/feature_map.go:157-181 | a sequence that decodes to a well-formed record is that record's serialisation |
| Decoder.DepthAppend | pkg/featuremap/feature_map.go:192-282 | the nesting depth of concatenated tokens is the depth of the second part, taken after the first |
| Decoder.HandleDelimBalanced | pkg/featuremap/feature_map.go:232-255 | the tokens one value consumes are balanced |
| Decoder.ObjectBalanced | pkg/featuremap/feature_map.go:192-230 | the tokens an object body consumes close exactly the open object |
| Decoder.ArrayBalanced | pkg/featuremap/feature_map.go:257-282 | the tokens an array body consumes close exactly the open array |
| Decoder.DecodeBalanced | pkg/featuremap/feature_map.go:157-181 | every accepted input is balanced |
| Decoder.HandleDelimExtends | pkg/featuremap/feature_map.go:232-255 | extra input after a value does not change how the value is decoded |
| Decoder.ParseObjectExtendsInput | pkg/featuremap/feature_map.go:192-230 | extra input after an object does not change how the object is parsed |
| Decoder.ParseArrayExtendsInput | pkg/featuremap/feature_map.go:257-282 | extra input after an array does not change how the array is parsed |
| Decoder.TrailingTokensRejected | pkg/featuremap/feature_map.go:175-178 | any token after the top-level object makes the decode fail |
| Decoder.RepeatedKeyBreaksInvariant | pkg/featuremap/feature_map.go:217-218 | a line with a repeated key decodes to a record that lists the key twice, which is not well formed |
| Text.Split | pkg/matcher/matcher.go:20 | `strings.Split` returns one more part than there are separators, parts hold no separator, and joining them restores the string |
| Text.SplitUnique | pkg/matcher/matcher.go:20 | a separator-free decomposition that joins to the string is the one `Split` returns |
| Text.SplitNoSep | pkg/matcher/matcher.go:20-22 | a string without the separator splits into itself alone |
| Text.CountZero | pkg/matcher/matcher.go:20-22 | a zero separator count means the separator does not occur |
| Text.ByteLen | cmd/flag.go:41 | Go's `len` in UTF-8 bytes lies between one and four bytes per character |
| Text.ByteLenAscii | cmd/flag.go:41 | on ASCII text, byte length equals character count |
| Matcher.BareIffNoColon | pkg/matcher/matcher.go:20-22 | a spec is bare (splits into one part) iff it holds no colon |
| Matcher.Exp | pkg/matcher/matcher.go:16-28 | expansion never yields more specs than it was given |
| Matcher.ExpMembers | pkg/matcher/matcher.go:16-28 | the expansion holds exactly `s:.*` for each colon-free s of the list |
| Matcher.ExpAppend | pkg/matcher/matcher.go:16-28 | expansion distributes over concatenation, so the order is kept |
| Matcher.ContainsExp | pkg/matcher/matcher.go:131-139 | with no fields the answer is false; otherwise a pattern that does not compile panics, and one that compiles answers whether it matches some field |
| Matcher.ExpWithoutKeeps | pkg/matcher/matcher.go:30-47 | when every spec compiles or nothing is excluded, the loop succeeds and keeps exactly `FilterKept`: the bare specs that match none of the excluded fields, in input order with repeats; each gains `:.*` |
| Matcher.AllBareExp | pkg/matcher/matcher.go:40-46 | when every kept spec is bare, the expansion is each spec with `:.*` appended |
| Matcher.ExpWithoutPanics | pkg/matcher/matcher.go:30-47 | with exclusions present, a spec that does not compile makes `ExpWithout` panic |
| Matcher.ExpWithout | pkg/matcher/matcher.go:30-47 | `ExpWithout` only fails by panicking, and on success it is `Exp` of the kept specs in input order with repeats |
| Matcher.KeptSpecsFilter | pkg/matcher/matcher.go:33-43 | whenever the loop finishes it has kept exactly `FilterKept`, and its only failure is a panic |
| Matcher.PairMatchesFrom | pkg/matcher/matcher.go:103-129 | a pair matches iff some entry's key matches the key pattern and the value is either a non-string or a string that matches the value pattern |
| Matcher.PairMatchesMapping | pkg/matcher/matcher.go:103-129 | a pair matches iff some listed key matches the key pattern and its value is not a string or is a string the value pattern matches |
| Matcher.PairMatchesStored | pkg/matcher/matcher.go:103-129 | on a well-formed record the test ranges over the stored entries |
| Matcher.EmptyNeverMatches | pkg/matcher/matcher.go:103-129 | an empty line matches no pair |
| Matcher.Compile | pkg/matcher/matcher.go:50-60 | one compiled pair per select, or a panic |
| Matcher.CompileSpec | pkg/matcher/matcher.go:50-60 | compilation succeeds iff every select holds at least one colon and its first two segments compile (later segments are ignored), and each pair is those two segments |
| Matcher.Matched | pkg/matcher/matcher.go:70-80 | the count never exceeds the number of pairs |
| Matcher.MatchedAll | pkg/matcher/matcher.go:70-82 | every pair is counted iff every pair matches the line |
| Matcher.Match | pkg/matcher/matcher.go:49-83 | a bad select panics, and an undecodable line is an error |
| Matcher.MatchIsConjunction | pkg/matcher/matcher.go:49-83 | a decodable line is selected iff it matches every pair |
| Matcher.NoSelectsMatch | pkg/matcher/matcher.go:49-83 | with no selects, every decodable line is selected |
| Matcher.BareKeySelects | pkg/matcher/matcher.go:16-28 | a bare key compiles to `key:.*`, which selects a line iff some key matches it |
| Matcher.Value | pkg/matcher/matcher.go:85-101 | an undecodable line is an error; a bad pattern panics; otherwise the result is the value of some key the pattern matches, or empty when none does |
| StringMap.UnmarshalStrings | pkg/matcher/filter.go:24-28 | a top-level `null` gives the empty map, and input that is not an object is an error |
| StringMap.Flatten | pkg/matcher/filter.go:24-28 | the string map has the record's keys, each with its string value (empty for `null`) |
| StringMap.MembersSound | pkg/matcher/filter.go:24-28 | whenever the string-map reader accepts members, the record decoder accepts them too and flattens to the same map |
| StringMap.MembersComplete | pkg/matcher/filter.go:24-28 | the record decoder's members, when all flat, are read by the string-map reader to the same map |
| StringMap.AgreesWithDecode | pkg/matcher/matcher.go:86-90 | the string-map decode succeeds iff the record decode succeeds with flat members only, and then gives the flattened record |
| LegacyMatcher.PairMatchesMapping | pkg/matcher/filter.go:46-55 | true iff one entry matches both patterns, and never for an empty map |
| LegacyMatcher.Match | pkg/matcher/filter.go:11-44 | a bad select panics; an undecodable line is an error; otherwise the line is selected iff every pair is matched by some entry |
| Formatter.Fields | pkg/formatter/formatter.go:58-100 | an undecodable line is an error, an uncompilable field panics, and with no fields the line is re-marshalled uncoloured |
| Formatter.Keep | pkg/formatter/formatter.go:70-91 | the kept keys are exactly the listed keys the predicate accepts |
| Formatter.PassFrom | pkg/formatter/formatter.go:71-91 | one pass only fails by a panic or a bad time; it never adds a key; every surviving key other than `time` keeps its value |
| Formatter.Passes | pkg/formatter/formatter.go:70-92 | the passes together only fail by a panic or a bad time; they never add a key; surviving keys other than `time` keep their values |
| Formatter.PassFromFilters | pkg/formatter/formatter.go:70-91 | from any cursor, the deleting pass computes the filtered record |
| Formatter.PassIsFilter | pkg/formatter/formatter.go:70-91 | one pass over a record whose kept time parses keeps exactly the matching keys in order, with the time reformatted |
| Formatter.FilteredWellFormed | pkg/formatter/formatter.go:70-91 | the result of a pass is well formed |
| Formatter.FilteredValues | pkg/formatter/formatter.go:78-90 | a key survives iff it is stored and matches; survivors other than `time` keep their values; `time` holds the reformatted time |
| Formatter.PassFromFails | pkg/formatter/formatter.go:79-83 | a kept `time` that is not a string panics, and one that does not parse is an error |
| Formatter.PassOutcome | pkg/formatter/formatter.go:70-91 | a pass succeeds iff a kept `time` is a string that parses, and its outcome is the filtered record or the matching error |
| Formatter.PassesSurvivors | pkg/formatter/formatter.go:70-92 | with no `time` the passes always succeed; on success the keys left are those matching every pattern, in order, and non-time values are unchanged |
| Formatter.FieldsAndCounterexample | pkg/formatter/formatter.go:70-92 | fields `tim` and `mes` on a line with `time` and `message` print `{}` |
| Formatter.FieldsTimeTwiceCounterexample | pkg/formatter/formatter.go:79-86 | two patterns that both match `time` make the second pass re-parse the reformatted time and fail |
| Formatter.FieldsIntended | pkg/formatter/formatter.go:58-100 | same error cases and empty-fields result as `Fields` |
| Formatter.FieldsIntendedKeepsAny | pkg/formatter/formatter.go:58-100 | the ORed projection succeeds iff a kept `time` parses; it keeps exactly the keys that match some pattern, in order; it reformats `time` once |
| Formatter.FieldsIntendedKeepsBoth | pkg/formatter/formatter.go:70-92 | fields `tim` and `mes` keep both `time`, reformatted, and `message` |
| Formatter.FieldsIntendedRetimesOnce | pkg/formatter/formatter.go:79-86 | two patterns matching `time` reformat it once and succeed |
| Formatter.IsErr | pkg/formatter/formatter.go:102-113 | succeeds iff the line decodes, and answers whether `level` is the string `error` or `warning` |
| Formatter.SevereFrame | pkg/formatter/formatter.go:109-110 | setting any key other than `level` leaves the verdict unchanged |
| Formatter.SevereLevel | pkg/formatter/formatter.go:109-110 | setting `level` to a string makes the line severe iff the string is `error` or `warning` |
| Formatter.SevereKept | pkg/formatter/formatter.go:102-113 | a projection that keeps `level` keeps the verdict |
| Flags.Validate | cmd/flag.go:35-84 | passes iff every field, the group and every select is valid; otherwise returns the error of the first failing check, in the order fields, group, selects |
| Flags.FirstErrorUnique | cmd/flag.go:35-84 | the first failing check is unique, so the returned error is determined |
| Flags.ValidFieldsCompile | cmd/flag.go:37-48 | valid flags make every `-f` pattern compile, so `Fields` cannot panic on them |
| Flags.ValidSelectsCompile | cmd/flag.go:62-78 | valid flags make every `-s` value compile to its own `key` and `val` sides, so `Match` cannot panic on them |

## Left out

- `ColourJSON` (pkg/formatter/formatter.go:28-56) is not modelled. It re-indents text with `json.Indent` and colours it with regular-expression rewrites, which is text processing outside the record layer.
- The runner, config and cobra wiring (`flag.Init`) are not modelled. None of them holds logic of the record layer.
- The debug `fmt.Printf` inside `FeatureMap.MarshalJSON` (pkg/featuremap/feature_map.go:129) is not modelled. It writes to standard output and has no effect on the result.
- `json.Marshal` is not modelled. Strings go through the `Quoting` parameter. Go's compaction of nested output and the error it returns for invalid nested output (for example coloured nested maps) are not modelled.
- The JSON tokenizer is not modelled. Lexing, syntax errors, `json.Number` validation and invalid UTF-8 are the tokenizer's; the decoders start from its token sequence.
- The `io.EOF` break in `parseobject` is modelled by the end of the token sequence: an object that ends before its `}` fails with `UnexpectedEnd`, as pkg/featuremap/feature_map.go:205-206 and 221-223 do.
- Decoder.DecodeTokens: the round trip is stated for the token form `Tokens`, not for the text `MarshalJSON` prints; turning that text back into tokens is the tokenizer's job, which is not modelled.
- The regular-expression engine and the time library are parameters.
- `featuremap.New` lives in a file that is not part of this model. `FeatureMap.New` models it as `NewWithPalette` with the no-colour palette, as the formatter uses it.
- Matcher.Value: Go's random map iteration order becomes a nondeterministic choice among the matching keys. The contract promises some matching key's value, not a particular one.
- The `-c` and `-t` flags are not checked by `Validate`. The model carries them and checks nothing about them, like the source.
- Concurrency is not modelled. Each operation works on one line.
- Formatter.PassesSurvivors: it does not characterise the `time` value after several passes, nor when several passes fail. The single-pass lemmas and the two counterexamples cover those cases.
- Formatter.Fields: its own contract states only the error cases and the empty-fields result. The projection itself is characterised per pass by `Formatter.PassOutcome` and across passes by `Formatter.PassesSurvivors`.

## Findings

| source | as written | input that shows it | evidently intended | confidence | as-written member | corrected member |
|---|---|---|---|---|---|---|
| pkg/formatter/formatter.go:70-92 | each `-f` pattern runs its own deleting pass, so a key survives only if it matches every pattern | `-f tim -f mes` on `{"time":"2020-01-02T03:04:05+01:00","message":"hi"}` prints `{}` | a key is kept when it matches any pattern, as the flag's help text "Fields the output lines should contain only" (cmd/flag.go:29) describes | not executed | Formatter.FieldsAndCounterexample | Formatter.FieldsIntendedKeepsAny |
| pkg/formatter/formatter.go:79-86 | every pass that keeps `time` parses it with the long layout again, after an earlier pass already rewrote it as `15:04:05` | `-f tim -f ime` on `{"time":"2020-01-02T03:04:05+01:00"}` fails with a time parse error | `time` is parsed and reformatted once | not executed | Formatter.FieldsTimeTwiceCounterexample | Formatter.FieldsIntendedRetimesOnce |
