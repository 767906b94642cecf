# kino field masks in Dafny

kino describes which fields of a JSON document to keep with a *mask*. A mask is a tree: each level maps
field names to a `Node`. A node has an `Op`: `Positive` keeps the field, `Negative` drops it. It may also
have a child mask. Each level also has a `Mode`, which is Negative when its entries are all exclusions.

Masks are written as text such as `a,-b,c:(d,-e),-z:(x)`. The model covers:

- the mask and its canonical text form (`mask.go`);
- the text parser `ParseMask` (`mask_parse.go`);
- the two JSON codecs: `encoding/json/v2` streaming in `mask_json_v2.go` and the legacy `encoding/json`
  methods in `mask_json.go`;
- the MongoDB projection builder (`stage/mongodb/projection.go`).

Modules, one concept each:

| file | module | what it holds |
|---|---|---|
| `wrappers.dfy` | `Wrappers` | `Option`, `Result` |
| `text.dfy` | `Text` | ASCII whitespace, `strings.TrimSpace`, `strings.Join`, byte-wise string order, `sort.Strings` of map keys |
| `mask.dfy` | `Masks` | `Op`, `Node`, `Mask`, mode derivation, `String()` |
| `mask_parse.dfy` | `MaskGrammar` | the parser as recursive functions over the input (the reference definition) |
| `mask_parse_machine.dfy` | `MaskParser` | `ParseMask` itself: the state machine with its explicit frame stack, proved equal to `MaskGrammar.Parse` |
| `mask_roundtrip.dfy` | `MaskRoundTrip` | parsing the rendering of a mask gives the mask back |
| `mask_examples.dfy` | `MaskExamples` | every case of `mask_parse_test.go` and `mask_test.go`, and one input per reachable error branch of the parser |
| `json.dfy` | `JsonValues` | JSON values and the `jsontext` token stream they are read and written as |
| `mask_json_v2.dfy` | `MaskJsonV2` | `MarshalWithMask` (copyRaw / copyMasked over a token stream) and `MaskUnmarshalers` |
| `mask_json_v2_examples.dfy` | `MaskJsonV2Examples` | the six cases of `mask_json_v2_test.go`, on the test's sample document |
| `mask_json.dfy` | `MaskJsonLegacy` | `(*Mask).MarshalJSON` / `UnmarshalJSON` over a generic decoded JSON tree |
| `projection.dfy` | `MongoProjection` | `mongodb.Project`: exclusion or inclusion document |
| `projection_examples.dfy` | `MongoProjectionExamples` | the cases of `stage/mongodb/projection_test.go` not stated in `MongoProjection` |

How the code is modelled:

- **Pointers and maps.** `*Mask` is `Option<Mask>` and a nil `Fields` map is the empty map. Masks are
  values. A child mask is attached when its subtree closes, where the Go code keeps a pointer into the
  parent. The result is the same tree.
- **Step-by-step code stays imperative.**
  - `ParseMask` is a loop over a `Machine` (state, index, pending field, stack of frames). Each state
    handler is a method. A ghost continuation `Resume` shows that every step keeps the eventual result
    equal to the reference grammar.
  - `copyRaw`, `copyMasked` and the unmarshaler are methods over the remaining token input and the
    output written so far. Their contracts tie the output to `Encode` of a projection function.
  - `UnmarshalJSON`'s build and the projection builder's walks are methods with loops over the key set.
- **Behaviour of the code worth knowing:**
  1. `"a:(b),"` (a comma after a closing parenthesis, then end of input) is accepted.
     `MaskExamples.CommaAfterCloseExample` proves this. A trailing comma after a leaf is an error.
  2. An empty Positive mask projects every object to `{}`: the whitelist keeps nothing. It is not the
     identity.
  3. The doc comment of the MongoDB builder (`stage/mongodb/projection.go:16`) says that any Negative
     node with children forces the inclusion form. The code at lines 25-47 switches to the inclusion
     form only when a Positive node is reachable through Negative nodes with children. So
     `-a,-c:(-e)` stays the exclusion document `{a: 0}` (`MongoProjection.ExampleNestedExclude`).
     The model follows the code.
  4. The unexpected-character error after a field name (`mask_parse.go:141-146`) cannot occur. The name
     scan stops only at ':', ',', ')' or the end of input (`MaskGrammar.NameEnd`), and each of those has
     its own branch. The model keeps the error branch as written.

## Model

| member | source | states |
|---|---|---|
| Masks.DeriveMode | mask_parse.go:217-222 | a level's mode is Negative exactly when it has a Negative entry and no Positive one; an empty level is Positive |
| Masks.MaskString | mask.go:32-35 | a nil mask renders as the empty string |
| Masks.Render | mask.go:32-55 | a mask without fields renders as the empty string |
| Masks.Parts | mask.go:41-53 | one rendered part per key, the i-th being the entry for the i-th sorted key |
| Masks.RenderIgnoresMode | mask.go:32-55 | `String()` never depends on any level's `Mode`: masks of the same shape render identically |
| Text.SortedKeys | mask.go:36-40 | the keys listed once each, exactly the map's keys, in strictly ascending byte order |
| Text.SortedUnique | mask.go:36-40 | a strictly sorted listing of a key set is unique, so the rendering order is determined |
| Text.LessTotal | mask.go:40 | the byte-wise string order used to sort keys relates any two distinct keys |
| Text.LessTransitive | mask.go:40 | the string order is transitive |
| Text.SpacesSkipped | mask_parse.go:73-77 | `skipSpaces` stops at the first non-space, having passed only spaces |
| Text.TrimSpaceRemovesSpaces | mask_parse.go:109 | a trimmed name is the input with leading and trailing spaces removed and starts and ends with a non-space |
| MaskGrammar.NameEndScansName | mask_parse.go:97-108 | no ':', ',' or ')' lies inside the scanned name |
| MaskGrammar.AddLeaf | mask_parse.go:34-50 | a leaf is added exactly when its name is non-empty and not yet in the level; the new entry has the given op and no children |
| MaskGrammar.Parse | mask_parse.go:19-224 | every mask the parser returns is well formed: each level's mode derived from its entries, names non-empty, trimmed and free of separators, every subtree non-empty |
| MaskParser.SkipSpaces | mask_parse.go:73-77 | returns the index of the first non-space at or after the start |
| MaskParser.ScanName | mask_parse.go:97-108 | returns where the name starting at the index ends: the first ':', ',' or ')' or the end of input |
| MaskParser.AddLeafTo | mask_parse.go:34-50 | on the top frame: the empty and duplicate errors of `addLeaf`, else the leaf added and the frame's flags updated |
| MaskParser.StartSubtree | mask_parse.go:51-72 | empty or duplicate name errors; else a placeholder entry in the parent and a new empty frame pushed |
| MaskParser.ParseFieldStep | mask_parse.go:82-112 | reading a field: an error is the grammar's error, otherwise the machine stays consistent, advances and keeps its eventual result |
| MaskParser.AfterFieldStep | mask_parse.go:113-151 | after a name, ',' ')' ':' or end of input: same contract as every step |
| MaskParser.DescendStep | mask_parse.go:152-168 | `:(`: missing '(' and empty subtree errors, otherwise a new level |
| MaskParser.TraverseStep | mask_parse.go:169-175 | after ',': trailing comma at end of input is an error |
| MaskParser.AscendStep | mask_parse.go:176-208 | `)`: unmatched close at the root, the child attached to its parent with the child's derived mode, then ',' ')' or end |
| MaskParser.CloseTop | mask_parse.go:180-187 | closing a frame pops it and turns the parent's placeholder into an entry with the same op and the closed level, with its derived mode, as children; the stack stays valid |
| MaskParser.ParseMask | mask_parse.go:19-224 | the state machine with its stack returns exactly what the reference grammar `Parse` returns, errors included (missing ')' at 213-215) |
| MaskRoundTrip.ParseRender | mask.go:32-55 | parsing the rendering of any well-formed mask gives back that mask, modes included |
| MaskRoundTrip.ParsedRoundTrip | mask_parse.go:19-224 | for every string that parses, parsing its canonical rendering gives the same mask |
| MaskExamples.BlankParsesEmpty | mask_parse.go:79-223 | an all-whitespace input parses to the empty Positive mask |
| MaskExamples.EmptyFieldExample | mask_parse_test.go:11-14 | `a,,b` is an empty-field error |
| MaskExamples.DupExample | mask_parse_test.go:16-19 | `a,a` is a duplicate-field error |
| MaskExamples.EmptySubtreeExample | mask_parse_test.go:21-24 | `a:()` is an empty-subtree error |
| MaskExamples.ModesExample | mask_parse_test.go:26-30 | `a,-b` parses to a Positive root with a Positive `a` and a Negative `b` |
| MaskExamples.NegativeExample | mask_parse_test.go:32-36 | `-a,-b` parses to a Negative root |
| MaskExamples.StructureExample | mask_parse_test.go:38-53 | `a,-b,c:(d,-e),-z:(x)` parses to a Positive root with `a` Positive, `b` Negative, `c` Positive over `d,-e` and `z` Negative over `x` |
| MaskExamples.NestedExample | mask_parse_test.go:55-64 | `z:(-x)` parses to a Positive `z` whose child holds a Negative `x` |
| MaskExamples.ExpectedParenExample | mask_parse.go:152-155 | `a:b` is a missing-'(' error |
| MaskExamples.TrailingCommaExample | mask_parse.go:169-173 | `a,` is a trailing-comma error |
| MaskExamples.UnmatchedExample | mask_parse.go:176-179 | `a)` is an unmatched-')' error |
| MaskExamples.MissingCloseExample | mask_parse.go:213-215 | `a:(b` is a missing-')' error |
| MaskExamples.ExpectedCommaExample | mask_parse.go:189-206 | `a:(b)c` is an expected-','-or-')' error: after a closed subtree only ',', ')' or the end may follow |
| MaskExamples.CommaAfterCloseExample | mask_parse.go:189-208 | `a:(b),` is accepted and parses to `a` with child `b` |
| MaskExamples.RenderExample | mask_test.go:11-22 | the mask of the test renders as `a,-b,c:(d)` |
| MaskExamples.ExampleKeys | mask.go:36-40 | a strictly sorted listing of a key set is what the key sort returns |
| JsonValues.EncodeMembersAppend | mask_json_v2.go:186-273 | the tokens of two runs of members are the tokens of each, one after the other |
| MaskJsonV2.Override | mask_json_v2.go:212-223 | an override descends with the node's children in Positive mode |
| MaskJsonV2.Decide | mask_json_v2.go:191-272 | a member is dropped iff its name is unlisted under the whitelist or listed as a Negative without children; copied verbatim iff unlisted outside the whitelist or listed as a Positive without children; filtered iff listed with children, by those children, Positive and excluded for a Negative (the override), as they are for a Positive |
| MaskJsonV2.Project | mask_json_v2.go:170-305 | objects stay objects, arrays keep their length, scalars are unchanged |
| MaskJsonV2.KeptKeys | mask_json_v2.go:186-273 | the surviving names are exactly the input names not decided Skip, as an order-preserving subsequence |
| MaskJsonV2.ProjectKeys | mask_json_v2.go:186-273 | a projected object's names are the kept input names, in input order |
| MaskJsonV2.KeyOrder | mask_json_v2.go:186-273 | output member names are an order-preserving subsequence of the input names |
| MaskJsonV2.WhitelistKeys | mask_json_v2.go:192-234 | Positive mode or inside an override: a member survives iff the mask lists its name and the entry is not a Negative without children |
| MaskJsonV2.BlacklistKeys | mask_json_v2.go:235-271 | Negative mode: a member survives iff its name is not a Negative entry without children |
| MaskJsonV2.KeptValue | mask_json_v2.go:204-271 | in terms of the member's mask entry: an unlisted member outside the whitelist, or a listed childless Positive, appears verbatim in the output; a member listed with children appears with its value projected by them (a Negative's: in Positive mode, excluded) |
| MaskJsonV2.ArraysInherit | mask_json_v2.go:280-298 | every array element is projected with the same mask and flag |
| MaskJsonV2.ProjectMembersAppend | mask_json_v2.go:186-273 | members are projected independently of each other |
| MaskJsonV2.ProjectIdempotent | mask_json_v2.go:170-305 | projecting an already projected value with the same mask changes nothing |
| MaskJsonV2.CopyRaw | mask_json_v2.go:111-168 | `copyRaw` consumes exactly the next value and writes exactly its tokens |
| MaskJsonV2.CopyRawObject | mask_json_v2.go:115-139 | the object case of `copyRaw` |
| MaskJsonV2.CopyRawArray | mask_json_v2.go:140-157 | the array case of `copyRaw` |
| MaskJsonV2.SkipValue | mask_json_v2.go:207-209 | skipping consumes exactly the next value |
| MaskJsonV2.CopyMasked | mask_json_v2.go:170-305 | `copyMasked` consumes the next value and writes the tokens of its projection; a nil mask copies it (174-176) |
| MaskJsonV2.CopyMaskedObject | mask_json_v2.go:178-279 | the object loop writes the tokens of the projected object |
| MaskJsonV2.CopyMaskedMember | mask_json_v2.go:186-273 | one member: the Go branches write the projected member's tokens |
| MaskJsonV2.CopyMaskedArray | mask_json_v2.go:280-298 | the array loop writes the tokens of the projected array |
| MaskJsonV2.MarshalWithMask | mask_json_v2.go:103-309 | the output is the encoding of the value projected by the mask, starting outside any override |
| MaskJsonV2.LevelMode | mask_json_v2.go:91-95 | a decoded level is Negative iff it saw a Negative entry and no Positive one |
| MaskJsonV2.LeafOp | mask_json_v2.go:59-84 | only booleans and numbers are accepted as leaves; `false` and negative numbers are Negative |
| MaskJsonV2.DecodeEntry | mask_json_v2.go:51-84 | a nested object gives a Positive node with children; a scalar gives a childless node; an array is rejected |
| MaskJsonV2.FreshKeysDistinct | mask_json_v2.go:47-49 | no duplicate error exactly when the names are new to the level and pairwise distinct |
| MaskJsonV2.EntryAccepted | mask_json_v2.go:51-84 | decoding an entry succeeds exactly on acceptable values: booleans, numbers, objects of acceptable values with distinct names |
| MaskJsonV2.MembersAccepted | mask_json_v2.go:41-86 | decoding members succeeds iff their names are fresh and their values acceptable |
| MaskJsonV2.DecodedOps | mask_json_v2.go:34-40 | the level's flags record whether some decoded member is Positive or Negative |
| MaskJsonV2.DecodedEntries | mask_json_v2.go:52-84 | a decoded level holds one entry per member, as that member decodes, plus the entries it had before |
| MaskJsonV2.UnmarshalMode | mask_json_v2.go:91-95 | the decoded mode is Negative iff some member is Negative and none Positive, which is the derived mode when decoding into an empty mask |
| MaskJsonV2.DecodeValue | mask_json_v2.go:51-84 | decoding one entry's value gives exactly the reference result |
| MaskJsonV2.UnmarshalMask | mask_json_v2.go:14-98 | a non-object is passed over unread (16-18); an object is consumed and decoded as the reference `Unmarshal` says |
| MaskJsonV2Examples.ExamplePositiveRoot | mask_json_v2_test.go:49-57 | `a,c:(d)` over the sample writes `{"a":"va","c":{"d":..}}` |
| MaskJsonV2Examples.ExampleNegativeRoot | mask_json_v2_test.go:59-67 | `-b,-c:(-e)` under a Negative root keeps a and z and writes `c` as `{}` |
| MaskJsonV2Examples.ExampleMixed | mask_json_v2_test.go:88-103 | `a,-b,c:(d,-e),-z:(x)` writes `{"a":"va","c":{"d":..},"z":{"x":..}}` |
| MaskJsonV2Examples.ExampleArray | mask_json_v2_test.go:105-113 | `-z:(x)` over an array of two samples writes two `{"z":{"x":..}}` |
| MaskJsonV2Examples.ExampleOverride | mask_json_v2_test.go:79-86 | `-z:(x)` under a Positive root writes `{"z":{"x":..}}` |
| MaskJsonV2Examples.ExampleExclude | mask_json_v2_test.go:69-77 | `-c:(-e)` under a Negative root keeps a, b, z and writes `c` as `{}` |
| MaskJsonLegacy.Walk | mask_json.go:12-23 | the written object has exactly the mask's keys |
| MaskJsonLegacy.WalkNode | mask_json.go:16-20 | a node is written as an object exactly when it has non-empty children, with their keys |
| MaskJsonLegacy.MarshalJSON | mask_json.go:8-26 | the result is always an object with the mask's keys; nil or empty gives `{}` |
| MaskJsonLegacy.MarshalBoolTree | mask_json.go:8-26 | every leaf written is a boolean |
| MaskJsonLegacy.BuildNode | mask_json.go:43-64 | an object gives a node with children; `false` and negative numbers are Negative, everything else Positive |
| MaskJsonLegacy.Built | mask_json.go:39-81 | the built level has the object's keys and the derived mode |
| MaskJsonLegacy.BuildResult | mask_json.go:39-81 | building succeeds exactly when every value at every depth is an object, a boolean or a number |
| MaskJsonLegacy.Build | mask_json.go:39-81 | the loop over the entries and the mode loop return exactly the reference result |
| MaskJsonLegacy.UnmarshalJSON | mask_json.go:29-90 | on success the receiver becomes the decoded mask (null gives the empty mask); on error it is unchanged |
| MaskJsonLegacy.BuiltModes | mask_json.go:66-79 | every level of a built mask has its mode derived from its entries |
| MaskJsonLegacy.UnmarshalModes | mask_json.go:29-90 | every level of a successfully decoded mask has its derived mode |
| MaskJsonLegacy.RebuiltEntries | mask_json.go:16-20 | reading back what was written keeps the keys and children; a node with children comes back Positive, a leaf keeps its op |
| MaskJsonLegacy.BoolTreeSupported | mask_json.go:43-64 | every written document is one the reader accepts |
| MaskJsonLegacy.WalkRoundTrip | mask_json.go:8-90 | write, read, write gives the first written document |
| MaskJsonLegacy.MarshalRoundTrip | mask_json.go:8-90 | what `MarshalJSON` writes is accepted by `UnmarshalJSON`, and the result is written out identically |
| MaskJsonLegacy.ExampleLegacy | mask_json_test.go:13-36 | the test's mask is written as `{"a":true,"b":false,"c":{"d":true,"e":false}}` and round-trips |
| MongoProjection.NeedsInclusionReach | stage/mongodb/projection.go:25-38 | the inclusion form is needed exactly when a Positive node is reachable through Negative nodes with children |
| MongoProjection.Excluded | stage/mongodb/projection.go:39-47 | the excluded names are exactly the Negative top-level entries without children |
| MongoProjection.ExcludeFields | stage/mongodb/projection.go:39-47 | the exclusion loop emits each excluded name once with value 0 and nothing else |
| MongoProjection.Leaves | stage/mongodb/projection.go:51-71 | every collected path is non-empty and starts with a field of the mask |
| MongoProjection.LeavesExactly | stage/mongodb/projection.go:51-71 | a path is collected iff it leads through nodes with children to a Positive leaf, skipping childless Negatives |
| MongoProjection.WalkInclude | stage/mongodb/projection.go:51-72 | the recursive walk restores the stack and adds exactly the dotted paths of the level's leaves |
| MongoProjection.WalkEntry | stage/mongodb/projection.go:52-70 | one entry: its leaves' dotted paths are added and the stack is restored |
| MongoProjection.IncludeKeys | stage/mongodb/projection.go:73-77 | each collected path is emitted once with value 1 |
| MongoProjection.Projection | stage/mongodb/projection.go:20-78 | all values are 1 in the inclusion form and 0 otherwise; no key repeats |
| MongoProjection.Project | stage/mongodb/projection.go:20-78 | the document holds exactly the projection's elements without repeats; nil or empty mask gives an empty document |
| MongoProjection.ProjectionIgnoresMode | stage/mongodb/projection.go:20-78 | the projection never depends on any level's `Mode` |
| MongoProjection.ExampleExclude | stage/mongodb/projection_test.go:32-41 | `-a,-b` gives `{a: 0, b: 0}` |
| MongoProjection.ExampleNestedExclude | stage/mongodb/projection.go:25-47 | `-a,-c:(-e)` gives the exclusion document `{a: 0}` |
| MongoProjection.ExampleOverride | stage/mongodb/projection_test.go:43-51 | `-z:(x)` gives `{"z.x": 1}` |
| MongoProjectionExamples.Included | stage/mongodb/projection.go:49-78 | a mask needing the inclusion form projects to one `path: 1` per collected path, dotted |
| MongoProjectionExamples.ExamplePositive | stage/mongodb/projection_test.go:21-30 | `a,c:(d)` gives `{a: 1, "c.d": 1}` |
| MongoProjectionExamples.ExampleMixed | stage/mongodb/projection_test.go:53-63 | `a,-b,c:(d,-e),-z:(x)` gives `{a: 1, "c.d": 1, "z.x": 1}` |
| MongoProjectionExamples.ExampleDeep | stage/mongodb/projection_test.go:65-75 | `-a:(-b:(-c:(d:(e,-f),-g,y:(z,-w))))`, whose root is Negative, gives `{"a.b.c.d.e": 1, "a.b.c.y.z": 1}` |
| MongoProjectionExamples.ExampleFive | stage/mongodb/projection_test.go:77-88 | `a,-b:(c),d:(e),f:(g:(h)),-i` gives `{a: 1, "b.c": 1, "d.e": 1, "f.g.h": 1}` |

## Left out

- Error messages: the model keeps the kind of each parse or decode error, not its text or index.
- Internal parser errors cannot happen and are not modelled. These are the missing pending field, the
  unknown state and the unexpected EOF in `parseField`.
- The branch of the ascend state that re-checks for a space right after `skipSpaces` cannot be taken
  and is not modelled.
- Whitespace is ASCII only. Each `char` stands for one byte. Unicode spaces (U+0085, U+00A0 and the
  multi-byte ones) are not modelled.
- JSON numbers carry only their sign, which is all the mask code reads. Floating point, and the
  `int64` / `uint64` / `float64` distinction, are folded into one `Number`.
- I/O and codec errors from `jsontext` (read and write failures, malformed input) are left out. The
  token input is assumed to encode a value, since it comes from `json.MarshalWrite` of that value.
- `json.SkipFunc` is modelled as the `Skipped` outcome with the input left unread.
- `json.MarshalWrite` is modelled as `Encode`: the value's own tokens.
- MaskJsonV2.UnmarshalMask: on a decode error the Go code may already have filled part of `v`. The
  model returns the error and says nothing about `v`.
- MaskJsonLegacy.Unmarshal: `encoding/json`'s byte-level parsing is not modelled. The input is the
  generic value (`map[string]any`, bool, float64, nil, other) it produces.
- MaskJsonLegacy.UnmarshalJSON: which offending key the error names is left out, because it depends on
  Go's map iteration order.
- Go map iteration order is not modelled: map-typed loops pick keys in any order, and results are maps
  or sets.
- MongoProjection.Project: the order of elements in the `bson.D` is left out; the contract states its
  set of elements without repeats.
- `examples/main.go` and the tests under `stage/mongo` are not part of this model.
