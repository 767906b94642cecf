/**
 * mask_json_v2.go: the streaming projector `MarshalWithMask` and the structural decoder
 * `MaskUnmarshalers`, over the token stream of `JsonValues`.
 *
 * The decoder's and encoder's states are a token sequence with a cursor and the sequence of
 * tokens written so far. `CopyRaw`, `SkipValue` and `CopyMasked` consume exactly one encoded
 * value; each takes that value as a ghost parameter, which the caller knows because the
 * stream comes from `json.MarshalWrite` and is well formed.
 */
module MaskJsonV2 {
  import opened Wrappers
  import opened Masks
  import opened JsonValues

  // ---------------------------------------------------------------------------------------
  // What the projector does to a value.

  /** What happens to an object member: dropped, copied verbatim, or filtered by a mask. */
  datatype Action = Skip | Raw | Masked(mask: Mask, excluded: bool)

  /** The whitelist regime of a level: `Mode == Positive`, or inside an excluded override. */
  predicate Whitelist(mask: Mask, excluded: bool) {
    mask.mode == Positive || excluded
  }

  /** The mask an override descends with: the node's children, in Positive mode. */
  function Override(n: Node): (c: Mask)
    requires HasChildren(n)
    ensures c.fields == n.children.value.fields && c.mode == Positive
  {
    Mask(Positive, n.children.value.fields)
  }

  /** The member `key` of a level projected with `mask`: a name the mask does not list is
    * dropped in the whitelist regime and kept verbatim otherwise; a listed name is treated the
    * same in both regimes: a childless Negative is dropped, a Negative with children is the
    * override (its children, Positive, excluded), a Positive with children is filtered by them,
    * and a childless Positive is kept verbatim. */
  function Decide(mask: Mask, excluded: bool, key: string): (a: Action)
    ensures a == Skip <==>
      || (key !in mask.fields && Whitelist(mask, excluded))
      || (key in mask.fields && mask.fields[key].op == Negative && !HasChildren(mask.fields[key]))
    ensures a == Raw <==>
      || (key !in mask.fields && !Whitelist(mask, excluded))
      || (key in mask.fields && mask.fields[key].op == Positive && !HasChildren(mask.fields[key]))
    ensures a.Masked? <==> key in mask.fields && HasChildren(mask.fields[key])
    ensures a.Masked? ==>
      && a.excluded == (mask.fields[key].op == Negative)
      && a.mask.fields == mask.fields[key].children.value.fields
      && (a.excluded ==> a.mask.mode == Positive)
      && (!a.excluded ==> a.mask == mask.fields[key].children.value)
  {
    if key !in mask.fields then
      if Whitelist(mask, excluded) then Skip else Raw
    else
      var n := mask.fields[key];
      if n.op == Negative then
        if HasChildren(n) then Masked(Override(n), true) else Skip
      else if HasChildren(n) then Masked(n.children.value, false)
      else assert n.op == Positive; Raw
  }

  /** The projection of a value: objects lose or filter members, arrays filter every element
    * with the same mask, scalars stay. */
  function Project(mask: Mask, excluded: bool, v: Json): (r: Json)
    ensures v.Object? <==> r.Object?
    ensures v.Array? ==> r.Array? && |r.items| == |v.items|
    ensures v.Leaf? ==> r == v
    decreases v
  {
    match v
    case Object(ms) => Object(ProjectMembers(mask, excluded, ms))
    case Array(items) => Array(ProjectItems(mask, excluded, items))
    case Leaf(_) => v
  }

  function ProjectMember(mask: Mask, excluded: bool, m: Member): (r: seq<Member>)
    ensures |r| <= 1
    ensures r != [] ==> r[0].key == m.key
    decreases m
  {
    match Decide(mask, excluded, m.key)
    case Skip => []
    case Raw => [m]
    case Masked(c, x) => [Member(m.key, Project(c, x, m.value))]
  }

  function ProjectMembers(mask: Mask, excluded: bool, ms: seq<Member>): (r: seq<Member>)
    ensures |r| <= |ms|
    decreases ms
  {
    if ms == [] then [] else ProjectMember(mask, excluded, ms[0]) + ProjectMembers(mask, excluded, ms[1..])
  }

  function ProjectItems(mask: Mask, excluded: bool, items: seq<Json>): (r: seq<Json>)
    ensures |r| == |items|
    decreases items
  {
    if items == [] then [] else [Project(mask, excluded, items[0])] + ProjectItems(mask, excluded, items[1..])
  }

  /** `copyMasked` with a possibly nil mask: a nil mask copies the value. */
  function MaskedValue(m: Option<Mask>, excluded: bool, v: Json): Json {
    match m
    case None => v
    case Some(mask) => Project(mask, excluded, v)
  }

  // ---------------------------------------------------------------------------------------
  // Properties of the projection.

  /** The names among `ks` whose members survive projection with `mask`, in order. */
  function KeptKeys(mask: Mask, excluded: bool, ks: seq<string>): (r: seq<string>)
    ensures forall k :: k in r <==> k in ks && Decide(mask, excluded, k) != Skip
    ensures Subsequence(r, ks)
  {
    if ks == [] then []
    else if Decide(mask, excluded, ks[0]) != Skip then
      var r := [ks[0]] + KeptKeys(mask, excluded, ks[1..]);
      assert r[1..] == KeptKeys(mask, excluded, ks[1..]);
      r
    else KeptKeys(mask, excluded, ks[1..])
  }

  /** The names of a projected object are those of the input members that are not dropped, in
    * their input order. */
  lemma {:induction false} ProjectKeys(mask: Mask, excluded: bool, ms: seq<Member>)
    ensures Keys(ProjectMembers(mask, excluded, ms)) == KeptKeys(mask, excluded, Keys(ms))
    decreases |ms|
  {
    if ms != [] {
      KeysAppend(ProjectMember(mask, excluded, ms[0]), ProjectMembers(mask, excluded, ms[1..]));
      ProjectKeys(mask, excluded, ms[1..]);
      assert Keys(ms)[0] == ms[0].key && Keys(ms)[1..] == Keys(ms[1..]);
    }
  }

  /** Output names are an order-preserving subsequence of the input names. */
  lemma {:induction false} KeyOrder(mask: Mask, excluded: bool, ms: seq<Member>)
    ensures Subsequence(Keys(ProjectMembers(mask, excluded, ms)), Keys(ms))
  {
    ProjectKeys(mask, excluded, ms);
  }

  /** The whitelist regime: a member survives exactly when the mask lists its name and the
    * entry is not a childless Negative. */
  lemma {:induction false} WhitelistKeys(mask: Mask, excluded: bool, ms: seq<Member>)
    requires mask.mode == Positive || excluded
    ensures forall k :: k in Keys(ProjectMembers(mask, excluded, ms)) <==>
      k in Keys(ms) && k in mask.fields && !(mask.fields[k].op == Negative && !HasChildren(mask.fields[k]))
  {
    ProjectKeys(mask, excluded, ms);
  }

  /** The blacklist regime: a member survives exactly when its name is not a childless
    * Negative entry of the mask. */
  lemma {:induction false} BlacklistKeys(mask: Mask, excluded: bool, ms: seq<Member>)
    requires mask.mode == Negative && !excluded
    ensures forall k :: k in Keys(ProjectMembers(mask, excluded, ms)) <==>
      k in Keys(ms) && !(k in mask.fields && mask.fields[k].op == Negative && !HasChildren(mask.fields[k]))
  {
    ProjectKeys(mask, excluded, ms);
  }

  /** What becomes of a surviving member: copied verbatim, or its value projected with the
    * entry's children (an override descends with them in Positive mode, excluded). */
  lemma {:induction false} KeptValue(mask: Mask, excluded: bool, ms: seq<Member>, i: nat)
    requires i < |ms|
    ensures || (ms[i].key !in mask.fields && !Whitelist(mask, excluded))
            || (ms[i].key in mask.fields && mask.fields[ms[i].key].op == Positive && !HasChildren(mask.fields[ms[i].key]))
            ==> ms[i] in ProjectMembers(mask, excluded, ms)
    ensures ms[i].key in mask.fields && HasChildren(mask.fields[ms[i].key]) ==>
      var n := mask.fields[ms[i].key];
      var x := n.op == Negative;
      var c := if x then Mask(Positive, n.children.value.fields) else n.children.value;
      Member(ms[i].key, Project(c, x, ms[i].value)) in ProjectMembers(mask, excluded, ms)
    decreases |ms|
  {
    if i > 0 {
      KeptValue(mask, excluded, ms[1..], i - 1);
      assert ms[1..][i - 1] == ms[i];
    }
  }

  /** Every element of an array is projected with the same mask and flag. */
  lemma {:induction false} ArraysInherit(mask: Mask, excluded: bool, items: seq<Json>, i: nat)
    requires i < |items|
    ensures ProjectItems(mask, excluded, items)[i] == Project(mask, excluded, items[i])
    decreases |items|
  {
    if i > 0 {
      ArraysInherit(mask, excluded, items[1..], i - 1);
      assert items[1..][i - 1] == items[i];
    }
  }

  lemma {:induction false} ProjectMembersAppend(mask: Mask, excluded: bool, a: seq<Member>, b: seq<Member>)
    ensures ProjectMembers(mask, excluded, a + b) == ProjectMembers(mask, excluded, a) + ProjectMembers(mask, excluded, b)
    decreases |a|
  {
    if a == [] {
      assert a + b == b;
    } else {
      assert (a + b)[0] == a[0] && (a + b)[1..] == a[1..] + b;
      ProjectMembersAppend(mask, excluded, a[1..], b);
    }
  }

  /** Projecting twice with the same mask is projecting once. */
  lemma {:induction false} ProjectIdempotent(mask: Mask, excluded: bool, v: Json)
    ensures Project(mask, excluded, Project(mask, excluded, v)) == Project(mask, excluded, v)
    decreases v
  {
    match v
    case Object(ms) => MembersIdempotent(mask, excluded, ms);
    case Array(items) => ItemsIdempotent(mask, excluded, items);
    case Leaf(_) =>
  }

  lemma {:induction false} MembersIdempotent(mask: Mask, excluded: bool, ms: seq<Member>)
    ensures ProjectMembers(mask, excluded, ProjectMembers(mask, excluded, ms)) == ProjectMembers(mask, excluded, ms)
    decreases ms
  {
    if ms != [] {
      ProjectMembersAppend(mask, excluded, ProjectMember(mask, excluded, ms[0]), ProjectMembers(mask, excluded, ms[1..]));
      MemberIdempotent(mask, excluded, ms[0]);
      MembersIdempotent(mask, excluded, ms[1..]);
    }
  }

  lemma {:induction false} MemberIdempotent(mask: Mask, excluded: bool, m: Member)
    ensures ProjectMembers(mask, excluded, ProjectMember(mask, excluded, m)) == ProjectMember(mask, excluded, m)
    decreases m
  {
    var once := ProjectMember(mask, excluded, m);
    if once != [] {
      assert once[1..] == [];
      match Decide(mask, excluded, m.key)
      case Raw =>
      case Masked(c, x) => ProjectIdempotent(c, x, m.value);
    }
  }

  lemma {:induction false} ItemsIdempotent(mask: Mask, excluded: bool, items: seq<Json>)
    ensures ProjectItems(mask, excluded, ProjectItems(mask, excluded, items)) == ProjectItems(mask, excluded, items)
    decreases items
  {
    if items != [] {
      var once := ProjectItems(mask, excluded, items);
      assert once[0] == Project(mask, excluded, items[0]) && once[1..] == ProjectItems(mask, excluded, items[1..]);
      ProjectIdempotent(mask, excluded, items[0]);
      ItemsIdempotent(mask, excluded, items[1..]);
    }
  }

  // ---------------------------------------------------------------------------------------
  // Reading and writing the token stream, one member or element at a time.

  /** The projection of the first of the remaining members is written before the others'. */
  lemma {:induction false} WriteProjected(mask: Mask, excluded: bool, rest: seq<Member>, written: seq<Token>, target: seq<Token>)
    requires rest != []
    requires written + (EncodeMembers(ProjectMembers(mask, excluded, rest)) + [EndObject]) == target
    ensures written + EncodeMembers(ProjectMember(mask, excluded, rest[0]))
              + (EncodeMembers(ProjectMembers(mask, excluded, rest[1..])) + [EndObject]) == target
  {
    WriteMembers(written, ProjectMember(mask, excluded, rest[0]), ProjectMembers(mask, excluded, rest[1..]), [EndObject]);
  }

  /** The projection of an object is written as its opening brace, then its projected members,
    * then its closing brace. */
  lemma {:induction false} OpenProjected(mask: Mask, excluded: bool, v: Json, written: seq<Token>)
    requires v.Object?
    ensures written + [BeginObject] + (EncodeMembers(ProjectMembers(mask, excluded, v.members)) + [EndObject])
         == written + Encode(Project(mask, excluded, v))
  {
  }

  /** The closing brace comes when no member is left, and then nothing remains to be written
    * but itself. */
  lemma {:induction false} CloseProjected(mask: Mask, excluded: bool, rest: seq<Member>, input: seq<Token>, tail: seq<Token>,
                                          written: seq<Token>, target: seq<Token>)
    requires input == EncodeMembers(rest) + ([EndObject] + tail) && input[0] == EndObject
    requires written + (EncodeMembers(ProjectMembers(mask, excluded, rest)) + [EndObject]) == target
    ensures input[1..] == tail && written + [EndObject] == target
  {
  }

  /** The projection of an array is written as its opening bracket, then its projected
    * elements, then its closing bracket. */
  lemma {:induction false} OpenProjectedArray(mask: Mask, excluded: bool, v: Json, written: seq<Token>)
    requires v.Array?
    ensures written + [BeginArray] + (EncodeItems(ProjectItems(mask, excluded, v.items)) + [EndArray])
         == written + Encode(Project(mask, excluded, v))
  {
  }

  /** The projection of the first of the remaining elements is written before the others'. */
  lemma {:induction false} WriteProjectedItem(mask: Mask, excluded: bool, rest: seq<Json>, written: seq<Token>, target: seq<Token>)
    requires rest != []
    requires written + (EncodeItems(ProjectItems(mask, excluded, rest)) + [EndArray]) == target
    ensures written + Encode(MaskedValue(Some(mask), excluded, rest[0]))
              + (EncodeItems(ProjectItems(mask, excluded, rest[1..])) + [EndArray]) == target
  {
    WriteElement(written, Project(mask, excluded, rest[0]), ProjectItems(mask, excluded, rest[1..]), [EndArray]);
  }

  /** The closing bracket comes when no element is left. */
  lemma {:induction false} CloseProjectedArray(mask: Mask, excluded: bool, rest: seq<Json>, input: seq<Token>, tail: seq<Token>,
                                               written: seq<Token>, target: seq<Token>)
    requires input == EncodeItems(rest) + ([EndArray] + tail) && input[0] == EndArray
    requires written + (EncodeItems(ProjectItems(mask, excluded, rest)) + [EndArray]) == target
    ensures input[1..] == tail && written + [EndArray] == target
  {
  }

  // ---------------------------------------------------------------------------------------
  // The closures of `MarshalWithMask`. The decoder is the sequence of tokens it has still to
  // read, which begins with the encoding of the value `v` at hand and continues with `tail`;
  // the encoder is the sequence of tokens written so far.

  /** `copyRaw`: the next value is written out token for token. */
  method CopyRaw(input: seq<Token>, out: seq<Token>, ghost v: Json, ghost tail: seq<Token>)
    returns (input': seq<Token>, out': seq<Token>)
    requires input == Encode(v) + tail
    ensures input' == tail && out' == out + Encode(v)
    decreases v, 1
  {
    if input[0] == BeginObject {
      input', out' := CopyRawObject(input, out, v, tail);
    } else if input[0] == BeginArray {
      input', out' := CopyRawArray(input, out, v, tail);
    } else {
      input', out' := input[1..], out + [input[0]];
    }
  }

  /** The object case of `copyRaw`: members are copied until the closing brace. */
  method CopyRawObject(input: seq<Token>, out: seq<Token>, ghost v: Json, ghost tail: seq<Token>)
    returns (input': seq<Token>, out': seq<Token>)
    requires input == Encode(v) + tail && v.Object?
    ensures input' == tail && out' == out + Encode(v)
    decreases v, 0
  {
    ReadOpen(v, tail);
    WriteOpen(out, v);
    input', out' := input[1..], out + [BeginObject];
    ghost var rest := v.members;
    while input'[0] != EndObject
      invariant input' == EncodeMembers(rest) + ([EndObject] + tail)
      invariant out' + (EncodeMembers(rest) + [EndObject]) == out + Encode(v)
      invariant forall m | m in rest :: m in v.members
      decreases |rest|
    {
      assert rest[0] in v.members;
      ReadMember(rest, [EndObject] + tail);
      WriteFirst(out', rest, [EndObject]);
      var key := input'[0].scalar.text;
      input', out' := CopyRaw(input'[1..], out' + [Atom(Str(key))], rest[0].value, EncodeMembers(rest[1..]) + ([EndObject] + tail));
      rest := rest[1..];
    }
    ReadCloseObject(rest, input', tail);
    input', out' := input'[1..], out' + [EndObject];
  }

  /** The array case of `copyRaw`: elements are copied until the closing bracket. */
  method CopyRawArray(input: seq<Token>, out: seq<Token>, ghost v: Json, ghost tail: seq<Token>)
    returns (input': seq<Token>, out': seq<Token>)
    requires input == Encode(v) + tail && v.Array?
    ensures input' == tail && out' == out + Encode(v)
    decreases v, 0
  {
    ReadOpen(v, tail);
    WriteOpen(out, v);
    input', out' := input[1..], out + [BeginArray];
    ghost var rest := v.items;
    while input'[0] != EndArray
      invariant input' == EncodeItems(rest) + ([EndArray] + tail)
      invariant out' + (EncodeItems(rest) + [EndArray]) == out + Encode(v)
      invariant forall x | x in rest :: x in v.items
      decreases |rest|
    {
      assert rest[0] in v.items;
      ReadItem(rest, [EndArray] + tail);
      WriteItem(out', rest, [EndArray]);
      input', out' := CopyRaw(input', out', rest[0], EncodeItems(rest[1..]) + ([EndArray] + tail));
      rest := rest[1..];
    }
    ReadCloseArray(rest, input', tail);
    input', out' := input'[1..], out' + [EndArray];
  }

  /** `jsontext.Decoder.SkipValue`: the next value is read and nothing is written. */
  method SkipValue(input: seq<Token>, ghost v: Json, ghost tail: seq<Token>) returns (input': seq<Token>)
    requires input == Encode(v) + tail
    ensures input' == tail
  {
    var ignored;
    input', ignored := CopyRaw(input, [], v, tail);
  }

  /** `copyMasked`: the next value is written out as projected by `mask`. */
  method CopyMasked(mask: Option<Mask>, excluded: bool, input: seq<Token>, out: seq<Token>, ghost v: Json, ghost tail: seq<Token>)
    returns (input': seq<Token>, out': seq<Token>)
    requires input == Encode(v) + tail
    ensures input' == tail && out' == out + Encode(MaskedValue(mask, excluded, v))
    decreases v, 3
  {
    if mask.None? {
      input', out' := CopyRaw(input, out, v, tail);
      return;
    }
    if input[0] == BeginObject {
      input', out' := CopyMaskedObject(mask.value, excluded, input, out, v, tail);
    } else if input[0] == BeginArray {
      input', out' := CopyMaskedArray(mask.value, excluded, input, out, v, tail);
    } else {
      input', out' := CopyRaw(input, out, v, tail);
    }
  }

  /** The object case of `copyMasked`: members are projected one by one until the closing
    * brace. */
  method CopyMaskedObject(mask: Mask, excluded: bool, input: seq<Token>, out: seq<Token>, ghost v: Json, ghost tail: seq<Token>)
    returns (input': seq<Token>, out': seq<Token>)
    requires input == Encode(v) + tail && v.Object?
    ensures input' == tail && out' == out + Encode(Project(mask, excluded, v))
    decreases v, 0
  {
    ReadOpen(v, tail);
    ghost var target := out + Encode(Project(mask, excluded, v));
    OpenProjected(mask, excluded, v, out);
    input', out' := input[1..], out + [BeginObject];
    ghost var rest := v.members;
    while input'[0] != EndObject
      invariant input' == EncodeMembers(rest) + ([EndObject] + tail)
      invariant out' + (EncodeMembers(ProjectMembers(mask, excluded, rest)) + [EndObject]) == target
      invariant forall m | m in rest :: m in v.members
      decreases |rest|
    {
      assert rest[0] in v.members;
      ReadFirst(rest, [EndObject] + tail);
      WriteProjected(mask, excluded, rest, out', target);
      input', out' := CopyMaskedMember(mask, excluded, input', out', rest[0], EncodeMembers(rest[1..]) + ([EndObject] + tail));
      rest := rest[1..];
    }
    CloseProjected(mask, excluded, rest, input', tail, out', target);
    input', out' := input'[1..], out' + [EndObject];
  }

  /** One member inside the object loop of `copyMasked`: its name is read, then it is dropped,
    * copied or filtered, choosing the whitelist or the blacklist regime from the mask's mode
    * and `excluded`. */
  method CopyMaskedMember(mask: Mask, excluded: bool, input: seq<Token>, out: seq<Token>, ghost m: Member, ghost tail: seq<Token>)
    returns (input': seq<Token>, out': seq<Token>)
    requires input == EncodeMember(m) + tail
    ensures input' == tail && out' == out + EncodeMembers(ProjectMember(mask, excluded, m))
    decreases m, 2
  {
    var key := input[0].scalar.text;
    input' := input[1..];
    var ok := key in mask.fields;
    var node := if ok then mask.fields[key] else Node(Positive, None);
    if mask.mode == Positive || excluded {
      if !ok || (node.op == Negative && !HasChildren(node)) {
        input' := SkipValue(input', m.value, tail);
        out' := out;
      } else if ok && node.op == Negative && HasChildren(node) {
        input', out' := CopyMasked(Some(Mask(Positive, node.children.value.fields)), true, input', out + [Atom(Str(key))], m.value, tail);
      } else if HasChildren(node) {
        input', out' := CopyMasked(node.children, false, input', out + [Atom(Str(key))], m.value, tail);
      } else {
        input', out' := CopyRaw(input', out + [Atom(Str(key))], m.value, tail);
      }
    } else {
      if ok && node.op == Negative {
        if !HasChildren(node) {
          input' := SkipValue(input', m.value, tail);
          out' := out;
        } else {
          input', out' := CopyMasked(Some(Mask(Positive, node.children.value.fields)), true, input', out + [Atom(Str(key))], m.value, tail);
        }
      } else if ok && HasChildren(node) {
        input', out' := CopyMasked(node.children, false, input', out + [Atom(Str(key))], m.value, tail);
      } else {
        input', out' := CopyRaw(input', out + [Atom(Str(key))], m.value, tail);
      }
    }
    WriteOne(out, ProjectMember(mask, excluded, m));
  }

  /** The array case of `copyMasked`: every element is projected with the same mask and flag. */
  method CopyMaskedArray(mask: Mask, excluded: bool, input: seq<Token>, out: seq<Token>, ghost v: Json, ghost tail: seq<Token>)
    returns (input': seq<Token>, out': seq<Token>)
    requires input == Encode(v) + tail && v.Array?
    ensures input' == tail && out' == out + Encode(Project(mask, excluded, v))
    decreases v, 0
  {
    ReadOpen(v, tail);
    ghost var target := out + Encode(Project(mask, excluded, v));
    OpenProjectedArray(mask, excluded, v, out);
    input', out' := input[1..], out + [BeginArray];
    ghost var rest := v.items;
    while input'[0] != EndArray
      invariant input' == EncodeItems(rest) + ([EndArray] + tail)
      invariant out' + (EncodeItems(ProjectItems(mask, excluded, rest)) + [EndArray]) == target
      invariant forall x | x in rest :: x in v.items
      decreases |rest|
    {
      assert rest[0] in v.items;
      ReadItem(rest, [EndArray] + tail);
      WriteProjectedItem(mask, excluded, rest, out', target);
      input', out' := CopyMasked(Some(mask), excluded, input', out', rest[0], EncodeItems(rest[1..]) + ([EndArray] + tail));
      rest := rest[1..];
    }
    CloseProjectedArray(mask, excluded, rest, input', tail, out', target);
    input', out' := input'[1..], out' + [EndArray];
  }

  /** `MarshalWithMask(m)` applied to `v`: `v` is serialised, then copied through the mask. */
  method MarshalWithMask(m: Option<Mask>, v: Json) returns (out: seq<Token>)
    ensures out == Encode(MaskedValue(m, false, v))
  {
    var input := Encode(v);
    var rest;
    assert input == Encode(v) + [];
    rest, out := CopyMasked(m, false, input, [], v, []);
  }

  // ---------------------------------------------------------------------------------------
  // `MaskUnmarshalers`: a JSON object of nested objects, booleans and numbers decoded into a
  // mask.

  datatype DecodeError = DuplicateField(name: string) | UnexpectedType(name: string)

  /** What decoding into a mask `v` gives: a value that is not an object is passed over
    * (`json.SkipFunc`) and `v` is left as it was. */
  datatype DecodeOutcome = Skipped | Decoded(mask: Mask) | Failed(error: DecodeError)

  /** A level being decoded: its entries so far, and whether a Positive or a Negative one was
    * decoded into it. */
  datatype Level = Level(fields: Fields, hasPos: bool, hasNeg: bool)

  /** The mode a decoded level gets: Negative iff it saw a Negative entry and no Positive one. */
  function LevelMode(l: Level): (mode: Op)
    ensures mode == Negative <==> l.hasNeg && !l.hasPos
  {
    if !l.hasPos && l.hasNeg then Negative else Positive
  }

  /** The op a scalar entry stands for: `true` and non-negative numbers are Positive, `false`
    * and negative numbers Negative; `null` and strings are not accepted. */
  function LeafOp(s: Scalar): (r: Option<Op>)
    ensures r.Some? <==> s.Bool? || s.Number?
    ensures r == Some(Negative) <==> s == Bool(false) || s == Number(true)
  {
    match s
    case Bool(b) => Some(if b then Positive else Negative)
    case Number(negative) => Some(if negative then Negative else Positive)
    case _ => None
  }

  /** The op of the entry an acceptable value decodes to. */
  function EntryOp(value: Json): Op {
    if value.Leaf? && LeafOp(value.scalar) == Some(Negative) then Negative else Positive
  }

  /** The node the value of entry `key` decodes to: a nested object becomes a Positive node
    * with the decoded children; a boolean or a number a childless node; anything else is an
    * error. */
  function DecodeEntry(key: string, value: Json): (r: Result<Node, DecodeError>)
    ensures r.Ok? ==> r.value.op == EntryOp(value)
    ensures r.Ok? && value.Object? ==> r.value.op == Positive && r.value.children.Some?
    ensures r.Ok? && !value.Object? ==> r.value.children.None?
    ensures value.Array? ==> r == Err(UnexpectedType(key))
    decreases value
  {
    match value
    case Object(ms) =>
      (match DecodeMembers(Level(map[], false, false), ms)
       case Err(e) => Err(e)
       case Ok(l) => Ok(Node(Positive, Some(Mask(LevelMode(l), l.fields)))))
    case Array(_) => Err(UnexpectedType(key))
    case Leaf(s) =>
      (match LeafOp(s)
       case None => Err(UnexpectedType(key))
       case Some(op) => Ok(Node(op, None)))
  }

  /** The members `ms` decoded one after the other into level `l`; a name already in the
    * level is an error. */
  function DecodeMembers(l: Level, ms: seq<Member>): (r: Result<Level, DecodeError>)
    decreases ms
  {
    if ms == [] then Ok(l)
    else if ms[0].key in l.fields then Err(DuplicateField(ms[0].key))
    else
      match DecodeEntry(ms[0].key, ms[0].value)
      case Err(e) => Err(e)
      case Ok(n) =>
        DecodeMembers(Level(l.fields[ms[0].key := n], l.hasPos || n.op == Positive, l.hasNeg || n.op == Negative), ms[1..])
  }

  /** Decoding `j` into `v`: the entries of `v` are kept, and names are checked against them. */
  function Unmarshal(v: Mask, j: Json): DecodeOutcome {
    if !j.Object? then Skipped
    else
      match DecodeMembers(Level(v.fields, false, false), j.members)
      case Err(e) => Failed(e)
      case Ok(l) => Decoded(Mask(LevelMode(l), l.fields))
  }

  // ---------------------------------------------------------------------------------------
  // Properties of the decoder.

  /** No name of `ks` is in `used` or repeats an earlier one. */
  predicate FreshKeys(used: set<string>, ks: seq<string>)
    decreases |ks|
  {
    ks == [] || (ks[0] !in used && FreshKeys(used + {ks[0]}, ks[1..]))
  }

  /** `FreshKeys` from nothing used: the names are pairwise distinct. */
  lemma {:induction false} FreshKeysDistinct(used: set<string>, ks: seq<string>)
    ensures FreshKeys(used, ks) <==>
      (forall i | 0 <= i < |ks| :: ks[i] !in used) && (forall i, j | 0 <= i < j < |ks| :: ks[i] != ks[j])
    decreases |ks|
  {
    if ks != [] {
      FreshKeysDistinct(used + {ks[0]}, ks[1..]);
      if (forall i | 0 <= i < |ks| :: ks[i] !in used) && (forall i, j | 0 <= i < j < |ks| :: ks[i] != ks[j]) {
        forall i | 0 <= i < |ks| - 1 ensures ks[1..][i] !in used + {ks[0]} {
          assert ks[1..][i] == ks[i + 1];
        }
      }
      if FreshKeys(used, ks) {
        forall i, j | 0 <= i < j < |ks| ensures ks[i] != ks[j] {
          assert ks[j] == ks[1..][j - 1];
          if i > 0 {
            assert ks[i] == ks[1..][i - 1];
          }
        }
        forall i | 0 <= i < |ks| ensures ks[i] !in used {
          if i > 0 {
            assert ks[i] == ks[1..][i - 1];
          }
        }
      }
    }
  }

  /** A value the decoder accepts: an object whose names are pairwise distinct and whose values
    * are all acceptable, a boolean or a number. */
  predicate Acceptable(j: Json)
    decreases j
  {
    match j
    case Object(ms) =>
      && (forall a, b | 0 <= a < b < |ms| :: ms[a].key != ms[b].key)
      && (forall i | 0 <= i < |ms| :: Acceptable(ms[i].value))
    case Array(_) => false
    case Leaf(s) => s.Bool? || s.Number?
  }

  lemma {:induction false} AcceptableCons(ms: seq<Member>)
    requires ms != []
    ensures (forall i | 0 <= i < |ms| :: Acceptable(ms[i].value)) <==>
      Acceptable(ms[0].value) && (forall i | 0 <= i < |ms[1..]| :: Acceptable(ms[1..][i].value))
  {
    if Acceptable(ms[0].value) && (forall i | 0 <= i < |ms[1..]| :: Acceptable(ms[1..][i].value)) {
      forall i | 1 <= i < |ms| ensures Acceptable(ms[i].value) {
        assert ms[i] == ms[1..][i - 1];
      }
    }
  }

  /** Decoding an entry succeeds exactly on acceptable values. */
  lemma {:induction false} EntryAccepted(key: string, value: Json)
    ensures DecodeEntry(key, value).Ok? <==> Acceptable(value)
    decreases value
  {
    if value.Object? {
      var ms := value.members;
      var empty := Level(map[], false, false);
      MembersAccepted(empty, ms);
      assert empty.fields.Keys == {};
      FreshKeysDistinct({}, Keys(ms));
      assert (forall a, b | 0 <= a < b < |ms| :: ms[a].key != ms[b].key) <==>
             (forall a, b | 0 <= a < b < |ms| :: Keys(ms)[a] != Keys(ms)[b]);
    }
  }

  /** Decoding members into `l` succeeds exactly when no name is already in `l` or repeats an
    * earlier one, and every value is acceptable. */
  lemma {:induction false} MembersAccepted(l: Level, ms: seq<Member>)
    ensures DecodeMembers(l, ms).Ok? <==>
      FreshKeys(l.fields.Keys, Keys(ms)) && forall i | 0 <= i < |ms| :: Acceptable(ms[i].value)
    decreases ms
  {
    if ms != [] {
      var k := ms[0].key;
      EntryAccepted(k, ms[0].value);
      AcceptableCons(ms);
      assert Keys(ms)[0] == k && Keys(ms)[1..] == Keys(ms[1..]);
      var e := DecodeEntry(k, ms[0].value);
      if k !in l.fields && e.Ok? {
        var n := e.value;
        var l' := Level(l.fields[k := n], l.hasPos || n.op == Positive, l.hasNeg || n.op == Negative);
        MembersAccepted(l', ms[1..]);
        assert l'.fields.Keys == l.fields.Keys + {k};
      }
    }
  }

  /** Some member's value decodes to an entry with `op`. */
  predicate AnyOp(ms: seq<Member>, op: Op)
    decreases |ms|
  {
    ms != [] && (EntryOp(ms[0].value) == op || AnyOp(ms[1..], op))
  }

  /** The flags of a decoded level say whether some decoded member is Positive / Negative, and
    * so do the level's entries. */
  lemma {:induction false} DecodedOps(l: Level, ms: seq<Member>, op: Op)
    requires DecodeMembers(l, ms).Ok?
    ensures var r := DecodeMembers(l, ms).value;
      && (r.hasPos <==> l.hasPos || AnyOp(ms, Positive))
      && (r.hasNeg <==> l.hasNeg || AnyOp(ms, Negative))
      && (HasOp(r.fields, op) <==> HasOp(l.fields, op) || AnyOp(ms, op))
    decreases ms
  {
    if ms != [] {
      var k := ms[0].key;
      var n := DecodeEntry(k, ms[0].value).value;
      var l' := Level(l.fields[k := n], l.hasPos || n.op == Positive, l.hasNeg || n.op == Negative);
      DecodedOps(l', ms[1..], op);
      HasOpUpdate(l.fields, k, n, op);
    }
  }

  /** A decoded level holds one entry per member, with what the member's value decodes to, and
    * the entries it had before. */
  lemma {:induction false} DecodedEntries(l: Level, ms: seq<Member>)
    requires DecodeMembers(l, ms).Ok?
    ensures var r := DecodeMembers(l, ms).value;
      && (forall k :: k in r.fields <==> k in l.fields || k in Keys(ms))
      && (forall k | k in l.fields :: r.fields[k] == l.fields[k])
      && (forall i | 0 <= i < |ms| :: ms[i].key in r.fields && DecodeEntry(ms[i].key, ms[i].value) == Ok(r.fields[ms[i].key]))
    decreases ms
  {
    if ms != [] {
      var k := ms[0].key;
      var n := DecodeEntry(k, ms[0].value).value;
      var l' := Level(l.fields[k := n], l.hasPos || n.op == Positive, l.hasNeg || n.op == Negative);
      DecodedEntries(l', ms[1..]);
      assert Keys(ms) == [k] + Keys(ms[1..]);
      forall i | 1 <= i < |ms| ensures ms[i] == ms[1..][i - 1] { }
    }
  }

  /** The mode `MaskUnmarshalers` gives the decoded level: Negative iff some decoded member is
    * Negative and none is Positive; into an empty mask, the mode derived from the level's
    * entries. */
  lemma {:induction false} UnmarshalMode(v: Mask, j: Json)
    requires Unmarshal(v, j).Decoded?
    ensures Unmarshal(v, j).mask.mode == Negative <==> AnyOp(j.members, Negative) && !AnyOp(j.members, Positive)
    ensures v.fields == map[] ==> Unmarshal(v, j).mask.mode == DeriveMode(Unmarshal(v, j).mask.fields)
  {
    DecodedOps(Level(v.fields, false, false), j.members, Positive);
    DecodedOps(Level(v.fields, false, false), j.members, Negative);
  }

  // ---------------------------------------------------------------------------------------
  // The decoding function of `MaskUnmarshalers`.

  /** One member decoded into a level, as the loop of `MaskUnmarshalers` does it. */
  lemma {:induction false} DecodeStep(l: Level, ms: seq<Member>, n: Node)
    requires ms != [] && ms[0].key !in l.fields && DecodeEntry(ms[0].key, ms[0].value) == Ok(n)
    ensures DecodeMembers(l, ms)
         == DecodeMembers(Level(l.fields[ms[0].key := n], l.hasPos || n.op == Positive, l.hasNeg || n.op == Negative), ms[1..])
  {
  }

  /** The value of entry `key`: a nested object is decoded by a recursive invocation into an
    * empty mask, a boolean or a number is read as a token. */
  method DecodeValue(key: string, input: seq<Token>, ghost value: Json, ghost tail: seq<Token>)
    returns (r: Result<Node, DecodeError>, input': seq<Token>)
    requires input == Encode(value) + tail
    ensures r == DecodeEntry(key, value)
    ensures r.Ok? ==> input' == tail
    decreases value, 1
  {
    if input[0] == BeginObject {
      var child;
      child, input' := UnmarshalMask(input, EmptyMask, value, tail);
      if child.Failed? {
        return Err(child.error), input';
      }
      r := Ok(Node(Positive, Some(child.mask)));
    } else if input[0].Atom? && input[0].scalar.Bool? {
      r := Ok(Node(if input[0].scalar.b then Positive else Negative, None));
      input' := input[1..];
    } else if input[0].Atom? && input[0].scalar.Number? {
      r := Ok(Node(if input[0].scalar.negative then Negative else Positive, None));
      input' := input[1..];
    } else {
      r, input' := Err(UnexpectedType(key)), input;
    }
  }

  /** The function `MaskUnmarshalers` installs, decoding the value at the head of `input` into
    * `v`. */
  method UnmarshalMask(input: seq<Token>, v: Mask, ghost j: Json, ghost tail: seq<Token>)
    returns (r: DecodeOutcome, input': seq<Token>)
    requires input == Encode(j) + tail
    ensures r == Unmarshal(v, j)
    ensures r.Skipped? ==> input' == input
    ensures r.Decoded? ==> input' == tail
    decreases j, 0
  {
    if input[0] != BeginObject {
      return Skipped, input;
    }
    ReadOpen(j, tail);
    input' := input[1..];
    var fields := v.fields;
    var hasPos, hasNeg := false, false;
    ghost var rest := j.members;
    while input'[0] != EndObject
      invariant input' == EncodeMembers(rest) + ([EndObject] + tail)
      invariant DecodeMembers(Level(v.fields, false, false), j.members) == DecodeMembers(Level(fields, hasPos, hasNeg), rest)
      invariant forall m | m in rest :: m in j.members
      decreases |rest|
    {
      assert rest[0] in j.members;
      ghost var value, after := rest[0].value, EncodeMembers(rest[1..]) + ([EndObject] + tail);
      ReadMember(rest, [EndObject] + tail);
      var key := input'[0].scalar.text;
      input' := input'[1..];
      if key in fields {
        return Failed(DuplicateField(key)), input';
      }
      var entry;
      entry, input' := DecodeValue(key, input', value, after);
      if entry.Err? {
        return Failed(entry.error), input';
      }
      var node := entry.value;
      DecodeStep(Level(fields, hasPos, hasNeg), rest, node);
      fields := fields[key := node];
      if node.op == Positive {
        hasPos := true;
      } else {
        hasNeg := true;
      }
      rest := rest[1..];
    }
    ReadCloseObject(rest, input', tail);
    input' := input'[1..];
    r := Decoded(Mask(if !hasPos && hasNeg then Negative else Positive, fields));
  }
}
