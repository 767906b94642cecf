/**
 * JSON values (RFC 8259 sections 3-5) and the token stream `jsontext` reads and writes them as.
 * Object members keep their order and may repeat names; a number is represented by its sign
 * only, which is all the mask code looks at.
 */
module JsonValues {

  datatype Scalar = Null | Bool(b: bool) | Number(negative: bool) | Str(text: string)

  datatype Member = Member(key: string, value: Json)

  datatype Json = Object(members: seq<Member>) | Array(items: seq<Json>) | Leaf(scalar: Scalar)

  /** A `jsontext.Token`: object and array delimiters, or a scalar (object names are strings). */
  datatype Token = BeginObject | EndObject | BeginArray | EndArray | Atom(scalar: Scalar)

  /** The tokens of a value, in the order `jsontext.Decoder.ReadToken` returns them. */
  function Encode(v: Json): (r: seq<Token>)
    ensures |r| > 0 && r[0] != EndObject && r[0] != EndArray
    ensures v.Object? <==> r[0] == BeginObject
    ensures v.Array? <==> r[0] == BeginArray
  {
    match v
    case Object(ms) => [BeginObject] + EncodeMembers(ms) + [EndObject]
    case Array(items) => [BeginArray] + EncodeItems(items) + [EndArray]
    case Leaf(s) => [Atom(s)]
  }

  /** A member: its name as a string token, then its value. */
  function EncodeMember(m: Member): (r: seq<Token>)
    ensures |r| > 0 && r[0] == Atom(Str(m.key))
  {
    [Atom(Str(m.key))] + Encode(m.value)
  }

  function EncodeMembers(ms: seq<Member>): (r: seq<Token>)
    ensures ms != [] ==> |r| > 0 && r[0] == Atom(Str(ms[0].key))
  {
    if ms == [] then [] else EncodeMember(ms[0]) + EncodeMembers(ms[1..])
  }

  function EncodeItems(items: seq<Json>): (r: seq<Token>)
    ensures items != [] ==> |r| > 0 && r[0] != EndArray
  {
    if items == [] then [] else Encode(items[0]) + EncodeItems(items[1..])
  }

  /** The names of an object's members, in order. */
  function Keys(ms: seq<Member>): (r: seq<string>)
    ensures |r| == |ms|
    ensures forall i | 0 <= i < |ms| :: r[i] == ms[i].key
  {
    if ms == [] then [] else [ms[0].key] + Keys(ms[1..])
  }

  /** `ks` is `big` with some elements left out, the rest in their original order. */
  predicate Subsequence(ks: seq<string>, big: seq<string>)
    decreases |big|
  {
    if big == [] then ks == []
    else (ks != [] && ks[0] == big[0] && Subsequence(ks[1..], big[1..])) || Subsequence(ks, big[1..])
  }

  /** The names of two runs of members, one after the other. */
  lemma {:induction false} KeysAppend(a: seq<Member>, b: seq<Member>)
    ensures Keys(a + b) == Keys(a) + Keys(b)
  {
  }

  // ---------------------------------------------------------------------------------------
  // A token stream: what a decoder has still to read is the encoding of the next value
  // followed by whatever comes after it.

  /** After the opening token of an object or array: its members or elements, its closing
    * token, and the rest of the stream. */
  lemma {:induction false} ReadOpen(v: Json, rest: seq<Token>)
    requires !v.Leaf?
    ensures v.Object? ==> Encode(v) + rest == [BeginObject] + (EncodeMembers(v.members) + ([EndObject] + rest))
    ensures v.Array? ==> Encode(v) + rest == [BeginArray] + (EncodeItems(v.items) + ([EndArray] + rest))
  {
  }

  /** Writing an object or array: its opening token, its members or elements, its closing
    * token. */
  lemma {:induction false} WriteOpen(written: seq<Token>, v: Json)
    requires !v.Leaf?
    ensures v.Object? ==> written + [BeginObject] + (EncodeMembers(v.members) + [EndObject]) == written + Encode(v)
    ensures v.Array? ==> written + [BeginArray] + (EncodeItems(v.items) + [EndArray]) == written + Encode(v)
  {
  }

  /** The closing brace is read only when no member is left. */
  lemma {:induction false} ReadCloseObject(ms: seq<Member>, input: seq<Token>, rest: seq<Token>)
    requires input == EncodeMembers(ms) + ([EndObject] + rest) && input[0] == EndObject
    ensures ms == [] && input[1..] == rest
  {
  }

  /** The closing bracket is read only when no element is left. */
  lemma {:induction false} ReadCloseArray(items: seq<Json>, input: seq<Token>, rest: seq<Token>)
    requires input == EncodeItems(items) + ([EndArray] + rest) && input[0] == EndArray
    ensures items == [] && input[1..] == rest
  {
  }

  /** The first of the remaining members: its name, its value, then the others. */
  lemma {:induction false} ReadMember(ms: seq<Member>, rest: seq<Token>)
    requires ms != []
    ensures EncodeMembers(ms) + rest == [Atom(Str(ms[0].key))] + (Encode(ms[0].value) + (EncodeMembers(ms[1..]) + rest))
  {
  }

  /** The first of the remaining members as a whole, then the others. */
  lemma {:induction false} ReadFirst(ms: seq<Member>, rest: seq<Token>)
    requires ms != []
    ensures EncodeMembers(ms) + rest == EncodeMember(ms[0]) + (EncodeMembers(ms[1..]) + rest)
  {
  }

  /** The first of the remaining elements, then the others. */
  lemma {:induction false} ReadItem(items: seq<Json>, rest: seq<Token>)
    requires items != []
    ensures EncodeItems(items) + rest == Encode(items[0]) + (EncodeItems(items[1..]) + rest)
  {
  }

  /** Writing a member whose name and value come out separately. */
  lemma {:induction false} WriteMember(written: seq<Token>, m: Member, ms: seq<Member>, rest: seq<Token>)
    ensures written + [Atom(Str(m.key))] + Encode(m.value) + (EncodeMembers(ms) + rest)
         == written + (EncodeMembers([m] + ms) + rest)
  {
    assert ([m] + ms)[0] == m && ([m] + ms)[1..] == ms;
  }

  /** Writing the first of the members still to be written. */
  lemma {:induction false} WriteFirst(written: seq<Token>, ms: seq<Member>, rest: seq<Token>)
    requires ms != []
    ensures written + [Atom(Str(ms[0].key))] + Encode(ms[0].value) + (EncodeMembers(ms[1..]) + rest)
         == written + (EncodeMembers(ms) + rest)
  {
  }

  /** Writing two runs of members one after the other. */
  lemma {:induction false} WriteMembers(written: seq<Token>, a: seq<Member>, b: seq<Member>, rest: seq<Token>)
    ensures written + EncodeMembers(a) + (EncodeMembers(b) + rest) == written + (EncodeMembers(a + b) + rest)
  {
    EncodeMembersAppend(a, b);
  }

  lemma {:induction false} EncodeMembersAppend(a: seq<Member>, b: seq<Member>)
    ensures EncodeMembers(a + b) == EncodeMembers(a) + EncodeMembers(b)
    decreases |a|
  {
    if a == [] {
      assert a + b == b;
    } else {
      assert (a + b)[0] == a[0] && (a + b)[1..] == a[1..] + b;
      EncodeMembersAppend(a[1..], b);
      assert EncodeMembers(a + b) == EncodeMember(a[0]) + (EncodeMembers(a[1..]) + EncodeMembers(b));
    }
  }

  /** A run of at most one member, written as its name and then its value. */
  lemma {:induction false} WriteOne(written: seq<Token>, ms: seq<Member>)
    requires |ms| <= 1
    ensures ms == [] ==> written + EncodeMembers(ms) == written
    ensures ms != [] ==> written + [Atom(Str(ms[0].key))] + Encode(ms[0].value) == written + EncodeMembers(ms)
  {
  }

  /** Writing an element given apart from the ones after it. */
  lemma {:induction false} WriteElement(written: seq<Token>, v: Json, items: seq<Json>, rest: seq<Token>)
    ensures written + Encode(v) + (EncodeItems(items) + rest) == written + (EncodeItems([v] + items) + rest)
  {
    assert ([v] + items)[0] == v && ([v] + items)[1..] == items;
  }

  /** Writing the first of the elements still to be written. */
  lemma {:induction false} WriteItem(written: seq<Token>, items: seq<Json>, rest: seq<Token>)
    requires items != []
    ensures written + Encode(items[0]) + (EncodeItems(items[1..]) + rest) == written + (EncodeItems(items) + rest)
  {
  }
}
