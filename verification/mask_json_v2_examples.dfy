/**
 * The cases of mask_json_v2_test.go on the sample document
 * `{"a":"va","b":"vb","c":{"d":1,"e":2},"z":{"x":10,"y":20}}`, and on an array of two copies.
 */
module MaskJsonV2Examples {
  import opened Wrappers
  import opened Masks
  import opened JsonValues
  import opened MaskJsonV2

  /** A non-negative number (only its sign is modelled). */
  function Pos(): Json { Leaf(Number(false)) }

  /** `-z:(x)` under a Positive root keeps only `z`, filtered to `x`: `{"z":{"x":10}}`. */
  lemma ExampleOverride(mask: Mask, v: Json, c: Json, z: Json)
    requires c == Object([Member("d", Pos()), Member("e", Pos())])
    requires z == Object([Member("x", Pos()), Member("y", Pos())])
    requires v == Object([Member("a", Leaf(Str("va"))), Member("b", Leaf(Str("vb"))), Member("c", c), Member("z", z)])
    requires mask == Mask(Positive, map["z" := Node(Negative, Some(Mask(Positive, map["x" := Node(Positive, None)])))])
    ensures MaskedValue(Some(mask), false, v) == Object([Member("z", Object([Member("x", Pos())]))])
  {
    var child := Mask(Positive, map["x" := Node(Positive, None)]);
    assert "x" in child.fields && mask.fields.Keys == {"z"};
    assert Override(mask.fields["z"]) == child;
    assert ProjectMembers(child, true, z.members) == [Member("x", Pos())] by {
      assert z.members[1..] == [Member("y", Pos())];
      assert z.members[1..][1..] == [];
    }
    var ms := v.members;
    assert ms[1..][1..][1..] == [Member("z", z)];
    assert ProjectMember(mask, false, ms[1..][1..][1..][0]) == [Member("z", Object([Member("x", Pos())]))];
    assert ProjectMembers(mask, false, ms[1..][1..][1..]) == [Member("z", Object([Member("x", Pos())]))] by {
      assert ms[1..][1..][1..][1..] == [];
    }
    Dropped(mask, false, ms[1..][1..]);
    Dropped(mask, false, ms[1..]);
    Dropped(mask, false, ms);
  }

  /** `-c:(-e)` under a Negative root keeps every other field and filters `c` to `{}`. */
  lemma ExampleExclude(mask: Mask, v: Json, c: Json, z: Json)
    requires c == Object([Member("d", Pos()), Member("e", Pos())])
    requires z == Object([Member("x", Pos()), Member("y", Pos())])
    requires v == Object([Member("a", Leaf(Str("va"))), Member("b", Leaf(Str("vb"))), Member("c", c), Member("z", z)])
    requires mask == Mask(Negative, map["c" := Node(Negative, Some(Mask(Positive, map["e" := Node(Negative, None)])))])
    ensures MaskedValue(Some(mask), false, v)
         == Object([Member("a", Leaf(Str("va"))), Member("b", Leaf(Str("vb"))), Member("c", Object([])), Member("z", z)])
  {
    var child := Mask(Positive, map["e" := Node(Negative, None)]);
    assert "e" in child.fields && mask.fields.Keys == {"c"};
    assert Override(mask.fields["c"]) == child;
    assert ProjectMembers(child, true, c.members) == [] by {
      Dropped(child, true, c.members);
      Dropped(child, true, c.members[1..]);
    }
    var ms := v.members;
    assert ms[1..][1..][1..] == [Member("z", z)];
    assert ProjectMembers(mask, false, ms[1..][1..][1..]) == [Member("z", z)] by {
      assert ms[1..][1..][1..][1..] == [];
    }
    Kept(mask, false, ms[1..][1..], [Member("c", Object([]))]);
    Kept(mask, false, ms[1..], [ms[1]]);
    Kept(mask, false, ms, [ms[0]]);
  }

  /** `a,c:(d)` under a Positive root keeps `a` and `c`, filtered to `d`: `{"a":"va","c":{"d":1}}`. */
  lemma ExamplePositiveRoot(mask: Mask, v: Json, c: Json, z: Json)
    requires c == Object([Member("d", Pos()), Member("e", Pos())])
    requires z == Object([Member("x", Pos()), Member("y", Pos())])
    requires v == Object([Member("a", Leaf(Str("va"))), Member("b", Leaf(Str("vb"))), Member("c", c), Member("z", z)])
    requires mask == Mask(Positive, map["a" := Node(Positive, None),
                                        "c" := Node(Positive, Some(Mask(Positive, map["d" := Node(Positive, None)])))])
    ensures MaskedValue(Some(mask), false, v)
         == Object([Member("a", Leaf(Str("va"))), Member("c", Object([Member("d", Pos())]))])
  {
    var child := Mask(Positive, map["d" := Node(Positive, None)]);
    assert "d" in child.fields && "e" !in child.fields;
    assert "a" in mask.fields && "b" !in mask.fields && "z" !in mask.fields && mask.fields["c"].children == Some(child);
    FirstOnly(child, false, c.members);
    var ms := v.members;
    assert ms[1..][1..][1..] == [Member("z", z)];
    assert ProjectMembers(mask, false, ms[1..][1..][1..]) == [] by {
      Dropped(mask, false, ms[1..][1..][1..]);
      assert ms[1..][1..][1..][1..] == [];
    }
    Kept(mask, false, ms[1..][1..], [Member("c", Object([Member("d", Pos())]))]);
    Dropped(mask, false, ms[1..]);
    Kept(mask, false, ms, [ms[0]]);
  }

  /** `-b,-c:(-e)` under a Negative root drops `b` and filters `c` to `{}`:
    * `{"a":"va","c":{},"z":{"x":10,"y":20}}`. */
  lemma ExampleNegativeRoot(mask: Mask, v: Json, c: Json, z: Json)
    requires c == Object([Member("d", Pos()), Member("e", Pos())])
    requires z == Object([Member("x", Pos()), Member("y", Pos())])
    requires v == Object([Member("a", Leaf(Str("va"))), Member("b", Leaf(Str("vb"))), Member("c", c), Member("z", z)])
    requires mask == Mask(Negative, map["b" := Node(Negative, None),
                                        "c" := Node(Negative, Some(Mask(Positive, map["e" := Node(Negative, None)])))])
    ensures MaskedValue(Some(mask), false, v)
         == Object([Member("a", Leaf(Str("va"))), Member("c", Object([])), Member("z", z)])
  {
    var child := Mask(Positive, map["e" := Node(Negative, None)]);
    assert "e" in child.fields && "d" !in child.fields;
    assert "a" !in mask.fields && "b" in mask.fields && "z" !in mask.fields;
    assert Override(mask.fields["c"]) == child;
    assert ProjectMembers(child, true, c.members) == [] by {
      Dropped(child, true, c.members);
      Dropped(child, true, c.members[1..]);
    }
    var ms := v.members;
    assert ms[1..][1..][1..] == [Member("z", z)];
    assert ProjectMembers(mask, false, ms[1..][1..][1..]) == [Member("z", z)] by {
      assert ms[1..][1..][1..][1..] == [];
    }
    Kept(mask, false, ms[1..][1..], [Member("c", Object([]))]);
    Dropped(mask, false, ms[1..]);
    Kept(mask, false, ms, [ms[0]]);
  }

  /** `a,-b,c:(d,-e),-z:(x)`: `{"a":"va","c":{"d":1},"z":{"x":10}}`. */
  lemma ExampleMixed(mask: Mask, v: Json, c: Json, z: Json)
    requires c == Object([Member("d", Pos()), Member("e", Pos())])
    requires z == Object([Member("x", Pos()), Member("y", Pos())])
    requires v == Object([Member("a", Leaf(Str("va"))), Member("b", Leaf(Str("vb"))), Member("c", c), Member("z", z)])
    requires mask == Mask(Positive, map["a" := Node(Positive, None), "b" := Node(Negative, None),
                                        "c" := Node(Positive, Some(Mask(Positive, map["d" := Node(Positive, None),
                                                                                      "e" := Node(Negative, None)]))),
                                        "z" := Node(Negative, Some(Mask(Positive, map["x" := Node(Positive, None)])))])
    ensures MaskedValue(Some(mask), false, v)
         == Object([Member("a", Leaf(Str("va"))), Member("c", Object([Member("d", Pos())])),
                    Member("z", Object([Member("x", Pos())]))])
  {
    var cc := Mask(Positive, map["d" := Node(Positive, None), "e" := Node(Negative, None)]);
    var zc := Mask(Positive, map["x" := Node(Positive, None)]);
    assert "d" in cc.fields && "e" in cc.fields && "x" in zc.fields && "y" !in zc.fields;
    assert "a" in mask.fields && "b" in mask.fields && mask.fields["c"].children == Some(cc);
    assert Override(mask.fields["z"]) == zc;
    FirstOnly(cc, false, c.members);
    FirstOnly(zc, true, z.members);
    var ms := v.members;
    assert ms[1..][1..][1..] == [Member("z", z)];
    assert ProjectMembers(mask, false, ms[1..][1..][1..]) == [Member("z", Object([Member("x", Pos())]))] by {
      Kept(mask, false, ms[1..][1..][1..], [Member("z", Object([Member("x", Pos())]))]);
      assert ms[1..][1..][1..][1..] == [];
    }
    Kept(mask, false, ms[1..][1..], [Member("c", Object([Member("d", Pos())]))]);
    Dropped(mask, false, ms[1..]);
    Kept(mask, false, ms, [ms[0]]);
  }

  /** Arrays inherit the mask: `-z:(x)` over two copies of the sample gives two `{"z":{"x":10}}`. */
  lemma ExampleArray(mask: Mask, v: Json, c: Json, z: Json)
    requires c == Object([Member("d", Pos()), Member("e", Pos())])
    requires z == Object([Member("x", Pos()), Member("y", Pos())])
    requires v == Object([Member("a", Leaf(Str("va"))), Member("b", Leaf(Str("vb"))), Member("c", c), Member("z", z)])
    requires mask == Mask(Positive, map["z" := Node(Negative, Some(Mask(Positive, map["x" := Node(Positive, None)])))])
    ensures MaskedValue(Some(mask), false, Array([v, v]))
         == Array([Object([Member("z", Object([Member("x", Pos())]))]), Object([Member("z", Object([Member("x", Pos())]))])])
  {
    var r := Object([Member("z", Object([Member("x", Pos())]))]);
    ExampleOverride(mask, v, c, z);
    assert [v, v][1..] == [v] && [v][1..] == [];
    assert ProjectItems(mask, false, [v]) == [r];
    assert ProjectItems(mask, false, [v, v]) == [r] + [r];
  }

  /** Of two members, only the first is kept, unchanged. */
  lemma FirstOnly(mask: Mask, excluded: bool, ms: seq<Member>)
    requires |ms| == 2 && Decide(mask, excluded, ms[0].key).Raw? && Decide(mask, excluded, ms[1].key).Skip?
    ensures ProjectMembers(mask, excluded, ms) == [ms[0]]
  {
    Kept(mask, excluded, ms, [ms[0]]);
    Dropped(mask, excluded, ms[1..]);
    assert ms[1..][1..] == [];
  }

  /** A first member the mask drops contributes nothing. */
  lemma Dropped(mask: Mask, excluded: bool, ms: seq<Member>)
    requires ms != [] && Decide(mask, excluded, ms[0].key).Skip?
    ensures ProjectMembers(mask, excluded, ms) == ProjectMembers(mask, excluded, ms[1..])
  {
  }

  /** A first member the mask keeps comes first in the result. */
  lemma Kept(mask: Mask, excluded: bool, ms: seq<Member>, first: seq<Member>)
    requires ms != [] && ProjectMember(mask, excluded, ms[0]) == first
    ensures ProjectMembers(mask, excluded, ms) == first + ProjectMembers(mask, excluded, ms[1..])
  {
  }
}
