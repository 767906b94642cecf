/**
 * The cases of stage/mongodb/projection_test.go that the builder's own module does not state.
 * Each takes as input the mask tree of its case's expression; for `a,-b,c:(d,-e),-z:(x)`,
 * `MaskExamples.StructureExample` shows that this is the tree the parser returns.
 *
 * Each case is worked out in three steps: the included paths (`Leaves`) of a mask of the
 * case's shape, over any names; the document those paths give with the case's names; and the
 * case itself, which joins the two.
 */
module MongoProjectionExamples {
  import opened Wrappers
  import opened Text
  import opened Masks
  import opened MongoProjection

  // The included paths of a mask, entry by entry: one lemma per number of entries.

  lemma {:induction false} NoKeys(m: Mask)
    ensures LeavesOf(m, {}) == {}
  {
  }

  lemma {:induction false} OneKey(m: Mask, a: string)
    requires m.fields.Keys == {a}
    ensures Leaves(m) == EntryLeaves(m, a)
  {
    var s0: set<string> := {};
    assert s0 + {a} == m.fields.Keys;
    LeavesOfGrow(m, s0, a);
    NoKeys(m);
  }

  lemma {:induction false} TwoKeys(m: Mask, a: string, b: string)
    requires m.fields.Keys == {a, b}
    ensures Leaves(m) == EntryLeaves(m, a) + EntryLeaves(m, b)
  {
    var s0: set<string> := {};
    var s1 := s0 + {a};
    assert s1 + {b} == m.fields.Keys;
    LeavesOfGrow(m, s0, a);
    LeavesOfGrow(m, s1, b);
    NoKeys(m);
    assert LeavesOf(m, s1) == EntryLeaves(m, a);
    assert Leaves(m) == LeavesOf(m, s1 + {b});
  }

  lemma {:induction false} ThreeKeys(m: Mask, a: string, b: string, c: string)
    requires m.fields.Keys == {a, b, c}
    ensures Leaves(m) == EntryLeaves(m, a) + EntryLeaves(m, b) + EntryLeaves(m, c)
  {
    var s0: set<string> := {};
    var s1 := s0 + {a};
    var s2 := s1 + {b};
    assert s2 + {c} == m.fields.Keys;
    LeavesOfGrow(m, s0, a);
    LeavesOfGrow(m, s1, b);
    LeavesOfGrow(m, s2, c);
    NoKeys(m);
    assert LeavesOf(m, s1) == EntryLeaves(m, a);
    assert Leaves(m) == LeavesOf(m, s2 + {c});
  }

  lemma {:induction false} FourKeys(m: Mask, a: string, b: string, c: string, d: string)
    requires m.fields.Keys == {a, b, c, d}
    ensures Leaves(m) == EntryLeaves(m, a) + EntryLeaves(m, b) + EntryLeaves(m, c) + EntryLeaves(m, d)
  {
    var s0: set<string> := {};
    var s1 := s0 + {a};
    var s2 := s1 + {b};
    var s3 := s2 + {c};
    assert s3 + {d} == m.fields.Keys;
    LeavesOfGrow(m, s0, a);
    LeavesOfGrow(m, s1, b);
    LeavesOfGrow(m, s2, c);
    LeavesOfGrow(m, s3, d);
    NoKeys(m);
    assert LeavesOf(m, s1) == EntryLeaves(m, a);
    assert Leaves(m) == LeavesOf(m, s3 + {d});
  }

  lemma {:induction false} FiveKeys(m: Mask, a: string, b: string, c: string, d: string, e: string)
    requires m.fields.Keys == {a, b, c, d, e}
    ensures Leaves(m) == EntryLeaves(m, a) + EntryLeaves(m, b) + EntryLeaves(m, c) + EntryLeaves(m, d)
                         + EntryLeaves(m, e)
  {
    var s0: set<string> := {};
    var s1 := s0 + {a};
    var s2 := s1 + {b};
    var s3 := s2 + {c};
    var s4 := s3 + {d};
    assert s4 + {e} == m.fields.Keys;
    LeavesOfGrow(m, s0, a);
    LeavesOfGrow(m, s1, b);
    LeavesOfGrow(m, s2, c);
    LeavesOfGrow(m, s3, d);
    LeavesOfGrow(m, s4, e);
    NoKeys(m);
    assert LeavesOf(m, s1) == EntryLeaves(m, a);
    assert Leaves(m) == LeavesOf(m, s4 + {e});
  }

  /** An entry whose children include the one path `p`. */
  lemma {:induction false} NestedOne(m: Mask, k: string, p: seq<string>)
    requires k in m.fields && HasChildren(m.fields[k]) && Leaves(m.fields[k].children.value) == {p}
    ensures EntryLeaves(m, k) == {[k] + p}
  {
  }

  /** An entry whose children include the two paths `p` and `q`. */
  lemma {:induction false} NestedTwo(m: Mask, k: string, p: seq<string>, q: seq<string>)
    requires k in m.fields && HasChildren(m.fields[k]) && Leaves(m.fields[k].children.value) == {p, q}
    ensures EntryLeaves(m, k) == {[k] + p, [k] + q}
  {
  }

  /** The inclusion document listing the paths `ps`. */
  function Doc(ps: set<seq<string>>): (r: set<Elem>)
    ensures forall p | p in ps :: Elem(Join(p, "."), 1) in r
    ensures forall e | e in r :: e.value == 1
  {
    set p | p in ps :: Elem(Join(p, "."), 1)
  }

  lemma {:induction false} DocTwo(p: seq<string>, q: seq<string>)
    ensures Doc({p, q}) == {Elem(Join(p, "."), 1), Elem(Join(q, "."), 1)}
  {
  }

  lemma {:induction false} DocThree(p: seq<string>, q: seq<string>, r: seq<string>)
    ensures Doc({p, q, r}) == {Elem(Join(p, "."), 1), Elem(Join(q, "."), 1), Elem(Join(r, "."), 1)}
  {
  }

  lemma {:induction false} DocFour(p: seq<string>, q: seq<string>, r: seq<string>, t: seq<string>)
    ensures Doc({p, q, r, t})
         == {Elem(Join(p, "."), 1), Elem(Join(q, "."), 1), Elem(Join(r, "."), 1), Elem(Join(t, "."), 1)}
  {
  }

  /** The inclusion document of a mask whose included paths are `ps`. */
  lemma {:induction false} Included(m: Mask, ps: set<seq<string>>)
    requires m.fields != map[] && NeedsInclusion(m) && Leaves(m) == ps
    ensures Projection(Some(m)) == Doc(ps)
  {
    forall p | p in ps ensures [] + p == p { }
  }

  /** `x,-y`: only `x` is included. */
  lemma PairLeaf(c: Mask, x: string, y: string)
    requires x != y
    requires c == Mask(Positive, map[x := Node(Positive, None), y := Node(Negative, None)])
    ensures c.fields != map[] && NeedsInclusion(c) && Leaves(c) == {[x]}
  {
    assert c.fields.Keys == {x, y};
    TwoKeys(c, x, y);
    assert c.fields[x].op == Positive;
  }

  /** `a,c:(d)`: `{a: 1, "c.d": 1}`. */
  lemma ExamplePositive(m: Mask)
    requires m == Mask(Positive, map["a" := Node(Positive, None),
                                     "c" := Node(Positive, Some(Mask(Positive, map["d" := Node(Positive, None)])))])
    ensures Projection(Some(m)) == {Elem("a", 1), Elem("c.d", 1)}
  {
    assert "a" != "c" by { assert "a"[0] != "c"[0]; }
    PositiveLeaves(m, "a", "c", "d");
    Included(m, {["a"], ["c", "d"]});
    PositiveDoc();
  }

  lemma PositiveDoc()
    ensures Doc({["a"], ["c", "d"]}) == {Elem("a", 1), Elem("c.d", 1)}
  {
    DocTwo(["a"], ["c", "d"]);
    assert Join(["a"], ".") == "a";
    assert Join(["c", "d"], ".") == "c.d";
  }

  /** `a,c:(d)` with any three names. */
  lemma PositiveLeaves(m: Mask, a: string, c: string, d: string)
    requires a != c
    requires m == Mask(Positive, map[a := Node(Positive, None),
                                     c := Node(Positive, Some(Mask(Positive, map[d := Node(Positive, None)])))])
    ensures m.fields != map[] && NeedsInclusion(m) && Leaves(m) == {[a], [c, d]}
  {
    SingleLeaf(m.fields[c].children.value, d);
    NestedOne(m, c, [d]);
    assert [c] + [d] == [c, d];
    assert m.fields.Keys == {a, c};
    TwoKeys(m, a, c);
    assert m.fields[a].op == Positive;
  }

  /** `a,-b,c:(d,-e),-z:(x)`: `{a: 1, "c.d": 1, "z.x": 1}`. */
  lemma ExampleMixed(m: Mask)
    requires m == Mask(Positive, map["a" := Node(Positive, None), "b" := Node(Negative, None),
                                     "c" := Node(Positive, Some(Mask(Positive, map["d" := Node(Positive, None),
                                                                                   "e" := Node(Negative, None)]))),
                                     "z" := Node(Negative, Some(Mask(Positive, map["x" := Node(Positive, None)])))])
    ensures Projection(Some(m)) == {Elem("a", 1), Elem("c.d", 1), Elem("z.x", 1)}
  {
    assert "a" != "b" && "a" != "c" && "a" != "z" && "b" != "c" && "b" != "z" && "c" != "z" && "d" != "e" by {
      assert "a"[0] != "b"[0] && "a"[0] != "c"[0] && "a"[0] != "z"[0];
      assert "b"[0] != "c"[0] && "b"[0] != "z"[0] && "c"[0] != "z"[0] && "d"[0] != "e"[0];
    }
    assert m.fields.Keys == {"a", "b", "c", "z"};
    MixedLeaves(m, "a", "b", "c", "z", "d", "e", "x");
    Included(m, {["a"], ["c", "d"], ["z", "x"]});
    MixedDoc();
  }

  lemma MixedDoc()
    ensures Doc({["a"], ["c", "d"], ["z", "x"]}) == {Elem("a", 1), Elem("c.d", 1), Elem("z.x", 1)}
  {
    DocThree(["a"], ["c", "d"], ["z", "x"]);
    assert Join(["a"], ".") == "a";
    assert Join(["c", "d"], ".") == "c.d";
    assert Join(["z", "x"], ".") == "z.x";
  }

  /** `a,-b,c:(d,-e),-z:(x)` with any names, entry by entry. */
  lemma MixedLeaves(m: Mask, a: string, b: string, c: string, z: string, d: string, e: string, x: string)
    requires d != e && m.fields.Keys == {a, b, c, z}
    requires m.fields[a] == Node(Positive, None) && m.fields[b] == Node(Negative, None)
    requires m.fields[c] == Node(Positive, Some(Mask(Positive, map[d := Node(Positive, None), e := Node(Negative, None)])))
    requires m.fields[z] == Node(Negative, Some(Mask(Positive, map[x := Node(Positive, None)])))
    ensures m.fields != map[] && NeedsInclusion(m) && Leaves(m) == {[a], [c, d], [z, x]}
  {
    PairLeaf(m.fields[c].children.value, d, e);
    SingleLeaf(m.fields[z].children.value, x);
    NestedOne(m, c, [d]);
    NestedOne(m, z, [x]);
    assert [c] + [d] == [c, d] && [z] + [x] == [z, x];
    FourKeys(m, a, b, c, z);
    assert m.fields[a].op == Positive;
  }

  /** `-a:(-b:(-c:(d:(e,-f),-g,y:(z,-w))))`: `{"a.b.c.d.e": 1, "a.b.c.y.z": 1}`. Every level has
    * only Negative entries, so the parsed root is already Negative and forcing it so changes nothing. */
  lemma ExampleDeep(m: Mask)
    requires m == Mask(Negative, map["a" := Node(Negative, Some(Mask(Negative, map["b" := Node(Negative, Some(
                         Mask(Negative, map["c" := Node(Negative, Some(Mask(Positive, map[
                           "d" := Node(Positive, Some(Mask(Positive, map["e" := Node(Positive, None),
                                                                         "f" := Node(Negative, None)]))),
                           "g" := Node(Negative, None),
                           "y" := Node(Positive, Some(Mask(Positive, map["z" := Node(Positive, None),
                                                                         "w" := Node(Negative, None)])))])))])))])))])
    ensures Projection(Some(m)) == {Elem("a.b.c.d.e", 1), Elem("a.b.c.y.z", 1)}
  {
    assert "d" != "g" && "d" != "y" && "g" != "y" && "e" != "f" && "z" != "w" by {
      assert "d"[0] != "g"[0] && "d"[0] != "y"[0] && "g"[0] != "y"[0] && "e"[0] != "f"[0] && "z"[0] != "w"[0];
    }
    var b := m.fields["a"].children.value;
    var c := b.fields["b"].children.value;
    var inner := c.fields["c"].children.value;
    assert inner.fields.Keys == {"d", "g", "y"};
    InnerLeaves(inner, "d", "g", "y", "e", "f", "z", "w");
    ChainLeaves(m, "a", "b", "c", b, c, inner, "d", "e", "y", "z");
    Included(m, {["a", "b", "c", "d", "e"], ["a", "b", "c", "y", "z"]});
    DeepDoc();
  }

  lemma DeepDoc()
    ensures Doc({["a", "b", "c", "d", "e"], ["a", "b", "c", "y", "z"]})
         == {Elem("a.b.c.d.e", 1), Elem("a.b.c.y.z", 1)}
  {
    DocTwo(["a", "b", "c", "d", "e"], ["a", "b", "c", "y", "z"]);
    DeepJoin();
  }

  lemma DeepJoin()
    ensures Join(["a", "b", "c", "d", "e"], ".") == "a.b.c.d.e"
    ensures Join(["a", "b", "c", "y", "z"], ".") == "a.b.c.y.z"
  {
    assert Join(["e"], ".") == "e" && Join(["z"], ".") == "z";
  }

  /** `-a:(-b:(-c:(...)))` with any names, over an innermost mask with two included paths. */
  lemma ChainLeaves(m: Mask, a: string, b: string, c: string, mb: Mask, mc: Mask, inner: Mask,
                    d: string, e: string, y: string, z: string)
    requires m.fields == map[a := Node(Negative, Some(mb))]
    requires mb.fields == map[b := Node(Negative, Some(mc))]
    requires mc.fields == map[c := Node(Negative, Some(inner))]
    requires inner.fields != map[] && NeedsInclusion(inner) && Leaves(inner) == {[d, e], [y, z]}
    ensures m.fields != map[] && NeedsInclusion(m) && Leaves(m) == {[a, b, c, d, e], [a, b, c, y, z]}
  {
    Prefixed(a, b, c, d, e);
    Prefixed(a, b, c, y, z);
    Wrap(mc, c, inner, [d, e], [y, z]);
    Wrap(mb, b, mc, [c, d, e], [c, y, z]);
    Wrap(m, a, mb, [b, c, d, e], [b, c, y, z]);
  }

  /** The paths `ChainLeaves` builds, one name at a time. */
  lemma {:induction false} Prefixed(a: string, b: string, c: string, d: string, e: string)
    ensures [c] + [d, e] == [c, d, e] && [b] + [c, d, e] == [b, c, d, e] && [a] + [b, c, d, e] == [a, b, c, d, e]
  {
  }

  /** `-k:(...)` as the only entry, over children with two included paths. */
  lemma Wrap(m: Mask, k: string, child: Mask, p: seq<string>, q: seq<string>)
    requires m.fields == map[k := Node(Negative, Some(child))] && child.fields != map[]
    requires NeedsInclusion(child) && Leaves(child) == {p, q}
    ensures m.fields != map[] && NeedsInclusion(m) && Leaves(m) == {[k] + p, [k] + q}
  {
    NestedTwo(m, k, p, q);
    assert m.fields.Keys == {k} && m.fields[k].op == Negative;
    OneKey(m, k);
  }

  /** `d:(e,-f),-g,y:(z,-w)` with any names, entry by entry. */
  lemma InnerLeaves(m: Mask, d: string, g: string, y: string, e: string, f: string, z: string, w: string)
    requires e != f && z != w && m.fields.Keys == {d, g, y}
    requires m.fields[d] == Node(Positive, Some(Mask(Positive, map[e := Node(Positive, None), f := Node(Negative, None)])))
    requires m.fields[g] == Node(Negative, None)
    requires m.fields[y] == Node(Positive, Some(Mask(Positive, map[z := Node(Positive, None), w := Node(Negative, None)])))
    ensures m.fields != map[] && NeedsInclusion(m) && Leaves(m) == {[d, e], [y, z]}
  {
    PairLeaf(m.fields[d].children.value, e, f);
    PairLeaf(m.fields[y].children.value, z, w);
    NestedOne(m, d, [e]);
    NestedOne(m, y, [z]);
    assert [d] + [e] == [d, e] && [y] + [z] == [y, z];
    ThreeKeys(m, d, g, y);
    assert m.fields[d].op == Positive;
  }

  /** `a,-b:(c),d:(e),f:(g:(h)),-i`: `{a: 1, "b.c": 1, "d.e": 1, "f.g.h": 1}`. */
  lemma ExampleFive(m: Mask)
    requires m == Mask(Positive, map["a" := Node(Positive, None),
                                     "b" := Node(Negative, Some(Mask(Positive, map["c" := Node(Positive, None)]))),
                                     "d" := Node(Positive, Some(Mask(Positive, map["e" := Node(Positive, None)]))),
                                     "f" := Node(Positive, Some(Mask(Positive, map["g" := Node(Positive, Some(
                                              Mask(Positive, map["h" := Node(Positive, None)])))]))),
                                     "i" := Node(Negative, None)])
    ensures Projection(Some(m)) == {Elem("a", 1), Elem("b.c", 1), Elem("d.e", 1), Elem("f.g.h", 1)}
  {
    assert "a" != "b" && "a" != "d" && "a" != "f" && "a" != "i" && "b" != "d" && "b" != "f" && "b" != "i"
        && "d" != "f" && "d" != "i" && "f" != "i" by {
      assert "a"[0] != "b"[0] && "a"[0] != "d"[0] && "a"[0] != "f"[0] && "a"[0] != "i"[0];
      assert "b"[0] != "d"[0] && "b"[0] != "f"[0] && "b"[0] != "i"[0];
      assert "d"[0] != "f"[0] && "d"[0] != "i"[0] && "f"[0] != "i"[0];
    }
    assert m.fields.Keys == {"a", "b", "d", "f", "i"};
    FiveLeaves(m, "a", "b", "d", "f", "i", "c", "e", "g", "h");
    Included(m, {["a"], ["b", "c"], ["d", "e"], ["f", "g", "h"]});
    FiveDoc();
  }

  lemma FiveDoc()
    ensures Doc({["a"], ["b", "c"], ["d", "e"], ["f", "g", "h"]})
         == {Elem("a", 1), Elem("b.c", 1), Elem("d.e", 1), Elem("f.g.h", 1)}
  {
    DocFour(["a"], ["b", "c"], ["d", "e"], ["f", "g", "h"]);
    assert Join(["a"], ".") == "a";
    assert Join(["b", "c"], ".") == "b.c";
    assert Join(["d", "e"], ".") == "d.e";
    assert Join(["f", "g", "h"], ".") == "f.g.h";
  }

  lemma {:induction false} FourPaths(p: seq<string>, q: seq<string>, r: seq<string>, t: seq<string>)
    ensures {p} + {q} + {r} + {t} + {} == {p, q, r, t}
  {
  }

  /** `g:(h)`: the one path `g.h`. */
  lemma PathLeaf(m: Mask, g: string, h: string)
    requires m == Mask(Positive, map[g := Node(Positive, Some(Mask(Positive, map[h := Node(Positive, None)])))])
    ensures m.fields != map[] && NeedsInclusion(m) && Leaves(m) == {[g, h]}
  {
    SingleLeaf(m.fields[g].children.value, h);
    NestedOne(m, g, [h]);
    assert [g] + [h] == [g, h];
    assert m.fields.Keys == {g};
    OneKey(m, g);
    assert m.fields[g].op == Positive;
  }

  /** `a,-b:(c),d:(e),f:(g:(h)),-i` with any names, entry by entry. */
  lemma FiveLeaves(m: Mask, a: string, b: string, d: string, f: string, i: string,
                   c: string, e: string, g: string, h: string)
    requires m.fields.Keys == {a, b, d, f, i}
    requires m.fields[a] == Node(Positive, None) && m.fields[i] == Node(Negative, None)
    requires m.fields[b] == Node(Negative, Some(Mask(Positive, map[c := Node(Positive, None)])))
    requires m.fields[d] == Node(Positive, Some(Mask(Positive, map[e := Node(Positive, None)])))
    requires m.fields[f] == Node(Positive, Some(Mask(Positive, map[g := Node(Positive, Some(
                                 Mask(Positive, map[h := Node(Positive, None)])))])))
    ensures m.fields != map[] && NeedsInclusion(m) && Leaves(m) == {[a], [b, c], [d, e], [f, g, h]}
  {
    SingleLeaf(m.fields[b].children.value, c);
    SingleLeaf(m.fields[d].children.value, e);
    PathLeaf(m.fields[f].children.value, g, h);
    NestedOne(m, b, [c]);
    NestedOne(m, d, [e]);
    NestedOne(m, f, [g, h]);
    assert [b] + [c] == [b, c] && [d] + [e] == [d, e] && [f] + [g, h] == [f, g, h];
    assert EntryLeaves(m, a) == {[a]} && EntryLeaves(m, i) == {};
    FiveKeys(m, a, b, d, f, i);
    FourPaths([a], [b, c], [d, e], [f, g, h]);
    assert m.fields[a].op == Positive;
  }
}
