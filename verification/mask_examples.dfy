/**
 * Every case of mask_parse_test.go and mask_test.go, and one input for each reachable error
 * branch of mask_parse.go, run through the grammar and the rendering: what each parses to or
 * which error it stops with, and one canonical rendering.
 * The examples take their input as a parameter fixed by `requires`, so each proof steps
 * through the grammar one state at a time.
 */
module MaskExamples {
  import opened Wrappers
  import opened Text
  import opened Masks
  import opened MaskGrammar
  import opened MaskRoundTrip

  lemma {:induction false} AllSpacesEnd(s: string, i: nat)
    requires i <= |s| && forall j | i <= j < |s| :: IsSpace(s[j])
    ensures SpacesEnd(s, i) == |s|
    decreases |s| - i
  {
    if i < |s| {
      AllSpacesEnd(s, i + 1);
    }
  }

  lemma {:induction false} BlankParsesEmpty(s: string)
    requires forall j | 0 <= j < |s| :: IsSpace(s[j])
    ensures Parse(s) == Ok(EmptyMask)
  {
    AllSpacesEnd(s, 0);
  }

  /** A one-char name at `i`, ended by a terminator or the end of the input. */
  lemma {:induction false} OneCharName(s: string, i: nat)
    requires i < |s| && !IsTerminator(s[i]) && !IsSpace(s[i])
    requires i + 1 == |s| || IsTerminator(s[i + 1])
    ensures NameEnd(s, i) == i + 1 && TrimSpace(s[i..i + 1]) == [s[i]]
  {
    assert NameEnd(s, i + 1) == i + 1;
    var t := s[i..i + 1];
    assert TrimStart(t) == 0;
    assert TrimStop(t, 0, 1) == 1;
  }

  lemma ModesExample()
    ensures Parse("a,-b") == Ok(Mask(Positive, map["a" := Node(Positive, None), "b" := Node(Negative, None)]))
  {
    var s := "a,-b";
    assert SpacesEnd(s, 0) == 0;
    OneCharName(s, 0);
    var f := map["a" := Node(Positive, None)];
    assert FieldAt(s, 0, map[]) == TraverseAt(s, 2, f);
    assert SpacesEnd(s, 2) == 2 && SpacesEnd(s, 3) == 3;
    OneCharName(s, 3);
    var g := f["b" := Node(Negative, None)];
    assert FieldAt(s, 2, f) == AtEnd(g);
    assert g["a"].op == Positive;
  }

  lemma DupExample() ensures Parse("a,a") == Err(DuplicateField)
  {
    var s := "a,a";
    assert SpacesEnd(s, 0) == 0;
    OneCharName(s, 0);
    var f := map["a" := Node(Positive, None)];
    assert FieldAt(s, 0, map[]) == TraverseAt(s, 2, f);
    assert SpacesEnd(s, 2) == 2;
    OneCharName(s, 2);
    assert FieldAt(s, 2, f) == Failed(DuplicateField);
  }

  lemma NegativeExample()
    ensures Parse("-a,-b") == Ok(Mask(Negative, map["a" := Node(Negative, None), "b" := Node(Negative, None)]))
  {
    var s := "-a,-b";
    assert SpacesEnd(s, 0) == 0 && SpacesEnd(s, 1) == 1;
    OneCharName(s, 1);
    var f := map["a" := Node(Negative, None)];
    assert FieldAt(s, 0, map[]) == TraverseAt(s, 3, f);
    assert SpacesEnd(s, 3) == 3 && SpacesEnd(s, 4) == 4;
    OneCharName(s, 4);
    var g := f["b" := Node(Negative, None)];
    assert FieldAt(s, 3, f) == AtEnd(g);
    assert g["a"].op == Negative && !HasOp(g, Positive);
  }

  lemma NestedExample(s: string)
    requires s == "z:(-x)"
    ensures Parse(s) ==
            Ok(Mask(Positive, map["z" := Node(Positive, Some(Mask(Negative, map["x" := Node(Negative, None)])))]))
  {
    var c := map["x" := Node(Negative, None)];
    NestedChild(s);
    assert !HasOp(c, Positive) && c["x"].op == Negative;
    DescendUnfold(s, 2, 3, "z", Positive, map[], Mask(Negative, c), 6);
    var f := map["z" := Node(Positive, Some(Mask(Negative, c)))];
    assert SpacesEnd(s, 0) == 0 && SpacesEnd(s, 6) == 6;
    OneCharName(s, 0);
    assert FieldAt(s, 0, map[]) == AtEnd(f);
    assert f["z"].op == Positive;
  }

  lemma NestedChild(s: string)
    requires s == "z:(-x)"
    ensures FieldAt(s, 3, map[]) == Closed(map["x" := Node(Negative, None)], 6)
  {
    assert SpacesEnd(s, 4) == 4;
    OneCharName(s, 4);
  }

  lemma EmptyFieldExample() ensures Parse("a,,b") == Err(EmptyField)
  {
    var s := "a,,b";
    assert SpacesEnd(s, 0) == 0;
    OneCharName(s, 0);
    var f := map["a" := Node(Positive, None)];
    assert FieldAt(s, 0, map[]) == TraverseAt(s, 2, f);
    assert SpacesEnd(s, 2) == 2 && NameEnd(s, 2) == 2 && TrimSpace(s[2..2]) == "";
    assert FieldAt(s, 2, f) == Failed(EmptyField);
  }

  lemma EmptySubtreeExample() ensures Parse("a:()") == Err(EmptySubtree)
  {
    var s := "a:()";
    assert SpacesEnd(s, 0) == 0;
    OneCharName(s, 0);
    assert SpacesEnd(s, 2) == 2 && SpacesEnd(s, 3) == 3;
    assert FieldAt(s, 0, map[]) == DescendAt(s, 2, "a", Positive, map[]);
  }

  lemma ExpectedParenExample() ensures Parse("a:b") == Err(ExpectedOpenParen)
  {
    var s := "a:b";
    assert SpacesEnd(s, 0) == 0;
    OneCharName(s, 0);
    assert SpacesEnd(s, 2) == 2;
    assert FieldAt(s, 0, map[]) == DescendAt(s, 2, "a", Positive, map[]);
  }

  lemma TrailingCommaExample() ensures Parse("a,") == Err(TrailingComma)
  {
    var s := "a,";
    assert SpacesEnd(s, 0) == 0;
    OneCharName(s, 0);
    assert SpacesEnd(s, 2) == 2;
  }

  lemma UnmatchedExample() ensures Parse("a)") == Err(UnmatchedClose)
  {
    var s := "a)";
    assert SpacesEnd(s, 0) == 0;
    OneCharName(s, 0);
    assert FieldAt(s, 0, map[]).Closed?;
  }

  lemma MissingCloseExample() ensures Parse("a:(b") == Err(MissingClose)
  {
    var s := "a:(b";
    assert SpacesEnd(s, 0) == 0;
    OneCharName(s, 0);
    assert SpacesEnd(s, 2) == 2 && SpacesEnd(s, 3) == 3;
    OneCharName(s, 3);
    assert FieldAt(s, 3, map[]).AtEnd?;
    assert FieldAt(s, 0, map[]) == DescendAt(s, 2, "a", Positive, map[]);
  }

  lemma CommaAfterCloseExample(s: string)
    requires s == "a:(b),"
    ensures Parse(s) == Ok(Mask(Positive, map["a" := Node(Positive, Some(Mask(Positive, map["b" := Node(Positive, None)])))]))
  {
    var c := map["b" := Node(Positive, None)];
    CommaAfterCloseChild(s);
    assert c["b"].op == Positive;
    DescendUnfold(s, 2, 3, "a", Positive, map[], Mask(Positive, c), 5);
    var f := map["a" := Node(Positive, Some(Mask(Positive, c)))];
    assert SpacesEnd(s, 0) == 0 && SpacesEnd(s, 5) == 5 && SpacesEnd(s, 6) == 6;
    OneCharName(s, 0);
    assert FieldAt(s, 0, map[]) == AtEnd(f);
    assert f["a"].op == Positive;
  }

  /** After a closing parenthesis only ',', ')' or the end may follow. */
  lemma ExpectedCommaExample(s: string)
    requires s == "a:(b)c"
    ensures Parse(s) == Err(ExpectedCommaOrClose)
  {
    var c := map["b" := Node(Positive, None)];
    ExpectedCommaChild(s);
    assert c["b"].op == Positive;
    DescendUnfold(s, 2, 3, "a", Positive, map[], Mask(Positive, c), 5);
    assert SpacesEnd(s, 0) == 0 && SpacesEnd(s, 5) == 5;
    OneCharName(s, 0);
    assert FieldAt(s, 0, map[]) == Failed(ExpectedCommaOrClose);
  }

  lemma ExpectedCommaChild(s: string)
    requires s == "a:(b)c"
    ensures FieldAt(s, 3, map[]) == Closed(map["b" := Node(Positive, None)], 5)
  {
    assert SpacesEnd(s, 3) == 3;
    OneCharName(s, 3);
  }

  lemma CommaAfterCloseChild(s: string)
    requires s == "a:(b),"
    ensures FieldAt(s, 3, map[]) == Closed(map["b" := Node(Positive, None)], 5)
  {
    assert SpacesEnd(s, 3) == 3;
    OneCharName(s, 3);
  }

  /** `c:(d),a,-b` renders as `a,-b,c:(d)`: ascending keys, '-' for Negative, children in
    * parentheses. */
  lemma RenderExample(m: Mask)
    requires m == Mask(Positive, map["c" := Node(Positive, Some(Mask(Positive, map["d" := Node(Positive, None)]))),
                                     "a" := Node(Positive, None), "b" := Node(Negative, None)])
    ensures Render(m) == "a,-b,c:(d)"
  {
    ExampleKeys(m.fields.Keys, ["a", "b", "c"]);
    var ps := ExampleParts(m);
    assert Render(m) == Join(ps, ",");
    JoinThree(ps);
  }

  lemma JoinThree(ps: seq<string>)
    requires ps == ["a", "-b", "c:(d)"]
    ensures Join(ps, ",") == "a,-b,c:(d)"
  {
    assert Join(ps[2..], ",") == "c:(d)";
    assert Join(ps[1..], ",") == "-b,c:(d)";
  }

  lemma ExampleParts(m: Mask) returns (ps: seq<string>)
    requires m == Mask(Positive, map["c" := Node(Positive, Some(Mask(Positive, map["d" := Node(Positive, None)]))),
                                     "a" := Node(Positive, None), "b" := Node(Negative, None)])
    ensures ps == Parts(m, ["a", "b", "c"]) && ps == ["a", "-b", "c:(d)"]
  {
    var child := m.fields["c"].children.value;
    ExampleKeys(child.fields.Keys, ["d"]);
    assert Render(child) == "d";
    ps := Parts(m, ["a", "b", "c"]);
    assert ps[0] == "a" && ps[1] == "-b" && ps[2] == "c:(d)";
  }

  lemma {:induction false} ExampleKeys(ks: set<string>, r: seq<string>)
    requires StrictlySorted(r) && forall x :: x in r <==> x in ks
    ensures SortedKeys(ks) == r
  {
    SortedUnique(SortedKeys(ks), r);
  }

  /** `a,-b,c:(d,-e),-z:(x)` parses to four entries: `a` Positive, `b` Negative, `c` with the
    * children `d` (Positive) and `e` (Negative), and `z` Negative with the child `x`. The mask is
    * well formed and renders back to the same text, so the round trip gives the parse. */
  lemma StructureExample(s: string, m: Mask)
    requires s == "a,-b,c:(d,-e),-z:(x)"
    requires m == Mask(Positive, map["a" := Node(Positive, None), "b" := Node(Negative, None),
                                     "c" := Node(Positive, Some(Mask(Positive, map["d" := Node(Positive, None),
                                                                                   "e" := Node(Negative, None)]))),
                                     "z" := Node(Negative, Some(Mask(Positive, map["x" := Node(Positive, None)])))])
    ensures Parse(s) == Ok(m)
  {
    StructureMask(m, m.fields["c"].children.value, m.fields["z"].children.value);
    ParseRender(m);
  }

  lemma StructureMask(m: Mask, mc: Mask, mz: Mask)
    requires mc == Mask(Positive, map["d" := Node(Positive, None), "e" := Node(Negative, None)])
    requires mz == Mask(Positive, map["x" := Node(Positive, None)])
    requires m == Mask(Positive, map["a" := Node(Positive, None), "b" := Node(Negative, None),
                                     "c" := Node(Positive, Some(mc)), "z" := Node(Negative, Some(mz))])
    ensures WellFormed(m) && Render(m) == "a,-b,c:(d,-e),-z:(x)"
  {
    StructureEntries(m, mc, mz);
    StructureKeys(m.fields.Keys);
    ChildC(mc);
    ChildZ(mz);
    StructureRender(m, mc, mz);
    LetterName("a");
    LetterName("b");
    LetterName("c");
    LetterName("z");
    assert "a" != "b" && "a" != "c" && "a" != "z" && "b" != "c" && "b" != "z" && "c" != "z" by {
      assert "a"[0] != "b"[0] && "a"[0] != "c"[0] && "a"[0] != "z"[0];
      assert "b"[0] != "c"[0] && "b"[0] != "z"[0] && "c"[0] != "z"[0];
    }
    StructureLevel(m, "a", "b", "c", "z", mc, mz);
  }

  /** The four entries of the sample's top level, one by one. */
  lemma StructureEntries(m: Mask, mc: Mask, mz: Mask)
    requires m == Mask(Positive, map["a" := Node(Positive, None), "b" := Node(Negative, None),
                                     "c" := Node(Positive, Some(mc)), "z" := Node(Negative, Some(mz))])
    ensures m.fields.Keys == {"a", "b", "c", "z"}
    ensures m.fields["a"] == Node(Positive, None) && m.fields["b"] == Node(Negative, None)
    ensures m.fields["c"] == Node(Positive, Some(mc)) && m.fields["z"] == Node(Negative, Some(mz))
  {
  }

  lemma StructureRender(m: Mask, mc: Mask, mz: Mask)
    requires "a" in m.fields && m.fields["a"] == Node(Positive, None)
    requires "b" in m.fields && m.fields["b"] == Node(Negative, None)
    requires "c" in m.fields && m.fields["c"] == Node(Positive, Some(mc))
    requires "z" in m.fields && m.fields["z"] == Node(Negative, Some(mz))
    requires mc.fields != map[] && Render(mc) == "d,-e" && mz.fields != map[] && Render(mz) == "x"
    requires SortedKeys(m.fields.Keys) == ["a", "b", "c", "z"]
    ensures Render(m) == "a,-b,c:(d,-e),-z:(x)"
  {
    StructureTexts();
    RenderSorted(m, ["a", "b", "c", "z"]);
    PartsFour(m, "a", "b", "c", "z");
    LeafText(m, "a", Positive, "a");
    LeafText(m, "b", Negative, "-b");
    SubtreeText(m, "c", Positive, "d,-e", "c:(d,-e)");
    SubtreeText(m, "z", Negative, "x", "-z:(x)");
    var ps := ["a", "-b", "c:(d,-e)", "-z:(x)"];
    assert Parts(m, ["a", "b", "c", "z"]) == ps;
    JoinFour(ps);
  }

  lemma StructureTexts()
    ensures "-" + "b" == "-b" && "c" + ":(" + "d,-e" + ")" == "c:(d,-e)" && "-" + "z" + ":(" + "x" + ")" == "-z:(x)"
  {
  }

  lemma ChildC(mc: Mask)
    requires mc == Mask(Positive, map["d" := Node(Positive, None), "e" := Node(Negative, None)])
    ensures mc.fields != map[] && WellFormed(mc) && Render(mc) == "d,-e"
  {
    LetterName("d");
    LetterName("e");
    assert "d" != "e" by { assert "d"[0] != "e"[0]; }
    PairKeys({"d", "e"});
    PairLevel(mc, "d", "e");
    PairText();
  }

  lemma PairText()
    ensures Join(["d", "-" + "e"], ",") == "d,-e"
  {
    assert Join(["-" + "e"], ",") == "-e";
  }

  lemma ChildZ(mz: Mask)
    requires mz == Mask(Positive, map["x" := Node(Positive, None)])
    ensures mz.fields != map[] && WellFormed(mz) && Render(mz) == "x"
  {
    LetterName("x");
    SingleLevel(mz, "x");
  }

  /** A one-letter name is valid whatever its sign. */
  lemma {:induction false} LetterName(k: string)
    requires |k| == 1 && 'a' <= k[0] <= 'z'
    ensures ValidName(k, Positive) && ValidName(k, Negative)
  {
  }

  lemma PairKeys(ks: set<string>)
    requires ks == {"d", "e"}
    ensures SortedKeys(ks) == ["d", "e"]
  {
    ExampleKeys(ks, ["d", "e"]);
  }

  lemma StructureKeys(ks: set<string>)
    requires ks == {"a", "b", "c", "z"}
    ensures SortedKeys(ks) == ["a", "b", "c", "z"]
  {
    ExampleKeys(ks, ["a", "b", "c", "z"]);
  }

  /** A level `d,-e` over any two valid names. */
  lemma PairLevel(m: Mask, d: string, e: string)
    requires d != e && ValidName(d, Positive) && ValidName(e, Negative)
    requires m == Mask(Positive, map[d := Node(Positive, None), e := Node(Negative, None)])
    requires SortedKeys({d, e}) == [d, e]
    ensures m.fields != map[] && WellFormed(m) && Render(m) == Join([d, "-" + e], ",")
  {
    assert m.fields.Keys == {d, e};
    assert m.fields[d].op == Positive;
    assert Render(m) == Join(Parts(m, [d, e]), ",");
    assert Parts(m, [d, e]) == [d, "-" + e] by {
      PartsTwo(m, d, e);
    }
  }

  lemma PartsTwo(m: Mask, d: string, e: string)
    requires d in m.fields && e in m.fields
    requires m.fields[d] == Node(Positive, None) && m.fields[e] == Node(Negative, None)
    ensures Parts(m, [d, e]) == [d, "-" + e]
  {
    var ps := Parts(m, [d, e]);
    assert ps[0] == RenderEntry(m, d) == "" + d == d;
    assert ps[1] == RenderEntry(m, e);
  }

  /** A level `x` over any valid name. */
  lemma SingleLevel(m: Mask, x: string)
    requires ValidName(x, Positive)
    requires m == Mask(Positive, map[x := Node(Positive, None)])
    ensures m.fields != map[] && WellFormed(m) && Render(m) == x
  {
    assert m.fields.Keys == {x};
    assert m.fields[x].op == Positive;
    assert SortedKeys({x}) == [x];
    assert Parts(m, [x]) == [RenderEntry(m, x)];
    assert RenderEntry(m, x) == "" + x == x;
  }

  /** The top level `a,-b,c:(...),-z:(...)` over any valid names and well-formed children. */
  lemma StructureLevel(m: Mask, a: string, b: string, c: string, z: string, mc: Mask, mz: Mask)
    requires a != b && a != c && a != z && b != c && b != z && c != z
    requires ValidName(a, Positive) && ValidName(b, Negative) && ValidName(c, Positive) && ValidName(z, Negative)
    requires mc.fields != map[] && WellFormed(mc) && mz.fields != map[] && WellFormed(mz)
    requires m == Mask(Positive, map[a := Node(Positive, None), b := Node(Negative, None),
                                     c := Node(Positive, Some(mc)), z := Node(Negative, Some(mz))])
    ensures WellFormed(m)
  {
    assert m.fields[a].op == Positive;
  }

  lemma {:induction false} PartsFour(m: Mask, a: string, b: string, c: string, z: string)
    requires a in m.fields && b in m.fields && c in m.fields && z in m.fields
    ensures Parts(m, [a, b, c, z]) == [RenderEntry(m, a), RenderEntry(m, b), RenderEntry(m, c), RenderEntry(m, z)]
  {
    var ps := Parts(m, [a, b, c, z]);
    assert ps[0] == RenderEntry(m, a) && ps[1] == RenderEntry(m, b);
    assert ps[2] == RenderEntry(m, c) && ps[3] == RenderEntry(m, z);
  }

  /** A leaf's text: its sign and its name. */
  lemma {:induction false} LeafText(m: Mask, k: string, op: Op, t: string)
    requires k in m.fields && m.fields[k] == Node(op, None)
    requires t == (if op == Negative then "-" + k else k)
    ensures RenderEntry(m, k) == t
  {
    assert "" + k == k;
  }

  /** A subtree's text: its sign, its name and its children's text `rc` in parentheses. */
  lemma {:induction false} SubtreeText(m: Mask, k: string, op: Op, rc: string, t: string)
    requires k in m.fields && m.fields[k].op == op && HasChildren(m.fields[k])
    requires Render(m.fields[k].children.value) == rc
    requires t == (if op == Negative then "-" + k else k) + ":(" + rc + ")"
    ensures RenderEntry(m, k) == t
  {
    assert "" + k == k;
  }

  /** A rendering whose keys are known to sort as `ks`. */
  lemma {:induction false} RenderSorted(m: Mask, ks: seq<string>)
    requires SortedKeys(m.fields.Keys) == ks
    ensures Render(m) == Join(Parts(m, ks), ",")
  {
  }

  lemma JoinFour(ps: seq<string>)
    requires ps == ["a", "-b", "c:(d,-e)", "-z:(x)"]
    ensures Join(ps, ",") == "a,-b,c:(d,-e),-z:(x)"
  {
    assert Join(ps[3..], ",") == "-z:(x)";
    assert Join(ps[2..], ",") == "c:(d,-e),-z:(x)";
    assert Join(ps[1..], ",") == "-b,c:(d,-e),-z:(x)";
  }
}
