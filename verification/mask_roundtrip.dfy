/**
 * `String()` (mask.go) and `ParseMask` (mask_parse.go) are inverse on the masks the parser
 * produces: rendering a parsed mask and parsing the text again gives the same tree, modes included.
 *
 * The proof walks the rendered text entry by entry. Positions in the text are passed around as
 * named parameters tied down by `requires p == ...`, so each lemma talks about the same index
 * terms as its caller.
 */
module MaskRoundTrip {
  import opened Wrappers
  import opened Text
  import opened Masks
  import opened MaskGrammar

  /** `t` occurs in `s` at index `i`. */
  predicate Occurs(t: string, s: string, i: nat) {
    i + |t| <= |s| && s[i..i + |t|] == t
  }

  lemma {:induction false} OccursConcat(a: string, b: string, s: string, i: nat)
    requires Occurs(a + b, s, i)
    ensures Occurs(a, s, i) && Occurs(b, s, i + |a|)
  {
    assert s[i..i + |a|] == (a + b)[..|a|];
    assert s[i + |a|..i + |a| + |b|] == (a + b)[|a|..];
  }

  lemma {:induction false} OccursAt(t: string, s: string, i: nat, j: nat)
    requires Occurs(t, s, i) && j < |t|
    ensures s[i + j] == t[j]
  {
    assert s[i..i + |t|][j] == s[i + j];
  }

  /** A char that can begin an entry of a rendered well-formed mask. */
  predicate StartsEntry(c: char) {
    !IsSpace(c) && !IsTerminator(c)
  }

  /** `f` with the entries of `m` for the keys `ks` added one by one, as the parser adds them. */
  function AddAll(m: Mask, ks: seq<string>, f: Fields): Fields
    requires forall k | k in ks :: k in m.fields
    decreases |ks|
  {
    if ks == [] then f else AddAll(m, ks[1..], f[ks[0] := m.fields[ks[0]]])
  }

  /** `AddAll` takes the entries for `ks` from `m` and keeps `f` elsewhere. */
  lemma {:induction false} AddAllSpec(m: Mask, ks: seq<string>, f: Fields)
    requires forall k | k in ks :: k in m.fields
    ensures forall k | k in ks :: k in AddAll(m, ks, f) && AddAll(m, ks, f)[k] == m.fields[k]
    ensures forall k | k !in ks :: (k in AddAll(m, ks, f) <==> k in f)
    ensures forall k | k !in ks && k in f :: AddAll(m, ks, f)[k] == f[k]
    decreases |ks|
  {
    if ks != [] {
      AddAllSpec(m, ks[1..], f[ks[0] := m.fields[ks[0]]]);
    }
  }

  /** Adding the entries for all the keys to an empty map gives the whole field map. */
  lemma {:induction false} AddAllFields(m: Mask, ks: seq<string>)
    requires forall k | k in ks :: k in m.fields
    requires forall k | k in m.fields :: k in ks
    ensures AddAll(m, ks, map[]) == m.fields
  {
    AddAllSpec(m, ks, map[]);
  }

  // ---------------------------------------------------------------------------------------
  // The rendered text, piece by piece (no parser states here).

  lemma {:induction false} TrimValidName(name: string, op: Op)
    requires ValidName(name, op)
    ensures TrimSpace(name) == name
  {
    assert TrimStart(name) == 0;
    assert TrimStop(name, 0, |name|) == |name|;
  }

  /** The name scan from `i` stops at `e` when no terminator lies before `e` and one (or the end)
    * is at `e`. */
  lemma {:induction false} NameEndAt(s: string, i: nat, e: nat)
    requires i <= e <= |s| && forall k | i <= k < e :: !IsTerminator(s[k])
    requires e == |s| || IsTerminator(s[e])
    ensures NameEnd(s, i) == e
    decreases e - i
  {
    if i < e {
      NameEndAt(s, i + 1, e);
    }
  }

  /** The name scan stops right after a valid name followed by a terminator or the end. */
  lemma {:induction false} NameEndAfter(s: string, start: nat, name: string, op: Op)
    requires ValidName(name, op) && Occurs(name, s, start)
    requires start + |name| == |s| || IsTerminator(s[start + |name|])
    ensures NameEnd(s, start) == start + |name|
  {
    forall k | start <= k < start + |name| ensures !IsTerminator(s[k]) {
      OccursAt(name, s, start, k - start);
    }
    NameEndAt(s, start, start + |name|);
  }

  lemma {:induction false} EntryFirstChar(m: Mask, k: string)
    requires WellFormed(m) && k in m.fields
    ensures RenderEntry(m, k) != [] && StartsEntry(RenderEntry(m, k)[0])
  {
    assert WellFormedEntry(m, k);
  }

  /** A rendered non-empty level starts with the first char of an entry. */
  lemma {:induction false} RenderedFirstChar(m: Mask, ks: seq<string>)
    requires WellFormed(m) && |ks| > 0 && forall k | k in ks :: k in m.fields
    ensures var t := Join(Parts(m, ks), ",");
            t != [] && StartsEntry(t[0])
  {
    EntryFirstChar(m, ks[0]);
    var ps := Parts(m, ks);
    if |ks| > 1 {
      assert Join(ps, ",") == ps[0] + "," + Join(ps[1..], ",");
    }
  }

  /** `[-]k`, the text of a leaf entry. */
  lemma {:induction false} LeafText(prefix: string, k: string, s: string, i: nat, start: nat)
    requires Occurs(prefix + k, s, i) && start == i + |prefix|
    ensures Occurs(k, s, start)
  {
    OccursConcat(prefix, k, s, i);
  }

  /** `[-]k:(rc)`, the text of a subtree entry, with `stop` after the name, `ci` where the child
    * text starts and `q` after the closing ')'. */
  lemma {:induction false} SubtreeText(prefix: string, k: string, rc: string, s: string, i: nat,
                                       start: nat, stop: nat, ci: nat, q: nat)
    requires Occurs(prefix + k + ":(" + rc + ")", s, i)
    requires start == i + |prefix| && stop == start + |k| && ci == stop + 2 && q == ci + |rc| + 1
    ensures Occurs(k, s, start) && Occurs(rc, s, ci)
    ensures q <= |s| && s[stop] == ':' && s[stop + 1] == '(' && s[q - 1] == ')'
  {
    OccursConcat(prefix + k + ":(" + rc, ")", s, i);
    OccursConcat(prefix + k + ":(", rc, s, i);
    OccursConcat(prefix + k, ":(", s, i);
    OccursConcat(prefix, k, s, i);
    OccursAt(":(", s, stop, 0);
    OccursAt(":(", s, stop, 1);
    OccursAt(")", s, q - 1, 0);
  }

  /** `e,t'`: an entry, a comma at `p`, and the rest of the level from `p + 1`. */
  lemma {:induction false} ListText(e: string, t': string, s: string, i: nat, p: nat)
    requires Occurs(e + "," + t', s, i) && p == i + |e|
    ensures Occurs(e, s, i) && Occurs(t', s, p + 1) && p < |s| && s[p] == ','
  {
    OccursConcat(e + ",", t', s, i);
    OccursConcat(e, ",", s, i);
    OccursAt(",", s, p, 0);
  }

  // ---------------------------------------------------------------------------------------
  // Parser steps over such text (no rendering here).

  /** What may follow an entry at `p`: the end of input, ')' or ',' and the start of an entry. */
  predicate Follows(s: string, p: nat) {
    || p == |s|
    || (p < |s| && s[p] == ')')
    || (p + 1 < |s| && s[p] == ',' && StartsEntry(s[p + 1]))
  }

  /** How parsing goes on once an entry ending at `p` has been added, giving `g`. */
  function Continue(s: string, p: nat, g: Fields): Outcome
    requires p <= |s|
  {
    if p == |s| then AtEnd(g)
    else if s[p] == ')' then Closed(g, p + 1)
    else FieldAt(s, p + 1, g)
  }

  /** Where an entry's name starts, after its optional '-'. */
  function NameStart(i: nat, op: Op): nat {
    if op == Negative then i + 1 else i
  }

  /** `stateParseField` at `i` scans the operator `op` and the name `k`, ending at `stop`. */
  predicate ScannedAt(s: string, i: nat, k: string, op: Op, stop: nat) {
    && i < |s| && (s[i] == '-' <==> op == Negative)
    && stop == NameStart(i, op) + |k| && stop <= |s|
    && SpacesEnd(s, NameStart(i, op)) == NameStart(i, op)
    && NameEnd(s, NameStart(i, op)) == stop
    && TrimSpace(s[NameStart(i, op)..stop]) == k
  }

  /** A valid name written right after the entry's operator is scanned back exactly. */
  lemma {:induction false} ScanValidName(s: string, i: nat, k: string, op: Op, stop: nat)
    requires ValidName(k, op) && i < |s| && (s[i] == '-' <==> op == Negative)
    requires Occurs(k, s, NameStart(i, op)) && stop == NameStart(i, op) + |k|
    requires stop == |s| || IsTerminator(s[stop])
    ensures ScannedAt(s, i, k, op, stop)
  {
    var start := NameStart(i, op);
    OccursAt(k, s, start, 0);
    assert SpacesEnd(s, start) == start;
    NameEndAfter(s, start, k, op);
    TrimValidName(k, op);
  }

  /** One `stateParseField` step. */
  lemma {:induction false} FieldAtStep(s: string, i: nat, f: Fields)
    requires i < |s|
    ensures var start := SpacesEnd(s, if s[i] == '-' then i + 1 else i);
            var stop := NameEnd(s, start);
            FieldAt(s, i, f) == AfterFieldAt(s, stop, TrimSpace(s[start..stop]), if s[i] == '-' then Negative else Positive, f)
  {
  }

  /** `stateParseField` reaches `stateAfterField` just after a scanned name. */
  lemma {:induction false} FieldAtName(s: string, i: nat, f: Fields, k: string, op: Op, stop: nat)
    requires ScannedAt(s, i, k, op, stop)
    ensures FieldAt(s, i, f) == AfterFieldAt(s, stop, k, op, f)
  {
    FieldAtStep(s, i, f);
    var start := SpacesEnd(s, if s[i] == '-' then i + 1 else i);
    assert start == NameStart(i, op);
    assert (if s[i] == '-' then Negative else Positive) == op;
  }

  /** After a leaf's name, parsing goes on as `Continue` says. */
  lemma {:induction false} AfterLeaf(s: string, p: nat, k: string, op: Op, f: Fields)
    requires k != "" && k !in f && Follows(s, p)
    ensures AfterFieldAt(s, p, k, op, f) == Continue(s, p, f[k := Node(op, None)])
  {
    if p < |s| && s[p] == ',' {
      assert SpacesEnd(s, p + 1) == p + 1;
    }
  }

  /** `stateParseField` scans the name and `stateAfterField` sees ':' at `stop`: on to `stateDescend`. */
  lemma {:induction false} FieldToDescend(s: string, i: nat, f: Fields, k: string, op: Op, stop: nat, j: nat)
    requires ScannedAt(s, i, k, op, stop) && stop < |s| && s[stop] == ':' && j == stop + 1
    ensures FieldAt(s, i, f) == DescendAt(s, j, k, op, f)
  {
    FieldAtName(s, i, f, k, op, stop);
  }

  /** `stateDescend` on '(' at `j`, followed at `ci` by a child level that closes at `q`. */
  lemma {:induction false} DescendUnfold(s: string, j: nat, ci: nat, k: string, op: Op, f: Fields, c: Mask, q: nat)
    requires ci == j + 1 && ci < |s| && s[j] == '(' && s[ci] != ')' && !IsSpace(s[ci])
    requires k != "" && k !in f && c.mode == DeriveMode(c.fields)
    requires FieldAt(s, ci, map[]) == Closed(c.fields, q) && q <= |s|
    ensures DescendAt(s, j, k, op, f) == AfterChildAt(s, q, f[k := Node(op, Some(c))])
  {
    assert SpacesEnd(s, j) == j;
    assert SpacesEnd(s, ci) == ci;
    assert Mask(DeriveMode(c.fields), c.fields) == c;
  }

  /** After a closed subtree, parsing goes on as `Continue` says. */
  lemma {:induction false} AfterChild(s: string, p: nat, g: Fields)
    requires Follows(s, p)
    ensures AfterChildAt(s, p, g) == Continue(s, p, g)
  {
    assert SpacesEnd(s, p) == p;
    if p < |s| && s[p] == ',' {
      assert SpacesEnd(s, p + 1) == p + 1;
    }
  }

  /** A leaf entry `[-]k` at `i` parses back to that leaf. */
  lemma {:induction false} LeafRoundTrip(s: string, i: nat, f: Fields, k: string, op: Op, stop: nat)
    requires ScannedAt(s, i, k, op, stop) && k != "" && k !in f && Follows(s, stop)
    ensures FieldAt(s, i, f) == Continue(s, stop, f[k := Node(op, None)])
  {
    FieldAtName(s, i, f, k, op, stop);
    AfterLeaf(s, stop, k, op, f);
  }

  /** `stateDescend` on '(' at `j` with a child level from `ci` that parses to `c` and closes at
    * `q`: the child is attached and parsing goes on as `Continue` says. */
  lemma {:induction false} DescendToContinue(s: string, j: nat, ci: nat, k: string, op: Op, f: Fields, c: Mask, q: nat)
    requires ci == j + 1 && ci < |s| && s[j] == '(' && s[ci] != ')' && !IsSpace(s[ci])
    requires k != "" && k !in f && c.mode == DeriveMode(c.fields)
    requires FieldAt(s, ci, map[]) == Closed(c.fields, q) && q <= |s| && Follows(s, q)
    ensures DescendAt(s, j, k, op, f) == Continue(s, q, f[k := Node(op, Some(c))])
  {
    DescendUnfold(s, j, ci, k, op, f, c, q);
    AfterChild(s, q, f[k := Node(op, Some(c))]);
  }

  /** A subtree entry `[-]k:(...)` at `i`, whose child level starts at `ci`, parses to `c` and
    * closes at `q`, parses back to that entry. */
  lemma {:induction false} SubtreeRoundTrip(s: string, i: nat, f: Fields, k: string, op: Op, c: Mask,
                                            stop: nat, ci: nat, q: nat)
    requires ScannedAt(s, i, k, op, stop) && k != "" && k !in f && c.mode == DeriveMode(c.fields)
    requires ci == stop + 2 && ci < |s| && s[stop] == ':' && s[stop + 1] == '('
    requires s[ci] != ')' && !IsSpace(s[ci])
    requires FieldAt(s, ci, map[]) == Closed(c.fields, q) && q <= |s| && Follows(s, q)
    ensures FieldAt(s, i, f) == Continue(s, q, f[k := Node(op, Some(c))])
  {
    FieldToDescend(s, i, f, k, op, stop, stop + 1);
    DescendToContinue(s, stop + 1, ci, k, op, f, c, q);
  }

  // ---------------------------------------------------------------------------------------
  // Rendered text against the parser, by induction on the mask.

  /** The rendering `rc` of a well-formed non-empty child starting at `ci`, followed by ')',
    * parses back to that child; the level closes just after the ')', at `q`. */
  lemma {:induction false} ChildRoundTrip(c: Mask, rc: string, s: string, ci: nat, q: nat)
    requires WellFormed(c) && c.fields != map[] && rc == Render(c)
    requires Occurs(rc, s, ci) && q == ci + |rc| + 1 && q <= |s| && s[q - 1] == ')'
    ensures ci < |s| && s[ci] != ')' && !IsSpace(s[ci])
    ensures FieldAt(s, ci, map[]) == Closed(c.fields, q)
    decreases c, 3
  {
    var ks := SortedKeys(c.fields.Keys);
    RenderedFirstChar(c, ks);
    OccursAt(rc, s, ci, 0);
    LevelRoundTrip(c, ks, s, ci, q - 1, map[]);
    AddAllFields(c, ks);
  }

  /** One rendered entry `e` at `i`, ending at `p`, parses back to that entry; parsing then goes
    * on as `Continue` says. */
  lemma {:induction false} EntryRoundTrip(m: Mask, k: string, e: string, s: string, i: nat, p: nat, f: Fields)
    requires WellFormed(m) && k in m.fields && k !in f && e == RenderEntry(m, k)
    requires Occurs(e, s, i) && p == i + |e| && Follows(s, p)
    ensures FieldAt(s, i, f) == Continue(s, p, f[k := m.fields[k]])
    decreases m, 0
  {
    var n := m.fields[k];
    assert WellFormedEntry(m, k);
    var op := n.op;
    var prefix := if op == Negative then "-" else "";
    var start := NameStart(i, op);
    assert start == i + |prefix|;
    var stop := start + |k|;
    assert i < |s| && (s[i] == '-' <==> op == Negative) by {
      OccursAt(e, s, i, 0);
    }
    if HasChildren(n) {
      var c := n.children.value;
      var rc := Render(c);
      var ci := stop + 2;
      assert e == prefix + k + ":(" + rc + ")";
      assert p == ci + |rc| + 1;
      SubtreeText(prefix, k, rc, s, i, start, stop, ci, p);
      ScanValidName(s, i, k, op, stop);
      ChildRoundTrip(c, rc, s, ci, p);
      assert c.mode == DeriveMode(c.fields);
      SubtreeRoundTrip(s, i, f, k, op, c, stop, ci, p);
      assert n == Node(op, Some(c));
    } else {
      assert n == Node(op, None);
      assert e == prefix + k;
      LeafText(prefix, k, s, i, start);
      ScanValidName(s, i, k, op, stop);
      LeafRoundTrip(s, i, f, k, op, stop);
    }
  }

  /** A level of two or more entries is its first entry, a comma at `p` that an entry follows,
    * and the rendering of the remaining keys from `p + 1`. */
  lemma {:induction false} LevelText(m: Mask, ks: seq<string>, t: string, s: string, i: nat, p: nat)
    requires WellFormed(m) && |ks| > 1 && forall k | k in ks :: k in m.fields
    requires t == Join(Parts(m, ks), ",") && Occurs(t, s, i) && p == i + |RenderEntry(m, ks[0])|
    ensures Occurs(RenderEntry(m, ks[0]), s, i) && Follows(s, p) && p < |s| && s[p] == ','
    ensures Occurs(Join(Parts(m, ks[1..]), ","), s, p + 1)
    ensures i + |t| == p + 1 + |Join(Parts(m, ks[1..]), ",")|
  {
    var ps := Parts(m, ks);
    var e := RenderEntry(m, ks[0]);
    var t' := Join(Parts(m, ks[1..]), ",");
    assert ps[1..] == Parts(m, ks[1..]);
    assert t == e + "," + t';
    ListText(e, t', s, i, p);
    RenderedFirstChar(m, ks[1..]);
    OccursAt(t', s, p + 1, 0);
  }

  /** The first of two or more rendered entries parses back, and a ',' follows it at `p`. */
  lemma {:induction false} LevelHead(m: Mask, ks: seq<string>, t: string, s: string, i: nat, p: nat, f: Fields)
    requires WellFormed(m) && |ks| > 1
    requires forall k | k in ks :: k in m.fields && k !in f
    requires t == Join(Parts(m, ks), ",") && Occurs(t, s, i) && p == i + |RenderEntry(m, ks[0])|
    ensures p < |s| && s[p] == ','
    ensures Occurs(Join(Parts(m, ks[1..]), ","), s, p + 1)
    ensures i + |t| == p + 1 + |Join(Parts(m, ks[1..]), ",")|
    ensures FieldAt(s, i, f) == FieldAt(s, p + 1, f[ks[0] := m.fields[ks[0]]])
    decreases m, 1, 0
  {
    LevelText(m, ks, t, s, i, p);
    EntryRoundTrip(m, ks[0], RenderEntry(m, ks[0]), s, i, p, f);
  }

  /** The keys after the first stay sorted, and none of them is the first. */
  lemma {:induction false} LevelTail(m: Mask, ks: seq<string>, f: Fields)
    requires |ks| > 1 && StrictlySorted(ks)
    requires forall k | k in ks :: k in m.fields && k !in f
    ensures StrictlySorted(ks[1..])
    ensures forall k | k in ks[1..] :: k in m.fields && k !in f[ks[0] := m.fields[ks[0]]]
  {
    forall k | k in ks[1..] ensures k != ks[0] {
      LessIrreflexive(ks[0]);
    }
  }

  /** The rendered entries for the keys `ks` (sorted, all in `m`, none yet in `f`) occur in `s`
    * from `i` to `end`, where the input ends or a ')' follows. */
  predicate LevelAt(m: Mask, ks: seq<string>, s: string, i: nat, end: nat, f: Fields) {
    && WellFormed(m) && |ks| > 0 && StrictlySorted(ks)
    && (forall k | k in ks :: k in m.fields && k !in f)
    && Occurs(Join(Parts(m, ks), ","), s, i)
    && end == i + |Join(Parts(m, ks), ",")|
    && (end == |s| || (end < |s| && s[end] == ')'))
  }

  /** Such entries parse back to exactly those entries. */
  lemma {:induction false} LevelRoundTrip(m: Mask, ks: seq<string>, s: string, i: nat, end: nat, f: Fields)
    requires LevelAt(m, ks, s, i, end, f)
    ensures FieldAt(s, i, f) == Continue(s, end, AddAll(m, ks, f))
    decreases m, 2, |ks|, 1
  {
    if |ks| == 1 {
      var k := ks[0];
      EntryRoundTrip(m, k, RenderEntry(m, k), s, i, end, f);
      assert ks[1..] == [];
    } else {
      LevelCons(m, ks, s, i, end, f);
    }
  }

  /** Past the first of two or more entries and its ',', the rest of the level is again such a
    * level. */
  lemma {:induction false} LevelRest(m: Mask, ks: seq<string>, s: string, i: nat, end: nat, f: Fields, p: nat)
    requires LevelAt(m, ks, s, i, end, f) && |ks| > 1 && p == i + |RenderEntry(m, ks[0])|
    ensures LevelAt(m, ks[1..], s, p + 1, end, f[ks[0] := m.fields[ks[0]]])
    ensures FieldAt(s, i, f) == FieldAt(s, p + 1, f[ks[0] := m.fields[ks[0]]])
    decreases m, 1, 1
  {
    LevelHead(m, ks, Join(Parts(m, ks), ","), s, i, p, f);
    LevelTail(m, ks, f);
  }

  /** A level of two or more entries: the first, a ',', and the rest by induction. */
  lemma {:induction false} LevelCons(m: Mask, ks: seq<string>, s: string, i: nat, end: nat, f: Fields)
    requires LevelAt(m, ks, s, i, end, f) && |ks| > 1
    ensures FieldAt(s, i, f) == Continue(s, end, AddAll(m, ks, f))
    decreases m, 2, |ks|, 0
  {
    var p := i + |RenderEntry(m, ks[0])|;
    LevelRest(m, ks, s, i, end, f, p);
    LevelRoundTrip(m, ks[1..], s, p + 1, end, f[ks[0] := m.fields[ks[0]]]);
  }

  /** Round trip: parsing the rendering of a well-formed mask gives back that mask. */
  lemma {:induction false} ParseRender(m: Mask)
    requires WellFormed(m)
    ensures Parse(Render(m)) == Ok(m)
  {
    var s := Render(m);
    if m.fields == map[] {
      assert FieldAt(s, SpacesEnd(s, 0), map[]) == AtEnd(map[]);
    } else {
      var ks := SortedKeys(m.fields.Keys);
      assert SpacesEnd(s, 0) == 0 by {
        RenderedFirstChar(m, ks);
      }
      assert FieldAt(s, 0, map[]) == AtEnd(m.fields) by {
        assert Occurs(s, s, 0);
        LevelRoundTrip(m, ks, s, 0, |s|, map[]);
        AddAllFields(m, ks);
      }
    }
  }

  /** For every mask `ParseMask` returns, `ParseMask(m.String())` returns an equal mask. */
  lemma {:induction false} ParsedRoundTrip(s: string)
    requires Parse(s).Ok?
    ensures Parse(Render(Parse(s).value)) == Parse(s)
  {
    ParseRender(Parse(s).value);
  }
}
