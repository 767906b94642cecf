/**
 * The MongoDB projection stage (stage/mongodb/projection.go): a mask becomes either an
 * exclusion document (`field: 0` for each dropped top-level field) or an inclusion document
 * (`dotted.path: 1` for each kept leaf), never a mix of the two.
 *
 * The `bson.D` result is a sequence of key/value elements; its order follows Go's map
 * iteration and is left unspecified here.
 */
module MongoProjection {
  import opened Wrappers
  import opened Text
  import opened Masks

  /** A `bson.E` of the projection: a field path and 1 (include) or 0 (exclude). */
  datatype Elem = Elem(key: string, value: int)

  /** No key appears twice in the document. */
  predicate DistinctKeys(out: seq<Elem>) {
    forall i, j | 0 <= i < j < |out| :: out[i].key != out[j].key
  }

  /** `out` lists exactly the elements of `want`, each key once, in some order. */
  predicate Document(out: seq<Elem>, want: set<Elem>) {
    && DistinctKeys(out)
    && (forall i | 0 <= i < |out| :: out[i] in want)
    && (forall e | e in want :: e in out)
  }

  // ---------------------------------------------------------------------------------------
  // Choosing the form

  /** `needsInclusion`: some direct entry is Positive, or is a Negative override whose child
    * mask needs inclusion. */
  predicate NeedsInclusion(m: Mask)
    decreases m
  {
    exists k | k in m.fields ::
      || m.fields[k].op == Positive
      || (m.fields[k].op == Negative && HasChildren(m.fields[k]) && NeedsInclusion(m.fields[k].children.value))
  }

  /** `path` leads from the root to a Positive node through Negative nodes with non-empty
    * children. */
  predicate ReachesPositive(m: Mask, path: seq<string>)
    decreases |path|
  {
    && path != []
    && path[0] in m.fields
    && var n := m.fields[path[0]];
       if |path| == 1 then n.op == Positive
       else n.op == Negative && HasChildren(n) && ReachesPositive(n.children.value, path[1..])
  }

  /** Inclusion is needed exactly when a Positive node can be reached through a chain of
    * Negative overrides. */
  lemma {:induction false} NeedsInclusionReach(m: Mask)
    ensures NeedsInclusion(m) <==> exists path :: ReachesPositive(m, path)
    decreases m
  {
    if NeedsInclusion(m) {
      var k :| k in m.fields &&
        (|| m.fields[k].op == Positive
         || (m.fields[k].op == Negative && HasChildren(m.fields[k]) && NeedsInclusion(m.fields[k].children.value)));
      if m.fields[k].op == Positive {
        assert ReachesPositive(m, [k]);
      } else {
        var child := m.fields[k].children.value;
        NeedsInclusionReach(child);
        var p :| ReachesPositive(child, p);
        assert ([k] + p)[0] == k && ([k] + p)[1..] == p;
        assert ReachesPositive(m, [k] + p);
      }
      assert exists path :: ReachesPositive(m, path);
    }
    if exists path :: ReachesPositive(m, path) {
      var path :| ReachesPositive(m, path);
      var k := path[0];
      var n := m.fields[k];
      if |path| > 1 {
        NeedsInclusionReach(n.children.value);
        assert ReachesPositive(n.children.value, path[1..]);
        assert exists p :: ReachesPositive(n.children.value, p);
      }
      assert n.op == Positive || (n.op == Negative && HasChildren(n) && NeedsInclusion(n.children.value));
      assert NeedsInclusion(m);
    }
  }

  // ---------------------------------------------------------------------------------------
  // The exclusion form

  /** The top-level fields an exclusion document drops: Negative nodes without non-empty
    * children. */
  function Excluded(m: Mask): (r: set<string>)
    ensures forall k | k in r :: k in m.fields && m.fields[k].op == Negative && !HasChildren(m.fields[k])
    ensures forall k | k in m.fields && m.fields[k].op == Negative && !HasChildren(m.fields[k]) :: k in r
  {
    set k | k in m.fields && m.fields[k].op == Negative && !HasChildren(m.fields[k])
  }

  function ExclusionDoc(m: Mask): set<Elem> {
    set k | k in Excluded(m) :: Elem(k, 0)
  }

  /** The exclusion branch: one `(name, 0)` per childless Negative top-level node. */
  method ExcludeFields(m: Mask) returns (out: seq<Elem>)
    ensures Document(out, ExclusionDoc(m))
  {
    out := [];
    var remaining := m.fields.Keys;
    while remaining != {}
      invariant remaining <= m.fields.Keys
      invariant DistinctKeys(out)
      invariant forall i | 0 <= i < |out| :: out[i].value == 0 && out[i].key in Excluded(m) && out[i].key !in remaining
      invariant forall k | k in Excluded(m) && k !in remaining :: Elem(k, 0) in out
      decreases remaining
    {
      var name :| name in remaining;
      var node := m.fields[name];
      if node.op == Negative && (node.children.None? || node.children.value.fields == map[]) {
        out := out + [Elem(name, 0)];
      }
      remaining := remaining - {name};
    }
  }

  // ---------------------------------------------------------------------------------------
  // The inclusion form

  /** The name paths `walk` includes below the entry `k`: the entry itself when it is a
    * Positive leaf, the paths below it when it has non-empty children, nothing otherwise. */
  function EntryLeaves(m: Mask, k: string): (r: set<seq<string>>)
    requires k in m.fields
    ensures forall p | p in r :: |p| > 0 && p[0] == k
    decreases m, 0
  {
    var n := m.fields[k];
    if HasChildren(n) then (set p | p in Leaves(n.children.value) :: [k] + p)
    else if n.op == Positive then {[k]}
    else {}
  }

  /** The name paths included below the entries `keys` of `m`. */
  function LeavesOf(m: Mask, keys: set<string>): (r: set<seq<string>>)
    requires keys <= m.fields.Keys
    ensures forall p | p in r :: |p| > 0 && p[0] in keys
    decreases m, 1
  {
    set k, p | k in keys && p in EntryLeaves(m, k) :: p
  }

  function Leaves(m: Mask): (r: set<seq<string>>)
    ensures forall p | p in r :: |p| > 0 && p[0] in m.fields
    decreases m, 2
  {
    LeavesOf(m, m.fields.Keys)
  }

  /** `path` names a Positive node without non-empty children, reached through nodes that
    * have non-empty children (whatever their op). */
  predicate LeafPath(m: Mask, path: seq<string>)
    decreases |path|
  {
    && path != []
    && path[0] in m.fields
    && var n := m.fields[path[0]];
       if |path| == 1 then n.op == Positive && !HasChildren(n)
       else HasChildren(n) && LeafPath(n.children.value, path[1..])
  }

  /** The included paths are exactly the paths to Positive leaves: Negative nodes and nodes
    * with children never give a path of their own. */
  lemma {:induction false} LeavesExactly(m: Mask, path: seq<string>)
    ensures path in Leaves(m) <==> LeafPath(m, path)
    decreases m
  {
    if path != [] && path[0] in m.fields {
      var k := path[0];
      var n := m.fields[k];
      assert path in Leaves(m) <==> path in EntryLeaves(m, k);
      if HasChildren(n) && |path| > 1 {
        assert path == [k] + path[1..];
        LeavesExactly(n.children.value, path[1..]);
        if path in EntryLeaves(m, k) {
          var p :| p in Leaves(n.children.value) && path == [k] + p;
          assert p == path[1..];
          assert LeafPath(n.children.value, path[1..]);
          assert LeafPath(m, path);
        }
        if LeafPath(m, path) {
          assert LeafPath(n.children.value, path[1..]);
          assert path[1..] in Leaves(n.children.value);
          assert [k] + path[1..] in EntryLeaves(m, k);
          assert path in Leaves(m);
        }
      } else if !HasChildren(n) && |path| == 1 {
        assert path == [k];
      }
    }
  }

  /** The dotted keys of the paths `ps` below the name stack `stack`. */
  function Dotted(stack: seq<string>, ps: set<seq<string>>): (r: set<string>)
    ensures forall p | p in ps :: Join(stack + p, ".") in r
  {
    set p | p in ps :: Join(stack + p, ".")
  }

  lemma {:induction false} DottedUnion(stack: seq<string>, a: set<seq<string>>, b: set<seq<string>>)
    ensures Dotted(stack, a + b) == Dotted(stack, a) + Dotted(stack, b)
  {
  }

  lemma {:induction false} DottedBelow(m: Mask, k: string, stack: seq<string>)
    requires k in m.fields && HasChildren(m.fields[k])
    ensures Dotted(stack + [k], Leaves(m.fields[k].children.value)) == Dotted(stack, EntryLeaves(m, k))
  {
    var child := m.fields[k].children.value;
    forall p | p in Leaves(child)
      ensures stack + [k] + p == stack + ([k] + p)
    {
    }
  }

  lemma {:induction false} LeavesOfGrow(m: Mask, done: set<string>, k: string)
    requires done <= m.fields.Keys && k in m.fields
    ensures LeavesOf(m, done + {k}) == LeavesOf(m, done) + EntryLeaves(m, k)
  {
  }

  /** `walk`: for each entry, in map order, the work of `WalkEntry`. */
  method WalkInclude(mm: Mask, stack: seq<string>, inc: set<string>) returns (stack': seq<string>, inc': set<string>)
    ensures stack' == stack
    ensures inc' == inc + Dotted(stack, Leaves(mm))
    decreases mm, 1
  {
    stack', inc' := stack, inc;
    var remaining := mm.fields.Keys;
    ghost var done: set<string> := {};
    while remaining != {}
      invariant remaining <= mm.fields.Keys && done == mm.fields.Keys - remaining
      invariant stack' == stack
      invariant inc' == inc + Dotted(stack, LeavesOf(mm, done))
      decreases remaining
    {
      var name :| name in remaining;
      ghost var before := inc';
      stack', inc' := WalkEntry(mm, name, stack', inc');
      WalkStep(mm, done, name, stack, inc, before, inc');
      remaining := remaining - {name};
      done := done + {name};
    }
    WalkDone(mm, done, stack, inc, inc');
  }

  lemma {:induction false} WalkStep(mm: Mask, done: set<string>, name: string, stack: seq<string>,
                                    inc: set<string>, inc1: set<string>, inc2: set<string>)
    requires done <= mm.fields.Keys && name in mm.fields
    requires inc1 == inc + Dotted(stack, LeavesOf(mm, done))
    requires inc2 == inc1 + Dotted(stack, EntryLeaves(mm, name))
    ensures inc2 == inc + Dotted(stack, LeavesOf(mm, done + {name}))
  {
    LeavesOfGrow(mm, done, name);
    DottedUnion(stack, LeavesOf(mm, done), EntryLeaves(mm, name));
  }

  lemma {:induction false} WalkDone(mm: Mask, done: set<string>, stack: seq<string>, inc: set<string>, inc1: set<string>)
    requires done == mm.fields.Keys
    requires inc1 == inc + Dotted(stack, LeavesOf(mm, done))
    ensures inc1 == inc + Dotted(stack, Leaves(mm))
  {
  }

  /** One iteration of `walk`'s loop: push the name on the shared `stack`, descend into
    * non-empty children, add the dotted stack of a Positive leaf to `inc`, pop the name. */
  method WalkEntry(mm: Mask, name: string, stack: seq<string>, inc: set<string>) returns (stack': seq<string>, inc': set<string>)
    requires name in mm.fields
    ensures stack' == stack
    ensures inc' == inc + Dotted(stack, EntryLeaves(mm, name))
    decreases mm, 0
  {
    var node := mm.fields[name];
    stack', inc' := stack + [name], inc;
    if node.op == Negative {
      if node.children.Some? && node.children.value.fields != map[] {
        DottedBelow(mm, name, stack);
        stack', inc' := WalkInclude(node.children.value, stack', inc');
      }
      stack' := stack'[..|stack'| - 1];
      return;
    }
    if node.children.Some? && node.children.value.fields != map[] {
      DottedBelow(mm, name, stack);
      stack', inc' := WalkInclude(node.children.value, stack', inc');
      stack' := stack'[..|stack'| - 1];
      return;
    }
    var path := Join(stack', ".");
    assert Dotted(stack, {[name]}) == {path};
    inc' := inc' + {path};
    stack' := stack'[..|stack'| - 1];
  }

  function InclusionDoc(m: Mask): set<Elem> {
    set s | s in Dotted([], Leaves(m)) :: Elem(s, 1)
  }

  /** The inclusion branch after `walk`: one `(key, 1)` per collected key. */
  method IncludeKeys(inc: set<string>) returns (out: seq<Elem>)
    ensures Document(out, set s | s in inc :: Elem(s, 1))
  {
    out := [];
    var left := inc;
    while left != {}
      invariant left <= inc
      invariant DistinctKeys(out)
      invariant forall i | 0 <= i < |out| :: out[i].value == 1 && out[i].key in inc && out[i].key !in left
      invariant forall s | s in inc && s !in left :: Elem(s, 1) in out
      decreases left
    {
      var k :| k in left;
      out := out + [Elem(k, 1)];
      left := left - {k};
    }
  }

  // ---------------------------------------------------------------------------------------
  // `Project`

  /** The projection a mask stands for: empty for a nil mask or one without fields, the
    * exclusion form when no inclusion is needed, the inclusion form otherwise. */
  function Projection(m: Option<Mask>): (r: set<Elem>)
    ensures forall e | e in r :: e.value == (if m.Some? && NeedsInclusion(m.value) then 1 else 0)
    ensures forall e, e' | e in r && e' in r && e.key == e'.key :: e == e'
  {
    if m.None? || m.value.fields == map[] then {}
    else if !NeedsInclusion(m.value) then ExclusionDoc(m.value)
    else InclusionDoc(m.value)
  }

  method Project(m: Option<Mask>) returns (out: seq<Elem>)
    ensures Document(out, Projection(m))
    ensures m.None? || m.value.fields == map[] ==> out == []
  {
    if m.None? || m.value.fields == map[] {
      return [];
    }
    var mm := m.value;
    if !NeedsInclusion(mm) {
      out := ExcludeFields(mm);
      return;
    }
    var stack, inc := WalkInclude(mm, [], {});
    out := IncludeKeys(inc);
  }

  // ---------------------------------------------------------------------------------------
  // Properties

  /** The mode fields are never consulted: masks with the same entries, ops and children
    * project alike. */
  lemma {:induction false} ProjectionIgnoresMode(a: Mask, b: Mask)
    requires SameShape(a, b)
    ensures Projection(Some(a)) == Projection(Some(b))
  {
    NeedsSame(a, b);
    LeavesSame(a, b);
    assert Excluded(a) == Excluded(b);
  }

  lemma {:induction false} NeedsSame(a: Mask, b: Mask)
    requires SameShape(a, b)
    ensures NeedsInclusion(a) == NeedsInclusion(b)
    decreases a
  {
    forall k | k in a.fields && HasChildren(a.fields[k])
      ensures NeedsInclusion(a.fields[k].children.value) == NeedsInclusion(b.fields[k].children.value)
    {
      NeedsSame(a.fields[k].children.value, b.fields[k].children.value);
    }
    if NeedsInclusion(a) {
      var k :| k in a.fields &&
        (|| a.fields[k].op == Positive
         || (a.fields[k].op == Negative && HasChildren(a.fields[k]) && NeedsInclusion(a.fields[k].children.value)));
      assert k in b.fields;
    }
    if NeedsInclusion(b) {
      var k :| k in b.fields &&
        (|| b.fields[k].op == Positive
         || (b.fields[k].op == Negative && HasChildren(b.fields[k]) && NeedsInclusion(b.fields[k].children.value)));
      assert k in a.fields;
    }
  }

  lemma {:induction false} LeavesSame(a: Mask, b: Mask)
    requires SameShape(a, b)
    ensures Leaves(a) == Leaves(b)
    decreases a
  {
    forall k | k in a.fields
      ensures EntryLeaves(a, k) == EntryLeaves(b, k)
    {
      if HasChildren(a.fields[k]) {
        LeavesSame(a.fields[k].children.value, b.fields[k].children.value);
      }
    }
  }

  // ---------------------------------------------------------------------------------------
  // Sample masks: two cases of stage/mongodb/projection_test.go, and `-a,-c:(-e)`, where the
  // doc comment of `Project` (stage/mongodb/projection.go:16) says any negative node with
  // children forces the inclusion form but the code keeps the exclusion form.

  /** `-a,-b`: an exclusion document. */
  lemma ExampleExclude(m: Mask)
    requires m == Mask(Negative, map["a" := Node(Negative, None), "b" := Node(Negative, None)])
    ensures Projection(Some(m)) == {Elem("a", 0), Elem("b", 0)}
  {
    assert m.fields.Keys == {"a", "b"};
    assert !NeedsInclusion(m);
    assert Excluded(m) == {"a", "b"};
  }

  /** `-a,-c:(-e)`: an override without a Positive node below it leaves the exclusion form, and
    * contributes nothing to it. */
  lemma ExampleNestedExclude(m: Mask)
    requires m == Mask(Negative, map["a" := Node(Negative, None),
                                     "c" := Node(Negative, Some(Mask(Negative, map["e" := Node(Negative, None)])))])
    ensures Projection(Some(m)) == {Elem("a", 0)}
  {
    var child := m.fields["c"].children.value;
    assert child.fields.Keys == {"e"} && m.fields.Keys == {"a", "c"};
    assert !NeedsInclusion(child);
    assert HasChildren(m.fields["c"]);
    assert !NeedsInclusion(m);
    assert Excluded(m) == {"a"};
  }

  /** `-z:(x)`: a Negative override with a Positive child forces the inclusion form. */
  lemma ExampleOverride(m: Mask)
    requires m == Mask(Negative, map["z" := Node(Negative, Some(Mask(Positive, map["x" := Node(Positive, None)])))])
    ensures Projection(Some(m)) == {Elem("z.x", 1)}
  {
    OverrideLeaf(m, "z", "x");
    assert Join(["z", "x"], ".") == "z.x";
    assert Dotted([], Leaves(m)) == {"z.x"};
  }

  /** `-z:(x)` with any two names. */
  lemma OverrideLeaf(m: Mask, z: string, x: string)
    requires m == Mask(Negative, map[z := Node(Negative, Some(Mask(Positive, map[x := Node(Positive, None)])))])
    ensures NeedsInclusion(m) && Leaves(m) == {[z, x]}
    ensures Dotted([], Leaves(m)) == {Join([z, x], ".")}
  {
    var child := m.fields[z].children.value;
    SingleLeaf(child, x);
    assert m.fields.Keys == {z};
    assert [z] + [x] == [z, x] && [] + [z, x] == [z, x];
    assert EntryLeaves(m, z) == {[z, x]};
  }

  /** `x` alone: one included path. */
  lemma SingleLeaf(c: Mask, x: string)
    requires c == Mask(Positive, map[x := Node(Positive, None)])
    ensures c.fields != map[] && NeedsInclusion(c) && Leaves(c) == {[x]}
  {
    assert c.fields.Keys == {x};
    assert EntryLeaves(c, x) == {[x]};
  }
}
