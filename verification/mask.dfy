/**
 * The field-projection mask (mask.go): a tree of `name -> (Positive|Negative, optional child mask)`
 * entries with a per-level `Mode`, and its canonical text rendering `String()`.
 */
module Masks {
  import opened Wrappers
  import opened Text

  /** `Positive` keeps a field (include), `Negative` drops it (exclude). */
  datatype Op = Positive | Negative

  /** One field decision; `children` is Go's `*Mask` (nil is `None`). */
  datatype Node = Node(op: Op, children: Option<Mask>)

  /** A projection tree; a nil `Fields` map is the empty map. */
  datatype Mask = Mask(mode: Op, fields: map<string, Node>)

  type Fields = map<string, Node>

  /** The empty mask, `Mask{}` (mode Positive, no fields). */
  const EmptyMask := Mask(Positive, map[])

  /** Go's `n.Children != nil && len(n.Children.Fields) > 0`: the node opens a non-empty subtree. */
  predicate HasChildren(n: Node) {
    n.children.Some? && n.children.value.fields != map[]
  }

  /** Some direct entry of `f` carries `op`. */
  predicate HasOp(f: Fields, op: Op) {
    exists k | k in f :: f[k].op == op
  }

  /** Mode derivation shared by the parser and both decoders: Negative iff the level's direct
    * entries include a Negative one and no Positive one. */
  function DeriveMode(f: Fields): (mode: Op)
    ensures mode == Negative <==> HasOp(f, Negative) && !HasOp(f, Positive)
    ensures f == map[] ==> mode == Positive
  {
    if HasOp(f, Negative) && !HasOp(f, Positive) then Negative else Positive
  }

  lemma {:induction false} HasOpUpdate(f: Fields, k: string, n: Node, op: Op)
    requires k !in f
    ensures HasOp(f[k := n], op) <==> HasOp(f, op) || n.op == op
  {
    if HasOp(f, op) {
      var j :| j in f && f[j].op == op;
      assert j in f[k := n] && f[k := n][j].op == op;
    }
    if n.op == op {
      assert k in f[k := n] && f[k := n][k].op == op;
    }
    if HasOp(f[k := n], op) && !HasOp(f, op) {
      var j :| j in f[k := n] && f[k := n][j].op == op;
      assert j == k;
    }
  }

  /** `(*Mask).String()`: a nil mask renders as "". */
  function MaskString(m: Option<Mask>): (r: string)
    ensures m.None? ==> r == ""
  {
    match m
    case None => ""
    case Some(mm) => Render(mm)
  }

  /** The rendering of a non-nil mask: its entries in ascending key order, joined by ','. */
  function Render(m: Mask): (r: string)
    ensures m.fields == map[] ==> r == ""
    decreases m, 2
  {
    Join(Parts(m, SortedKeys(m.fields.Keys)), ",")
  }

  /** The rendered entries for the keys `ks`, in that order. */
  function Parts(m: Mask, ks: seq<string>): (r: seq<string>)
    requires forall k | k in ks :: k in m.fields
    ensures |r| == |ks|
    ensures forall i | 0 <= i < |ks| :: r[i] == RenderEntry(m, ks[i])
    decreases m, 1, |ks|
  {
    if ks == [] then [] else [RenderEntry(m, ks[0])] + Parts(m, ks[1..])
  }

  /** One entry: `-` for a Negative node, the name, and `:(<children>)` when the node has a
    * non-empty child mask. */
  function RenderEntry(m: Mask, name: string): string
    requires name in m.fields
    decreases m, 0
  {
    var node := m.fields[name];
    var prefix := if node.op == Negative then "-" else "";
    if HasChildren(node) then prefix + name + ":(" + Render(node.children.value) + ")"
    else prefix + name
  }

  /** Two masks with the same fields, ops and child structure at every level, whatever their modes. */
  predicate SameShape(a: Mask, b: Mask)
    decreases a
  {
    && a.fields.Keys == b.fields.Keys
    && forall k | k in a.fields ::
         && a.fields[k].op == b.fields[k].op
         && a.fields[k].children.Some? == b.fields[k].children.Some?
         && (a.fields[k].children.Some? ==>
               SameShape(a.fields[k].children.value, b.fields[k].children.value))
  }

  /** The rendering never looks at `Mode`, at any level. */
  lemma {:induction false} RenderIgnoresMode(a: Mask, b: Mask)
    requires SameShape(a, b)
    ensures Render(a) == Render(b)
    decreases a, 2
  {
    PartsIgnoreMode(a, b, SortedKeys(a.fields.Keys));
  }

  lemma {:induction false} PartsIgnoreMode(a: Mask, b: Mask, ks: seq<string>)
    requires SameShape(a, b) && forall k | k in ks :: k in a.fields
    ensures Parts(a, ks) == Parts(b, ks)
    decreases a, 1, |ks|
  {
    if ks != [] {
      EntryIgnoresMode(a, b, ks[0]);
      PartsIgnoreMode(a, b, ks[1..]);
    }
  }

  lemma {:induction false} EntryIgnoresMode(a: Mask, b: Mask, k: string)
    requires SameShape(a, b) && k in a.fields
    ensures RenderEntry(a, k) == RenderEntry(b, k)
    decreases a, 0
  {
    if a.fields[k].children.Some? {
      RenderIgnoresMode(a.fields[k].children.value, b.fields[k].children.value);
    }
  }
}
