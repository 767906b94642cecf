/**
 * The legacy `encoding/json` form of a mask (mask_json.go): a mask is written as nested
 * objects whose leaves are booleans (`true` keeps a field, `false` drops it), and read back
 * from that form, where a number's sign may stand in for a boolean.
 *
 * JSON bytes are not modelled: both directions work on the generic value `encoding/json`
 * produces from them or builds them from (`map[string]any` and its contents).
 */
module MaskJsonLegacy {
  import opened Wrappers
  import opened Masks

  /** A decoded JSON value as `any`: an object, a boolean, a number (its sign), `null`, or
    * anything else (a string or an array). */
  datatype Generic = GObject(entries: map<string, Generic>) | GBool(b: bool) | GNumber(negative: bool) | GNull | GOther

  datatype LegacyError =
    | NotAnObject   // `json.Unmarshal` cannot put the document into a `map[string]any`
    | Unsupported   // some entry, at some depth, is neither an object, a boolean nor a number

  // ---------------------------------------------------------------------------------------
  // Writing (`MarshalJSON`)

  /** `walk`: an entry with a non-empty child mask becomes a nested object, any other entry
    * the boolean "is Positive". */
  function Walk(m: Mask): (r: map<string, Generic>)
    ensures r.Keys == m.fields.Keys
    decreases m, 1
  {
    map k | k in m.fields :: WalkNode(m.fields[k])
  }

  function WalkNode(n: Node): (r: Generic)
    ensures r.GObject? <==> HasChildren(n)
    ensures r.GObject? ==> r.entries.Keys == n.children.value.fields.Keys
    decreases n, 0
  {
    if HasChildren(n) then GObject(Walk(n.children.value)) else GBool(n.op == Positive)
  }

  /** `(*Mask).MarshalJSON` before the bytes are produced: a nil mask or one without fields is
    * written as the empty object. */
  function MarshalJSON(m: Option<Mask>): (r: Generic)
    ensures r.GObject?
    ensures r.entries.Keys == (if m.None? then {} else m.value.fields.Keys)
  {
    if m.None? || m.value.fields == map[] then GObject(map[]) else GObject(Walk(m.value))
  }

  /** The written form holds nothing but objects and booleans, at every depth. */
  predicate BoolTree(g: Generic) {
    match g
    case GObject(e) => forall k | k in e :: BoolTree(e[k])
    case GBool(_) => true
    case _ => false
  }

  lemma {:induction false} WalkBoolTree(m: Mask)
    ensures BoolTree(GObject(Walk(m)))
    decreases m
  {
    forall k | k in m.fields
      ensures BoolTree(Walk(m)[k])
    {
      var n := m.fields[k];
      assert Walk(m)[k] == WalkNode(n);
      if HasChildren(n) {
        WalkBoolTree(n.children.value);
      }
    }
  }

  /** The written form of a mask is made of objects and booleans only: no number, string or
    * array, and `null` never appears. */
  lemma {:induction false} MarshalBoolTree(m: Option<Mask>)
    ensures BoolTree(MarshalJSON(m))
  {
    if m.Some? && m.value.fields != map[] {
      WalkBoolTree(m.value);
    }
  }

  // ---------------------------------------------------------------------------------------
  // Reading (`UnmarshalJSON` and its `build`)

  /** The values `build` accepts, at every depth: objects, booleans and numbers. */
  predicate Supported(g: Generic) {
    match g
    case GObject(e) => forall k | k in e :: Supported(e[k])
    case GBool(_) => true
    case GNumber(_) => true
    case _ => false
  }

  /** The entry `build` makes of an accepted value: an object is a Positive node with the
    * built child mask, `true` and a non-negative number are Positive, `false` and a negative
    * number Negative. */
  function BuildNode(v: Generic): (n: Node)
    requires Supported(v)
    ensures v.GObject? <==> n.children.Some?
    ensures n.op == Negative <==> v == GBool(false) || v == GNumber(true)
    decreases v, 1
  {
    match v
    case GObject(_) => Node(Positive, Some(Built(v)))
    case GBool(b) => Node(if b then Positive else Negative, None)
    case GNumber(negative) => Node(if negative then Negative else Positive, None)
  }

  /** The mask `build` returns for an accepted object: one entry per key and the mode derived
    * from the entries' ops. */
  function Built(g: Generic): (m: Mask)
    requires g.GObject? && Supported(g)
    ensures m.fields.Keys == g.entries.Keys
    ensures m.mode == DeriveMode(m.fields)
    decreases g, 0
  {
    var f := map k | k in g.entries :: BuildNode(g.entries[k]);
    Mask(DeriveMode(f), f)
  }

  /** `build`'s outcome on an object, whatever order the entries are visited in. */
  function BuildResult(g: Generic): (r: Result<Mask, LegacyError>)
    requires g.GObject?
    ensures r.Ok? <==> Supported(g)
  {
    if Supported(g) then Ok(Built(g)) else Err(Unsupported)
  }

  /** `(*Mask).UnmarshalJSON` from the decoded document: `null` is the zero mask `Mask{}`; any
    * other non-object is rejected by `json.Unmarshal`; an object is built. */
  function Unmarshal(data: Generic): (r: Result<Mask, LegacyError>)
    ensures data.GNull? ==> r == Ok(EmptyMask)
    ensures !data.GNull? && !data.GObject? ==> r == Err(NotAnObject)
    ensures data.GObject? ==> (r.Ok? <==> Supported(data))
  {
    if data.GNull? then Ok(EmptyMask)
    else if data.GObject? then BuildResult(data)
    else Err(NotAnObject)
  }

  /** `build`: the entries in an unspecified order (Go's map iteration), then the mode from
    * two flags. An unsupported value returns at once, as does a failed child. */
  method Build(g: Generic) returns (r: Result<Mask, LegacyError>)
    requires g.GObject?
    ensures r == BuildResult(g)
    decreases g
  {
    var remaining := g.entries.Keys;
    var fields: Fields := map[];
    while remaining != {}
      invariant remaining <= g.entries.Keys
      invariant fields.Keys == g.entries.Keys - remaining
      invariant forall k | k in fields :: Supported(g.entries[k]) && fields[k] == BuildNode(g.entries[k])
      decreases remaining
    {
      var k :| k in remaining;
      var v := g.entries[k];
      if v.GObject? {
        var child := Build(v);
        if child.Err? {
          return child;
        }
        fields := fields[k := Node(Positive, Some(child.value))];
      } else if v.GBool? {
        var op := Negative;
        if v.b {
          op := Positive;
        }
        fields := fields[k := Node(op, None)];
      } else if v.GNumber? {
        var op := Positive;
        if v.negative {
          op := Negative;
        }
        fields := fields[k := Node(op, None)];
      } else {
        assert !Supported(g.entries[k]);
        return Err(Unsupported);
      }
      remaining := remaining - {k};
    }
    assert Supported(g);
    assert fields == map k | k in g.entries :: BuildNode(g.entries[k]);

    var hasPos, hasNeg := false, false;
    var left := fields.Keys;
    while left != {}
      invariant left <= fields.Keys
      invariant hasPos == HasOp(fields - left, Positive)
      invariant hasNeg == HasOp(fields - left, Negative)
      decreases left
    {
      var k :| k in left;
      HasOpGrow(fields, left, k, Positive);
      HasOpGrow(fields, left, k, Negative);
      if fields[k].op == Positive {
        hasPos := true;
      } else if fields[k].op == Negative {
        hasNeg := true;
      }
      left := left - {k};
    }
    assert fields - left == fields;
    var mode := Positive;
    if !hasPos && hasNeg {
      mode := Negative;
    }
    assert mode == DeriveMode(fields);
    assert Built(g) == Mask(mode, fields);
    return Ok(Mask(mode, fields));
  }

  /** One more entry taken into account by the mode loop. */
  lemma {:induction false} HasOpGrow(f: Fields, left: set<string>, k: string, op: Op)
    requires k in left && left <= f.Keys
    ensures HasOp(f - (left - {k}), op) <==> HasOp(f - left, op) || f[k].op == op
  {
    assert f - (left - {k}) == (f - left)[k := f[k]];
    HasOpUpdate(f - left, k, f[k], op);
  }

  /** `(*Mask).UnmarshalJSON`: on success the receiver becomes the decoded mask, on failure it
    * is left as it was. */
  method UnmarshalJSON(m: Mask, data: Generic) returns (m': Mask, err: Option<LegacyError>)
    ensures err.None? ==> Unmarshal(data) == Ok(m')
    ensures err.Some? ==> Unmarshal(data) == Err(err.value) && m' == m
  {
    if data.GNull? {
      return EmptyMask, None;
    }
    if !data.GObject? {
      return m, Some(NotAnObject);
    }
    var built := Build(data);
    if built.Err? {
      return m, Some(built.error);
    }
    return built.value, None;
  }

  // ---------------------------------------------------------------------------------------
  // Properties

  /** Every level of the mask has the mode its own entries imply. */
  predicate ModesDerived(m: Mask)
    decreases m
  {
    && m.mode == DeriveMode(m.fields)
    && forall k | k in m.fields && m.fields[k].children.Some? :: ModesDerived(m.fields[k].children.value)
  }

  /** A decoded mask's modes are all derived from its entries, exactly as the text parser
    * derives them. */
  lemma {:induction false} BuiltModes(g: Generic)
    requires g.GObject? && Supported(g)
    ensures ModesDerived(Built(g))
    decreases g
  {
    var m := Built(g);
    forall k | k in m.fields && m.fields[k].children.Some?
      ensures ModesDerived(m.fields[k].children.value)
    {
      assert m.fields[k] == BuildNode(g.entries[k]);
      assert m.fields[k].children.value == Built(g.entries[k]);
      BuiltModes(g.entries[k]);
    }
  }

  lemma {:induction false} UnmarshalModes(data: Generic)
    requires Unmarshal(data).Ok?
    ensures ModesDerived(Unmarshal(data).value)
  {
    if data.GObject? {
      BuiltModes(data);
    }
  }

  /** Reading back a written mask keeps every key and every leaf's op, but a node with
    * children always comes back Positive (its polarity is not written), a node whose child
    * mask is empty comes back as a leaf, and each level's mode is re-derived. */
  lemma {:induction false} RebuiltEntries(m: Mask)
    ensures Supported(GObject(Walk(m)))
    ensures Built(GObject(Walk(m))).fields.Keys == m.fields.Keys
    ensures forall k | k in m.fields ::
              && (Built(GObject(Walk(m))).fields[k].children.Some? <==> HasChildren(m.fields[k]))
              && Built(GObject(Walk(m))).fields[k].op
                 == (if HasChildren(m.fields[k]) then Positive else m.fields[k].op)
  {
    WalkBoolTree(m);
    BoolTreeSupported(GObject(Walk(m)));
  }

  lemma {:induction false} BoolTreeSupported(g: Generic)
    requires BoolTree(g)
    ensures Supported(g)
    decreases g
  {
    if g.GObject? {
      forall k | k in g.entries
        ensures Supported(g.entries[k])
      {
        BoolTreeSupported(g.entries[k]);
      }
    }
  }

  /** Writing, reading and writing again gives the first written form: the legacy form is a
    * fixed point of the round trip even though the mask itself may change. */
  lemma {:induction false} WalkRoundTrip(m: Mask)
    ensures Supported(GObject(Walk(m)))
    ensures Walk(Built(GObject(Walk(m)))) == Walk(m)
    decreases m
  {
    RebuiltEntries(m);
    var b := Built(GObject(Walk(m)));
    forall k | k in m.fields
      ensures WalkNode(b.fields[k]) == WalkNode(m.fields[k])
    {
      var n := m.fields[k];
      if HasChildren(n) {
        WalkRoundTrip(n.children.value);
        assert b.fields[k] == Node(Positive, Some(Built(GObject(Walk(n.children.value)))));
      }
    }
    assert Walk(b) == Walk(m);
  }

  lemma {:induction false} MarshalRoundTrip(m: Option<Mask>)
    ensures Unmarshal(MarshalJSON(m)).Ok?
    ensures MarshalJSON(Some(Unmarshal(MarshalJSON(m)).value)) == MarshalJSON(m)
  {
    if m.Some? && m.value.fields != map[] {
      WalkRoundTrip(m.value);
    } else {
      assert MarshalJSON(m) == GObject(map[]);
      assert Supported(GObject(map[]));
      assert Built(GObject(map[])).fields == map[];
    }
  }

  // ---------------------------------------------------------------------------------------
  // The case of mask_json_test.go

  /** `a,-b,c:(d,-e)` is written as `{"a":true,"b":false,"c":{"d":true,"e":false}}`, and
    * reading that back and writing it again gives the same document. */
  lemma ExampleLegacy(m: Mask)
    requires m == Mask(Positive, map["a" := Node(Positive, None), "b" := Node(Negative, None),
                                     "c" := Node(Positive, Some(Mask(Positive, map["d" := Node(Positive, None), "e" := Node(Negative, None)])))])
    ensures MarshalJSON(Some(m))
         == GObject(map["a" := GBool(true), "b" := GBool(false), "c" := GObject(map["d" := GBool(true), "e" := GBool(false)])])
    ensures Unmarshal(MarshalJSON(Some(m))).Ok?
    ensures MarshalJSON(Some(Unmarshal(MarshalJSON(Some(m))).value)) == MarshalJSON(Some(m))
  {
    TwoLeaves(m.fields["c"].children.value, "d", "e");
    TwoLeavesAndChild(m, "a", "b", "c", m.fields["c"].children.value);
    MarshalRoundTrip(Some(m));
  }

  lemma TwoLeaves(c: Mask, d: string, e: string)
    requires d != e
    requires c == Mask(Positive, map[d := Node(Positive, None), e := Node(Negative, None)])
    ensures c.fields != map[] && Walk(c) == map[d := GBool(true), e := GBool(false)]
  {
    assert c.fields.Keys == {d, e};
  }

  lemma TwoLeavesAndChild(m: Mask, a: string, b: string, c: string, child: Mask)
    requires a != b && b != c && a != c && child.fields != map[]
    requires m == Mask(Positive, map[a := Node(Positive, None), b := Node(Negative, None), c := Node(Positive, Some(child))])
    ensures MarshalJSON(Some(m)) == GObject(map[a := GBool(true), b := GBool(false), c := GObject(Walk(child))])
  {
    assert m.fields.Keys == {a, b, c};
    assert HasChildren(m.fields[c]);
    assert Walk(m)[c] == GObject(Walk(child));
    assert Walk(m) == map[a := GBool(true), b := GBool(false), c := GObject(Walk(child))];
  }
}
