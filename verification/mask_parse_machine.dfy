/**
 * `ParseMask` (mask_parse.go) as the state machine it is: one loop over a cursor, five states,
 * and an explicit stack of frames, each frame holding a level's entries and its `hasPos` /
 * `hasNeg` flags. The method is proved to return exactly what the recursive grammar of
 * `MaskGrammar.Parse` returns, for every input.
 *
 * The proof's loop invariant says that resuming the recursive grammar from the machine's current
 * configuration (`Resume`) gives `Parse(s)`: the state and cursor say how the current level goes
 * on, and every frame below it says how its parent level goes on once the child closes.
 */
module MaskParser {
  import opened Wrappers
  import opened Text
  import opened Masks
  import opened MaskGrammar

  /** `parseState`. */
  datatype State = ParseField | AfterField | Descend | Ascend | Traverse

  /** A frame of the stack: the level's entries so far and whether a Positive / Negative entry was
    * added to it. `name` and `op` are those of the parent's entry whose children this level is
    * (unused for the root frame). */
  datatype Frame = Frame(fields: Fields, hasPos: bool, hasNeg: bool, name: string, op: Op)

  /** The machine's variables: `currentState`, `idx`, `fieldName`, `op` and `stack`. */
  datatype Machine = Machine(state: State, idx: nat, fieldName: string, op: Op, stack: seq<Frame>)

  /** The frame's flags say whether its entries include a Positive / a Negative one. */
  predicate FrameOK(fr: Frame) {
    fr.hasPos == HasOp(fr.fields, Positive) && fr.hasNeg == HasOp(fr.fields, Negative)
  }

  /** A stack of frames as `ParseMask` keeps it: the root frame is never popped, all flags are
    * accurate, and every open child level has its entry, with its op, in its parent. */
  predicate StackOK(stack: seq<Frame>) {
    && |stack| >= 1
    && (forall j | 0 <= j < |stack| :: FrameOK(stack[j]))
    && (forall j | 1 <= j < |stack| ::
          stack[j].name in stack[j - 1].fields && stack[j - 1].fields[stack[j].name].op == stack[j].op)
  }

  /** The machine invariant: a valid stack, and the cursor at most one past the end. */
  predicate Valid(s: string, m: Machine) {
    StackOK(m.stack) && m.idx <= |s| + 1
  }

  /** The mode a frame gets when it is closed (lines 182-186 and 218-222). */
  function FrameMode(fr: Frame): (mode: Op)
    requires FrameOK(fr)
    ensures mode == DeriveMode(fr.fields)
  {
    if !fr.hasPos && fr.hasNeg then Negative else Positive
  }

  // ---------------------------------------------------------------------------------------
  // What the recursive grammar makes of a configuration.

  /** How the current level goes on from state `st` at `idx`; past the end it has ended. */
  ghost function Level(s: string, st: State, idx: nat, name: string, op: Op, f: Fields): (o: Outcome)
    ensures o.Closed? ==> o.next <= |s|
  {
    if idx > |s| then AtEnd(f)
    else
      match st
      case ParseField => FieldAt(s, idx, f)
      case AfterField => AfterFieldAt(s, idx, name, op, f)
      case Descend => DescendAt(s, idx, name, op, f)
      case Traverse => TraverseAt(s, idx, f)
      case Ascend => Closed(f, idx)
  }

  /** How the levels below go on once the current one (the children of the entry `name`, `op`
    * of the innermost frame of `below`) stops with `o`; the root level's outcome is the result. */
  ghost function Unwind(s: string, o: Outcome, below: seq<Frame>, name: string, op: Op): Result<Mask, ParseError>
    requires o.Closed? ==> o.next <= |s|
    decreases |below|
  {
    if below == [] then
      match o
      case Failed(e) => Err(e)
      case AtEnd(f) => Ok(Mask(DeriveMode(f), f))
      case Closed(_, _) => Err(UnmatchedClose)
    else
      var parent := below[|below| - 1];
      var o' := match o
        case Failed(e) => Failed(e)
        case AtEnd(_) => Failed(MissingClose)
        case Closed(c, j) => AfterChildAt(s, j, parent.fields[name := Node(op, Some(Mask(DeriveMode(c), c)))]);
      Unwind(s, o', below[..|below| - 1], parent.name, parent.op)
  }

  /** The result the recursive grammar gives from configuration `m`. */
  ghost function Resume(s: string, m: Machine): Result<Mask, ParseError>
    requires Valid(s, m)
  {
    var top := m.stack[|m.stack| - 1];
    Unwind(s, Level(s, m.state, m.idx, m.fieldName, m.op, top.fields), m.stack[..|m.stack| - 1], top.name, top.op)
  }

  /** An error stops every level below it. */
  lemma {:induction false} UnwindFailed(s: string, e: ParseError, below: seq<Frame>, name: string, op: Op)
    ensures Unwind(s, Failed(e), below, name, op) == Err(e)
    decreases |below|
  {
    if below != [] {
      var parent := below[|below| - 1];
      UnwindFailed(s, e, below[..|below| - 1], parent.name, parent.op);
    }
  }

  /** Order in which `idx` and the state move: every step advances the cursor, or keeps it and
    * moves to a state of lower rank (Traverse, then ParseField, then AfterField). */
  function Rank(st: State): nat {
    match st
    case Traverse => 2
    case ParseField => 1
    case _ => 0
  }

  predicate Advances(m': Machine, m: Machine) {
    m'.idx > m.idx || (m'.idx == m.idx && Rank(m'.state) < Rank(m.state))
  }

  // ---------------------------------------------------------------------------------------
  // The helpers of `ParseMask`.

  /** `skipSpaces`. */
  method SkipSpaces(s: string, i: nat) returns (j: nat)
    requires i <= |s|
    ensures j == SpacesEnd(s, i)
  {
    j := i;
    while j < |s| && IsSpace(s[j])
      invariant i <= j <= |s| && SpacesEnd(s, j) == SpacesEnd(s, i)
      decreases |s| - j
    {
      j := j + 1;
    }
  }

  /** The name scan of `stateParseField` (lines 98-108): up to the next ':', ',' or ')'. */
  method ScanName(s: string, start: nat) returns (j: nat)
    requires start <= |s|
    ensures j == NameEnd(s, start)
  {
    j := start;
    while j < |s| && !IsTerminator(s[j])
      invariant start <= j <= |s| && NameEnd(s, j) == NameEnd(s, start)
      decreases |s| - j
    {
      j := j + 1;
    }
  }

  /** `addLeaf` on the innermost frame. */
  method AddLeafTo(top: Frame, name: string, op: Op) returns (r: Result<Frame, ParseError>)
    requires FrameOK(top)
    ensures AddLeaf(top.fields, name, op).Err? ==> r == Err(AddLeaf(top.fields, name, op).error)
    ensures AddLeaf(top.fields, name, op).Ok? ==>
              && r.Ok? && FrameOK(r.value) && r.value.fields == AddLeaf(top.fields, name, op).value
              && r.value.name == top.name && r.value.op == top.op
  {
    if name == "" {
      return Err(EmptyField);
    }
    if name in top.fields {
      return Err(DuplicateField);
    }
    HasOpUpdate(top.fields, name, Node(op, None), Positive);
    HasOpUpdate(top.fields, name, Node(op, None), Negative);
    var fields := top.fields[name := Node(op, None)];
    var hasPos, hasNeg := top.hasPos, top.hasNeg;
    match op {
      case Positive => hasPos := true;
      case Negative => hasNeg := true;
    }
    r := Ok(Frame(fields, hasPos, hasNeg, top.name, top.op));
  }

  /** Overwriting an entry with a node of the same op keeps which ops the level has. */
  lemma {:induction false} HasOpOverwrite(f: Fields, k: string, n: Node, op: Op)
    requires k in f && f[k].op == n.op
    ensures HasOp(f[k := n], op) <==> HasOp(f, op)
  {
    if HasOp(f, op) {
      var j :| j in f && f[j].op == op;
      assert j in f[k := n] && f[k := n][j].op == op;
    }
    if HasOp(f[k := n], op) {
      var j :| j in f[k := n] && f[k := n][j].op == op;
      assert j in f && f[j].op == op;
    }
  }

  /** Replacing the innermost frame by one that hangs under the same entry keeps the stack valid. */
  lemma {:induction false} ReplaceTop(stack: seq<Frame>, fr: Frame)
    requires StackOK(stack) && FrameOK(fr)
    requires fr.name == stack[|stack| - 1].name && fr.op == stack[|stack| - 1].op
    ensures StackOK(stack[..|stack| - 1] + [fr])
  {
    var stack' := stack[..|stack| - 1] + [fr];
    forall j | 1 <= j < |stack'|
      ensures stack'[j].name in stack'[j - 1].fields && stack'[j - 1].fields[stack'[j].name].op == stack'[j].op
    {
      assert stack'[j - 1] == stack[j - 1];
    }
  }

  /** `startSubtree`: a placeholder entry for the child goes into the innermost frame, whose
    * flags follow it, and a fresh frame for the child is pushed. */
  method StartSubtree(stack: seq<Frame>, name: string, op: Op) returns (r: Result<seq<Frame>, ParseError>)
    requires StackOK(stack)
    ensures name == "" ==> r == Err(EmptyField)
    ensures name != "" && name in stack[|stack| - 1].fields ==> r == Err(DuplicateField)
    ensures name != "" && name !in stack[|stack| - 1].fields ==>
              && r.Ok? && StackOK(r.value) && |r.value| == |stack| + 1
              && r.value[..|stack| - 1] == stack[..|stack| - 1]
              && r.value[|stack| - 1].fields == stack[|stack| - 1].fields[name := Node(op, Some(EmptyMask))]
              && r.value[|stack| - 1].name == stack[|stack| - 1].name
              && r.value[|stack| - 1].op == stack[|stack| - 1].op
              && r.value[|stack|] == Frame(map[], false, false, name, op)
  {
    var cur := stack[|stack| - 1];
    if name == "" {
      return Err(EmptyField);
    }
    if name in cur.fields {
      return Err(DuplicateField);
    }
    HasOpUpdate(cur.fields, name, Node(op, Some(EmptyMask)), Positive);
    HasOpUpdate(cur.fields, name, Node(op, Some(EmptyMask)), Negative);
    var hasPos, hasNeg := cur.hasPos, cur.hasNeg;
    match op {
      case Positive => hasPos := true;
      case Negative => hasNeg := true;
    }
    var parent := Frame(cur.fields[name := Node(op, Some(EmptyMask))], hasPos, hasNeg, cur.name, cur.op);
    ReplaceTop(stack, parent);
    var pushed := stack[..|stack| - 1] + [parent] + [Frame(map[], false, false, name, op)];
    assert pushed[|stack| - 1] == parent;
    r := Ok(pushed);
  }

  // ---------------------------------------------------------------------------------------
  // One step of the loop per state. Each either stops with the error the grammar reaches from
  // the current configuration, or moves to a configuration from which the grammar reaches the
  // same result.

  /** `stateParseField`: past the end, leave the loop; otherwise read an optional '-' and a name. */
  method ParseFieldStep(s: string, m: Machine) returns (r: Result<Machine, ParseError>)
    requires Valid(s, m) && m.state == ParseField && m.idx <= |s|
    ensures r.Err? ==> Resume(s, m) == Err(r.error)
    ensures r.Ok? ==> Valid(s, r.value) && Advances(r.value, m) && Resume(s, r.value) == Resume(s, m)
  {
    if m.idx >= |s| {
      return Ok(m.(idx := m.idx + 1));
    }
    var op, i := Positive, m.idx;
    if s[i] == '-' {
      op, i := Negative, i + 1;
    }
    var start := SkipSpaces(s, i);
    var stop := ScanName(s, start);
    r := Ok(m.(state := AfterField, idx := stop, fieldName := TrimSpace(s[start..stop]), op := op));
  }

  /** `stateAfterField`: the end, ',' or ')' make the name a leaf; ':' moves on to its subtree. */
  method AfterFieldStep(s: string, m: Machine) returns (r: Result<Machine, ParseError>)
    requires Valid(s, m) && m.state == AfterField && m.idx <= |s|
    ensures r.Err? ==> Resume(s, m) == Err(r.error)
    ensures r.Ok? ==> Valid(s, r.value) && Advances(r.value, m) && Resume(s, r.value) == Resume(s, m)
  {
    var top, below := m.stack[|m.stack| - 1], m.stack[..|m.stack| - 1];
    if m.idx < |s| && s[m.idx] == ':' {
      return Ok(m.(state := Descend, idx := m.idx + 1));
    }
    if m.idx < |s| && s[m.idx] != ',' && s[m.idx] != ')' {
      if IsSpace(s[m.idx]) {
        return Ok(m.(idx := m.idx + 1));
      }
      UnwindFailed(s, UnexpectedChar, below, top.name, top.op);
      return Err(UnexpectedChar);
    }
    var leaf := AddLeafTo(top, m.fieldName, m.op);
    if leaf.Err? {
      UnwindFailed(s, leaf.error, below, top.name, top.op);
      return Err(leaf.error);
    }
    ReplaceTop(m.stack, leaf.value);
    var st := if m.idx == |s| then AfterField else if s[m.idx] == ',' then Traverse else Ascend;
    r := Ok(Machine(st, m.idx + 1, m.fieldName, m.op, below + [leaf.value]));
    assert (below + [leaf.value])[..|m.stack| - 1] == below;
  }

  /** `stateDescend`: '(' and a non-empty child level, for which a frame is pushed. */
  method DescendStep(s: string, m: Machine) returns (r: Result<Machine, ParseError>)
    requires Valid(s, m) && m.state == Descend && m.idx <= |s|
    ensures r.Err? ==> Resume(s, m) == Err(r.error)
    ensures r.Ok? ==> Valid(s, r.value) && Advances(r.value, m) && Resume(s, r.value) == Resume(s, m)
  {
    var top, below := m.stack[|m.stack| - 1], m.stack[..|m.stack| - 1];
    var k := SkipSpaces(s, m.idx);
    if k >= |s| || s[k] != '(' {
      UnwindFailed(s, ExpectedOpenParen, below, top.name, top.op);
      return Err(ExpectedOpenParen);
    }
    var k' := SkipSpaces(s, k + 1);
    if k' < |s| && s[k'] == ')' {
      UnwindFailed(s, EmptySubtree, below, top.name, top.op);
      return Err(EmptySubtree);
    }
    var pushed := StartSubtree(m.stack, m.fieldName, m.op);
    if pushed.Err? {
      UnwindFailed(s, pushed.error, below, top.name, top.op);
      return Err(pushed.error);
    }
    var k'' := SkipSpaces(s, k');
    r := Ok(Machine(ParseField, k'', m.fieldName, m.op, pushed.value));
    assert k'' == k';
    DescendResume(s, m, k', pushed.value);
  }

  /** `stateTraverse`: after a leaf's ',' another entry must follow. */
  method TraverseStep(s: string, m: Machine) returns (r: Result<Machine, ParseError>)
    requires Valid(s, m) && m.state == Traverse && m.idx <= |s|
    ensures r.Err? ==> Resume(s, m) == Err(r.error)
    ensures r.Ok? ==> Valid(s, r.value) && Advances(r.value, m) && Resume(s, r.value) == Resume(s, m)
  {
    var k := SkipSpaces(s, m.idx);
    if k >= |s| {
      var top := m.stack[|m.stack| - 1];
      UnwindFailed(s, TrailingComma, m.stack[..|m.stack| - 1], top.name, top.op);
      return Err(TrailingComma);
    }
    r := Ok(m.(state := ParseField, idx := k));
  }

  /** `stateAscend`: a ')' closes the innermost frame, which gets its mode and is popped; then
    * the end, ',' or ')' must follow. */
  method AscendStep(s: string, m: Machine) returns (r: Result<Machine, ParseError>)
    requires Valid(s, m) && m.state == Ascend && m.idx <= |s|
    ensures r.Err? ==> Resume(s, m) == Err(r.error)
    ensures r.Ok? ==> Valid(s, r.value) && Advances(r.value, m) && Resume(s, r.value) == Resume(s, m)
  {
    if |m.stack| <= 1 {
      return Err(UnmatchedClose);
    }
    var stack := CloseTop(m.stack);
    var k := SkipSpaces(s, m.idx);
    if k < |s| {
      if s[k] == ',' {
        var k' := SkipSpaces(s, k + 1);
        ContinueComma(s, m.idx, m.fieldName, m.op, stack[|m.stack| - 2].fields);
        AscendInto(s, m, ParseField, k');
        r := Ok(Machine(ParseField, k', m.fieldName, m.op, stack));
      } else if s[k] == ')' {
        ContinueClose(s, m.idx, m.fieldName, m.op, stack[|m.stack| - 2].fields);
        AscendInto(s, m, Ascend, k + 1);
        r := Ok(Machine(Ascend, k + 1, m.fieldName, m.op, stack));
      } else {
        AscendBad(s, m, k);
        r := Err(ExpectedCommaOrClose);
      }
    } else {
      ContinueClose(s, m.idx, m.fieldName, m.op, stack[|m.stack| - 2].fields);
      AscendInto(s, m, Ascend, k + 1);
      r := Ok(Machine(Ascend, k + 1, m.fieldName, m.op, stack));
    }
  }

  /** Lines 181-187: the innermost frame gets its mode from its flags and is popped; its entry in
    * the parent, of the same op, now holds it as children. */
  function CloseTop(stack: seq<Frame>): (r: seq<Frame>)
    requires StackOK(stack) && |stack| >= 2
    ensures StackOK(r) && |r| == |stack| - 1 && r[..|r| - 1] == stack[..|stack| - 2]
    ensures var closing, parent := stack[|stack| - 1], stack[|stack| - 2];
            r[|r| - 1] == parent.(fields := parent.fields[closing.name := Node(closing.op, Some(Mask(DeriveMode(closing.fields), closing.fields)))])
  {
    var closing, parent := stack[|stack| - 1], stack[|stack| - 2];
    var entry := Node(closing.op, Some(Mask(FrameMode(closing), closing.fields)));
    AscendStack(stack, entry);
    var r := stack[..|stack| - 2] + [parent.(fields := parent.fields[closing.name := entry])];
    assert r[..|r| - 1] == stack[..|stack| - 2];
    r
  }

  /** Once the closed frame is attached, the machine goes on in the parent level from a state
    * whose outcome is what the grammar makes of the text after the child. */
  lemma {:induction false} AscendInto(s: string, m: Machine, st: State, k: nat)
    requires Valid(s, m) && m.state == Ascend && m.idx <= |s| && |m.stack| >= 2 && k <= |s| + 1
    requires Level(s, st, k, m.fieldName, m.op, CloseTop(m.stack)[|m.stack| - 2].fields)
          == AfterChildAt(s, m.idx, CloseTop(m.stack)[|m.stack| - 2].fields)
    ensures Resume(s, Machine(st, k, m.fieldName, m.op, CloseTop(m.stack))) == Resume(s, m)
  {
    AscendResume(s, m);
  }

  /** After a child's ')', a ',' leads to the parent's next field. */
  lemma {:induction false} ContinueComma(s: string, i: nat, name: string, op: Op, f: Fields)
    requires i <= |s| && SpacesEnd(s, i) < |s| && s[SpacesEnd(s, i)] == ','
    ensures Level(s, ParseField, SpacesEnd(s, SpacesEnd(s, i) + 1), name, op, f) == AfterChildAt(s, i, f)
  {
  }

  /** After a child's ')', the end of the input or another ')' keeps the machine ascending. */
  lemma {:induction false} ContinueClose(s: string, i: nat, name: string, op: Op, f: Fields)
    requires i <= |s| && (SpacesEnd(s, i) == |s| || s[SpacesEnd(s, i)] == ')')
    ensures Level(s, Ascend, SpacesEnd(s, i) + 1, name, op, f) == AfterChildAt(s, i, f)
  {
  }

  /** Anything else after the ')' is an error. */
  lemma {:induction false} AscendBad(s: string, m: Machine, k: nat)
    requires Valid(s, m) && m.state == Ascend && m.idx <= |s| && |m.stack| >= 2
    requires k == SpacesEnd(s, m.idx) && k < |s| && s[k] != ',' && s[k] != ')'
    ensures Resume(s, m) == Err(ExpectedCommaOrClose)
  {
    AscendResume(s, m);
    UnwindFailed(s, ExpectedCommaOrClose, m.stack[..|m.stack| - 2], m.stack[|m.stack| - 2].name, m.stack[|m.stack| - 2].op);
  }

  /** Popping the closed frame and replacing its placeholder entry in the parent by `entry`, of
    * the same op, keeps the stack valid. */
  lemma {:induction false} AscendStack(stack: seq<Frame>, entry: Node)
    requires StackOK(stack) && |stack| >= 2 && entry.op == stack[|stack| - 1].op
    ensures var parent := stack[|stack| - 2];
            StackOK(stack[..|stack| - 2] + [parent.(fields := parent.fields[stack[|stack| - 1].name := entry])])
  {
    var parent := stack[|stack| - 2];
    var name := stack[|stack| - 1].name;
    HasOpOverwrite(parent.fields, name, entry, Positive);
    HasOpOverwrite(parent.fields, name, entry, Negative);
    ReplaceTop(stack[..|stack| - 1], parent.(fields := parent.fields[name := entry]));
    assert stack[..|stack| - 1][..|stack| - 2] == stack[..|stack| - 2];
  }

  /** From `stateAscend`, the grammar goes on in the parent level, right after the child. */
  lemma {:induction false} AscendResume(s: string, m: Machine)
    requires Valid(s, m) && m.state == Ascend && m.idx <= |s| && |m.stack| >= 2
    ensures var closing, parent := m.stack[|m.stack| - 1], m.stack[|m.stack| - 2];
            var f := parent.fields[closing.name := Node(closing.op, Some(Mask(DeriveMode(closing.fields), closing.fields)))];
            Resume(s, m) == Unwind(s, AfterChildAt(s, m.idx, f), m.stack[..|m.stack| - 2], parent.name, parent.op)
  {
    assert m.stack[..|m.stack| - 1][..|m.stack| - 2] == m.stack[..|m.stack| - 2];
  }

  /** From `stateDescend`, once the child frame is pushed, the grammar goes on in the child level;
    * when that closes, the parent level goes on with the child in place of the placeholder. */
  lemma {:induction false} DescendResume(s: string, m: Machine, k': nat, stack: seq<Frame>)
    requires Valid(s, m) && m.state == Descend && m.idx <= |s|
    requires SpacesEnd(s, m.idx) < |s| && s[SpacesEnd(s, m.idx)] == '('
    requires k' == SpacesEnd(s, SpacesEnd(s, m.idx) + 1) && !(k' < |s| && s[k'] == ')')
    requires m.fieldName != "" && m.fieldName !in m.stack[|m.stack| - 1].fields
    requires StackOK(stack) && |stack| == |m.stack| + 1
    requires stack[..|m.stack| - 1] == m.stack[..|m.stack| - 1]
    requires stack[|m.stack| - 1].fields == m.stack[|m.stack| - 1].fields[m.fieldName := Node(m.op, Some(EmptyMask))]
    requires stack[|m.stack| - 1].name == m.stack[|m.stack| - 1].name
    requires stack[|m.stack| - 1].op == m.stack[|m.stack| - 1].op
    requires stack[|m.stack|] == Frame(map[], false, false, m.fieldName, m.op)
    ensures Resume(s, Machine(ParseField, k', m.fieldName, m.op, stack)) == Resume(s, m)
  {
    var n := |m.stack|;
    var top := m.stack[n - 1];
    var f := top.fields;
    var placed := stack[n - 1].fields;
    forall c: Mask ensures placed[m.fieldName := Node(m.op, Some(c))] == f[m.fieldName := Node(m.op, Some(c))] {
    }
    assert stack[..n][..n - 1] == m.stack[..n - 1];
    assert stack[..n][n - 1] == stack[n - 1];
  }

  // ---------------------------------------------------------------------------------------

  /** `ParseMask`: the machine runs until the cursor is past the end or a step fails; then every
    * frame but the root must have been closed, and the root gets its mode from its flags. It
    * returns exactly what the grammar `Parse` returns, error for error. */
  method ParseMask(s: string) returns (r: Result<Mask, ParseError>)
    ensures r == Parse(s)
  {
    var start := SkipSpaces(s, 0);
    var m := Machine(ParseField, start, "", Positive, [Frame(map[], false, false, "", Positive)]);
    while m.idx <= |s|
      invariant Valid(s, m) && Resume(s, m) == Parse(s)
      decreases |s| + 1 - m.idx, Rank(m.state)
    {
      var step: Result<Machine, ParseError>;
      match m.state {
        case ParseField => step := ParseFieldStep(s, m);
        case AfterField => step := AfterFieldStep(s, m);
        case Descend => step := DescendStep(s, m);
        case Traverse => step := TraverseStep(s, m);
        case Ascend => step := AscendStep(s, m);
      }
      if step.Err? {
        return Err(step.error);
      }
      m := step.value;
    }
    var n := |m.stack|;
    if n != 1 {
      var parent := m.stack[n - 2];
      UnwindFailed(s, MissingClose, m.stack[..n - 2], parent.name, parent.op);
      assert m.stack[..n - 1][..n - 2] == m.stack[..n - 2];
      return Err(MissingClose);
    }
    var root := m.stack[0];
    r := Ok(Mask(FrameMode(root), root.fields));
  }
}
