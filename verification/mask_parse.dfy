/**
 * The mask expression grammar accepted by `ParseMask` (mask_parse.go), written as one recursive
 * function per parser state. The stack of open frames of the Go state machine is here the
 * chain of recursive calls: `DescendAt` parses a child level with `FieldAt` and, when that level
 * is closed by ')', resumes its own level with `AfterChildAt`.
 *
 *   mask  = entry ("," entry)*
 *   entry = ["-"] name [":" "(" mask ")"]
 *   name  = the text up to the next ':', ',' or ')', trimmed of whitespace
 */
module MaskGrammar {
  import opened Wrappers
  import opened Text
  import opened Masks

  /** The error kinds `ParseMask` reports (their message texts are not modelled). */
  datatype ParseError =
    | EmptyField            // empty field name, as a leaf or before ':'
    | DuplicateField        // a name already present in the same level
    | UnexpectedChar        // a character other than ':', ',' or ')' after a field name
    | ExpectedOpenParen     // ':' not followed by '('
    | EmptySubtree          // `name:()`
    | TrailingComma         // ',' after a leaf followed only by whitespace
    | UnmatchedClose        // ')' with no open subtree
    | ExpectedCommaOrClose  // anything but ',' or ')' after a closed subtree
    | MissingClose          // end of input while a subtree is still open

  /** How the parse of one level stops: an error, the end of the input, or a ')' that closes
    * the level (`next` is the index just after it). */
  datatype Outcome = Failed(error: ParseError) | AtEnd(fields: Fields) | Closed(fields: Fields, next: nat)

  /** The characters that end a field name. */
  predicate IsTerminator(c: char) {
    c == ':' || c == ',' || c == ')'
  }

  /** The index of the first name terminator at or after `i` (or |s|). */
  function NameEnd(s: string, i: nat): (j: nat)
    requires i <= |s|
    ensures i <= j <= |s|
    ensures j < |s| ==> IsTerminator(s[j])
    decreases |s| - i
  {
    if i < |s| && !IsTerminator(s[i]) then NameEnd(s, i + 1) else i
  }

  /** The name scan passes no terminator. */
  lemma {:induction false} NameEndScansName(s: string, i: nat)
    requires i <= |s|
    ensures forall k | i <= k < NameEnd(s, i) :: !IsTerminator(s[k])
    decreases |s| - i
  {
    if i < |s| && !IsTerminator(s[i]) {
      NameEndScansName(s, i + 1);
    }
  }

  /** The `addLeaf` helper: a non-empty name not yet present in the level becomes a leaf. */
  function AddLeaf(f: Fields, name: string, op: Op): (r: Result<Fields, ParseError>)
    ensures r.Ok? <==> name != "" && name !in f
    ensures r.Ok? ==> name in r.value && r.value[name] == Node(op, None)
  {
    if name == "" then Err(EmptyField)
    else if name in f then Err(DuplicateField)
    else Ok(f[name := Node(op, None)])
  }

  /** A name `ParseMask` can produce for an entry with operator `op`: non-empty, trimmed, free of
    * ':', ',' and ')', and not starting with '-' unless the entry is Negative. */
  predicate ValidName(name: string, op: Op) {
    && name != []
    && !IsSpace(name[0])
    && !IsSpace(name[|name| - 1])
    && (forall i | 0 <= i < |name| :: !IsTerminator(name[i]))
    && (op == Positive ==> name[0] != '-')
  }

  /** The masks `ParseMask` produces: valid names, every subtree non-empty, and every level's
    * mode derived from its direct entries. */
  predicate WellFormed(m: Mask)
    decreases m, 1
  {
    && m.mode == DeriveMode(m.fields)
    && forall k | k in m.fields :: WellFormedEntry(m, k)
  }

  predicate WellFormedEntry(m: Mask, k: string)
    requires k in m.fields
    decreases m, 0
  {
    var n := m.fields[k];
    && ValidName(k, n.op)
    && (n.children.Some? ==> n.children.value.fields != map[] && WellFormed(n.children.value))
  }

  /** The entries of a level under construction are well formed. */
  predicate FieldsWF(f: Fields) {
    WellFormed(Mask(DeriveMode(f), f))
  }

  predicate OutcomeWF(r: Outcome) {
    match r
    case Failed(_) => true
    case AtEnd(f) => FieldsWF(f)
    case Closed(f, _) => FieldsWF(f) && f != map[]
  }

  /** A name candidate as `ParseMask` scans it: empty (an error later) or valid. */
  predicate Candidate(name: string, op: Op) {
    name == [] || ValidName(name, op)
  }

  lemma {:induction false} AddEntryWF(f: Fields, name: string, n: Node)
    requires FieldsWF(f) && name !in f
    requires ValidName(name, n.op)
    requires n.children.Some? ==> n.children.value.fields != map[] && WellFormed(n.children.value)
    ensures FieldsWF(f[name := n])
  {
    var g := f[name := n];
    forall k | k in g ensures WellFormedEntry(Mask(DeriveMode(g), g), k) {
      if k != name {
        assert WellFormedEntry(Mask(DeriveMode(f), f), k);
      }
    }
  }

  lemma {:induction false} AddLeafWF(f: Fields, name: string, op: Op)
    ensures FieldsWF(f) && Candidate(name, op) && AddLeaf(f, name, op).Ok? ==>
              FieldsWF(AddLeaf(f, name, op).value)
  {
    if FieldsWF(f) && name != [] && name !in f && Candidate(name, op) {
      AddEntryWF(f, name, Node(op, None));
    }
  }

  /** `t` contains none of ':', ',' and ')'. */
  predicate NoTerminator(t: string) {
    forall j | 0 <= j < |t| :: !IsTerminator(t[j])
  }

  lemma {:induction false} ScannedNoTerminator(s: string, start: nat)
    requires start <= |s|
    ensures NoTerminator(s[start..NameEnd(s, start)])
  {
    var t := s[start..NameEnd(s, start)];
    NameEndScansName(s, start);
    forall j | 0 <= j < |t| ensures !IsTerminator(t[j]) {
      assert t[j] == s[start + j];
    }
  }

  lemma {:induction false} TrimNoTerminator(t: string)
    requires NoTerminator(t)
    ensures NoTerminator(TrimSpace(t))
  {
    var a := TrimStart(t);
    var name := t[a..TrimStop(t, a, |t|)];
    forall j | 0 <= j < |name| ensures !IsTerminator(name[j]) {
      assert name[j] == t[a + j];
    }
  }

  /** Trimming a text that starts with a non-space char keeps that char first. */
  lemma {:induction false} TrimKeepsFirst(t: string)
    requires t != [] && !IsSpace(t[0])
    ensures TrimSpace(t) != [] && TrimSpace(t)[0] == t[0]
  {
    assert TrimStart(t) == 0;
    TrimStopDropsSpaces(t, 0, |t|);
  }

  /** The name scanned after position `i` is a candidate: trimming keeps no terminator, and a
    * Positive entry's name starts where the entry does, so not with '-'. */
  lemma {:induction false} ScannedNameIsCandidate(s: string, i: nat, op: Op)
    requires i < |s| && !IsSpace(s[i])
    requires op == (if s[i] == '-' then Negative else Positive)
    ensures var start := SpacesEnd(s, if s[i] == '-' then i + 1 else i);
            Candidate(TrimSpace(s[start..NameEnd(s, start)]), op)
  {
    var start := SpacesEnd(s, if s[i] == '-' then i + 1 else i);
    var t := s[start..NameEnd(s, start)];
    ScannedNoTerminator(s, start);
    TrimNoTerminator(t);
    if op == Positive && t != [] {
      assert start == i;
      assert t[0] == s[i];
      TrimKeepsFirst(t);
    }
  }

  /** The `stateParseField` step: an optional '-', then the name up to ':', ',' or ')'. */
  function FieldAt(s: string, i: nat, f: Fields): (r: Outcome)
    requires i <= |s|
    ensures r.Closed? ==> i < r.next <= |s|
    decreases |s| - i, 2
  {
    if i == |s| then AtEnd(f)
    else
      var op := if s[i] == '-' then Negative else Positive;
      var start := SpacesEnd(s, if s[i] == '-' then i + 1 else i);
      var stop := NameEnd(s, start);
      AfterFieldAt(s, stop, TrimSpace(s[start..stop]), op, f)
  }

  /** The `stateAfterField` step: what follows a field name decides between a leaf and a subtree. */
  function AfterFieldAt(s: string, i: nat, name: string, op: Op, f: Fields): (r: Outcome)
    requires i <= |s|
    ensures r.Closed? ==> i < r.next <= |s|
    decreases |s| - i, 1
  {
    if i == |s| then
      match AddLeaf(f, name, op)
      case Err(e) => Failed(e)
      case Ok(f') => AtEnd(f')
    else if s[i] == ':' then
      DescendAt(s, i + 1, name, op, f)
    else if s[i] == ',' then
      match AddLeaf(f, name, op)
      case Err(e) => Failed(e)
      case Ok(f') => TraverseAt(s, i + 1, f')
    else if s[i] == ')' then
      match AddLeaf(f, name, op)
      case Err(e) => Failed(e)
      case Ok(f') => Closed(f', i + 1)
    else if IsSpace(s[i]) then
      AfterFieldAt(s, i + 1, name, op, f)
    else
      Failed(UnexpectedChar)
  }

  /** The `stateDescend` step: '(' opens a non-empty child level, parsed in a fresh frame; when
    * its ')' is reached the child, with its derived mode, becomes the entry's children. */
  function DescendAt(s: string, i: nat, name: string, op: Op, f: Fields): (r: Outcome)
    requires i <= |s|
    ensures r.Closed? ==> i < r.next <= |s|
    decreases |s| - i, 0
  {
    var k := SpacesEnd(s, i);
    if k == |s| || s[k] != '(' then Failed(ExpectedOpenParen)
    else
      var k' := SpacesEnd(s, k + 1);
      if k' < |s| && s[k'] == ')' then Failed(EmptySubtree)
      else if name == "" then Failed(EmptyField)
      else if name in f then Failed(DuplicateField)
      else
        match FieldAt(s, k', map[])
        case Failed(e) => Failed(e)
        case AtEnd(_) => Failed(MissingClose)
        case Closed(c, j) => AfterChildAt(s, j, f[name := Node(op, Some(Mask(DeriveMode(c), c)))])
  }

  /** The `stateTraverse` step: after a leaf's ',' another entry must follow. */
  function TraverseAt(s: string, i: nat, f: Fields): (r: Outcome)
    requires i <= |s|
    ensures r.Closed? ==> i < r.next <= |s|
    decreases |s| - i, 3
  {
    var k := SpacesEnd(s, i);
    if k == |s| then Failed(TrailingComma) else FieldAt(s, k, f)
  }

  /** The second half of `stateAscend`, back in the parent level after a child closed: the end
    * of the input, ',' and another entry (or the end), or ')' closing this level too. */
  function AfterChildAt(s: string, i: nat, f: Fields): (r: Outcome)
    requires i <= |s|
    ensures r.Closed? ==> i < r.next <= |s|
    decreases |s| - i, 0
  {
    var k := SpacesEnd(s, i);
    if k == |s| then AtEnd(f)
    else if s[k] == ',' then FieldAt(s, SpacesEnd(s, k + 1), f)
    else if s[k] == ')' then Closed(f, k + 1)
    else Failed(ExpectedCommaOrClose)
  }

  /** Every state keeps the level under construction well formed: names are checked before they
    * are inserted, a child is attached only once its ')' closed it non-empty, and a level that
    * closes holds at least the entry just added. */
  lemma {:induction false} FieldAtWF(s: string, i: nat, f: Fields)
    requires i <= |s| && FieldsWF(f) && (i < |s| ==> !IsSpace(s[i]))
    ensures OutcomeWF(FieldAt(s, i, f))
    decreases |s| - i, 2
  {
    if i < |s| {
      var op := if s[i] == '-' then Negative else Positive;
      var start := SpacesEnd(s, if s[i] == '-' then i + 1 else i);
      var stop := NameEnd(s, start);
      ScannedNameIsCandidate(s, i, op);
      AfterFieldAtWF(s, stop, TrimSpace(s[start..stop]), op, f);
    }
  }

  lemma {:induction false} AfterFieldAtWF(s: string, i: nat, name: string, op: Op, f: Fields)
    requires i <= |s| && FieldsWF(f) && Candidate(name, op)
    ensures OutcomeWF(AfterFieldAt(s, i, name, op, f))
    decreases |s| - i, 1
  {
    AddLeafWF(f, name, op);
    if i < |s| {
      if s[i] == ':' {
        DescendAtWF(s, i + 1, name, op, f);
      } else if s[i] == ',' {
        if AddLeaf(f, name, op).Ok? {
          TraverseAtWF(s, i + 1, AddLeaf(f, name, op).value);
        }
      } else if s[i] != ')' && IsSpace(s[i]) {
        AfterFieldAtWF(s, i + 1, name, op, f);
      }
    }
  }

  lemma {:induction false} DescendAtWF(s: string, i: nat, name: string, op: Op, f: Fields)
    requires i <= |s| && FieldsWF(f) && Candidate(name, op)
    ensures OutcomeWF(DescendAt(s, i, name, op, f))
    decreases |s| - i, 0
  {
    var k := SpacesEnd(s, i);
    if k == |s| || s[k] != '(' {
      assert DescendAt(s, i, name, op, f).Failed?;
    } else {
      var k' := SpacesEnd(s, k + 1);
      if (k' < |s| && s[k'] == ')') || name == "" || name in f {
        assert DescendAt(s, i, name, op, f).Failed?;
      } else {
        ChildLevelWF(s, k', name, op, f);
      }
    }
  }

  /** The child level parsed from `k`, once closed, is attached and the parent level goes on
    * well formed. */
  lemma {:induction false} ChildLevelWF(s: string, k: nat, name: string, op: Op, f: Fields)
    requires k <= |s| && (k < |s| ==> !IsSpace(s[k]))
    requires FieldsWF(f) && Candidate(name, op) && name != "" && name !in f
    ensures match FieldAt(s, k, map[])
            case Closed(c, j) => OutcomeWF(AfterChildAt(s, j, f[name := Node(op, Some(Mask(DeriveMode(c), c)))]))
            case _ => true
    decreases |s| - k, 4
  {
    FieldAtWF(s, k, map[]);
    var r := FieldAt(s, k, map[]);
    if r.Closed? {
      AttachChildWF(f, name, op, r.fields);
      AfterChildAtWF(s, r.next, f[name := Node(op, Some(Mask(DeriveMode(r.fields), r.fields)))]);
    }
  }

  /** Attaching a closed, well-formed, non-empty child level under a valid new name. */
  lemma {:induction false} AttachChildWF(f: Fields, name: string, op: Op, c: Fields)
    requires FieldsWF(f) && Candidate(name, op) && name != "" && name !in f
    requires FieldsWF(c) && c != map[]
    ensures var f' := f[name := Node(op, Some(Mask(DeriveMode(c), c)))];
            FieldsWF(f') && f' != map[]
  {
    var n := Node(op, Some(Mask(DeriveMode(c), c)));
    AddEntryWF(f, name, n);
    assert name in f[name := n];
  }

  lemma {:induction false} TraverseAtWF(s: string, i: nat, f: Fields)
    requires i <= |s| && FieldsWF(f)
    ensures OutcomeWF(TraverseAt(s, i, f))
    decreases |s| - i, 3
  {
    var k := SpacesEnd(s, i);
    if k < |s| {
      FieldAtWF(s, k, f);
    }
  }

  lemma {:induction false} AfterChildAtWF(s: string, i: nat, f: Fields)
    requires i <= |s| && FieldsWF(f) && f != map[]
    ensures OutcomeWF(AfterChildAt(s, i, f))
    decreases |s| - i, 0
  {
    var k := SpacesEnd(s, i);
    if k == |s| {
      assert AfterChildAt(s, i, f) == AtEnd(f);
    } else if s[k] == ',' {
      FieldAtWF(s, SpacesEnd(s, k + 1), f);
    } else if s[k] == ')' {
      assert AfterChildAt(s, i, f) == Closed(f, k + 1);
    } else {
      assert AfterChildAt(s, i, f).Failed?;
    }
  }

  /** `ParseMask` as a function: the root level starts after leading whitespace; a ')' that
    * closes the root is unmatched. */
  function Parse(s: string): (r: Result<Mask, ParseError>)
    ensures r.Ok? ==> WellFormed(r.value)
  {
    FieldAtWF(s, SpacesEnd(s, 0), map[]);
    match FieldAt(s, SpacesEnd(s, 0), map[])
    case Failed(e) => Err(e)
    case AtEnd(f) => Ok(Mask(DeriveMode(f), f))
    case Closed(_, _) => Err(UnmatchedClose)
  }
}
