/**
 Parsing INI text (`web/src/config/ini.ts`): when it succeeds, where it fails, and what the
 document holds, all said about the lines without walking the document.
 */
module IniDocuments {
  import opened JsonModel
  import opened ConfigTrees
  import opened IniLines

  datatype ParseError = ParseError(line: nat, error: IniError)

  type Parsed = Result<Json, ParseError>

  // ---- The document under construction ----

  /** `sectionObject`: walks to a section, making what is missing. */
  function EnsureSection(v: Json, segments: Path): (r: Result<Json, IniError>)
    ensures r.Ok? && v.Obj? ==> r.value.Obj?
    decreases |segments|
  {
    if segments == [] || !v.Obj? then Ok(v)
    else
      var k := segments[0];
      var child := if k in v.fields then v.fields[k] else EMPTY_OBJECT;
      if !child.Obj? then Err(SegmentIsAValue(k))
      else
        match EnsureSection(child, segments[1..])
        case Ok(w) => Ok(Obj(v.fields[k := w]))
        case Err(e) => Err(e)
  }

  /** Sets a key nothing else has, in a section made as needed. */
  function AddEntry(v: Json, segments: Path, key: string, value: string): (r: Result<Json, IniError>)
    ensures r.Ok? && v.Obj? ==> r.value.Obj?
    decreases |segments|
  {
    if !v.Obj? then Ok(v)
    else if segments == [] then
      if key !in v.fields then Ok(Obj(v.fields[key := Str(value)]))
      else if v.fields[key].Obj? then Err(KeyIsASection(key))
      else Err(DuplicateKey(key))
    else
      var k := segments[0];
      var child := if k in v.fields then v.fields[k] else EMPTY_OBJECT;
      if !child.Obj? then Err(SegmentIsAValue(k))
      else
        match AddEntry(child, segments[1..], key, value)
        case Ok(w) => Ok(Obj(v.fields[k := w]))
        case Err(e) => Err(e)
  }

  /** The rest of a parse. */
  function ParseFrom(root: Json, current: Path, kinds: seq<Line>, lineNo: nat): Parsed
    decreases |kinds|
  {
    if kinds == [] then Ok(root)
    else
      match kinds[0]
      case Blank => ParseFrom(root, current, kinds[1..], lineNo + 1)
      case Bad(e) => Err(ParseError(lineNo, e))
      case Header(segments) =>
        (match EnsureSection(root, segments)
         case Ok(w) => ParseFrom(w, segments, kinds[1..], lineNo + 1)
         case Err(e) => Err(ParseError(lineNo, e)))
      case Entry(key, value) =>
        (match AddEntry(root, current, key, value)
         case Ok(w) => ParseFrom(w, current, kinds[1..], lineNo + 1)
         case Err(e) => Err(ParseError(lineNo, e)))
  }

  function ParseText(text: string): Parsed {
    ParseFrom(EMPTY_OBJECT, [], KindsOf(text), 1)
  }

  method IniToJson(text: string) returns (r: Parsed)
    ensures r == ParseText(text)
  {
    var root, current := EMPTY_OBJECT, [];
    var lines := LinesOf(text);
    ghost var kinds := KindsOf(text);
    assert kinds[0..] == kinds;
    hide Classify, EnsureSection, AddEntry;
    for i := 0 to |lines|
      invariant ParseText(text) == ParseFrom(root, current, kinds[i..], i + 1)
    {
      assert kinds[i..][0] == kinds[i] && kinds[i..][1..] == kinds[i + 1..];
      match Classify(lines[i]) {
        case Blank =>
        case Bad(e) => return Err(ParseError(i + 1, e));
        case Header(segments) =>
          current := segments;
          var section := EnsureSection(root, segments);
          if section.Err? {
            return Err(ParseError(i + 1, section.error));
          }
          root := section.value;
        case Entry(key, value) =>
          var added := AddEntry(root, current, key, value);
          if added.Err? {
            return Err(ParseError(i + 1, added.error));
          }
          root := added.value;
      }
    }
    r := Ok(root);
  }

  // ---- A document seen node by node ----

  datatype Node = Nothing | Value(text: string) | Branch | Odd

  function NodeAt(v: Json, q: Path): Node
    decreases |q|
  {
    if q == [] then (match v case Str(s) => Value(s) case Obj(_) => Branch case _ => Odd)
    else if v.Obj? && q[0] in v.fields then NodeAt(v.fields[q[0]], q[1..])
    else Nothing
  }

  predicate Open(n: Node) {
    n.Nothing? || n.Branch?
  }

  /** No value stands at `segments` or above it. */
  predicate PathClear(v: Json, segments: Path)
    decreases |segments|
  {
    v.Obj? && (segments == [] || segments[0] !in v.fields || PathClear(v.fields[segments[0]], segments[1..]))
  }

  lemma NodeKey(v: Json, q: Path)
    requires v.Obj? && q != []
    ensures NodeAt(v, q) == if q[0] in v.fields then NodeAt(v.fields[q[0]], q[1..]) else Nothing
  {
  }

  lemma {:induction false} ClearMeaning(v: Json, segments: Path)
    requires v.Obj?
    ensures PathClear(v, segments) <==> forall p :: IsPrefix(p, segments) ==> Open(NodeAt(v, p))
    decreases |segments|
  {
    if segments != [] && segments[0] in v.fields {
      var k, rest := segments[0], segments[1..];
      var child := v.fields[k];
      if child.Obj? {
        ClearMeaning(child, rest);
      } else {
        assert IsPrefix([], rest) && !Open(NodeAt(child, []));
      }
      if PathClear(v, segments) {
        assert PathClear(child, rest);
        forall p | IsPrefix(p, segments) ensures Open(NodeAt(v, p)) {
          if p != [] {
            FirstKeys(p, segments);
            NodeKey(v, p);
            assert IsPrefix(p[1..], rest);
          }
        }
      } else {
        var p :| IsPrefix(p, rest) && !Open(NodeAt(child, p));
        FirstKeys([k] + p, segments);
        assert ([k] + p)[1..] == p;
        assert !Open(NodeAt(v, [k] + p));
      }
    } else {
      forall p | IsPrefix(p, segments) ensures Open(NodeAt(v, p)) {
        if p != [] {
          FirstKeys(p, segments);
        }
      }
    }
  }

  lemma {:induction false} EnsureMeaning(v: Json, segments: Path, q: Path)
    requires v.Obj?
    ensures EnsureSection(v, segments).Ok? <==> PathClear(v, segments)
    ensures EnsureSection(v, segments).Ok? ==>
      NodeAt(EnsureSection(v, segments).value, q) == if IsPrefix(q, segments) then Branch else NodeAt(v, q)
    decreases |segments|
  {
    if segments == [] {
    } else {
      var k := segments[0];
      var child := if k in v.fields then v.fields[k] else EMPTY_OBJECT;
      if child.Obj? {
        EnsureMeaning(child, segments[1..], if q != [] then q[1..] else []);
        EmptyIsClear(segments[1..]);
        if q != [] {
          FirstKeys(q, segments);
          NodeKey(v, q);
          EmptyNodes(q[1..]);
        }
      }
    }
  }

  lemma EmptyIsClear(segments: Path)
    ensures PathClear(EMPTY_OBJECT, segments)
  {
  }

  lemma EmptyNodes(q: Path)
    ensures NodeAt(EMPTY_OBJECT, q) == if q == [] then Branch else Nothing
  {
  }

  /** The node at `q` once `path` is set in the section `segments`. */
  function NodeAfterAdd(v: Json, segments: Path, path: Path, value: string, q: Path): Node {
    if q == path then Value(value) else if IsPrefix(q, segments) then Branch else NodeAt(v, q)
  }

  lemma {:induction false} AddMeaning(v: Json, segments: Path, key: string, value: string, q: Path)
    requires v.Obj?
    ensures var r := AddEntry(v, segments, key, value);
      && (r.Ok? <==> PathClear(v, segments) && NodeAt(v, segments + [key]) == Nothing)
      && (r.Ok? ==> NodeAt(r.value, q) == NodeAfterAdd(v, segments, segments + [key], value, q))
    decreases |segments|
  {
    var p := segments + [key];
    if segments == [] {
      assert p == [key];
      if q != [] {
        assert q == [q[0]] + q[1..];
      }
    } else {
      var k := segments[0];
      var child := if k in v.fields then v.fields[k] else EMPTY_OBJECT;
      assert p[1..] == segments[1..] + [key];
      NodeKey(v, p);
      EmptyNodes(p[1..]);
      EmptyIsClear(segments[1..]);
      if child.Obj? {
        AddMeaning(child, segments[1..], key, value, if q != [] then q[1..] else []);
        if q != [] {
          FirstKeys(q, segments);
          FirstKeys(q, p);
          NodeKey(v, q);
          EmptyNodes(q[1..]);
        }
      }
    }
  }

  // ---- What the lines say ----

  /** A header's section, or a setting in the section in force. */
  datatype Op = Section(path: Path) | Setting(path: Path, value: string)

  /** The section in force after the first `n` lines. */
  function CurrentAt(kinds: seq<Line>, n: nat): Path
    requires n <= |kinds|
  {
    if n == 0 then []
    else match kinds[n - 1] case Header(segments) => segments case _ => CurrentAt(kinds, n - 1)
  }

  function OpAt(kinds: seq<Line>, i: nat): seq<Op>
    requires i < |kinds|
  {
    match kinds[i]
    case Header(segments) => [Section(segments)]
    case Entry(key, value) => [Setting(CurrentAt(kinds, i) + [key], value)]
    case _ => []
  }

  /** What the first `n` lines say, in order. */
  function OpsOf(kinds: seq<Line>, n: nat): seq<Op>
    requires n <= |kinds|
  {
    if n == 0 then [] else OpsOf(kinds, n - 1) + OpAt(kinds, n - 1)
  }

  function SectionPath(op: Op): Path {
    match op
    case Section(path) => path
    case Setting(path, _) => if path == [] then [] else path[..|path| - 1]
  }

  predicate WellFormedOp(op: Op) {
    op.Setting? ==> op.path != []
  }

  predicate WellFormedOps(ops: seq<Op>) {
    forall i :: 0 <= i < |ops| ==> WellFormedOp(ops[i])
  }

  lemma {:induction false} OpsAreWellFormed(kinds: seq<Line>, n: nat)
    requires n <= |kinds|
    ensures WellFormedOps(OpsOf(kinds, n))
  {
    if n == 0 {
    } else {
      OpsAreWellFormed(kinds, n - 1);
    }
  }

  /** A value in the way: at or above the other's section, or at the other's own path. */
  predicate Conflict(a: Op, b: Op) {
    a.Setting? && (IsPrefix(a.path, SectionPath(b)) || (b.Setting? && b.path == a.path))
  }

  predicate Consistent(ops: seq<Op>) {
    forall i, j :: 0 <= i < |ops| && 0 <= j < |ops| && i != j ==> !Conflict(ops[i], ops[j])
  }

  /** `op` conflicts with none of `ops`. */
  predicate Fits(ops: seq<Op>, op: Op) {
    forall o :: o in ops ==> !Conflict(o, op) && !Conflict(op, o)
  }

  predicate NoBad(kinds: seq<Line>, n: nat)
    requires n <= |kinds|
  {
    forall i :: 0 <= i < n ==> !kinds[i].Bad?
  }

  /** The first `n` lines are an INI document. */
  predicate Sound(kinds: seq<Line>, n: nat)
    requires n <= |kinds|
  {
    NoBad(kinds, n) && Consistent(OpsOf(kinds, n))
  }

  /** The node `ops` put at `q`. */
  function NodeFrom(ops: seq<Op>, q: Path): Node {
    if ops == [] then (if q == [] then Branch else Nothing)
    else
      var front, op := ops[..|ops| - 1], ops[|ops| - 1];
      if op.Setting? && op.path == q then Value(op.value)
      else if IsPrefix(q, SectionPath(op)) then Branch
      else NodeFrom(front, q)
  }

  lemma NodeFromSnoc(ops: seq<Op>, op: Op, q: Path)
    ensures NodeFrom(ops + [op], q) ==
      if op.Setting? && op.path == q then Value(op.value)
      else if IsPrefix(q, SectionPath(op)) then Branch
      else NodeFrom(ops, q)
  {
    assert (ops + [op])[..|ops + [op]| - 1] == ops;
  }

  /** `doc` holds what `ops` say and nothing else. */
  ghost predicate Holds(doc: Json, ops: seq<Op>) {
    doc.Obj? && forall q :: NodeAt(doc, q) == NodeFrom(ops, q)
  }

  predicate Covers(op: Op, q: Path) {
    IsPrefix(q, SectionPath(op))
  }

  predicate HasSection(ops: seq<Op>, q: Path) {
    q == [] || exists o :: o in ops && Covers(o, q)
  }

  predicate NoSetting(ops: seq<Op>, q: Path) {
    forall o :: o in ops && o.Setting? ==> o.path != q
  }

  lemma ConsistentSnoc(ops: seq<Op>, op: Op)
    ensures Consistent(ops + [op]) <==> Consistent(ops) && Fits(ops, op)
  {
    hide Conflict;
    var all := ops + [op];
    assert all[|ops|] == op && forall i :: 0 <= i < |ops| ==> all[i] == ops[i];
    if Consistent(all) {
      forall o | o in ops ensures !Conflict(o, op) && !Conflict(op, o) {
        var i :| 0 <= i < |ops| && ops[i] == o;
        assert !Conflict(all[i], all[|ops|]) && !Conflict(all[|ops|], all[i]);
      }
      forall i, j | 0 <= i < |ops| && 0 <= j < |ops| && i != j ensures !Conflict(ops[i], ops[j]) {
        assert !Conflict(all[i], all[j]);
      }
    }
    if Consistent(ops) && Fits(ops, op) {
      forall i, j | 0 <= i < |all| && 0 <= j < |all| && i != j ensures !Conflict(all[i], all[j]) {
        assert i < |ops| ==> all[i] in ops;
        assert j < |ops| ==> all[j] in ops;
      }
    }
  }

  /** What an op that fits leaves alone. */
  lemma FitsMeans(ops: seq<Op>, op: Op, q: Path)
    requires Fits(ops, op) && WellFormedOp(op)
    ensures op.Setting? && op.path == q ==> NoSetting(ops, q) && !HasSection(ops, q) && !Covers(op, q)
    ensures Covers(op, q) ==> NoSetting(ops, q)
  {
  }

  /** In consistent ops, order does not matter: a value stands where some op sets it, a
      section where some op is in it or beneath it. */
  lemma {:induction false} NodeMeaning(ops: seq<Op>, q: Path)
    requires Consistent(ops) && WellFormedOps(ops)
    ensures forall v :: NodeFrom(ops, q) == Value(v) <==> Setting(q, v) in ops
    ensures NodeFrom(ops, q) == Branch <==> HasSection(ops, q)
    ensures !NodeFrom(ops, q).Odd?
    decreases |ops|
  {
    if ops == [] {
    } else {
      var front, op := ops[..|ops| - 1], ops[|ops| - 1];
      assert ops == front + [op];
      ConsistentSnoc(front, op);
      NodeMeaning(front, q);
      FitsMeans(front, op, q);
      NodeFromSnoc(front, op, q);
      hide IsPrefix, NodeFrom, Fits, Consistent, SectionPath;
      assert forall o :: o in ops <==> o in front || o == op;
      assert HasSection(ops, q) <==> HasSection(front, q) || Covers(op, q);
    }
  }

  lemma OpenIff(ops: seq<Op>, q: Path)
    requires Consistent(ops) && WellFormedOps(ops)
    ensures Open(NodeFrom(ops, q)) <==> NoSetting(ops, q)
    ensures NodeFrom(ops, q) == Nothing <==> NoSetting(ops, q) && !HasSection(ops, q)
  {
    hide NodeFrom, Consistent, WellFormedOps;
    NodeMeaning(ops, q);
    if !NoSetting(ops, q) {
      var o :| o in ops && o.Setting? && o.path == q;
      assert o == Setting(q, o.value);
    }
    var node := NodeFrom(ops, q);
    if node.Value? {
      assert Setting(q, node.text) in ops;
    }
  }

  // ---- Parsing, line by line ----

  /** The walk finds the way clear exactly when the op conflicts with none before it. */
  predicate Clear(root: Json, op: Op) {
    PathClear(root, SectionPath(op)) && (op.Setting? ==> NodeAt(root, op.path) == Nothing)
  }

  predicate NoValueAbove(ops: seq<Op>, path: Path) {
    forall o :: o in ops && o.Setting? ==> !IsPrefix(o.path, path)
  }

  lemma ClearAbove(root: Json, ops: seq<Op>, path: Path)
    requires Consistent(ops) && WellFormedOps(ops) && Holds(root, ops)
    ensures PathClear(root, path) <==> NoValueAbove(ops, path)
  {
    hide IsPrefix, NodeFrom, Consistent, WellFormedOps, PathClear;
    ClearMeaning(root, path);
    if NoValueAbove(ops, path) {
      forall p | IsPrefix(p, path) ensures Open(NodeAt(root, p)) {
        OpenIff(ops, p);
      }
    }
    if PathClear(root, path) {
      forall o | o in ops && o.Setting? ensures !IsPrefix(o.path, path) {
        OpenIff(ops, o.path);
      }
    }
  }

  lemma ClearIffFits(root: Json, ops: seq<Op>, op: Op)
    requires Consistent(ops) && WellFormedOps(ops) && Holds(root, ops) && WellFormedOp(op)
    ensures Clear(root, op) <==> Fits(ops, op)
  {
    hide IsPrefix, NodeFrom, Consistent, WellFormedOps, PathClear;
    ClearAbove(root, ops, SectionPath(op));
    if op.Setting? {
      OpenIff(ops, op.path);
      assert NodeAt(root, op.path) == NodeFrom(ops, op.path);
      assert HasSection(ops, op.path) <==> exists o :: o in ops && Covers(o, op.path);
    }
  }

  /** One line more. */
  function ApplyLine(root: Json, current: Path, line: Line): Result<Json, IniError> {
    match line
    case Header(segments) => EnsureSection(root, segments)
    case Entry(key, value) => AddEntry(root, current, key, value)
    case Bad(e) => Err(e)
    case Blank => Ok(root)
  }

  /** One op more: the walk succeeds when the way is clear, and adds exactly that op. */
  lemma ApplyOp(root: Json, current: Path, line: Line, ops: seq<Op>, op: Op)
    requires Consistent(ops) && WellFormedOps(ops) && Holds(root, ops)
    requires (line.Header? && op == Section(line.segments)) ||
             (line.Entry? && op == Setting(current + [line.key], line.value))
    ensures var r := ApplyLine(root, current, line);
      (r.Ok? <==> Consistent(ops + [op])) && (r.Ok? ==> Holds(r.value, ops + [op]))
  {
    hide PathClear, IsPrefix, Consistent, NodeFrom, WellFormedOps;
    var r := ApplyLine(root, current, line);
    ConsistentSnoc(ops, op);
    ClearIffFits(root, ops, op);
    if line.Header? {
      EnsureMeaning(root, line.segments, []);
      forall q ensures r.Ok? ==> NodeAt(r.value, q) == NodeFrom(ops + [op], q) {
        EnsureMeaning(root, line.segments, q);
        NodeFromSnoc(ops, op, q);
      }
    } else {
      assert (current + [line.key])[..|current|] == current;
      AddMeaning(root, current, line.key, line.value, []);
      forall q ensures r.Ok? ==> NodeAt(r.value, q) == NodeFrom(ops + [op], q) {
        AddMeaning(root, current, line.key, line.value, q);
        NodeFromSnoc(ops, op, q);
      }
    }
  }

  lemma ApplyMeaning(root: Json, kinds: seq<Line>, n: nat)
    requires n < |kinds| && Sound(kinds, n) && Holds(root, OpsOf(kinds, n))
    ensures var r := ApplyLine(root, CurrentAt(kinds, n), kinds[n]);
      (r.Ok? <==> Sound(kinds, n + 1)) && (r.Ok? ==> Holds(r.value, OpsOf(kinds, n + 1)))
  {
    OpsAreWellFormed(kinds, n);
    var ops := OpsOf(kinds, n);
    assert NoBad(kinds, n + 1) <==> NoBad(kinds, n) && !kinds[n].Bad?;
    assert OpsOf(kinds, n + 1) == ops + OpAt(kinds, n);
    if kinds[n].Header? || kinds[n].Entry? {
      ApplyOp(root, CurrentAt(kinds, n), kinds[n], ops, OpAt(kinds, n)[0]);
    } else {
      assert ops + OpAt(kinds, n) == ops;
    }
  }

  lemma ParseNext(root: Json, kinds: seq<Line>, n: nat)
    requires n < |kinds|
    ensures ParseFrom(root, CurrentAt(kinds, n), kinds[n..], n + 1) ==
      match ApplyLine(root, CurrentAt(kinds, n), kinds[n])
      case Ok(w) => ParseFrom(w, CurrentAt(kinds, n + 1), kinds[n + 1..], n + 2)
      case Err(e) => Err(ParseError(n + 1, e))
  {
    hide EnsureSection, AddEntry;
    assert kinds[n..][0] == kinds[n] && kinds[n..][1..] == kinds[n + 1..];
  }

  /** Success with what all the lines say, or the first line after the `n`th that cannot be
      taken. */
  ghost predicate Outcome(kinds: seq<Line>, n: nat, r: Parsed) {
    match r
    case Ok(doc) => Sound(kinds, |kinds|) && Holds(doc, OpsOf(kinds, |kinds|))
    case Err(e) => n < e.line <= |kinds| && Sound(kinds, e.line - 1) && !Sound(kinds, e.line)
  }

  lemma OutcomeLater(kinds: seq<Line>, n: nat, r: Parsed)
    requires Outcome(kinds, n + 1, r)
    ensures Outcome(kinds, n, r)
  {
    hide Sound, Holds;
  }

  /** A parse from any sound point: it succeeds with what the lines say, or stops at the
      first line the document cannot take. */
  lemma {:induction false} ParseMeaning(root: Json, kinds: seq<Line>, n: nat)
    requires n <= |kinds| && Sound(kinds, n) && Holds(root, OpsOf(kinds, n))
    ensures Outcome(kinds, n, ParseFrom(root, CurrentAt(kinds, n), kinds[n..], n + 1))
    decreases |kinds| - n
  {
    hide Outcome, Sound, Holds, ParseFrom, CurrentAt, ApplyLine, OpsOf;
    if n < |kinds| {
      ParseNext(root, kinds, n);
      ApplyMeaning(root, kinds, n);
      var r := ApplyLine(root, CurrentAt(kinds, n), kinds[n]);
      if r.Ok? {
        ParseMeaning(r.value, kinds, n + 1);
        OutcomeLater(kinds, n, ParseFrom(r.value, CurrentAt(kinds, n + 1), kinds[n + 1..], n + 2));
      } else {
        StopsHere(kinds, n, r.error);
      }
    } else {
      ParseEnd(root, kinds);
    }
  }

  lemma StopsHere(kinds: seq<Line>, n: nat, error: IniError)
    requires n < |kinds| && Sound(kinds, n) && !Sound(kinds, n + 1)
    ensures Outcome(kinds, n, Err(ParseError(n + 1, error)))
  {
    hide Sound, Holds;
  }

  lemma ParseEnd(root: Json, kinds: seq<Line>)
    requires Sound(kinds, |kinds|) && Holds(root, OpsOf(kinds, |kinds|))
    ensures Outcome(kinds, |kinds|, ParseFrom(root, CurrentAt(kinds, |kinds|), kinds[|kinds|..], |kinds| + 1))
  {
    hide Sound, Holds, OpsOf, CurrentAt;
    assert kinds[|kinds|..] == [];
  }

  lemma {:induction false} SoundBefore(kinds: seq<Line>, m: nat, n: nat)
    requires m <= n <= |kinds| && Sound(kinds, n)
    ensures Sound(kinds, m)
  {
    hide OpAt, Conflict;
    if m < n {
      var ops, last := OpsOf(kinds, n - 1), OpAt(kinds, n - 1);
      assert forall i :: 0 <= i < |ops| ==> (ops + last)[i] == ops[i];
      SoundBefore(kinds, m, n - 1);
    }
  }

  /**
   `iniToJson` succeeds exactly when no line is malformed and no two lines conflict, whatever
   their order; the document then holds what the lines say and nothing else. Otherwise the
   error names the first line the document could not take.
   */
  lemma ParsesIffSound(text: string)
    ensures var kinds := KindsOf(text);
      match ParseText(text)
      case Ok(doc) => Sound(kinds, |kinds|) && Holds(doc, OpsOf(kinds, |kinds|))
      case Err(e) =>
        !Sound(kinds, |kinds|) && 0 < e.line <= |kinds| && Sound(kinds, e.line - 1) && !Sound(kinds, e.line)
  {
    hide Sound, Holds, ParseFrom, CurrentAt, KindsOf, OpsOf;
    var kinds := KindsOf(text);
    StartsSound(kinds);
    ParseMeaning(EMPTY_OBJECT, kinds, 0);
    var r := ParseText(text);
    assert Outcome(kinds, 0, r);
    if r.Err? && Sound(kinds, |kinds|) {
      SoundBefore(kinds, r.error.line, |kinds|);
    }
  }

  lemma StartsSound(kinds: seq<Line>)
    ensures Sound(kinds, 0) && Holds(EMPTY_OBJECT, OpsOf(kinds, 0)) && kinds[0..] == kinds && CurrentAt(kinds, 0) == []
  {
    forall q ensures NodeAt(EMPTY_OBJECT, q) == NodeFrom([], q) {
      EmptyNodes(q);
    }
  }

  // ---- Ops of a list of lines, from any section ----

  function EndOf(current: Path, kinds: seq<Line>): Path
    decreases |kinds|
  {
    if kinds == [] then current
    else EndOf(if kinds[0].Header? then kinds[0].segments else current, kinds[1..])
  }

  function OpsFrom(current: Path, kinds: seq<Line>): seq<Op>
    decreases |kinds|
  {
    if kinds == [] then []
    else
      match kinds[0]
      case Header(segments) => [Section(segments)] + OpsFrom(segments, kinds[1..])
      case Entry(key, value) => [Setting(current + [key], value)] + OpsFrom(current, kinds[1..])
      case _ => OpsFrom(current, kinds[1..])
  }

  lemma {:induction false} OpsConcat(current: Path, a: seq<Line>, b: seq<Line>)
    ensures EndOf(current, a + b) == EndOf(EndOf(current, a), b)
    ensures OpsFrom(current, a + b) == OpsFrom(current, a) + OpsFrom(EndOf(current, a), b)
    decreases |a|
  {
    if a == [] {
      assert a + b == b;
    } else {
      assert (a + b)[1..] == a[1..] + b;
      OpsConcat(if a[0].Header? then a[0].segments else current, a[1..], b);
    }
  }

  lemma OpsOfOne(current: Path, line: Line)
    ensures EndOf(current, [line]) == if line.Header? then line.segments else current
    ensures OpsFrom(current, [line]) ==
      if line.Header? then [Section(line.segments)]
      else if line.Entry? then [Setting(current + [line.key], line.value)]
      else []
  {
    assert [line][1..] == [];
  }

  /** Both ways of reading the lines agree. */
  lemma {:induction false} OpsAgree(kinds: seq<Line>, n: nat)
    requires n <= |kinds|
    ensures OpsOf(kinds, n) == OpsFrom([], kinds[..n]) && CurrentAt(kinds, n) == EndOf([], kinds[..n])
  {
    if n == 0 {
    } else {
      OpsAgree(kinds, n - 1);
      assert kinds[..n] == kinds[..n - 1] + [kinds[n - 1]];
      OpsConcat([], kinds[..n - 1], [kinds[n - 1]]);
      OpsOfOne(CurrentAt(kinds, n - 1), kinds[n - 1]);
    }
  }

  function AllOps(kinds: seq<Line>): seq<Op> {
    OpsFrom([], kinds)
  }

  /** An INI document: no malformed line, no conflict. */
  predicate Parses(kinds: seq<Line>) {
    NoBad(kinds, |kinds|) && Consistent(AllOps(kinds))
  }

  lemma ParsesMeans(text: string)
    ensures var kinds := KindsOf(text);
      WellFormedOps(AllOps(kinds)) &&
      match ParseText(text)
      case Ok(doc) => Parses(kinds) && Holds(doc, AllOps(kinds))
      case Err(_) => !Parses(kinds)
  {
    hide KindsOf, OpsOf, OpsFrom, Holds, ParseFrom;
    var kinds := KindsOf(text);
    ParsesIffSound(text);
    OpsAgree(kinds, |kinds|);
    OpsAreWellFormed(kinds, |kinds|);
    assert kinds[..|kinds|] == kinds;
  }

  /** A setting among the ops is an entry among the lines. */
  lemma {:induction false} SettingLine(current: Path, kinds: seq<Line>, path: Path, value: string) returns (i: nat)
    requires Setting(path, value) in OpsFrom(current, kinds)
    ensures i < |kinds| && kinds[i].Entry? && kinds[i].value == value &&
            EndOf(current, kinds[..i]) + [kinds[i].key] == path
    decreases |kinds|
  {
    var line := kinds[0];
    var next := if line.Header? then line.segments else current;
    if line.Entry? && Setting(current + [line.key], line.value) == Setting(path, value) {
      i := 0;
    } else {
      var j := SettingLine(next, kinds[1..], path, value);
      i := j + 1;
      assert kinds[..i] == [line] + kinds[1..][..j];
      assert ([line] + kinds[1..][..j])[1..] == kinds[1..][..j];
    }
  }

  // ---- A document is its nodes ----

  ghost predicate SameNodes(a: Json, b: Json) {
    forall q :: NodeAt(a, q) == NodeAt(b, q)
  }

  ghost predicate NoOdd(a: Json) {
    forall q :: !NodeAt(a, q).Odd?
  }

  lemma {:induction false} NodesTell(a: Json, b: Json)
    requires SameNodes(a, b) && NoOdd(a)
    ensures a == b
    decreases a
  {
    assert NodeAt(a, []) == NodeAt(b, []) && !NodeAt(a, []).Odd?;
    if !a.Obj? {
    } else {
      forall k ensures k in a.fields <==> k in b.fields {
        assert NodeAt(a, [k]) == NodeAt(b, [k]);
        NodeKey(a, [k]);
        NodeKey(b, [k]);
        assert [k][1..] == [];
        assert k in a.fields ==> NodeAt(a.fields[k], []) != Nothing;
        assert k in b.fields ==> NodeAt(b.fields[k], []) != Nothing;
      }
      forall k | k in a.fields ensures a.fields[k] == b.fields[k] {
        forall q ensures NodeAt(a.fields[k], q) == NodeAt(b.fields[k], q) && !NodeAt(a.fields[k], q).Odd? {
          assert NodeAt(a, [k] + q) == NodeAt(b, [k] + q) && !NodeAt(a, [k] + q).Odd?;
          assert ([k] + q)[1..] == q;
        }
        NodesTell(a.fields[k], b.fields[k]);
      }
      assert a.fields == b.fields;
    }
  }
}
