/**
 Editing one key of an INI text in place (`web/src/config/ini.ts`), so that comments, order
 and every other line stay as they are. Each edit commutes with parsing: parsing the edited
 text gives the parsed document with that one path changed.
 */
module IniEditing {
  import opened JsonModel
  import opened Text
  import opened Splits
  import opened ConfigTrees
  import opened IniLines
  import opened IniDocuments

  // ---- How the editor reads lines ----

  /** The section the editor sees in force after the first `n` lines. */
  function ScanAt(lines: seq<string>, n: nat): string
    requires n <= |lines|
  {
    if n == 0 then "/"
    else
      var line := Trimming(lines[n - 1]);
      if LooksLikeHeader(line) then CanonicalSection(line[1..|line| - 1]) else ScanAt(lines, n - 1)
  }

  /** `scanLines`. */
  method ScanLines(text: string) returns (lines: seq<string>, sectionOf: seq<string>)
    ensures lines == LinesOf(text) && |sectionOf| == |lines|
    ensures forall i :: 0 <= i < |lines| ==> sectionOf[i] == ScanAt(lines, i + 1)
  {
    lines := LinesOf(text);
    sectionOf := [];
    var current := "/";
    hide Trimming, CanonicalSection, LinesOf;
    for i := 0 to |lines|
      invariant |sectionOf| == i && current == ScanAt(lines, i)
      invariant forall j :: 0 <= j < i ==> sectionOf[j] == ScanAt(lines, j + 1)
    {
      var line := Trimming(lines[i]);
      if LooksLikeHeader(line) {
        current := CanonicalSection(line[1..|line| - 1]);
      }
      sectionOf := sectionOf + [current];
    }
  }

  /** `isKeyLine`. */
  predicate IsKeyLine(raw: string, key: string) {
    var line := Trimming(raw);
    !IsComment(line) && line[0] != '[' &&
    var eq := FirstOf(line, {'='});
    0 < eq < |line| && Trimming(line[..eq]) == key
  }

  predicate MatchesAt(lines: seq<string>, i: nat, target: string, key: string)
    requires i < |lines|
  {
    ScanAt(lines, i + 1) == target && IsKeyLine(lines[i], key)
  }

  function ValueOfLine(raw: string): string {
    var line := Trimming(raw);
    var eq := FirstOf(line, {'='});
    if eq < |line| then Trimming(line[eq + 1..]) else ""
  }

  /** The first line from `from` on that sets the key, or how many lines there are. */
  function FirstMatch(lines: seq<string>, target: string, key: string, from: nat): (m: nat)
    requires from <= |lines|
    ensures from <= m <= |lines|
    ensures m < |lines| ==> MatchesAt(lines, m, target, key)
    ensures forall i :: from <= i < m ==> !MatchesAt(lines, i, target, key)
    decreases |lines| - from
  {
    if from == |lines| || MatchesAt(lines, from, target, key) then from else FirstMatch(lines, target, key, from + 1)
  }

  function GetValue(text: string, section: string, key: string): Option<string> {
    var lines := LinesOf(text);
    var m := FirstMatch(lines, CanonicalSection(section), key, 0);
    if m < |lines| then Some(ValueOfLine(lines[m])) else None
  }

  /** `getIniValue`. */
  method GetIniValue(text: string, section: string, key: string) returns (r: Option<string>)
    ensures r == GetValue(text, section, key)
  {
    var target := CanonicalSection(section);
    var lines, sectionOf := ScanLines(text);
    hide IsKeyLine, ScanAt, CanonicalSection;
    for i := 0 to |lines|
      invariant FirstMatch(lines, target, key, 0) == FirstMatch(lines, target, key, i)
    {
      if sectionOf[i] == target && IsKeyLine(lines[i], key) {
        return Some(ValueOfLine(lines[i]));
      }
    }
    r := None;
  }

  // ---- The editor's reading against the parser's ----

  /** Every header is read alike, and no line is malformed. */
  predicate PlainLines(lines: seq<string>) {
    forall i :: 0 <= i < |lines| ==> ReadAlike(lines[i]) && !Classify(lines[i]).Bad?
  }

  lemma NotAHeader(raw: string)
    requires !Classify(raw).Bad? && !Classify(raw).Header?
    ensures !LooksLikeHeader(Trimming(raw))
  {
  }

  lemma {:induction false} ScanIsCurrent(lines: seq<string>, n: nat)
    requires n <= |lines| && PlainLines(lines)
    ensures var current := CurrentAt(ClassifyAll(lines), n);
            GoodSegments(current) && ScanAt(lines, n) == SectionText(current)
  {
    hide Classify, Trimming, LooksLikeHeader, GoodSegments, SegmentsOf, ReadAlike;
    if n == 0 {
      NoSegmentsAreGood();
    } else {
      ScanIsCurrent(lines, n - 1);
      var raw := lines[n - 1];
      assert ReadAlike(raw) && !Classify(raw).Bad?;
      if Classify(raw).Header? {
        HeaderSegmentsAreGood(raw);
        HeaderSection(raw);
      } else {
        NotAHeader(raw);
      }
    }
  }

  /** Only headers matter: they are all read alike if and only if the editor and the parser
      see one section at every line. */
  lemma {:induction false} ScanIsCurrentIff(lines: seq<string>)
    requires forall i :: 0 <= i < |lines| ==> !Classify(lines[i]).Bad?
    ensures PlainLines(lines) <==>
            forall n :: 0 <= n <= |lines| ==> ScanAt(lines, n) == SectionText(CurrentAt(ClassifyAll(lines), n))
  {
    hide Classify, ReadAlike;
    if PlainLines(lines) {
      forall n | 0 <= n <= |lines| ensures ScanAt(lines, n) == SectionText(CurrentAt(ClassifyAll(lines), n)) {
        ScanIsCurrent(lines, n);
      }
    } else {
      var i :| 0 <= i < |lines| && !ReadAlike(lines[i]);
      ReadOtherwise(lines, i);
    }
  }

  /** After a header that is not read alike, they see two sections. */
  lemma ReadOtherwise(lines: seq<string>, i: nat)
    requires i < |lines| && !Classify(lines[i]).Bad? && !ReadAlike(lines[i])
    ensures ScanAt(lines, i + 1) != SectionText(CurrentAt(ClassifyAll(lines), i + 1))
  {
    var raw := lines[i];
    NotReadAlike(raw);
    HeaderSegmentsAreGood(raw);
    var line := Trimming(raw);
    TargetIsGood(line[1..|line| - 1]);
    GoodSectionsTell(Classify(raw).segments, SegmentsOf(line[1..|line| - 1]));
  }

  lemma NotReadAlike(raw: string)
    requires !Classify(raw).Bad? && !ReadAlike(raw)
    ensures Classify(raw).Header? && LooksLikeHeader(Trimming(raw))
    ensures SegmentsOf(Trimming(raw)[1..|Trimming(raw)| - 1]) != Classify(raw).segments
  {
    hide Trim, Split, NonEmpty, SegmentsOf;
  }

  lemma NoSegmentsAreGood()
    ensures GoodSegments([]) && SectionText([]) == "/"
  {
  }

  lemma KeyLineIsEntry(raw: string, key: string)
    requires !Classify(raw).Bad?
    ensures IsKeyLine(raw, key) <==> Classify(raw).Entry? && Classify(raw).key == key
    ensures Classify(raw).Entry? ==> ValueOfLine(raw) == Classify(raw).value
  {
    hide Trimming, FirstOf;
  }

  /** At every entry the editor and the parser see one section, and no line is malformed. */
  predicate EntriesReadAlike(lines: seq<string>) {
    && (forall i :: 0 <= i < |lines| ==> !Classify(lines[i]).Bad?)
    && (forall i :: 0 <= i < |lines| && Classify(lines[i]).Entry? ==>
          ScanAt(lines, i) == SectionText(CurrentAt(ClassifyAll(lines), i)))
  }

  lemma PlainReadsAlike(lines: seq<string>)
    requires PlainLines(lines)
    ensures EntriesReadAlike(lines)
  {
    hide Classify, ReadAlike, SectionText;
    forall i | 0 <= i < |lines| ensures ScanAt(lines, i) == SectionText(CurrentAt(ClassifyAll(lines), i)) {
      ScanIsCurrent(lines, i);
    }
  }

  lemma {:induction false} CurrentIsGood(lines: seq<string>, n: nat)
    requires n <= |lines|
    ensures GoodSegments(CurrentAt(ClassifyAll(lines), n))
  {
    hide Classify, GoodSegments;
    if n == 0 {
      NoSegmentsAreGood();
    } else {
      CurrentIsGood(lines, n - 1);
      if Classify(lines[n - 1]).Header? {
        HeaderSegmentsAreGood(lines[n - 1]);
      }
    }
  }

  /** An entry is in the section before it, to the editor too. */
  lemma EntryKeepsScan(lines: seq<string>, i: nat)
    requires i < |lines| && Classify(lines[i]).Entry?
    ensures ScanAt(lines, i + 1) == ScanAt(lines, i)
  {
    NotAHeader(lines[i]);
  }

  /** A line the editor matches is an entry of that key in that section. */
  lemma MatchIsEntry(lines: seq<string>, i: nat, section: string, key: string)
    requires i < |lines| && EntriesReadAlike(lines)
    ensures var kinds := ClassifyAll(lines);
      MatchesAt(lines, i, CanonicalSection(section), key) <==>
      (kinds[i].Entry? && kinds[i].key == key && CurrentAt(kinds, i) == SegmentsOf(section))
    ensures Classify(lines[i]).Entry? ==> ValueOfLine(lines[i]) == Classify(lines[i]).value
  {
    hide Classify, IsKeyLine, Trimming, SectionText, GoodSegments, SegmentsOf, ValueOfLine, ReadAlike;
    var kinds := ClassifyAll(lines);
    assert !Classify(lines[i]).Bad?;
    KeyLineIsEntry(lines[i], key);
    if Classify(lines[i]).Entry? {
      EntryKeepsScan(lines, i);
      CurrentIsGood(lines, i);
      TargetIsGood(section);
      GoodSectionsTell(CurrentAt(kinds, i), SegmentsOf(section));
    }
  }

  lemma TargetIsGood(section: string)
    ensures GoodSegments(SegmentsOf(section))
  {
    SegmentsAreSlashFree(section);
  }

  lemma GoodSectionsTell(a: Path, b: Path)
    requires GoodSegments(a) && GoodSegments(b)
    ensures SectionText(a) == SectionText(b) <==> a == b
  {
    SectionTextTells(a, b);
  }

  // ---- Reading ----

  /** The line matched, to the parser. */
  lemma MatchedEntry(lines: seq<string>, m: nat, section: string, key: string)
    requires EntriesReadAlike(lines) && m < |lines| && MatchesAt(lines, m, CanonicalSection(section), key)
    ensures var kinds := ClassifyAll(lines);
      && kinds[m] == Entry(key, ValueOfLine(lines[m]))
      && EndOf([], kinds[..m]) == SegmentsOf(section)
  {
    hide Classify, MatchesAt, SegmentsOf, CanonicalSection, ValueOfLine, EntriesReadAlike;
    MatchIsEntry(lines, m, section, key);
    OpsAgree(ClassifyAll(lines), m);
  }

  lemma MatchedLine(lines: seq<string>, m: nat, section: string, key: string)
    requires PlainLines(lines) && m < |lines| && MatchesAt(lines, m, CanonicalSection(section), key)
    ensures var kinds := ClassifyAll(lines);
      && kinds[m] == Entry(key, ValueOfLine(lines[m]))
      && EndOf([], kinds[..m]) == SegmentsOf(section)
  {
    hide Classify, MatchesAt, SegmentsOf, CanonicalSection, ValueOfLine, EntriesReadAlike, PlainLines;
    PlainReadsAlike(lines);
    MatchedEntry(lines, m, section, key);
  }

  lemma NoMatchNoSetting(lines: seq<string>, section: string, key: string, value: string)
    requires EntriesReadAlike(lines) && FirstMatch(lines, CanonicalSection(section), key, 0) == |lines|
    ensures Setting(SegmentsOf(section) + [key], value) !in AllOps(ClassifyAll(lines))
  {
    hide Classify, MatchesAt, SegmentsOf, CanonicalSection, ValueOfLine, EntriesReadAlike;
    var kinds, p := ClassifyAll(lines), SegmentsOf(section) + [key];
    if Setting(p, value) in AllOps(kinds) {
      var i := SettingLine([], kinds, p, value);
      OpsAgree(kinds, i);
      var c := EndOf([], kinds[..i]);
      assert (c + [kinds[i].key])[..|p| - 1] == c && p[..|p| - 1] == SegmentsOf(section);
      MatchIsEntry(lines, i, section, key);
    }
  }

  /** The editor and the parser read every header alike. */
  predicate Editable(text: string) {
    forall i :: 0 <= i < |LinesOf(text)| ==> ReadAlike(LinesOf(text)[i])
  }

  lemma EditableIsPlain(text: string)
    requires Editable(text) && ParseText(text).Ok?
    ensures PlainLines(LinesOf(text))
  {
    hide Classify, ReadAlike, ParseFrom;
    ParsesMeans(text);
    assert NoBad(KindsOf(text), |KindsOf(text)|);
    forall i | 0 <= i < |LinesOf(text)| ensures !Classify(LinesOf(text)[i]).Bad? {
      assert KindsOf(text)[i] == Classify(LinesOf(text)[i]);
    }
  }

  function TextOf(n: Node): Option<string> {
    if n.Value? then Some(n.text) else None
  }

  /** What the text reads at a key is what the document has there. */
  ghost predicate ReadsKey(text: string, section: string, key: string) {
    ParseText(text).Ok? &&
    GetValue(text, section, key) == TextOf(NodeAt(ParseText(text).value, SegmentsOf(section) + [key]))
  }

  lemma AlikeReadsKey(text: string, section: string, key: string)
    requires EntriesReadAlike(LinesOf(text)) && ParseText(text).Ok?
    ensures ReadsKey(text, section, key)
  {
    hide Classify, ClassifyAll, SegmentsOf, CanonicalSection, ParseFrom, MatchesAt, EntriesReadAlike, Consistent,
         WellFormedOps;
    hide ValueOfLine, Trimming, ReadAlike, IsKeyLine, ScanAt, OpsFrom, EndOf, LinesOf, NoBad;
    ParsesMeans(text);
    var lines, kinds, p := LinesOf(text), KindsOf(text), SegmentsOf(section) + [key];
    var m := FirstMatch(lines, CanonicalSection(section), key, 0);
    NodeMeaning(AllOps(kinds), p);
    if m < |lines| {
      MatchedEntry(lines, m, section, key);
      SettingOfLine(kinds, m);
    } else {
      var node := NodeFrom(AllOps(kinds), p);
      if node.Value? {
        NoMatchNoSetting(lines, section, key, node.text);
      }
    }
  }

  /** `getIniValue` reads the parsed document at that path. */
  lemma GetReadsTheDocument(text: string, section: string, key: string)
    requires Editable(text) && ParseText(text).Ok?
    ensures GetValue(text, section, key) == TextOf(NodeAt(ParseText(text).value, SegmentsOf(section) + [key]))
  {
    hide EntriesReadAlike, PlainLines, Editable, GetValue, ParseFrom;
    EditableIsPlain(text);
    PlainReadsAlike(LinesOf(text));
    AlikeReadsKey(text, section, key);
  }

  lemma SettingOfLine(kinds: seq<Line>, m: nat)
    requires m < |kinds| && kinds[m].Entry?
    ensures AllOps(kinds) == AllOps(kinds[..m]) + [Setting(EndOf([], kinds[..m]) + [kinds[m].key], kinds[m].value)]
      + OpsFrom(EndOf([], kinds[..m]), kinds[m + 1..])
  {
    var a, c := kinds[..m], EndOf([], kinds[..m]);
    assert kinds == a + ([kinds[m]] + kinds[m + 1..]);
    OpsConcat([], a, [kinds[m]] + kinds[m + 1..]);
    OpsConcat(c, [kinds[m]], kinds[m + 1..]);
    OpsOfOne(c, kinds[m]);
  }

  // ---- One op among others ----

  lemma FitsMembers(ops: seq<Op>, others: seq<Op>, op: Op)
    requires forall o :: o in ops <==> o in others
    ensures Fits(ops, op) <==> Fits(others, op)
  {
    hide Conflict;
  }

  lemma FitsSnoc(ops: seq<Op>, last: Op, op: Op)
    ensures Fits(ops + [last], op) <==> Fits(ops, op) && !Conflict(last, op) && !Conflict(op, last)
  {
    hide Conflict;
    assert forall o :: o in ops + [last] <==> o in ops || o == last;
  }

  /** Where an op stands among the others makes no difference. */
  lemma {:induction false} MiddleOp(a: seq<Op>, op: Op, b: seq<Op>)
    ensures Consistent(a + [op] + b) <==> Consistent(a + b) && Fits(a + b, op)
    decreases |b|
  {
    hide Consistent, Fits;
    if b == [] {
      assert a + [op] + b == a + [op] && a + b == a;
      ConsistentSnoc(a, op);
    } else {
      var front, last := b[..|b| - 1], b[|b| - 1];
      assert a + [op] + b == a + [op] + front + [last] && a + b == a + front + [last];
      MiddleOp(a, op, front);
      ConsistentSnoc(a + [op] + front, last);
      ConsistentSnoc(a + front, last);
      FitsMembers(a + [op] + front, a + front + [op], last);
      FitsSnoc(a + front, op, last);
      FitsSnoc(a + front, last, op);
    }
  }

  lemma SameMembersSameNodes(ops: seq<Op>, others: seq<Op>, q: Path)
    requires Consistent(ops) && Consistent(others) && WellFormedOps(ops) && WellFormedOps(others)
    requires forall o :: o in ops <==> o in others
    ensures NodeFrom(ops, q) == NodeFrom(others, q)
  {
    hide Consistent, WellFormedOps, NodeFrom;
    NodeMeaning(ops, q);
    NodeMeaning(others, q);
    assert HasSection(ops, q) <==> HasSection(others, q);
    var node := NodeFrom(ops, q);
    if node.Value? {
      assert Setting(q, node.text) in others;
    }
    var node' := NodeFrom(others, q);
    if node'.Value? {
      assert Setting(q, node'.text) in ops;
    }
  }

  lemma WellFormedMembers(ops: seq<Op>)
    ensures WellFormedOps(ops) <==> forall o :: o in ops ==> WellFormedOp(o)
  {
  }

  /** The node at `q` with one op among others. */
  lemma NodeAmong(a: seq<Op>, op: Op, b: seq<Op>, q: Path)
    requires Consistent(a + [op] + b) && WellFormedOps(a + b) && WellFormedOp(op)
    ensures WellFormedOps(a + [op] + b) && Consistent(a + b)
    ensures NodeFrom(a + [op] + b, q) ==
      if op.Setting? && op.path == q then Value(op.value)
      else if IsPrefix(q, SectionPath(op)) then Branch
      else NodeFrom(a + b, q)
  {
    hide Consistent, NodeFrom, WellFormedOps, SectionPath;
    var mixed, last := a + [op] + b, a + b + [op];
    assert forall o :: o in mixed <==> o in last;
    assert forall o :: o in last <==> o in a + b || o == op;
    WellFormedMembers(mixed);
    WellFormedMembers(last);
    WellFormedMembers(a + b);
    MiddleOp(a, op, b);
    ConsistentSnoc(a + b, op);
    SameMembersSameNodes(mixed, last, q);
    NodeFromSnoc(a + b, op, q);
  }

  /** Whether a setting fits does not depend on its value. */
  lemma ValueDoesNotMatter(ops: seq<Op>, path: Path, v: string, w: string)
    ensures Fits(ops, Setting(path, v)) <==> Fits(ops, Setting(path, w))
  {
    forall o | o in ops
      ensures Conflict(o, Setting(path, v)) <==> Conflict(o, Setting(path, w))
      ensures Conflict(Setting(path, v), o) <==> Conflict(Setting(path, w), o)
    {
    }
  }

  // ---- What an edit does to the document ----

  /** The document with a value at `path`, and its section. */
  function WithSetting(n: Node, path: Path, value: string, q: Path): Node
    requires path != []
  {
    if q == path then Value(value) else if IsPrefix(q, path[..|path| - 1]) then Branch else n
  }

  /** `after` holds what `before` holds, with a value at `path`. */
  ghost predicate SetAmong(before: seq<Op>, after: seq<Op>, path: Path, value: string)
    requires path != []
  {
    forall q :: NodeFrom(after, q) == WithSetting(NodeFrom(before, q), path, value, q)
  }

  /** A different value for the same path. */
  lemma ReplaceValue(a: seq<Op>, b: seq<Op>, path: Path, before: string, value: string)
    requires path != [] && WellFormedOps(a + b) && Consistent(a + [Setting(path, before)] + b)
    ensures Consistent(a + [Setting(path, value)] + b)
    ensures SetAmong(a + [Setting(path, before)] + b, a + [Setting(path, value)] + b, path, value)
  {
    hide Consistent, NodeFrom, WellFormedOps;
    MiddleOp(a, Setting(path, before), b);
    MiddleOp(a, Setting(path, value), b);
    ValueDoesNotMatter(a + b, path, before, value);
    forall q ensures NodeFrom(a + [Setting(path, value)] + b, q)
      == WithSetting(NodeFrom(a + [Setting(path, before)] + b, q), path, value, q)
    {
      NodeAmong(a, Setting(path, before), b, q);
      NodeAmong(a, Setting(path, value), b, q);
    }
  }

  /** One more setting: consistent exactly when the document has room for it. */
  lemma AddSetting(doc: Json, a: seq<Op>, b: seq<Op>, path: Path, value: string)
    requires path != [] && WellFormedOps(a + b) && Consistent(a + b) && Holds(doc, a + b)
    ensures var op := Setting(path, value); var ops := a + [op] + b;
      && (Consistent(ops) <==> Clear(doc, op))
      && (Consistent(ops) ==> forall q :: NodeFrom(ops, q) == WithSetting(NodeAt(doc, q), path, value, q))
  {
    hide Consistent, NodeFrom, WellFormedOps, Clear;
    var op := Setting(path, value);
    var ops := a + [op] + b;
    MiddleOp(a, op, b);
    ClearIffFits(doc, a + b, op);
    if Consistent(ops) {
      forall q ensures NodeFrom(ops, q) == WithSetting(NodeAt(doc, q), path, value, q) {
        NodeAmong(a, op, b, q);
        assert NodeAt(doc, q) == NodeFrom(a + b, q);
      }
    }
  }

  /** One setting less, its section being there without it. */
  lemma DropSetting(a: seq<Op>, b: seq<Op>, path: Path, value: string)
    requires path != [] && WellFormedOps(a + b) && Consistent(a + [Setting(path, value)] + b)
    requires HasSection(a + b, path[..|path| - 1])
    ensures Consistent(a + b)
    ensures forall q :: NodeFrom(a + b, q) == if q == path then Nothing else NodeFrom(a + [Setting(path, value)] + b, q)
  {
    hide Consistent, NodeFrom, WellFormedOps, HasSection;
    var op := Setting(path, value);
    MiddleOp(a, op, b);
    forall q ensures NodeFrom(a + b, q) == if q == path then Nothing else NodeFrom(a + [op] + b, q) {
      NodeAmong(a, op, b, q);
      FitsMeans(a + b, op, q);
      OpenIff(a + b, q);
      if IsPrefix(q, path[..|path| - 1]) {
        SectionAbove(a + b, path[..|path| - 1], q);
        NodeMeaning(a + b, q);
      }
    }
  }

  lemma SectionAbove(ops: seq<Op>, section: Path, q: Path)
    requires HasSection(ops, section) && IsPrefix(q, section)
    ensures HasSection(ops, q)
  {
    if section != [] && q != [] {
      var o :| o in ops && Covers(o, section);
      assert Covers(o, q) by {
        assert SectionPath(o)[..|q|] == SectionPath(o)[..|section|][..|q|];
      }
    }
  }

  // ---- Setting a key ----

  predicate SingleLine(s: string) {
    Free(s, {'\n'})
  }

  function EntryLine(key: string, value: string): string {
    key + " = " + value
  }

  /** The last of the first `n` lines in the section with something on it, or -1. */
  function LastContent(lines: seq<string>, target: string, n: nat): (last: int)
    requires n <= |lines|
    ensures -1 <= last < n
    ensures last >= 0 ==> ScanAt(lines, last + 1) == target
  {
    if n == 0 then -1
    else if ScanAt(lines, n) == target && Trimming(lines[n - 1]) != "" then n - 1
    else LastContent(lines, target, n - 1)
  }

  /** Without the newlines it ends in. */
  function StripNewlines(text: string): string {
    if text != "" && text[|text| - 1] == '\n' then StripNewlines(text[..|text| - 1]) else text
  }

  /** A new section after everything else. */
  function Appended(text: string, target: string, entry: string): string {
    var doc := StripNewlines(text);
    doc + (if doc == "" then "" else "\n\n") + ("[" + target + "]") + "\n" + entry + "\n"
  }

  function InsertedAfter(lines: seq<string>, last: nat, line: string): seq<string>
    requires last < |lines|
  {
    lines[..last + 1] + [line] + lines[last + 1..]
  }

  function SetText(text: string, section: string, key: string, value: string): string {
    var lines, target := LinesOf(text), CanonicalSection(section);
    var m, last := FirstMatch(lines, target, key, 0), LastContent(lines, target, |lines|);
    if m < |lines| then Join(lines[m := EntryLine(key, value)], '\n')
    else if last >= 0 then Join(InsertedAfter(lines, last, EntryLine(key, value)), '\n')
    else Appended(text, target, EntryLine(key, value))
  }

  /** `setIniValue`. */
  method SetIniValue(text: string, section: string, key: string, value: string) returns (r: string)
    ensures r == SetText(text, section, key, value)
  {
    var target := CanonicalSection(section);
    var lines, sectionOf := ScanLines(text);
    var sectionSeen, lastContentInSection := false, -1;
    hide IsKeyLine, ScanAt, CanonicalSection, Trimming, Join, Appended, LinesOf, EntryLine;
    for i := 0 to |lines|
      invariant FirstMatch(lines, target, key, 0) == FirstMatch(lines, target, key, i)
      invariant lastContentInSection == LastContent(lines, target, i)
      invariant sectionSeen <==> lastContentInSection >= 0
    {
      if sectionOf[i] != target {
        continue;
      }
      if IsKeyLine(lines[i], key) {
        return Join(lines[i := EntryLine(key, value)], '\n');
      }
      if Trimming(lines[i]) != "" {
        sectionSeen := true;
        lastContentInSection := i;
      }
    }
    if sectionSeen {
      return Join(InsertedAfter(lines, lastContentInSection, EntryLine(key, value)), '\n');
    }
    r := Appended(text, target, EntryLine(key, value));
  }

  lemma NotPadded(raw: string)
    requires raw != "" && !White(raw[0]) && raw[0] != '['
    ensures ReadAlike(raw)
  {
    TrimKeepsFirst(raw, White);
  }

  lemma EntryLineReads(key: string, value: string)
    requires WellFormedKey(key) && SingleLine(value)
    ensures Classify(EntryLine(key, value)) == Entry(key, Trimming(value))
    ensures Free(EntryLine(key, value), {'\n'}) && ReadAlike(EntryLine(key, value))
  {
    hide Classify, Trimming, ReadAlike;
    EntryReadsBack(key, " ", " ", value);
    var raw := EntryLine(key, value);
    assert key + " " + "=" + " " + value == raw;
    assert raw[0] == key[0];
    NotPadded(raw);
  }

  /** Editing lines and joining them gives a text with just those lines. */
  lemma JoinedLines(lines: seq<string>)
    requires lines != [] && Without(lines, '\n')
    ensures KindsOf(Join(lines, '\n')) == ClassifyAll(lines)
    ensures (forall i :: 0 <= i < |lines| ==> ReadAlike(lines[i])) ==> Editable(Join(lines, '\n'))
  {
    KindsOfJoin(lines);
    SplitJoin(lines, '\n');
    hide Classify, ReadAlike, Trimming, Split, Join, KindsOf;
    var text := Join(lines, '\n');
    forall i | 0 <= i < |lines| ensures ReadAlike(LinesOf(text)[i]) <==> ReadAlike(lines[i]) {
      ChompIsTrimmed(lines[i]);
      SameReading(LinesOf(text)[i], lines[i]);
    }
  }

  lemma SameReading(a: string, b: string)
    requires Trimming(a) == Trimming(b)
    ensures ReadAlike(a) <==> ReadAlike(b)
  {
  }

  /** The edited text is a document, and differs from the old one at `path` alone. */
  ghost predicate SetsPath(text: string, doc: Json, path: Path, value: string)
    requires path != []
  {
    && Editable(text) && ParseText(text).Ok?
    && forall q :: NodeAt(ParseText(text).value, q) == WithSetting(NodeAt(doc, q), path, value, q)
  }

  /** A different value on one line. */
  lemma ReplacedLine(kinds: seq<Line>, m: nat, current: Path, key: string, value: string, kinds': seq<Line>)
    requires m < |kinds| && kinds[m].Entry? && kinds[m].key == key && EndOf([], kinds[..m]) == current
    requires Parses(kinds) && WellFormedOps(AllOps(kinds))
    requires kinds' == kinds[m := Entry(key, value)]
    ensures Parses(kinds')
    ensures SetAmong(AllOps(kinds), AllOps(kinds'), current + [key], value)
  {
    hide Consistent, WellFormedOps, NodeFrom, SetAmong, OpsFrom, EndOf;
    assert kinds'[..m] == kinds[..m] && kinds'[m + 1..] == kinds[m + 1..];
    SettingOfLine(kinds, m);
    SettingOfLine(kinds', m);
    var a, b := AllOps(kinds[..m]), OpsFrom(current, kinds[m + 1..]);
    WithoutMiddle(a, Setting(current + [key], kinds[m].value), b);
    ReplaceValue(a, b, current + [key], kinds[m].value, value);
  }

  /** Another value on one line of a document. */
  lemma LinesWithValue(lines: seq<string>, doc: Json, m: nat, segments: Path, key: string, line: string, value: string)
    requires Without(lines, '\n') && forall i :: 0 <= i < |lines| ==> ReadAlike(lines[i])
    requires Parses(ClassifyAll(lines)) && WellFormedOps(AllOps(ClassifyAll(lines))) &&
             Holds(doc, AllOps(ClassifyAll(lines)))
    requires m < |lines| && Classify(lines[m]).Entry? && Classify(lines[m]).key == key &&
             EndOf([], ClassifyAll(lines)[..m]) == segments
    requires Classify(line) == Entry(key, value) && Free(line, {'\n'}) && ReadAlike(line)
    ensures SetsPath(Join(lines[m := line], '\n'), doc, segments + [key], value)
  {
    hide Classify, ParseFrom, WellFormedOps, ReadAlike, NodeFrom, Parses, OpsFrom, EndOf, Without, Free, Join, KindsOf,
         Editable;
    var kinds, edited := ClassifyAll(lines), lines[m := line];
    WithoutUpdate(lines, m, line);
    ReplacedLine(kinds, m, segments, key, value, kinds[m := Entry(key, value)]);
    SameKinds(ClassifyAll(edited), kinds[m := Entry(key, value)]);
    EditedText(edited);
  }

  /** Replacing a matched line. */
  lemma SetInPlace(text: string, section: string, key: string, value: string)
    requires Editable(text) && ParseText(text).Ok? && WellFormedKey(key) && SingleLine(value)
    requires FirstMatch(LinesOf(text), CanonicalSection(section), key, 0) < |LinesOf(text)|
    ensures SetsPath(SetText(text, section, key, value), ParseText(text).value,
                     SegmentsOf(section) + [key], Trimming(value))
  {
    hide Classify, ClassifyAll, SegmentsOf, CanonicalSection, ParseFrom, MatchesAt, FirstMatch, PlainLines,
         WellFormedOps, ValueOfLine;
    hide ReadAlike, Trimming, WellFormedKey, NodeFrom, Parses, OpsFrom, EndOf, LinesOf, SingleLine, EntryLine, Holds,
         SetsPath, Without;
    var lines := LinesOf(text);
    var m := FirstMatch(lines, CanonicalSection(section), key, 0);
    EditableIsPlain(text);
    ParsesMeans(text);
    MatchedLine(lines, m, section, key);
    EntryLineReads(key, value);
    LinesAreSingle(text);
    LinesWithValue(lines, ParseText(text).value, m, SegmentsOf(section), key, EntryLine(key, value), Trimming(value));
  }

  lemma WithoutUpdate(lines: seq<string>, m: nat, line: string)
    requires m < |lines| && Without(lines, '\n') && Free(line, {'\n'})
    ensures Without(lines[m := line], '\n')
  {
  }

  lemma WithoutMiddle(a: seq<Op>, op: Op, b: seq<Op>)
    requires WellFormedOps(a + [op] + b)
    ensures WellFormedOps(a + b) && WellFormedOp(op)
  {
    var all := a + [op] + b;
    assert all[|a|] == op;
    forall i | 0 <= i < |a + b| ensures WellFormedOp((a + b)[i]) {
      assert (a + b)[i] == all[if i < |a| then i else i + 1];
    }
  }

  /** One more entry, in the section in force there. */
  lemma InsertedLine(doc: Json, a: seq<Line>, b: seq<Line>, key: string, value: string)
    requires Parses(a + b) && WellFormedOps(AllOps(a + b)) && Holds(doc, AllOps(a + b))
    ensures var kinds, p := a + [Entry(key, value)] + b, EndOf([], a) + [key];
      && (Parses(kinds) <==> Clear(doc, Setting(p, value)))
      && (Parses(kinds) ==> forall q :: NodeFrom(AllOps(kinds), q) == WithSetting(NodeAt(doc, q), p, value, q))
  {
    hide Consistent, WellFormedOps, NodeFrom, Holds, Clear, OpsFrom, EndOf;
    var kinds, current := a + [Entry(key, value)] + b, EndOf([], a);
    var p := current + [key];
    assert kinds[|a|] == Entry(key, value) && kinds[..|a|] == a && kinds[|a| + 1..] == b;
    SettingOfLine(kinds, |a|);
    OpsConcat([], a, b);
    AddSetting(doc, AllOps(a), OpsFrom(current, b), p, value);
    NoBadAround(a, Entry(key, value), b);
  }

  lemma NoBadAround(a: seq<Line>, line: Line, b: seq<Line>)
    ensures NoBad(a + [line] + b, |a + [line] + b|) <==> NoBad(a + b, |a + b|) && !line.Bad?
  {
    var all, rest := a + [line] + b, a + b;
    assert all[|a|] == line;
    if NoBad(all, |all|) {
      forall i | 0 <= i < |rest| ensures !rest[i].Bad? {
        assert rest[i] == all[if i < |a| then i else i + 1];
      }
    }
    if NoBad(rest, |rest|) && !line.Bad? {
      forall i | 0 <= i < |all| ensures !all[i].Bad? {
        assert i == |a| || all[i] == rest[if i < |a| then i else i - 1];
      }
    }
  }

  /** What the document must leave free for a value to be set: the value is there already, or
      nothing is and no value stands above. */
  predicate HasRoom(doc: Json, path: Path)
    requires path != []
  {
    NodeAt(doc, path).Value? || (NodeAt(doc, path) == Nothing && PathClear(doc, path[..|path| - 1]))
  }

  /** The edited text parses exactly when the document has room, and then differs there alone. */
  ghost predicate SetsIfRoom(edited: string, doc: Json, path: Path, value: string)
    requires path != []
  {
    (ParseText(edited).Ok? <==> HasRoom(doc, path)) && (HasRoom(doc, path) ==> SetsPath(edited, doc, path, value))
  }

  lemma UnmatchedRoom(text: string, section: string, key: string, value: string)
    requires Editable(text) && ParseText(text).Ok?
    requires FirstMatch(LinesOf(text), CanonicalSection(section), key, 0) == |LinesOf(text)|
    ensures var p, doc := SegmentsOf(section) + [key], ParseText(text).value;
      HasRoom(doc, p) <==> Clear(doc, Setting(p, value))
  {
    GetReadsTheDocument(text, section, key);
    var p := SegmentsOf(section) + [key];
    assert p[..|p| - 1] == SegmentsOf(section);
  }

  lemma MatchedRoom(text: string, section: string, key: string)
    requires Editable(text) && ParseText(text).Ok?
    requires FirstMatch(LinesOf(text), CanonicalSection(section), key, 0) < |LinesOf(text)|
    ensures HasRoom(ParseText(text).value, SegmentsOf(section) + [key])
  {
    hide ParseFrom, SegmentsOf, CanonicalSection, NodeAt, FirstMatch;
    GetReadsTheDocument(text, section, key);
  }

  lemma InsertedKinds(lines: seq<string>, at: nat, line: string)
    requires at <= |lines|
    ensures var kinds := ClassifyAll(lines);
      ClassifyAll(lines[..at] + [line] + lines[at..]) == kinds[..at] + [Classify(line)] + kinds[at..]
  {
    hide Classify, ClassifyAll;
    ClassifySlice(lines, at);
    ClassifyConcat(lines[..at] + [line], lines[at..]);
    ClassifyConcat(lines[..at], [line]);
    ClassifyOne(line);
  }

  lemma ClassifyOne(line: string)
    ensures ClassifyAll([line]) == [Classify(line)]
  {
    hide Classify;
    assert [line][1..] == [];
  }

  lemma InsertedPlain(lines: seq<string>, at: nat, line: string)
    requires at <= |lines| && Without(lines, '\n') && Free(line, {'\n'}) && ReadAlike(line)
    requires forall i :: 0 <= i < |lines| ==> ReadAlike(lines[i])
    ensures var edited := lines[..at] + [line] + lines[at..];
      Without(edited, '\n') && forall i :: 0 <= i < |edited| ==> ReadAlike(edited[i])
  {
    hide ReadAlike, Free;
    var edited := lines[..at] + [line] + lines[at..];
    forall i | 0 <= i < |edited| ensures ReadAlike(edited[i]) && Free(edited[i], {'\n'}) {
      assert edited[i] == if i < at then lines[i] else if i == at then line else lines[i - 1];
    }
  }

  /** The section at the last line with something in it. */
  lemma ContentSection(lines: seq<string>, section: string)
    requires PlainLines(lines) && LastContent(lines, CanonicalSection(section), |lines|) >= 0
    ensures var at := LastContent(lines, CanonicalSection(section), |lines|) + 1;
      EndOf([], ClassifyAll(lines)[..at]) == SegmentsOf(section)
  {
    hide SectionText, SegmentsOf, LastContent, ScanAt, Classify, ClassifyAll, PlainLines, CurrentAt, EndOf,
         GoodSegments;
    var at := LastContent(lines, CanonicalSection(section), |lines|) + 1;
    ScanIsCurrent(lines, at);
    TargetIsGood(section);
    GoodSectionsTell(CurrentAt(ClassifyAll(lines), at), SegmentsOf(section));
    OpsAgree(ClassifyAll(lines), at);
  }

  /** A text of edited lines parses exactly when they are sound. */
  lemma EditedText(lines: seq<string>)
    requires lines != [] && Without(lines, '\n') && forall i :: 0 <= i < |lines| ==> ReadAlike(lines[i])
    ensures var edited, kinds := Join(lines, '\n'), ClassifyAll(lines);
      && Editable(edited)
      && (ParseText(edited).Ok? <==> Parses(kinds))
      && (ParseText(edited).Ok? ==> Holds(ParseText(edited).value, AllOps(kinds)))
  {
    hide ReadAlike, Parses, ClassifyAll, Without, KindsOf, Editable, Holds, ParseFrom;
    JoinedLines(lines);
    ParsesMeans(Join(lines, '\n'));
  }

  /** One more line among the lines of a document, where the section in force is `segments`. */
  lemma LinesWithEntry(lines: seq<string>, doc: Json, at: nat, segments: Path, key: string, line: string, value: string)
    requires Without(lines, '\n') && forall i :: 0 <= i < |lines| ==> ReadAlike(lines[i])
    requires Parses(ClassifyAll(lines)) && WellFormedOps(AllOps(ClassifyAll(lines))) &&
             Holds(doc, AllOps(ClassifyAll(lines)))
    requires at <= |lines| && EndOf([], ClassifyAll(lines)[..at]) == segments
    requires Classify(line) == Entry(key, value) && Free(line, {'\n'}) && ReadAlike(line)
    ensures var edited, p := Join(lines[..at] + [line] + lines[at..], '\n'), segments + [key];
      && (ParseText(edited).Ok? <==> Clear(doc, Setting(p, value)))
      && (ParseText(edited).Ok? ==> SetsPath(edited, doc, p, value))
  {
    hide Classify, ClassifyAll, ParseFrom, WellFormedOps, ReadAlike, NodeFrom, Parses, OpsFrom, EndOf, Clear, Without,
         Free, Join, KindsOf, Editable;
    var kinds := ClassifyAll(lines);
    InsertedPlain(lines, at, line);
    InsertedKinds(lines, at, line);
    assert kinds[..at] + kinds[at..] == kinds;
    InsertedLine(doc, kinds[..at], kinds[at..], key, value);
    EditedText(lines[..at] + [line] + lines[at..]);
  }

  lemma TextWithEntry(text: string, at: nat, segments: Path, key: string, value: string)
    requires Editable(text) && ParseText(text).Ok? && WellFormedKey(key) && SingleLine(value)
    requires at <= |LinesOf(text)| && EndOf([], KindsOf(text)[..at]) == segments
    ensures var edited := Join(LinesOf(text)[..at] + [EntryLine(key, value)] + LinesOf(text)[at..], '\n');
            var p := segments + [key];
      var doc := ParseText(text).value;
      && (ParseText(edited).Ok? <==> Clear(doc, Setting(p, Trimming(value))))
      && (ParseText(edited).Ok? ==> SetsPath(edited, doc, p, Trimming(value)))
  {
    hide Classify, ClassifyAll, ParseFrom, WellFormedOps, ReadAlike, Trimming, WellFormedKey, NodeFrom, Parses, OpsFrom,
         EndOf;
    hide LinesOf, Clear, Without, SingleLine, EntryLine, Holds, SetsPath;
    ParsesMeans(text);
    EntryLineReads(key, value);
    LinesAreSingle(text);
    LinesWithEntry(LinesOf(text), ParseText(text).value, at, segments, key, EntryLine(key, value), Trimming(value));
  }

  /** Appending to a section that is there. */
  lemma SetInSection(text: string, section: string, key: string, value: string)
    requires Editable(text) && ParseText(text).Ok? && WellFormedKey(key) && SingleLine(value)
    requires FirstMatch(LinesOf(text), CanonicalSection(section), key, 0) == |LinesOf(text)|
    requires LastContent(LinesOf(text), CanonicalSection(section), |LinesOf(text)|) >= 0
    ensures SetsIfRoom(SetText(text, section, key, value), ParseText(text).value,
                       SegmentsOf(section) + [key], Trimming(value))
  {
    var lines := LinesOf(text);
    var at := LastContent(lines, CanonicalSection(section), |lines|) + 1;
    EditableIsPlain(text);
    ContentSection(lines, section);
    hide SegmentsOf, CanonicalSection, ParseFrom, FirstMatch, PlainLines, LastContent, Trimming, WellFormedKey;
    hide EndOf, LinesOf, HasRoom, Clear, Editable, ClassifyAll, SetsPath;
    UnmatchedRoom(text, section, key, Trimming(value));
    TextWithEntry(text, at, SegmentsOf(section), key, value);
  }

  // ---- A new section ----

  lemma {:induction false} SplitNewline(s: string)
    ensures Split(s + "\n", '\n') == Split(s, '\n') + [""]
  {
    JoinSplit(s, '\n');
    SplitPrefix(Split(s, '\n'), "", '\n');
    SplitOne("", '\n');
    assert s + (['\n'] + "") == s + "\n";
  }

  lemma OneNewline(text: string)
    ensures AllOps(KindsOf(text + "\n")) == AllOps(KindsOf(text))
    ensures var k, l := KindsOf(text), KindsOf(text + "\n"); NoBad(l, |l|) <==> NoBad(k, |k|)
    ensures Split(text, '\n') <= Split(text + "\n", '\n')
  {
    hide NoBad, ClassifyAll, Split, OpsFrom, LinesOf;
    SplitNewline(text);
    KindsOfParts(text);
    KindsOfParts(text + "\n");
    BlankAdds(Split(text, '\n'));
  }

  lemma PrefixOfPrefix<T>(a: seq<T>, b: seq<T>, c: seq<T>)
    requires a <= b && b <= c
    ensures a <= c
  {
  }

  /** Newlines at the end are blank lines. */
  lemma {:induction false} StrippedLines(text: string)
    ensures var short := StripNewlines(text);
      && AllOps(KindsOf(short)) == AllOps(KindsOf(text))
      && (NoBad(KindsOf(short), |KindsOf(short)|) <==> NoBad(KindsOf(text), |KindsOf(text)|))
      && Split(short, '\n') <= Split(text, '\n')
    decreases |text|
  {
    hide NoBad, KindsOf, AllOps, Split;
    if text != "" && text[|text| - 1] == '\n' {
      var less := text[..|text| - 1];
      StrippedLines(less);
      assert text == less + "\n";
      OneNewline(less);
      PrefixOfPrefix(Split(StripNewlines(less), '\n'), Split(less, '\n'), Split(text, '\n'));
    }
  }

  lemma BlankAdds(parts: seq<string>)
    ensures var kinds, more := ClassifyAll(parts), ClassifyAll(parts + [""]);
      AllOps(more) == AllOps(kinds) && (NoBad(more, |more|) <==> NoBad(kinds, |kinds|))
  {
    var kinds, more := ClassifyAll(parts), ClassifyAll(parts + [""]);
    assert Trimming("") == "";
    hide Trimming;
    SameKinds(more, kinds + [Blank]);
    OpsConcat([], kinds, [Blank]);
    OpsOfOne(EndOf([], kinds), Blank);
    assert kinds + [Blank] + [] == kinds + [Blank] && kinds + [] == kinds;
    NoBadAround(kinds, Blank, []);
  }

  /** The lines of a text with a section appended. */
  function AppendedParts(text: string, target: string, entry: string): seq<string> {
    var doc := StripNewlines(text);
    (if doc == "" then [] else Split(doc, '\n') + [""]) + ["[" + target + "]", entry, ""]
  }

  lemma TailJoins(header: string, entry: string)
    ensures Join([header, entry, ""], '\n') == header + "\n" + entry + "\n"
  {
    JoinCons(header, [entry, ""], '\n');
    JoinCons(entry, [""], '\n');
    JoinAlone("", '\n');
    assert [header] + [entry, ""] == [header, entry, ""] && [entry] + [""] == [entry, ""];
    hide Join;
    assert header + "\n" + (entry + "\n" + "") == header + "\n" + entry + "\n";
  }

  lemma AppendedJoins(text: string, target: string, entry: string)
    ensures Join(AppendedParts(text, target, entry), '\n') == Appended(text, target, entry)
  {
    hide Join, Split;
    var doc, header := StripNewlines(text), "[" + target + "]";
    var tail := [header, entry, ""];
    var written := header + "\n" + entry + "\n";
    TailJoins(header, entry);
    if doc != "" {
      JoinSplit(doc, '\n');
      var parts := Split(doc, '\n');
      JoinConcat(parts + [""], tail, '\n');
      JoinConcat(parts, [""], '\n');
      JoinAlone("", '\n');
      assert Join(parts + [""], '\n') == doc + (['\n'] + "");
      assert doc + (['\n'] + "") + (['\n'] + written) == doc + "\n\n" + written;
      Pieces(doc + "\n\n", header, entry);
    } else {
      assert AppendedParts(text, target, entry) == tail;
      Pieces("", header, entry);
      assert "" + written == written && "" + "" == "";
    }
  }

  lemma Pieces(front: string, header: string, entry: string)
    ensures front + (header + "\n" + entry + "\n") == front + header + "\n" + entry + "\n"
  {
  }

  lemma EditableParts(text: string)
    requires Editable(text)
    ensures forall i :: 0 <= i < |Split(text, '\n')| ==> ReadAlike(Split(text, '\n')[i])
  {
    hide ReadAlike, Trimming, Split;
    var parts, lines := Split(text, '\n'), LinesOf(text);
    forall i | 0 <= i < |parts| ensures ReadAlike(parts[i]) {
      assert ReadAlike(lines[i]);
      ChompIsTrimmed(parts[i]);
      SameReading(lines[i], parts[i]);
    }
  }

  /** A header for a well-formed section, and its entry. */
  lemma HeaderLineReads(segments: Path)
    requires WellFormedSection(segments)
    ensures Classify(HeaderLine(segments)) == Header(segments) && ReadAlike(HeaderLine(segments))
    ensures Free(HeaderLine(segments), {'\n'})
  {
    hide Classify, WellFormedSection;
    HeaderReadsBack(segments);
    SectionTextIsTrimmed(segments);
    WellFormedIsSingle(segments);
    var line := HeaderLine(segments);
    assert line[1..|line| - 1] == SectionText(segments);
    var a, b := TrimParts(SectionText(segments), White);
    UnpaddedReadsAlike(line);
  }

  lemma WellFormedIsSingle(segments: Path)
    requires WellFormedSection(segments)
    ensures Free(SectionText(segments), {'\n'})
  {
    JoinedIsSingle(segments);
  }

  /** A header and an entry after everything else. */
  lemma AppendedOps(doc: Json, ops: seq<Op>, segments: Path, key: string, value: string)
    requires Consistent(ops) && WellFormedOps(ops) && Holds(doc, ops)
    ensures var p := segments + [key]; var all := ops + [Section(segments)] + [Setting(p, value)];
      && (Consistent(all) <==> Clear(doc, Setting(p, value)))
      && (Consistent(all) ==> forall q :: NodeFrom(all, q) == WithSetting(NodeAt(doc, q), p, value, q))
  {
    hide Consistent, WellFormedOps, NodeFrom, Clear;
    var p := segments + [key];
    var section, setting := Section(segments), Setting(p, value);
    assert p[..|p| - 1] == segments;
    ConsistentSnoc(ops, section);
    ConsistentSnoc(ops + [section], setting);
    FitsSnoc(ops, section, setting);
    ClearIffFits(doc, ops, setting);
    assert Fits(ops, setting) ==> Fits(ops, section) by {
      forall o | o in ops && !Conflict(o, setting) ensures !Conflict(o, section) {
      }
    }
    forall q ensures NodeFrom(ops + [section] + [setting], q) == WithSetting(NodeAt(doc, q), p, value, q) {
      NodeFromSnoc(ops + [section], setting, q);
      NodeFromSnoc(ops, section, q);
      assert NodeAt(doc, q) == NodeFrom(ops, q);
    }
  }

  /** The lines before the appended section. */
  function DocParts(text: string): seq<string> {
    var doc := StripNewlines(text);
    if doc == "" then [] else Split(doc, '\n') + [""]
  }

  lemma DocPartsKinds(text: string)
    ensures var kinds, doc := ClassifyAll(DocParts(text)), KindsOf(text);
      AllOps(kinds) == AllOps(doc) && (NoBad(kinds, |kinds|) <==> NoBad(doc, |doc|))
    ensures Without(DocParts(text), '\n')
    ensures Editable(text) ==> forall i :: 0 <= i < |DocParts(text)| ==> ReadAlike(DocParts(text)[i])
  {
    hide Classify, ReadAlike, OpsFrom, LinesOf;
    var doc := StripNewlines(text);
    var parts := Split(doc, '\n');
    StrippedLines(text);
    KindsOfParts(doc);
    if doc == "" {
      BlankAdds([]);
      SplitOne("", '\n');
      assert [] + [""] == [""] == parts;
    } else {
      BlankAdds(parts);
      JoinSplit(doc, '\n');
      if Editable(text) {
        EditableParts(text);
      }
      BlankReadsAlike();
      assert forall i :: 0 <= i < |parts| ==> parts[i] == Split(text, '\n')[i];
    }
  }

  lemma BlankReadsAlike()
    ensures ReadAlike("") && Classify("") == Blank
  {
    assert Trimming("") == "";
  }

  lemma TailKinds(segments: Path, key: string, value: string)
    requires WellFormedSection(segments) && WellFormedKey(key) && SingleLine(value)
    ensures var tail := [HeaderLine(segments), EntryLine(key, value), ""];
      && ClassifyAll(tail) == [Header(segments), Entry(key, Trimming(value)), Blank]
      && Without(tail, '\n')
      && forall i :: 0 <= i < |tail| ==> ReadAlike(tail[i])
  {
    HeaderLineReads(segments);
    EntryLineReads(key, value);
    BlankReadsAlike();
    hide Classify, ReadAlike, Trimming, HeaderLine, EntryLine;
    var tail := [HeaderLine(segments), EntryLine(key, value), ""];
    SameKinds(ClassifyAll(tail), [Header(segments), Entry(key, Trimming(value)), Blank]);
  }

  lemma TailOps(current: Path, kinds: seq<Line>, segments: Path, key: string, value: string)
    ensures OpsFrom(current, kinds + [Header(segments), Entry(key, value), Blank])
      == OpsFrom(current, kinds) + [Section(segments)] + [Setting(segments + [key], value)]
  {
    var end := EndOf(current, kinds);
    var tail := [Header(segments), Entry(key, value), Blank];
    OpsConcat(current, kinds, tail);
    hide EndOf;
    assert tail[1..] == [Entry(key, value), Blank] && tail[1..][1..] == [Blank] && [Blank][1..] == [];
    assert OpsFrom(segments, [Blank]) == [];
    assert OpsFrom(segments, [Entry(key, value), Blank]) ==
           [Setting(segments + [key], value)] + OpsFrom(segments, [Blank]);
    assert OpsFrom(end, tail) == [Section(segments)] + OpsFrom(segments, [Entry(key, value), Blank]);
  }

  lemma TailNoBad(kinds: seq<Line>, segments: Path, key: string, value: string)
    ensures var all := kinds + [Header(segments), Entry(key, value), Blank];
      NoBad(all, |all|) <==> NoBad(kinds, |kinds|)
  {
    var all := kinds + [Header(segments), Entry(key, value), Blank];
    assert all[|kinds|] == Header(segments) && all[|kinds| + 1] == Entry(key, value) && all[|kinds| + 2] == Blank;
    assert forall i :: 0 <= i < |kinds| ==> all[i] == kinds[i];
  }

  /** Appending a section that is not there. */
  lemma SetInNewSection(text: string, section: string, key: string, value: string)
    requires Editable(text) && ParseText(text).Ok? && WellFormedKey(key) && SingleLine(value)
    requires WellFormedSection(SegmentsOf(section))
    requires FirstMatch(LinesOf(text), CanonicalSection(section), key, 0) == |LinesOf(text)|
    requires LastContent(LinesOf(text), CanonicalSection(section), |LinesOf(text)|) < 0
    ensures SetsIfRoom(SetText(text, section, key, value), ParseText(text).value,
                       SegmentsOf(section) + [key], Trimming(value))
  {
    hide Classify, SegmentsOf, ParseFrom, FirstMatch, LastContent, Trimming, WellFormedKey, WellFormedSection,
         ReadAlike, OpsFrom;
    hide LinesOf, HasRoom, Clear, ClassifyAll, NodeFrom, WellFormedOps, Consistent, DocParts, NoBad, Without, Join,
         SectionText;
    var segments, doc := SegmentsOf(section), ParseText(text).value;
    var tail := [HeaderLine(segments), EntryLine(key, value), ""];
    var parts := DocParts(text) + tail;
    ParsesMeans(text);
    UnmatchedRoom(text, section, key, Trimming(value));
    DocPartsKinds(text);
    TailKinds(segments, key, value);
    AppendedIs(text, segments, EntryLine(key, value));
    PartsTogether(DocParts(text), tail);
    ClassifyConcat(DocParts(text), tail);
    TailOps([], ClassifyAll(DocParts(text)), segments, key, Trimming(value));
    TailNoBad(ClassifyAll(DocParts(text)), segments, key, Trimming(value));
    AppendedOps(doc, AllOps(KindsOf(text)), segments, key, Trimming(value));
    EditedText(parts);
  }

  lemma PartsTogether(a: seq<string>, b: seq<string>)
    ensures Without(a, '\n') && Without(b, '\n') ==> Without(a + b, '\n')
    ensures (forall i :: 0 <= i < |a| ==> ReadAlike(a[i])) && (forall i :: 0 <= i < |b| ==> ReadAlike(b[i]))
      ==> forall i :: 0 <= i < |a + b| ==> ReadAlike((a + b)[i])
  {
    hide ReadAlike;
  }

  lemma AppendedIs(text: string, segments: Path, entry: string)
    ensures Join(DocParts(text) + [HeaderLine(segments), entry, ""], '\n') ==
            Appended(text, SectionText(segments), entry)
  {
    hide Join, Split;
    AppendedJoins(text, SectionText(segments), entry);
  }

  /**
   `setIniValue` commutes with parsing: the edited text parses exactly when the document has
   room for the value, and then its document is the old one with that one path set.
   */
  lemma SetUpdatesOnePath(text: string, section: string, key: string, value: string)
    requires Editable(text) && ParseText(text).Ok? && WellFormedKey(key) && SingleLine(value)
    requires WellFormedSection(SegmentsOf(section))
    ensures SetsIfRoom(SetText(text, section, key, value), ParseText(text).value,
                       SegmentsOf(section) + [key], Trimming(value))
  {
    hide SegmentsOf, CanonicalSection, ParseFrom, FirstMatch, LastContent, Trimming, WellFormedKey, WellFormedSection,
         LinesOf, SetText, Editable;
    var lines, target := LinesOf(text), CanonicalSection(section);
    if FirstMatch(lines, target, key, 0) < |lines| {
      MatchedRoom(text, section, key);
      SetInPlace(text, section, key, value);
    } else if LastContent(lines, target, |lines|) >= 0 {
      SetInSection(text, section, key, value);
    } else {
      SetInNewSection(text, section, key, value);
    }
  }

  /** And what was set is what is read. */
  lemma SetThenGet(text: string, section: string, key: string, value: string)
    requires Editable(text) && ParseText(text).Ok? && WellFormedKey(key) && SingleLine(value)
    requires WellFormedSection(SegmentsOf(section)) && HasRoom(ParseText(text).value, SegmentsOf(section) + [key])
    ensures GetValue(SetText(text, section, key, value), section, key) == Some(Trimming(value))
  {
    hide SegmentsOf, ParseFrom, SetText, GetValue, Editable, HasRoom, Trimming, WellFormedKey, WellFormedSection;
    SetUpdatesOnePath(text, section, key, value);
    var edited, p := SetText(text, section, key, value), SegmentsOf(section) + [key];
    GetReadsTheDocument(edited, section, key);
    assert NodeAt(ParseText(edited).value, p) == Value(Trimming(value));
  }

  // ---- Removing a key ----

  /** The first `n` lines but for those that set the key. */
  function Kept(lines: seq<string>, target: string, key: string, n: nat): seq<string>
    requires n <= |lines|
  {
    if n == 0 then []
    else Kept(lines, target, key, n - 1) + if MatchesAt(lines, n - 1, target, key) then [] else [lines[n - 1]]
  }

  /** `removeIniKey`. */
  function RemoveText(text: string, section: string, key: string): string {
    var lines := LinesOf(text);
    Join(Kept(lines, CanonicalSection(section), key, |lines|), '\n')
  }

  lemma {:induction false} KeptAll(lines: seq<string>, target: string, key: string, n: nat)
    requires n <= |lines| && forall i :: 0 <= i < n ==> !MatchesAt(lines, i, target, key)
    ensures Kept(lines, target, key, n) == lines[..n]
  {
    hide MatchesAt;
    if n == 0 {
    } else {
      KeptAll(lines, target, key, n - 1);
      assert lines[..n] == lines[..n - 1] + [lines[n - 1]];
    }
  }

  lemma {:induction false} KeptBut(lines: seq<string>, target: string, key: string, m: nat, n: nat)
    requires m < n <= |lines| && forall i :: 0 <= i < n ==> (MatchesAt(lines, i, target, key) <==> i == m)
    ensures Kept(lines, target, key, n) == lines[..m] + lines[m + 1..n]
  {
    hide MatchesAt;
    if n == m + 1 {
      KeptAll(lines, target, key, m);
    } else {
      KeptBut(lines, target, key, m, n - 1);
      assert lines[m + 1..n] == lines[m + 1..n - 1] + [lines[n - 1]];
    }
  }

  lemma {:induction false} EntryInOps(current: Path, kinds: seq<Line>, j: nat)
    requires j < |kinds| && kinds[j].Entry?
    ensures Setting(EndOf(current, kinds[..j]) + [kinds[j].key], kinds[j].value) in OpsFrom(current, kinds)
  {
    var end := EndOf(current, kinds[..j]);
    assert kinds == kinds[..j] + ([kinds[j]] + kinds[j + 1..]);
    OpsConcat(current, kinds[..j], [kinds[j]] + kinds[j + 1..]);
    OpsConcat(end, [kinds[j]], kinds[j + 1..]);
    OpsOfOne(end, kinds[j]);
  }

  /** A document sets a path on one line only. */
  lemma OneLinePerPath(kinds: seq<Line>, i: nat, j: nat)
    requires Parses(kinds) && i < j < |kinds| && kinds[i].Entry? && kinds[j].Entry?
    ensures EndOf([], kinds[..i]) + [kinds[i].key] != EndOf([], kinds[..j]) + [kinds[j].key]
  {
    hide Consistent, OpsFrom, EndOf;
    var c := EndOf([], kinds[..i]);
    var p, rest := c + [kinds[i].key], kinds[i + 1..];
    SettingOfLine(kinds, i);
    MiddleOp(AllOps(kinds[..i]), Setting(p, kinds[i].value), OpsFrom(c, rest));
    EntryInOps(c, rest, j - i - 1);
    assert kinds[..j] == kinds[..i] + ([kinds[i]] + rest[..j - i - 1]);
    OpsConcat([], kinds[..i], [kinds[i]] + rest[..j - i - 1]);
    OpsConcat(c, [kinds[i]], rest[..j - i - 1]);
    OpsOfOne(c, kinds[i]);
    var q := EndOf(c, rest[..j - i - 1]) + [kinds[j].key];
    assert rest[j - i - 1] == kinds[j];
    assert Setting(q, kinds[j].value) in AllOps(kinds[..i]) + OpsFrom(c, rest);
    assert !Conflict(Setting(q, kinds[j].value), Setting(p, kinds[i].value));
  }

  lemma OnlyMatch(lines: seq<string>, section: string, key: string, m: nat, i: nat)
    requires PlainLines(lines) && Parses(ClassifyAll(lines)) && m < |lines| && i < |lines|
    requires MatchesAt(lines, m, CanonicalSection(section), key) && MatchesAt(lines, i, CanonicalSection(section), key)
    ensures i == m
  {
    hide Classify, SegmentsOf, CanonicalSection, MatchesAt, PlainLines, Consistent, OpsFrom, EndOf;
    MatchedLine(lines, m, section, key);
    MatchedLine(lines, i, section, key);
    if i < m {
      OneLinePerPath(ClassifyAll(lines), i, m);
    } else if m < i {
      OneLinePerPath(ClassifyAll(lines), m, i);
    }
  }

  /** The section in force was opened by a header, unless it is the root. */
  lemma {:induction false} SectionWasOpened(current: Path, kinds: seq<Line>)
    ensures EndOf(current, kinds) == current || Section(EndOf(current, kinds)) in OpsFrom(current, kinds)
    decreases |kinds|
  {
    if kinds == [] {
    } else {
      SectionWasOpened(if kinds[0].Header? then kinds[0].segments else current, kinds[1..]);
    }
  }

  lemma RootOrOpened(a: seq<Line>, more: seq<Op>)
    ensures HasSection(AllOps(a) + more, EndOf([], a))
  {
    SectionWasOpened([], a);
    var s := EndOf([], a);
    if s != [] {
      assert Section(s) in AllOps(a) + more && Covers(Section(s), s);
    }
  }

  /** One entry less. */
  lemma DroppedLine(kinds: seq<Line>, m: nat)
    requires m < |kinds| && kinds[m].Entry? && Parses(kinds) && WellFormedOps(AllOps(kinds))
    ensures var kinds', p := kinds[..m] + kinds[m + 1..], EndOf([], kinds[..m]) + [kinds[m].key];
      && Parses(kinds')
      && forall q ::
           NodeFrom(AllOps(kinds'), q) == if q == p then Nothing else NodeFrom(AllOps(kinds), q)
  {
    hide Consistent, WellFormedOps, NodeFrom, OpsFrom, EndOf, HasSection;
    var current := EndOf([], kinds[..m]);
    var a, b := AllOps(kinds[..m]), OpsFrom(current, kinds[m + 1..]);
    var p := current + [kinds[m].key];
    SettingOfLine(kinds, m);
    OpsConcat([], kinds[..m], kinds[m + 1..]);
    WithoutMiddle(a, Setting(p, kinds[m].value), b);
    RootOrOpened(kinds[..m], b);
    assert p[..|p| - 1] == current;
    DropSetting(a, b, p, kinds[m].value);
    assert kinds == kinds[..m] + [kinds[m]] + kinds[m + 1..];
    NoBadAround(kinds[..m], kinds[m], kinds[m + 1..]);
  }

  lemma DroppedPlain(lines: seq<string>, m: nat)
    requires m < |lines| && Without(lines, '\n') && forall i :: 0 <= i < |lines| ==> ReadAlike(lines[i])
    ensures var kept := lines[..m] + lines[m + 1..];
      && Without(kept, '\n') && (forall i :: 0 <= i < |kept| ==> ReadAlike(kept[i]))
      && ClassifyAll(kept) == ClassifyAll(lines)[..m] + ClassifyAll(lines)[m + 1..]
  {
    hide ReadAlike, Free, Classify;
    var kept := lines[..m] + lines[m + 1..];
    forall i | 0 <= i < |kept| ensures ReadAlike(kept[i]) && Free(kept[i], {'\n'}) {
      assert kept[i] == if i < m then lines[i] else lines[i + 1];
    }
    SameKinds(ClassifyAll(kept), ClassifyAll(lines)[..m] + ClassifyAll(lines)[m + 1..]);
  }

  /** The lines a list of lines becomes when written and read again: never none at all. */
  lemma NoLinesIsBlank()
    ensures Join([], '\n') == Join([""], '\n')
    ensures ClassifyAll([""]) == [Blank] && AllOps([Blank]) == AllOps([]) && Without([""], '\n')
    ensures forall i :: 0 <= i < |[""]| ==> ReadAlike([""][i])
  {
    ClassifyOne("");
    BlankReadsAlike();
    OpsOfOne([], Blank);
  }

  /** As `EditedText`, for a list of lines that may be empty. */
  lemma EditedTextOrNone(lines: seq<string>)
    requires Without(lines, '\n') && forall i :: 0 <= i < |lines| ==> ReadAlike(lines[i])
    requires Parses(ClassifyAll(lines))
    ensures var edited, kinds := Join(lines, '\n'), ClassifyAll(lines);
      Editable(edited) && ParseText(edited).Ok? && Holds(ParseText(edited).value, AllOps(kinds))
  {
    if lines == [] {
      NoLinesIsBlank();
      hide Classify, ReadAlike, ParseFrom, Holds;
      assert Parses([Blank]);
      EditedText([""]);
      assert ClassifyAll([]) == [];
    } else {
      EditedText(lines);
    }
  }

  /** `removeIniKey` commutes with parsing: the value at that path goes, the section stays,
      and nothing else changes. */
  lemma RemoveDropsOnePath(text: string, section: string, key: string)
    requires Editable(text) && ParseText(text).Ok?
    ensures var edited, doc, p := RemoveText(text, section, key), ParseText(text).value, SegmentsOf(section) + [key];
      && Editable(edited) && ParseText(edited).Ok?
      && forall q ::
           NodeAt(ParseText(edited).value, q) == if q == p && NodeAt(doc, p).Value? then Nothing else NodeAt(doc, q)
  {
    hide Classify, SegmentsOf, CanonicalSection, ParseFrom, MatchesAt, PlainLines, WellFormedOps, ValueOfLine,
         ReadAlike;
    hide NodeFrom, Consistent, OpsFrom, EndOf, LinesOf, Without, Join, NoBad, Kept;
    var lines, kinds, target := LinesOf(text), KindsOf(text), CanonicalSection(section);
    var m := FirstMatch(lines, target, key, 0);
    EditableIsPlain(text);
    ParsesMeans(text);
    LinesAreSingle(text);
    GetReadsTheDocument(text, section, key);
    if m < |lines| {
      MatchedLine(lines, m, section, key);
      forall i | 0 <= i < |lines| ensures MatchesAt(lines, i, target, key) <==> i == m {
        if MatchesAt(lines, i, target, key) {
          OnlyMatch(lines, section, key, m, i);
        }
      }
      KeptBut(lines, target, key, m, |lines|);
      assert lines[m + 1..|lines|] == lines[m + 1..];
      DroppedPlain(lines, m);
      DroppedLine(kinds, m);
      EditedTextOrNone(lines[..m] + lines[m + 1..]);
    } else {
      KeptAll(lines, target, key, |lines|);
      assert lines[..|lines|] == lines;
      EditedTextOrNone(lines);
    }
  }

  // ---- Renaming a key ----

  function RenameText(text: string, section: string, oldKey: string, newKey: string): string {
    var lines := LinesOf(text);
    var m := FirstMatch(lines, CanonicalSection(section), oldKey, 0);
    Join(if m < |lines| then lines[m := EntryLine(newKey, ValueOfLine(lines[m]))] else lines, '\n')
  }

  /** `renameIniKey`. */
  method RenameIniKey(text: string, section: string, oldKey: string, newKey: string) returns (r: string)
    ensures r == RenameText(text, section, oldKey, newKey)
  {
    var target := CanonicalSection(section);
    var lines, sectionOf := ScanLines(text);
    hide IsKeyLine, ScanAt, CanonicalSection, Join, ValueOfLine;
    for i := 0 to |lines|
      invariant FirstMatch(lines, target, oldKey, 0) == FirstMatch(lines, target, oldKey, i)
    {
      if sectionOf[i] == target && IsKeyLine(lines[i], oldKey) {
        return Join(lines[i := EntryLine(newKey, ValueOfLine(lines[i]))], '\n');
      }
    }
    r := Join(lines, '\n');
  }

  lemma TrimKeepsSingle(s: string)
    requires SingleLine(s)
    ensures SingleLine(Trimming(s)) && Trimming(Trimming(s)) == Trimming(s)
  {
    var a, b := TrimParts(s, White);
    var t := Trimming(s);
    assert forall i :: 0 <= i < |t| ==> t[i] == s[|a| + i];
    TrimOf("", t, "", White);
    assert "" + t + "" == t;
  }

  lemma SuffixIsSingle(s: string, i: nat)
    requires SingleLine(s) && i <= |s|
    ensures SingleLine(s[i..])
  {
  }

  lemma EmptyIsPlain()
    ensures SingleLine("") && Trimming("") == ""
  {
  }

  lemma ValueIsPlain(raw: string)
    requires SingleLine(raw)
    ensures SingleLine(ValueOfLine(raw)) && Trimming(ValueOfLine(raw)) == ValueOfLine(raw)
  {
    hide FirstOf, Trimming, SingleLine;
    TrimKeepsSingle(raw);
    var line := Trimming(raw);
    var eq := FirstOf(line, {'='});
    if eq < |line| {
      SuffixIsSingle(line, eq + 1);
      TrimKeepsSingle(line[eq + 1..]);
    } else {
      EmptyIsPlain();
    }
  }

  /** The same value under another key of the same section. */
  lemma RenamedOps(doc: Json, a: seq<Op>, b: seq<Op>, segments: Path, key: string, newKey: string, value: string)
    requires WellFormedOps(a + b) && HasSection(a + b, segments) && key != newKey
    requires Consistent(a + [Setting(segments + [key], value)] + b) &&
             Holds(doc, a + [Setting(segments + [key], value)] + b)
    ensures var p, p' := segments + [key], segments + [newKey];
      var ops := a + [Setting(p', value)] + b;
      && (Consistent(ops) <==> NodeAt(doc, p') == Nothing)
      && (Consistent(ops) ==>
            forall q :: NodeFrom(ops, q) ==
                        if q == p' then Value(value) else if q == p then Nothing else NodeAt(doc, q))
  {
    hide Consistent, WellFormedOps, NodeFrom, HasSection;
    var p, p' := segments + [key], segments + [newKey];
    var before, after := Setting(p, value), Setting(p', value);
    var old' := a + [before] + b;
    assert p[..|p| - 1] == segments && p'[..|p'| - 1] == segments;
    NodeAmong(a, before, b, p);
    MiddleOp(a, before, b);
    MiddleOp(a, after, b);
    ClearIffFits(doc, old', after);
    FitsMembers(old', a + b + [before], after);
    FitsSnoc(a + b, before, after);
    assert p != p' by {
      assert p[|segments|] == key && p'[|segments|] == newKey;
    }
    SectionIsClear(doc, old', p, value);
    DropSetting(a, b, p, value);
    if Consistent(a + [after] + b) {
      forall q
        ensures NodeFrom(a + [after] + b, q) ==
                if q == p' then Value(value) else if q == p then Nothing else NodeAt(doc, q)
      {
        NodeAmong(a, after, b, q);
        NodeAmong(a, before, b, q);
        assert NodeAt(doc, q) == NodeFrom(old', q);
        assert IsPrefix(q, segments) ==> q != p;
      }
    }
  }

  /** The way to a section that holds a setting is clear. */
  lemma SectionIsClear(doc: Json, ops: seq<Op>, path: Path, value: string)
    requires path != [] && Consistent(ops) && WellFormedOps(ops) && Holds(doc, ops) && Setting(path, value) in ops
    ensures PathClear(doc, path[..|path| - 1])
  {
    hide WellFormedOps, NodeFrom, PathClear;
    var segments := path[..|path| - 1];
    ClearAbove(doc, ops, segments);
    var i :| 0 <= i < |ops| && ops[i] == Setting(path, value);
    forall o | o in ops && o.Setting? ensures !IsPrefix(o.path, segments) {
      var j :| 0 <= j < |ops| && ops[j] == o;
      if i != j {
        assert !Conflict(ops[j], ops[i]);
      }
    }
  }

  /** A different key on one line. */
  lemma RenamedLine(doc: Json, kinds: seq<Line>, m: nat, newKey: string)
    requires m < |kinds| && kinds[m].Entry? && Parses(kinds) && WellFormedOps(AllOps(kinds)) &&
             Holds(doc, AllOps(kinds))
    requires newKey != kinds[m].key
    ensures var kinds', segments := kinds[m := Entry(newKey, kinds[m].value)], EndOf([], kinds[..m]);
      var p, p' := segments + [kinds[m].key], segments + [newKey];
      && (Parses(kinds') <==> NodeAt(doc, p') == Nothing)
      && (Parses(kinds') ==>
            forall q :: NodeFrom(AllOps(kinds'), q) ==
                        if q == p' then Value(kinds[m].value) else if q == p then Nothing else NodeAt(doc, q))
  {
    hide Consistent, WellFormedOps, NodeFrom, OpsFrom, EndOf, HasSection, Holds;
    var segments := EndOf([], kinds[..m]);
    var kinds' := kinds[m := Entry(newKey, kinds[m].value)];
    assert kinds'[..m] == kinds[..m] && kinds'[m + 1..] == kinds[m + 1..];
    var a, b := AllOps(kinds[..m]), OpsFrom(segments, kinds[m + 1..]);
    SettingOfLine(kinds, m);
    SettingOfLine(kinds', m);
    WithoutMiddle(a, Setting(segments + [kinds[m].key], kinds[m].value), b);
    RootOrOpened(kinds[..m], b);
    RenamedOps(doc, a, b, segments, kinds[m].key, newKey, kinds[m].value);
  }

  /** `after` holds what `before` holds, with the value at `p`, if any, at `p'` instead. */
  ghost predicate MovesPath(after: Json, before: Json, p: Path, p': Path) {
    var there := NodeAt(before, p).Value?;
    forall q :: NodeAt(after, q) ==
      if there && q == p' then NodeAt(before, p) else if there && q == p then Nothing else NodeAt(before, q)
  }

  /**
   `renameIniKey` commutes with parsing: with the old key there, the edited text parses
   exactly when nothing is at the new path, and the value then moves there.
   */
  lemma RenameMovesOnePath(text: string, section: string, oldKey: string, newKey: string)
    requires Editable(text) && ParseText(text).Ok? && WellFormedKey(newKey) && oldKey != newKey
    ensures var edited, doc := RenameText(text, section, oldKey, newKey), ParseText(text).value;
      var p, p' := SegmentsOf(section) + [oldKey], SegmentsOf(section) + [newKey];
      var there := NodeAt(doc, p).Value?;
      && (ParseText(edited).Ok? <==> there ==> NodeAt(doc, p') == Nothing)
      && (ParseText(edited).Ok? ==> Editable(edited) && MovesPath(ParseText(edited).value, doc, p, p'))
  {
    hide Classify, SegmentsOf, CanonicalSection, ParseFrom, MatchesAt, PlainLines, WellFormedOps, ValueOfLine,
         ReadAlike, WellFormedKey;
    hide NodeFrom, OpsFrom, EndOf, LinesOf, Without, Join, Parses, Trimming, EntryLine;
    var lines, kinds, target, doc := LinesOf(text), KindsOf(text), CanonicalSection(section), ParseText(text).value;
    var m := FirstMatch(lines, target, oldKey, 0);
    EditableIsPlain(text);
    ParsesMeans(text);
    LinesAreSingle(text);
    GetReadsTheDocument(text, section, oldKey);
    if m < |lines| {
      var value := ValueOfLine(lines[m]);
      MatchedLine(lines, m, section, oldKey);
      SingleAt(lines, m);
      ValueIsPlain(lines[m]);
      EntryLineReads(newKey, value);
      var edited := lines[m := EntryLine(newKey, value)];
      WithoutUpdate(lines, m, EntryLine(newKey, value));
      RenamedLine(doc, kinds, m, newKey);
      SameKinds(ClassifyAll(edited), kinds[m := Entry(newKey, value)]);
      EditedText(edited);
    } else {
      EditedText(lines);
    }
  }

  lemma SingleAt(lines: seq<string>, m: nat)
    requires Without(lines, '\n') && m < |lines|
    ensures SingleLine(lines[m])
  {
  }
}
