/** The lines of an INI text, and what each one is (`web/src/config/ini.ts`). */
module IniLines {
  import opened Text
  import opened Splits
  import opened ConfigTrees

  /** What `String.prototype.trim` removes: WhiteSpace and LineTerminator of ECMAScript. */
  predicate White(c: char) {
    var n := c as int;
    0x9 <= n <= 0xD || n in {0x20, 0xA0, 0x1680, 0x2028, 0x2029, 0x202F, 0x205F, 0x3000, 0xFEFF} ||
      0x2000 <= n <= 0x200A
  }

  function Trimming(s: string): string {
    Trim(s, White)
  }

  datatype IniError =
    | UnterminatedHeader
    | EmptySegment
    | ExpectedKeyOrHeader
    | EmptyKey
    | SegmentIsAValue(segment: string)
    | KeyIsASection(key: string)
    | DuplicateKey(key: string)

  datatype Line =
    | Blank
    | Header(segments: Path)
    | Entry(key: string, value: string)
    | Bad(error: IniError)

  predicate IsComment(line: string) {
    line == "" || line[0] == ';' || line[0] == '#'
  }

  /** What one trimmed line is, looking at nothing else. */
  function ClassifyTrimmed(line: string): Line {
    if IsComment(line) then Blank
    else if line[0] == '[' then
      if line[|line| - 1] != ']' then Bad(UnterminatedHeader)
      else
        var segments := NonEmpty(Split(Trimming(line[1..|line| - 1]), '/'));
        if exists i :: 0 <= i < |segments| && Trimming(segments[i]) == "" then Bad(EmptySegment) else Header(segments)
    else
      var eq := FirstOf(line, {'='});
      if eq == |line| || eq == 0 then Bad(ExpectedKeyOrHeader)
      else
        var key, value := Trimming(line[..eq]), Trimming(line[eq + 1..]);
        if key == "" then Bad(EmptyKey) else Entry(key, value)
  }

  function Classify(raw: string): Line {
    ClassifyTrimmed(Trimming(raw))
  }

  function ClassifyAll(lines: seq<string>): (kinds: seq<Line>)
    ensures |kinds| == |lines| && forall i :: 0 <= i < |lines| ==> kinds[i] == Classify(lines[i])
  {
    if lines == [] then [] else [Classify(lines[0])] + ClassifyAll(lines[1..])
  }

  lemma SameKinds(a: seq<Line>, b: seq<Line>)
    requires |a| == |b| && forall i :: 0 <= i < |a| ==> a[i] == b[i]
    ensures a == b
  {
  }

  lemma ClassifyConcat(a: seq<string>, b: seq<string>)
    ensures ClassifyAll(a + b) == ClassifyAll(a) + ClassifyAll(b)
  {
    hide Classify, ClassifyAll;
    SameKinds(ClassifyAll(a + b), ClassifyAll(a) + ClassifyAll(b));
  }

  lemma ClassifySlice(lines: seq<string>, at: nat)
    requires at <= |lines|
    ensures ClassifyAll(lines[..at]) == ClassifyAll(lines)[..at]
    ensures ClassifyAll(lines[at..]) == ClassifyAll(lines)[at..]
  {
    hide Classify, ClassifyAll;
    SameKinds(ClassifyAll(lines[..at]), ClassifyAll(lines)[..at]);
    SameKinds(ClassifyAll(lines[at..]), ClassifyAll(lines)[at..]);
  }

  // ---- Lines ----

  function Chomp(s: string): string {
    if s != "" && s[|s| - 1] == '\r' then s[..|s| - 1] else s
  }

  /** A newline takes a carriage return before it along. */
  function Chomped(parts: seq<string>): (lines: seq<string>)
    requires parts != []
    ensures |lines| == |parts|
    ensures forall i :: 0 <= i < |parts| ==> lines[i] == if i < |parts| - 1 then Chomp(parts[i]) else parts[i]
  {
    if |parts| == 1 then parts else [Chomp(parts[0])] + Chomped(parts[1..])
  }

  /** `text.split(/\r?\n/)`. */
  function LinesOf(text: string): (lines: seq<string>)
    ensures lines != []
  {
    Chomped(Split(text, '\n'))
  }

  lemma ChompIsTrimmed(s: string)
    ensures Trimming(Chomp(s)) == Trimming(s)
  {
    var t := Chomp(s);
    if t != s {
      var a, b := TrimParts(t, White);
      assert AllWhite(b + "\r", White);
      assert s == a + Trimming(t) + (b + "\r");
      TrimOf(a, Trimming(t), b + "\r", White);
    }
  }

  function KindsOf(text: string): seq<Line> {
    ClassifyAll(LinesOf(text))
  }

  /** Whether lines end in a carriage return does not matter to what they are. */
  lemma KindsOfParts(text: string)
    ensures KindsOf(text) == ClassifyAll(Split(text, '\n'))
  {
    hide Classify, Split, Chomp;
    var parts := Split(text, '\n');
    forall i | 0 <= i < |parts| ensures Classify(LinesOf(text)[i]) == Classify(parts[i]) {
      ChompKeepsKind(parts[i]);
    }
    SameKinds(KindsOf(text), ClassifyAll(parts));
  }

  lemma ChompKeepsKind(s: string)
    ensures Classify(Chomp(s)) == Classify(s)
  {
    hide ClassifyTrimmed, Trimming, Chomp;
    ChompIsTrimmed(s);
  }

  /** Writing lines out and reading them again. */
  lemma KindsOfJoin(lines: seq<string>)
    requires lines != [] && Without(lines, '\n')
    ensures KindsOf(Join(lines, '\n')) == ClassifyAll(lines)
  {
    KindsOfParts(Join(lines, '\n'));
    SplitJoin(lines, '\n');
  }

  lemma LinesAreSingle(text: string)
    ensures Without(LinesOf(text), '\n')
  {
    hide Split;
    JoinSplit(text, '\n');
    var parts := Split(text, '\n');
    forall i | 0 <= i < |parts| ensures Free(LinesOf(text)[i], {'\n'}) {
      assert Free(parts[i], {'\n'});
    }
  }

  // ---- Lines that are written ----

  /** A key that reads back as itself. */
  predicate WellFormedKey(key: string) {
    && key != "" && Trimmed(key, White)
    && Free(key, {'=', '\n'})
    && key[0] != ';' && key[0] != '#' && key[0] != '['
  }

  /** A line of key, white space, equals sign and text, once trimmed, is that entry. */
  lemma ClassifyEntry(raw: string, key: string, before: string, rest: string)
    requires WellFormedKey(key) && AllWhite(before, White) && Trimming(raw) == key + before + "=" + rest
    ensures Classify(raw) == Entry(key, Trimming(rest))
  {
    var line := key + before + "=" + rest;
    EqualsAt(key, before, rest);
    KeyPart(key, before);
    hide Trimming, FirstOf;
    assert line[0] == key[0];
    assert |key + before| > 0;
  }

  lemma EntryTrims(key: string, before: string, a: string, core: string, b: string)
    requires WellFormedKey(key) && AllWhite(before, White) && AllWhite(a, White) && AllWhite(b, White) &&
             Trimmed(core, White)
    ensures Trimming(key + before + "=" + (a + core + b)) == key + before + "=" + if core == "" then "" else a + core
  {
    var line := key + before + "=" + if core == "" then "" else a + core;
    var tail := if core == "" then a + b else b;
    assert key + before + "=" + (a + core + b) == "" + line + tail;
    assert line[0] == key[0];
    assert AllWhite(tail, White);
    assert core != "" ==> line[|line| - 1] == core[|core| - 1];
    TrimOf("", line, tail, White);
  }

  /** What is written as `key`, white space, equals sign, white space and `value` reads back
      as that entry, whatever the value. */
  lemma EntryReadsBack(key: string, before: string, after: string, value: string)
    requires WellFormedKey(key) && AllWhite(before, White) && AllWhite(after, White)
    ensures Classify(key + before + "=" + after + value) == Entry(key, Trimming(value))
  {
    var a, b := TrimParts(after + value, White);
    var core := Trimming(after + value);
    assert after + value == a + core + b && Trimmed(core, White);
    hide Classify, Trimming, WellFormedKey, AllWhite, Trimmed;
    assert key + before + "=" + after + value == key + before + "=" + (a + core + b) by {
      assert after + value == a + core + b;
      assert key + before + "=" + after + value == key + before + "=" + (after + value);
    }
    EntryTrims(key, before, a, core, b);
    ClassifyEntry(key + before + "=" + after + value, key, before, if core == "" then "" else a + core);
    RestPart(a, core);
    TrimValue(after, value);
  }

  lemma TrimValue(after: string, value: string)
    requires AllWhite(after, White)
    ensures Trimming(after + value) == Trimming(value)
  {
    hide Trim, AllWhite, Trimmed;
    var a, b := TrimParts(value, White);
    var core := Trimming(value);
    assert after + value == after + a + core + b;
    WhiteConcat(after, a);
    TrimOf(after + a, core, b, White);
  }

  lemma WhiteConcat(a: string, b: string)
    requires AllWhite(a, White) && AllWhite(b, White)
    ensures AllWhite(a + b, White)
  {
    hide White;
  }

  lemma EqualsAt(key: string, before: string, rest: string)
    requires WellFormedKey(key) && AllWhite(before, White)
    ensures var line := key + before + "=" + rest;
      FirstOf(line, {'='}) == |key + before| && line[..|key + before|] == key + before &&
        line[|key + before| + 1..] == rest
  {
    var line := key + before + "=" + rest;
    assert line == (key + before) + ("=" + rest);
    assert Free(key + before, {'='});
    FirstOfAfter(key + before, "=" + rest, {'='});
  }

  lemma KeyPart(key: string, before: string)
    requires WellFormedKey(key) && AllWhite(before, White)
    ensures Trimming(key + before) == key
  {
    TrimOf("", key, before, White);
    assert "" + key + before == key + before;
  }

  lemma RestPart(a: string, core: string)
    requires AllWhite(a, White) && Trimmed(core, White)
    ensures Trimming(if core == "" then "" else a + core) == core
  {
    if core != "" {
      TrimOf(a, core, "", White);
      assert a + core + "" == a + core;
    }
  }

  /** A section whose header reads back as it. */
  predicate WellFormedSegment(s: string) {
    Trimming(s) != "" && Free(s, {'/', '\n'})
  }

  predicate WellFormedSection(segments: Path) {
    && (forall i :: 0 <= i < |segments| ==> WellFormedSegment(segments[i]))
    && (segments != [] ==> !White(segments[|segments| - 1][|segments[|segments| - 1]| - 1]))
  }

  function HeaderLine(segments: Path): string {
    "[" + SectionText(segments) + "]"
  }

  predicate AllNonBlank(segments: Path) {
    forall i :: 0 <= i < |segments| ==> Trimming(segments[i]) != ""
  }

  lemma {:induction false} LastOfJoin(segments: Path)
    requires segments != [] && segments[|segments| - 1] != ""
    ensures var j, last := Join(segments, '/'), segments[|segments| - 1];
      j != "" && j[|j| - 1] == last[|last| - 1]
  {
    if |segments| <= 1 {
    } else {
      LastOfJoin(segments[1..]);
    }
  }

  lemma {:induction false} JoinedIsSingle(segments: Path)
    requires forall i :: 0 <= i < |segments| ==> WellFormedSegment(segments[i])
    ensures Free(Join(segments, '/'), {'\n'})
  {
    if |segments| <= 1 {
    } else {
      JoinedIsSingle(segments[1..]);
    }
  }

  lemma SectionTextIsTrimmed(segments: Path)
    requires WellFormedSection(segments)
    ensures Trimming(SectionText(segments)) == SectionText(segments)
    ensures Trimming(HeaderLine(segments)) == HeaderLine(segments)
  {
    hide Trim;
    var line, inner := HeaderLine(segments), SectionText(segments);
    if segments == [] {
      assert inner == "/" + "";
    } else {
      hide Join;
      assert WellFormedSegment(segments[|segments| - 1]);
      TrimmingOfEmpty();
      LastOfJoin(segments);
    }
    hide Join, WellFormedSegment, WellFormedSection;
    assert "" + line + "" == line && "" + inner + "" == inner;
    TrimOf("", line, "", White);
    TrimOf("", inner, "", White);
  }

  lemma SectionTextSplits(segments: Path)
    requires WellFormedSection(segments)
    ensures NonEmpty(Split(SectionText(segments), '/')) == segments
    ensures forall i :: 0 <= i < |segments| ==> Trimming(segments[i]) != ""
  {
    hide Trimming, Join, Split, NonEmpty;
    assert forall i :: 0 <= i < |segments| ==> WellFormedSegment(segments[i]);
    forall i | 0 <= i < |segments| ensures segments[i] != "" {
      assert WellFormedSegment(segments[i]);
      TrimmingOfEmpty();
    }
    RootedSegments(segments, '/');
  }

  lemma TrimmingOfEmpty()
    ensures Trimming("") == ""
  {
  }

  lemma HeaderReadsBack(segments: Path)
    requires WellFormedSection(segments)
    ensures Classify(HeaderLine(segments)) == Header(segments)
  {
    var line, inner := HeaderLine(segments), SectionText(segments);
    SectionTextIsTrimmed(segments);
    assert line[1..|line| - 1] == inner;
    SectionTextSplits(segments);
    hide Trim, Trimming, Split, NonEmpty, FirstOf, SectionText, WellFormedSection;
  }

  // ---- Sections as the line editor names them ----

  /** The parts with something in them. */
  function NonBlank(parts: seq<string>): (r: Path)
    ensures AllNonBlank(r)
  {
    if parts == [] then []
    else (if Trimming(parts[0]) == "" then [] else [parts[0]]) + NonBlank(parts[1..])
  }

  function SegmentsOf(path: string): Path {
    NonBlank(Split(path, '/'))
  }

  /** `canonicalSection`: "/a/b", or "/" for the root. */
  function CanonicalSection(path: string): string {
    SectionText(SegmentsOf(path))
  }

  lemma {:induction false} NonBlankWithout(parts: seq<string>, sep: char)
    requires Without(parts, sep)
    ensures Without(NonBlank(parts), sep)
  {
    hide Trimming;
    if parts == [] {
    } else {
      assert Without(parts[1..], sep);
      NonBlankWithout(parts[1..], sep);
      assert Free(parts[0], {sep});
    }
  }

  lemma SegmentsAreSlashFree(path: string)
    ensures Without(SegmentsOf(path), '/')
  {
    JoinSplit(path, '/');
    NonBlankWithout(Split(path, '/'), '/');
  }

  /** Canonical texts are equal just when the segments are. */
  lemma SectionTextTells(a: Path, b: Path)
    requires Without(a, '/') && Without(b, '/') && AllNonBlank(a) && AllNonBlank(b)
    ensures SectionText(a) == SectionText(b) <==> a == b
  {
    assert forall i :: 0 <= i < |a| ==> a[i] != "";
    assert forall i :: 0 <= i < |b| ==> b[i] != "";
    RootedSegments(a, '/');
    RootedSegments(b, '/');
  }

  lemma {:induction false} NothingBlankToDrop(parts: seq<string>)
    requires AllNonBlank(NonEmpty(parts))
    ensures NonBlank(parts) == NonEmpty(parts)
  {
    if parts == [] {
    } else {
      var rest := NonEmpty(parts[1..]);
      assert NonEmpty(parts) == (if parts[0] == "" then [] else [parts[0]]) + rest;
      assert forall i :: 0 <= i < |rest| ==> rest[i] == NonEmpty(parts)[if parts[0] == "" then i else i + 1];
      assert parts[0] != "" ==> NonEmpty(parts)[0] == parts[0];
      assert Trimming("") == "";
      NothingBlankToDrop(parts[1..]);
    }
  }

  predicate LooksLikeHeader(line: string) {
    line != "" && line[0] == '[' && line[|line| - 1] == ']' && |line| >= 2
  }

  /** If a header, then one of which the editor and the parser see the same section. */
  predicate ReadAlike(raw: string) {
    var line := Trimming(raw);
    LooksLikeHeader(line) ==>
      SegmentsOf(line[1..|line| - 1]) == NonEmpty(Split(Trimming(line[1..|line| - 1]), '/'))
  }

  lemma HeaderSection(raw: string)
    requires Classify(raw).Header? && ReadAlike(raw)
    ensures var line := Trimming(raw);
      LooksLikeHeader(line) && SegmentsOf(line[1..|line| - 1]) == Classify(raw).segments
  {
    hide Trim, Split, NonEmpty, SegmentsOf;
    assert '[' != ']';
  }

  lemma UnpaddedInner(inner: string)
    requires Trimmed(inner, White) && AllNonBlank(NonEmpty(Split(Trimming(inner), '/')))
    ensures SegmentsOf(inner) == NonEmpty(Split(Trimming(inner), '/'))
  {
    assert "" + inner + "" == inner;
    TrimOf("", inner, "", White);
    hide Trim, Split, NonEmpty;
    NothingBlankToDrop(Split(inner, '/'));
  }

  lemma HeaderParts(raw: string)
    requires Classify(raw).Header?
    ensures var line := Trimming(raw);
      && LooksLikeHeader(line)
      && Classify(raw).segments == NonEmpty(Split(Trimming(line[1..|line| - 1]), '/'))
      && AllNonBlank(Classify(raw).segments)
  {
    hide Trim, Split, NonEmpty;
    assert '[' != ']';
  }

  /** A header without padding inside its brackets is. */
  lemma UnpaddedReadsAlike(raw: string)
    requires Classify(raw).Header? && Trimmed(Trimming(raw)[1..|Trimming(raw)| - 1], White)
    ensures ReadAlike(raw)
  {
    hide Trimming, Split, NonEmpty, SegmentsOf, Classify;
    HeaderParts(raw);
    UnpaddedInner(Trimming(raw)[1..|Trimming(raw)| - 1]);
  }

  predicate GoodSegments(segments: Path) {
    Without(segments, '/') && AllNonBlank(segments)
  }

  lemma {:induction false} NonEmptyWithout(parts: seq<string>, sep: char)
    requires Without(parts, sep)
    ensures Without(NonEmpty(parts), sep)
  {
    if parts == [] {
    } else {
      assert Without(parts[1..], sep);
      NonEmptyWithout(parts[1..], sep);
      assert Free(parts[0], {sep});
    }
  }

  lemma HeaderSegmentsAreGood(raw: string)
    requires Classify(raw).Header?
    ensures GoodSegments(Classify(raw).segments)
  {
    var line := Trimming(raw);
    var inner := Trimming(line[1..|line| - 1]);
    JoinSplit(inner, '/');
    NonEmptyWithout(Split(inner, '/'), '/');
  }

  lemma TrimValueEnd(value: string, after: string)
    requires AllWhite(after, White)
    ensures Trimming(value + after) == Trimming(value)
  {
    hide Trim, AllWhite, Trimmed;
    var a, b := TrimParts(value, White);
    var core := Trimming(value);
    WhiteConcat(b, after);
    assert value + after == a + core + (b + after);
    TrimOf(a, core, b + after, White);
  }

  lemma BracketsAreTrimmed(s: string)
    ensures Trimming("[" + s + "]") == "[" + s + "]"
  {
    hide Trim;
    var line := "[" + s + "]";
    assert "" + line + "" == line;
    TrimOf("", line, "", White);
  }

  /** A header whose section text is that of `g` but for white space at its end. */
  lemma PaddedHeader(s: string, g: Path, b: string)
    requires WellFormedSection(g) && s == SectionText(g) + b && AllWhite(b, White)
    ensures Classify("[" + s + "]") == Header(g)
  {
    hide Trim, Split, NonEmpty, WellFormedSection, SectionText, FirstOf, AllWhite, Trimmed;
    var line := "[" + s + "]";
    SectionTextIsTrimmed(g);
    SectionTextSplits(g);
    TrimValueEnd(SectionText(g), b);
    BracketsAreTrimmed(s);
    assert line[1..|line| - 1] == s;
  }
}
