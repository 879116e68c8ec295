/**
 Exactly which configurations read back as themselves once printed as INI text: those whose
 settings can each be written as a line of a section (`PrintableIni`).
 */
module IniRoundTrips {
  import opened JsonModel
  import opened Text
  import opened Splits
  import opened Ordering
  import opened ConfigTrees
  import opened HostConfigs
  import opened IniLines
  import opened IniDocuments
  import opened IniPrinting

  // ---- What reading can give ----

  predicate PlainSegments(segments: Path) {
    forall i :: 0 <= i < |segments| ==> WellFormedSegment(segments[i])
  }

  /** A setting that some lines can say, whatever its section ends with. */
  predicate Sayable(q: Path, v: string) {
    q != [] && PlainSegments(q[..|q| - 1]) && WellFormedKey(q[|q| - 1]) && GoodValue(v)
  }

  lemma TrimmedPart(s: string)
    requires Free(s, {'\n'})
    ensures GoodValue(Trimming(s))
  {
    hide Trim;
    var a, b := TrimParts(s, White);
    var t := Trimming(s);
    assert forall i :: 0 <= i < |t| ==> t[i] == s[|a| + i];
  }

  /** Trimming the front of a trimmed text keeps its first character. */
  lemma TrimmedFront(line: string, n: nat)
    requires Trimmed(line, White) && n <= |line| && Free(line[..n], {'=', '\n'})
    requires Trimming(line[..n]) != ""
    ensures Trimming(line[..n])[0] == line[0] && Free(Trimming(line[..n]), {'=', '\n'})
  {
    hide Trim;
    var a, b := TrimParts(line[..n], White);
    var t := Trimming(line[..n]);
    assert a == "";
    assert forall i :: 0 <= i < |t| ==> t[i] == line[..n][i];
  }

  lemma EntryShape(raw: string)
    requires Free(raw, {'\n'}) && Classify(raw).Entry?
    ensures WellFormedKey(Classify(raw).key) && GoodValue(Classify(raw).value)
  {
    TrimmedPart(raw);
    var line := Trimming(raw);
    var eq := FirstOf(line, {'='});
    hide Trim;
    TrimmedPart(line[..eq]);
    TrimmedPart(line[eq + 1..]);
    TrimmedFront(line, eq);
  }

  /** The trimmed line is the key, white space, an equals sign and a text that trims to the value. */
  predicate SaysEntry(line: string, key: string, before: string, rest: string, value: string) {
    line == key + before + "=" + rest && AllWhite(before, White) && Trimming(rest) == value
  }

  /** A line is an entry exactly when, trimmed, it is a key, white space, an equals sign and a
      text that trims to the value; the key is trimmed, not empty, free of equals signs, and does
      not begin as a comment or a header does. */
  lemma EntryIff(raw: string, key: string, value: string)
    requires Free(raw, {'\n'})
    ensures Classify(raw) == Entry(key, value) <==>
            WellFormedKey(key) && exists before, rest :: SaysEntry(Trimming(raw), key, before, rest, value)
  {
    hide WellFormedKey, Trim, FirstOf;
    if Classify(raw) == Entry(key, value) {
      EntryShape(raw);
      var line := Trimming(raw);
      var eq := FirstOf(line, {'='});
      assert line == line[..eq] + "=" + line[eq + 1..];
      var before := KeyAndWhite(raw, line[..eq]);
      assert SaysEntry(line, key, before, line[eq + 1..], value);
    }
    if WellFormedKey(key) && exists before, rest :: SaysEntry(Trimming(raw), key, before, rest, value) {
      var before, rest :| SaysEntry(Trimming(raw), key, before, rest, value);
      ClassifyEntry(raw, key, before, rest);
    }
  }

  /** A line is blank or a comment exactly when, trimmed, it is empty or begins with one of the
      two signs for comments. */
  lemma BlankIff(raw: string)
    ensures Classify(raw) == Blank <==> Trimming(raw) == "" || Trimming(raw)[0] == ';' || Trimming(raw)[0] == '#'
  {
    hide Trim, FirstOf;
  }

  /** What begins a trimmed line begins with no white space. */
  lemma KeyAndWhite(raw: string, front: string) returns (before: string)
    requires front <= Trimming(raw)
    ensures front == Trimming(front) + before && AllWhite(before, White)
  {
    var _, _ := TrimParts(raw, White);
    var _, b := TrimParts(front, White);
    hide Trim, White;
    before := b;
    assert front == Trimming(front) + b;
  }

  lemma {:induction false} SplitKeepsFree(s: string, sep: char, c: char)
    requires Free(s, {c})
    ensures Without(Split(s, sep), c)
    decreases |s|
  {
    var i := FirstOf(s, {sep});
    hide FirstOf;
    if i < |s| {
      SplitKeepsFree(s[i + 1..], sep, c);
    }
  }

  lemma {:induction false} NonEmptyParts(parts: seq<string>)
    ensures forall p :: p in NonEmpty(parts) ==> p in parts
  {
    if parts == [] {
    } else {
      NonEmptyParts(parts[1..]);
    }
  }

  lemma HeaderShape(raw: string)
    requires Free(raw, {'\n'}) && Classify(raw).Header?
    ensures PlainSegments(Classify(raw).segments)
  {
    hide Trimming;
    var line := Trimming(raw);
    TrimmedPart(raw);
    var inner := line[1..|line| - 1];
    TrimmedPart(inner);
    HeaderSegmentsAreGood(raw);
    SplitKeepsFree(Trimming(inner), '/', '\n');
    NonEmptyParts(Split(Trimming(inner), '/'));
    var segments := Classify(raw).segments;
    hide Split, NonEmpty, Classify;
    forall i | 0 <= i < |segments| ensures WellFormedSegment(segments[i]) {
      assert Free(segments[i], {'/'}) && Trimming(segments[i]) != "";
      assert segments[i] in Split(Trimming(inner), '/');
    }
  }

  lemma {:induction false} EndShape(current: Path, lines: seq<string>)
    requires PlainSegments(current) && Without(lines, '\n')
    ensures PlainSegments(EndOf(current, ClassifyAll(lines)))
    decreases |lines|
  {
    if lines == [] {
    } else {
      hide Classify, PlainSegments;
      assert Free(lines[0], {'\n'});
      if Classify(lines[0]).Header? {
        HeaderShape(lines[0]);
      }
      assert Without(lines[1..], '\n');
      EndShape(if Classify(lines[0]).Header? then Classify(lines[0]).segments else current, lines[1..]);
    }
  }

  /** Every value of a document that was read is sayable where it stands. */
  lemma ParsedShape(text: string, doc: Json, q: Path, v: string)
    requires ParseText(text) == Ok(doc) && NodeAt(doc, q) == Value(v)
    ensures Sayable(q, v)
  {
    hide ParseText, Classify, OpsFrom, Consistent, WellFormedOps, LinesOf, WellFormedSegment, WellFormedKey, GoodValue;
    var lines, kinds := LinesOf(text), KindsOf(text);
    ParsesMeans(text);
    assert NodeFrom(AllOps(kinds), q) == Value(v);
    NodeMeaning(AllOps(kinds), q);
    var i := SettingLine([], kinds, q, v);
    LinesAreSingle(text);
    EntryShape(lines[i]);
    ClassifySlice(lines, i);
    EndShape([], lines[..i]);
    var end := EndOf([], kinds[..i]);
    assert q[..|q| - 1] == end;
  }

  lemma {:induction false} ValueIsText(v: Json, q: Path, s: string)
    ensures LeafAt(v, q) == Some(Str(s)) <==> NodeAt(v, q) == Value(s)
    decreases |q|
  {
    if q != [] && v.Obj? && q[0] in v.fields {
      ValueIsText(v.fields[q[0]], q[1..], s);
    }
  }

  ghost predicate AllSayable(config: Json) {
    forall q :: ValueAt(config, q).Some? ==> Sayable(q, ValueAt(config, q).value)
  }

  /** The text reads back as the settings of the configuration. */
  ghost predicate ReadsBack(text: string, config: Json) {
    ParseText(text).Ok? && RendersSettings(ParseText(text).value, config)
  }

  lemma ReadBackIsSayable(text: string, config: Json)
    requires config.Obj? && ReadsBack(text, config)
    ensures AllSayable(config)
  {
    hide ParseText, ValueAt, Sayable, Pruned;
    var doc := ParseText(text).value;
    forall q | ValueAt(config, q).Some? ensures Sayable(q, ValueAt(config, q).value) {
      SettingKey(config, q);
      ValueIsText(doc, q, ValueAt(config, q).value);
      ParsedShape(text, doc, q, ValueAt(config, q).value);
    }
  }

  // ---- A section that ends in white space ----

  lemma {:induction false} JoinLast(front: Path, x: string, y: string)
    ensures Join(front + [x + y], '/') == Join(front + [x], '/') + y
    decreases |front|
  {
    if front == [] {
      assert [] + [x + y] == [x + y] && [] + [x] == [x];
    } else {
      JoinLast(front[1..], x, y);
      assert (front + [x + y])[1..] == front[1..] + [x + y] && (front + [x])[1..] == front[1..] + [x];
    }
  }

  /** A segment without the white space at its end. */
  lemma UnpaddedEnd(s: string) returns (core: string, b: string)
    requires WellFormedSegment(s) && White(s[|s| - 1])
    ensures s == core + b && b != "" && AllWhite(b, White)
    ensures WellFormedSegment(core) && !White(core[|core| - 1])
  {
    hide Trim;
    var a;
    a, b := TrimParts(s, White);
    var t := Trimming(s);
    core := a + t;
    TrimOf(a, t, "", White);
    assert a + t + "" == core;
    assert forall i :: 0 <= i < |core| ==> core[i] == s[i];
    assert core[|core| - 1] == t[|t| - 1];
  }

  /** A padded section is read as another one, which has a text of its own. */
  lemma PaddedSection(f: Path) returns (g: Path)
    requires PlainSegments(f) && !WellFormedSection(f)
    ensures WellFormedSection(g) && Classify("[" + SectionText(f) + "]") == Header(g)
    ensures SectionText(g) != SectionText(f)
  {
    hide WellFormedSegment, Classify, Join;
    var front, last := f[..|f| - 1], f[|f| - 1];
    assert f == front + [last];
    var core, b := UnpaddedEnd(last);
    g := front + [core];
    assert forall i :: 0 <= i < |front| ==> g[i] == f[i];
    JoinLast(front, core, b);
    assert SectionText(f) == SectionText(g) + b;
    PaddedHeader(SectionText(f), g, b);
  }

  // ---- The printed lines, section by section ----

  predicate SingleLines(table: Sections) {
    forall s :: s in table ==> Free(s, {'\n'}) && EntriesPrintable(table[s])
  }

  lemma SectionLinesAreSingle(table: Sections, s: string)
    requires SingleLines(table) && s in table
    ensures Without(SectionLines(table, s), '\n')
  {
    hide EntriesPrintable, EntryLines, SortedKeys;
    EntryLinesRead(table[s], SortedKeys(table[s].Keys));
    BracketsAreSingle(s);
  }

  lemma {:induction false} PrintedAreSingle(table: Sections, names: seq<string>)
    requires SingleLines(table) && forall s :: s in names ==> s in table
    ensures Without(PrintedLines(table, names), '\n')
  {
    if names == [] {
    } else {
      hide SectionLines, SingleLines, ClassifyAll, Free;
      SectionLinesAreSingle(table, names[0]);
      PrintedAreSingle(table, names[1..]);
      JoinedSections(SectionLines(table, names[0]), PrintedLines(table, names[1..]));
    }
  }

  lemma {:induction false} LinesAround(table: Sections, names: seq<string>, s: string)
    returns (a: seq<string>, b: seq<string>)
    requires s in names && forall n :: n in names ==> n in table
    ensures PrintedLines(table, names) == a + SectionLines(table, s) + b
  {
    hide SectionLines;
    var rest := PrintedLines(table, names[1..]);
    if names[0] == s {
      a, b := [], if rest == [] then [] else [""] + rest;
    } else {
      a, b := LinesAround(table, names[1..], s);
      assert SectionLines(table, s) != [] by {
        SectionLinesAre(table, s, []);
      }
      var first := SectionLines(table, names[0]) + [""];
      assert first + (a + SectionLines(table, s) + b) == first + a + SectionLines(table, s) + b;
      a := first + a;
    }
  }

  /** Two sections, in the order they are printed. */
  lemma {:induction false} LinesAroundTwo(table: Sections, names: seq<string>, s: string, t: string)
    returns (a: seq<string>, x: string, b: seq<string>, y: string, c: seq<string>)
    requires s in names && t in names && s != t && forall n :: n in names ==> n in table
    ensures (x == s && y == t) || (x == t && y == s)
    ensures PrintedLines(table, names) == a + SectionLines(table, x) + b + SectionLines(table, y) + c
  {
    hide SectionLines;
    var rest := PrintedLines(table, names[1..]);
    var first := SectionLines(table, names[0]);
    assert SectionLines(table, s) != [] && SectionLines(table, t) != [] by {
      SectionLinesAre(table, s, []);
      SectionLinesAre(table, t, []);
    }
    if names[0] == s || names[0] == t {
      x, y := names[0], if names[0] == s then t else s;
      a, b, c := [], [], [];
      b, c := LinesAround(table, names[1..], y);
      assert first + ([""] + (b + SectionLines(table, y) + c)) == [] + first + ([""] + b) + SectionLines(table, y) + c;
      b := [""] + b;
    } else {
      a, x, b, y, c := LinesAroundTwo(table, names[1..], s, t);
      Shift(first, a, SectionLines(table, x), b, SectionLines(table, y), c);
      a := first + [""] + a;
    }
  }

  lemma Shift(first: seq<string>, a: seq<string>, x: seq<string>, b: seq<string>, y: seq<string>, c: seq<string>)
    ensures first + ([""] + (a + x + b + y + c)) == first + [""] + a + x + b + y + c
  {
  }

  lemma {:induction false} EntryOps(g: Path, entries: map<string, string>, keys: seq<string>, k: string)
    requires k in keys && forall j :: j in keys ==> j in entries
    ensures Setting(g + [k], entries[k]) in OpsFrom(g, EntryKinds(entries, keys))
  {
    var rest := EntryKinds(entries, keys[1..]);
    assert ([Entry(keys[0], entries[keys[0]])] + rest)[1..] == rest;
    if keys[0] != k {
      EntryOps(g, entries, keys[1..], k);
    }
  }

  /** What the lines of a section say of one of its keys. */
  lemma SectionOps(table: Sections, s: string, g: Path, current: Path, k: string)
    requires s in table && k in table[s] && EntriesPrintable(table[s])
    requires Classify("[" + s + "]") == Header(g)
    ensures Setting(g + [k], table[s][k]) in OpsFrom(current, ClassifyAll(SectionLines(table, s)))
  {
    hide Classify, EntriesPrintable, EntryLines, EntryKinds, SortedKeys;
    var keys := SortedKeys(table[s].Keys);
    EntryLinesRead(table[s], keys);
    ClassifyConcat(["[" + s + "]"], EntryLines(table[s], keys));
    assert ClassifyAll(["[" + s + "]"]) == [Header(g)];
    OpsConcat(current, [Header(g)], EntryKinds(table[s], keys));
    OpsOfOne(current, Header(g));
    EntryOps(g, table[s], keys, k);
  }

  lemma OpsOfThree(a: seq<string>, x: seq<string>, b: seq<string>) returns (from: Path)
    ensures forall o :: o in OpsFrom(from, ClassifyAll(x)) ==> o in AllOps(ClassifyAll(a + x + b))
  {
    hide Classify, ClassifyAll;
    ClassifyConcat(a + x, b);
    ClassifyConcat(a, x);
    OpsConcat([], ClassifyAll(a) + ClassifyAll(x), ClassifyAll(b));
    OpsConcat([], ClassifyAll(a), ClassifyAll(x));
    from := EndOf([], ClassifyAll(a));
  }

  /** Two settings of one path, said in two places, conflict. */
  lemma SaidTwice(p: seq<Op>, x: seq<Op>, q: seq<Op>, y: seq<Op>, r: seq<Op>, path: Path, v: string, w: string)
    requires Setting(path, v) in x && Setting(path, w) in y
    ensures !Consistent(p + x + q + y + r)
  {
    var ops := p + x + q + y + r;
    var i :| 0 <= i < |x| && x[i] == Setting(path, v);
    var j :| 0 <= j < |y| && y[j] == Setting(path, w);
    assert ops[|p| + i] == x[i] && ops[|p| + |x| + |q| + j] == y[j];
    assert Conflict(ops[|p| + i], ops[|p| + |x| + |q| + j]);
  }

  lemma OpsOfFive(a: seq<string>, x: seq<string>, b: seq<string>, y: seq<string>, c: seq<string>)
    returns (m: Path, n: Path, p: seq<Op>, q: seq<Op>, r: seq<Op>)
    ensures AllOps(ClassifyAll(a + x + b + y + c) + [Blank]) ==
            p + OpsFrom(m, ClassifyAll(x)) + q + OpsFrom(n, ClassifyAll(y)) + r
  {
    hide Classify, ClassifyAll, OpsFrom, EndOf;
    var ka, kx, kb, ky, kc := ClassifyAll(a), ClassifyAll(x), ClassifyAll(b), ClassifyAll(y), ClassifyAll(c);
    ClassifyConcat(a + x + b + y, c);
    ClassifyConcat(a + x + b, y);
    ClassifyConcat(a + x, b);
    ClassifyConcat(a, x);
    OpsConcat([], ka + kx + kb + ky + kc, [Blank]);
    OpsConcat([], ka + kx + kb + ky, kc);
    OpsConcat([], ka + kx + kb, ky);
    OpsConcat([], ka + kx, kb);
    OpsConcat([], ka, kx);
    m, n := EndOf([], ka), EndOf([], ka + kx + kb);
    p, q := OpsFrom([], ka), OpsFrom(EndOf([], ka + kx), kb);
    r := OpsFrom(EndOf([], ka + kx + kb + ky), kc) + OpsFrom(EndOf([], ka + kx + kb + ky + kc), [Blank]);
  }

  /** Two sections read as one, with a key in common, do not parse. */
  lemma ReadAsOne(table: Sections, s: string, t: string, g: Path, k: string)
    requires SingleLines(table) && s in table && t in table && s != t && k in table[s] && k in table[t]
    requires Classify("[" + s + "]") == Header(g) && Classify("[" + t + "]") == Header(g)
    ensures !Parses(KindsOf(PrintText(table)))
  {
    hide Classify, ClassifyAll, SectionLines, PrintedLines, SortedKeys, OpsFrom, Consistent, PrintText, KindsOf, Free;
    var names := SortedKeys(table.Keys);
    PrintedAreSingle(table, names);
    PrintedTextLines(table);
    var a, x, b, y, c := LinesAroundTwo(table, names, s, t);
    var m, n, p, q, r := OpsOfFive(a, SectionLines(table, x), b, SectionLines(table, y), c);
    SectionOps(table, x, g, m, k);
    SectionOps(table, y, g, n, k);
    SaidTwice(p, OpsFrom(m, ClassifyAll(SectionLines(table, x))), q, OpsFrom(n, ClassifyAll(SectionLines(table, y))), r,
              g + [k], table[x][k], table[y][k]);
  }

  /** What the text says of a section read as `g`. */
  lemma SaidInText(table: Sections, s: string, g: Path, k: string)
    requires SingleLines(table) && s in table && k in table[s] && Classify("[" + s + "]") == Header(g)
    ensures Setting(g + [k], table[s][k]) in AllOps(KindsOf(PrintText(table)))
  {
    hide Classify, ClassifyAll, SectionLines, PrintedLines, SortedKeys, OpsFrom, PrintText, KindsOf, Free;
    var names := SortedKeys(table.Keys);
    PrintedAreSingle(table, names);
    PrintedTextLines(table);
    var a, b := LinesAround(table, names, s);
    var from := OpsOfThree(a, SectionLines(table, s), b);
    SectionOps(table, s, g, from, k);
    OpsConcat([], ClassifyAll(PrintedLines(table, names)), [Blank]);
  }

  lemma SayableTable(table: Sections, config: Json)
    requires TableOf(table, config) && AllSayable(config)
    ensures SingleLines(table)
  {
    hide ValueAt, WellFormedKey, GoodValue, WellFormedSegment, SectionText;
    forall s | s in table ensures Free(s, {'\n'}) && EntriesPrintable(table[s]) {
      var k :| k in table[s];
      assert EntryAt(table, s, k).Some?;
      var q :| Names(q, s, k) && ValueAt(config, q) == EntryAt(table, s, k);
      SectionTextIsSingle(q[..|q| - 1]);
      forall j | j in table[s] ensures WellFormedKey(j) && GoodValue(table[s][j]) {
        assert EntryAt(table, s, j).Some?;
        var r :| Names(r, s, j) && ValueAt(config, r) == EntryAt(table, s, j);
      }
    }
  }

  lemma SectionTextIsSingle(segments: Path)
    requires PlainSegments(segments)
    ensures Free(SectionText(segments), {'\n'})
  {
    hide Join;
    JoinedIsSingle(segments);
  }

  /** A setting in a section that ends in white space does not read back. */
  lemma PaddedEndFails(table: Sections, config: Json, q: Path)
    requires TableOf(table, config) && AllSayable(config) && ValueAt(config, q).Some?
    requires !WellFormedSection(q[..|q| - 1])
    ensures !ReadsBack(PrintText(table), config)
  {
    hide ValueAt, Classify, WellFormedSection, PrintText, ParseText, SectionText, Pruned, EntriesPrintable,
         OpsFrom, KindsOf, WellFormedOps, Consistent;
    var text, kinds := PrintText(table), KindsOf(PrintText(table));
    var f, k := q[..|q| - 1], q[|q| - 1];
    SayableTable(table, config);
    var g := PaddedSection(f);
    var s, p := SectionText(f), g + [k];
    SaidInText(table, s, g, k);
    assert p[..|p| - 1] == g;
    if ValueAt(config, p).Some? {
      HeaderReadsBack(g);
      ReadAsOne(table, s, SectionText(g), g, k);
    }
    ParsesMeans(text);
    if Parses(kinds) {
      NodeMeaning(AllOps(kinds), p);
      ValueIsText(ParseText(text).value, p, table[s][k]);
    }
  }

  /** Printing and reading back gives the same settings if and only if every setting can be
      written: its section without blank segments, slashes, newlines or white space at its
      end, a key that reads back as itself, and a trimmed value on one line. */
  lemma PrintThenParseIff(text: string, config: Json)
    requires config.Obj? && Prints(text, config)
    ensures ReadsBack(text, config) <==> PrintableIni(config)
  {
    hide ValueAt, SectionTable, TableOf, WellFormedSection, WellFormedKey, GoodValue, PrintText, ParseText,
         RendersSettings;
    var table :| text == PrintText(table) && TableOf(table, config)
                 && (PrintableIni(config) ==> SectionTable(table, config));
    if PrintableIni(config) {
      PrintedTableReadsBack(config, table);
    }
    if ReadsBack(text, config) {
      ReadBackIsSayable(text, config);
      forall q | ValueAt(config, q).Some? ensures WellFormedSection(q[..|q| - 1]) {
        if !WellFormedSection(q[..|q| - 1]) {
          PaddedEndFails(table, config, q);
        }
      }
    }
  }

  /** Once a text has been read back, printing again gives the same text. */
  lemma PrintingAgainIsStable(text: string, config: Json, again: string)
    requires config.Obj? && Prints(text, config) && ReadsBack(text, config)
    requires Prints(again, ParseText(text).value)
    ensures again == text
  {
    hide ValueAt, SectionTable, TableOf, PrintText, ParseText, RendersSettings, PrintableIni;
    PrintThenParseIff(text, config);
    var doc := ParseText(text).value;
    ParsedIsPrintable(doc, config);
    var table :| text == PrintText(table) && TableOf(table, config)
                 && (PrintableIni(config) ==> SectionTable(table, config));
    var other :| again == PrintText(other) && TableOf(other, doc)
                 && (PrintableIni(doc) ==> SectionTable(other, doc));
    PrintedTablesAgree(config, table, doc, other);
  }

  /** A value with a space before it does not read back. */
  lemma PaddedValueDoesNotReadBack(text: string)
    requires Prints(text, Obj(map["k" := Str(" v")]))
    ensures !ReadsBack(text, Obj(map["k" := Str(" v")]))
  {
    hide Prints, ReadsBack;
    PrintThenParseIff(text, Obj(map["k" := Str(" v")]));
    PaddedValueIsNotPrintable();
  }

  lemma PaddedValueIsNotPrintable()
    ensures !PrintableIni(Obj(map["k" := Str(" v")]))
  {
    hide GoodPath, WellFormedKey;
    var config := Obj(map["k" := Str(" v")]);
    assert At(config, ["k"]) == Some(Str(" v")) by {
      assert ["k"][1..] == [];
    }
    assert ValueAt(config, ["k"]) == Some(" v");
    assert White(" v"[0]);
  }
}
