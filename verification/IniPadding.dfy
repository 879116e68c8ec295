/**
 Exactly when reading a key off an INI text agrees with parsing it. Where a header has white
 space inside its brackets, the line editor and the parser can see different sections: the
 parser trims the text between the brackets, the editor only drops blank segments.
 */
module IniPaddings {
  import opened JsonModel
  import opened Text
  import opened Splits
  import opened ConfigTrees
  import opened IniLines
  import opened IniDocuments
  import opened IniEditing

  // ---- The editor's segments are the parser's, padded ----

  /** The same text but for white space around it. */
  predicate Pads(p: string, t: string) {
    Trimming(p) == Trimming(t) && |t| <= |p| && (|t| == |p| ==> p == t)
  }

  predicate PadsEach(ps: seq<string>, ts: seq<string>) {
    |ps| == |ts| && forall i :: 0 <= i < |ps| ==> Pads(ps[i], ts[i])
  }

  lemma Padding(a: string, t: string, b: string)
    requires AllWhite(a, White) && AllWhite(b, White)
    ensures Pads(a + t + b, t)
  {
    hide Trim, AllWhite;
    var x, y := TrimParts(t, White);
    var core := Trimming(t);
    WhiteConcat(a, x);
    WhiteConcat(y, b);
    assert a + t + b == (a + x) + core + (y + b);
    TrimOf(a + x, core, y + b, White);
  }

  lemma CutAtSlash(s: string) returns (first: string, rest: string)
    requires !Free(s, {'/'})
    ensures s == first + (['/'] + rest) && Free(first, {'/'}) && |rest| < |s|
  {
    var i := FirstOf(s, {'/'});
    hide FirstOf;
    first, rest := s[..i], s[i + 1..];
    assert s == s[..i] + ([s[i]] + s[i + 1..]);
  }

  lemma FreeConcat(a: string, b: string)
    requires Free(a, {'/'}) && Free(b, {'/'})
    ensures Free(a + b, {'/'})
  {
  }

  lemma SplitLead(a: string, s: string)
    requires Free(a, {'/'})
    ensures Split(a + s, '/') == [a + Split(s, '/')[0]] + Split(s, '/')[1..]
  {
    hide Split, Free;
    if Free(s, {'/'}) {
      FreeConcat(a, s);
      SplitOne(s, '/');
      SplitOne(a + s, '/');
    } else {
      var first, rest := CutAtSlash(s);
      FreeConcat(a, first);
      SplitFirst(first, rest, '/');
      SplitFirst(a + first, rest, '/');
      assert a + s == a + first + (['/'] + rest);
    }
  }

  lemma {:induction false} SplitTrail(s: string, b: string)
    requires Free(b, {'/'})
    ensures var parts := Split(s, '/');
      Split(s + b, '/') == parts[..|parts| - 1] + [parts[|parts| - 1] + b]
    decreases |s|
  {
    hide Split, Free;
    if Free(s, {'/'}) {
      FreeConcat(s, b);
      SplitOne(s, '/');
      SplitOne(s + b, '/');
    } else {
      var first, rest := CutAtSlash(s);
      SplitFirst(first, rest, '/');
      SplitFirst(first, rest + b, '/');
      assert s + b == first + (['/'] + (rest + b));
      SplitTrail(rest, b);
      LastOfCons(first, Split(rest, '/'), b);
    }
  }

  lemma LastOfCons(first: string, parts: seq<string>, b: string)
    requires parts != []
    ensures var all := [first] + parts;
      [first] + (parts[..|parts| - 1] + [parts[|parts| - 1] + b]) == all[..|all| - 1] + [all[|all| - 1] + b]
  {
  }

  lemma WhiteIsSlashFree(a: string)
    requires AllWhite(a, White)
    ensures Free(a, {'/'})
  {
  }

  lemma SplitPadded(a: string, t: string, b: string)
    requires AllWhite(a, White) && AllWhite(b, White)
    ensures PadsEach(Split(a + t + b, '/'), Split(t, '/'))
  {
    hide Split, Pads, AllWhite, Free;
    WhiteIsSlashFree(a);
    WhiteIsSlashFree(b);
    assert a + t + b == a + (t + b);
    SplitLead(a, t + b);
    SplitTrail(t, b);
    var ps, ts := Split(a + t + b, '/'), Split(t, '/');
    assert AllWhite("", White) by {
      NoWhite();
    }
    forall i | 0 <= i < |ts| ensures Pads(ps[i], ts[i]) {
      var x, y := if i == 0 then a else "", if i == |ts| - 1 then b else "";
      Padding(x, ts[i], y);
      assert "" + ts[i] == ts[i] && ts[i] + "" == ts[i];
      assert ps[i] == x + ts[i] + y;
    }
  }

  lemma NoWhite()
    ensures AllWhite("", White)
  {
  }

  lemma PadsTail(ps: seq<string>, ts: seq<string>)
    requires PadsEach(ps, ts) && ps != []
    ensures Pads(ps[0], ts[0]) && PadsEach(ps[1..], ts[1..])
  {
    hide Pads;
    assert forall i :: 0 <= i < |ps[1..]| ==> ps[1..][i] == ps[i + 1] && ts[1..][i] == ts[i + 1];
  }

  lemma PadsCons(p: string, t: string, ps: seq<string>, ts: seq<string>)
    requires Pads(p, t) && PadsEach(ps, ts)
    ensures PadsEach([p] + ps, [t] + ts)
  {
    hide Pads;
  }

  lemma NonEmptyHead(ts: seq<string>)
    requires ts != []
    ensures NonEmpty(ts) == (if ts[0] == "" then [] else [ts[0]]) + NonEmpty(ts[1..])
  {
  }

  lemma NoneBlankHead(ts: seq<string>)
    requires ts != [] && AllNonBlank(NonEmpty(ts))
    ensures AllNonBlank(NonEmpty(ts[1..])) && (ts[0] != "" ==> Trimming(ts[0]) != "")
  {
    hide Trimming, NonEmpty;
    var rest, all := NonEmpty(ts[1..]), NonEmpty(ts);
    NonEmptyHead(ts);
    if ts[0] == "" {
      assert all == rest;
    } else {
      assert all[0] == ts[0] && all[1..] == rest;
      forall i | 0 <= i < |rest| ensures Trimming(rest[i]) != "" {
        assert rest[i] == all[i + 1];
      }
    }
  }

  lemma {:induction false} NonBlankPadded(ps: seq<string>, ts: seq<string>)
    requires PadsEach(ps, ts) && AllNonBlank(NonEmpty(ts))
    ensures PadsEach(NonBlank(ps), NonEmpty(ts))
  {
    if ps == [] {
    } else {
      hide Trimming, AllNonBlank, PadsEach;
      PadsTail(ps, ts);
      NoneBlankHead(ts);
      TrimmingOfEmpty();
      NonBlankPadded(ps[1..], ts[1..]);
      var more, rest := NonBlank(ps[1..]), NonEmpty(ts[1..]);
      assert [] + more == more && [] + rest == rest;
      if ts[0] != "" {
        PadsCons(ps[0], ts[0], more, rest);
      }
    }
  }

  lemma {:induction false} JoinPadded(ps: seq<string>, ts: seq<string>)
    requires PadsEach(ps, ts)
    ensures |Join(ts, '/')| <= |Join(ps, '/')|
    ensures |Join(ts, '/')| == |Join(ps, '/')| ==> ps == ts
  {
    hide Trimming;
    if |ps| <= 1 {
    } else {
      assert forall i :: 0 <= i < |ps[1..]| ==> ps[1..][i] == ps[i + 1] && ts[1..][i] == ts[i + 1];
      JoinPadded(ps[1..], ts[1..]);
      assert ps == [ps[0]] + ps[1..] && ts == [ts[0]] + ts[1..];
    }
  }

  /** Of a header that parses, the editor sees no shorter a section, and one of the same
      length is the same. */
  lemma HeaderLonger(raw: string)
    requires Classify(raw).Header?
    ensures var line := Trimming(raw);
      LooksLikeHeader(line) &&
      var seen, parsed := CanonicalSection(line[1..|line| - 1]), SectionText(Classify(raw).segments);
      |parsed| <= |seen| && (|parsed| == |seen| ==> parsed == seen)
  {
    hide Classify, Split, NonEmpty, NonBlank, Trim, AllWhite;
    HeaderParts(raw);
    var line := Trimming(raw);
    var inner := line[1..|line| - 1];
    var a, b := TrimParts(inner, White);
    SplitPadded(a, Trimming(inner), b);
    NonBlankPadded(Split(inner, '/'), Split(Trimming(inner), '/'));
    JoinPadded(SegmentsOf(inner), Classify(raw).segments);
  }

  // ---- What is read everywhere ----

  predicate NoneBad(lines: seq<string>) {
    forall i :: 0 <= i < |lines| ==> !Classify(lines[i]).Bad?
  }

  /** The section the editor sees is a canonical text, no shorter than the parser's. */
  lemma {:induction false} ScanLonger(lines: seq<string>, n: nat)
    requires n <= |lines| && NoneBad(lines)
    ensures CanonicalSection(ScanAt(lines, n)) == ScanAt(lines, n)
    ensures var seen, parsed := ScanAt(lines, n), SectionText(CurrentAt(ClassifyAll(lines), n));
      |parsed| <= |seen| && (|parsed| == |seen| ==> parsed == seen)
  {
    hide Classify, CanonicalSection, SectionText, Trimming;
    if n == 0 {
      RootIsCanonical();
    } else {
      ScanLonger(lines, n - 1);
      var raw := lines[n - 1];
      assert !Classify(raw).Bad?;
      if Classify(raw).Header? {
        HeaderLonger(raw);
        CanonicalTwice(Trimming(raw)[1..|Trimming(raw)| - 1]);
      } else {
        NotAHeader(raw);
      }
    }
  }

  lemma RootIsCanonical()
    ensures CanonicalSection("/") == "/" == SectionText([])
  {
    CanonicalOfGood([]);
  }

  lemma CanonicalTwice(path: string)
    ensures CanonicalSection(CanonicalSection(path)) == CanonicalSection(path)
  {
    hide SegmentsOf;
    TargetIsGood(path);
    CanonicalOfGood(SegmentsOf(path));
  }

  /** A section's text names its segments. */
  lemma CanonicalOfGood(segments: Path)
    requires GoodSegments(segments)
    ensures SegmentsOf(SectionText(segments)) == segments
    ensures CanonicalSection(SectionText(segments)) == SectionText(segments)
  {
    hide Split, Trimming;
    assert forall i :: 0 <= i < |segments| ==> segments[i] != "" by {
      TrimmingOfEmpty();
    }
    RootedSegments(segments, '/');
    NothingBlankToDrop(Split(SectionText(segments), '/'));
  }

  lemma EntrySaid(kinds: seq<Line>, i: nat)
    requires i < |kinds| && kinds[i].Entry?
    ensures Setting(CurrentAt(kinds, i) + [kinds[i].key], kinds[i].value) in AllOps(kinds)
  {
    OpsAgree(kinds, i);
    SettingOfLine(kinds, i);
  }

  /** In a document that parses, no two lines set one path. */
  lemma OneEntryPerPath(kinds: seq<Line>, i: nat, m: nat)
    requires Parses(kinds) && i < m < |kinds| && kinds[i].Entry? && kinds[m].Entry?
    ensures CurrentAt(kinds, i) + [kinds[i].key] != CurrentAt(kinds, m) + [kinds[m].key]
  {
    hide Conflict;
    SettingOfLine(kinds, m);
    OpsAgree(kinds, m);
    var front := kinds[..m];
    EntrySaid(front, i);
    CurrentOfFront(kinds, m, i);
    var said, later := Setting(CurrentAt(kinds, i) + [kinds[i].key], kinds[i].value),
                       Setting(CurrentAt(kinds, m) + [kinds[m].key], kinds[m].value);
    var a := AllOps(front);
    var k :| 0 <= k < |a| && a[k] == said;
    var ops := AllOps(kinds);
    assert ops[k] == said && ops[|a|] == later;
    assert !Conflict(ops[k], ops[|a|]);
    SamePathConflicts(said, later);
  }

  lemma SamePathConflicts(a: Op, b: Op)
    requires a.Setting? && b.Setting? && !Conflict(a, b)
    ensures a.path != b.path
  {
  }

  lemma {:induction false} CurrentOfFront(kinds: seq<Line>, m: nat, i: nat)
    requires i <= m <= |kinds|
    ensures CurrentAt(kinds[..m], i) == CurrentAt(kinds, i)
  {
    if i == 0 {
    } else {
      CurrentOfFront(kinds, m, i - 1);
    }
  }

  ghost predicate ReadsEverywhere(text: string) {
    forall section, key :: ReadsKey(text, section, key)
  }

  /** The line that is read for an entry of the document. */
  lemma ReadAs(text: string, i: nat) returns (m: nat)
    requires ParseText(text).Ok? && ReadsEverywhere(text) && i < |LinesOf(text)| && Classify(LinesOf(text)[i]).Entry?
    ensures var lines, kinds := LinesOf(text), KindsOf(text);
      && m < |lines| && kinds[m].Entry? && kinds[m].key == kinds[i].key
      && ScanAt(lines, m) == SectionText(CurrentAt(kinds, i))
  {
    hide Classify, ClassifyAll, ParseText, SectionText, ScanAt, IsKeyLine, SegmentsOf, CanonicalSection, OpsFrom,
         Consistent, WellFormedOps, GoodSegments, CurrentAt, NoBad, LinesOf;
    var lines, kinds := LinesOf(text), KindsOf(text);
    var c, key := CurrentAt(kinds, i), kinds[i].key;
    ParsesMeans(text);
    EntrySaid(kinds, i);
    NodeMeaning(AllOps(kinds), c + [key]);
    CurrentIsGood(lines, i);
    CanonicalOfGood(c);
    assert ReadsKey(text, SectionText(c), key);
    m := FirstMatch(lines, SectionText(c), key, 0);
    NoLineIsBad(text);
    assert MatchesAt(lines, m, SectionText(c), key);
    KeyLineIsEntry(lines[m], key);
    EntryKeepsScan(lines, m);
  }

  lemma NoLineIsBad(text: string)
    requires ParseText(text).Ok?
    ensures NoneBad(LinesOf(text))
  {
    hide Classify, ParseText, LinesOf, OpsFrom;
    ParsesMeans(text);
    var kinds := KindsOf(text);
    assert NoBad(kinds, |kinds|);
    forall i | 0 <= i < |LinesOf(text)| ensures !Classify(LinesOf(text)[i]).Bad? {
      assert kinds[i] == Classify(LinesOf(text)[i]);
    }
  }

  /** Where every key reads as the document has it, every entry is read in its section: the
      line read in its place cannot be another, for that one would be misread too, in a
      shorter section still. */
  lemma {:induction false} NoEntryMisread(text: string, i: nat)
    requires ParseText(text).Ok? && ReadsEverywhere(text) && i < |LinesOf(text)| && Classify(LinesOf(text)[i]).Entry?
    ensures ScanAt(LinesOf(text), i) == SectionText(CurrentAt(KindsOf(text), i))
    decreases |SectionText(CurrentAt(KindsOf(text), i))|
  {
    hide Classify, ClassifyAll, ParseText, SectionText, ScanAt, ReadsEverywhere, GoodSegments, CurrentAt, NoneBad,
         LinesOf, OpsFrom, WellFormedOps, Parses;
    var lines, kinds := LinesOf(text), KindsOf(text);
    var m := ReadAs(text, i);
    NoLineIsBad(text);
    ScanLonger(lines, m);
    if SectionText(CurrentAt(kinds, m)) != SectionText(CurrentAt(kinds, i)) {
      NoEntryMisread(text, m);
    }
    CurrentIsGood(lines, i);
    CurrentIsGood(lines, m);
    GoodSectionsTell(CurrentAt(kinds, i), CurrentAt(kinds, m));
    ParsesMeans(text);
    if i < m {
      OneEntryPerPath(kinds, i, m);
    } else if m < i {
      OneEntryPerPath(kinds, m, i);
    }
  }

  /** Reading keys off the text agrees with the parsed document at every section and key if and
      only if at every entry the editor and the parser see one section. */
  lemma ReadsTheDocumentIff(text: string)
    requires ParseText(text).Ok?
    ensures ReadsEverywhere(text) <==> EntriesReadAlike(LinesOf(text))
  {
    hide Classify, ClassifyAll, ParseText, ScanAt, SectionText, CurrentAt, GetValue, LinesOf, ReadsKey;
    if EntriesReadAlike(LinesOf(text)) {
      forall section, key ensures ReadsKey(text, section, key) {
        AlikeReadsKey(text, section, key);
      }
    }
    if ReadsEverywhere(text) {
      NoLineIsBad(text);
      forall i | 0 <= i < |LinesOf(text)| && Classify(LinesOf(text)[i]).Entry?
        ensures ScanAt(LinesOf(text), i) == SectionText(CurrentAt(ClassifyAll(LinesOf(text)), i))
      {
        NoEntryMisread(text, i);
      }
    }
  }

  // ---- A padded header ----

  const PADDED_LINES := ["[/a ]", "k=v"]

  const PADDED_TEXT := "[/a ]\nk=v"

  lemma PaddedTextLines()
    ensures LinesOf(PADDED_TEXT) == PADDED_LINES
  {
    var lines := PADDED_LINES;
    assert lines[1..] == ["k=v"] && Join(["k=v"], '\n') == "k=v";
    assert Join(lines, '\n') == PADDED_TEXT;
    SplitJoin(lines, '\n');
    assert Chomp(lines[0]) == lines[0];
  }

  lemma LetterIsTrimmed()
    ensures Trimming("a") == "a" && Trimming("a ") == "a" && Trimming("v") == "v"
  {
    TrimOf("", "a", "", White);
    TrimOf("", "a", " ", White);
    TrimOf("", "v", "", White);
    assert "" + "a" + "" == "a" && "" + "a" + " " == "a " && "" + "v" + "" == "v";
  }

  lemma PaddedKinds()
    ensures ClassifyAll(PADDED_LINES) == [Header(["a"]), Entry("k", "v")]
  {
    hide Classify, Trim;
    LetterIsTrimmed();
    assert SectionText(["a"]) == "/a";
    PaddedHeader("/a ", ["a"], " ");
    assert "[" + "/a " + "]" == "[/a ]";
    EntryReadsBack("k", "", "", "v");
    assert "k" + "" + "=" + "" + "v" == "k=v";
    assert PADDED_LINES[1..] == ["k=v"] && ["k=v"][1..] == [];
  }

  lemma PaddedOps()
    ensures AllOps([Header(["a"]), Entry("k", "v")]) == [Section(["a"]), Setting(["a", "k"], "v")]
    ensures Parses([Header(["a"]), Entry("k", "v")])
    ensures NodeFrom([Section(["a"]), Setting(["a", "k"], "v")], ["a", "k"]) == Value("v")
  {
    var kinds := [Header(["a"]), Entry("k", "v")];
    assert kinds[1..] == [Entry("k", "v")] && kinds[1..][1..] == [];
    OpsOfOne(["a"], Entry("k", "v"));
    assert ["a"] + ["k"] == ["a", "k"] && ["a", "k"][..1] == ["a"];
  }

  /** The editor's name for the section of a padded header. */
  lemma PaddedCanonical()
    ensures CanonicalSection("/a ") == "/a " && CanonicalSection("/a") == "/a" && SegmentsOf("/a") == ["a"]
  {
    LetterIsTrimmed();
    TrimmingOfEmpty();
    hide Trim, Split;
    assert "" + (['/'] + "a ") == "/a " && "" + (['/'] + "a") == "/a";
    SplitFirst("", "a ", '/');
    SplitFirst("", "a", '/');
    SplitOne("a ", '/');
    SplitOne("a", '/');
    assert ["", "a "][1..] == ["a "] && ["a "][1..] == [] && ["", "a"][1..] == ["a"] && ["a"][1..] == [];
    assert [""] + ["a "] == ["", "a "] && [""] + ["a"] == ["", "a"];
  }

  lemma PaddedScan()
    ensures forall n :: 1 <= n <= 2 ==> ScanAt(PADDED_LINES, n) == "/a "
  {
    hide Classify, CanonicalSection, Trim;
    PaddedKinds();
    PaddedCanonical();
    var line := "[/a ]";
    TrimOf("", line, "", White);
    assert "" + line + "" == line && line[1..4] == "/a ";
    assert ScanAt(PADDED_LINES, 1) == CanonicalSection("/a ");
    EntryKeepsScan(PADDED_LINES, 1);
  }

  /** A value the document has at `a`, `k`, and the editor does not find in `/a`. */
  lemma PaddedHeaderIsMisread()
    ensures ParseText(PADDED_TEXT).Ok? && NodeAt(ParseText(PADDED_TEXT).value, ["a", "k"]) == Value("v")
    ensures SegmentsOf("/a") + ["k"] == ["a", "k"] && GetValue(PADDED_TEXT, "/a", "k") == None
  {
    hide ParseFrom, Classify, IsKeyLine, ScanAt, CanonicalSection, SegmentsOf, OpsFrom, NodeFrom, LinesOf;
    PaddedTextLines();
    PaddedKinds();
    PaddedOps();
    ParsesMeans(PADDED_TEXT);
    PaddedCanonical();
    PaddedScan();
    assert FirstMatch(PADDED_LINES, "/a", "k", 0) == 2;
  }
}
