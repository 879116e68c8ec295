/**
 What an edit of one key does to the lines of an INI text, malformed ones included: which
 line it writes or drops, and that every other line stays, comments and blank lines too.
 */
module IniEditLines {
  import opened JsonModel
  import opened Text
  import opened Splits
  import opened IniLines
  import opened IniEditing

  /** Line `i` is an entry of the key, in the section. */
  predicate SetsKey(lines: seq<string>, i: nat, section: string, key: string) {
    i < |lines| && ScanAt(lines, i + 1) == CanonicalSection(section)
    && Classify(lines[i]).Entry? && Classify(lines[i]).key == key
  }

  predicate FirstSetsKey(lines: seq<string>, m: nat, section: string, key: string) {
    SetsKey(lines, m, section, key) && forall i :: 0 <= i < m ==> !SetsKey(lines, i, section, key)
  }

  predicate NoneSetsKey(lines: seq<string>, section: string, key: string) {
    forall i :: 0 <= i < |lines| ==> !SetsKey(lines, i, section, key)
  }

  /** Line `i` is in the section and not blank. */
  predicate InSection(lines: seq<string>, i: nat, section: string) {
    i < |lines| && ScanAt(lines, i + 1) == CanonicalSection(section) && Trimming(lines[i]) != ""
  }

  predicate LastInSection(lines: seq<string>, m: nat, section: string) {
    InSection(lines, m, section) && forall i :: m < i < |lines| ==> !InSection(lines, i, section)
  }

  /** To the editor a line sets the key just when it is an entry of it to the parser, whatever
      else is wrong with the text. */
  lemma KeyLineIsAnEntry(raw: string, key: string)
    ensures IsKeyLine(raw, key) <==> Classify(raw).Entry? && Classify(raw).key == key
    ensures Classify(raw).Entry? ==> ValueOfLine(raw) == Classify(raw).value
  {
    if Classify(raw).Bad? {
      var line := Trimming(raw);
      var eq := FirstOf(line, {'='});
      if !IsComment(line) && line[0] != '[' && 0 < eq < |line| {
        StartsTrimmed(raw);
        TrimKeepsFirst(line[..eq], White);
      }
    } else {
      KeyLineIsEntry(raw, key);
    }
  }

  lemma StartsTrimmed(raw: string)
    ensures Trimming(raw) != "" ==> !White(Trimming(raw)[0])
  {
    hide White, Trim;
    var _, _ := TrimParts(raw, White);
  }

  lemma MatchSetsKey(lines: seq<string>, i: nat, section: string, key: string)
    requires i < |lines|
    ensures MatchesAt(lines, i, CanonicalSection(section), key) <==> SetsKey(lines, i, section, key)
  {
    hide ScanAt, IsKeyLine, Classify, CanonicalSection;
    KeyLineIsAnEntry(lines[i], key);
  }

  /** The search finds the first line that sets the key, or none. */
  lemma FirstMatchIs(lines: seq<string>, section: string, key: string)
    ensures var m := FirstMatch(lines, CanonicalSection(section), key, 0);
      if m < |lines| then FirstSetsKey(lines, m, section, key) else NoneSetsKey(lines, section, key)
  {
    hide FirstMatch, SetsKey, MatchesAt;
    forall i | 0 <= i < |lines|
      ensures MatchesAt(lines, i, CanonicalSection(section), key) <==> SetsKey(lines, i, section, key)
    {
      MatchSetsKey(lines, i, section, key);
    }
  }

  lemma {:induction false} LastContentIs(lines: seq<string>, section: string, n: nat)
    requires n <= |lines|
    ensures var last := LastContent(lines, CanonicalSection(section), n);
      && (last >= 0 ==> InSection(lines, last, section))
      && forall i :: last < i < n ==> i < 0 || !InSection(lines, i, section)
  {
    hide ScanAt, CanonicalSection, Trimming;
    if n > 0 {
      LastContentIs(lines, section, n - 1);
    }
  }

  /** All newlines. */
  predicate Newlines(s: string) {
    forall i :: 0 <= i < |s| ==> s[i] == '\n'
  }

  lemma {:induction false} StrippedText(text: string)
    ensures var body := StripNewlines(text);
      body <= text && Newlines(text[|body|..]) && (body != "" ==> body[|body| - 1] != '\n')
    decreases |text|
  {
    if text != "" && text[|text| - 1] == '\n' {
      var front := text[..|text| - 1];
      StrippedText(front);
      var body := StripNewlines(front);
      assert text[|body|..] == front[|body|..] + "\n";
    }
  }

  /**
   `setIniValue` writes one line and leaves every other as it is, in its place: it replaces the
   first line that sets the key; where none does, it follows the last line of the section that
   is not blank; where there is none of those, it comes at the end under a header of its own,
   after a blank line.
   */
  lemma SetWritesOneLine(text: string, section: string, key: string, value: string)
    ensures var lines, line, edited := LinesOf(text), key + " = " + value, SetText(text, section, key, value);
      || (exists m: nat :: FirstSetsKey(lines, m, section, key) &&
           edited == Join(lines[..m] + [line] + lines[m + 1..], '\n'))
      || (NoneSetsKey(lines, section, key) &&
          exists m: nat :: LastInSection(lines, m, section) &&
            edited == Join(lines[..m + 1] + [line] + lines[m + 1..], '\n'))
      || (NoneSetsKey(lines, section, key) && (forall i: nat :: !InSection(lines, i, section)) &&
          exists body, end :: text == body + end && Newlines(end) && (body != "" ==> body[|body| - 1] != '\n') &&
            edited == body + (if body == "" then "" else "\n\n")
                      + ("[" + CanonicalSection(section) + "]\n" + line + "\n"))
  {
    hide CanonicalSection, LinesOf, Join, SetsKey, InSection, FirstMatch, LastContent, StripNewlines;
    var lines, target := LinesOf(text), CanonicalSection(section);
    var m, last := FirstMatch(lines, target, key, 0), LastContent(lines, target, |lines|);
    FirstMatchIs(lines, section, key);
    LastContentIs(lines, section, |lines|);
    if m < |lines| {
      assert lines[m := EntryLine(key, value)] == lines[..m] + [key + " = " + value] + lines[m + 1..];
    } else if last >= 0 {
      assert LastInSection(lines, last, section);
    } else {
      StrippedText(text);
      var body := StripNewlines(text);
      assert text == body + text[|body|..];
      assert forall i: nat :: InSection(lines, i, section) ==> i < |lines| by {
        InSectionIsALine(lines, section);
      }
      AppendedText(text, target, EntryLine(key, value));
    }
  }

  lemma InSectionIsALine(lines: seq<string>, section: string)
    ensures forall i: nat :: InSection(lines, i, section) ==> i < |lines|
  {
  }

  lemma AppendedText(text: string, target: string, entry: string)
    ensures var body := StripNewlines(text);
      Appended(text, target, entry) ==
      body + (if body == "" then "" else "\n\n") + ("[" + target + "]\n" + entry + "\n")
  {
    hide StripNewlines;
    var body := StripNewlines(text);
    var front := body + (if body == "" then "" else "\n\n");
    assert front + ("[" + target + "]") + "\n" + entry + "\n" == front + ("[" + target + "]\n" + entry + "\n");
  }

  /** `getIniValue` reads the first line that sets the key. */
  lemma GetReadsTheFirstLine(text: string, section: string, key: string, value: string)
    ensures var lines := LinesOf(text);
      GetValue(text, section, key) == Some(value) <==>
      exists m: nat :: FirstSetsKey(lines, m, section, key) && Classify(lines[m]).value == value
  {
    hide CanonicalSection, LinesOf, SetsKey, FirstMatch, Classify, ValueOfLine;
    var lines := LinesOf(text);
    var n := FirstMatch(lines, CanonicalSection(section), key, 0);
    FirstMatchIs(lines, section, key);
    SettingLinesAreEntries(lines, section, key);
    if m: nat :| FirstSetsKey(lines, m, section, key) && Classify(lines[m]).value == value {
      assert n < |lines|;
      assert m == n;
    }
  }

  lemma SettingLinesAreEntries(lines: seq<string>, section: string, key: string)
    ensures forall i: nat :: SetsKey(lines, i, section, key) ==>
      i < |lines| && Classify(lines[i]).Entry? && ValueOfLine(lines[i]) == Classify(lines[i]).value
  {
    hide ScanAt, Classify, ValueOfLine, CanonicalSection;
    forall i: nat | SetsKey(lines, i, section, key)
      ensures i < |lines| && Classify(lines[i]).Entry? && ValueOfLine(lines[i]) == Classify(lines[i]).value
    {
      KeyLineIsAnEntry(lines[i], key);
    }
  }

  /** `renameIniKey` writes the first line that sets the key anew, with the value it had, and
      leaves every other as it is. */
  lemma RenameWritesOneLine(text: string, section: string, oldKey: string, newKey: string)
    ensures var lines, edited := LinesOf(text), RenameText(text, section, oldKey, newKey);
      || (NoneSetsKey(lines, section, oldKey) && edited == Join(lines, '\n'))
      || (exists m: nat :: FirstSetsKey(lines, m, section, oldKey) && Classify(lines[m]).Entry? &&
            edited == Join(lines[..m] + [newKey + " = " + Classify(lines[m]).value] + lines[m + 1..], '\n'))
  {
    hide CanonicalSection, LinesOf, Join, SetsKey, FirstMatch, Classify, ValueOfLine;
    var lines := LinesOf(text);
    var m := FirstMatch(lines, CanonicalSection(section), oldKey, 0);
    FirstMatchIs(lines, section, oldKey);
    SettingLinesAreEntries(lines, section, oldKey);
    if m < |lines| {
      var line := EntryLine(newKey, ValueOfLine(lines[m]));
      assert lines[m := line] == lines[..m] + [line] + lines[m + 1..];
    }
  }

  /** `at` are the places of the lines that do not set the key, in order. */
  ghost predicate OtherLines(lines: seq<string>, n: nat, section: string, key: string, at: seq<nat>) {
    && n <= |lines|
    && (forall i: nat :: i in at <==> i < n && !SetsKey(lines, i, section, key))
    && (forall j :: 0 <= j < |at| ==> at[j] < |lines|)
    && (forall j, k :: 0 <= j < k < |at| ==> at[j] < at[k])
  }

  function LinesAt(lines: seq<string>, at: seq<nat>): seq<string>
    requires forall j :: 0 <= j < |at| ==> at[j] < |lines|
  {
    seq(|at|, j requires 0 <= j < |at| => lines[at[j]])
  }

  lemma {:induction false} KeptAre(lines: seq<string>, n: nat, section: string, key: string) returns (at: seq<nat>)
    requires n <= |lines|
    ensures OtherLines(lines, n, section, key, at)
    ensures Kept(lines, CanonicalSection(section), key, n) == LinesAt(lines, at)
  {
    hide SetsKey, CanonicalSection, MatchesAt;
    if n == 0 {
      at := [];
    } else {
      at := KeptAre(lines, n - 1, section, key);
      MatchSetsKey(lines, n - 1, section, key);
      if !SetsKey(lines, n - 1, section, key) {
        PlaceAfter(lines, n - 1, section, key, at);
        at := at + [n - 1];
      }
    }
  }

  lemma PlaceAfter(lines: seq<string>, n: nat, section: string, key: string, at: seq<nat>)
    requires n < |lines| && OtherLines(lines, n, section, key, at) && !SetsKey(lines, n, section, key)
    ensures OtherLines(lines, n + 1, section, key, at + [n])
    ensures LinesAt(lines, at + [n]) == LinesAt(lines, at) + [lines[n]]
  {
    hide SetsKey;
    assert forall j :: 0 <= j < |at| ==> at[j] in at;
  }

  /** `removeIniKey` drops every line that sets the key, and no other. */
  lemma RemoveDropsItsLines(text: string, section: string, key: string) returns (at: seq<nat>)
    ensures var lines := LinesOf(text);
      && OtherLines(lines, |lines|, section, key, at)
      && RemoveText(text, section, key) == Join(LinesAt(lines, at), '\n')
  {
    hide SetsKey, CanonicalSection, Kept, Join, LinesOf;
    at := KeptAre(LinesOf(text), |LinesOf(text)|, section, key);
  }
}
