/**
 Printing a configuration as INI text (`web/src/config/ini.ts`), and reading it back: the
 same settings, and the same text when printed again.
 */
module IniPrinting {
  import opened JsonModel
  import opened Text
  import opened Splits
  import opened Ordering
  import opened ConfigTrees
  import opened HostConfigs
  import opened IniLines
  import opened IniDocuments

  /** Settings by section text, then key. */
  type Sections = map<string, map<string, string>>

  // ---- What can be printed ----

  /** A path whose section part can be written as a header. */
  predicate GoodPath(q: Path) {
    q != [] && WellFormedSection(q[..|q| - 1])
  }

  predicate GoodValue(v: string) {
    Trimmed(v, White) && Free(v, {'\n'})
  }

  /** Every setting has a section whose header reads back as it, a key that reads back as
      itself, and a trimmed single-line value. */
  ghost predicate PrintableIni(config: Json) {
    config.Obj? && forall q :: ValueAt(config, q).Some? ==>
      GoodPath(q) && WellFormedKey(q[|q| - 1]) && GoodValue(ValueAt(config, q).value)
  }

  // ---- Collecting ----

  function EntryAt(sections: Sections, section: string, key: string): Option<string> {
    if section in sections && key in sections[section] then Some(sections[section][key]) else None
  }

  function SettingIn(sections: Sections, q: Path): Option<string> {
    if q == [] then None else EntryAt(sections, SectionText(q[..|q| - 1]), q[|q| - 1])
  }

  /** The segments a section text stands for. */
  function SegmentsIn(section: string): Path {
    NonEmpty(Split(section, '/'))
  }

  predicate PlacedSection(section: string) {
    section == SectionText(SegmentsIn(section)) && WellFormedSection(SegmentsIn(section))
  }

  /** Every section has settings, and is the text of good segments. */
  predicate SectionsOk(sections: Sections) {
    forall s :: s in sections ==> sections[s] != map[] && PlacedSection(s)
  }

  lemma PlacedText(front: Path)
    requires WellFormedSection(front)
    ensures PlacedSection(SectionText(front)) && SegmentsIn(SectionText(front)) == front
  {
    RootedSegments(front, '/');
  }

  /** The table holds exactly the settings of `config`. */
  ghost predicate SectionTable(sections: Sections, config: Json) {
    SectionsOk(sections) && forall q :: GoodPath(q) ==> SettingIn(sections, q) == ValueAt(config, q)
  }

  /** `p` is the path of a setting that is printed as `k` in the section `s`. */
  predicate Names(p: Path, s: string, k: string) {
    p != [] && SectionText(p[..|p| - 1]) == s && p[|p| - 1] == k
  }

  /** Every setting is in the table, and the table has nothing but settings. */
  ghost predicate TableOf(sections: Sections, config: Json) {
    && NoneEmpty(sections)
    && (forall q :: q != [] && ValueAt(config, q).Some? ==> SettingIn(sections, q).Some?)
    && (forall s, k :: EntryAt(sections, s, k).Some? ==>
          exists q :: Names(q, s, k) && ValueAt(config, q) == EntryAt(sections, s, k))
  }

  predicate NoneEmpty(sections: Sections) {
    forall s :: s in sections ==> sections[s] != map[]
  }

  ghost predicate EntryUnder(node: Json, path: Path, ks: set<string>, q: Path,
                             s: string, k: string, v: Option<string>)
  {
    q != [] && q[0] in ks && ValueAt(node, q) == v && Names(path + q, s, k)
  }

  /** What collecting the keys `ks` of `node`, found at `path`, does to a table. */
  ghost predicate Collected(before: Sections, after: Sections, node: Json, path: Path, ks: set<string>) {
    && (NoneEmpty(before) ==> NoneEmpty(after))
    && (forall s, k :: EntryAt(before, s, k).Some? ==> EntryAt(after, s, k).Some?)
    && (forall q :: q != [] && q[0] in ks && ValueAt(node, q).Some? ==> SettingIn(after, path + q).Some?)
    && (forall s, k :: EntryAt(after, s, k) != EntryAt(before, s, k) ==>
          exists q :: EntryUnder(node, path, ks, q, s, k, EntryAt(after, s, k)))
  }

  lemma CollectedNext(before: Sections, mid: Sections, after: Sections, node: Json, path: Path, ks: set<string>,
                      k: string)
    requires Collected(before, mid, node, path, ks) && Collected(mid, after, node, path, {k})
    ensures Collected(before, after, node, path, ks + {k})
  {
    hide ValueAt, EntryAt, Names, NoneEmpty;
    forall q | q != [] && q[0] in ks + {k} && ValueAt(node, q).Some? ensures SettingIn(after, path + q).Some? {
      if q[0] in ks {
        assert SettingIn(mid, path + q).Some?;
      }
    }
    forall s, j | EntryAt(after, s, j) != EntryAt(before, s, j)
      ensures exists q :: EntryUnder(node, path, ks + {k}, q, s, j, EntryAt(after, s, j))
    {
      if EntryAt(after, s, j) == EntryAt(mid, s, j) {
        var q :| EntryUnder(node, path, ks, q, s, j, EntryAt(mid, s, j));
        assert EntryUnder(node, path, ks + {k}, q, s, j, EntryAt(after, s, j));
      } else {
        var q :| EntryUnder(node, path, {k}, q, s, j, EntryAt(after, s, j));
        assert EntryUnder(node, path, ks + {k}, q, s, j, EntryAt(after, s, j));
      }
    }
  }

  lemma CollectedInside(before: Sections, after: Sections, node: Json, path: Path, k: string)
    requires node.Obj? && k in node.fields && node.fields[k].Obj?
    requires Collected(before, after, node.fields[k], path + [k], node.fields[k].fields.Keys)
    ensures Collected(before, after, node, path, {k})
  {
    hide ValueAt, EntryAt, SettingIn, Names, NoneEmpty;
    var v := node.fields[k];
    forall q | q != [] && q[0] in {k} && ValueAt(node, q).Some? ensures SettingIn(after, path + q).Some? {
      assert q == [k] + q[1..] && path + [k] + q[1..] == path + q;
      ValueUnder(node, k, q[1..]);
      SettingKey(v, q[1..]);
    }
    forall s, j | EntryAt(after, s, j) != EntryAt(before, s, j)
      ensures exists q :: EntryUnder(node, path, {k}, q, s, j, EntryAt(after, s, j))
    {
      var q :| EntryUnder(v, path + [k], v.fields.Keys, q, s, j, EntryAt(after, s, j));
      ValueUnder(node, k, q);
      assert path + [k] + q == path + ([k] + q);
      assert EntryUnder(node, path, {k}, [k] + q, s, j, EntryAt(after, s, j));
    }
  }

  lemma CollectedLeaf(before: Sections, node: Json, path: Path, k: string)
    requires node.Obj? && k in node.fields && !node.fields[k].Obj?
    ensures var v, s := node.fields[k], SectionText(path);
      var after := if v.Null? then before else before[s := (if s in before then before[s] else map[])[k := Render(v)]];
      Collected(before, after, node, path, {k})
  {
    hide Render, SectionText;
    var v, s := node.fields[k], SectionText(path);
    var after := if v.Null? then before else before[s := (if s in before then before[s] else map[])[k := Render(v)]];
    assert (path + [k])[..|path|] == path;
    assert ValueAt(node, [k]) == if v.Null? then None else Some(Render(v)) by {
      ValueUnder(node, k, []);
      assert [k] + [] == [k];
    }
    forall q | q != [] && q[0] in {k} && ValueAt(node, q).Some? ensures q == [k] {
      ValueUnder(node, k, q[1..]);
      assert q == [k] + q[1..];
    }
    hide ValueAt;
    assert !v.Null? ==> SettingIn(after, path + [k]).Some?;
    assert !v.Null? ==> after[s] != map[] by {
      if !v.Null? {
        assert k in after[s];
      }
    }
    forall t, j | EntryAt(after, t, j) != EntryAt(before, t, j)
      ensures exists q :: EntryUnder(node, path, {k}, q, t, j, EntryAt(after, t, j))
    {
      assert EntryUnder(node, path, {k}, [k], t, j, EntryAt(after, t, j));
    }
  }

  /** A section text and key belong to one path. */
  lemma SameSetting(p: Path, q: Path)
    requires GoodPath(p) && GoodPath(q)
    ensures SectionText(p[..|p| - 1]) == SectionText(q[..|q| - 1]) && p[|p| - 1] == q[|q| - 1] <==> p == q
  {
    PlacedText(p[..|p| - 1]);
    PlacedText(q[..|q| - 1]);
    hide SectionText;
    assert p == p[..|p| - 1] + [p[|p| - 1]] && q == q[..|q| - 1] + [q[|q| - 1]];
  }

  /** `collect`: the key order of objects is not modelled, so any order will do. */
  method Collect(node: Json, path: Path, before: Sections) returns (sections: Sections)
    requires node.Obj?
    ensures Collected(before, sections, node, path, node.fields.Keys)
    decreases node
  {
    sections := before;
    var left := node.fields.Keys;
    assert Collected(before, sections, node, path, node.fields.Keys - left);
    hide Collected, Render, SectionText;
    while left != {}
      invariant left <= node.fields.Keys
      invariant Collected(before, sections, node, path, node.fields.Keys - left)
      decreases left
    {
      var k :| k in left;
      var v := node.fields[k];
      ghost var mid := sections;
      if v.Obj? {
        sections := Collect(v, path + [k], sections);
        CollectedInside(mid, sections, node, path, k);
      } else {
        CollectedLeaf(sections, node, path, k);
        if !v.Null? {
          var section := SectionText(path);
          var entries := if section in sections then sections[section] else map[];
          sections := sections[section := entries[k := Render(v)]];
        }
      }
      CollectedNext(before, mid, sections, node, path, node.fields.Keys - left, k);
      assert node.fields.Keys - left + {k} == node.fields.Keys - (left - {k});
      left := left - {k};
    }
    assert node.fields.Keys - left == node.fields.Keys;
  }

  method CollectAll(config: Json) returns (sections: Sections)
    requires config.Obj?
    ensures TableOf(sections, config)
  {
    sections := Collect(config, [], map[]);
    hide ValueAt, Names;
    forall q | q != [] && ValueAt(config, q).Some? ensures SettingIn(sections, q).Some? {
      SettingKey(config, q);
      assert [] + q == q;
    }
    forall s, k | EntryAt(sections, s, k).Some?
      ensures exists q :: Names(q, s, k) && ValueAt(config, q) == EntryAt(sections, s, k)
    {
      var q :| EntryUnder(config, [], config.fields.Keys, q, s, k, EntryAt(sections, s, k));
      assert [] + q == q;
    }
  }

  /** Settings that can be read back have places of their own. */
  lemma PrintableTable(sections: Sections, config: Json)
    requires PrintableIni(config) && TableOf(sections, config)
    ensures SectionTable(sections, config)
  {
    hide ValueAt, WellFormedKey, GoodValue, SectionText, PlacedSection, WellFormedSection;
    forall s | s in sections ensures PlacedSection(s) {
      var k :| k in sections[s];
      assert EntryAt(sections, s, k).Some?;
      var q :| Names(q, s, k) && ValueAt(config, q) == EntryAt(sections, s, k);
      PlacedText(q[..|q| - 1]);
    }
    forall q | GoodPath(q) ensures SettingIn(sections, q) == ValueAt(config, q) {
      PrintableSetting(sections, config, q);
    }
  }

  lemma PrintableSetting(sections: Sections, config: Json, q: Path)
    requires PrintableIni(config) && TableOf(sections, config) && GoodPath(q)
    ensures SettingIn(sections, q) == ValueAt(config, q)
  {
    hide ValueAt, WellFormedKey, GoodValue, SectionText;
    if SettingIn(sections, q).Some? {
      var s, k := SectionText(q[..|q| - 1]), q[|q| - 1];
      var p :| Names(p, s, k) && ValueAt(config, p) == EntryAt(sections, s, k);
      SameSetting(p, q);
    }
  }

  // ---- Printing ----

  function EntryLines(entries: map<string, string>, keys: seq<string>): seq<string>
    requires forall k :: k in keys ==> k in entries
  {
    if keys == [] then [] else [keys[0] + "=" + entries[keys[0]]] + EntryLines(entries, keys[1..])
  }

  function SectionLines(sections: Sections, section: string): seq<string>
    requires section in sections
  {
    ["[" + section + "]"] + EntryLines(sections[section], SortedKeys(sections[section].Keys))
  }

  /** A blank line stands between sections. */
  function PrintedLines(sections: Sections, names: seq<string>): seq<string>
    requires forall s :: s in names ==> s in sections
  {
    if names == [] then []
    else
      var rest := PrintedLines(sections, names[1..]);
      SectionLines(sections, names[0]) + if rest == [] then [] else [""] + rest
  }

  function PrintText(sections: Sections): string {
    var lines := PrintedLines(sections, SortedKeys(sections.Keys));
    if lines == [] then "" else Join(lines, '\n') + "\n"
  }

  lemma {:induction false} EntryLinesSnoc(entries: map<string, string>, keys: seq<string>, k: string)
    requires k in entries && forall j :: j in keys ==> j in entries
    ensures forall j :: j in keys + [k] ==> j in entries
    ensures EntryLines(entries, keys + [k]) == EntryLines(entries, keys) + [k + "=" + entries[k]]
  {
    if keys == [] {
      assert keys + [k] == [k] && [k][1..] == [];
    } else {
      assert (keys + [k])[1..] == keys[1..] + [k];
      EntryLinesSnoc(entries, keys[1..], k);
    }
  }

  method PrintEntries(entries: map<string, string>, start: seq<string>) returns (lines: seq<string>)
    ensures lines == start + EntryLines(entries, SortedKeys(entries.Keys))
  {
    lines := start;
    var keys := SortedKeys(entries.Keys);
    for i := 0 to |keys|
      invariant lines == start + EntryLines(entries, keys[..i])
    {
      assert keys[..i + 1] == keys[..i] + [keys[i]];
      EntryLinesSnoc(entries, keys[..i], keys[i]);
      lines := lines + [keys[i] + "=" + entries[keys[i]]];
    }
    assert keys[..|keys|] == keys;
  }

  lemma PrintedNext(sections: Sections, names: seq<string>, i: nat)
    requires i < |names| && forall s :: s in names ==> s in sections
    ensures names[i] in sections
    ensures var rest := PrintedLines(sections, names[i + 1..]);
      PrintedLines(sections, names[i..]) == SectionLines(sections, names[i]) + if rest == [] then [] else [""] + rest
  {
    assert names[i..][0] == names[i] && names[i..][1..] == names[i + 1..];
  }

  /** The lines before a section: a blank one follows any others. */
  function Spaced(lines: seq<string>): seq<string> {
    if lines == [] then lines else lines + [""]
  }

  /** One section, after a blank line unless it is the first. */
  method PrintSection(sections: Sections, section: string, start: seq<string>) returns (lines: seq<string>)
    requires section in sections
    ensures lines == Spaced(start) + SectionLines(sections, section)
  {
    hide SectionLines, EntryLines, SortedKeys;
    lines := start;
    if lines != [] {
      lines := lines + [""];
    }
    SectionLinesAre(sections, section, lines);
    lines := lines + ["[" + section + "]"];
    lines := PrintEntries(sections[section], lines);
  }

  method PrintSections(sections: Sections) returns (lines: seq<string>)
    ensures lines == PrintedLines(sections, SortedKeys(sections.Keys))
  {
    hide SectionLines, SortedKeys, PrintedLines, Spaced, Resume, NoRepeats;
    var names := SortedKeys(sections.Keys);
    lines := [];
    ResumeEnds(sections, names, lines);
    for i := 0 to |names|
      invariant PrintedLines(sections, names) == Resume(lines, PrintedLines(sections, names[i..]))
    {
      AfterSection(sections, lines, names, i);
      lines := PrintSection(sections, names[i], lines);
    }
    ResumeEnds(sections, names, lines);
  }

  /** `text` is `config` printed; exactly its settings, when they can be read back. */
  ghost predicate Prints(text: string, config: Json) {
    exists table :: text == PrintText(table) && TableOf(table, config)
                    && (PrintableIni(config) ==> SectionTable(table, config))
  }

  /** `jsonToIni`: of settings with one section text and key, some one is printed. */
  method JsonToIni(config: Json) returns (text: string)
    requires config.Obj?
    ensures Prints(text, config)
  {
    hide TableOf, SectionTable, PrintableIni, PrintedLines, SortedKeys;
    var sections := CollectAll(config);
    if PrintableIni(config) {
      PrintableTable(sections, config);
    }
    var lines := PrintSections(sections);
    if lines == [] {
      text := "";
    } else {
      text := Join(lines, '\n') + "\n";
    }
    assert text == PrintText(sections);
  }

  lemma SectionLinesAre(sections: Sections, section: string, gap: seq<string>)
    requires section in sections
    ensures SectionLines(sections, section) != []
    ensures gap + ["[" + section + "]"] + EntryLines(sections[section], SortedKeys(sections[section].Keys))
      == gap + SectionLines(sections, section)
  {
    hide SortedKeys, EntryLines;
  }

  /** Lines already written, then the rest. */
  function Resume(lines: seq<string>, rest: seq<string>): seq<string> {
    lines + if lines == [] || rest == [] then rest else [""] + rest
  }

  /** The lines once the section `names[i]` has been printed. */
  lemma AfterSection(sections: Sections, lines: seq<string>, names: seq<string>, i: nat)
    requires i < |names| && forall s :: s in names ==> s in sections
    ensures Resume(lines, PrintedLines(sections, names[i..])) ==
            Resume(Spaced(lines) + SectionLines(sections, names[i]), PrintedLines(sections, names[i + 1..]))
  {
    hide SectionLines, PrintedLines, Resume;
    PrintedNext(sections, names, i);
    SectionLinesAre(sections, names[i], []);
    ResumeNext(lines, SectionLines(sections, names[i]), PrintedLines(sections, names[i + 1..]));
  }

  lemma ResumeEnds(sections: Sections, names: seq<string>, lines: seq<string>)
    requires forall s :: s in names ==> s in sections
    ensures names[0..] == names && Resume([], PrintedLines(sections, names)) == PrintedLines(sections, names)
    ensures Resume(lines, PrintedLines(sections, names[|names|..])) == lines
  {
  }

  lemma ResumeNext(start: seq<string>, section: seq<string>, rest: seq<string>)
    requires section != []
    ensures Resume(start, section + if rest == [] then [] else [""] + rest)
      == Resume(Spaced(start) + section, rest)
  {
  }

  // ---- The printed text ----

  /** `key=value` lines, least key first. */
  function EntriesText(entries: map<string, string>): string
    decreases |entries|
  {
    if entries == map[] then ""
    else
      var k := Least(entries.Keys);
      FewerWithout(entries, k);
      k + "=" + entries[k] + "\n" + EntriesText(entries - {k})
  }

  /** Sections with their header, least section first, a blank line between any two. */
  function SectionsText(sections: Sections): string
    decreases |sections|
  {
    if sections == map[] then ""
    else
      var s := Least(sections.Keys);
      FewerWithout(sections, s);
      var rest := SectionsText(sections - {s});
      "[" + s + "]\n" + EntriesText(sections[s]) + if rest == "" then "" else "\n" + rest
  }

  lemma FewerWithout<V>(m: map<string, V>, k: string)
    requires k in m
    ensures |m - {k}| < |m| && (m - {k}).Keys == m.Keys - {k}
  {
    var less := m - {k};
    assert less.Keys == m.Keys - {k};
    assert m == less[k := m[k]];
  }

  /** Every line with the newline after it. */
  function Written(lines: seq<string>): string {
    if lines == [] then "" else lines[0] + "\n" + Written(lines[1..])
  }

  lemma {:induction false} WrittenJoins(lines: seq<string>)
    ensures lines != [] ==> Written(lines) == Join(lines, '\n') + "\n"
  {
    if |lines| > 1 {
      WrittenJoins(lines[1..]);
      assert lines[0] + "\n" + (Join(lines[1..], '\n') + "\n") == lines[0] + "\n" + Join(lines[1..], '\n') + "\n";
    } else if |lines| == 1 {
      assert lines[1..] == [] && lines[0] + "\n" + "" == lines[0] + "\n";
    }
  }

  lemma {:induction false} WrittenConcat(a: seq<string>, b: seq<string>)
    ensures Written(a + b) == Written(a) + Written(b)
  {
    if a == [] {
      assert a + b == b;
    } else {
      assert (a + b)[1..] == a[1..] + b;
      WrittenConcat(a[1..], b);
    }
  }

  lemma WrittenOne(line: string)
    ensures Written([line]) == line + "\n"
  {
    assert [line][1..] == [] && line + "\n" + "" == line + "\n";
  }

  lemma LeastFirst(s: set<string>)
    requires s != {}
    ensures SortedKeys(s) == [Least(s)] + SortedKeys(s - {Least(s)})
  {
  }

  lemma {:induction false} SameEntries(a: map<string, string>, b: map<string, string>, keys: seq<string>)
    requires forall k :: k in keys ==> k in a && k in b && a[k] == b[k]
    ensures EntryLines(a, keys) == EntryLines(b, keys)
  {
    if keys == [] {
    } else {
      SameEntries(a, b, keys[1..]);
    }
  }

  lemma {:induction false} EntriesWritten(entries: map<string, string>)
    ensures Written(EntryLines(entries, SortedKeys(entries.Keys))) == EntriesText(entries)
    decreases |entries|
  {
    if entries == map[] {
      assert SortedKeys(entries.Keys) == [];
    } else {
      var k := Least(entries.Keys);
      var less := entries - {k};
      var rest := SortedKeys(less.Keys);
      FewerWithout(entries, k);
      LeastFirst(entries.Keys);
      EntriesWritten(less);
      SameEntries(entries, less, rest);
      var keys := SortedKeys(entries.Keys);
      assert keys[0] == k && keys[1..] == rest;
      hide EntriesText, SortedKeys;
      var line := k + "=" + entries[k];
      assert EntryLines(entries, keys) == [line] + EntryLines(entries, rest);
      WrittenConcat([line], EntryLines(entries, rest));
      WrittenOne(line);
      assert EntriesText(entries) == line + "\n" + EntriesText(less) by {
        EntriesTextOf(entries);
      }
    }
  }

  lemma EntriesTextOf(entries: map<string, string>)
    requires entries != map[]
    ensures var k := Least(entries.Keys);
      EntriesText(entries) == k + "=" + entries[k] + "\n" + EntriesText(entries - {k})
  {
  }

  lemma {:induction false} SameSections(a: Sections, b: Sections, names: seq<string>)
    requires forall s :: s in names ==> s in a && s in b && a[s] == b[s]
    ensures PrintedLines(a, names) == PrintedLines(b, names)
  {
    hide EntryLines;
    if names == [] {
    } else {
      SameSections(a, b, names[1..]);
    }
  }

  lemma SectionWritten(sections: Sections, s: string)
    requires s in sections
    ensures SectionLines(sections, s) != []
    ensures Written(SectionLines(sections, s)) == "[" + s + "]\n" + EntriesText(sections[s])
  {
    hide EntryLines, EntriesText;
    var header, lines := "[" + s + "]", EntryLines(sections[s], SortedKeys(sections[s].Keys));
    EntriesWritten(sections[s]);
    WrittenConcat([header], lines);
    WrittenOne(header);
    assert header + "\n" == "[" + s + "]\n";
  }

  lemma WrittenIsNotEmpty(lines: seq<string>)
    ensures Written(lines) == "" <==> lines == []
  {
  }

  lemma SectionsWrittenNext(sections: Sections, names: seq<string>)
    requires names != [] && forall s :: s in names ==> s in sections
    ensures var rest := Written(PrintedLines(sections, names[1..]));
      Written(PrintedLines(sections, names)) ==
      "[" + names[0] + "]\n" + EntriesText(sections[names[0]]) + if rest == "" then "" else "\n" + rest
  {
    hide SectionLines, EntriesText;
    var first, rest := SectionLines(sections, names[0]), PrintedLines(sections, names[1..]);
    SectionWritten(sections, names[0]);
    WrittenConcat(first, [""] + rest);
    WrittenConcat([""], rest);
    WrittenOne("");
    WrittenIsNotEmpty(rest);
    assert first + [] == first;
    assert "" + "\n" == "\n";
  }

  lemma SectionsTextOf(sections: Sections)
    requires sections != map[]
    ensures var s := Least(sections.Keys);
      var rest := SectionsText(sections - {s});
      SectionsText(sections) == "[" + s + "]\n" + EntriesText(sections[s]) + if rest == "" then "" else "\n" + rest
  {
    hide EntriesText;
  }

  lemma NothingWritten(sections: Sections)
    requires sections == map[]
    ensures SortedKeys(sections.Keys) == [] && Written(PrintedLines(sections, [])) == "" == SectionsText(sections)
  {
  }

  lemma {:induction false} SectionsWritten(sections: Sections)
    ensures Written(PrintedLines(sections, SortedKeys(sections.Keys))) == SectionsText(sections)
    decreases |sections|
  {
    if sections == map[] {
      NothingWritten(sections);
    } else {
      hide SortedKeys, PrintedLines, EntriesText, SectionsText, Written;
      LeastFirst(sections.Keys);
      var s := Least(sections.Keys);
      var less := sections - {s};
      var names, rest := SortedKeys(sections.Keys), SortedKeys(less.Keys);
      FewerWithout(sections, s);
      assert names[0] == s && names[1..] == rest;
      SectionsWritten(less);
      SameSections(sections, less, rest);
      SectionsWrittenNext(sections, names);
      SectionsTextOf(sections);
    }
  }

  /** What is printed, character by character: the sections in ascending order, the keys of
      each in ascending order, a line `key=value` for each, a blank line between sections. */
  lemma PrintedText(sections: Sections)
    ensures PrintText(sections) == SectionsText(sections)
  {
    hide PrintedLines, SortedKeys, SectionsText;
    SectionsWritten(sections);
    WrittenJoins(PrintedLines(sections, SortedKeys(sections.Keys)));
  }

  // ---- What the printed lines are ----

  function EntryKinds(entries: map<string, string>, keys: seq<string>): seq<Line>
    requires forall k :: k in keys ==> k in entries
  {
    if keys == [] then [] else [Entry(keys[0], entries[keys[0]])] + EntryKinds(entries, keys[1..])
  }

  function SectionKinds(sections: Sections, section: string): seq<Line>
    requires section in sections
  {
    [Header(SegmentsIn(section))] + EntryKinds(sections[section], SortedKeys(sections[section].Keys))
  }

  function PrintedKinds(sections: Sections, names: seq<string>): seq<Line>
    requires forall s :: s in names ==> s in sections
  {
    if names == [] then []
    else
      var rest := PrintedKinds(sections, names[1..]);
      SectionKinds(sections, names[0]) + if rest == [] then [] else [Blank] + rest
  }

  predicate EntriesPrintable(entries: map<string, string>) {
    forall k :: k in entries ==> WellFormedKey(k) && GoodValue(entries[k])
  }

  predicate TablePrintable(sections: Sections) {
    SectionsOk(sections) && forall s :: s in sections ==> EntriesPrintable(sections[s])
  }

  lemma TableIsPrintable(sections: Sections, config: Json)
    requires PrintableIni(config) && SectionTable(sections, config)
    ensures TablePrintable(sections)
  {
    hide ValueAt, WellFormedKey, GoodValue, PlacedSection, SegmentsIn, SettingIn;
    forall s, k | s in sections && k in sections[s] ensures WellFormedKey(k) && GoodValue(sections[s][k]) {
      PathOfEntry(sections, s, k);
    }
  }

  lemma PathOfEntry(sections: Sections, s: string, k: string)
    requires SectionsOk(sections) && s in sections && k in sections[s]
    ensures var q := SegmentsIn(s) + [k];
      GoodPath(q) && q[..|q| - 1] == SegmentsIn(s) && SettingIn(sections, q) == Some(sections[s][k])
  {
    assert PlacedSection(s);
    var q := SegmentsIn(s) + [k];
    assert q[..|q| - 1] == SegmentsIn(s);
  }

  lemma KeyIsSingle(k: string)
    requires WellFormedKey(k)
    ensures Free(k, {'\n'})
  {
  }

  lemma EntryLineReads(k: string, v: string)
    requires WellFormedKey(k) && GoodValue(v)
    ensures Classify(k + "=" + v) == Entry(k, v)
    ensures Free(k + "=" + v, {'\n'})
  {
    hide Classify, WellFormedKey, Trim;
    assert Free(k, {'\n'}) by {
      KeyIsSingle(k);
    }
    EntryReadsBack(k, "", "", v);
    assert k + "" + "=" + "" + v == k + "=" + v;
    TrimOf("", v, "", White);
    assert "" + v + "" == v;
  }

  lemma {:induction false} EntryLinesRead(entries: map<string, string>, keys: seq<string>)
    requires EntriesPrintable(entries) && forall k :: k in keys ==> k in entries
    ensures ClassifyAll(EntryLines(entries, keys)) == EntryKinds(entries, keys)
    ensures Without(EntryLines(entries, keys), '\n')
  {
    if keys == [] {
    } else {
      hide Classify, Free, WellFormedKey, GoodValue;
      var k := keys[0];
      assert k in entries;
      EntryLineReads(k, entries[k]);
      EntryLinesRead(entries, keys[1..]);
      var rest := EntryLines(entries, keys[1..]);
      assert ([k + "=" + entries[k]] + rest)[1..] == rest;
    }
  }

  lemma BracketsAreSingle(s: string)
    requires Free(s, {'\n'})
    ensures Free("[" + s + "]", {'\n'}) && Free("/" + s, {'\n'})
  {
  }

  lemma SectionLineReads(section: string)
    requires PlacedSection(section)
    ensures Classify("[" + section + "]") == Header(SegmentsIn(section))
    ensures Free("[" + section + "]", {'\n'})
  {
    hide Classify, WellFormedSegment, SegmentsIn, Join, Free;
    var segments := SegmentsIn(section);
    assert forall i :: 0 <= i < |segments| ==> WellFormedSegment(segments[i]);
    HeaderReadsBack(segments);
    JoinedIsSingle(segments);
    BracketsAreSingle(Join(segments, '/'));
    BracketsAreSingle(section);
  }

  lemma SectionLinesRead(sections: Sections, section: string)
    requires TablePrintable(sections) && section in sections
    ensures ClassifyAll(SectionLines(sections, section)) == SectionKinds(sections, section)
    ensures Without(SectionLines(sections, section), '\n')
  {
    hide Classify, SegmentsIn, EntriesPrintable, PlacedSection, SortedKeys, EntryLines, EntryKinds;
    var lines := EntryLines(sections[section], SortedKeys(sections[section].Keys));
    SectionLineReads(section);
    EntryLinesRead(sections[section], SortedKeys(sections[section].Keys));
    ClassifyConcat(["[" + section + "]"], lines);
    assert (["[" + section + "]"] + lines)[1..] == lines;
    assert ClassifyAll(["[" + section + "]"]) == [Header(SegmentsIn(section))];
  }

  /** A list of lines after a gap, if there are any. */
  function AfterGap(rest: seq<string>): seq<string> {
    if rest == [] then [] else [""] + rest
  }

  lemma GapKinds(rest: seq<string>)
    ensures ClassifyAll(AfterGap(rest)) == if ClassifyAll(rest) == [] then [] else [Blank] + ClassifyAll(rest)
    ensures Without(rest, '\n') ==> Without(AfterGap(rest), '\n')
  {
    hide Classify;
    ClassifyConcat([""], rest);
    BlankLine();
  }

  lemma JoinedSections(a: seq<string>, rest: seq<string>)
    ensures ClassifyAll(a + if rest == [] then [] else [""] + rest)
      == ClassifyAll(a) + if ClassifyAll(rest) == [] then [] else [Blank] + ClassifyAll(rest)
    ensures Without(a, '\n') && Without(rest, '\n') ==> Without(a + if rest == [] then [] else [""] + rest, '\n')
  {
    hide Classify, ClassifyAll, Free;
    ClassifyConcat(a, AfterGap(rest));
    GapKinds(rest);
  }

  lemma {:induction false} PrintedLinesRead(sections: Sections, names: seq<string>)
    requires TablePrintable(sections) && forall s :: s in names ==> s in sections
    ensures ClassifyAll(PrintedLines(sections, names)) == PrintedKinds(sections, names)
    ensures Without(PrintedLines(sections, names), '\n')
  {
    if names != [] {
      hide SectionLines, SectionKinds, TablePrintable, ClassifyAll, Without;
      assert names[0] in sections;
      SectionLinesRead(sections, names[0]);
      PrintedLinesRead(sections, names[1..]);
      JoinedSections(SectionLines(sections, names[0]), PrintedLines(sections, names[1..]));
    } else {
      assert ClassifyAll([]) == [];
    }
  }

  lemma BlankLine()
    ensures ClassifyAll([""]) == [Blank]
  {
    assert Trimming("") == "";
    assert [""][1..] == [];
  }

  /** The lines of the printed text, and one blank line after the last newline. */
  lemma PrintedTextLines(sections: Sections)
    requires Without(PrintedLines(sections, SortedKeys(sections.Keys)), '\n')
    ensures KindsOf(PrintText(sections)) == ClassifyAll(PrintedLines(sections, SortedKeys(sections.Keys))) + [Blank]
  {
    hide Classify, PrintedLines;
    var names := SortedKeys(sections.Keys);
    var lines := PrintedLines(sections, names);
    BlankLine();
    if lines == [] {
      KindsOfParts("");
      SplitOne("", '\n');
    } else {
      JoinConcat(lines, [""], '\n');
      assert Join(lines + [""], '\n') == PrintText(sections);
      KindsOfJoin(lines + [""]);
      ClassifyConcat(lines, [""]);
    }
  }

  lemma PrintedTextReads(sections: Sections)
    requires TablePrintable(sections)
    ensures KindsOf(PrintText(sections)) == PrintedKinds(sections, SortedKeys(sections.Keys)) + [Blank]
  {
    hide Classify, PrintText, KindsOf, PrintedLines, PrintedKinds, TablePrintable;
    PrintedLinesRead(sections, SortedKeys(sections.Keys));
    PrintedTextLines(sections);
  }

  // ---- Reading them back ----

  function ValueIn(part: Sections, q: Path): Option<string> {
    if GoodPath(q) then SettingIn(part, q) else None
  }

  predicate SectionOver(part: Sections, q: Path) {
    q == [] || exists s :: s in part && IsPrefix(q, SegmentsIn(s))
  }

  function NodeOf(part: Sections, q: Path): Node {
    if ValueIn(part, q).Some? then Value(ValueIn(part, q).value)
    else if SectionOver(part, q) then Branch
    else Nothing
  }

  /** The document read so far is the part of the table read so far. */
  ghost predicate Shows(root: Json, part: Sections) {
    root.Obj? && forall q :: NodeAt(root, q) == NodeOf(part, q)
  }

  /** Part of a table: some of its sections, with some of their entries. */
  predicate PartOf(part: Sections, whole: Sections) {
    forall s :: s in part ==> s in whole && (forall k :: k in part[s] ==> k in whole[s] && part[s][k] == whole[s][k])
  }

  /** No setting stands where a section is. */
  ghost predicate Separate(whole: Sections) {
    forall q, s :: ValueIn(whole, q).Some? && s in whole ==> !IsPrefix(q, SegmentsIn(s))
  }

  lemma TableIsSeparate(whole: Sections, config: Json)
    requires SectionTable(whole, config)
    ensures Separate(whole)
  {
    hide SegmentsIn, ValueAt, PlacedSection;
    forall q, s | ValueIn(whole, q).Some? && s in whole ensures !IsPrefix(q, SegmentsIn(s)) {
      var k :| k in whole[s];
      PathOfEntry(whole, s, k);
      SettingsApart(config, q, SegmentsIn(s) + [k]);
      AboveMeansPrefix(q, SegmentsIn(s), k);
    }
  }

  lemma SettingsApart(config: Json, q: Path, r: Path)
    requires ValueAt(config, q).Some? && ValueAt(config, r).Some?
    ensures !Above(q, r)
  {
    if Above(q, r) {
      LeafEnds(config, q, r);
    }
  }

  lemma PartSettings(part: Sections, whole: Sections, q: Path)
    requires PartOf(part, whole) && ValueIn(part, q).Some?
    ensures ValueIn(whole, q) == ValueIn(part, q)
  {
    hide SectionText, GoodPath;
  }

  /** The way to any section of the table is clear. */
  lemma WayIsClear(root: Json, part: Sections, whole: Sections, s: string)
    requires Shows(root, part) && PartOf(part, whole) && Separate(whole) && s in whole
    ensures PathClear(root, SegmentsIn(s))
  {
    hide SegmentsIn, PathClear, ValueIn, SectionOver;
    ClearMeaning(root, SegmentsIn(s));
    forall p | IsPrefix(p, SegmentsIn(s)) ensures IniDocuments.Open(NodeAt(root, p)) {
      assert NodeAt(root, p) == NodeOf(part, p);
      if ValueIn(part, p).Some? {
        PartSettings(part, whole, p);
      }
    }
  }

  lemma ReadHeader(root: Json, part: Sections, whole: Sections, s: string)
    requires Shows(root, part) && PartOf(part, whole) && Separate(whole) && s in whole && s !in part
    ensures var r := EnsureSection(root, SegmentsIn(s));
      r.Ok? && Shows(r.value, part[s := map[]]) && PartOf(part[s := map[]], whole)
  {
    WayIsClear(root, part, whole, s);
    var r := EnsureSection(root, SegmentsIn(s));
    var more := part[s := map[]];
    EnsureMeaning(root, SegmentsIn(s), []);
    forall q ensures NodeAt(r.value, q) == NodeOf(more, q) {
      EnsureMeaning(root, SegmentsIn(s), q);
      HeaderNode(part, whole, s, q);
    }
  }

  lemma HeaderNode(part: Sections, whole: Sections, s: string, q: Path)
    requires PartOf(part, whole) && Separate(whole) && s in whole && s !in part
    ensures NodeOf(part[s := map[]], q) == if IsPrefix(q, SegmentsIn(s)) then Branch else NodeOf(part, q)
  {
    hide SegmentsIn, SectionText, GoodPath;
    var more := part[s := map[]];
    assert ValueIn(more, q) == ValueIn(part, q);
    if ValueIn(part, q).Some? {
      PartSettings(part, whole, q);
      assert !IsPrefix(q, SegmentsIn(s));
    }
    assert SectionOver(more, q) <==> SectionOver(part, q) || IsPrefix(q, SegmentsIn(s)) by {
      assert more.Keys == part.Keys + {s};
      if SectionOver(part, q) && q != [] {
        var t :| t in part && IsPrefix(q, SegmentsIn(t));
        assert t in more;
      }
      if IsPrefix(q, SegmentsIn(s)) {
        assert s in more;
      }
    }
  }

  /** Nothing stands where an entry not read yet belongs. */
  lemma EntryIsFree(part: Sections, whole: Sections, s: string, k: string)
    requires PartOf(part, whole) && Separate(whole) && SectionsOk(whole)
    requires s in part && k in whole[s] && k !in part[s]
    ensures NodeOf(part, SegmentsIn(s) + [k]) == Nothing
  {
    var p := SegmentsIn(s) + [k];
    PathOfEntry(whole, s, k);
    assert PlacedSection(s);
    hide SegmentsIn, SectionText, GoodPath, PlacedSection;
    assert ValueIn(part, p) == None;
    assert ValueIn(whole, p).Some?;
    assert p != [] && forall t :: t in part ==> !IsPrefix(p, SegmentsIn(t));
  }

  lemma ReadEntry(root: Json, part: Sections, whole: Sections, s: string, k: string)
    requires Shows(root, part) && PartOf(part, whole) && Separate(whole) && SectionsOk(whole)
    requires s in part && k in whole[s] && k !in part[s]
    ensures var r, more := AddEntry(root, SegmentsIn(s), k, whole[s][k]), part[s := part[s][k := whole[s][k]]];
      r.Ok? && Shows(r.value, more) && PartOf(more, whole)
  {
    hide SegmentsIn, PathClear, AddEntry, NodeAt, NodeOf, Separate, SectionsOk;
    var segments, v := SegmentsIn(s), whole[s][k];
    WayIsClear(root, part, whole, s);
    EntryIsFree(part, whole, s, k);
    AddMeaning(root, segments, k, v, []);
    var r, more := AddEntry(root, segments, k, v), part[s := part[s][k := v]];
    forall q ensures NodeAt(r.value, q) == NodeOf(more, q) {
      AddMeaning(root, segments, k, v, q);
      EntryNode(part, whole, s, k, q);
    }
  }

  lemma EntryValue(part: Sections, s: string, k: string, v: string, q: Path)
    requires s in part && PlacedSection(s)
    ensures var p, more := SegmentsIn(s) + [k], part[s := part[s][k := v]];
      ValueIn(more, q) == if q == p then Some(v) else ValueIn(part, q)
  {
    hide SectionText;
    var p, more := SegmentsIn(s) + [k], part[s := part[s][k := v]];
    assert p[..|p| - 1] == SegmentsIn(s) && GoodPath(p);
    hide SegmentsIn, WellFormedSection;
    if GoodPath(q) {
      SameSetting(p, q);
    }
  }

  lemma SectionsOver(part: Sections, more: Sections, s: string, q: Path)
    requires part.Keys == more.Keys && s in part
    ensures SectionOver(more, q) <==> SectionOver(part, q)
    ensures IsPrefix(q, SegmentsIn(s)) ==> SectionOver(part, q)
  {
    hide SegmentsIn, IsPrefix;
  }

  lemma ValueIsNoSection(part: Sections, whole: Sections, s: string, q: Path)
    requires PartOf(part, whole) && Separate(whole) && s in whole && ValueIn(part, q).Some?
    ensures !IsPrefix(q, SegmentsIn(s))
  {
    hide SegmentsIn, IsPrefix, ValueIn;
    PartSettings(part, whole, q);
  }

  lemma EntryNode(part: Sections, whole: Sections, s: string, k: string, q: Path)
    requires PartOf(part, whole) && Separate(whole) && SectionsOk(whole)
    requires s in part && k in whole[s] && k !in part[s]
    ensures var p, more := SegmentsIn(s) + [k], part[s := part[s][k := whole[s][k]]];
      NodeOf(more, q) ==
      if q == p then Value(whole[s][k]) else if IsPrefix(q, SegmentsIn(s)) then Branch else NodeOf(part, q)
  {
    var more := part[s := part[s][k := whole[s][k]]];
    assert PlacedSection(s);
    hide SegmentsIn, PlacedSection, ValueIn, SectionOver, IsPrefix, Separate, SectionsOk;
    EntryValue(part, s, k, whole[s][k], q);
    SectionsOver(part, more, s, q);
    if ValueIn(part, q).Some? {
      ValueIsNoSection(part, whole, s, q);
    }
  }

  lemma ParseEntry(root: Json, current: Path, k: string, v: string, rest: seq<Line>, n: nat)
    requires AddEntry(root, current, k, v).Ok?
    ensures ParseFrom(root, current, [Entry(k, v)] + rest, n) ==
            ParseFrom(AddEntry(root, current, k, v).value, current, rest, n + 1)
  {
    hide AddEntry;
    assert ([Entry(k, v)] + rest)[1..] == rest;
  }

  lemma ParseHeader(root: Json, current: Path, segments: Path, rest: seq<Line>, n: nat)
    requires EnsureSection(root, segments).Ok?
    ensures ParseFrom(root, current, [Header(segments)] + rest, n) ==
            ParseFrom(EnsureSection(root, segments).value, segments, rest, n + 1)
  {
    hide EnsureSection;
    assert ([Header(segments)] + rest)[1..] == rest;
  }

  lemma ParseBlank(root: Json, current: Path, rest: seq<Line>, n: nat)
    ensures ParseFrom(root, current, [Blank] + rest, n) == ParseFrom(root, current, rest, n + 1)
  {
    assert ([Blank] + rest)[1..] == rest;
  }

  lemma RemainingKeys(keys: seq<string>)
    requires keys != [] && NoRepeats(keys)
    ensures NoRepeats(keys[1..]) && keys[0] !in keys[1..]
    ensures forall k :: k in keys <==> k == keys[0] || k in keys[1..]
  {
    assert forall i :: 0 <= i < |keys[1..]| ==> keys[1..][i] == keys[i + 1] && keys[i + 1] != keys[0];
    assert keys == [keys[0]] + keys[1..];
  }

  function Extended(part: Sections, whole: Sections, s: string, k: string): Sections
    requires s in part && s in whole && k in whole[s]
  {
    part[s := part[s][k := whole[s][k]]]
  }

  lemma {:induction false} ReadEntries(root: Json, part: Sections, whole: Sections, s: string, keys: seq<string>,
                                       rest: seq<Line>, n: nat)
    returns (doc: Json, more: Sections)
    requires Shows(root, part) && PartOf(part, whole) && Separate(whole) && SectionsOk(whole) && s in part && s in whole
    requires NoRepeats(keys) && forall k :: k in keys ==> k in whole[s] && k !in part[s]
    ensures Shows(doc, more) && PartOf(more, whole) && s in more && more == part[s := more[s]]
    ensures forall k :: k in more[s] <==> k in part[s] || k in keys
    ensures ParseFrom(root, SegmentsIn(s), EntryKinds(whole[s], keys) + rest, n) ==
            ParseFrom(doc, SegmentsIn(s), rest, n + |keys|)
    decreases |keys|
  {
    hide Shows, PartOf, Separate, SectionsOk, AddEntry, SegmentsIn, ParseFrom, NoRepeats;
    if keys == [] {
      doc, more := root, part;
      assert EntryKinds(whole[s], keys) + rest == rest;
    } else {
      var k := keys[0];
      ReadEntry(root, part, whole, s, k);
      var r := AddEntry(root, SegmentsIn(s), k, whole[s][k]);
      RemainingKeys(keys);
      assert EntryKinds(whole[s], keys) + rest == [Entry(k, whole[s][k])] + (EntryKinds(whole[s], keys[1..]) + rest);
      ParseEntry(root, SegmentsIn(s), k, whole[s][k], EntryKinds(whole[s], keys[1..]) + rest, n);
      doc, more := ReadEntries(r.value, Extended(part, whole, s, k), whole, s, keys[1..], rest, n + 1);
    }
  }

  lemma WholeSection(part: Sections, whole: Sections, s: string, more: Sections)
    requires s in whole && s in more && more == part[s := map[]][s := more[s]] && PartOf(more, whole)
    requires more[s].Keys == whole[s].Keys
    ensures more == part[s := whole[s]]
  {
    assert forall k :: k in more[s] ==> more[s][k] == whole[s][k];
    assert more[s] == whole[s];
  }

  lemma SectionKindsAre(whole: Sections, s: string, rest: seq<Line>)
    requires s in whole
    ensures var keys := SortedKeys(whole[s].Keys);
      SectionKinds(whole, s) + rest == [Header(SegmentsIn(s))] + (EntryKinds(whole[s], keys) + rest)
        && |SectionKinds(whole, s)| == 1 + |keys|
  {
    hide SortedKeys;
    EntryKindsLength(whole[s], SortedKeys(whole[s].Keys));
  }

  /** One section of the table, whole. */
  lemma ReadSection(root: Json, current: Path, part: Sections, whole: Sections, s: string, rest: seq<Line>, n: nat)
    returns (doc: Json)
    requires Shows(root, part) && PartOf(part, whole) && Separate(whole) && SectionsOk(whole)
    requires s in whole && s !in part
    ensures Shows(doc, part[s := whole[s]]) && PartOf(part[s := whole[s]], whole)
    ensures ParseFrom(root, current, SectionKinds(whole, s) + rest, n)
      == ParseFrom(doc, SegmentsIn(s), rest, n + |SectionKinds(whole, s)|)
  {
    hide Shows, Separate, SectionsOk, EnsureSection, SegmentsIn, ParseFrom, SortedKeys, EntryKinds, PartOf, NoRepeats,
         SectionKinds;
    ReadHeader(root, part, whole, s);
    var r := EnsureSection(root, SegmentsIn(s));
    var keys := SortedKeys(whole[s].Keys);
    var kinds := EntryKinds(whole[s], keys);
    SectionKindsAre(whole, s, rest);
    ParseHeader(root, current, SegmentsIn(s), kinds + rest, n);
    var more: Sections;
    doc, more := ReadEntries(r.value, part[s := map[]], whole, s, keys, rest, n + 1);
    WholeSection(part, whole, s, more);
  }

  lemma {:induction false} EntryKindsLength(entries: map<string, string>, keys: seq<string>)
    requires forall k :: k in keys ==> k in entries
    ensures |EntryKinds(entries, keys)| == |keys|
  {
    if keys == [] {
    } else {
      EntryKindsLength(entries, keys[1..]);
    }
  }

  /** The sections `names`, one after the other, then a blank line. */
  lemma {:induction false} ReadSections(root: Json, current: Path, part: Sections, whole: Sections, names: seq<string>,
                                        n: nat)
    returns (doc: Json)
    requires Shows(root, part) && PartOf(part, whole) && Separate(whole) && SectionsOk(whole)
    requires NoRepeats(names) && forall s :: s in names ==> s in whole
    requires part == Unnamed(whole, names)
    ensures Shows(doc, whole)
    ensures ParseFrom(root, current, PrintedKinds(whole, names) + [Blank], n) == Ok(doc)
    decreases |names|
  {
    hide Shows, Separate, SectionsOk, SegmentsIn, PartOf, SectionKinds, NoRepeats;
    if names == [] {
      doc := root;
      assert part == whole;
      assert PrintedKinds(whole, names) + [Blank] == [Blank] + [];
      ParseBlank(root, current, [], n);
    } else {
      hide ParseFrom;
      var s := names[0];
      var rest := PrintedKinds(whole, names[1..]);
      var tail := (if rest == [] then [] else [Blank] + rest) + [Blank];
      assert PrintedKinds(whole, names) + [Blank] == SectionKinds(whole, s) + tail;
      var m := n + |SectionKinds(whole, s)|;
      RemainingKeys(names);
      assert s !in part;
      var next := ReadSection(root, current, part, whole, s, tail, n);
      RemainingNames(whole, names, part);
      doc := ReadSections(next, SegmentsIn(s), part[s := whole[s]], whole, names[1..], if rest == [] then m else m + 1);
      if rest != [] {
        assert tail == [Blank] + (rest + [Blank]);
        ParseBlank(next, SegmentsIn(s), rest + [Blank], m);
      } else {
        assert tail == rest + [Blank];
      }
    }
  }

  function Unnamed(whole: Sections, names: seq<string>): Sections {
    map s | s in whole && s !in names :: whole[s]
  }

  lemma RemainingNames(whole: Sections, names: seq<string>, part: Sections)
    requires names != [] && NoRepeats(names) && forall s :: s in names ==> s in whole
    requires part == Unnamed(whole, names)
    ensures part[names[0] := whole[names[0]]] == Unnamed(whole, names[1..])
  {
    RemainingKeys(names);
  }

  // ---- The round trip ----

  lemma {:induction false} LeafOfNode(v: Json, q: Path)
    requires !NodeAt(v, q).Odd?
    ensures LeafAt(v, q) == if NodeAt(v, q).Value? then Some(Str(NodeAt(v, q).text)) else None
    decreases |q|
  {
    if q != [] && v.Obj? && q[0] in v.fields {
      LeafOfNode(v.fields[q[0]], q[1..]);
    }
  }

  /** Beneath every section there is a value. */
  ghost predicate Inhabited(v: Json) {
    forall q :: q != [] && NodeAt(v, q) == Branch ==> ValueBeneath(v, q)
  }

  ghost predicate ValueBeneath(v: Json, q: Path) {
    exists r :: Above(q, r) && NodeAt(v, r).Value?
  }

  lemma ValueBeneathKey(v: Json, k: string, q: Path)
    requires v.Obj? && k in v.fields && ValueBeneath(v, [k] + q)
    ensures ValueBeneath(v.fields[k], q)
  {
    var r :| Above([k] + q, r) && NodeAt(v, r).Value?;
    FirstKeys([k] + q, r);
    assert ([k] + q)[1..] == q;
    assert Above(q, r[1..]) && NodeAt(v.fields[k], r[1..]).Value?;
  }

  lemma {:induction false} InhabitedIsPruned(v: Json)
    requires Inhabited(v)
    ensures Pruned(v)
    decreases v
  {
    if !v.Obj? {
    } else {
      forall k | k in v.fields ensures v.fields[k] != EMPTY_OBJECT && Pruned(v.fields[k]) {
        var child := v.fields[k];
        forall q | NodeAt(child, q) == Branch ensures ValueBeneath(child, q) {
          assert ([k] + q)[1..] == q;
          assert NodeAt(v, [k] + q) == Branch;
          ValueBeneathKey(v, k, q);
        }
        if child.Obj? {
          assert NodeAt(child, []) == Branch;
          var r :| Above([], r) && NodeAt(child, r).Value?;
          assert r[0] in child.fields;
        }
        InhabitedIsPruned(child);
      }
    }
  }

  function AsText(v: Option<string>): Option<Json> {
    if v.Some? then Some(Str(v.value)) else None
  }

  /** The document holds the settings of `config`, rendered, and nothing else: no nulls, and
      no section without a setting in it. */
  ghost predicate RendersSettings(doc: Json, config: Json) {
    doc.Obj? && Pruned(doc) && forall q :: q != [] ==> LeafAt(doc, q) == AsText(ValueAt(config, q))
  }

  lemma ShownSettings(doc: Json, table: Sections, config: Json)
    requires PrintableIni(config) && SectionTable(table, config) && Shows(doc, table)
    ensures RendersSettings(doc, config)
  {
    hide SegmentsIn, SettingIn, ValueAt;
    forall q | q != [] ensures LeafAt(doc, q) == AsText(ValueAt(config, q)) {
      assert NodeAt(doc, q) == NodeOf(table, q);
      LeafOfNode(doc, q);
    }
    forall q | q != [] && NodeAt(doc, q) == Branch ensures ValueBeneath(doc, q) {
      assert NodeOf(table, q) == Branch;
      var s :| s in table && IsPrefix(q, SegmentsIn(s));
      var k :| k in table[s];
      PathOfEntry(table, s, k);
      AboveMeansPrefix(q, SegmentsIn(s), k);
      assert NodeAt(doc, SegmentsIn(s) + [k]) == NodeOf(table, SegmentsIn(s) + [k]);
    }
    InhabitedIsPruned(doc);
  }

  /** Reading back what was printed: it never fails, and gives the same settings. */
  lemma PrintedTableReadsBack(config: Json, table: Sections)
    requires PrintableIni(config) && SectionTable(table, config)
    ensures var r := ParseText(PrintText(table)); r.Ok? && RendersSettings(r.value, config)
  {
    hide PrintableIni, SectionTable, Shows, Separate, ParseFrom, PrintText, KindsOf, SortedKeys, TablePrintable,
         PrintedKinds;
    hide SectionsOk, NoRepeats;
    var names := SortedKeys(table.Keys);
    TableIsPrintable(table, config);
    PrintableIsOk(table);
    PrintedTextReads(table);
    TableIsSeparate(table, config);
    NothingRead(table, names);
    var doc := ReadSections(EMPTY_OBJECT, [], map[], table, names, 1);
    ShownSettings(doc, table, config);
  }

  lemma PrintableIsOk(table: Sections)
    requires TablePrintable(table)
    ensures SectionsOk(table)
  {
  }

  lemma NothingRead(table: Sections, names: seq<string>)
    requires forall s :: s in table ==> s in names
    ensures Shows(EMPTY_OBJECT, map[]) && PartOf(map[], table) && Unnamed(table, names) == map[]
  {
    forall q ensures NodeAt(EMPTY_OBJECT, q) == NodeOf(map[], q) {
      EmptyNodes(q);
    }
  }

  lemma SameValues(doc: Json, config: Json, q: Path)
    requires RendersSettings(doc, config) && config.Obj?
    ensures ValueAt(doc, q) == ValueAt(config, q)
  {
    if q != [] {
      assert LeafAt(doc, q) == AsText(ValueAt(config, q));
    }
  }

  /** The document read back can be printed. */
  lemma ParsedIsPrintable(doc: Json, config: Json)
    requires PrintableIni(config) && RendersSettings(doc, config)
    ensures PrintableIni(doc)
  {
    hide WellFormedKey, GoodValue, ValueAt;
    forall q | ValueAt(doc, q).Some?
      ensures GoodPath(q) && WellFormedKey(q[|q| - 1]) && GoodValue(ValueAt(doc, q).value)
    {
      SameValues(doc, config, q);
    }
  }

  lemma TableEntries(table: Sections, other: Sections, s: string)
    requires SectionsOk(table) && SectionsOk(other)
    requires forall q :: GoodPath(q) ==> SettingIn(table, q) == SettingIn(other, q)
    requires s in table
    ensures s in other && forall k :: k in table[s] ==> k in other[s] && other[s][k] == table[s][k]
  {
    hide SegmentsIn, GoodPath, SectionText;
    assert PlacedSection(s);
    forall k | k in table[s] ensures s in other && k in other[s] && other[s][k] == table[s][k] {
      PathOfEntry(table, s, k);
      assert SettingIn(other, SegmentsIn(s) + [k]) == Some(table[s][k]);
    }
    var k :| k in table[s];
  }

  /** Printing what was read back gives the same text again. */
  lemma PrintedTablesAgree(config: Json, table: Sections, doc: Json, again: Sections)
    requires PrintableIni(config) && SectionTable(table, config)
    requires RendersSettings(doc, config) && SectionTable(again, doc)
    ensures again == table && PrintText(again) == PrintText(table)
  {
    hide SettingIn, GoodPath, PlacedSection;
    forall q | GoodPath(q) ensures SettingIn(again, q) == SettingIn(table, q) {
      SameValues(doc, config, q);
    }
    forall s | s in table ensures s in again && again[s] == table[s] {
      TableEntries(table, again, s);
      TableEntries(again, table, s);
      assert again[s].Keys == table[s].Keys;
    }
    forall s | s in again ensures s in table {
      TableEntries(again, table, s);
    }
  }
}
