/** What editing a host's configuration writes (`web/src/hosts/hostConfig.ts`): the override
    that turns what the bundles give a host into what the operator made of it. */
module HostConfigs {
  import opened JsonModel
  import opened Text
  import opened Splits
  import opened ConfigTrees
  import Canonical

  // ---- Rendering and row ids ----

  /** The text of a setting: lists comma-joined, and what is no list, string or flag in canonical form. */
  function Render(v: Json): string {
    match v
    case Str(s) => s
    case Bool(b) => if b then "true" else "false"
    case Arr(items) => RenderItems(items)
    case _ => Canonical.Canon(v)
  }

  function RenderItems(items: seq<Json>): string {
    if items == [] then ""
    else if |items| == 1 then Render(items[0])
    else Render(items[0]) + "," + RenderItems(items[1..])
  }

  /** What each kind of value reads as: itself, its own digits, or a word. */
  lemma RenderTexts(v: Json)
    ensures v.Str? ==> Render(v) == v.s
    ensures v.Num? ==> Render(v) == v.text
    ensures v == Bool(true) ==> Render(v) == "true"
    ensures v == Bool(false) ==> Render(v) == "false"
    ensures v.Null? ==> Render(v) == "null"
    ensures v == Arr([]) ==> Render(v) == ""
    ensures v.Obj? ==> Render(v) == Canonical.Canon(v)
  {
  }

  /** Both are strings, or both numbers, or both flags. */
  predicate OneScalarKind(a: Json, b: Json) {
    (a.Str? && b.Str?) || (a.Num? && b.Num?) || (a.Bool? && b.Bool?)
  }

  /** Scalars of one kind read the same only when they are the same. */
  lemma RenderTellsScalars(a: Json, b: Json)
    requires OneScalarKind(a, b)
    ensures Render(a) == Render(b) <==> a == b
  {
    assert "true"[0] != "false"[0];
  }

  function Texts(items: seq<Json>): seq<string> {
    seq(|items|, i requires 0 <= i < |items| => Render(items[i]))
  }

  lemma {:induction false} RenderItemsJoins(items: seq<Json>)
    ensures RenderItems(items) == Join(Texts(items), ',')
  {
    if |items| <= 1 {
    } else {
      RenderItemsJoins(items[1..]);
      assert Texts(items)[1..] == Texts(items[1..]);
    }
  }

  /** A list of values whose texts have no comma splits at the commas into those texts. */
  lemma ListSplitsIntoItems(items: seq<Json>)
    requires items != [] && forall i :: 0 <= i < |items| ==> Free(Render(items[i]), {','})
    ensures var parts := Split(Render(Arr(items)), ',');
      |parts| == |items| && forall i :: 0 <= i < |items| ==> parts[i] == Render(items[i])
  {
    RenderItemsJoins(items);
    SplitJoin(Texts(items), ',');
  }

  /** The rendered setting at `q`. */
  function ValueAt(v: Json, q: Path): Option<string> {
    match SettingAt(v, q) case Some(x) => Some(Render(x)) case None => None
  }

  function RowId(section: string, key: string): string {
    section + "\0" + key
  }

  function RowIdOf(q: Path): string
    requires q != []
  {
    RowId(SectionText(q[..|q| - 1]), q[|q| - 1])
  }

  /** Path segments that `/` and NUL can join. */
  predicate CleanSegment(s: string) {
    s != "" && Free(s, {'/', '\0'})
  }

  predicate CleanPath(q: Path) {
    forall i :: 0 <= i < |q| ==> CleanSegment(q[i])
  }

  predicate CleanConfig(v: Json) {
    v.Obj? ==> forall k :: k in v.fields ==> CleanSegment(k) && CleanConfig(v.fields[k])
  }

  lemma {:induction false} CleanAt(v: Json, q: Path)
    requires CleanConfig(v) && At(v, q).Some?
    ensures CleanPath(q)
    decreases |q|
  {
    if q == [] {
    } else {
      CleanAt(v.fields[q[0]], q[1..]);
      assert q == [q[0]] + q[1..];
    }
  }

  /** `removalFor`: the path of a row. */
  function RemovalFor(section: string, key: string): Path {
    NonEmpty(Split(section, '/')) + [key]
  }

  lemma CleanIsSlashFree(q: Path)
    requires CleanPath(q)
    ensures Without(q, '/')
  {
    forall i | 0 <= i < |q| ensures Free(q[i], {'/'}) {
      assert CleanSegment(q[i]);
    }
  }

  /** A section's text splits back into its segments. */
  lemma SectionSegments(segments: Path)
    requires CleanPath(segments)
    ensures NonEmpty(Split(SectionText(segments), '/')) == segments
  {
    CleanIsSlashFree(segments);
    assert forall i :: 0 <= i < |segments| ==> CleanSegment(segments[i]);
    RootedSegments(segments, '/');
  }

  lemma {:induction false} JoinFree(segments: Path)
    requires CleanPath(segments)
    ensures Free(Join(segments, '/'), {'\0'})
    decreases |segments|
  {
    if |segments| <= 1 {
    } else {
      JoinFree(segments[1..]);
    }
  }

  /** Different paths have different row ids. */
  lemma RowIdInjective(p: Path, q: Path)
    requires p != [] && q != [] && CleanPath(p) && CleanPath(q) && RowIdOf(p) == RowIdOf(q)
    ensures p == q
  {
    var a, b := p[..|p| - 1], q[..|q| - 1];
    JoinFree(a);
    JoinFree(b);
    var s, t := SectionText(a), SectionText(b);
    var x, y := p[|p| - 1], q[|q| - 1];
    assert RowIdOf(p) == s + ("\0" + x) && RowIdOf(q) == t + ("\0" + y);
    FirstOfAfter(s, "\0" + x, {'\0'});
    FirstOfAfter(t, "\0" + y, {'\0'});
    var r := RowIdOf(p);
    assert s == r[..|s|] == t;
    assert x == r[|s| + 1..] == y;
    SectionSegments(a);
    SectionSegments(b);
    assert p == a + [x] && q == b + [y];
  }

  // ---- Leaves ----

  datatype Leaf = Leaf(path: Path, value: string)

  /** `out` lists the settings of `config` by row id. */
  ghost predicate LeafTable(out: map<string, Leaf>, config: Json) {
    && (forall q :: ValueAt(config, q).Some? && q != [] ==>
          RowIdOf(q) in out && out[RowIdOf(q)] == Leaf(q, ValueAt(config, q).value))
    && (forall id :: id in out ==>
          out[id].path != [] && id == RowIdOf(out[id].path) && ValueAt(config, out[id].path) == Some(out[id].value))
  }

  /** `id` is the row of a setting of `node`, found at `path`, under one of the keys `ks`. */
  ghost predicate RowUnder(node: Json, path: Path, ks: set<string>, q: Path, id: string, row: Leaf) {
    && q != [] && q[0] in ks && ValueAt(node, q).Some?
    && id == RowIdOf(path + q) && row == Leaf(path + q, ValueAt(node, q).value)
  }

  /** What a walk of the keys `ks` of `node`, found at `path`, adds to a table: a row for
      every setting, and no row but a setting's. */
  ghost predicate TableGrew(before: map<string, Leaf>, after: map<string, Leaf>, node: Json, path: Path,
                            ks: set<string>)
  {
    && before.Keys <= after.Keys
    && (forall q :: ValueAt(node, q).Some? && q != [] && q[0] in ks ==> RowIdOf(path + q) in after)
    && (forall id :: id in after && !(id in before && after[id] == before[id]) ==>
          exists q :: RowUnder(node, path, ks, q, id, after[id]))
  }

  lemma SettingKey(v: Json, q: Path)
    requires v.Obj? && ValueAt(v, q).Some?
    ensures q != [] && q[0] in v.fields.Keys
  {
  }

  lemma CleanStep(node: Json, path: Path, k: string)
    requires node.Obj? && k in node.fields && CleanConfig(node) && CleanPath(path)
    ensures CleanConfig(node.fields[k]) && CleanPath(path + [k])
  {
  }

  lemma GrewInside(before: map<string, Leaf>, after: map<string, Leaf>, node: Json, path: Path, k: string)
    requires node.Obj? && k in node.fields && node.fields[k].Obj?
    requires TableGrew(before, after, node.fields[k], path + [k], node.fields[k].fields.Keys)
    ensures TableGrew(before, after, node, path, {k})
  {
    hide RowIdOf, ValueAt;
    var v := node.fields[k];
    forall q | ValueAt(node, q).Some? && q != [] && q[0] in {k} ensures RowIdOf(path + q) in after {
      assert q == [k] + q[1..] && path + [k] + q[1..] == path + q;
      ValueUnder(node, k, q[1..]);
      SettingKey(v, q[1..]);
    }
    forall id | id in after && !(id in before && after[id] == before[id])
      ensures exists q :: RowUnder(node, path, {k}, q, id, after[id])
    {
      var q :| RowUnder(v, path + [k], v.fields.Keys, q, id, after[id]);
      ValueUnder(node, k, q);
      assert path + [k] + q == path + ([k] + q);
      assert RowUnder(node, path, {k}, [k] + q, id, after[id]);
    }
  }

  lemma GrewLeaf(before: map<string, Leaf>, node: Json, path: Path, k: string)
    requires node.Obj? && k in node.fields && !node.fields[k].Obj?
    ensures var v := node.fields[k];
      TableGrew(before,
                if v.Null? then before else before[RowId(SectionText(path), k) := Leaf(path + [k], Render(v))],
                node, path, {k})
  {
    var v := node.fields[k];
    assert (path + [k])[..|path|] == path;
    assert ValueAt(node, [k]) == if v.Null? then None else Some(Render(v)) by {
      ValueUnder(node, k, []);
      assert [k] + [] == [k];
    }
    forall q | ValueAt(node, q).Some? && q != [] && q[0] in {k} ensures q == [k] {
      ValueUnder(node, k, q[1..]);
      assert q == [k] + q[1..];
    }
    if !v.Null? {
      assert RowUnder(node, path, {k}, [k], RowId(SectionText(path), k), Leaf(path + [k], Render(v)));
    }
  }

  lemma GrewNext(before: map<string, Leaf>, mid: map<string, Leaf>, after: map<string, Leaf>,
                 node: Json, path: Path, ks: set<string>, k: string)
    requires TableGrew(before, mid, node, path, ks) && TableGrew(mid, after, node, path, {k})
    ensures TableGrew(before, after, node, path, ks + {k})
  {
    hide RowIdOf, ValueAt;
    forall id | id in after && !(id in before && after[id] == before[id])
      ensures exists q :: RowUnder(node, path, ks + {k}, q, id, after[id])
    {
      if id in mid && after[id] == mid[id] {
        var q :| RowUnder(node, path, ks, q, id, mid[id]);
        assert RowUnder(node, path, ks + {k}, q, id, after[id]);
      } else {
        var q :| RowUnder(node, path, {k}, q, id, after[id]);
        assert RowUnder(node, path, ks + {k}, q, id, after[id]);
      }
    }
  }

  lemma ValueUnder(node: Json, k: string, q: Path)
    requires node.Obj? && k in node.fields
    ensures ValueAt(node, [k] + q) == ValueAt(node.fields[k], q)
  {
    assert ([k] + q)[1..] == q;
  }

  /** A row for every setting, and no row but a setting's. */
  ghost predicate RowsOfSettings(out: map<string, Leaf>, config: Json) {
    && (forall q :: ValueAt(config, q).Some? && q != [] ==> RowIdOf(q) in out)
    && (forall id :: id in out ==>
          out[id].path != [] && id == RowIdOf(out[id].path) && ValueAt(config, out[id].path) == Some(out[id].value))
  }

  /** No two settings of the configurations share a row. */
  ghost predicate DistinctRows(a: Json, b: Json) {
    forall q, r :: Sets(a, b, q) && Sets(a, b, r) && RowIdOf(q) == RowIdOf(r) ==> q == r
  }

  ghost predicate Sets(a: Json, b: Json, q: Path) {
    q != [] && (ValueAt(a, q).Some? || ValueAt(b, q).Some?)
  }

  /** Names without `/` and NUL are enough. */
  lemma CleanRowsAreDistinct(a: Json, b: Json)
    requires CleanConfig(a) && CleanConfig(b)
    ensures DistinctRows(a, b)
  {
    hide ValueAt, RowIdOf, CleanConfig, CleanPath;
    forall q, r | Sets(a, b, q) && Sets(a, b, r) && RowIdOf(q) == RowIdOf(r) ensures q == r {
      CleanSetting(a, b, q);
      CleanSetting(a, b, r);
      RowIdInjective(q, r);
    }
  }

  lemma CleanSetting(a: Json, b: Json, q: Path)
    requires CleanConfig(a) && CleanConfig(b) && Sets(a, b, q)
    ensures CleanPath(q)
  {
    if ValueAt(a, q).Some? {
      CleanAt(a, q);
    } else {
      CleanAt(b, q);
    }
  }

  /** The table lists every setting exactly when no two share a row. */
  lemma TableIffDistinct(out: map<string, Leaf>, config: Json)
    requires RowsOfSettings(out, config)
    ensures LeafTable(out, config) <==> DistinctRows(config, config)
  {
    hide ValueAt, RowIdOf;
    if DistinctRows(config, config) {
      forall q | ValueAt(config, q).Some? && q != []
        ensures out[RowIdOf(q)] == Leaf(q, ValueAt(config, q).value)
      {
        assert Sets(config, config, q) && Sets(config, config, out[RowIdOf(q)].path);
      }
    }
  }

  /** A section name with a slash in it: both settings have the row `/a/b`, NUL, `c`. */
  lemma SlashedNamesShareARow()
    ensures var inner := Obj(map["b" := Obj(map["c" := Str("2")])]);
      var config := Obj(map["a/b" := Obj(map["c" := Str("1")]), "a" := inner]);
      && ValueAt(config, ["a/b", "c"]) == Some("1") && ValueAt(config, ["a", "b", "c"]) == Some("2")
      && RowIdOf(["a/b", "c"]) == RowIdOf(["a", "b", "c"])
      && !DistinctRows(config, config)
  {
    var inner := Obj(map["b" := Obj(map["c" := Str("2")])]);
    var config := Obj(map["a/b" := Obj(map["c" := Str("1")]), "a" := inner]);
    var p, q := ["a/b", "c"], ["a", "b", "c"];
    assert p[1..] == ["c"] && ["c"][1..] == [] && q[1..] == ["b", "c"] && ["b", "c"][1..] == ["c"];
    assert At(config, p) == Some(Str("1"));
    assert At(inner, ["b", "c"]) == Some(Str("2")) && At(config, q) == At(inner, ["b", "c"]);
    assert p[..1] == ["a/b"] && q[..2] == ["a", "b"] && ["a", "b"][1..] == ["b"];
    assert SectionText(["a/b"]) == "/a/b" == SectionText(["a", "b"]);
    assert Sets(config, config, p) && Sets(config, config, q);
  }

  /** `leaves`: of settings that share a row, some one is kept. */
  method Leaves(config: Json) returns (out: map<string, Leaf>)
    requires config.Obj?
    ensures RowsOfSettings(out, config)
    ensures LeafTable(out, config) <==> DistinctRows(config, config)
  {
    out := LeavesWalk(config, [], map[]);
    forall id | id in out
      ensures out[id].path != [] && id == RowIdOf(out[id].path)
      ensures ValueAt(config, out[id].path) == Some(out[id].value)
    {
      var q :| RowUnder(config, [], config.fields.Keys, q, id, out[id]);
      assert [] + q == q;
    }
    forall q | ValueAt(config, q).Some? && q != [] ensures RowIdOf(q) in out {
      assert q[0] in config.fields.Keys;
      assert [] + q == q;
    }
    TableIffDistinct(out, config);
  }

  method LeavesWalk(node: Json, path: Path, before: map<string, Leaf>) returns (out: map<string, Leaf>)
    requires node.Obj?
    ensures TableGrew(before, out, node, path, node.fields.Keys)
    decreases node
  {
    out := before;
    var left := node.fields.Keys;
    assert TableGrew(before, out, node, path, node.fields.Keys - left);
    hide TableGrew, RowId, Render;
    while left != {}
      invariant left <= node.fields.Keys
      invariant TableGrew(before, out, node, path, node.fields.Keys - left)
      decreases left
    {
      var k :| k in left;
      var v := node.fields[k];
      ghost var mid := out;
      if v.Obj? {
        out := LeavesWalk(v, path + [k], out);
        GrewInside(mid, out, node, path, k);
      } else {
        if !v.Null? {
          out := out[RowId(SectionText(path), k) := Leaf(path + [k], Render(v))];
        }
        GrewLeaf(mid, node, path, k);
      }
      GrewNext(before, mid, out, node, path, node.fields.Keys - left, k);
      assert node.fields.Keys - left + {k} == node.fields.Keys - (left - {k});
      left := left - {k};
    }
    assert node.fields.Keys - left == node.fields.Keys;
  }
}
