/**
 The flat table a host's configuration is shown in (`web/src/hosts/hostConfig.ts`): one row
 per setting, kept up to date layer by layer, against merging the same layers as nested
 documents (RFC 7396).

 Rows are found by text: a row belongs to a section when its section text starts with the
 section's. `RowAt` reads the table by path instead, and everything is proved about it.
 */
module ConfigLayers {
  import opened JsonModel
  import opened Splits
  import opened ConfigTrees
  import opened HostConfigs

  datatype Kind = Bundle | Override

  datatype Layer = Layer(id: string, title: string, kind: Kind, config: Json)

  datatype Provenance = Provenance(value: string, layer: Layer)

  /** One line of the table: without a value it shows a removal; `replaced` lists earlier values in order. */
  datatype EffectiveRow = EffectiveRow(section: string, key: string, value: Option<string>, layer: Layer,
                                       replaced: seq<Provenance>)

  type Rows = map<string, EffectiveRow>

  predicate StartsWith(s: string, t: string) {
    |t| <= |s| && s[..|t|] == t
  }

  // ---- Sections as text ----

  lemma AboveStarts(a: Path, p: Path)
    requires p != [] && Above(p, a)
    ensures StartsWith(SectionText(a), SectionText(p) + "/")
  {
    hide Join;
    var r := a[|p|..];
    assert a == p + r;
    JoinConcat(p, r, '/');
    var t := SectionText(p) + "/";
    assert SectionText(a) == t + Join(r, '/');
    assert (t + Join(r, '/'))[..|t|] == t;
  }

  lemma StartsAbove(a: Path, p: Path)
    requires CleanPath(a) && CleanPath(p) && p != []
    requires StartsWith(SectionText(a), SectionText(p) + "/")
    ensures Above(p, a)
  {
    var s, t := SectionText(a), SectionText(p) + "/";
    assert a != [] by {
      assert |s| >= |t| >= 2;
    }
    hide Join, Split, CleanPath;
    var x := s[|t|..];
    assert s == t + x;
    assert s[1..] == (t + x)[1..] == Join(p, '/') + ("/" + x);
    assert Join(a, '/') == s[1..];
    CleanIsSlashFree(a);
    CleanIsSlashFree(p);
    SplitJoin(a, '/');
    SplitPrefix(p, x, '/');
    assert a[..|p|] == p;
  }

  /** Text finds exactly the sections strictly beneath. */
  lemma StartsWithIsAbove(a: Path, p: Path)
    requires CleanPath(a) && CleanPath(p) && p != []
    ensures StartsWith(SectionText(a), SectionText(p) + "/") <==> Above(p, a)
  {
    hide SectionText, StartsWith;
    if Above(p, a) {
      AboveStarts(a, p);
    }
    if StartsWith(SectionText(a), SectionText(p) + "/") {
      StartsAbove(a, p);
    }
  }

  lemma SameSection(a: Path, b: Path)
    requires CleanPath(a) && CleanPath(b)
    ensures SectionText(a) == SectionText(b) <==> a == b
  {
    SectionSegments(a);
    SectionSegments(b);
  }

  /** The text of a row's own path, as the walk spells it. */
  lemma SpelledPath(q: Path)
    requires q != [] && CleanPath(q)
    ensures var section := SectionText(q[..|q| - 1]);
      (if section == "/" then "" else section) + "/" + q[|q| - 1] == SectionText(q)
  {
    var front, last := q[..|q| - 1], q[|q| - 1];
    assert q == front + [last];
    if front != [] {
      JoinConcat(front, [last], '/');
      assert front[0] == q[0] && Join(front, '/') != "";
      assert "/" + (Join(front, '/') + ("/" + last)) == "/" + Join(front, '/') + "/" + last;
    }
  }

  // ---- Reading the table by path ----

  function PathOf(row: EffectiveRow): (q: Path)
    ensures q != [] && q[|q| - 1] == row.key
  {
    RemovalFor(row.section, row.key)
  }

  function RowFor(q: Path, value: Option<string>, layer: Layer, replaced: seq<Provenance>): EffectiveRow
    requires q != []
  {
    EffectiveRow(SectionText(q[..|q| - 1]), q[|q| - 1], value, layer, replaced)
  }

  predicate Placed(id: string, row: EffectiveRow) {
    var q := PathOf(row);
    CleanPath(q) && id == RowIdOf(q) && row.section == SectionText(q[..|q| - 1])
  }

  predicate RowsOk(rows: Rows) {
    forall id :: id in rows ==> Placed(id, rows[id])
  }

  function RowById(rows: Rows, id: string): Option<EffectiveRow> {
    if id in rows then Some(rows[id]) else None
  }

  function RowAt(rows: Rows, q: Path): Option<EffectiveRow> {
    if q != [] && CleanPath(q) then RowById(rows, RowIdOf(q)) else None
  }

  /** The value a row puts in force, with its layer. */
  function InForce(r: Option<EffectiveRow>): Option<Provenance> {
    if r.Some? && r.value.value.Some? then Some(Provenance(r.value.value.value, r.value.layer)) else None
  }

  predicate IsRemovalRow(r: Option<EffectiveRow>) {
    r.Some? && r.value.value.None?
  }

  /** Every value the row knows of, oldest first, the one in force last. */
  function Chain(r: Option<EffectiveRow>): seq<Provenance> {
    if r.None? then []
    else if InForce(r).Some? then r.value.replaced + [InForce(r).value]
    else r.value.replaced
  }

  lemma PlacedFor(q: Path, value: Option<string>, layer: Layer, replaced: seq<Provenance>)
    requires q != [] && CleanPath(q)
    ensures PathOf(RowFor(q, value, layer, replaced)) == q
    ensures Placed(RowIdOf(q), RowFor(q, value, layer, replaced))
  {
    var front := q[..|q| - 1];
    assert q == front + [q[|q| - 1]];
    SectionSegments(front);
  }

  lemma RowAtItsPath(rows: Rows, q: Path)
    requires RowsOk(rows) && RowAt(rows, q).Some?
    ensures PathOf(RowAt(rows, q).value) == q
    ensures RowAt(rows, q).value.section == SectionText(q[..|q| - 1])
  {
    RowIdInjective(PathOf(RowAt(rows, q).value), q);
  }

  // ---- Removing ----

  /** `hit`: the row is the removed key, or in the removed section, or beneath it. */
  predicate Hit(row: EffectiveRow, p: Path)
    requires p != []
  {
    || (row.section == SectionText(p[..|p| - 1]) && row.key == p[|p| - 1])
    || row.section == SectionText(p)
    || StartsWith(row.section, SectionText(p) + "/")
  }

  predicate InSection(row: EffectiveRow, p: Path) {
    row.section == SectionText(p) || StartsWith(row.section, SectionText(p) + "/")
  }

  lemma SplitsAt(p: Path, q: Path)
    requires p != [] && q != []
    ensures IsPrefix(p, q) <==>
      (p[..|p| - 1] == q[..|q| - 1] && p[|p| - 1] == q[|q| - 1]) || p == q[..|q| - 1] || Above(p, q[..|q| - 1])
  {
    var a := q[..|q| - 1];
    assert q == a + [q[|q| - 1]];
    assert p == p[..|p| - 1] + [p[|p| - 1]];
    if |p| <= |a| {
      assert a[..|p|] == q[..|p|];
    } else if |p| == |q| {
      assert q[..|p|] == q;
    }
  }

  lemma HitIsBeneath(row: EffectiveRow, p: Path)
    requires p != [] && CleanPath(p) && Placed(RowIdOf(PathOf(row)), row)
    ensures Hit(row, p) <==> IsPrefix(p, PathOf(row))
    ensures InSection(row, p) <==> Above(p, PathOf(row))
  {
    hide RowIdOf, PathOf, SectionText, CleanPath, StartsWith;
    var q := PathOf(row);
    var a := q[..|q| - 1];
    CleanFront(p);
    CleanFront(q);
    SameSection(a, p[..|p| - 1]);
    SameSection(a, p);
    StartsWithIsAbove(a, p);
    SplitsAt(p, q);
  }

  lemma CleanFront(q: Path)
    requires q != [] && CleanPath(q)
    ensures CleanPath(q[..|q| - 1])
  {
  }

  function Nulled(row: EffectiveRow, layer: Layer): EffectiveRow {
    row.(value := None, layer := layer, replaced := Chain(Some(row)))
  }

  /** What a removal at `p` leaves of a row. */
  function Purged(row: EffectiveRow, p: Path, layer: Layer): Option<EffectiveRow>
    requires p != []
  {
    if !Hit(row, p) then Some(row)
    else if layer.kind == Override && row.value.Some? then Some(Nulled(row, layer))
    else None
  }

  /** What may become of a row when its path, or a section above it, is removed: a value in
      force goes, leaving the override's removal row behind it; a removal row goes. */
  predicate Cleared(b: Option<EffectiveRow>, a: Option<EffectiveRow>, q: Path, layer: Layer)
    requires q != []
  {
    if InForce(b).Some? then a == if layer.kind == Override then Some(Nulled(b.value, layer)) else None
    else a.None? || (layer.kind == Override && a == Some(RowFor(q, None, layer, [])))
  }

  predicate Removed(before: Rows, after: Rows, p: Path, layer: Layer, q: Path)
    requires q != []
  {
    if IsPrefix(p, q) then Cleared(RowAt(before, q), RowAt(after, q), q, layer)
    else RowAt(after, q) == RowAt(before, q)
  }

  /** Some removal row stands at `p` or beneath it. */
  ghost predicate Shown(rows: Rows, p: Path) {
    exists q :: q != [] && IsPrefix(p, q) && IsRemovalRow(RowAt(rows, q))
  }

  predicate PurgedSoFar(before: Rows, after: Rows, done: set<string>, p: Path, layer: Layer)
    requires p != []
  {
    && after.Keys <= before.Keys
    && forall id :: id in before ==>
         RowById(after, id) == if id in done then Purged(before[id], p, layer) else Some(before[id])
  }

  lemma PurgedKeepsRowsOk(before: Rows, after: Rows, p: Path, layer: Layer)
    requires RowsOk(before) && p != [] && CleanPath(p) && PurgedSoFar(before, after, before.Keys, p, layer)
    ensures RowsOk(after)
  {
    hide RowIdOf, SectionText, CleanPath;
    forall id | id in after ensures Placed(id, after[id]) {
      assert RowById(after, id) == Purged(before[id], p, layer);
      assert PathOf(after[id]) == PathOf(before[id]);
    }
  }

  lemma PurgedAt(before: Rows, after: Rows, p: Path, layer: Layer, q: Path)
    requires RowsOk(before) && p != [] && CleanPath(p) && PurgedSoFar(before, after, before.Keys, p, layer)
    requires q != []
    ensures Removed(before, after, p, layer, q)
    ensures IsPrefix(p, q) ==> (RowAt(after, q).Some? <==> layer.kind == Override && InForce(RowAt(before, q)).Some?)
  {
    hide RowIdOf, PathOf, SectionText, CleanPath, Hit;
    var b := RowAt(before, q);
    if b.Some? {
      RowAtItsPath(before, q);
      assert Placed(RowIdOf(q), b.value);
      HitIsBeneath(b.value, p);
      assert RowAt(after, q) == Purged(b.value, p, layer);
    }
  }

  lemma RowIdParts(p: Path)
    requires p != []
    ensures RowIdOf(p) == RowId(SectionText(p[..|p| - 1]), p[|p| - 1])
  {
  }

  lemma BeneathIsShown(rows: Rows, id: string, p: Path)
    requires RowsOk(rows) && id in rows && rows[id].value.None? && p != [] && CleanPath(p)
    requires Hit(rows[id], p)
    ensures Shown(rows, p)
  {
    hide RowIdOf, PathOf, SectionText, CleanPath, Hit;
    assert Placed(id, rows[id]);
    HitIsBeneath(rows[id], p);
    assert IsRemovalRow(RowAt(rows, PathOf(rows[id])));
  }

  lemma PurgedLeavesNoValue(before: Rows, rows: Rows, id: string, p: Path, layer: Layer)
    requires RowsOk(before) && p != [] && CleanPath(p) && PurgedSoFar(before, rows, before.Keys, p, layer)
    requires id in rows && (id == RowIdOf(p) || InSection(rows[id], p))
    ensures Shown(rows, p)
  {
    PurgedKeepsRowsOk(before, rows, p, layer);
    assert Placed(id, rows[id]) && Placed(id, before[id]);
    if id == RowIdOf(p) {
      RowIdInjective(PathOf(rows[id]), p);
    }
    hide RowIdOf, PathOf, SectionText, CleanPath, StartsWith;
    assert RowById(rows, id) == Purged(before[id], p, layer);
    HitIsBeneath(rows[id], p);
    assert Hit(before[id], p) by {
      assert rows[id].section == before[id].section && rows[id].key == before[id].key;
    }
    BeneathIsShown(rows, id, p);
  }

  /** Adding a removal row at `p` when nothing at or beneath `p` is left. */
  lemma FreshRemoval(before: Rows, mid: Rows, p: Path, layer: Layer)
    requires RowsOk(mid) && p != [] && CleanPath(p) && layer.kind == Override
    requires RowIdOf(p) !in mid
    requires forall q :: q != [] ==> Removed(before, mid, p, layer, q)
    ensures var rows := mid[RowIdOf(p) := RowFor(p, None, layer, [])];
      && RowsOk(rows) && Shown(rows, p)
      && forall q :: q != [] ==> Removed(before, rows, p, layer, q)
  {
    var row := RowFor(p, None, layer, []);
    var rows := mid[RowIdOf(p) := row];
    PlacedFor(p, None, layer, []);
    hide RowIdOf, PathOf, SectionText, CleanPath, Placed;
    assert RowAt(rows, p) == Some(row) && RowAt(mid, p) == None;
    assert IsPrefix(p, p);
    forall q | q != [] ensures Removed(before, rows, p, layer, q) {
      assert Removed(before, mid, p, layer, q);
      if q != p && q != [] && CleanPath(q) && RowIdOf(q) == RowIdOf(p) {
        RowIdInjective(p, q);
      }
    }
  }

  method PurgeRows(before: Rows, p: Path, layer: Layer) returns (rows: Rows)
    requires p != []
    ensures PurgedSoFar(before, rows, before.Keys, p, layer)
  {
    rows := before;
    var left := before.Keys;
    while left != {}
      invariant left <= before.Keys
      invariant PurgedSoFar(before, rows, before.Keys - left, p, layer)
      decreases left
    {
      var id :| id in left;
      var row := rows[id];
      if Hit(row, p) {
        if layer.kind == Override && row.value.Some? {
          var was := Provenance(row.value.value, row.layer);
          rows := rows[id := row.(value := None, layer := layer, replaced := row.replaced + [was])];
        } else {
          rows := rows - {id};
        }
      }
      left := left - {id};
    }
    assert before.Keys - left == before.Keys;
  }

  /** Nothing is in force at `p` or beneath it. */
  ghost predicate NothingInForce(rows: Rows, p: Path) {
    forall q :: q != [] && IsPrefix(p, q) ==> InForce(RowAt(rows, q)).None?
  }

  /** The row at `q`, at or beneath a removed `p`: one that was in force goes, or stays without a
      value in the override's name, the value last among those it replaced; no other stays, and
      only when there was nothing to remove does the override get a new row, at `p` itself. */
  ghost predicate RowRemoved(before: Rows, after: Rows, p: Path, layer: Layer, q: Path)
    requires q != []
  {
    var b, a := RowAt(before, q), RowAt(after, q);
    match InForce(b)
    case Some(was) =>
      a == if layer.kind == Override then Some(RowFor(q, None, layer, b.value.replaced + [was])) else None
    case None =>
      a == if layer.kind == Override && q == p && NothingInForce(before, p) then Some(RowFor(q, None, layer, []))
           else None
  }

  /** What purging leaves of the rows at and beneath `p`. */
  ghost predicate OnlyNulled(before: Rows, mid: Rows, p: Path, layer: Layer) {
    forall q :: q != [] && IsPrefix(p, q) ==>
      && Removed(before, mid, p, layer, q)
      && (RowAt(mid, q).Some? <==> layer.kind == Override && InForce(RowAt(before, q)).Some?)
  }

  /** The rows left at and beneath `p` are those that were in force. */
  lemma LeftIffInForce(before: Rows, mid: Rows, p: Path, layer: Layer)
    requires RowsOk(mid) && p != [] && CleanPath(p) && layer.kind == Override && OnlyNulled(before, mid, p, layer)
    ensures NothingInForce(before, p) <==>
            RowIdOf(p) !in mid && !exists i :: i in mid && InSection(mid[i], p)
  {
    hide RowIdOf, SectionText, CleanPath, StartsWith, Removed, InSection, PathOf;
    assert IsPrefix(p, p);
    forall i | i in mid && InSection(mid[i], p) ensures !NothingInForce(before, p) {
      assert Placed(i, mid[i]);
      HitIsBeneath(mid[i], p);
      assert RowAt(mid, PathOf(mid[i])) == Some(mid[i]);
    }
    forall q | q != [] && IsPrefix(p, q) && InForce(RowAt(before, q)).Some?
      ensures RowIdOf(p) in mid || exists i :: i in mid && InSection(mid[i], p)
    {
      RowAtItsPath(mid, q);
      var i := RowIdOf(q);
      assert i in mid && Placed(i, mid[i]);
      HitIsBeneath(mid[i], p);
      assert q != p ==> Above(p, q);
    }
  }

  lemma NulledRow(before: Rows, q: Path, layer: Layer)
    requires RowsOk(before) && q != [] && InForce(RowAt(before, q)).Some?
    ensures var b := RowAt(before, q);
      Nulled(b.value, layer) == RowFor(q, None, layer, b.value.replaced + [InForce(b).value])
  {
    RowAtItsPath(before, q);
  }

  lemma RowRemovedAt(before: Rows, mid: Rows, rows: Rows, p: Path, layer: Layer, q: Path)
    requires RowsOk(before) && p != [] && CleanPath(p) && OnlyNulled(before, mid, p, layer)
    requires q != [] && IsPrefix(p, q)
    requires rows == if layer.kind == Override && NothingInForce(before, p)
                     then mid[RowIdOf(p) := RowFor(p, None, layer, [])] else mid
    ensures RowRemoved(before, rows, p, layer, q)
  {
    hide RowIdOf, SectionText, CleanPath, PathOf, RowFor, Nulled;
    assert Removed(before, mid, p, layer, q);
    if InForce(RowAt(before, q)).Some? {
      NulledRow(before, q, layer);
    }
    if q != p && CleanPath(q) && RowIdOf(q) == RowIdOf(p) {
      RowIdInjective(p, q);
    }
  }

  method RemoveUnder(before: Rows, p: Path, layer: Layer) returns (rows: Rows)
    requires RowsOk(before) && p != [] && CleanPath(p)
    ensures RowsOk(rows)
    ensures forall q :: q != [] ==> Removed(before, rows, p, layer, q)
    ensures forall q :: q != [] && IsPrefix(p, q) ==> RowRemoved(before, rows, p, layer, q)
    ensures layer.kind == Override ==> Shown(rows, p)
  {
    rows := PurgeRows(before, p, layer);
    PurgedKeepsRowsOk(before, rows, p, layer);
    ghost var mid := rows;
    forall q | q != []
      ensures Removed(before, mid, p, layer, q)
      ensures IsPrefix(p, q) ==> (RowAt(mid, q).Some? <==> layer.kind == Override && InForce(RowAt(before, q)).Some?)
    {
      PurgedAt(before, mid, p, layer, q);
    }
    assert OnlyNulled(before, mid, p, layer);
    hide RowIdOf, SectionText, CleanPath, PathOf, StartsWith, RowRemoved, OnlyNulled, NothingInForce;
    if layer.kind == Override {
      LeftIffInForce(before, mid, p, layer);
      var parent, key := SectionText(p[..|p| - 1]), p[|p| - 1];
      var id := RowId(parent, key);
      RowIdParts(p);
      if id !in rows && !(exists i :: i in rows && InSection(rows[i], p)) {
        rows := rows[id := EffectiveRow(parent, key, None, layer, [])];
        FreshRemoval(before, mid, p, layer);
      } else if id in rows {
        PurgedLeavesNoValue(before, rows, id, p, layer);
      } else {
        var i :| i in rows && InSection(rows[i], p);
        PurgedLeavesNoValue(before, rows, i, p, layer);
      }
    }
    forall q | q != [] && IsPrefix(p, q) ensures RowRemoved(before, rows, p, layer, q) {
      RowRemovedAt(before, mid, rows, p, layer, q);
    }
  }

  // ---- Setting ----

  /** A removal row standing for `section` or a section above it. */
  predicate Standing(row: EffectiveRow, section: string) {
    var removed := (if row.section == "/" then "" else row.section) + "/" + row.key;
    row.value.None? && (section == removed || StartsWith(section, removed + "/"))
  }

  lemma StandingIsAbove(id: string, row: EffectiveRow, path: Path)
    requires Placed(id, row) && CleanPath(path)
    ensures Standing(row, SectionText(path)) <==> row.value.None? && IsPrefix(PathOf(row), path)
  {
    var r := PathOf(row);
    SpelledPath(r);
    hide RowIdOf, PathOf, SectionText, CleanPath, StartsWith;
    SameSection(path, r);
    StartsWithIsAbove(path, r);
    assert |r| == |path| ==> path[..|r|] == path;
  }

  predicate SetAt(before: Rows, after: Rows, p: Path, text: string, layer: Layer, q: Path)
    requires p != []
  {
    if q == p then RowAt(after, q) == Some(RowFor(p, Some(text), layer, Chain(RowAt(before, q))))
    else if IsRemovalRow(RowAt(before, q)) && Above(q, p) then RowAt(after, q) == None
    else RowAt(after, q) == RowAt(before, q)
  }

  predicate SweptSoFar(before: Rows, after: Rows, done: set<string>, section: string) {
    && after.Keys <= before.Keys
    && forall id :: id in before ==>
         RowById(after, id) == if id in done && Standing(before[id], section) then None else Some(before[id])
  }

  lemma SweptAt(before: Rows, after: Rows, path: Path, q: Path)
    requires RowsOk(before) && CleanPath(path) && SweptSoFar(before, after, before.Keys, SectionText(path))
    ensures RowAt(after, q) == if IsRemovalRow(RowAt(before, q)) && IsPrefix(q, path) then None else RowAt(before, q)
  {
    hide RowIdOf, PathOf, SectionText, CleanPath, Standing;
    var b := RowAt(before, q);
    if b.Some? {
      RowAtItsPath(before, q);
      assert Placed(RowIdOf(q), b.value);
      StandingIsAbove(RowIdOf(q), b.value, path);
    }
  }

  lemma SetThere(before: Rows, mid: Rows, path: Path, k: string, text: string, layer: Layer)
    requires RowsOk(before) && CleanPath(path + [k]) && CleanPath(path)
    requires SweptSoFar(before, mid, before.Keys, SectionText(path))
    ensures var p := path + [k];
      var rows := mid[RowIdOf(p) := RowFor(p, Some(text), layer, Chain(RowAt(mid, p)))];
      && RowsOk(rows)
      && forall q :: q != [] ==> SetAt(before, rows, p, text, layer, q)
  {
    var p := path + [k];
    var row := RowFor(p, Some(text), layer, Chain(RowAt(mid, p)));
    var rows := mid[RowIdOf(p) := row];
    PlacedFor(p, Some(text), layer, Chain(RowAt(mid, p)));
    hide RowIdOf, PathOf, SectionText, CleanPath, Placed, Standing;
    forall id | id in rows ensures Placed(id, rows[id]) {
      if id != RowIdOf(p) {
        assert RowById(mid, id) == Some(before[id]);
      }
    }
    forall q | q != [] ensures SetAt(before, rows, p, text, layer, q) {
      SweptAt(before, mid, path, q);
      AboveMeansPrefix(q, path, k);
      if q != p && CleanPath(q) && RowIdOf(q) == RowIdOf(p) {
        RowIdInjective(p, q);
      }
    }
  }

  method SweepRemovals(before: Rows, section: string) returns (rows: Rows)
    ensures SweptSoFar(before, rows, before.Keys, section)
  {
    hide Standing;
    rows := before;
    var left := before.Keys;
    while left != {}
      invariant left <= before.Keys
      invariant SweptSoFar(before, rows, before.Keys - left, section)
      decreases left
    {
      var id :| id in left;
      if Standing(rows[id], section) {
        rows := rows - {id};
      }
      left := left - {id};
    }
    assert before.Keys - left == before.Keys;
  }

  method SetRow(before: Rows, path: Path, k: string, v: Json, layer: Layer) returns (rows: Rows)
    requires RowsOk(before) && CleanPath(path) && CleanPath(path + [k])
    ensures RowsOk(rows)
    ensures forall q :: q != [] ==> SetAt(before, rows, path + [k], Render(v), layer, q)
  {
    hide CleanPath, SweptSoFar, RowsOk, Render, SectionText;
    var section := SectionText(path);
    rows := SweepRemovals(before, section);
    SetThere(before, rows, path, k, Render(v), layer);
    ghost var p := path + [k];
    assert p[..|p| - 1] == path;
    var id := RowId(section, k);
    var replaced := [];
    if id in rows {
      replaced := if rows[id].value.None? then rows[id].replaced
                  else rows[id].replaced + [Provenance(rows[id].value.value, rows[id].layer)];
    }
    rows := rows[id := EffectiveRow(section, k, Some(Render(v)), layer, replaced)];
  }

  // ---- Walking one layer ----

  /** The row as it was, except that a removal row may have stopped meaning anything. */
  predicate Kept(b: Option<EffectiveRow>, a: Option<EffectiveRow>) {
    a == b || (IsRemovalRow(b) && a == None)
  }

  /** What a layer does to the row at `q`, by where its document ends along `at`. */
  predicate Transition(b: Option<EffectiveRow>, a: Option<EffectiveRow>, node: Json, at: Path, layer: Layer, q: Path)
    requires q != []
  {
    match Walk(node, at)
    case OnLeaf(x, rest) =>
      if x.Null? then Cleared(b, a, q, layer)
      else if rest == [] then a == Some(RowFor(q, Some(Render(x)), layer, Chain(b)))
      else a == b
    case OnObject => Kept(b, a)
    case Off => a == b
  }

  /** What walking the keys `ks` of `node`, found at `path`, does to the row at `q`. */
  predicate RowStep(before: Rows, after: Rows, node: Json, path: Path, ks: set<string>, layer: Layer, q: Path)
    requires q != []
  {
    var b, a := RowAt(before, q), RowAt(after, q);
    if Above(path, q) && q[|path|] in ks then Transition(b, a, node, q[|path|..], layer, q)
    else if IsPrefix(q, path) then Kept(b, a)
    else a == b
  }

  ghost predicate RowsWalked(before: Rows, after: Rows, node: Json, path: Path, ks: set<string>, layer: Layer) {
    forall q :: q != [] ==> RowStep(before, after, node, path, ks, layer, q)
  }

  /** Every removal the walked part asks for is still there to be shown. */
  ghost predicate RemovalsShown(rows: Rows, node: Json, path: Path, ks: set<string>) {
    forall q :: q != [] && q[0] in ks && LeafAt(node, q) == Some(Null) ==> Shown(rows, path + q)
  }

  lemma WalkedNext(before: Rows, mid: Rows, after: Rows, node: Json, path: Path, ks: set<string>, k: string,
                   layer: Layer)
    requires k !in ks
    requires RowsWalked(before, mid, node, path, ks, layer) && RowsWalked(mid, after, node, path, {k}, layer)
    ensures RowsWalked(before, after, node, path, ks + {k}, layer)
  {
    hide RowAt, Transition, Walk;
    forall q | q != [] ensures RowStep(before, after, node, path, ks + {k}, layer, q) {
      assert RowStep(before, mid, node, path, ks, layer, q) && RowStep(mid, after, node, path, {k}, layer, q);
    }
  }

  lemma ShownNext(mid: Rows, after: Rows, node: Json, path: Path, ks: set<string>, k: string, layer: Layer)
    requires k !in ks
    requires RowsWalked(mid, after, node, path, {k}, layer)
    requires RemovalsShown(mid, node, path, ks) && RemovalsShown(after, node, path, {k})
    ensures RemovalsShown(after, node, path, ks + {k})
  {
    hide RowAt, Transition;
    forall q | q != [] && q[0] in ks && LeafAt(node, q) == Some(Null) ensures Shown(after, path + q) {
      var w :| w != [] && IsPrefix(path + q, w) && IsRemovalRow(RowAt(mid, w));
      assert w[|path|] == (path + q)[|path|] == q[0];
      assert RowStep(mid, after, node, path, {k}, layer, w);
      assert IsRemovalRow(RowAt(after, w));
    }
  }

  /** The path from `path` on: one key, then the rest. */
  lemma WalkKey(node: Json, k: string, r: Path)
    requires node.Obj? && k in node.fields
    ensures Walk(node, [k] + r) == Walk(node.fields[k], r)
    ensures LeafAt(node, [k] + r) == LeafAt(node.fields[k], r)
  {
    assert ([k] + r)[1..] == r;
    LeafUnder(node, k, r);
  }

  lemma WalkedInside(before: Rows, after: Rows, node: Json, path: Path, k: string, layer: Layer)
    requires node.Obj? && k in node.fields && node.fields[k].Obj?
    requires RowsWalked(before, after, node.fields[k], path + [k], node.fields[k].fields.Keys, layer)
    ensures RowsWalked(before, after, node, path, {k}, layer)
  {
    hide RowAt, Cleared;
    var v := node.fields[k];
    forall q | q != [] ensures RowStep(before, after, node, path, {k}, layer, q) {
      Beyond(path, k, q);
      assert RowStep(before, after, v, path + [k], v.fields.Keys, layer, q);
      if IsPrefix(path + [k], q) {
        var r := q[|path| + 1..];
        WalkKey(node, k, r);
        assert r != [] ==> r[0] == q[|path + [k]|];
      }
    }
  }

  lemma ShownInside(after: Rows, node: Json, path: Path, k: string)
    requires node.Obj? && k in node.fields && node.fields[k].Obj?
    requires RemovalsShown(after, node.fields[k], path + [k], node.fields[k].fields.Keys)
    ensures RemovalsShown(after, node, path, {k})
  {
    hide RowAt;
    var v := node.fields[k];
    forall q | q != [] && q[0] in {k} && LeafAt(node, q) == Some(Null) ensures Shown(after, path + q) {
      var r := q[1..];
      assert q == [k] + r && path + [k] + r == path + q;
      WalkKey(node, k, r);
      assert r != [] && r[0] in v.fields.Keys;
    }
  }

  lemma WalkedSet(before: Rows, after: Rows, node: Json, path: Path, k: string, layer: Layer)
    requires node.Obj? && k in node.fields && !node.fields[k].Obj? && !node.fields[k].Null?
    requires forall q :: q != [] ==> SetAt(before, after, path + [k], Render(node.fields[k]), layer, q)
    ensures RowsWalked(before, after, node, path, {k}, layer)
    ensures RemovalsShown(after, node, path, {k})
  {
    hide RowAt, Chain, Render;
    forall q | q != [] ensures RowStep(before, after, node, path, {k}, layer, q) {
      Beyond(path, k, q);
      AboveMeansPrefix(q, path, k);
      assert SetAt(before, after, path + [k], Render(node.fields[k]), layer, q);
      if IsPrefix(path + [k], q) {
        WalkKey(node, k, q[|path| + 1..]);
        assert q == path + [k] <==> q[|path| + 1..] == [];
      }
    }
    forall q | q != [] && q[0] in {k} ensures LeafAt(node, q) != Some(Null) {
      assert q == [k] + q[1..];
      WalkKey(node, k, q[1..]);
    }
  }

  lemma WalkedRemoval(before: Rows, after: Rows, node: Json, path: Path, k: string, layer: Layer)
    requires node.Obj? && k in node.fields && node.fields[k].Null?
    requires forall q :: q != [] ==> Removed(before, after, path + [k], layer, q)
    ensures RowsWalked(before, after, node, path, {k}, layer)
    ensures Shown(after, path + [k]) ==> RemovalsShown(after, node, path, {k})
  {
    hide RowAt, Cleared;
    forall q | q != [] ensures RowStep(before, after, node, path, {k}, layer, q) {
      Beyond(path, k, q);
      assert Removed(before, after, path + [k], layer, q);
      if IsPrefix(path + [k], q) {
        WalkKey(node, k, q[|path| + 1..]);
      }
    }
    forall q | q != [] && q[0] in {k} && LeafAt(node, q) == Some(Null) ensures q == [k] {
      assert q == [k] + q[1..];
      WalkKey(node, k, q[1..]);
    }
  }

  method LayerWalk(node: Json, path: Path, before: Rows, layer: Layer) returns (rows: Rows)
    requires node.Obj? && CleanConfig(node) && CleanPath(path) && RowsOk(before)
    ensures RowsOk(rows)
    ensures RowsWalked(before, rows, node, path, node.fields.Keys, layer)
    ensures layer.kind == Override ==> RemovalsShown(rows, node, path, node.fields.Keys)
    decreases node
  {
    rows := before;
    var left := node.fields.Keys;
    assert RowsWalked(before, rows, node, path, node.fields.Keys - left, layer);
    assert RemovalsShown(rows, node, path, node.fields.Keys - left);
    hide RowsWalked, RemovalsShown, RowsOk, SetAt, Removed, Shown, CleanPath, Render;
    while left != {}
      invariant left <= node.fields.Keys
      invariant RowsOk(rows)
      invariant RowsWalked(before, rows, node, path, node.fields.Keys - left, layer)
      invariant layer.kind == Override ==> RemovalsShown(rows, node, path, node.fields.Keys - left)
      decreases left
    {
      var k :| k in left;
      var v := node.fields[k];
      ghost var mid := rows;
      CleanStep(node, path, k);
      if v.Null? {
        rows := RemoveUnder(rows, path + [k], layer);
        WalkedRemoval(mid, rows, node, path, k, layer);
      } else if v.Obj? {
        rows := LayerWalk(v, path + [k], rows, layer);
        WalkedInside(mid, rows, node, path, k, layer);
        if layer.kind == Override {
          ShownInside(rows, node, path, k);
        }
      } else {
        rows := SetRow(rows, path, k, v, layer);
        WalkedSet(mid, rows, node, path, k, layer);
      }
      ghost var done := node.fields.Keys - left;
      WalkedNext(before, mid, rows, node, path, done, k, layer);
      if layer.kind == Override {
        ShownNext(mid, rows, node, path, done, k, layer);
      }
      assert done + {k} == node.fields.Keys - (left - {k});
      left := left - {k};
    }
    assert node.fields.Keys - left == node.fields.Keys;
  }
}
