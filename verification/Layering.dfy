/**
 Whole runs of the layering: what the row table says after any list of layers, against the
 document the same layers merge to, and the way back from rows to a document.
 */
module Layerings {
  import opened JsonModel
  import opened Splits
  import opened MergePatches
  import opened ConfigTrees
  import opened HostConfigs
  import opened ConfigLayers

  /** The layers merged in order onto the empty document (section 2 of RFC 7396). */
  function Merged(layers: seq<Layer>): Json {
    if layers == [] then EMPTY_OBJECT
    else RfcMerge(Some(Merged(layers[..|layers| - 1])), layers[|layers| - 1].config)
  }

  predicate Usable(layers: seq<Layer>) {
    forall i :: 0 <= i < |layers| ==> layers[i].config.Obj? && CleanConfig(layers[i].config)
  }

  // ---- What one layer does at a path ----

  predicate Sets(layer: Layer, q: Path) {
    ValueAt(layer.config, q).Some?
  }

  /** A null at `q` or above it. */
  predicate Removes(layer: Layer, q: Path) {
    Walk(layer.config, q).OnLeaf? && Walk(layer.config, q).leaf.Null?
  }

  /** A section at `q`, or a value above it. */
  predicate Clashes(layer: Layer, q: Path) {
    var w := Walk(layer.config, q);
    w.OnObject? || (w.OnLeaf? && !w.leaf.Null? && w.rest != [])
  }

  lemma SetsMeaning(layer: Layer, q: Path)
    ensures Sets(layer, q) <==>
            Walk(layer.config, q).OnLeaf? && !Walk(layer.config, q).leaf.Null? && Walk(layer.config, q).rest == []
    ensures Sets(layer, q) ==> ValueAt(layer.config, q) == Some(Render(Walk(layer.config, q).leaf))
  {
    hide Render;
    WalkMeaning(layer.config, q);
    if LeafAt(layer.config, q).Some? {
      WalkOfLeaf(layer.config, q, q);
    }
    var w := Walk(layer.config, q);
    if w.OnLeaf? && w.rest == [] {
      assert q[..|q| - |w.rest|] == q;
    }
  }

  // ---- What the table says ----

  /** The last layer that sets `q`, unless a later one removes it: the table's answer. */
  function TableSays(layers: seq<Layer>, q: Path): Option<Provenance> {
    if layers == [] then None
    else
      var front, last := layers[..|layers| - 1], layers[|layers| - 1];
      if Sets(last, q) then Some(Provenance(ValueAt(last.config, q).value, last))
      else if Removes(last, q) then None
      else TableSays(front, q)
  }

  /** Every value set at `q` since it was last removed, oldest first. */
  function SinceRemoval(layers: seq<Layer>, q: Path): seq<Provenance> {
    if layers == [] then []
    else
      var front, last := layers[..|layers| - 1], layers[|layers| - 1];
      if Sets(last, q) then SinceRemoval(front, q) + [Provenance(ValueAt(last.config, q).value, last)]
      else if Removes(last, q) then []
      else SinceRemoval(front, q)
  }

  /** `chain` is values layers set at `q`, in the order of the layers. */
  ghost predicate Listed(layers: seq<Layer>, q: Path, chain: seq<Provenance>)
    decreases |chain|
  {
    chain == [] ||
    (exists i :: 0 <= i < |layers| && SetBy(layers[i], q, chain[|chain| - 1]) &&
      Listed(layers[..i], q, chain[..|chain| - 1]))
  }

  predicate SetBy(layer: Layer, q: Path, p: Provenance) {
    p.layer == layer && ValueAt(layer.config, q) == Some(p.value)
  }

  predicate EndsWith<T(==)>(s: seq<T>, t: seq<T>) {
    |t| <= |s| && s[|s| - |t|..] == t
  }

  /** A value that an override, as the last layer, removes: the row stays without a value, in
      the override's name, and has that value and those it replaced to show. */
  predicate ShowsRemoved(layers: seq<Layer>, q: Path, r: Option<EffectiveRow>) {
    layers == [] ||
    var front, last := layers[..|layers| - 1], layers[|layers| - 1];
    last.kind == Override && !Sets(last, q) && Removes(last, q) && TableSays(front, q).Some? ==>
      && r.Some? && r.value.value == None && r.value.layer == last
      && EndsWith(r.value.replaced, SinceRemoval(front, q))
  }

  /** The row at `q` after `layers`: in force as the last word on `q` says, replacing only
      values layers really set, oldest first, and none since the last removal missing; what the
      last layer removed is shown if that is an override. */
  ghost predicate RowSound(layers: seq<Layer>, q: Path, r: Option<EffectiveRow>) {
    && InForce(r) == TableSays(layers, q)
    && Listed(layers, q, Chain(r))
    && EndsWith(Chain(r), SinceRemoval(layers, q))
    && ShowsRemoved(layers, q, r)
  }

  lemma {:induction false} InForceIffSince(layers: seq<Layer>, q: Path)
    ensures TableSays(layers, q).Some? <==> SinceRemoval(layers, q) != []
    decreases |layers|
  {
    hide Sets, Removes;
    if layers == [] {
    } else {
      InForceIffSince(layers[..|layers| - 1], q);
    }
  }

  lemma ListedStays(front: seq<Layer>, last: Layer, q: Path, chain: seq<Provenance>)
    requires Listed(front, q, chain)
    ensures Listed(front + [last], q, chain)
  {
    var layers := front + [last];
    if chain != [] {
      var i :| 0 <= i < |front| && SetBy(front[i], q, chain[|chain| - 1]) &&
        Listed(front[..i], q, chain[..|chain| - 1]);
      assert layers[i] == front[i] && layers[..i] == front[..i];
    }
  }

  lemma ListedGrows(front: seq<Layer>, last: Layer, q: Path, chain: seq<Provenance>, p: Provenance)
    requires Listed(front, q, chain) && SetBy(last, q, p)
    ensures Listed(front + [last], q, chain + [p])
  {
    var layers, longer := front + [last], chain + [p];
    assert longer[..|longer| - 1] == chain && layers[..|front|] == front;
    assert layers[|front|] == last && SetBy(layers[|front|], q, longer[|longer| - 1]);
  }

  lemma EndsWithMore<T>(s: seq<T>, t: seq<T>, x: T)
    requires EndsWith(s, t)
    ensures EndsWith(s + [x], t + [x])
  {
    var a := s + [x];
    assert a[|a| - |t + [x]|..] == s[|s| - |t|..] + [x];
  }

  /** What one layer adds to the three readings of a path. */
  lemma SaysNext(front: seq<Layer>, last: Layer, q: Path)
    ensures var layers := front + [last];
      var p := if Sets(last, q) then [Provenance(ValueAt(last.config, q).value, last)] else [];
      if Sets(last, q) then TableSays(layers, q) == Some(p[0]) && SinceRemoval(layers, q) == SinceRemoval(front, q) + p
      else if Removes(last, q) then TableSays(layers, q) == None && SinceRemoval(layers, q) == []
      else TableSays(layers, q) == TableSays(front, q) && SinceRemoval(layers, q) == SinceRemoval(front, q)
  {
    hide ValueAt, Removes;
    var layers := front + [last];
    assert layers[..|layers| - 1] == front && layers[|layers| - 1] == last;
  }

  lemma SetKeepsRowSound(front: seq<Layer>, last: Layer, q: Path, b: Option<EffectiveRow>, a: Option<EffectiveRow>,
                         p: Provenance)
    requires q != [] && RowSound(front, q, b) && Sets(last, q) && SetBy(last, q, p)
    requires InForce(a) == Some(p) && Chain(a) == Chain(b) + [p]
    ensures RowSound(front + [last], q, a)
  {
    hide ValueAt, Listed, EndsWith, SinceRemoval, TableSays, Chain;
    SaysNext(front, last, q);
    assert (front + [last])[|front|] == last;
    ListedGrows(front, last, q, Chain(b), p);
    EndsWithMore(Chain(b), SinceRemoval(front, q), p);
  }

  lemma ClearKeepsRowSound(front: seq<Layer>, last: Layer, q: Path, b: Option<EffectiveRow>, a: Option<EffectiveRow>)
    requires q != [] && RowSound(front, q, b) && !Sets(last, q) && Removes(last, q)
    requires Cleared(b, a, q, last)
    ensures RowSound(front + [last], q, a)
  {
    hide Sets, Removes, Listed, EndsWith, SinceRemoval, TableSays, SectionText;
    SaysNext(front, last, q);
    ListedStays(front, last, q, Chain(b));
    EmptyListed(front + [last], q);
    EmptyEnd(Chain(a));
    assert (front + [last])[..|front|] == front;
  }

  lemma KeptKeepsRowSound(front: seq<Layer>, last: Layer, q: Path, b: Option<EffectiveRow>, a: Option<EffectiveRow>)
    requires RowSound(front, q, b) && !Sets(last, q) && !Removes(last, q)
    requires Kept(b, a)
    ensures RowSound(front + [last], q, a)
  {
    hide Sets, Removes, Listed, EndsWith, SinceRemoval, TableSays;
    SaysNext(front, last, q);
    ListedStays(front, last, q, Chain(b));
    InForceIffSince(front, q);
    EmptyListed(front + [last], q);
    EmptyEnd(Chain(a));
    assert (front + [last])[|front|] == last;
  }

  /** One layer keeps every row sound. */
  lemma LayerKeepsRowSound(front: seq<Layer>, last: Layer, q: Path, b: Option<EffectiveRow>, a: Option<EffectiveRow>)
    requires q != [] && RowSound(front, q, b)
    requires Transition(b, a, last.config, q, last, q)
    ensures RowSound(front + [last], q, a)
  {
    hide RowSound, Walk, Render, Cleared, ValueAt, Sets, SectionText;
    SetsMeaning(last, q);
    SetsValue(last, q);
    if Sets(last, q) {
      SetKeepsRowSound(front, last, q, b, a, Provenance(ValueAt(last.config, q).value, last));
    } else if Removes(last, q) {
      ClearKeepsRowSound(front, last, q, b, a);
    } else {
      KeptKeepsRowSound(front, last, q, b, a);
    }
  }

  lemma EmptyListed(layers: seq<Layer>, q: Path)
    ensures Listed(layers, q, [])
  {
  }

  lemma EmptyEnd<T>(s: seq<T>)
    ensures EndsWith(s, [])
  {
  }

  lemma TransitionAt(before: Rows, after: Rows, layer: Layer, q: Path)
    requires layer.config.Obj? && q != []
    requires RowsWalked(before, after, layer.config, [], layer.config.fields.Keys, layer)
    ensures Transition(RowAt(before, q), RowAt(after, q), layer.config, q, layer, q)
  {
    hide RowAt, Cleared, Kept;
    assert RowStep(before, after, layer.config, [], layer.config.fields.Keys, layer, q);
    assert q[0..] == q;
    assert q[0] !in layer.config.fields.Keys ==> Walk(layer.config, q) == Off;
  }

  lemma EmptyTableSound(q: Path)
    requires q != []
    ensures RowSound([], q, RowAt(map[], q))
  {
  }

  lemma LayerKeepsRows(layers: seq<Layer>, i: nat, before: Rows, after: Rows)
    requires i < |layers| && layers[i].config.Obj?
    requires RowsWalked(before, after, layers[i].config, [], layers[i].config.fields.Keys, layers[i])
    requires forall q :: q != [] ==> RowSound(layers[..i], q, RowAt(before, q))
    ensures forall q :: q != [] ==> RowSound(layers[..i + 1], q, RowAt(after, q))
  {
    hide RowSound, RowAt, RowsWalked;
    assert layers[..i + 1] == layers[..i] + [layers[i]];
    forall q | q != [] ensures RowSound(layers[..i + 1], q, RowAt(after, q)) {
      TransitionAt(before, after, layers[i], q);
      LayerKeepsRowSound(layers[..i], layers[i], q, RowAt(before, q), RowAt(after, q));
    }
  }

  /**
   The table `layerConfigs` builds, before its rows are listed. Every path's row is sound after all
   the layers, and every removal the last override makes has a row to show it.
   */
  method LayerRows(layers: seq<Layer>) returns (rows: Rows)
    requires Usable(layers)
    ensures RowsOk(rows)
    ensures forall q :: q != [] ==> RowSound(layers, q, RowAt(rows, q))
    ensures layers != [] && layers[|layers| - 1].kind == Override ==>
      RemovalsShown(rows, layers[|layers| - 1].config, [], layers[|layers| - 1].config.fields.Keys)
  {
    rows := map[];
    forall q | q != [] ensures RowSound(layers[..0], q, RowAt(rows, q)) {
      EmptyTableSound(q);
    }
    assert RowsOk(rows);
    hide RowSound, RowAt, RowsWalked, RemovalsShown, CleanConfig, CleanPath, RowsOk;
    for i := 0 to |layers|
      invariant RowsOk(rows)
      invariant forall q :: q != [] ==> RowSound(layers[..i], q, RowAt(rows, q))
      invariant i > 0 && layers[i - 1].kind == Override ==>
        RemovalsShown(rows, layers[i - 1].config, [], layers[i - 1].config.fields.Keys)
    {
      var layer := layers[i];
      ghost var before := rows;
      rows := LayerWalk(layer.config, [], rows, layer);
      LayerKeepsRows(layers, i, before, rows);
    }
    assert layers[..|layers|] == layers;
  }

  // ---- Listing the rows ----

  /** A way to order text, such as `localeCompare`; different texts may rank alike. */
  ghost predicate Collation(le: (string, string) -> bool) {
    && (forall a, b :: le(a, b) || le(b, a))
    && (forall a, b, c :: le(a, b) && le(b, c) ==> le(a, c))
  }

  /** By section, and within one by key. */
  predicate NotAfter(a: EffectiveRow, b: EffectiveRow, le: (string, string) -> bool) {
    le(a.section, b.section) && (le(b.section, a.section) ==> le(a.key, b.key))
  }

  predicate InOrder(rows: seq<EffectiveRow>, le: (string, string) -> bool) {
    forall i, j :: 0 <= i < j < |rows| ==> NotAfter(rows[i], rows[j], le)
  }

  /** `out` holds the rows `ids` of the table, each once. */
  ghost predicate Listing(out: seq<EffectiveRow>, rows: Rows, ids: set<string>) {
    && ids <= rows.Keys && |out| == |ids|
    && (forall id :: id in ids ==> rows[id] in out)
    && (forall x :: x in out ==> RowAmong(rows, ids, x))
  }

  ghost predicate RowAmong(rows: Rows, ids: set<string>, x: EffectiveRow) {
    exists id :: id in ids && id in rows && rows[id] == x
  }

  function InsertRow(r: EffectiveRow, s: seq<EffectiveRow>, le: (string, string) -> bool): seq<EffectiveRow> {
    if s == [] || NotAfter(r, s[0], le) then [r] + s else [s[0]] + InsertRow(r, s[1..], le)
  }

  lemma NotAfterOrder(a: EffectiveRow, b: EffectiveRow, c: EffectiveRow, le: (string, string) -> bool)
    requires Collation(le)
    ensures NotAfter(a, b, le) || NotAfter(b, a, le)
    ensures NotAfter(a, b, le) && NotAfter(b, c, le) ==> NotAfter(a, c, le)
  {
  }

  lemma {:induction false} InsertRowKeepsOrder(r: EffectiveRow, s: seq<EffectiveRow>, le: (string, string) -> bool)
    requires Collation(le) && InOrder(s, le)
    ensures InOrder(InsertRow(r, s, le), le)
    ensures |InsertRow(r, s, le)| == |s| + 1
    ensures forall x :: x in InsertRow(r, s, le) <==> x == r || x in s
  {
    hide NotAfter, Collation;
    if s == [] {
    } else if NotAfter(r, s[0], le) {
      forall j | 0 <= j < |s| ensures NotAfter(r, s[j], le) {
        NotAfterOrder(r, s[0], s[j], le);
      }
    } else {
      var rest := InsertRow(r, s[1..], le);
      InsertRowKeepsOrder(r, s[1..], le);
      NotAfterOrder(r, s[0], r, le);
      assert s == [s[0]] + s[1..];
      forall j | 0 <= j < |rest| ensures NotAfter(s[0], rest[j], le) {
        assert rest[j] == r || rest[j] in s[1..];
      }
    }
  }

  lemma ListingNone(rows: Rows, le: (string, string) -> bool)
    ensures Listing([], rows, {}) && InOrder([], le)
  {
  }

  lemma ListingMore(out: seq<EffectiveRow>, rows: Rows, ids: set<string>, id: string, more: seq<EffectiveRow>)
    requires Listing(out, rows, ids) && id in rows && id !in ids
    requires |more| == |out| + 1 && forall x :: x in more <==> x == rows[id] || x in out
    ensures Listing(more, rows, ids + {id})
  {
    forall x | x in more ensures RowAmong(rows, ids + {id}, x) {
      if x == rows[id] {
        assert id in ids + {id};
      } else {
        var other :| other in ids && other in rows && rows[other] == x;
        assert other in ids + {id};
      }
    }
  }

  /** The rows sorted as they are shown. Sorting belongs to the language; any order of
      visiting the table will do. */
  method ListRows(rows: Rows, le: (string, string) -> bool) returns (out: seq<EffectiveRow>)
    requires Collation(le)
    ensures Listing(out, rows, rows.Keys) && InOrder(out, le)
  {
    hide Collation, InOrder, InsertRow, Listing;
    out := [];
    var left := rows.Keys;
    assert rows.Keys - left == {};
    ListingNone(rows, le);
    while left != {}
      invariant left <= rows.Keys
      invariant Listing(out, rows, rows.Keys - left) && InOrder(out, le)
      decreases left
    {
      var id :| id in left;
      InsertRowKeepsOrder(rows[id], out, le);
      ListingMore(out, rows, rows.Keys - left, id, InsertRow(rows[id], out, le));
      assert rows.Keys - left + {id} == rows.Keys - (left - {id});
      out := InsertRow(rows[id], out, le);
      left := left - {id};
    }
    assert rows.Keys - left == rows.Keys;
  }

  /** `layerConfigs`: the table, and its rows as they are listed. */
  method LayerConfigs(layers: seq<Layer>, le: (string, string) -> bool)
    returns (out: seq<EffectiveRow>, rows: Rows)
    requires Usable(layers) && Collation(le)
    ensures RowsOk(rows)
    ensures forall q :: q != [] ==> RowSound(layers, q, RowAt(rows, q))
    ensures layers != [] && layers[|layers| - 1].kind == Override ==>
      RemovalsShown(rows, layers[|layers| - 1].config, [], layers[|layers| - 1].config.fields.Keys)
    ensures Listing(out, rows, rows.Keys) && InOrder(out, le)
    ensures forall i, j :: 0 <= i < j < |out| ==>
      le(out[i].section, out[j].section) && (out[i].section == out[j].section ==> le(out[i].key, out[j].key))
  {
    hide RowSound, RowAt, RowsOk, RemovalsShown, CleanConfig, Listing;
    rows := LayerRows(layers);
    out := ListRows(rows, le);
  }

  // ---- What merging says ----

  /** The value of the setting a row table has in force. */
  function ValueOf(p: Option<Provenance>): Option<string> {
    if p.Some? then Some(p.value.value) else None
  }

  lemma MergedNext(front: seq<Layer>, last: Layer, q: Path)
    requires last.config.Obj? && q != []
    ensures ValueAt(Merged(front + [last]), q) ==
      if Sets(last, q) then ValueAt(last.config, q)
      else if Removes(last, q) || Clashes(last, q) then None
      else ValueAt(Merged(front), q)
  {
    hide Render, RfcMerge;
    var layers := front + [last];
    assert layers[..|layers| - 1] == front;
    MergeLeaf(Some(Merged(front)), last.config, q);
    SetsMeaning(last, q);
  }

  /** A layer sets `q`, a later one puts a section there or a value above it, and none
      after the first sets or removes `q`. */
  ghost predicate Shadowed(layers: seq<Layer>, q: Path) {
    exists j, i :: 0 <= j < i < |layers| && Sets(layers[j], q) && Clashes(layers[i], q) && Untouched(layers, j + 1, q)
  }

  /** From the layer numbered `from` on, none sets or removes `q`. */
  predicate Untouched(layers: seq<Layer>, from: nat, q: Path) {
    forall k :: from <= k < |layers| ==> !Sets(layers[k], q) && !Removes(layers[k], q)
  }

  lemma {:induction false} SaidByALayer(layers: seq<Layer>, q: Path) returns (j: nat)
    requires TableSays(layers, q).Some?
    ensures j < |layers| && Sets(layers[j], q) && Untouched(layers, j + 1, q)
    decreases |layers|
  {
    hide Sets, Removes;
    var front, last := layers[..|layers| - 1], layers[|layers| - 1];
    if Sets(last, q) {
      j := |layers| - 1;
    } else {
      j := SaidByALayer(front, q);
      forall k | j + 1 <= k < |layers| ensures !Sets(layers[k], q) && !Removes(layers[k], q) {
        assert k < |front| ==> front[k] == layers[k];
      }
    }
  }

  lemma {:induction false} UntouchedSays(layers: seq<Layer>, j: nat, q: Path)
    requires j < |layers| && Sets(layers[j], q) && Untouched(layers, j + 1, q)
    ensures TableSays(layers, q) == Some(Provenance(ValueAt(layers[j].config, q).value, layers[j]))
    decreases |layers|
  {
    hide Sets, Removes;
    var front := layers[..|layers| - 1];
    if j >= |front| {
    } else {
      assert forall k :: 0 <= k < |front| ==> front[k] == layers[k];
      assert !Sets(layers[|layers| - 1], q) && !Removes(layers[|layers| - 1], q);
      UntouchedSays(front, j, q);
    }
  }

  lemma ShadowedBefore(front: seq<Layer>, last: Layer, q: Path)
    requires Clashes(last, q) ==> !Sets(last, q) && !Removes(last, q)
    requires Shadowed(front + [last], q)
    ensures !Sets(last, q) && !Removes(last, q)
    ensures if Clashes(last, q) then TableSays(front, q).Some? else Shadowed(front, q)
  {
    hide Sets, Removes, Clashes, TableSays;
    var layers := front + [last];
    var j, i :| 0 <= j < i < |layers| && Sets(layers[j], q) && Clashes(layers[i], q) && Untouched(layers, j + 1, q);
    assert layers[|front|] == last;
    assert forall k :: 0 <= k < |front| ==> layers[k] == front[k];
    assert Untouched(front, j + 1, q);
    UntouchedSays(front, j, q);
    if !Clashes(last, q) {
      assert i < |front| && Clashes(front[i], q);
    }
  }

  lemma StaysShadowed(front: seq<Layer>, last: Layer, q: Path)
    requires !Sets(last, q) && !Removes(last, q)
    requires if Clashes(last, q) then TableSays(front, q).Some? else Shadowed(front, q)
    ensures Shadowed(front + [last], q)
  {
    hide Sets, Removes, Clashes, TableSays;
    var layers := front + [last];
    assert layers[|front|] == last;
    if Clashes(last, q) {
      var j := SaidByALayer(front, q);
      assert layers[j] == front[j] && Untouched(layers, j + 1, q);
    } else {
      var j, i :| 0 <= j < i < |front| && Sets(front[j], q) && Clashes(front[i], q) && Untouched(front, j + 1, q);
      assert layers[j] == front[j] && layers[i] == front[i] && Untouched(layers, j + 1, q);
    }
  }

  lemma ShadowedNext(front: seq<Layer>, last: Layer, q: Path)
    requires Clashes(last, q) ==> !Sets(last, q) && !Removes(last, q)
    ensures Shadowed(front + [last], q) <==>
      !Sets(last, q) && !Removes(last, q) && if Clashes(last, q) then TableSays(front, q).Some? else Shadowed(front, q)
  {
    hide Sets, Removes, Clashes, TableSays, Shadowed;
    if Shadowed(front + [last], q) {
      ShadowedBefore(front, last, q);
    } else if !Sets(last, q) && !Removes(last, q)
              && if Clashes(last, q) then TableSays(front, q).Some? else Shadowed(front, q) {
      StaysShadowed(front, last, q);
    }
  }

  lemma ShadowedIsSaid(layers: seq<Layer>, q: Path)
    requires Shadowed(layers, q)
    ensures TableSays(layers, q).Some?
  {
    hide Sets, Removes, Clashes;
    var j, i :| 0 <= j < i < |layers| && Sets(layers[j], q) && Clashes(layers[i], q) && Untouched(layers, j + 1, q);
    UntouchedSays(layers, j, q);
  }

  /** The table and the merged document agree about `q` exactly when no later layer put a
      section in its place or a value above it. */
  lemma {:induction false} TableAgreesIff(layers: seq<Layer>, q: Path)
    requires Usable(layers) && q != []
    ensures Shadowed(layers, q) ==> ValueAt(Merged(layers), q) == None && TableSays(layers, q).Some?
    ensures ValueOf(TableSays(layers, q)) == ValueAt(Merged(layers), q) <==> !Shadowed(layers, q)
    decreases |layers|
  {
    if layers == [] {
      assert ValueAt(EMPTY_OBJECT, q) == None;
    } else {
      hide ValueAt, CleanConfig, Merged;
      var front, last := layers[..|layers| - 1], layers[|layers| - 1];
      assert layers == front + [last];
      assert Usable(front) by {
        assert forall i :: 0 <= i < |front| ==> front[i] == layers[i];
      }
      TableAgreesIff(front, q);
      MergedNext(front, last, q);
      SetsMeaning(last, q);
      hide Sets;
      ShadowedNext(front, last, q);
      if Shadowed(layers, q) {
        ShadowedIsSaid(layers, q);
      }
    }
  }

  /** No path is a value in one layer and a section in another. */
  ghost predicate ShapeCompatible(layers: seq<Layer>) {
    forall i, j, q :: 0 <= i < |layers| && 0 <= j < |layers| && Sets(layers[i], q) ==> !IsSection(layers[j], q)
  }

  predicate IsSection(layer: Layer, q: Path) {
    At(layer.config, q).Some? && At(layer.config, q).value.Obj?
  }

  lemma SectionsAbove(layer: Layer, q: Path)
    requires Sets(layer, q)
    ensures forall p :: Above(p, q) ==> IsSection(layer, p)
  {
    forall p | Above(p, q) ensures IsSection(layer, p) {
      AboveIsObject(layer.config, p, q);
    }
  }

  lemma ClashMeaning(layer: Layer, q: Path)
    requires Clashes(layer, q)
    ensures IsSection(layer, q) || exists p :: Above(p, q) && Sets(layer, p)
  {
    hide Render, Walk, At;
    WalkMeaning(layer.config, q);
    WalkOfObject(layer.config, q);
    var w := Walk(layer.config, q);
    if w.OnLeaf? {
      var p := q[..|q| - |w.rest|];
      assert Above(p, q);
      assert Sets(layer, p);
    }
  }

  lemma CompatiblePair(lower: Layer, upper: Layer, q: Path)
    requires forall p :: Sets(lower, p) ==> !IsSection(upper, p)
    requires forall p :: Sets(upper, p) ==> !IsSection(lower, p)
    requires Sets(lower, q)
    ensures !Clashes(upper, q)
  {
    hide Sets, IsSection, Clashes;
    SectionsAbove(lower, q);
    if Clashes(upper, q) {
      ClashMeaning(upper, q);
    }
  }

  lemma CompatibleIsNeverShadowed(layers: seq<Layer>, q: Path)
    requires ShapeCompatible(layers)
    ensures !Shadowed(layers, q)
  {
    hide Sets, IsSection, Clashes;
    forall j, i | 0 <= j < i < |layers| && Sets(layers[j], q) ensures !Clashes(layers[i], q) {
      CompatiblePair(layers[j], layers[i], q);
    }
  }

  /** `p` is what the last layer to set `q` set, and nothing after it removes `q`. */
  ghost predicate LastSetter(layers: seq<Layer>, q: Path, p: Provenance) {
    exists j :: 0 <= j < |layers| && SetBy(layers[j], q, p) && Untouched(layers, j + 1, q)
  }

  lemma RemovesMeaning(layer: Layer, q: Path)
    ensures Removes(layer, q) <==> exists p :: IsPrefix(p, q) && LeafAt(layer.config, p) == Some(Null)
  {
    WalkMeaning(layer.config, q);
    var w := Walk(layer.config, q);
    if w.OnLeaf? {
      assert IsPrefix(q[..|q| - |w.rest|], q);
    }
    if p :| IsPrefix(p, q) && LeafAt(layer.config, p) == Some(Null) {
      WalkOfLeaf(layer.config, p, q);
    }
  }

  /** The layer has a setting at `q`, or a null there or above. */
  ghost predicate Speaks(layer: Layer, q: Path) {
    SettingAt(layer.config, q).Some? || exists p :: IsPrefix(p, q) && LeafAt(layer.config, p) == Some(Null)
  }

  /** A row is in force exactly when some layer has a setting at its path and no later one has
      a setting or a null there, or a null above; it then has the text of that setting. */
  lemma RowsInForce(layers: seq<Layer>, r: Option<EffectiveRow>, q: Path, p: Provenance)
    requires RowSound(layers, q, r)
    ensures InForce(r) == Some(p) <==>
            exists j :: 0 <= j < |layers| && layers[j] == p.layer
                        && SettingAt(layers[j].config, q).Some?
                        && p.value == Render(SettingAt(layers[j].config, q).value)
                        && forall k :: j < k < |layers| ==> !Speaks(layers[k], q)
  {
    forall k | 0 <= k < |layers|
      ensures Speaks(layers[k], q) <==> Sets(layers[k], q) || Removes(layers[k], q)
    {
      RemovesMeaning(layers[k], q);
    }
    hide Render, Walk, LeafAt, Removes, Speaks, TableSays, Listed, SinceRemoval, EndsWith, ShowsRemoved;
    if InForce(r) == Some(p) {
      var j := SaidByALayer(layers, q);
      UntouchedSays(layers, j, q);
    }
    if j :| 0 <= j < |layers| && layers[j] == p.layer
            && SettingAt(layers[j].config, q).Some?
            && p.value == Render(SettingAt(layers[j].config, q).value)
            && forall k :: j < k < |layers| ==> !Speaks(layers[k], q) {
      UntouchedSays(layers, j, q);
    }
  }

  /** For shape-compatible layers the rows in force are exactly the merged document's
      settings, each naming the last layer that set its path. */
  lemma RowsAreTheMergedSettings(layers: seq<Layer>, rows: Rows, q: Path)
    requires Usable(layers) && ShapeCompatible(layers) && q != []
    requires RowSound(layers, q, RowAt(rows, q))
    ensures ValueOf(InForce(RowAt(rows, q))) == ValueAt(Merged(layers), q)
    ensures InForce(RowAt(rows, q)).Some? ==> LastSetter(layers, q, InForce(RowAt(rows, q)).value)
  {
    hide ValueAt, CleanConfig, Merged, Sets, Removes;
    CompatibleIsNeverShadowed(layers, q);
    TableAgreesIff(layers, q);
    if TableSays(layers, q).Some? {
      var j := SaidByALayer(layers, q);
      UntouchedSays(layers, j, q);
      SetsValue(layers[j], q);
      assert SetBy(layers[j], q, InForce(RowAt(rows, q)).value);
    }
  }

  lemma SetsValue(layer: Layer, q: Path)
    ensures Sets(layer, q) <==> ValueAt(layer.config, q).Some?
  {
  }

  function Fragment(id: string, config: Json): Layer {
    Layer(id, id, Bundle, config)
  }

  /** Without it they can differ: a value in one layer made a section by the next keeps its
      row, although merging replaces it. */
  lemma SectionOverValueKeepsItsRow()
    ensures var below, above := Obj(map["a" := Str("1")]), Obj(map["a" := Obj(map["b" := Str("2")])]);
      var layers := [Fragment("one", below), Fragment("two", above)];
      && Usable(layers)
      && ValueOf(TableSays(layers, ["a"])) == Some("1")
      && ValueAt(Merged(layers), ["a"]) == None
      && ValueAt(Merged(layers), ["a", "b"]) == Some("2")
  {
    var below, above := Obj(map["a" := Str("1")]), Obj(map["a" := Obj(map["b" := Str("2")])]);
    var one, two := Fragment("one", below), Fragment("two", above);
    var layers := [one, two];
    assert layers == [one] + [two];
    assert Walk(above, ["a"]) == OnObject by {
      assert ["a"][1..] == [];
    }
    assert Walk(below, ["a"]) == OnLeaf(Str("1"), []) by {
      assert ["a"][1..] == [];
    }
    assert Walk(above, ["a", "b"]) == OnLeaf(Str("2"), []) by {
      assert ["a", "b"][1..] == ["b"] && ["b"][1..] == [];
      assert Walk(above, ["a", "b"]) == Walk(above.fields["a"], ["b"]) == Walk(Str("2"), []);
    }
    SetsMeaning(one, ["a"]);
    SetsMeaning(two, ["a"]);
    SetsMeaning(two, ["a", "b"]);
    assert Sets(layers[0], ["a"]) && Clashes(layers[1], ["a"]) && Untouched(layers, 1, ["a"]);
    UntouchedSays(layers, 0, ["a"]);
    TableAgreesIff(layers, ["a"]);
    MergedNext([one], two, ["a", "b"]);
  }

  // ---- Back to a document ----

  /** Walks to the section of `path`, making sections on the way, and sets the last key. */
  function SetPath(v: Json, path: Path, value: string): Json
    requires path != []
    decreases |path|
  {
    var m := if v.Obj? then v.fields else map[];
    if |path| == 1 then Obj(m[path[0] := Str(value)])
    else Obj(m[path[0] := SetPath(if path[0] in m then m[path[0]] else EMPTY_OBJECT, path[1..], value)])
  }

  lemma LeafAtKey(m: map<string, Json>, q: Path)
    requires q != []
    ensures LeafAt(Obj(m), q) == if q[0] in m then LeafAt(m[q[0]], q[1..]) else None
  {
  }

  lemma {:induction false} SetPathLeaf(v: Json, path: Path, value: string, q: Path)
    requires path != [] && q != []
    ensures LeafAt(SetPath(v, path, value), q) ==
      if q == path then Some(Str(value))
      else if IsPrefix(path, q) || IsPrefix(q, path) then None
      else LeafAt(if v.Obj? then v else EMPTY_OBJECT, q)
    decreases |path|
  {
    var m := if v.Obj? then v.fields else map[];
    LeafAtKey(m, q);
    LeafAtKey(SetPath(v, path, value).fields, q);
    FirstKeys(path, q);
    FirstKeys(q, path);
    if q[0] == path[0] && |path| > 1 {
      var child := if path[0] in m then m[path[0]] else EMPTY_OBJECT;
      if q[1..] == [] {
        assert SetPath(child, path[1..], value).Obj?;
      } else {
        SetPathLeaf(child, path[1..], value, q[1..]);
      }
    }
  }

  lemma {:induction false} SetPathPruned(v: Json, path: Path, value: string)
    requires path != [] && Pruned(v)
    ensures Pruned(SetPath(v, path, value)) && SetPath(v, path, value) != EMPTY_OBJECT
    decreases |path|
  {
    var m := if v.Obj? then v.fields else map[];
    var w := SetPath(v, path, value);
    assert path[0] in w.fields;
    if |path| <= 1 {
    } else {
      SetPathPruned(if path[0] in m then m[path[0]] else EMPTY_OBJECT, path[1..], value);
    }
  }

  /** The row sets something at `q`, above it or beneath it. */
  predicate Touches(row: EffectiveRow, q: Path) {
    row.value.Some? && (IsPrefix(PathOf(row), q) || IsPrefix(q, PathOf(row)))
  }

  /** What rows taken one after another leave at `q`: the last to touch it decides. */
  function LastWord(rows: seq<EffectiveRow>, q: Path): Option<string> {
    if rows == [] then None
    else
      var front, last := rows[..|rows| - 1], rows[|rows| - 1];
      if !Touches(last, q) then LastWord(front, q)
      else if PathOf(last) == q then last.value
      else None
  }

  /** The row `i` is the last to touch `q`. */
  predicate LastTouch(rows: seq<EffectiveRow>, q: Path, i: nat) {
    i < |rows| && Touches(rows[i], q) && forall j :: i < j < |rows| ==> !Touches(rows[j], q)
  }

  lemma {:induction false} LastTouchDecides(rows: seq<EffectiveRow>, q: Path, i: nat)
    requires LastTouch(rows, q, i)
    ensures LastWord(rows, q) == if PathOf(rows[i]) == q then rows[i].value else None
    decreases |rows|
  {
    hide Touches, PathOf;
    var front := rows[..|rows| - 1];
    if i < |front| {
      assert !Touches(rows[|rows| - 1], q);
      assert LastTouch(front, q, i);
      LastTouchDecides(front, q, i);
    }
  }

  lemma {:induction false} UntouchedSaysNothing(rows: seq<EffectiveRow>, q: Path)
    requires forall i :: 0 <= i < |rows| ==> !Touches(rows[i], q)
    ensures LastWord(rows, q) == None
  {
    hide Touches, PathOf;
    if rows == [] {
    } else {
      UntouchedSaysNothing(rows[..|rows| - 1], q);
    }
  }

  lemma {:induction false} FindLastTouch(rows: seq<EffectiveRow>, q: Path, k: nat) returns (i: nat)
    requires k < |rows| && Touches(rows[k], q)
    ensures k <= i && LastTouch(rows, q, i)
    decreases |rows| - k
  {
    hide Touches, PathOf;
    if LastTouch(rows, q, k) {
      i := k;
    } else {
      var j :| k < j < |rows| && Touches(rows[j], q);
      i := FindLastTouch(rows, q, j);
    }
  }

  /** A setting comes out exactly when some row sets it and no later one touches its path. */
  lemma LastWordMeaning(rows: seq<EffectiveRow>, q: Path, v: string)
    ensures LastWord(rows, q) == Some(v) <==>
            exists i: nat :: LastTouch(rows, q, i) && PathOf(rows[i]) == q && rows[i].value == Some(v)
  {
    hide Touches, PathOf;
    if i: nat :| LastTouch(rows, q, i) && PathOf(rows[i]) == q && rows[i].value == Some(v) {
      LastTouchDecides(rows, q, i);
    }
    if k :| 0 <= k < |rows| && Touches(rows[k], q) {
      var i := FindLastTouch(rows, q, k);
      LastTouchDecides(rows, q, i);
      OneLastTouch(rows, q, i);
    } else {
      UntouchedSaysNothing(rows, q);
    }
  }

  lemma OneLastTouch(rows: seq<EffectiveRow>, q: Path, i: nat)
    requires LastTouch(rows, q, i)
    ensures i < |rows| && forall j: nat :: LastTouch(rows, q, j) ==> j == i
  {
    hide Touches, PathOf;
  }

  function AsText(v: Option<string>): Option<Json> {
    if v.Some? then Some(Str(v.value)) else None
  }

  lemma LastWordSnoc(rows: seq<EffectiveRow>, row: EffectiveRow, q: Path)
    ensures LastWord(rows + [row], q) ==
      if !Touches(row, q) then LastWord(rows, q) else if PathOf(row) == q then row.value else None
  {
    hide Touches, PathOf;
    assert (rows + [row])[..|rows + [row]| - 1] == rows;
  }

  lemma HoldsNext(doc: Json, rows: seq<EffectiveRow>, row: EffectiveRow, q: Path)
    requires doc.Obj? && q != [] && LeafAt(doc, q) == AsText(LastWord(rows, q))
    ensures var next := if row.value.None? then doc else SetPath(doc, PathOf(row), row.value.value);
      LeafAt(next, q) == AsText(LastWord(rows + [row], q))
  {
    LastWordSnoc(rows, row, q);
    if row.value.Some? {
      SetPathLeaf(doc, PathOf(row), row.value.value, q);
    }
  }

  /** `configFromRows`: the rows one after another, as one document without empty sections. */
  method ConfigFromRows(rows: seq<EffectiveRow>) returns (doc: Json)
    ensures doc.Obj? && Pruned(doc)
    ensures forall q :: q != [] ==> LeafAt(doc, q) == AsText(LastWord(rows, q))
  {
    doc := EMPTY_OBJECT;
    for i := 0 to |rows|
      invariant doc.Obj? && Pruned(doc)
      invariant forall q :: q != [] ==> LeafAt(doc, q) == AsText(LastWord(rows[..i], q))
    {
      hide LastWord, LeafAt, PathOf, Pruned, AsText, SetPath;
      var row := rows[i];
      assert rows[..i + 1] == rows[..i] + [row];
      ghost var next := if row.value.None? then doc else SetPath(doc, PathOf(row), row.value.value);
      forall q | q != [] ensures LeafAt(next, q) == AsText(LastWord(rows[..i + 1], q)) {
        HoldsNext(doc, rows[..i], row, q);
      }
      if row.value.Some? {
        SetPathPruned(doc, PathOf(row), row.value.value);
        doc := SetPath(doc, PathOf(row), row.value.value);
      }
    }
    assert rows[..|rows|] == rows;
  }

  // ---- The rows as they are listed ----

  /** No setting in force lies beneath another. */
  ghost predicate SettingsDoNotNest(rows: Rows) {
    forall p, q :: p != [] && q != [] && InForce(RowAt(rows, p)).Some? && InForce(RowAt(rows, q)).Some? ==> !Above(p, q)
  }

  ghost predicate SettingBeneath(rows: Rows, q: Path) {
    exists r :: Above(q, r) && InForce(RowAt(rows, r)).Some?
  }

  /** The value in force at `q`, unless something beneath it is. */
  ghost function DeepestValue(rows: Rows, q: Path): Option<string> {
    if SettingBeneath(rows, q) then None else ValueOf(InForce(RowAt(rows, q)))
  }

  /** No setting comes after one beneath it. */
  ghost predicate SectionsFirst(out: seq<EffectiveRow>) {
    forall i, j :: 0 <= i < j < |out| && out[i].value.Some? && out[j].value.Some? ==>
      !Above(PathOf(out[j]), PathOf(out[i]))
  }

  lemma ListedRow(out: seq<EffectiveRow>, rows: Rows, i: nat)
    requires RowsOk(rows) && Listing(out, rows, rows.Keys) && i < |out|
    ensures RowAt(rows, PathOf(out[i])) == Some(out[i])
  {
    hide PathOf, CleanPath, RowIdOf, SectionText;
    assert RowAmong(rows, rows.Keys, out[i]);
    var id :| id in rows && rows[id] == out[i];
    assert Placed(id, rows[id]);
  }

  lemma RowIsListed(out: seq<EffectiveRow>, rows: Rows, q: Path) returns (i: nat)
    requires RowsOk(rows) && Listing(out, rows, rows.Keys) && InForce(RowAt(rows, q)).Some?
    ensures i < |out| && PathOf(out[i]) == q && out[i].value == ValueOf(InForce(RowAt(rows, q)))
  {
    hide PathOf, CleanPath, RowIdOf, SectionText;
    var id := RowIdOf(q);
    assert Placed(id, rows[id]);
    RowIdInjective(q, PathOf(rows[id]));
    i :| 0 <= i < |out| && out[i] == rows[id];
  }

  /** However the rows are listed, as long as none comes after one beneath it, the deepest
      settings in force are what the document holds. */
  lemma DeepestSettingsWin(out: seq<EffectiveRow>, rows: Rows, q: Path)
    requires RowsOk(rows) && Listing(out, rows, rows.Keys) && SectionsFirst(out) && q != []
    ensures LastWord(out, q) == DeepestValue(rows, q)
  {
    hide PathOf, RowsOk, Listing, RowAt, LastWord, RowIdOf;
    if SettingBeneath(rows, q) {
      var r :| Above(q, r) && InForce(RowAt(rows, r)).Some?;
      var k := RowIsListed(out, rows, r);
      var i := FindLastTouch(out, q, k);
      LastTouchDecides(out, q, i);
    } else if InForce(RowAt(rows, q)).Some? {
      var k := RowIsListed(out, rows, q);
      var i := FindLastTouch(out, q, k);
      LastTouchDecides(out, q, i);
      ListedRow(out, rows, i);
    } else if k :| 0 <= k < |out| && Touches(out[k], q) {
      var i := FindLastTouch(out, q, k);
      LastTouchDecides(out, q, i);
      ListedRow(out, rows, i);
    } else {
      UntouchedSaysNothing(out, q);
    }
  }

  /** A text ranks before everything that begins with it. */
  ghost predicate ShorterFirst(le: (string, string) -> bool) {
    forall s, x :: x != "" ==> !le(s + x, s)
  }

  /** The section of a setting begins the section of every setting beneath it. */
  lemma SectionGrows(p: Path, q: Path) returns (x: string)
    requires p != [] && Above(p, q) && CleanPath(q)
    ensures x != "" && SectionText(q[..|q| - 1]) == SectionText(p[..|p| - 1]) + x
  {
    var a, b := p[..|p| - 1], q[..|q| - 1];
    assert IsPrefix(p, b) by {
      assert b[..|p|] == q[..|p|];
    }
    if a == [] {
      assert b != [] && CleanSegment(b[0]);
      x := Join(b, '/');
    } else {
      assert a == b[..|a|] by {
        assert b[..|a|] == p[..|a|];
      }
      AboveStarts(b, a);
      var s, t := SectionText(b), SectionText(a) + "/";
      hide SectionText;
      x := "/" + s[|t|..];
      assert s == t + s[|t|..] == SectionText(a) + x;
    }
  }

  lemma InOrderIsSectionsFirst(out: seq<EffectiveRow>, rows: Rows, le: (string, string) -> bool)
    requires RowsOk(rows) && Listing(out, rows, rows.Keys) && InOrder(out, le) && ShorterFirst(le)
    ensures SectionsFirst(out)
  {
    hide Listing, PathOf, CleanPath, SectionText;
    forall i, j | 0 <= i < j < |out| ensures !Above(PathOf(out[j]), PathOf(out[i])) {
      PlacedSections(out, rows, i);
      PlacedSections(out, rows, j);
      if Above(PathOf(out[j]), PathOf(out[i])) {
        var x := SectionGrows(PathOf(out[j]), PathOf(out[i]));
      }
    }
  }

  lemma PlacedSections(out: seq<EffectiveRow>, rows: Rows, i: nat)
    requires RowsOk(rows) && Listing(out, rows, rows.Keys) && i < |out|
    ensures CleanPath(PathOf(out[i])) && out[i].section == SectionText(PathOf(out[i])[..|PathOf(out[i])| - 1])
  {
    hide PathOf, CleanPath, RowIdOf, SectionText;
    assert RowAmong(rows, rows.Keys, out[i]);
    var id :| id in rows && rows[id] == out[i];
    assert Placed(id, rows[id]);
  }

  lemma UnnestedIsSectionsFirst(out: seq<EffectiveRow>, rows: Rows)
    requires RowsOk(rows) && Listing(out, rows, rows.Keys) && SettingsDoNotNest(rows)
    ensures SectionsFirst(out) && forall q :: q != [] && InForce(RowAt(rows, q)).Some? ==> !SettingBeneath(rows, q)
  {
    hide Listing, PathOf, RowsOk, RowAt;
    forall i, j | 0 <= i < j < |out| && out[i].value.Some? && out[j].value.Some?
      ensures !Above(PathOf(out[j]), PathOf(out[i]))
    {
      ListedRow(out, rows, i);
      ListedRow(out, rows, j);
    }
  }

  lemma MergedRowsArePrefixFree(layers: seq<Layer>, rows: Rows)
    requires Usable(layers) && ShapeCompatible(layers)
    requires forall q :: q != [] ==> RowSound(layers, q, RowAt(rows, q))
    ensures SettingsDoNotNest(rows)
  {
    hide RowAt, RowSound, CleanConfig, Merged;
    forall p, q | p != [] && q != [] && InForce(RowAt(rows, p)).Some? && InForce(RowAt(rows, q)).Some?
      ensures !Above(p, q)
    {
      RowsAreTheMergedSettings(layers, rows, p);
      RowsAreTheMergedSettings(layers, rows, q);
      if Above(p, q) {
        LeafEnds(Merged(layers), p, q);
      }
    }
  }

  /** What the layers say at `q` when they say nothing beneath it. */
  ghost function DeepestSaid(layers: seq<Layer>, q: Path): Option<string> {
    if exists r :: Above(q, r) && TableSays(layers, r).Some? then None else ValueOf(TableSays(layers, q))
  }

  /**
   Rows and back, for any layers: listed by section, the rows rebuild the document of the
   deepest settings the table has. For shape-compatible layers, listed in whatever order,
   that is the merged document's settings, rendered, and nothing else.
   */
  method EffectiveConfig(layers: seq<Layer>, le: (string, string) -> bool) returns (doc: Json)
    requires Usable(layers) && Collation(le)
    ensures doc.Obj? && Pruned(doc)
    ensures ShorterFirst(le) ==> forall q :: q != [] ==> LeafAt(doc, q) == AsText(DeepestSaid(layers, q))
    ensures ShapeCompatible(layers) ==> forall q :: q != [] ==> LeafAt(doc, q) == AsText(ValueAt(Merged(layers), q))
  {
    hide RowSound, Merged, ShapeCompatible, RemovalsShown, Pruned, RowsOk, Listing, InOrder, ShorterFirst, Collation,
         Usable, LeafAt, AsText, ValueAt, LastWord, DeepestSaid;
    var out, rows := LayerConfigs(layers, le);
    doc := ConfigFromRows(out);
    if ShorterFirst(le) {
      forall q | q != [] ensures LastWord(out, q) == DeepestSaid(layers, q) {
        InOrderIsSectionsFirst(out, rows, le);
        DeepestSettingsWin(out, rows, q);
        DeepestIsSaid(layers, rows, q);
      }
    }
    if ShapeCompatible(layers) {
      MergedRowsArePrefixFree(layers, rows);
      UnnestedIsSectionsFirst(out, rows);
      forall q | q != [] ensures LastWord(out, q) == ValueAt(Merged(layers), q) {
        DeepestSettingsWin(out, rows, q);
        RowsAreTheMergedSettings(layers, rows, q);
        UnnestedDeepest(rows, q);
      }
    }
  }

  lemma UnnestedDeepest(rows: Rows, q: Path)
    requires InForce(RowAt(rows, q)).Some? ==> !SettingBeneath(rows, q)
    ensures DeepestValue(rows, q) == ValueOf(InForce(RowAt(rows, q)))
  {
    hide RowAt, SettingBeneath;
  }

  lemma DeepestIsSaid(layers: seq<Layer>, rows: Rows, q: Path)
    requires forall r :: r != [] ==> RowSound(layers, r, RowAt(rows, r))
    requires q != []
    ensures DeepestValue(rows, q) == DeepestSaid(layers, q)
  {
    hide RowAt, TableSays, InForce;
    forall r | r != [] ensures InForce(RowAt(rows, r)) == TableSays(layers, r) {
      assert RowSound(layers, r, RowAt(rows, r));
    }
    assert forall r :: Above(q, r) ==> r != [];
  }
}
