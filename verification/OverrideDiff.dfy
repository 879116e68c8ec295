/** `overrideDiff` (`web/src/hosts/hostConfig.ts`): which override it writes, that applying it
    gives the edited configuration back, and that saving it again changes nothing. */
module OverrideDiffs {
  import opened JsonModel
  import opened MergePatches
  import opened ConfigTrees
  import opened HostConfigs

  /** `put`: set `path` in the patch unless something there or above it already decides. */
  function Put(node: Json, path: Path, value: Json): Json
    requires node.Obj? && path != []
    decreases |path|
  {
    var m := node.fields;
    var k := path[0];
    if |path| == 1 then
      if k in m then node else Obj(m[k := value])
    else if k !in m then Obj(m[k := Put(EMPTY_OBJECT, path[1..], value)])
    else if m[k].Obj? then Obj(m[k := Put(m[k], path[1..], value)])
    else node
  }

  /** `pruneEmpty`: no member that prunes to an empty object stays. */
  function PruneEmpty(node: Json): Json {
    match node
    case Obj(m) => Obj(map k | k in m && PruneEmpty(m[k]) != EMPTY_OBJECT :: PruneEmpty(m[k]))
    case _ => node
  }

  /** Putting a leaf where the patch has nothing sets just that leaf; anywhere else nothing. */
  lemma {:induction false} PutLeaf(node: Json, path: Path, value: Json, q: Path)
    requires node.Obj? && path != [] && !value.Obj?
    ensures LeafAt(Put(node, path, value), q) ==
            if q == path && Walk(node, path).Off? then Some(value) else LeafAt(node, q)
    decreases |path|
  {
    var m, k := node.fields, path[0];
    if |path| == 1 {
      assert path == [k] && path[1..] == [];
      if q != [] && q[0] == k {
        assert q == [k] + q[1..];
        LeafUnder(node, k, q[1..]);
        LeafUnder(Put(node, path, value), k, q[1..]);
        assert Walk(node, path).Off? <==> k !in m;
      }
    } else {
      assert path == [k] + path[1..];
      if q != [] {
        assert q == [q[0]] + q[1..];
        if q[0] == k && (k !in m || m[k].Obj?) {
          PutLeaf(if k in m then m[k] else EMPTY_OBJECT, path[1..], value, q[1..]);
        }
      }
    }
  }

  lemma {:induction false} PutPruned(node: Json, path: Path, value: Json)
    requires node.Obj? && path != [] && !value.Obj? && Pruned(node)
    ensures Put(node, path, value).Obj? && Pruned(Put(node, path, value)) && Put(node, path, value) != EMPTY_OBJECT
    decreases |path|
  {
    var m, k := node.fields, path[0];
    if |path| > 1 && (k !in m || m[k].Obj?) {
      PutPruned(if k in m then m[k] else EMPTY_OBJECT, path[1..], value);
    }
    assert k in Put(node, path, value).fields;
  }

  lemma {:induction false} PruneEmptyLeaves(v: Json, q: Path)
    ensures LeafAt(PruneEmpty(v), q) == LeafAt(v, q)
    decreases |q|
  {
    if v.Obj? && q != [] && q[0] in v.fields {
      PruneEmptyLeaves(v.fields[q[0]], q[1..]);
      if PruneEmpty(v.fields[q[0]]) == EMPTY_OBJECT {
        assert At(EMPTY_OBJECT, q[1..]).Some? ==> q[1..] == [];
      }
    }
  }

  lemma {:induction false} PruneEmptyPrunes(v: Json)
    ensures Pruned(PruneEmpty(v)) && (PruneEmpty(v).Obj? <==> v.Obj?)
    decreases v
  {
    if !v.Obj? {
    } else {
      forall k | k in v.fields ensures Pruned(PruneEmpty(v.fields[k])) {
        PruneEmptyPrunes(v.fields[k]);
      }
    }
  }

  // ---- Which override is written, path by path ----

  /** A setting of `working` that `base` has otherwise or not at all. */
  ghost predicate Changes(base: Json, working: Json, q: Path) {
    ValueAt(working, q).Some? && ValueAt(base, q) != ValueAt(working, q)
  }

  ghost predicate ChangesAbove(base: Json, working: Json, q: Path) {
    exists c :: Above(c, q) && Changes(base, working, c)
  }

  /** A kept removal at and beneath which `working` has no setting. */
  ghost predicate StillInForce(working: Json, kept: seq<Path>, r: Path) {
    r in kept && forall w :: IsPrefix(r, w) ==> ValueAt(working, w) == None
  }

  ghost predicate KeptPut(base: Json, working: Json, kept: seq<Path>, r: Path) {
    StillInForce(working, kept, r) && !ChangesAbove(base, working, r)
  }

  ghost predicate Covered(working: Json, kept: seq<Path>, q: Path) {
    exists r :: StillInForce(working, kept, r) && IsPrefix(r, q)
  }

  ghost predicate PutBeneath(base: Json, working: Json, kept: seq<Path>, q: Path) {
    exists c :: Above(q, c) && (Changes(base, working, c) || KeptPut(base, working, kept, c))
  }

  /** A setting `working` drops that no kept removal takes care of. */
  ghost predicate Dropped(base: Json, working: Json, kept: seq<Path>, q: Path) {
    ValueAt(base, q).Some? && ValueAt(working, q) == None && !Covered(working, kept, q)
  }

  ghost predicate DropPut(base: Json, working: Json, kept: seq<Path>, q: Path) {
    && Dropped(base, working, kept, q)
    && !ChangesAbove(base, working, q)
    && !PutBeneath(base, working, kept, q)
  }

  /** The leaf the override has at `q`. */
  ghost function Want(base: Json, working: Json, kept: seq<Path>, q: Path): Option<Json> {
    if Changes(base, working, q) then Some(Str(ValueAt(working, q).value))
    else if KeptPut(base, working, kept, q) || DropPut(base, working, kept, q) then Some(Null)
    else None
  }

  /** `patch` is the override for these inputs: there is only one. */
  ghost predicate IsDiff(patch: Json, base: Json, working: Json, kept: seq<Path>) {
    patch.Obj? && Pruned(patch) && forall q :: LeafAt(patch, q) == Want(base, working, kept, q)
  }

  /** No kept removal lies beneath another. */
  ghost predicate PrefixFree(kept: seq<Path>) {
    forall r, s :: r in kept && s in kept ==> !Above(r, s)
  }

  lemma DiffUnique(p: Json, p': Json, base: Json, working: Json, kept: seq<Path>)
    requires IsDiff(p, base, working, kept) && IsDiff(p', base, working, kept)
    ensures p == p'
  {
    PrunedUnique(p, p');
  }

  // ---- Applying the override ----

  lemma ValueIsLeaf(v: Json, q: Path)
    ensures ValueAt(v, q).Some? ==> LeafAt(v, q).Some?
  {
  }

  lemma PrefixesCompare(a: Path, b: Path, q: Path)
    requires IsPrefix(a, q) && IsPrefix(b, q)
    ensures IsPrefix(a, b) || Above(b, a)
  {
    if |a| <= |b| {
      assert b[..|a|] == q[..|b|][..|a|] == q[..|a|];
    } else {
      assert a[..|b|] == q[..|a|][..|b|] == q[..|b|];
    }
  }

  lemma AboveThrough(c: Path, r: Path, q: Path)
    requires Above(c, r) && IsPrefix(r, q)
    ensures Above(c, q)
  {
    assert c == r[..|c|] == q[..|r|][..|c|] == q[..|c|];
  }

  /** A kept removal in force that lies beneath a setting `working` has unchanged. */
  ghost predicate Undercuts(base: Json, working: Json, kept: seq<Path>, r: Path, w: Path) {
    && StillInForce(working, kept, r) && Above(w, r)
    && ValueAt(working, w).Some? && ValueAt(base, w) == ValueAt(working, w)
  }

  ghost predicate Lost(base: Json, working: Json, kept: seq<Path>, w: Path) {
    exists r :: Undercuts(base, working, kept, r, w)
  }

  ghost predicate Undercut(base: Json, working: Json, kept: seq<Path>) {
    exists r, w :: Undercuts(base, working, kept, r, w)
  }

  /** What the patch's walk along `q` must mean for the edited configuration. */
  lemma WantedLeaf(patch: Json, base: Json, working: Json, kept: seq<Path>, r: Path, q: Path)
    requires IsDiff(patch, base, working, kept)
    requires IsPrefix(r, q) && Want(base, working, kept, r).Some?
    ensures ValueAt(working, q) ==
            if r == q && Changes(base, working, r) then Some(LeafAt(patch, r).value.s) else None
  {
    if Changes(base, working, r) {
      ValueIsLeaf(working, r);
      if r != q {
        LeafEnds(working, r, q);
      }
    } else if !KeptPut(base, working, kept, r) && ValueAt(working, q).Some? {
      ValueIsLeaf(base, r);
      if r != q {
        LeafEnds(base, r, q);
        assert Changes(base, working, q);
        assert PutBeneath(base, working, kept, r);
      }
    }
  }

  /** Only an undercutting removal is put beneath a setting of `working`. */
  lemma WantedBelow(base: Json, working: Json, kept: seq<Path>, q: Path, w: Path)
    requires Above(q, w) && Want(base, working, kept, w).Some?
    requires ValueAt(working, q).Some?
    ensures Undercuts(base, working, kept, w, q)
  {
    ValueIsLeaf(working, q);
    LeafEnds(working, q, w);
    assert !ChangesAbove(base, working, w);
    assert ValueAt(base, q) == ValueAt(working, q);
    assert DropPut(base, working, kept, w) ==> ValueAt(base, q) == None by {
      if DropPut(base, working, kept, w) {
        ValueIsLeaf(base, w);
        AboveIsObject(base, q, w);
      }
    }
  }

  lemma UntouchedIsSame(patch: Json, base: Json, working: Json, kept: seq<Path>, q: Path)
    requires IsDiff(patch, base, working, kept)
    requires Walk(patch, q).Off?
    ensures ValueAt(base, q) == ValueAt(working, q)
  {
    WalkMeaning(patch, q);
    if ValueAt(base, q) != ValueAt(working, q) {
      if Changes(base, working, q) {
        WalkOfLeaf(patch, q, q);
      } else {
        DroppedIsDecided(patch, base, working, kept, q);
      }
    }
  }

  lemma ChangeDecides(patch: Json, base: Json, working: Json, kept: seq<Path>, q: Path)
    requires IsDiff(patch, base, working, kept) && ChangesAbove(base, working, q)
    ensures !Walk(patch, q).Off?
  {
    var c :| Above(c, q) && Changes(base, working, c);
    hide Walk;
    WalkOfLeaf(patch, c, q);
  }

  lemma RemovalDecides(patch: Json, base: Json, working: Json, kept: seq<Path>, q: Path)
    requires IsDiff(patch, base, working, kept)
    requires Covered(working, kept, q) && !ChangesAbove(base, working, q)
    ensures !Walk(patch, q).Off?
  {
    hide StillInForce, Changes;
    var r :| StillInForce(working, kept, r) && IsPrefix(r, q);
    if ChangesAbove(base, working, r) {
      var c :| Above(c, r) && Changes(base, working, c);
      AboveThrough(c, r, q);
    }
    hide Walk, ChangesAbove;
    assert KeptPut(base, working, kept, r);
    WalkOfLeaf(patch, r, q);
  }

  lemma PutBeneathDecides(patch: Json, base: Json, working: Json, kept: seq<Path>, q: Path)
    requires IsDiff(patch, base, working, kept) && PutBeneath(base, working, kept, q)
    ensures !Walk(patch, q).Off?
  {
    hide Walk, Changes, KeptPut;
    var c :| Above(q, c) && (Changes(base, working, c) || KeptPut(base, working, kept, c));
    assert LeafAt(patch, c) == Want(base, working, kept, c);
    AboveIsObject(patch, q, c);
    WalkOfObject(patch, q);
  }

  lemma DroppedIsDecided(patch: Json, base: Json, working: Json, kept: seq<Path>, q: Path)
    requires IsDiff(patch, base, working, kept)
    requires ValueAt(base, q).Some? && ValueAt(working, q) == None
    ensures !Walk(patch, q).Off?
  {
    hide Walk, ChangesAbove, Covered, PutBeneath, KeptPut;
    if ChangesAbove(base, working, q) {
      ChangeDecides(patch, base, working, kept, q);
    } else if Covered(working, kept, q) {
      RemovalDecides(patch, base, working, kept, q);
    } else if PutBeneath(base, working, kept, q) {
      PutBeneathDecides(patch, base, working, kept, q);
    } else {
      assert DropPut(base, working, kept, q);
      WalkOfLeaf(patch, q, q);
    }
  }

  /** An undercutting removal is put: no change stands above it. */
  lemma UndercutIsPut(base: Json, working: Json, kept: seq<Path>, r: Path, w: Path)
    requires Undercuts(base, working, kept, r, w)
    ensures KeptPut(base, working, kept, r)
  {
    if ChangesAbove(base, working, r) {
      var c :| Above(c, r) && Changes(base, working, c);
      ValueIsLeaf(working, c);
      ValueIsLeaf(working, w);
      PrefixesCompare(c, w, r);
      if c != w {
        if Above(c, w) {
          LeafEnds(working, c, w);
        } else {
          LeafEnds(working, w, c);
        }
      }
    }
  }

  /** The patch has a section where a setting is undercut. */
  lemma LostIsSection(patch: Json, base: Json, working: Json, kept: seq<Path>, q: Path)
    requires IsDiff(patch, base, working, kept) && Lost(base, working, kept, q)
    ensures Walk(patch, q).OnObject?
  {
    var r :| Undercuts(base, working, kept, r, q);
    UndercutIsPut(base, working, kept, r, q);
    assert LeafAt(patch, r) == Want(base, working, kept, r);
    AboveIsObject(patch, q, r);
    WalkOfObject(patch, q);
  }

  /** What merging the override gives: the edited settings, but for those undercut. */
  lemma ApplyValue(patch: Json, base: Json, working: Json, kept: seq<Path>, q: Path)
    requires base.Obj? && working.Obj? && IsDiff(patch, base, working, kept)
    ensures ValueAt(RfcMerge(Some(base), patch), q) ==
            if Lost(base, working, kept, q) then None else ValueAt(working, q)
  {
    MergeLeaf(Some(base), patch, q);
    WalkMeaning(patch, q);
    if Lost(base, working, kept, q) {
      LostIsSection(patch, base, working, kept, q);
    } else {
      match Walk(patch, q) {
        case OnLeaf(x, rest) =>
          var r := q[..|q| - |rest|];
          WantedLeaf(patch, base, working, kept, r, q);
          assert rest == [] ==> r == q;
        case OnObject =>
          if q != [] {
            var w := LeafBelowObject(patch, q);
            if ValueAt(working, q).Some? {
              WantedBelow(base, working, kept, q, w);
            }
          }
        case Off =>
          UntouchedIsSame(patch, base, working, kept, q);
      }
    }
  }

  ghost predicate SameSettings(a: Json, b: Json) {
    forall q :: ValueAt(a, q) == ValueAt(b, q)
  }

  /** Merging the override onto the base gives exactly the edited settings, unless a kept
      removal still in force lies beneath a setting the edit leaves as the base has it: then,
      and only then, that setting is lost. */
  lemma OverrideReproducesTheEdit(patch: Json, base: Json, working: Json, kept: seq<Path>)
    requires base.Obj? && working.Obj?
    requires IsDiff(patch, base, working, kept)
    ensures SameSettings(RfcMerge(Some(base), patch), working) <==> !Undercut(base, working, kept)
  {
    forall q
      ensures ValueAt(RfcMerge(Some(base), patch), q) ==
              if Lost(base, working, kept, q) then None else ValueAt(working, q)
    {
      ApplyValue(patch, base, working, kept, q);
    }
    if Undercut(base, working, kept) {
      var r, w :| Undercuts(base, working, kept, r, w);
      assert Lost(base, working, kept, w);
    }
  }

  /** A document with the one leaf `x` at `p`. */
  lemma {:induction false} OneLeaf(p: Path, x: Json, q: Path)
    requires p != [] && !x.Obj?
    ensures var doc := Put(EMPTY_OBJECT, p, x);
      && doc.Obj? && Pruned(doc)
      && LeafAt(doc, q) == (if q == p then Some(x) else None)
      && (Above(q, p) && q != [] ==> Walk(doc, q).OnObject?)
  {
    var doc := Put(EMPTY_OBJECT, p, x);
    PutLeaf(EMPTY_OBJECT, p, x, q);
    PutLeaf(EMPTY_OBJECT, p, x, p);
    PutPruned(EMPTY_OBJECT, p, x);
    assert Walk(EMPTY_OBJECT, p).Off?;
    if Above(q, p) {
      AboveIsObject(doc, q, p);
      WalkOfObject(doc, q);
    }
  }

  /** A kept removal beneath an unchanged setting: the setting `a` is lost. */
  lemma UndercutLosesASetting()
    ensures var base := Put(EMPTY_OBJECT, ["a"], Str("x"));
      var patch := Put(EMPTY_OBJECT, ["a", "b"], Null);
      && IsDiff(patch, base, base, [["a", "b"]])
      && ValueAt(base, ["a"]) == Some("x")
      && ValueAt(RfcMerge(Some(base), patch), ["a"]) == None
  {
    var base, patch := Put(EMPTY_OBJECT, ["a"], Str("x")), Put(EMPTY_OBJECT, ["a", "b"], Null);
    var kept := [["a", "b"]];
    assert StillInForce(base, kept, ["a", "b"]) by {
      forall w | IsPrefix(["a", "b"], w) ensures ValueAt(base, w) == None {
        OneLeaf(["a"], Str("x"), w);
      }
    }
    forall q ensures LeafAt(patch, q) == Want(base, base, kept, q) {
      OneLeaf(["a", "b"], Null, q);
    }
    OneLeaf(["a", "b"], Null, ["a"]);
    OneLeaf(["a"], Str("x"), ["a"]);
    MergeLeaf(Some(base), patch, ["a"]);
  }

  // ---- Saving it again ----

  /** `kept` are the removals of `patch`. */
  ghost predicate AreRemovals(kept: seq<Path>, patch: Json) {
    forall r :: r in kept <==> LeafAt(patch, r) == Some(Null)
  }

  /** What is in force once the override is saved: `working`, but for what it loses. */
  ghost predicate IsSaved(saved: Json, base: Json, working: Json, kept: seq<Path>) {
    forall q :: ValueAt(saved, q) == if Lost(base, working, kept, q) then None else ValueAt(working, q)
  }

  /** A setting that is lost was no change. */
  lemma SameChanges(base: Json, working: Json, kept: seq<Path>, saved: Json, q: Path)
    requires IsSaved(saved, base, working, kept)
    ensures Changes(base, saved, q) <==> Changes(base, working, q)
    ensures ChangesAbove(base, saved, q) <==> ChangesAbove(base, working, q)
    ensures Changes(base, working, q) ==> ValueAt(saved, q) == ValueAt(working, q)
  {
    assert forall x :: Changes(base, saved, x) <==> Changes(base, working, x);
  }

  lemma RemovedAgain(patch: Json, base: Json, working: Json, kept: seq<Path>, saved: Json, kept': seq<Path>, q: Path)
    requires IsDiff(patch, base, working, kept)
    requires IsSaved(saved, base, working, kept) && AreRemovals(kept', patch)
    requires !Changes(base, working, q) && Want(base, working, kept, q) == Some(Null)
    ensures KeptPut(base, saved, kept', q)
  {
    SameChanges(base, working, kept, saved, q);
    assert LeafAt(patch, q) == Some(Null);
    hide Want, Lost;
    assert !ChangesAbove(base, working, q) by {
      WantedIsBelowNoChange(base, working, kept, q);
    }
    forall w | IsPrefix(q, w) ensures ValueAt(saved, w) == None {
      WantedLeaf(patch, base, working, kept, q, w);
    }
  }

  lemma WantedIsBelowNoChange(base: Json, working: Json, kept: seq<Path>, q: Path)
    requires Want(base, working, kept, q) == Some(Null)
    ensures !ChangesAbove(base, working, q)
  {
  }

  lemma NotWantedAgain(patch: Json, base: Json, working: Json, kept: seq<Path>, saved: Json, kept': seq<Path>, q: Path)
    requires IsDiff(patch, base, working, kept)
    requires IsSaved(saved, base, working, kept) && AreRemovals(kept', patch)
    requires Want(base, working, kept, q) == None
    ensures Want(base, saved, kept', q) == None
  {
    SameChanges(base, working, kept, saved, q);
    assert LeafAt(patch, q) == None;
    assert q !in kept';
    hide ChangesAbove, Covered, PutBeneath, IsDiff, IsSaved, Lost;
    NotDroppedTwice(patch, base, working, kept, saved, kept', q);
  }

  lemma SecondWant(patch: Json, base: Json, working: Json, kept: seq<Path>, saved: Json, kept': seq<Path>, q: Path)
    requires IsDiff(patch, base, working, kept)
    requires IsSaved(saved, base, working, kept) && AreRemovals(kept', patch)
    ensures Want(base, saved, kept', q) == Want(base, working, kept, q)
  {
    hide IsDiff, IsSaved, AreRemovals, KeptPut, DropPut;
    SameChanges(base, working, kept, saved, q);
    if Want(base, working, kept, q) == None {
      NotWantedAgain(patch, base, working, kept, saved, kept', q);
    } else if !Changes(base, working, q) {
      RemovedAgain(patch, base, working, kept, saved, kept', q);
    }
  }

  lemma KeptStays(patch: Json, base: Json, working: Json, kept: seq<Path>, saved: Json, kept': seq<Path>, r: Path)
    requires IsDiff(patch, base, working, kept)
    requires IsSaved(saved, base, working, kept) && AreRemovals(kept', patch)
    requires KeptPut(base, working, kept, r)
    ensures KeptPut(base, saved, kept', r)
  {
    assert IsPrefix(r, r);
    SameChanges(base, working, kept, saved, r);
    assert LeafAt(patch, r) == Want(base, working, kept, r) == Some(Null);
  }

  /** The removal that loses a setting keeps it from being removed again. */
  lemma LostIsBeneath(patch: Json, base: Json, working: Json, kept: seq<Path>, saved: Json, kept': seq<Path>, q: Path)
    requires IsDiff(patch, base, working, kept)
    requires IsSaved(saved, base, working, kept) && AreRemovals(kept', patch)
    requires Lost(base, working, kept, q)
    ensures PutBeneath(base, saved, kept', q)
  {
    var r :| Undercuts(base, working, kept, r, q);
    UndercutIsPut(base, working, kept, r, q);
    KeptStays(patch, base, working, kept, saved, kept', r);
  }

  lemma CoveredStays(patch: Json, base: Json, working: Json, kept: seq<Path>, saved: Json, kept': seq<Path>, q: Path)
    requires IsDiff(patch, base, working, kept)
    requires IsSaved(saved, base, working, kept) && AreRemovals(kept', patch)
    requires Covered(working, kept, q) && !ChangesAbove(base, working, q)
    ensures Covered(saved, kept', q)
  {
    var r :| StillInForce(working, kept, r) && IsPrefix(r, q);
    if ChangesAbove(base, working, r) {
      var c :| Above(c, r) && Changes(base, working, c);
      AboveThrough(c, r, q);
    }
    KeptStays(patch, base, working, kept, saved, kept', r);
  }

  lemma BeneathStays(patch: Json, base: Json, working: Json, kept: seq<Path>, saved: Json, kept': seq<Path>, q: Path)
    requires IsDiff(patch, base, working, kept)
    requires IsSaved(saved, base, working, kept) && AreRemovals(kept', patch)
    requires PutBeneath(base, working, kept, q)
    ensures PutBeneath(base, saved, kept', q)
  {
    var c :| Above(q, c) && (Changes(base, working, c) || KeptPut(base, working, kept, c));
    SameChanges(base, working, kept, saved, c);
    if KeptPut(base, working, kept, c) {
      KeptStays(patch, base, working, kept, saved, kept', c);
    } else {
      assert Changes(base, saved, c);
    }
  }

  lemma NotSaved(base: Json, working: Json, kept: seq<Path>, saved: Json, q: Path)
    requires IsSaved(saved, base, working, kept) && ValueAt(saved, q) == None
    ensures Lost(base, working, kept, q) || ValueAt(working, q) == None
  {
  }

  lemma NotDroppedTwice(patch: Json, base: Json, working: Json, kept: seq<Path>, saved: Json, kept': seq<Path>, q: Path)
    requires IsDiff(patch, base, working, kept)
    requires IsSaved(saved, base, working, kept) && AreRemovals(kept', patch)
    requires Want(base, working, kept, q) == None
    ensures !DropPut(base, saved, kept', q)
  {
    hide Lost, ChangesAbove, Covered, PutBeneath, KeptPut, AreRemovals, Changes, IsSaved, IsDiff;
    SameChanges(base, working, kept, saved, q);
    if ValueAt(base, q).Some? && ValueAt(saved, q) == None {
      NotSaved(base, working, kept, saved, q);
      if Lost(base, working, kept, q) {
        LostIsBeneath(patch, base, working, kept, saved, kept', q);
      } else if !ChangesAbove(base, working, q) {
        if Covered(working, kept, q) {
          CoveredStays(patch, base, working, kept, saved, kept', q);
        } else {
          BeneathStays(patch, base, working, kept, saved, kept', q);
        }
      }
    }
  }

  /** Saving an override again, with nothing edited and its own removals kept, writes the
      same override: even where a setting was lost, nothing more is. */
  lemma SavingAgainIsAFixedPoint(patch: Json, base: Json, working: Json, kept: seq<Path>, kept': seq<Path>, again: Json)
    requires base.Obj? && working.Obj?
    requires IsDiff(patch, base, working, kept)
    requires AreRemovals(kept', patch)
    requires IsDiff(again, base, RfcMerge(Some(base), patch), kept')
    ensures again == patch
  {
    var saved := RfcMerge(Some(base), patch);
    forall q ensures ValueAt(saved, q) == if Lost(base, working, kept, q) then None else ValueAt(working, q) {
      ApplyValue(patch, base, working, kept, q);
    }
    assert IsSaved(saved, base, working, kept);
    hide IsSaved, Want, AreRemovals;
    forall q ensures LeafAt(again, q) == LeafAt(patch, q) {
      SecondWant(patch, base, working, kept, saved, kept', q);
    }
    PrunedUnique(again, patch);
  }

  /** With nothing kept, no override is written exactly when nothing was edited. */
  lemma NoOverrideIffNoEdit(patch: Json, base: Json, working: Json)
    requires base.Obj? && working.Obj?
    requires IsDiff(patch, base, working, [])
    ensures patch == EMPTY_OBJECT <==> SameSettings(base, working)
  {
    if patch == EMPTY_OBJECT {
      OverrideReproducesTheEdit(patch, base, working, []);
      forall q ensures ValueAt(base, q) == ValueAt(working, q) {
        MergeLeaf(Some(base), patch, q);
      }
    }
    if SameSettings(base, working) {
      assert Pruned(EMPTY_OBJECT);
      forall q ensures LeafAt(patch, q) == LeafAt(EMPTY_OBJECT, q) {
      }
      PrunedUnique(patch, EMPTY_OBJECT);
    }
  }

  // ---- The override and the values themselves ----

  lemma SettingText(v: Json, q: Path)
    ensures ValueAt(v, q) == match SettingAt(v, q) case Some(x) => Some(Render(x)) case None => None
  {
  }

  /** How an override holds a scalar: as its text. */
  function Written(v: Json): Json {
    match v
    case Num(text) => Str(text)
    case Bool(b) => Str(if b then "true" else "false")
    case _ => v
  }

  predicate Plain(v: Json) {
    v.Str? || v.Num? || v.Bool?
  }

  lemma PlainText(v: Json)
    requires Plain(v)
    ensures Str(Render(v)) == Written(v)
  {
    RenderTexts(v);
  }

  /** Where both configurations have a setting and the two are of one scalar kind, the override
      has nothing if they are equal, and else the text of the edited one. */
  lemma OverrideHasTheChangedScalars(patch: Json, base: Json, working: Json, kept: seq<Path>, q: Path)
    requires IsDiff(patch, base, working, kept)
    requires SettingAt(base, q).Some? && SettingAt(working, q).Some?
    requires OneScalarKind(SettingAt(base, q).value, SettingAt(working, q).value)
    ensures var was, now := SettingAt(base, q).value, SettingAt(working, q).value;
      LeafAt(patch, q) == if was == now then None else Some(Written(now))
  {
    var was, now := SettingAt(base, q).value, SettingAt(working, q).value;
    SettingText(base, q);
    SettingText(working, q);
    RenderTellsScalars(was, now);
    PlainText(now);
    hide Render, SettingAt, LeafAt, ValueAt, Written;
    assert LeafAt(patch, q) == Want(base, working, kept, q);
    assert !StillInForce(working, kept, q) by {
      assert IsPrefix(q, q);
    }
  }

  /** A setting that was not there, or of another text, comes out of the merge as its text. */
  lemma MergedChange(patch: Json, base: Json, working: Json, kept: seq<Path>, q: Path)
    requires IsDiff(patch, base, working, kept) && Changes(base, working, q)
    ensures SettingAt(RfcMerge(Some(base), patch), q) == Some(Str(ValueAt(working, q).value))
  {
    assert LeafAt(patch, q) == Want(base, working, kept, q);
    assert q[|q|..] == [];
    WalkOfLeaf(patch, q, q);
    MergeLeaf(Some(base), patch, q);
  }

  /** One that is as it was is left as it was. */
  lemma MergedRest(patch: Json, base: Json, working: Json, kept: seq<Path>, q: Path)
    requires base.Obj? && working.Obj? && IsDiff(patch, base, working, kept) && !Undercut(base, working, kept)
    requires ValueAt(working, q).Some? && !Changes(base, working, q)
    ensures SettingAt(RfcMerge(Some(base), patch), q) == SettingAt(base, q)
  {
    MergeLeaf(Some(base), patch, q);
    WalkMeaning(patch, q);
    match Walk(patch, q) {
      case OnLeaf(x, rest) =>
        var r := q[..|q| - |rest|];
        WantedLeaf(patch, base, working, kept, r, q);
      case OnObject =>
        if q != [] {
          var w := LeafBelowObject(patch, q);
          assert LeafAt(patch, w) == Want(base, working, kept, w);
          WantedBelow(base, working, kept, q, w);
        }
      case Off =>
    }
  }

  /** Merging the override gives the settings of the edited configuration and no others, where
      none is lost: one that the base has as well is left as it is, and a scalar that the base
      has not, or has otherwise as a scalar of the same kind, comes out as its text. */
  lemma MergedSettings(patch: Json, base: Json, working: Json, kept: seq<Path>, q: Path)
    requires base.Obj? && working.Obj? && IsDiff(patch, base, working, kept) && !Undercut(base, working, kept)
    ensures var was, now := SettingAt(base, q), SettingAt(working, q);
      var merged := SettingAt(RfcMerge(Some(base), patch), q);
      && (now.None? <==> merged.None?)
      && (now.Some? && was == now ==> merged == now)
      && (now.Some? && Plain(now.value) && was != now && (was.None? || OneScalarKind(was.value, now.value)) ==>
            merged == Some(Written(now.value)))
  {
    var was, now := SettingAt(base, q), SettingAt(working, q);
    ApplyValue(patch, base, working, kept, q);
    SettingText(base, q);
    SettingText(working, q);
    SettingText(RfcMerge(Some(base), patch), q);
    if now.Some? && Plain(now.value) {
      PlainText(now.value);
    }
    if now.Some? && was.Some? && OneScalarKind(was.value, now.value) {
      RenderTellsScalars(was.value, now.value);
    }
    if Changes(base, working, q) {
      MergedChange(patch, base, working, kept, q);
    } else if now.Some? {
      MergedRest(patch, base, working, kept, q);
    }
  }

  /** With nothing kept and scalars of one kind on both sides, no override is written exactly
      when both have the same settings. */
  lemma NoOverrideIffSameScalars(patch: Json, base: Json, working: Json)
    requires base.Obj? && working.Obj? && IsDiff(patch, base, working, [])
    requires forall q :: SettingAt(base, q).Some? && SettingAt(working, q).Some? ==>
      OneScalarKind(SettingAt(base, q).value, SettingAt(working, q).value)
    ensures patch == EMPTY_OBJECT <==> forall q :: SettingAt(base, q) == SettingAt(working, q)
  {
    NoOverrideIffNoEdit(patch, base, working);
    forall q ensures ValueAt(base, q) == ValueAt(working, q) <==> SettingAt(base, q) == SettingAt(working, q) {
      SettingText(base, q);
      SettingText(working, q);
      if SettingAt(base, q).Some? && SettingAt(working, q).Some? {
        RenderTellsScalars(SettingAt(base, q).value, SettingAt(working, q).value);
      }
    }
  }

  /** A removal that was kept stays, also where the base has nothing for it to remove: the
      override has it when the edited configuration has no setting there or beneath, and none
      above that the base has not or has otherwise. */
  lemma KeptRemovalsStay(patch: Json, base: Json, working: Json, kept: seq<Path>, r: Path)
    requires IsDiff(patch, base, working, kept) && r in kept
    requires forall w :: IsPrefix(r, w) ==> SettingAt(working, w) == None
    requires forall w :: Above(w, r) && SettingAt(working, w).Some? ==> SettingAt(base, w) == SettingAt(working, w)
    ensures LeafAt(patch, r) == Some(Null)
  {
    assert LeafAt(patch, r) == Want(base, working, kept, r);
    forall w | IsPrefix(r, w) ensures ValueAt(working, w) == None {
      SettingText(working, w);
    }
    if ChangesAbove(base, working, r) {
      var c :| Above(c, r) && Changes(base, working, c);
      SettingText(working, c);
      SettingText(base, c);
    }
    assert IsPrefix(r, r);
  }

  // ---- The loops that write it ----

  ghost const ALL: iset<Path> := iset q: Path | true

  /** The removals put so far, and the settings dropped so far. */
  ghost function WantSoFar(base: Json, working: Json, kept: seq<Path>, changed: iset<Path>, removed: iset<Path>,
                           dropped: iset<Path>, q: Path): Option<Json>
  {
    if Changes(base, working, q) && q in changed then Some(Str(ValueAt(working, q).value))
    else if KeptPut(base, working, kept, q) && q in removed then Some(Null)
    else if DropPut(base, working, kept, q) && q in dropped then Some(Null)
    else None
  }

  ghost predicate SoFar(patch: Json, base: Json, working: Json, kept: seq<Path>, changed: iset<Path>,
                        removed: iset<Path>, dropped: iset<Path>)
  {
    patch.Obj? && Pruned(patch) &&
    forall q :: LeafAt(patch, q) == WantSoFar(base, working, kept, changed, removed, dropped, q)
  }

  lemma PrefixCases(p: Path, q: Path)
    requires IsPrefix(p, q)
    ensures p == q || Above(p, q)
  {
    assert |p| == |q| ==> q[..|p|] == q;
  }

  /** A pruned patch has nothing at `q` when it has no leaf at, above or beneath it. */
  lemma NothingThere(patch: Json, q: Path)
    requires patch.Obj? && Pruned(patch) && q != []
    requires forall r :: IsPrefix(r, q) ==> LeafAt(patch, r) == None
    requires forall r :: Above(q, r) ==> LeafAt(patch, r) == None
    ensures Walk(patch, q).Off?
  {
    WalkMeaning(patch, q);
    match Walk(patch, q) {
      case OnLeaf(x, rest) => assert IsPrefix(q[..|q| - |rest|], q);
      case OnObject => var w := LeafBelowObject(patch, q);
      case Off =>
    }
  }

  lemma PutChanged(patch: Json, base: Json, working: Json, kept: seq<Path>, changed: iset<Path>, w: Path)
    requires SoFar(patch, base, working, kept, changed, iset{}, iset{})
    requires w != [] && ValueAt(working, w).Some? && w !in changed
    ensures var patch' := if Changes(base, working, w) then Put(patch, w, Str(ValueAt(working, w).value)) else patch;
      SoFar(patch', base, working, kept, changed + iset{w}, iset{}, iset{})
  {
    if Changes(base, working, w) {
      var value := Str(ValueAt(working, w).value);
      ValueIsLeaf(working, w);
      forall r | IsPrefix(r, w) ensures LeafAt(patch, r) == None {
        if Changes(base, working, r) && r in changed {
          PrefixCases(r, w);
          ValueIsLeaf(working, r);
          LeafEnds(working, r, w);
        }
      }
      forall r | Above(w, r) ensures LeafAt(patch, r) == None {
        LeafEnds(working, w, r);
      }
      NothingThere(patch, w);
      PutPruned(patch, w, value);
      forall q ensures LeafAt(Put(patch, w, value), q) ==
                       WantSoFar(base, working, kept, changed + iset{w}, iset{}, iset{}, q) {
        PutLeaf(patch, w, value, q);
      }
    }
  }

  /** A removal in force is put unless a change above it or the same removal is there. */
  lemma RemovalRoom(patch: Json, base: Json, working: Json, kept: seq<Path>, removed: iset<Path>, r: Path)
    requires PrefixFree(kept) && r != [] && StillInForce(working, kept, r)
    requires SoFar(patch, base, working, kept, ALL, removed, iset{})
    ensures Walk(patch, r).Off? <==> !ChangesAbove(base, working, r) && r !in removed
  {
    assert IsPrefix(r, r);
    if ChangesAbove(base, working, r) {
      var c :| Above(c, r) && Changes(base, working, c);
      assert LeafAt(patch, c).Some?;
      WalkOfLeaf(patch, c, r);
    } else if r in removed {
      assert LeafAt(patch, r).Some?;
      WalkOfLeaf(patch, r, r);
    } else {
      forall x | IsPrefix(x, r) ensures LeafAt(patch, x) == None {
        PrefixCases(x, r);
      }
      forall x | Above(r, x) ensures LeafAt(patch, x) == None {
      }
      NothingThere(patch, r);
    }
  }

  lemma StillInForceIsUnchanged(base: Json, working: Json, kept: seq<Path>, r: Path)
    requires StillInForce(working, kept, r)
    ensures !Changes(base, working, r)
  {
    assert IsPrefix(r, r);
  }

  lemma PutRemoval(patch: Json, base: Json, working: Json, kept: seq<Path>, removed: iset<Path>, r: Path)
    requires PrefixFree(kept) && r != [] && StillInForce(working, kept, r)
    requires SoFar(patch, base, working, kept, ALL, removed, iset{})
    ensures SoFar(Put(patch, r, Null), base, working, kept, ALL, removed + iset{r}, iset{})
  {
    hide Put, Walk, LeafAt, StillInForce, ChangesAbove, DropPut, Changes, PrefixFree, Pruned;
    RemovalRoom(patch, base, working, kept, removed, r);
    PutPruned(patch, r, Null);
    StillInForceIsUnchanged(base, working, kept, r);
    forall q ensures LeafAt(Put(patch, r, Null), q) ==
                     WantSoFar(base, working, kept, ALL, removed + iset{r}, iset{}, q) {
      PutLeaf(patch, r, Null, q);
    }
  }

  /** A dropped setting is put unless a change or removal decides for it. */
  lemma DropRoom(patch: Json, base: Json, working: Json, kept: seq<Path>, dropped: iset<Path>, b: Path)
    requires b != [] && Dropped(base, working, kept, b) && b !in dropped
    requires SoFar(patch, base, working, kept, ALL, ALL, dropped)
    ensures Walk(patch, b).Off? <==> DropPut(base, working, kept, b)
  {
    if DropPut(base, working, kept, b) {
      ValueIsLeaf(base, b);
      forall x | IsPrefix(x, b) ensures LeafAt(patch, x) == None {
        NoDropAbove(base, working, kept, dropped, b, x);
      }
      forall x | Above(b, x) ensures LeafAt(patch, x) == None {
        NoDropBelow(base, working, kept, dropped, b, x);
      }
      NothingThere(patch, b);
    } else if ChangesAbove(base, working, b) {
      var c :| Above(c, b) && Changes(base, working, c);
      assert LeafAt(patch, c).Some?;
      WalkOfLeaf(patch, c, b);
    } else {
      var c :| Above(b, c) && (Changes(base, working, c) || KeptPut(base, working, kept, c));
      assert LeafAt(patch, c).Some?;
      AboveIsObject(patch, b, c);
      WalkOfObject(patch, b);
    }
  }

  lemma DroppedIsNotKept(base: Json, working: Json, kept: seq<Path>, b: Path)
    requires Dropped(base, working, kept, b)
    ensures !KeptPut(base, working, kept, b) && !Changes(base, working, b)
  {
    assert IsPrefix(b, b);
  }

  lemma PutDropped(patch: Json, base: Json, working: Json, kept: seq<Path>, dropped: iset<Path>, b: Path)
    requires b != [] && Dropped(base, working, kept, b) && b !in dropped
    requires SoFar(patch, base, working, kept, ALL, ALL, dropped)
    ensures SoFar(Put(patch, b, Null), base, working, kept, ALL, ALL, dropped + iset{b})
  {
    hide Put, Walk, LeafAt, KeptPut, DropPut, Changes, Dropped, Pruned;
    DropRoom(patch, base, working, kept, dropped, b);
    PutPruned(patch, b, Null);
    DroppedIsNotKept(base, working, kept, b);
    forall q ensures LeafAt(Put(patch, b, Null), q) ==
                     WantSoFar(base, working, kept, ALL, ALL, dropped + iset{b}, q) {
      PutLeaf(patch, b, Null, q);
    }
  }

  lemma NoDropBelow(base: Json, working: Json, kept: seq<Path>, dropped: iset<Path>, b: Path, x: Path)
    requires Above(b, x) && DropPut(base, working, kept, b)
    ensures WantSoFar(base, working, kept, ALL, ALL, dropped, x) == None
  {
    ValueIsLeaf(base, b);
    LeafEnds(base, b, x);
  }

  lemma NoDropAbove(base: Json, working: Json, kept: seq<Path>, dropped: iset<Path>, b: Path, x: Path)
    requires IsPrefix(x, b) && DropPut(base, working, kept, b) && b !in dropped
    ensures WantSoFar(base, working, kept, ALL, ALL, dropped, x) == None
  {
    PrefixCases(x, b);
    if x != b && DropPut(base, working, kept, x) {
      ValueIsLeaf(base, x);
      LeafEnds(base, x, b);
    }
  }

  /** `had.get(id)?.value`. */
  function ValueOf(t: map<string, Leaf>, id: string): Option<string> {
    if id in t then Some(t[id].value) else None
  }

  /** No setting of `config` but `q` itself has the row of `q`. */
  ghost predicate OwnsRow(config: Json, q: Path) {
    q != [] && forall r :: r != [] && ValueAt(config, r).Some? && RowIdOf(r) == RowIdOf(q) ==> r == q
  }

  lemma TableValue(t: map<string, Leaf>, config: Json, q: Path)
    requires LeafTable(t, config) && OwnsRow(config, q)
    ensures ValueOf(t, RowIdOf(q)) == ValueAt(config, q)
  {
  }

  /** The paths of the rows `ids`. */
  ghost function PathsOf(t: map<string, Leaf>, ids: set<string>): iset<Path> {
    iset q: Path | PathAmong(t, ids, q)
  }

  ghost predicate PathAmong(t: map<string, Leaf>, ids: set<string>, q: Path) {
    exists id :: id in ids && id in t && t[id].path == q
  }

  lemma NotAmongPaths(t: map<string, Leaf>, config: Json, ids: set<string>, id: string)
    requires LeafTable(t, config) && id in t && id !in ids
    ensures t[id].path !in PathsOf(t, ids)
  {
  }

  lemma PathsOfNone(t: map<string, Leaf>)
    ensures PathsOf(t, {}) == iset{}
  {
  }

  lemma PathsOfMore(t: map<string, Leaf>, ids: set<string>, id: string)
    requires id in t
    ensures PathsOf(t, ids + {id}) == PathsOf(t, ids) + iset{t[id].path}
  {
  }

  lemma RowIsSetting(t: map<string, Leaf>, base: Json, working: Json, id: string)
    requires DistinctRows(base, working) && id in t && (LeafTable(t, base) || LeafTable(t, working))
    ensures t[id].path != [] && id == RowIdOf(t[id].path)
    ensures LeafTable(t, base) ==> ValueAt(base, t[id].path) == Some(t[id].value)
    ensures LeafTable(t, working) ==> ValueAt(working, t[id].path) == Some(t[id].value)
    ensures OwnsRow(base, t[id].path) && OwnsRow(working, t[id].path)
  {
    hide ValueAt, RowIdOf;
    assert Sets(base, working, t[id].path);
    forall r | r != [] && RowIdOf(r) == id && (ValueAt(base, r).Some? || ValueAt(working, r).Some?)
      ensures r == t[id].path
    {
      assert Sets(base, working, r);
    }
  }

  lemma SettingIsRow(t: map<string, Leaf>, config: Json, q: Path)
    requires LeafTable(t, config) && config.Obj? && ValueAt(config, q).Some?
    ensures q in PathsOf(t, t.Keys)
  {
    hide ValueAt, RowIdOf;
    SettingKey(config, q);
    assert t[RowIdOf(q)].path == q;
  }

  /** The patch once the row `id` of what is being edited has been looked at. */
  function WithChange(patch: Json, had: map<string, Leaf>, has: map<string, Leaf>, id: string): Json
    requires patch.Obj? && id in has && has[id].path != []
  {
    if ValueOf(had, id) != Some(has[id].value) then Put(patch, has[id].path, Str(has[id].value)) else patch
  }

  lemma ChangeStep(patch: Json, base: Json, working: Json, kept: seq<Path>, had: map<string, Leaf>,
                   has: map<string, Leaf>, ids: set<string>, id: string)
    requires base.Obj? && working.Obj? && DistinctRows(base, working)
    requires LeafTable(had, base) && LeafTable(has, working)
    requires patch.Obj? && id in has && id !in ids
    requires SoFar(patch, base, working, kept, PathsOf(has, ids), iset{}, iset{})
    ensures has[id].path != [] &&
            SoFar(WithChange(patch, had, has, id), base, working, kept, PathsOf(has, ids + {id}), iset{}, iset{})
  {
    hide SoFar, LeafTable, DistinctRows, PathsOf, Put, RowIdOf, ValueAt, OwnsRow;
    var w := has[id];
    RowIsSetting(has, base, working, id);
    TableValue(had, base, w.path);
    NotAmongPaths(has, working, ids, id);
    PutChanged(patch, base, working, kept, PathsOf(has, ids), w.path);
    PathsOfMore(has, ids, id);
  }

  /** The first loop: every setting that `Changes`. */
  method PutChanges(base: Json, working: Json, kept: seq<Path>, had: map<string, Leaf>, has: map<string, Leaf>)
    returns (patch: Json)
    requires base.Obj? && working.Obj? && DistinctRows(base, working)
    requires LeafTable(had, base) && LeafTable(has, working)
    ensures SoFar(patch, base, working, kept, ALL, iset{}, iset{})
  {
    patch := EMPTY_OBJECT;
    var left := has.Keys;
    assert SoFar(patch, base, working, kept, PathsOf(has, {}), iset{}, iset{});
    assert has.Keys - left == {};
    hide SoFar, LeafTable, DistinctRows, Put, PathsOf;
    while left != {}
      invariant left <= has.Keys
      invariant SoFar(patch, base, working, kept, PathsOf(has, has.Keys - left), iset{}, iset{})
      decreases left
    {
      var id :| id in left;
      SoFarIsObject(patch, base, working, kept, PathsOf(has, has.Keys - left), iset{}, iset{});
      ChangeStep(patch, base, working, kept, had, has, has.Keys - left, id);
      assert has.Keys - left + {id} == has.Keys - (left - {id});
      if ValueOf(had, id) != Some(has[id].value) {
        patch := Put(patch, has[id].path, Str(has[id].value));
      }
      left := left - {id};
    }
    assert has.Keys - left == has.Keys;
    AllChanged(patch, base, working, kept, has);
  }

  lemma SoFarIsObject(patch: Json, base: Json, working: Json, kept: seq<Path>, changed: iset<Path>, removed: iset<Path>,
                      dropped: iset<Path>)
    requires SoFar(patch, base, working, kept, changed, removed, dropped)
    ensures patch.Obj?
  {
  }

  lemma AllChanged(patch: Json, base: Json, working: Json, kept: seq<Path>, has: map<string, Leaf>)
    requires working.Obj? && LeafTable(has, working)
    requires SoFar(patch, base, working, kept, PathsOf(has, has.Keys), iset{}, iset{})
    ensures SoFar(patch, base, working, kept, ALL, iset{}, iset{})
  {
    forall q | Changes(base, working, q) ensures q in PathsOf(has, has.Keys) {
      SettingIsRow(has, working, q);
    }
  }

  /** The second loop: every removal still in force, and the rows of `base` it covers. */
  method PutRemovals(start: Json, base: Json, working: Json, kept: seq<Path>, had: map<string, Leaf>,
                     has: map<string, Leaf>)
    returns (patch: Json, covered: set<string>)
    requires base.Obj? && working.Obj? && DistinctRows(base, working)
    requires LeafTable(had, base) && LeafTable(has, working)
    requires PrefixFree(kept) && [] !in kept
    requires SoFar(start, base, working, kept, ALL, iset{}, iset{})
    ensures SoFar(patch, base, working, kept, ALL, ALL, iset{})
    ensures covered == set id | id in had && Covered(working, kept, had[id].path)
  {
    hide SoFar, LeafTable, DistinctRows, Put, PrefixFree, Covered, CoveredBy, FirstKept, StillInForce;
    patch, covered := start, {};
    NoneKept(working, kept);
    SoFarIsObject(patch, base, working, kept, ALL, iset{}, iset{});
    for i := 0 to |kept|
      invariant patch.Obj? && SoFar(patch, base, working, kept, ALL, FirstKept(kept, i), iset{})
      invariant covered == set id | id in had && CoveredBy(working, kept, i, had[id].path)
    {
      var r := kept[i];
      StillInForceIffNoRow(working, kept, has, r);
      FirstKeptNext(kept, i);
      if exists id :: id in has && IsPrefix(r, has[id].path) {
        NotPut(patch, base, working, kept, FirstKept(kept, i), r);
      } else {
        PutRemoval(patch, base, working, kept, FirstKept(kept, i), r);
        patch := Put(patch, r, Null);
        covered := covered + set id | id in had && IsPrefix(r, had[id].path);
      }
      CoveredNext(working, kept, i);
      SoFarIsObject(patch, base, working, kept, ALL, FirstKept(kept, i + 1), iset{});
    }
    AllCovered(working, kept);
    AllKept(patch, base, working, kept);
  }

  lemma CoveredNext(working: Json, kept: seq<Path>, i: nat)
    requires i < |kept|
    ensures forall q :: CoveredBy(working, kept, i + 1, q) <==>
      CoveredBy(working, kept, i, q) || (StillInForce(working, kept, kept[i]) && IsPrefix(kept[i], q))
  {
    hide StillInForce, IsPrefix;
  }

  ghost function FirstKept(kept: seq<Path>, i: nat): iset<Path>
    requires i <= |kept|
  {
    iset r | r in kept[..i]
  }

  lemma NoneKept(working: Json, kept: seq<Path>)
    ensures FirstKept(kept, 0) == iset{}
    ensures forall q :: !CoveredBy(working, kept, 0, q)
  {
  }

  lemma FirstKeptNext(kept: seq<Path>, i: nat)
    requires i < |kept|
    ensures FirstKept(kept, i + 1) == FirstKept(kept, i) + iset{kept[i]}
  {
  }

  lemma AllCovered(working: Json, kept: seq<Path>)
    ensures forall q :: CoveredBy(working, kept, |kept|, q) <==> Covered(working, kept, q)
  {
    hide StillInForce;
    forall q ensures CoveredBy(working, kept, |kept|, q) <==> Covered(working, kept, q) {
      if Covered(working, kept, q) {
        var r :| StillInForce(working, kept, r) && IsPrefix(r, q);
        StillInForceIsKept(working, kept, r);
      }
    }
  }

  lemma StillInForceIsKept(working: Json, kept: seq<Path>, r: Path)
    requires StillInForce(working, kept, r)
    ensures exists j :: 0 <= j < |kept| && kept[j] == r
  {
  }

  lemma AllKept(patch: Json, base: Json, working: Json, kept: seq<Path>)
    requires SoFar(patch, base, working, kept, ALL, FirstKept(kept, |kept|), iset{})
    ensures SoFar(patch, base, working, kept, ALL, ALL, iset{})
  {
    assert kept[..|kept|] == kept;
  }

  ghost predicate CoveredBy(working: Json, kept: seq<Path>, i: nat, q: Path)
    requires i <= |kept|
  {
    exists j :: 0 <= j < i && StillInForce(working, kept, kept[j]) && IsPrefix(kept[j], q)
  }

  lemma StillInForceIffNoRow(working: Json, kept: seq<Path>, has: map<string, Leaf>, r: Path)
    requires working.Obj? && LeafTable(has, working) && r in kept
    ensures StillInForce(working, kept, r) <==> !exists id :: id in has && IsPrefix(r, has[id].path)
  {
    if StillInForce(working, kept, r) {
      forall id | id in has ensures !IsPrefix(r, has[id].path) {
        assert ValueAt(working, has[id].path).Some?;
      }
    } else {
      var w :| IsPrefix(r, w) && ValueAt(working, w).Some?;
      SettingKey(working, w);
      assert RowIdOf(w) in has && has[RowIdOf(w)].path == w;
    }
  }

  lemma NotPut(patch: Json, base: Json, working: Json, kept: seq<Path>, removed: iset<Path>, r: Path)
    requires !StillInForce(working, kept, r)
    requires SoFar(patch, base, working, kept, ALL, removed, iset{})
    ensures SoFar(patch, base, working, kept, ALL, removed + iset{r}, iset{})
  {
  }

  /** The third loop: every setting of `base` dropped and not covered. */
  method PutDrops(start: Json, base: Json, working: Json, kept: seq<Path>, had: map<string, Leaf>,
                  has: map<string, Leaf>, covered: set<string>)
    returns (patch: Json)
    requires base.Obj? && working.Obj? && DistinctRows(base, working)
    requires LeafTable(had, base) && LeafTable(has, working)
    requires covered == set id | id in had && Covered(working, kept, had[id].path)
    requires SoFar(start, base, working, kept, ALL, ALL, iset{})
    ensures IsDiff(patch, base, working, kept)
  {
    hide SoFar, LeafTable, DistinctRows, Covered, PathsOf, Put, IsDiff, ValueAt, RowIdOf, OwnsRow;
    patch := start;
    var left := had.Keys;
    PathsOfNone(had);
    assert had.Keys - left == {};
    SoFarIsObject(patch, base, working, kept, ALL, ALL, iset{});
    while left != {}
      invariant left <= had.Keys
      invariant patch.Obj? && SoFar(patch, base, working, kept, ALL, ALL, PathsOf(had, had.Keys - left))
      decreases left
    {
      var id :| id in left;
      var b := had[id];
      RowIsSetting(had, base, working, id);
      TableValue(has, working, b.path);
      PathsOfMore(had, had.Keys - left, id);
      assert had.Keys - left + {id} == had.Keys - (left - {id});
      if id !in has && id !in covered {
        NotAmongPaths(had, base, had.Keys - left, id);
        PutDropped(patch, base, working, kept, PathsOf(had, had.Keys - left), b.path);
        patch := Put(patch, b.path, Null);
      } else {
        NotDropped(patch, base, working, kept, PathsOf(had, had.Keys - left), b.path);
      }
      SoFarIsObject(patch, base, working, kept, ALL, ALL, PathsOf(had, had.Keys - (left - {id})));
      left := left - {id};
    }
    assert had.Keys - left == had.Keys;
    AllDropped(patch, base, working, kept, had);
  }

  lemma NotDropped(patch: Json, base: Json, working: Json, kept: seq<Path>, dropped: iset<Path>, b: Path)
    requires !Dropped(base, working, kept, b)
    requires SoFar(patch, base, working, kept, ALL, ALL, dropped)
    ensures SoFar(patch, base, working, kept, ALL, ALL, dropped + iset{b})
  {
  }

  lemma AllDropped(patch: Json, base: Json, working: Json, kept: seq<Path>, had: map<string, Leaf>)
    requires base.Obj? && LeafTable(had, base)
    requires SoFar(patch, base, working, kept, ALL, ALL, PathsOf(had, had.Keys))
    ensures IsDiff(patch, base, working, kept)
  {
    forall q | DropPut(base, working, kept, q) ensures q in PathsOf(had, had.Keys) {
      SettingIsRow(had, base, q);
    }
  }

  lemma DistinctInEach(base: Json, working: Json)
    requires DistinctRows(base, working)
    ensures DistinctRows(base, base) && DistinctRows(working, working)
  {
    hide ValueAt, RowIdOf;
    assert forall q :: Sets(base, base, q) || Sets(working, working, q) ==> Sets(base, working, q);
  }

  /** `overrideDiff`. */
  method OverrideDiff(base: Json, working: Json, kept: seq<Path>) returns (patch: Json)
    requires base.Obj? && working.Obj? && DistinctRows(base, working)
    requires PrefixFree(kept) && [] !in kept
    ensures IsDiff(patch, base, working, kept)
  {
    var had := Leaves(base);
    var has := Leaves(working);
    DistinctInEach(base, working);
    patch := PutChanges(base, working, kept, had, has);
    var covered;
    patch, covered := PutRemovals(patch, base, working, kept, had, has);
    patch := PutDrops(patch, base, working, kept, had, has, covered);
    PruneEmptyOfPruned(patch);
    patch := PruneEmpty(patch);
  }

  lemma PruneEmptyOfPruned(v: Json)
    requires Pruned(v)
    ensures PruneEmpty(v) == v
  {
    PruneEmptyPrunes(v);
    forall q ensures LeafAt(PruneEmpty(v), q) == LeafAt(v, q) {
      PruneEmptyLeaves(v, q);
    }
    PrunedUnique(PruneEmpty(v), v);
  }

  /** `removalsOf`: every null leaf of a patch. */
  method RemovalsOf(patch: Json) returns (out: seq<Path>)
    requires patch.Obj?
    ensures AreRemovals(out, patch) && PrefixFree(out) && [] !in out
  {
    out := RemovalsWalk(patch, [], []);
    forall r ensures r in out <==> LeafAt(patch, r) == Some(Null) {
      assert [] + r == r;
      assert IsPrefix([], r) && r[0..] == r;
    }
    forall r, s | r in out && s in out ensures !Above(r, s) {
      if Above(r, s) {
        LeafEnds(patch, r, s);
      }
    }
  }

  /** `r` is a removal of `node`, found at `path`. */
  predicate RemovalAt(node: Json, path: Path, r: Path) {
    IsPrefix(path, r) && LeafAt(node, r[|path|..]) == Some(Null)
  }

  lemma RemovalUnderKey(node: Json, path: Path, k: string, r: Path)
    requires node.Obj? && k in node.fields
    ensures Above(path, r) && r[|path|] == k ==>
      (RemovalAt(node, path, r) <==>
       if node.fields[k].Null? then r == path + [k]
       else node.fields[k].Obj? && RemovalAt(node.fields[k], path + [k], r))
    ensures RemovalAt(node.fields[k], path + [k], r) || r == path + [k] ==> Above(path, r) && r[|path|] == k
  {
    Beyond(path, k, r);
    if Above(path, r) && r[|path|] == k {
      var rest := r[|path| + 1..];
      LeafUnder(node, k, rest);
      assert r[|path + [k]|..] == rest;
      assert rest == [] <==> r == path + [k];
    }
  }

  method RemovalsWalk(node: Json, path: Path, before: seq<Path>) returns (out: seq<Path>)
    requires node.Obj?
    ensures forall r :: r in out <==> r in before || RemovalAt(node, path, r)
    decreases node
  {
    out := before;
    var left := node.fields.Keys;
    while left != {}
      invariant left <= node.fields.Keys
      invariant forall r :: r in out <==>
                r in before || (Above(path, r) && r[|path|] !in left && RemovalAt(node, path, r))
      decreases left
    {
      hide RemovalAt, Above;
      var k :| k in left;
      var v := node.fields[k];
      ghost var mid := out;
      if v.Null? {
        out := out + [path + [k]];
      } else if v.Obj? {
        out := RemovalsWalk(v, path + [k], out);
      }
      forall r ensures r in out <==> r in mid || (Above(path, r) && r[|path|] == k && RemovalAt(node, path, r)) {
        RemovalUnderKey(node, path, k, r);
      }
      left := left - {k};
    }
    forall r ensures RemovalAt(node, path, r) ==> Above(path, r) {
      assert |r| == |path| ==> r[|path|..] == [];
    }
  }
}
