/** Config documents seen as leaves at paths, and merging seen the same way. */
module ConfigTrees {
  import opened JsonModel
  import opened MergePatches

  type Path = seq<string>

  /** The value at `q`, if the document goes that far. */
  function At(v: Json, q: Path): Option<Json>
    decreases |q|
  {
    if q == [] then Some(v)
    else if v.Obj? && q[0] in v.fields then At(v.fields[q[0]], q[1..])
    else None
  }

  /** The leaf at `q`: a value there that is not an object. */
  function LeafAt(v: Json, q: Path): Option<Json> {
    match At(v, q)
    case Some(x) => if x.Obj? then None else Some(x)
    case None => None
  }

  /** The setting at `q`: a leaf that is not null. */
  function SettingAt(v: Json, q: Path): Option<Json> {
    match LeafAt(v, q)
    case Some(x) => if x.Null? then None else Some(x)
    case None => None
  }

  predicate IsPrefix(p: Path, q: Path) {
    |p| <= |q| && q[..|p|] == p
  }

  predicate Above(p: Path, q: Path) {
    |p| < |q| && IsPrefix(p, q)
  }

  lemma FirstKeys(p: Path, q: Path)
    requires p != [] && q != []
    ensures IsPrefix(p, q) <==> p[0] == q[0] && IsPrefix(p[1..], q[1..])
    ensures p == q <==> p[0] == q[0] && p[1..] == q[1..]
  {
    assert p == [p[0]] + p[1..] && q == [q[0]] + q[1..];
    if |p| <= |q| {
      assert q[..|p|] == [q[0]] + q[1..][..|p| - 1];
    }
  }

  lemma AboveMeansPrefix(q: Path, path: Path, k: string)
    ensures Above(q, path + [k]) <==> IsPrefix(q, path)
  {
    if |q| <= |path| {
      assert (path + [k])[..|q|] == path[..|q|];
    }
  }

  /** What lies at or beneath one key of the section `path`. */
  lemma Beyond(path: Path, k: string, q: Path)
    ensures IsPrefix(path + [k], q) <==> Above(path, q) && q[|path|] == k
    ensures IsPrefix(path + [k], q) ==> q[|path|..] == [k] + q[|path| + 1..]
    ensures IsPrefix(q, path + [k]) <==> IsPrefix(q, path) || q == path + [k]
  {
    var p := path + [k];
    if |p| <= |q| {
      assert q[..|p|] == q[..|path|] + [q[|path|]];
    }
    if |q| <= |path| {
      assert p[..|q|] == path[..|q|];
    } else if |q| == |p| {
      assert p[..|q|] == p;
    }
  }

  /** Where walking down `v` along `q` ends: at a leaf with `rest` still to go, on an object
      exactly at `q`, or off the document. */
  datatype Walked = OnLeaf(leaf: Json, rest: Path) | OnObject | Off

  function Walk(v: Json, q: Path): Walked
    decreases |q|
  {
    if !v.Obj? then OnLeaf(v, q)
    else if q == [] then OnObject
    else if q[0] in v.fields then Walk(v.fields[q[0]], q[1..])
    else Off
  }

  lemma {:induction false} WalkMeaning(v: Json, q: Path)
    ensures match Walk(v, q)
      case OnLeaf(x, rest) => |rest| <= |q| && q[|q| - |rest|..] == rest && LeafAt(v, q[..|q| - |rest|]) == Some(x)
      case OnObject => At(v, q).Some? && At(v, q).value.Obj?
      case Off => At(v, q) == None
    decreases |q|
  {
    if v.Obj? && q != [] && q[0] in v.fields {
      WalkMeaning(v.fields[q[0]], q[1..]);
      var w := Walk(v, q);
      if w.OnLeaf? {
        var n := |q| - |w.rest|;
        assert q[..n][1..] == q[1..][..n - 1];
      }
    }
  }

  lemma {:induction false} AtConcat(v: Json, p: Path, q: Path)
    ensures At(v, p + q) == match At(v, p) { case Some(x) => At(x, q) case None => None }
    decreases |p|
  {
    if p == [] {
      assert p + q == q;
    } else {
      assert (p + q)[1..] == p[1..] + q;
      if v.Obj? && p[0] in v.fields {
        AtConcat(v.fields[p[0]], p[1..], q);
      }
    }
  }

  /** Nothing lies beneath a leaf. */
  lemma LeafEnds(v: Json, p: Path, q: Path)
    requires LeafAt(v, p).Some? && Above(p, q)
    ensures At(v, q) == None
  {
    assert q == p + q[|p|..];
    AtConcat(v, p, q[|p|..]);
  }

  /** Every step on the way to a value is an object. */
  lemma AboveIsObject(v: Json, p: Path, q: Path)
    requires At(v, q).Some? && Above(p, q)
    ensures At(v, p).Some? && At(v, p).value.Obj?
  {
    assert q == p + q[|p|..];
    AtConcat(v, p, q[|p|..]);
  }

  lemma WalkOfLeaf(v: Json, p: Path, q: Path)
    requires LeafAt(v, p).Some? && IsPrefix(p, q)
    ensures Walk(v, q) == OnLeaf(LeafAt(v, p).value, q[|p|..])
    decreases |p|
  {
    if p == [] {
    } else {
      assert q[0] == p[0];
      assert q[1..][..|p| - 1] == p[1..];
      WalkOfLeaf(v.fields[p[0]], p[1..], q[1..]);
    }
  }

  lemma WalkOfObject(v: Json, q: Path)
    ensures Walk(v, q).OnObject? <==> At(v, q).Some? && At(v, q).value.Obj?
  {
    WalkMeaning(v, q);
    if Walk(v, q).OnLeaf? && Walk(v, q).rest != [] {
      LeafEnds(v, q[..|q| - |Walk(v, q).rest|], q);
    }
  }

  // ---- Merging, leaf by leaf ----

  /** A merged document's leaf at `q` is decided by where the patch's walk along `q` ends. */
  lemma {:induction false} MergeLeaf(target: Option<Json>, patch: Json, q: Path)
    ensures LeafAt(RfcMerge(target, patch), q) ==
      match Walk(patch, q)
      case OnLeaf(x, rest) => if rest == [] && (!x.Null? || q == []) then Some(x) else None
      case OnObject => None
      case Off => if target.Some? then LeafAt(target.value, q) else None
    decreases |q|
  {
    if patch.Obj? && q != [] {
      var t := Members(target);
      var k := q[0];
      if k in patch.fields {
        if !patch.fields[k].Null? {
          MergeLeaf(Field(t, k), patch.fields[k], q[1..]);
        }
      }
    }
  }

  // ---- Trees without empty sections are determined by their leaves ----

  /** No object inside `v` is empty. */
  predicate Pruned(v: Json) {
    v.Obj? ==> forall k :: k in v.fields ==> v.fields[k] != EMPTY_OBJECT && Pruned(v.fields[k])
  }

  /** Below every object of a pruned tree there is a leaf. */
  lemma {:induction false} LeafBelow(v: Json) returns (q: Path)
    requires Pruned(v) && v != EMPTY_OBJECT
    ensures LeafAt(v, q).Some?
    decreases v
  {
    if v.Obj? {
      assert v.fields != map[];
      var k :| k in v.fields;
      var rest := LeafBelow(v.fields[k]);
      q := [k] + rest;
      assert q[1..] == rest;
    } else {
      q := [];
    }
  }

  lemma {:induction false} PrunedInside(v: Json, q: Path)
    requires Pruned(v) && At(v, q).Some?
    ensures Pruned(At(v, q).value)
    ensures q != [] ==> At(v, q).value != EMPTY_OBJECT
    decreases |q|
  {
    if q == [] {
    } else {
      PrunedInside(v.fields[q[0]], q[1..]);
    }
  }

  lemma LeafBelowObject(v: Json, q: Path) returns (w: Path)
    requires Pruned(v) && q != [] && Walk(v, q).OnObject?
    ensures Above(q, w) && LeafAt(v, w).Some?
  {
    WalkOfObject(v, q);
    PrunedInside(v, q);
    var rest := LeafBelow(At(v, q).value);
    w := q + rest;
    AtConcat(v, q, rest);
  }

  ghost predicate SameLeaves(a: Json, b: Json) {
    forall q :: LeafAt(a, q) == LeafAt(b, q)
  }

  lemma {:induction false} PrunedUnique(a: Json, b: Json)
    requires Pruned(a) && Pruned(b) && SameLeaves(a, b)
    requires a.Obj? <==> b.Obj?
    ensures a == b
    decreases a
  {
    if !a.Obj? {
      assert LeafAt(a, []) == LeafAt(b, []);
    } else {
      forall k ensures Field(a.fields, k) == Field(b.fields, k) {
        PrunedUniqueAt(a, b, k);
      }
      assert forall k :: k in a.fields <==> Field(a.fields, k).Some?;
      assert forall k :: k in b.fields <==> Field(b.fields, k).Some?;
      assert forall k :: k in a.fields ==> Field(a.fields, k) == Some(a.fields[k]);
      assert a.fields == b.fields;
    }
  }

  lemma {:induction false} PrunedUniqueAt(a: Json, b: Json, k: string)
    requires a.Obj? && b.Obj? && Pruned(a) && Pruned(b) && SameLeaves(a, b)
    ensures Field(a.fields, k) == Field(b.fields, k)
    decreases a, 0
  {
    if k in a.fields {
      KeyShared(a, b, k);
      var x, y := a.fields[k], b.fields[k];
      forall q ensures LeafAt(x, q) == LeafAt(y, q) {
        LeafUnder(a, k, q);
        LeafUnder(b, k, q);
        assert LeafAt(a, [k] + q) == LeafAt(b, [k] + q);
      }
      assert x.Obj? <==> LeafAt(x, []) == None;
      assert y.Obj? <==> LeafAt(y, []) == None;
      PrunedUnique(x, y);
    } else if k in b.fields {
      KeyShared(b, a, k);
    }
  }

  lemma KeyShared(a: Json, b: Json, k: string)
    requires a.Obj? && b.Obj? && Pruned(a) && SameLeaves(a, b) && k in a.fields
    ensures k in b.fields
  {
    var w := LeafBelow(a.fields[k]);
    LeafUnder(a, k, w);
    LeafUnder(b, k, w);
    assert LeafAt(a, [k] + w) == LeafAt(b, [k] + w);
  }

  lemma LeafUnder(v: Json, k: string, q: Path)
    requires v.Obj?
    ensures LeafAt(v, [k] + q) == if k in v.fields then LeafAt(v.fields[k], q) else None
  {
    assert ([k] + q)[1..] == q;
  }
}
