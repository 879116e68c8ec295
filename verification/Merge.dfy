/** JSON Merge Patch (`crates/core/src/merge.rs`) against section 2 of RFC 7396. */
module MergePatches {
  import opened JsonModel

  /** The members of a target; no target, and one of another kind, has none. */
  function Members(target: Option<Json>): map<string, Json> {
    if target.Some? && target.value.Obj? then target.value.fields else map[]
  }

  /** MergePatch(Target, Patch) of section 2 of RFC 7396; an undefined target is `None`. */
  function RfcMerge(target: Option<Json>, patch: Json): Json
    decreases patch
  {
    if patch.Obj? then
      var t := Members(target);
      Obj(map k | k in t.Keys + patch.fields.Keys && !(k in patch.fields && patch.fields[k].Null?) ::
            if k in patch.fields then RfcMerge(Field(t, k), patch.fields[k]) else t[k])
    else patch
  }

  /** `strip_nulls`. */
  function StripNulls(v: Json): Json {
    match v
    case Obj(m) => Obj(map k | k in m && !m[k].Null? :: StripNulls(m[k]))
    case _ => v
  }

  /** Inserting a stripped value is merging into an absent target. */
  lemma {:induction false} StripNullsIsMergeIntoAbsent(v: Json)
    ensures StripNulls(v) == RfcMerge(None, v)
    decreases v
  {
    if !v.Obj? {
    } else {
      forall k | k in v.fields ensures StripNulls(v.fields[k]) == RfcMerge(None, v.fields[k]) {
        StripNullsIsMergeIntoAbsent(v.fields[k]);
      }
      assert StripNulls(v).fields == RfcMerge(None, v).fields;
    }
  }

  /** What merging the patch members `done` gives, the rest of `t` as it was. */
  function MergeOnly(t: map<string, Json>, p: map<string, Json>, done: set<string>): map<string, Json>
    requires done <= p.Keys
  {
    map k | k in t.Keys + done && !(k in done && p[k].Null?) ::
      if k in done then RfcMerge(Field(t, k), p[k]) else t[k]
  }

  lemma MergeOnlyNext(t: map<string, Json>, p: map<string, Json>, done: set<string>, k: string)
    requires done <= p.Keys && k in p && k !in done
    ensures Field(MergeOnly(t, p, done), k) == Field(t, k)
    ensures MergeOnly(t, p, done + {k}) ==
      if p[k].Null? then MergeOnly(t, p, done) - {k}
      else MergeOnly(t, p, done)[k := RfcMerge(Field(t, k), p[k])]
  {
    var a, b := MergeOnly(t, p, done), MergeOnly(t, p, done + {k});
    if p[k].Null? {
      assert b == a - {k};
    } else {
      assert b == a[k := RfcMerge(Field(t, k), p[k])];
    }
  }

  /** `merge_patch`: the target's members are removed, merged or inserted one patch member at
      a time, in whatever order the patch lists them. */
  method MergePatch(target: Json, patch: Json) returns (r: Json)
    ensures r == RfcMerge(Some(target), patch)
    decreases patch
  {
    if !patch.Obj? {
      return patch;
    }
    var members := if target.Obj? then target.fields else map[];
    ghost var t := members;
    var left := patch.fields.Keys;
    assert MergeOnly(t, patch.fields, {}) == t;
    while left != {}
      invariant left <= patch.fields.Keys
      invariant members == MergeOnly(t, patch.fields, patch.fields.Keys - left)
      decreases left
    {
      var k :| k in left;
      var v := patch.fields[k];
      ghost var done := patch.fields.Keys - left;
      MergeOnlyNext(t, patch.fields, done, k);
      assert done + {k} == patch.fields.Keys - (left - {k});
      if v.Null? {
        members := members - {k};
      } else if k in members {
        var merged := MergePatch(members[k], v);
        members := members[k := merged];
      } else {
        StripNullsIsMergeIntoAbsent(v);
        members := members[k := StripNulls(v)];
      }
      left := left - {k};
    }
    assert patch.fields.Keys - left == patch.fields.Keys;
    r := Obj(members);
  }

  /** Applying a patch twice is applying it once. */
  lemma {:induction false} MergeTwice(target: Option<Json>, patch: Json)
    ensures RfcMerge(Some(RfcMerge(target, patch)), patch) == RfcMerge(target, patch)
    decreases patch
  {
    if !patch.Obj? {
    } else {
      var t := Members(target);
      var once := RfcMerge(target, patch);
      var twice := RfcMerge(Some(once), patch);
      forall k | k in patch.fields && !patch.fields[k].Null? ensures twice.fields[k] == once.fields[k] {
        MergeTwice(Field(t, k), patch.fields[k]);
      }
      assert twice.fields == once.fields;
    }
  }

  /** No null is reachable through objects. */
  predicate NullFree(v: Json) {
    match v
    case Null => false
    case Obj(m) => forall k :: k in m ==> NullFree(m[k])
    case _ => true
  }

  /** A patch that is not itself null never brings a null into a null-free target. */
  lemma {:induction false} MergeStaysNullFree(target: Option<Json>, patch: Json)
    requires target.Some? ==> target.value.Obj? ==> NullFree(target.value)
    requires !patch.Null?
    ensures NullFree(RfcMerge(target, patch))
    decreases patch
  {
    if !patch.Obj? {
    } else {
      var t := Members(target);
      forall k | k in patch.fields && !patch.fields[k].Null? ensures NullFree(RfcMerge(Field(t, k), patch.fields[k])) {
        MergeStaysNullFree(Field(t, k), patch.fields[k]);
      }
    }
  }
}
