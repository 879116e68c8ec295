/** The differ as it runs: an object that appends changes up to a cap and remembers which
    parents it has already reported. */
module Differs {
  import opened JsonModel
  import opened Text
  import opened Ordering
  import opened FactPaths
  import opened FactsDiff
  import opened FactsReplay

  const MAX_SHOWN_STRING := 200
  const MAX_SHOWN_LIST := 16
  const ELLIPSIS: char := '\U{2026}'

  function ClipTo(s: string, max: nat): string {
    if |s| <= max then s else s[..max] + [ELLIPSIS]
  }

  function ShownElement(v: Json): Json {
    match v case Str(s) => Str(ClipTo(s, MAX_SHOWN_STRING)) case _ => v
  }

  predicate Scalar(v: Json) {
    !v.Obj? && !v.Arr?
  }

  /** What a listed change carries of a value: scalars, and short lists of scalars, with long
      strings clipped; nothing of the rest. */
  function Shown(v: Json): Option<Json> {
    match v
    case Str(_) => Some(ShownElement(v))
    case Arr(items) =>
      if |items| <= MAX_SHOWN_LIST && forall i :: 0 <= i < |items| ==> Scalar(items[i])
      then Some(Arr(seq(|items|, i requires 0 <= i < |items| => ShownElement(items[i]))))
      else None
    case Obj(_) => None
    case _ => Some(v)
  }

  function ShownIfAny(v: Option<Json>): Option<Json> {
    match v case Some(x) => Shown(x) case None => None
  }

  /** `shown` is the text `s` up to 200 characters, and an ellipsis for the rest. */
  predicate ShowsText(shown: Json, s: string) {
    shown.Str? &&
    if |s| <= 200 then shown.s == s
    else |shown.s| == 201 && shown.s[..200] == s[..200] && shown.s[200] == '\U{2026}'
  }

  /** `shown` is what a change may carry of `v`, kind by kind: no map, no list of more than 16
      items or with a list or map in it; any other value as it is, but for long strings. */
  predicate Shows(shown: Option<Json>, v: Json) {
    match v
    case Str(s) => shown.Some? && ShowsText(shown.value, s)
    case Arr(items) =>
      if |items| > 16 || exists i :: 0 <= i < |items| && (items[i].Arr? || items[i].Obj?) then shown == None
      else
        && shown.Some? && shown.value.Arr? && |shown.value.items| == |items|
        && forall i :: 0 <= i < |items| ==>
             if items[i].Str? then ShowsText(shown.value.items[i], items[i].s) else shown.value.items[i] == items[i]
    case Obj(_) => shown == None
    case _ => shown == Some(v)
  }

  /** `shown` shows a value where there is one. */
  predicate ShowsIfAny(shown: Option<Json>, v: Option<Json>) {
    if v.Some? then Shows(shown, v.value) else shown == None
  }

  lemma ShownShows(v: Option<Json>)
    ensures ShowsIfAny(ShownIfAny(v), v)
  {
  }

  function Listed(c: Change): FactChange {
    FactChange(Render(c.steps), c.kind, ShownIfAny(c.before), ShownIfAny(c.after))
  }

  function ListedAll(cs: seq<Change>): seq<FactChange> {
    seq(|cs|, i requires 0 <= i < |cs| => Listed(cs[i]))
  }

  /** What is listed of everything found, under a cap of `max`. */
  function Capped(cs: seq<Change>, max: nat): seq<FactChange> {
    ListedAll(if |cs| <= max then cs else cs[..max])
  }

  function FieldOf(v: Json, k: string): Option<Json> {
    if v.Obj? && k in v.fields then Some(v.fields[k]) else None
  }

  /** No parent at or below `p` has been reported. */
  ghost predicate Untold(told: set<string>, p: seq<Step>) {
    forall q :: Located(q) && Extends(p, q) ==> Render(q) !in told
  }

  /** Only parents at or below `p` were reported since. */
  ghost predicate ToldBelow(before: set<string>, after: set<string>, p: seq<Step>) {
    && before <= after
    && forall x :: x in after ==> x in before || exists q :: Located(q) && Extends(p, q) && x == Render(q)
  }

  /** Only `p` itself, and parents at or below the entries `ks` of it, were reported since. */
  ghost predicate ToldOf(before: set<string>, after: set<string>, p: seq<Step>, o: Json, ks: seq<string>) {
    && before <= after
    && forall x :: x in after ==>
      || x in before
      || x == Render(p)
      || exists k, q :: k in ks && Located(q) && Extends(p + [StepFor(o, k)], q) && x == Render(q)
  }

  lemma LocatedInjective(a: seq<Step>, b: seq<Step>)
    requires Located(a) && Located(b) && Render(a) == Render(b)
    ensures a == b
  {
    RenderEmpty(a);
    RenderEmpty(b);
    if a != [] && b != [] {
      RenderInjective(a, b);
    }
  }

  lemma RenderEmpty(a: seq<Step>)
    requires Located(a)
    ensures Render(a) == "" <==> a == []
  {
  }

  /** A new entry's part of the document has not been reported by the others. */
  lemma UntoldEntry(before: set<string>, after: set<string>, p: seq<Step>, o: Json, ks: seq<string>, k: string)
    requires Untold(before, p) && ToldOf(before, after, p, o, ks) && k !in ks && Located(p)
    ensures Untold(after, p + [StepFor(o, k)])
  {
    var s := StepFor(o, k);
    forall q | Located(q) && Extends(p + [s], q) ensures Render(q) !in after {
      SplitSteps(p, s, q);
      if Render(q) == Render(p) {
        LocatedInjective(q, p);
      }
      forall k', q' | k' in ks && Located(q') && Extends(p + [StepFor(o, k')], q') && Render(q) == Render(q')
        ensures false
      {
        LocatedInjective(q, q');
        SplitSteps(p, StepFor(o, k'), q');
        StepForInjective(o, k, k');
      }
    }
  }

  lemma ToldOfMore(before: set<string>, mid: set<string>, after: set<string>, p: seq<Step>, o: Json, ks: seq<string>,
                   k: string)
    requires ToldOf(before, mid, p, o, ks)
    requires ToldBelow(mid, after, p + [StepFor(o, k)]) || (mid <= after && after <= mid + {Render(p)})
    ensures ToldOf(before, after, p, o, ks + [k])
  {
    assert forall j :: j in ks ==> j in ks + [k];
    assert k in ks + [k];
  }

  lemma ToldOfBelow(before: set<string>, after: set<string>, p: seq<Step>, o: Json, ks: seq<string>)
    requires ToldOf(before, after, p, o, ks) && Located(p)
    ensures ToldBelow(before, after, p)
  {
    forall x | x in after ensures x in before || exists q :: Located(q) && Extends(p, q) && x == Render(q) {
      if x !in before && x != Render(p) {
        var k, q :| k in ks && Located(q) && Extends(p + [StepFor(o, k)], q) && x == Render(q);
        SplitSteps(p, StepFor(o, k), q);
      }
    }
  }

  lemma ToldOfStart(told: set<string>, after: set<string>, p: seq<Step>, o: Json)
    requires told <= after <= told + {Render(p)}
    ensures ToldOf(told, after, p, o, [])
  {
  }

  lemma UntoldHere(told: set<string>, p: seq<Step>)
    requires Located(p) && Untold(told, p)
    ensures Render(p) !in told
  {
    assert Extends(p, p);
  }

  /** Reporting below an entry never reports the parent. */
  lemma PathNotBelow(p: seq<Step>, s: Step, told: set<string>)
    requires Located(p)
    ensures forall after :: ToldBelow(told, after, p + [s]) ==> (Render(p) in after <==> Render(p) in told)
  {
    forall q | Located(q) && Extends(p + [s], q) ensures Render(q) != Render(p) {
      SplitSteps(p, s, q);
      if Render(q) == Render(p) {
        LocatedInjective(q, p);
      }
    }
  }

  /** The specification, one name at a time: its changes move over to what is found. */
  lemma NextName(all: seq<Change>, found: seq<Change>, p: seq<Step>, o: Json, n: Json, ks: seq<string>, told: bool)
    requires SameKind(o, n) && ks != []
    requires all == found + DiffNames(p, o, n, ks, told)
    ensures all == found + DiffName(p, o, n, ks[0], told)
                   + DiffNames(p, o, n, ks[1..], told || TellsParent(p, o, n, ks[0]))
  {
  }

  lemma TakeDrop(ks: seq<string>, i: nat)
    requires i < |ks| && NoRepeats(ks)
    ensures ks[i..][0] == ks[i] && ks[i..][1..] == ks[i + 1..]
    ensures ks[..i + 1] == ks[..i] + [ks[i]]
    ensures ks[i] !in ks[..i]
  {
  }

  lemma WithoutDrop(a: seq<string>, b: seq<string>, i: nat)
    requires i < |a|
    ensures Without(a[i..], b) + b ==
            if a[i] in b then Without(a[i + 1..], b) + b else [a[i]] + (Without(a[i + 1..], b) + b)
  {
    assert a[i..][1..] == a[i + 1..];
  }

  class Differ {
    var changes: seq<FactChange>
    var truncated: nat
    const max: nat
    /** The paths whose one report of unspellable changes has been made. */
    var atParent: set<string>
    /** Everything pushed, listed or not. */
    ghost var found: seq<Change>

    ghost predicate Valid()
      reads this
    {
      changes == Capped(found, max) && truncated == |found| - |changes|
    }

    constructor (max: nat)
      ensures Valid() && this.max == max && found == [] && atParent == {}
    {
      this.max := max;
      changes, truncated, atParent, found := [], 0, {}, [];
    }

    method Push(path: string, kind: ChangeKind, before: Option<Json>, after: Option<Json>, ghost c: Change)
      requires Valid()
      requires c.kind == kind && c.before == before && c.after == after && path == Render(c.steps)
      modifies this
      ensures Valid() && atParent == old(atParent) && found == old(found) + [c]
      ensures old(|changes|) >= max ==> changes == old(changes) && truncated == old(truncated) + 1
      ensures old(|changes|) < max ==>
        && truncated == old(truncated) && |changes| == old(|changes|) + 1 && changes[..old(|changes|)] == old(changes)
        && var listed := changes[old(|changes|)];
           && listed.path == path && listed.kind == kind
           && ShowsIfAny(listed.before, before) && ShowsIfAny(listed.after, after)
    {
      found := found + [c];
      ShownShows(before);
      ShownShows(after);
      if |changes| >= max {
        truncated := truncated + 1;
        assert max == |changes| ==> found[..max] == old(found)[..max];
        return;
      }
      changes := changes + [FactChange(path, kind, ShownIfAny(before), ShownIfAny(after))];
    }

    method ChangedBeneath(path: string, ghost p: seq<Step>)
      requires Valid() && path == Render(p)
      modifies this
      ensures Valid() && atParent == old(atParent) + {path}
      ensures found == if path in old(atParent) then old(found) else old(found) + [Beneath(p)]
    {
      if path !in atParent {
        atParent := atParent + {path};
        Push(path, Changed, None, None, Beneath(p));
      }
    }

    /** `Differ::value`: reports exactly what the specification finds from here on. */
    method Value(path: string, before: Json, after: Json, ghost p: seq<Step>)
      requires Valid() && Located(p) && path == Render(p) && Untold(atParent, p)
      modifies this
      ensures Valid() && found == old(found) + DiffValue(p, before, after)
      ensures ToldBelow(old(atParent), atParent, p)
      decreases before, 1, 0
    {
      hide Shows, Shown, ShowsIfAny, Capped, Located, Render, Untold, IsRecordList;
      assert ToldBelow(atParent, atParent, p);
      hide ToldBelow;
      match (before, after) {
        case (Obj(_), Obj(_)) =>
          Object(path, before, after, p);
        case (Arr(a), Arr(b)) =>
          var ai := RecordIds(a);
          var bi := RecordIds(b);
          if ai.Some? && bi.Some? {
            Records(path, before, ai.value, after, bi.value, p);
          } else if before != after {
            Push(path, Changed, Some(before), Some(after), Change(p, Changed, Some(before), Some(after)));
          }
        case _ =>
          if before != after {
            Push(path, Changed, Some(before), Some(after), Change(p, Changed, Some(before), Some(after)));
          }
      }
    }

    method Object(path: string, before: Json, after: Json, ghost p: seq<Step>)
      requires before.Obj? && after.Obj?
      requires Valid() && Located(p) && path == Render(p) && Untold(atParent, p)
      modifies this
      ensures Valid() && found == old(found) + DiffValue(p, before, after)
      ensures ToldBelow(old(atParent), atParent, p)
      decreases before, 0, 2
    {
      var keys := SortedKeys(before.fields.Keys + after.fields.Keys);
      ObjectKeys(path, keys, before, after, p);
    }

    /** `Differ::object`'s loop over the sorted keys. */
    method ObjectKeys(path: string, keys: seq<string>, before: Json, after: Json, ghost p: seq<Step>)
      requires before.Obj? && after.Obj? && NoRepeats(keys)
      requires forall k :: k in keys ==> k in before.fields || k in after.fields
      requires Valid() && Located(p) && path == Render(p) && Untold(atParent, p)
      modifies this
      ensures Valid() && found == old(found) + DiffNames(p, before, after, keys, false)
      ensures ToldBelow(old(atParent), atParent, p)
      decreases before, 0, 1
    {
      hide IsRecordList, Untold, ToldOf, ToldBelow, Capped, DiffName, TellsParent, StepFor, Located, Render;
      ghost var all, told := found + DiffNames(p, before, after, keys, false), atParent;
      UntoldHere(told, p);
      assert keys[0..] == keys && keys[..0] == [];
      ToldOfStart(told, atParent, p, before);
      for i := 0 to |keys|
        invariant Valid() && ToldOf(told, atParent, p, before, keys[..i])
        invariant all == found + DiffNames(p, before, after, keys[i..], path in atParent)
      {
        ghost var at := atParent;
        TakeDrop(keys, i);
        NextName(all, found, p, before, after, keys[i..], path in atParent);
        UntoldEntry(told, atParent, p, before, keys[..i], keys[i]);
        ObjectKey(path, keys[i], before, after, p);
        ToldOfMore(told, at, atParent, p, before, keys[..i], keys[i]);
      }
      ToldOfBelow(told, atParent, p, before, keys[..|keys|]);
    }

    /** One key of `Differ::object`'s loop. */
    method ObjectKey(path: string, k: string, before: Json, after: Json, ghost p: seq<Step>)
      requires before.Obj? && after.Obj? && (k in before.fields || k in after.fields)
      requires Valid() && Located(p) && path == Render(p) && Untold(atParent, p + [StepFor(before, k)])
      modifies this
      ensures Valid() && found == old(found) + DiffName(p, before, after, k, path in old(atParent))
      ensures path in atParent <==> path in old(atParent) || TellsParent(p, before, after, k)
      ensures ToldBelow(old(atParent), atParent, p + [StepFor(before, k)]) ||
              old(atParent) <= atParent <= old(atParent) + {path}
      decreases before, 0, 0
    {
      ghost var q := p + [StepFor(before, k)];
      ChildSpells(p, k, false);
      match Child(path, k, false) {
        case None =>
          if FieldOf(before, k) != FieldOf(after, k) {
            ChangedBeneath(path, p);
          }
        case Some(at) =>
          match (FieldOf(before, k), FieldOf(after, k)) {
            case (Some(x), Some(y)) =>
              PathNotBelow(p, StepFor(before, k), atParent);
              Value(at, x, y, q);
            case (Some(x), None) =>
              Push(at, Removed, Some(x), None, Change(q, Removed, Some(x), None));
            case (None, Some(y)) =>
              Push(at, Added, None, Some(y), Change(q, Added, None, Some(y)));
            case (None, None) =>
              assert false;
          }
      }
    }

    method Records(path: string, before: Json, beforeIds: seq<string>, after: Json, afterIds: seq<string>,
                   ghost p: seq<Step>)
      requires before.Arr? && IsRecordList(before.items) && beforeIds == Ids(before.items)
      requires after.Arr? && IsRecordList(after.items) && afterIds == Ids(after.items)
      requires Valid() && Located(p) && path == Render(p) && Untold(atParent, p)
      modifies this
      ensures Valid() && found == old(found) + DiffValue(p, before, after)
      ensures ToldBelow(old(atParent), atParent, p)
      decreases before, 0, 1, 1
    {
      hide IsRecordList, Untold, ToldOf, ToldBelow, Capped, DiffName, TellsParent, StepFor, Located, Render;
      ghost var all, told := found + DiffValue(p, before, after), atParent;
      OrderCovers(before, after);
      IdsAreNames(before);
      IdsAreNames(after);
      UntoldHere(told, p);
      assert beforeIds[0..] == beforeIds && afterIds[0..] == afterIds && afterIds[..0] == [];
      RemovedRecords(path, before, beforeIds, after, afterIds, p, all);
      ToldOfStart(told, atParent, p, before);
      PresentRecords(path, before, after, afterIds, p, all, told);
    }

    /** The first loop of `Differ::records`: the records the new list lacks. */
    method RemovedRecords(path: string, before: Json, beforeIds: seq<string>, after: Json, afterIds: seq<string>,
                          ghost p: seq<Step>, ghost all: seq<Change>)
      requires before.Arr? && IsRecordList(before.items) && after.Arr? && IsRecordList(after.items)
      requires (forall id :: id in beforeIds ==> id in View(before))
               && forall id :: id in afterIds <==> id in View(after)
      requires Valid() && Located(p) && path == Render(p)
      requires all == found + DiffNames(p, before, after, Without(beforeIds, afterIds) + afterIds, path in atParent)
      modifies this
      ensures Valid() && old(atParent) <= atParent <= old(atParent) + {path}
      ensures all == found + DiffNames(p, before, after, afterIds, path in atParent)
    {
      hide IsRecordList, Capped, DiffName, TellsParent, StepFor, Located, Render, View, DiffNames;
      assert beforeIds[0..] == beforeIds;
      for i := 0 to |beforeIds|
        invariant Valid() && old(atParent) <= atParent <= old(atParent) + {path}
        invariant all ==
          found + DiffNames(p, before, after, Without(beforeIds[i..], afterIds) + afterIds, path in atParent)
      {
        var id := beforeIds[i];
        WithoutDrop(beforeIds, afterIds, i);
        if id !in afterIds {
          ghost var ks := Without(beforeIds[i..], afterIds) + afterIds;
          NextName(all, found, p, before, after, ks, path in atParent);
          assert ks[1..] == Without(beforeIds[i + 1..], afterIds) + afterIds;
          RemovedRecord(path, id, before, after, p);
        }
      }
      assert Without(beforeIds[|beforeIds|..], afterIds) + afterIds == afterIds;
    }

    /** The second loop of `Differ::records`: the records of the new list. */
    method PresentRecords(path: string, before: Json, after: Json, afterIds: seq<string>, ghost p: seq<Step>,
                          ghost all: seq<Change>, ghost told: set<string>)
      requires before.Arr? && IsRecordList(before.items) && after.Arr? && IsRecordList(after.items)
      requires NoRepeats(afterIds) && forall id :: id in afterIds ==> id in View(after)
      requires Valid() && Located(p) && path == Render(p) && Untold(told, p) && ToldOf(told, atParent, p, before, [])
      requires all == found + DiffNames(p, before, after, afterIds, path in atParent)
      modifies this
      ensures Valid() && found == all && ToldBelow(told, atParent, p)
      decreases before, 0, 1, 0
    {
      hide IsRecordList, Untold, ToldOf, ToldBelow, Capped, DiffName, TellsParent, StepFor, Located, Render, View;
      assert afterIds[0..] == afterIds && afterIds[..0] == [];
      for i := 0 to |afterIds|
        invariant Valid() && ToldOf(told, atParent, p, before, afterIds[..i])
        invariant all == found + DiffNames(p, before, after, afterIds[i..], path in atParent)
      {
        ghost var at := atParent;
        TakeDrop(afterIds, i);
        NextName(all, found, p, before, after, afterIds[i..], path in atParent);
        UntoldEntry(told, atParent, p, before, afterIds[..i], afterIds[i]);
        PresentRecord(path, afterIds[i], before, after, p);
        ToldOfMore(told, at, atParent, p, before, afterIds[..i], afterIds[i]);
      }
      ToldOfBelow(told, atParent, p, before, afterIds[..|afterIds|]);
    }

    /** One id of the first loop of `Differ::records`: a record the new list lacks. */
    method RemovedRecord(path: string, id: string, before: Json, after: Json, ghost p: seq<Step>)
      requires before.Arr? && after.Arr? && SameKind(before, after)
      requires id in View(before) && id !in View(after)
      requires Valid() && Located(p) && path == Render(p)
      modifies this
      ensures Valid() && found == old(found) + DiffName(p, before, after, id, path in old(atParent))
      ensures path in atParent <==> path in old(atParent) || TellsParent(p, before, after, id)
      ensures old(atParent) <= atParent <= old(atParent) + {path}
    {
      PickSpells(p, id);
      var v := View(before)[id];
      match PickPath(path, id) {
        case Some(at) =>
          Push(at, Removed, Some(v), None, Change(p + [Pick(id)], Removed, Some(v), None));
        case None =>
          ChangedBeneath(path, p);
      }
    }

    /** One id of the second loop of `Differ::records`: a record of the new list. */
    method PresentRecord(path: string, id: string, before: Json, after: Json, ghost p: seq<Step>)
      requires before.Arr? && after.Arr? && SameKind(before, after) && id in View(after)
      requires Valid() && Located(p) && path == Render(p) && Untold(atParent, p + [StepFor(before, id)])
      modifies this
      ensures Valid() && found == old(found) + DiffName(p, before, after, id, path in old(atParent))
      ensures path in atParent <==> path in old(atParent) || TellsParent(p, before, after, id)
      ensures ToldBelow(old(atParent), atParent, p + [StepFor(before, id)]) ||
              old(atParent) <= atParent <= old(atParent) + {path}
      decreases before, 0, 0
    {
      hide DiffValue, View, Render, WellFormed, Untold;
      ghost var q := p + [Pick(id)];
      PickSpells(p, id);
      var v, old' := View(after)[id], Entry(before, id);
      match PickPath(path, id) {
        case None =>
          if old' != Some(v) {
            ChangedBeneath(path, p);
          }
        case Some(at) =>
          match old' {
            case Some(o) =>
              ViewSmaller(before, id);
              PathNotBelow(p, Pick(id), atParent);
              Value(at, o, v, q);
            case None =>
              Push(at, Added, None, Some(v), Change(q, Added, None, Some(v)));
          }
      }
    }
  }

  /** `diff`: the capped list is the first `max` of everything found, and the rest is counted. */
  method Diff(before: Json, after: Json, max: nat) returns (changes: seq<FactChange>, truncated: nat)
    ensures changes == Capped(DiffValue([], before, after), max)
    ensures |changes| + truncated == |DiffValue([], before, after)|
    ensures forall i :: 0 <= i < |changes| ==> Tells(changes[i], before, after)
  {
    hide DiffValue, Capped, Tells;
    var d := new Differ(max);
    d.Value("", before, after, []);
    assert [] + DiffValue([], before, after) == DiffValue([], before, after);
    forall i | 0 <= i < |d.changes| ensures Tells(d.changes[i], before, after) {
      ListedChangesTell(before, after, max, i);
    }
    return d.changes, d.truncated;
  }

  /** What a listed path finds in a document: `""` is the document itself. */
  function FoundAt(doc: Json, path: string): seq<Json> {
    if path == "" then [doc]
    else match ParseSteps(path) case Ok(steps) => ResolveSteps(doc, steps) case Err(_) => []
  }

  /** A listed change read by itself: its path finds one value or none in each document, as its
      kind says, and it shows the values found; two containers that differ in what has no path
      of its own are reported without values. */
  ghost predicate Tells(listed: FactChange, before: Json, after: Json) {
    var was, now := FoundAt(before, listed.path), FoundAt(after, listed.path);
    match listed.kind
    case Added => was == [] && |now| == 1 && listed.before == None && Shows(listed.after, now[0])
    case Removed => |was| == 1 && now == [] && Shows(listed.before, was[0]) && listed.after == None
    case Changed =>
      && |was| == 1 && |now| == 1 && was[0] != now[0]
      && if SameKind(was[0], now[0]) then listed.before == None && listed.after == None
         else Shows(listed.before, was[0]) && Shows(listed.after, now[0])
  }

  /** A change that is real says so once it is listed under a path that finds what its steps find. */
  lemma RealTells(c: Change, path: string, before: Json, after: Json)
    requires Real(before, after, c.steps, c)
    requires FoundAt(before, path) == ResolveSteps(before, c.steps)
    requires FoundAt(after, path) == ResolveSteps(after, c.steps)
    ensures Tells(FactChange(path, c.kind, ShownIfAny(c.before), ShownIfAny(c.after)), before, after)
  {
    hide FoundAt, ResolveSteps, SameKind;
    ShownShows(c.before);
    ShownShows(c.after);
    hide Shown, Shows;
  }

  lemma ListedChangesTell(before: Json, after: Json, max: nat, i: nat)
    requires i < |Capped(DiffValue([], before, after), max)|
    ensures Tells(Capped(DiffValue([], before, after), max)[i], before, after)
  {
    hide DiffValue, Tells, Real, Render, ParseSteps;
    var cs := DiffValue([], before, after);
    ListedChangesAreReal(before, after, max, i);
    assert Capped(cs, max)[i] == Listed(cs[i]);
    RealTells(cs[i], Render(cs[i].steps), before, after);
  }

  /** Every listed change is real: its path is `""`, the whole document, or parses within the
      selector's limit, and finds one value or none on either side just as the kind says. */
  lemma ListedChangesAreReal(before: Json, after: Json, max: nat, i: nat)
    requires i < |Capped(DiffValue([], before, after), max)|
    ensures i < |DiffValue([], before, after)|
    ensures var c := DiffValue([], before, after)[i];
      var listed := Capped(DiffValue([], before, after), max)[i];
      && listed.kind == c.kind
      && (if listed.path == "" then c.steps == []
          else ParseSteps(listed.path) == Ok(c.steps) && Utf8Len(listed.path) <= MAX_FACT_PATH_LEN)
      && Real(before, after, c.steps, c)
  {
    var cs := DiffValue([], before, after);
    assert Capped(cs, max)[i] == Listed(cs[i]);
    DiffValueReal([], before, after, cs[i]);
    assert cs[i].steps[0..] == cs[i].steps;
    RenderEmpty(cs[i].steps);
    if cs[i].steps != [] {
      ParseIffSpells(Render(cs[i].steps), cs[i].steps);
    }
  }

  /** No two listed changes have the same path. */
  lemma ListedPathsAreDistinct(before: Json, after: Json, max: nat)
    ensures var listed := Capped(DiffValue([], before, after), max);
      forall i, j :: 0 <= i < j < |listed| ==> listed[i].path != listed[j].path
  {
    var cs := DiffValue([], before, after);
    var listed := Capped(cs, max);
    DiffValueDistinct([], before, after);
    forall i, j | 0 <= i < j < |listed| ensures listed[i].path != listed[j].path {
      assert listed[i] == Listed(cs[i]) && listed[j] == Listed(cs[j]);
      DiffValueReal([], before, after, cs[i]);
      DiffValueReal([], before, after, cs[j]);
      if listed[i].path == listed[j].path {
        LocatedInjective(cs[i].steps, cs[j].steps);
      }
    }
  }

  /** Equal documents have no changes. */
  lemma {:induction false} EqualDocumentsDoNotDiffer(p: seq<Step>, v: Json)
    ensures DiffValue(p, v, v) == []
    decreases v, 1, 0
  {
    if Container(v) {
      EqualNamesDoNotDiffer(p, v, Order(v, v), false);
    }
  }

  lemma {:induction false} EqualNamesDoNotDiffer(p: seq<Step>, v: Json, ks: seq<string>, told: bool)
    requires Container(v)
    ensures DiffNames(p, v, v, ks, told) == []
    decreases v, 0, |ks|
  {
    if ks == [] {
    } else {
      hide DiffName, TellsParent, Container;
      EqualNameDoesNotDiffer(p, v, ks[0], told);
      EqualNamesDoNotDiffer(p, v, ks[1..], told);
    }
  }

  lemma {:induction false} EqualNameDoesNotDiffer(p: seq<Step>, v: Json, k: string, told: bool)
    requires Container(v)
    ensures DiffName(p, v, v, k, told) == [] && !TellsParent(p, v, v, k)
    decreases v, 0, 0
  {
    hide DiffValue, View, Beneath;
    if k in View(v) {
      ViewSmaller(v, k);
      EqualDocumentsDoNotDiffer(p + [StepFor(v, k)], View(v)[k]);
    }
  }
}
