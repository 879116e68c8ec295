/** The facts differ (`crates/core/src/facts/mod.rs`): what it lists, and what a list means. */
module FactsDiff {
  import opened JsonModel
  import opened Text
  import opened Ordering
  import opened FactPaths

  datatype ChangeKind = Added | Removed | Changed

  /** A change as the differ finds it: the steps it is spelled by, and the values in full. */
  datatype Change = Change(steps: seq<Step>, kind: ChangeKind, before: Option<Json>, after: Option<Json>)

  /** A change as it is listed. */
  datatype FactChange = FactChange(path: string, kind: ChangeKind, before: Option<Json>, after: Option<Json>)

  // ---- Record lists ----

  predicate IsRecord(v: Json) {
    v.Obj? && "id" in v.fields && v.fields["id"].Str?
  }

  function IdOf(v: Json): string
    requires IsRecord(v)
  {
    v.fields["id"].s
  }

  /** A list whose elements can be told apart by their ids. */
  predicate IsRecordList(items: seq<Json>) {
    && (forall i :: 0 <= i < |items| ==> IsRecord(items[i]))
    && (forall i, j :: 0 <= i < j < |items| ==> IdOf(items[i]) != IdOf(items[j]))
  }

  function Ids(items: seq<Json>): (r: seq<string>)
    requires IsRecordList(items)
    ensures |r| == |items| && NoRepeats(r)
  {
    seq(|items|, i requires 0 <= i < |items| => IdOf(items[i]))
  }

  /** `record_ids`. */
  method RecordIds(list: seq<Json>) returns (r: Option<seq<string>>)
    ensures r == if IsRecordList(list) then Some(Ids(list)) else None
  {
    var ids: seq<string> := [];
    var seen: set<string> := {};
    for i := 0 to |list|
      invariant IsRecordList(list[..i]) && ids == Ids(list[..i])
      invariant forall id :: id in seen <==> id in ids
    {
      var v := list[i];
      if !IsRecord(v) {
        return None;
      }
      var id := IdOf(v);
      if id in seen {
        assert exists j :: 0 <= j < i && IdOf(list[..i][j]) == id;
        return None;
      }
      assert list[..i + 1] == list[..i] + [v];
      assert forall j :: 0 <= j < i ==> ids[j] == IdOf(list[..i][j]) && ids[j] in ids;
      seen := seen + {id};
      ids := ids + [id];
    }
    assert list[..|list|] == list;
    return Some(ids);
  }

  // ---- Maps and record lists alike: values found by name ----

  predicate Container(v: Json) {
    v.Obj? || (v.Arr? && IsRecordList(v.items))
  }

  predicate SameKind(a: Json, b: Json) {
    Container(a) && Container(b) && (a.Obj? <==> b.Obj?)
  }

  function View(v: Json): (m: map<string, Json>)
    requires Container(v)
    ensures v.Obj? ==> m == v.fields
    ensures v.Arr? ==> forall i :: 0 <= i < |v.items| ==> IdOf(v.items[i]) in m && m[IdOf(v.items[i])] == v.items[i]
    ensures v.Arr? ==> forall k :: k in m ==> exists i :: 0 <= i < |v.items| && IdOf(v.items[i]) == k
  {
    match v
    case Obj(fields) => fields
    case Arr(items) => map i | 0 <= i < |items| :: IdOf(items[i]) := items[i]
  }

  lemma ViewSmaller(v: Json, k: string)
    requires Container(v) && k in View(v)
    ensures View(v)[k] < v
    ensures v.Arr? ==> IsRecord(View(v)[k]) && IdOf(View(v)[k]) == k
  {
    if v.Arr? {
      var i :| 0 <= i < |v.items| && IdOf(v.items[i]) == k;
    }
  }

  function Entry(v: Json, k: string): Option<Json>
    requires Container(v)
  {
    if k in View(v) then Some(View(v)[k]) else None
  }

  function StepFor(v: Json, k: string): Step {
    if v.Obj? then ChildStep(k) else Pick(k)
  }

  lemma StepForInjective(v: Json, a: string, b: string)
    requires StepFor(v, a) == StepFor(v, b)
    ensures a == b
  {
  }

  // ---- What the differ finds ----

  /** A path that can be written and stored. */
  predicate Spelled(steps: seq<Step>) {
    WellFormed(steps) && Utf8Len(Render(steps)) <= MAX_FACT_PATH_LEN
  }

  /** The report of a change beneath `p` that cannot be spelled. */
  function Beneath(p: seq<Step>): Change {
    Change(p, Changed, None, None)
  }

  /** The old ids the new list lacks, then the new list's: the order records are visited in. */
  function RecordOrder(before: seq<string>, after: seq<string>): seq<string> {
    Without(before, after) + after
  }

  function Without(a: seq<string>, b: seq<string>): seq<string> {
    if a == [] then []
    else (if a[0] in b then [] else [a[0]]) + Without(a[1..], b)
  }

  lemma {:induction false} WithoutMembers(a: seq<string>, b: seq<string>)
    requires NoRepeats(a)
    ensures forall x :: x in Without(a, b) <==> x in a && x !in b
    ensures NoRepeats(Without(a, b))
  {
    if a == [] {
    } else {
      assert NoRepeats(a[1..]);
      WithoutMembers(a[1..], b);
      assert a == [a[0]] + a[1..];
    }
  }

  /** The order in which the differ visits the names of two containers. */
  function Order(o: Json, n: Json): seq<string>
    requires SameKind(o, n)
  {
    if o.Obj? then SortedKeys(o.fields.Keys + n.fields.Keys)
    else RecordOrder(Ids(o.items), Ids(n.items))
  }

  lemma OrderCovers(o: Json, n: Json)
    requires SameKind(o, n)
    ensures NoRepeats(Order(o, n))
    ensures forall k :: k in Order(o, n) <==> k in View(o) || k in View(n)
  {
    if o.Arr? {
      var a, b := Ids(o.items), Ids(n.items);
      WithoutMembers(a, b);
      var x := Without(a, b);
      assert forall i :: 0 <= i < |x| ==> x[i] in x;
      forall i, j | 0 <= i < j < |x + b| ensures (x + b)[i] != (x + b)[j] {
        if i < |x| <= j {
          assert (x + b)[i] in x && (x + b)[j] == b[j - |x|] && b[j - |x|] in b;
        }
      }
      IdsAreNames(o);
      IdsAreNames(n);
    }
  }

  lemma IdsAreNames(v: Json)
    requires v.Arr? && Container(v)
    ensures forall k :: k in Ids(v.items) <==> k in View(v)
  {
    forall k ensures k in Ids(v.items) <==> k in View(v) {
      if k in Ids(v.items) {
        var i :| 0 <= i < |v.items| && Ids(v.items)[i] == k;
        assert IdOf(v.items[i]) == k;
      }
      if k in View(v) {
        var i :| 0 <= i < |v.items| && IdOf(v.items[i]) == k;
        assert Ids(v.items)[i] == k;
      }
    }
  }

  /** Every change from `o` to `n`, both found at `p`, in the order the differ finds them. */
  function DiffValue(p: seq<Step>, o: Json, n: Json): seq<Change>
    decreases o, 1, 0
  {
    if SameKind(o, n) then DiffNames(p, o, n, Order(o, n), false)
    else if o == n then []
    else [Change(p, Changed, Some(o), Some(n))]
  }

  /** The changes at the names `ks`. `told`: `p` itself was already reported as changed. */
  function DiffNames(p: seq<Step>, o: Json, n: Json, ks: seq<string>, told: bool): seq<Change>
    requires SameKind(o, n)
    decreases o, 0, |ks|
  {
    if ks == [] then []
    else
      var k := ks[0];
      DiffName(p, o, n, k, told) + DiffNames(p, o, n, ks[1..], told || TellsParent(p, o, n, k))
  }

  /** A change at `k` that only `p` can be reported for. */
  predicate TellsParent(p: seq<Step>, o: Json, n: Json, k: string)
    requires SameKind(o, n)
  {
    !Spelled(p + [StepFor(o, k)]) && Entry(o, k) != Entry(n, k)
  }

  function DiffName(p: seq<Step>, o: Json, n: Json, k: string, told: bool): seq<Change>
    requires SameKind(o, n)
    decreases o, 0, 0
  {
    var q := p + [StepFor(o, k)];
    if !Spelled(q) then
      if TellsParent(p, o, n, k) && !told then [Beneath(p)] else []
    else
      match (Entry(o, k), Entry(n, k))
      case (Some(a), Some(b)) => ViewSmaller(o, k); DiffValue(q, a, b)
      case (Some(a), None) => [Change(q, Removed, Some(a), None)]
      case (None, Some(b)) => [Change(q, Added, None, Some(b))]
      case (None, None) => []
  }
}
