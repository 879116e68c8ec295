/** What a list of facts changes means: every listed change is real, no two have the same
    path, and replaying the list onto the old document gives the new one. */
module FactsReplay {
  import opened JsonModel
  import opened Ordering
  import opened FactPaths
  import opened FactsDiff

  // ---- Resolving through a container ----

  /** The view of a record list is the one map from each id to its record. */
  lemma ViewIs(items: seq<Json>, m: map<string, Json>)
    requires IsRecordList(items)
    requires forall i :: 0 <= i < |items| ==> IdOf(items[i]) in m && m[IdOf(items[i])] == items[i]
    requires forall k :: k in m ==> exists i :: 0 <= i < |items| && IdOf(items[i]) == k
    ensures View(Arr(items)) == m
  {
    var v := View(Arr(items));
    forall k ensures k in v <==> k in m {
    }
    forall k | k in m ensures v[k] == m[k] {
      var i :| 0 <= i < |items| && IdOf(items[i]) == k;
    }
  }

  /** A record list, first record and rest. */
  lemma ViewCons(items: seq<Json>)
    requires IsRecordList(items) && items != []
    ensures IsRecordList(items[1..])
    ensures IdOf(items[0]) !in View(Arr(items[1..]))
    ensures View(Arr(items)) == View(Arr(items[1..]))[IdOf(items[0]) := items[0]]
  {
    var first, rest := items[0], items[1..];
    assert forall i :: 0 <= i < |rest| ==> rest[i] == items[i + 1];
    var tail := View(Arr(rest));
    assert IdOf(first) !in tail;
    var m := tail[IdOf(first) := first];
    forall i | 0 <= i < |items| ensures IdOf(items[i]) in m && m[IdOf(items[i])] == items[i] {
      if i > 0 {
        assert items[i] == rest[i - 1];
      }
    }
    forall k | k in m ensures exists i :: 0 <= i < |items| && IdOf(items[i]) == k {
      if k in tail {
        var j :| 0 <= j < |rest| && IdOf(rest[j]) == k;
        assert items[j + 1] == rest[j];
      } else {
        assert items[0] == first;
      }
    }
    ViewIs(items, m);
  }

  lemma {:induction false} RecordsWithIdUnique(items: seq<Json>, id: string)
    requires IsRecordList(items)
    ensures RecordsWithId(items, id) == if id in View(Arr(items)) then [View(Arr(items))[id]] else []
  {
    if items == [] {
    } else {
      ViewCons(items);
      RecordsWithIdUnique(items[1..], id);
    }
  }

  lemma StepIntoEntry(v: Json, k: string)
    requires Container(v)
    ensures StepInto(v, StepFor(v, k)) == if k in View(v) then [View(v)[k]] else []
  {
    if v.Arr? {
      RecordsWithIdUnique(v.items, k);
    }
  }

  lemma {:induction false} ResolveNothing(steps: seq<Step>)
    ensures ResolveAll([], steps) == []
  {
    if steps == [] {
    } else {
      ResolveNothing(steps[1..]);
    }
  }

  /** A path into a container goes on from the entry its first step names. */
  lemma ResolveEntry(v: Json, k: string, rest: seq<Step>)
    requires Container(v)
    ensures ResolveSteps(v, [StepFor(v, k)] + rest) ==
            if k in View(v) then ResolveSteps(View(v)[k], rest) else []
  {
    var s := StepFor(v, k);
    StepAllSingle(v, s);
    StepIntoEntry(v, k);
    assert ([s] + rest)[1..] == rest;
    ResolveNothing(rest);
  }

  // ---- Every change is real ----

  /** Seen from `o` and `n`, the steps below them find what the change says. */
  ghost predicate Real(o: Json, n: Json, steps: seq<Step>, c: Change) {
    var was, now := ResolveSteps(o, steps), ResolveSteps(n, steps);
    match c.kind
    case Added => was == [] && |now| == 1 && c.before == None && c.after == Some(now[0])
    case Removed => |was| == 1 && now == [] && c.before == Some(was[0]) && c.after == None
    case Changed =>
      && |was| == 1 && |now| == 1 && was[0] != now[0]
      && if SameKind(was[0], now[0]) then c.before == None && c.after == None
         else c.before == Some(was[0]) && c.after == Some(now[0])
  }

  ghost predicate Extends(p: seq<Step>, q: seq<Step>) {
    |p| <= |q| && q[..|p|] == p
  }

  /** What the differ can find at one name. */
  lemma DiffNameCases(p: seq<Step>, o: Json, n: Json, k: string, told: bool, c: Change)
    requires SameKind(o, n)
    requires c in DiffName(p, o, n, k, told)
    ensures var q := p + [StepFor(o, k)];
      if !Spelled(q) then c == Beneath(p) && TellsParent(p, o, n, k) && !told
      else if k in View(o) && k in View(n) then c in DiffValue(q, View(o)[k], View(n)[k])
      else (k in View(o) || k in View(n)) &&
           c == Change(q, if k in View(n) then Added else Removed, Entry(o, k), Entry(n, k))
  {
  }

  lemma SplitSteps(p: seq<Step>, s: Step, steps: seq<Step>)
    requires Extends(p + [s], steps)
    ensures Extends(p, steps) && steps[|p|] == s
    ensures steps[|p|..] == [s] + steps[|p| + 1..]
  {
    assert steps[..|p|] == (p + [s])[..|p|] == p;
    assert steps[|p|] == steps[..|p| + 1][|p|];
  }

  lemma RealInside(o: Json, n: Json, k: string, rest: seq<Step>, c: Change)
    requires SameKind(o, n) && k in View(o) && k in View(n)
    requires Real(View(o)[k], View(n)[k], rest, c)
    ensures Real(o, n, [StepFor(o, k)] + rest, c)
  {
    ResolveEntry(o, k, rest);
    ResolveEntry(n, k, rest);
  }

  lemma RealOneSided(o: Json, n: Json, k: string, c: Change)
    requires SameKind(o, n) && (k in View(o) <==> k !in View(n))
    requires c.kind == (if k in View(n) then Added else Removed) && c.before == Entry(o, k) && c.after == Entry(n, k)
    ensures Real(o, n, [StepFor(o, k)] + [], c)
  {
    ResolveEntry(o, k, []);
    ResolveEntry(n, k, []);
  }

  lemma {:induction false} DiffValueReal(p: seq<Step>, o: Json, n: Json, c: Change)
    requires c in DiffValue(p, o, n)
    ensures Extends(p, c.steps)
    ensures Real(o, n, c.steps[|p|..], c)
    ensures c.steps == p || Spelled(c.steps)
    ensures c.kind.Removed? || c.kind.Added? ==> |c.steps| > |p|
    decreases o, 1, 0
  {
    if SameKind(o, n) {
      DiffNamesReal(p, o, n, Order(o, n), false, c);
    }
  }

  lemma {:induction false} DiffNamesReal(p: seq<Step>, o: Json, n: Json, ks: seq<string>, told: bool, c: Change)
    requires SameKind(o, n)
    requires c in DiffNames(p, o, n, ks, told)
    ensures Extends(p, c.steps)
    ensures Real(o, n, c.steps[|p|..], c)
    ensures c.steps == p || Spelled(c.steps)
    ensures c.kind.Removed? || c.kind.Added? ==> |c.steps| > |p|
    ensures c == Beneath(p) || exists k :: k in ks && |c.steps| > |p| && c.steps[|p|] == StepFor(o, k)
    decreases o, 0, |ks|
  {
    var k := ks[0];
    if c in DiffName(p, o, n, k, told) {
      DiffNameReal(p, o, n, k, told, c);
    } else {
      DiffNamesReal(p, o, n, ks[1..], told || TellsParent(p, o, n, k), c);
    }
  }

  lemma {:induction false} DiffNameReal(p: seq<Step>, o: Json, n: Json, k: string, told: bool, c: Change)
    requires SameKind(o, n)
    requires c in DiffName(p, o, n, k, told)
    ensures Extends(p, c.steps)
    ensures Real(o, n, c.steps[|p|..], c)
    ensures c.steps == p || Spelled(c.steps)
    ensures c.kind.Removed? || c.kind.Added? ==> |c.steps| > |p|
    ensures c == Beneath(p) || (|c.steps| > |p| && c.steps[|p|] == StepFor(o, k))
    ensures c == Beneath(p) ==> TellsParent(p, o, n, k) && !told
    decreases o, 0, 0
  {
    hide IsRecordList, WellFormed;
    var s := StepFor(o, k);
    var q := p + [s];
    DiffNameCases(p, o, n, k, told, c);
    if !Spelled(q) {
      assert c.steps[|p|..] == [];
      assert o != n;
    } else if k in View(o) && k in View(n) {
      ViewSmaller(o, k);
      DiffValueReal(q, View(o)[k], View(n)[k], c);
      SplitSteps(p, s, c.steps);
      RealInside(o, n, k, c.steps[|q|..], c);
    } else {
      SplitSteps(p, s, c.steps);
      RealOneSided(o, n, k, c);
    }
  }

  // ---- Every path is listed once ----

  ghost predicate PathsDistinct(cs: seq<Change>) {
    forall i, j :: 0 <= i < j < |cs| ==> cs[i].steps != cs[j].steps
  }

  lemma DistinctConcat(a: seq<Change>, b: seq<Change>)
    requires PathsDistinct(a) && PathsDistinct(b)
    requires forall x, y :: x in a && y in b ==> x.steps != y.steps
    ensures PathsDistinct(a + b)
  {
    forall i, j | 0 <= i < j < |a + b| ensures (a + b)[i].steps != (a + b)[j].steps {
      if i < |a| <= j {
        assert (a + b)[i] in a && (a + b)[j] in b;
      }
    }
  }

  lemma {:induction false} DiffValueDistinct(p: seq<Step>, o: Json, n: Json)
    ensures PathsDistinct(DiffValue(p, o, n))
    decreases o, 1, 0
  {
    if SameKind(o, n) {
      OrderCovers(o, n);
      DiffNamesDistinct(p, o, n, Order(o, n), false);
    }
  }

  /** The first name's changes and the later names' never share a path. */
  lemma DiffNamesApart(p: seq<Step>, o: Json, n: Json, ks: seq<string>, told: bool, x: Change, y: Change)
    requires SameKind(o, n) && NoRepeats(ks) && ks != []
    requires x in DiffName(p, o, n, ks[0], told)
    requires y in DiffNames(p, o, n, ks[1..], told || TellsParent(p, o, n, ks[0]))
    requires told || TellsParent(p, o, n, ks[0]) ==>
      Beneath(p) !in DiffNames(p, o, n, ks[1..], told || TellsParent(p, o, n, ks[0]))
    ensures x.steps != y.steps
  {
    DiffNameReal(p, o, n, ks[0], told, x);
    DiffNamesReal(p, o, n, ks[1..], told || TellsParent(p, o, n, ks[0]), y);
    if y != Beneath(p) {
      var j :| j in ks[1..] && |y.steps| > |p| && y.steps[|p|] == StepFor(o, j);
      assert j != ks[0];
      if |x.steps| > |p| && StepFor(o, ks[0]) == StepFor(o, j) {
        StepForInjective(o, j, ks[0]);
      }
    }
  }

  lemma {:induction false} DiffNamesDistinct(p: seq<Step>, o: Json, n: Json, ks: seq<string>, told: bool)
    requires SameKind(o, n) && NoRepeats(ks)
    ensures PathsDistinct(DiffNames(p, o, n, ks, told))
    ensures told ==> Beneath(p) !in DiffNames(p, o, n, ks, told)
    decreases o, 0, |ks|
  {
    hide IsRecordList;
    if ks == [] {
    } else {
      var k, told' := ks[0], told || TellsParent(p, o, n, ks[0]);
      var a, b := DiffName(p, o, n, k, told), DiffNames(p, o, n, ks[1..], told');
      if Spelled(p + [StepFor(o, k)]) && k in View(o) && k in View(n) {
        ViewSmaller(o, k);
        DiffValueDistinct(p + [StepFor(o, k)], View(o)[k], View(n)[k]);
      }
      DiffNamesDistinct(p, o, n, ks[1..], told');
      forall x, y | x in a && y in b ensures x.steps != y.steps {
        DiffNamesApart(p, o, n, ks, told, x, y);
      }
      DistinctConcat(a, b);
      if Beneath(p) in a {
        DiffNameReal(p, o, n, k, told, Beneath(p));
      }
    }
  }

  // ---- Replaying a list ----

  /** The one value a step leads to: a map's entry, or the first record with that id. */
  function Look(v: Json, s: Step): Option<Json> {
    match (v, s)
    case (Obj(m), Key(k)) => Field(m, k)
    case (Obj(m), Pick(k)) => Field(m, k)
    case (Arr(items), Pick(id)) =>
      var found := RecordsWithId(items, id);
      if found == [] then None else Some(found[0])
    case _ => None
  }

  /** Put `r` where a step leads, or delete what is there. */
  function Alter(v: Json, s: Step, r: Option<Json>): Json {
    match (v, s)
    case (Obj(m), Key(k)) => Obj(AlterField(m, k, r))
    case (Obj(m), Pick(k)) => Obj(AlterField(m, k, r))
    case (Arr(items), Pick(id)) => Arr(AlterRecord(items, id, r))
    case _ => v
  }

  function AlterField(m: map<string, Json>, k: string, r: Option<Json>): map<string, Json> {
    match r case Some(x) => m[k := x] case None => m - {k}
  }

  function AlterRecord(items: seq<Json>, id: string, r: Option<Json>): seq<Json> {
    if items == [] then (match r case Some(x) => [x] case None => [])
    else if HasId(items[0], id) then (match r case Some(x) => [x] case None => []) + items[1..]
    else [items[0]] + AlterRecord(items[1..], id, r)
  }

  /** Set the value at `steps`, making what is missing on the way. */
  function Put(doc: Json, steps: seq<Step>, v: Json): Json
    decreases |steps|
  {
    if steps == [] then v
    else
      var sub := match Look(doc, steps[0]) case Some(x) => x case None => Null;
      Alter(doc, steps[0], Some(Put(sub, steps[1..], v)))
  }

  /** Delete the entry or record `steps` name, if there. */
  function Delete(doc: Json, steps: seq<Step>): Json
    decreases |steps|
  {
    if steps == [] then doc
    else if |steps| == 1 then Alter(doc, steps[0], None)
    else
      match Look(doc, steps[0])
      case Some(x) => Alter(doc, steps[0], Some(Delete(x, steps[1..])))
      case None => doc
  }

  /** Replay one change onto `doc`, taking the value from `new'` at the path it names. */
  function ReplayOne(doc: Json, new': Json, steps: seq<Step>, kind: ChangeKind): Json {
    if kind.Removed? then Delete(doc, steps)
    else
      var found := ResolveSteps(new', steps);
      if |found| == 1 then Put(doc, steps, found[0]) else doc
  }

  /** Replay a list, in order. `depth`: how many leading steps `doc` itself is found by. */
  function Replay(doc: Json, new': Json, cs: seq<Change>, depth: nat): Json
    decreases |cs|
  {
    if cs == [] then doc
    else Replay(ReplayOne(doc, new', Below(cs[0], depth), cs[0].kind), new', cs[1..], depth)
  }

  function Below(c: Change, depth: nat): seq<Step> {
    if depth <= |c.steps| then c.steps[depth..] else []
  }

  /** Equal up to the order of record lists. */
  ghost predicate Equivalent(a: Json, b: Json)
    decreases a
  {
    if SameKind(a, b) then
      && View(a).Keys == View(b).Keys
      && forall k :: k in View(a) ==> (ViewSmaller(a, k); Equivalent(View(a)[k], View(b)[k]))
    else a == b
  }

  lemma {:induction false} EquivalentReflexive(v: Json)
    ensures Equivalent(v, v)
    decreases v
  {
    if Container(v) {
      forall k | k in View(v) ensures Equivalent(View(v)[k], View(v)[k]) {
        ViewSmaller(v, k);
        EquivalentReflexive(View(v)[k]);
      }
    }
  }

  lemma {:induction false} ReplayConcat(doc: Json, new': Json, a: seq<Change>, b: seq<Change>, depth: nat)
    ensures Replay(doc, new', a + b, depth) == Replay(Replay(doc, new', a, depth), new', b, depth)
    decreases |a|
  {
    if a == [] {
      assert a + b == b;
    } else {
      assert (a + b)[1..] == a[1..] + b;
      ReplayConcat(ReplayOne(doc, new', Below(a[0], depth), a[0].kind), new', a[1..], b, depth);
    }
  }

  // ---- One step of a replay, seen through a container ----

  lemma LookEntry(v: Json, k: string)
    requires Container(v)
    ensures Look(v, StepFor(v, k)) == Entry(v, k)
  {
    if v.Arr? {
      RecordsWithIdUnique(v.items, k);
    }
  }

  lemma {:induction false} AlterRecordView(items: seq<Json>, id: string, r: Option<Json>)
    requires IsRecordList(items)
    requires r.Some? ==> HasId(r.value, id)
    ensures IsRecordList(AlterRecord(items, id, r))
    ensures View(Arr(AlterRecord(items, id, r))) == AlterField(View(Arr(items)), id, r)
  {
    if items == [] {
      if r.Some? {
        ConsRecord(r.value, []);
        assert [r.value] + [] == [r.value];
      }
    } else {
      ViewCons(items);
      if HasId(items[0], id) {
        AlterHeadView(items, id, r);
      } else {
        AlterRecordView(items[1..], id, r);
        AlterTailView(items[0], AlterRecord(items[1..], id, r), View(Arr(items[1..])), id, r);
      }
    }
  }

  lemma AlterTailView(first: Json, tail: seq<Json>, m: map<string, Json>, id: string, r: Option<Json>)
    requires IsRecord(first) && IdOf(first) != id && IdOf(first) !in m
    requires IsRecordList(tail) && View(Arr(tail)) == AlterField(m, id, r)
    ensures IsRecordList([first] + tail)
    ensures View(Arr([first] + tail)) == AlterField(m[IdOf(first) := first], id, r)
  {
    AlterFieldCommutes(m, IdOf(first), first, id, r);
    ConsRecord(first, tail);
  }

  lemma AlterFieldCommutes(m: map<string, Json>, k: string, x: Json, id: string, r: Option<Json>)
    requires k != id && k !in m
    ensures k !in AlterField(m, id, r)
    ensures AlterField(m, id, r)[k := x] == AlterField(m[k := x], id, r)
  {
    var a, b := AlterField(m, id, r)[k := x], AlterField(m[k := x], id, r);
    assert a.Keys == b.Keys;
    assert forall j :: j in a ==> a[j] == b[j];
  }

  lemma AlterHeadView(items: seq<Json>, id: string, r: Option<Json>)
    requires items != [] && IsRecordList(items) && HasId(items[0], id)
    requires r.Some? ==> HasId(r.value, id)
    ensures IsRecordList(AlterRecord(items, id, r))
    ensures View(Arr(AlterRecord(items, id, r))) == AlterField(View(Arr(items)), id, r)
  {
    hide View, IsRecordList, AlterRecord;
    ViewCons(items);
    AlterHead(items, id, r);
    var tail := View(Arr(items[1..]));
    if r.Some? {
      ConsRecord(r.value, items[1..]);
      UpdateTwice(tail, id, items[0], r.value);
    } else {
      PutThenDrop(tail, id, items[0]);
    }
  }

  lemma AlterHead(items: seq<Json>, id: string, r: Option<Json>)
    requires items != [] && HasId(items[0], id)
    ensures AlterRecord(items, id, r) == if r.Some? then [r.value] + items[1..] else items[1..]
  {
    assert [] + items[1..] == items[1..];
  }

  lemma PutThenDrop<K, V>(m: map<K, V>, k: K, x: V)
    requires k !in m
    ensures m[k := x] - {k} == m
  {
  }

  lemma ConsRecord(first: Json, rest: seq<Json>)
    requires IsRecord(first) && IsRecordList(rest) && IdOf(first) !in View(Arr(rest))
    ensures IsRecordList([first] + rest)
    ensures View(Arr([first] + rest)) == View(Arr(rest))[IdOf(first) := first]
  {
    var items := [first] + rest;
    assert IsRecordList(items) by {
      forall i, j | 0 <= i < j < |items| ensures IdOf(items[i]) != IdOf(items[j]) {
        assert items[j] == rest[j - 1];
      }
    }
    assert items[1..] == rest;
    ViewCons(items);
  }

  lemma AlterEntry(v: Json, k: string, r: Option<Json>)
    requires Container(v)
    requires v.Arr? && r.Some? ==> HasId(r.value, k)
    ensures SameKind(v, Alter(v, StepFor(v, k), r))
    ensures View(Alter(v, StepFor(v, k), r)) == AlterField(View(v), k, r)
  {
    if v.Arr? {
      AlterRecordView(v.items, k, r);
    }
  }

  lemma {:induction false} AlterRecordSame(items: seq<Json>, id: string)
    ensures var found := RecordsWithId(items, id);
      AlterRecord(items, id, if found == [] then None else Some(found[0])) == items
  {
    if items == [] {
    } else {
      assert items == [items[0]] + items[1..];
      if !HasId(items[0], id) {
        AlterRecordSame(items[1..], id);
      }
    }
  }

  /** Putting back what a step leads to changes nothing. */
  lemma AlterSame(v: Json, s: Step)
    ensures Alter(v, s, Look(v, s)) == v
  {
    if v.Arr? && s.Pick? {
      AlterRecordSame(v.items, s.id);
    } else if v.Obj? {
      var k := match s { case Key(k) => k case Pick(k) => k };
      assert AlterField(v.fields, k, Field(v.fields, k)) == v.fields;
    }
  }

  /** A change below an entry of both documents is replayed inside that entry. */
  lemma ReplayInside(doc: Json, new': Json, k: string, rest: seq<Step>, kind: ChangeKind)
    requires SameKind(doc, new') && k in View(doc) && k in View(new')
    requires kind.Removed? ==> rest != []
    ensures ReplayOne(doc, new', [StepFor(doc, k)] + rest, kind) ==
            Alter(doc, StepFor(doc, k), Some(ReplayOne(View(doc)[k], View(new')[k], rest, kind)))
  {
    hide IsRecordList;
    var s := StepFor(doc, k);
    assert ([s] + rest)[1..] == rest;
    LookEntry(doc, k);
    ResolveEntry(new', k, rest);
    AlterSame(doc, s);
  }

  lemma PutOne(doc: Json, s: Step, v: Json)
    ensures Put(doc, [s], v) == Alter(doc, s, Some(v))
  {
    assert [s][1..] == [];
    var sub := match Look(doc, s) case Some(x) => x case None => Null;
    assert Put(sub, [s][1..], v) == v;
  }

  /** A whole entry that appeared or went. */
  lemma ReplayWhole(doc: Json, new': Json, k: string, kind: ChangeKind)
    requires SameKind(doc, new')
    requires kind.Added? ==> k in View(new')
    requires !kind.Changed?
    ensures ReplayOne(doc, new', [StepFor(doc, k)], kind) ==
            Alter(doc, StepFor(doc, k), if kind.Added? then Some(View(new')[k]) else None)
  {
    var s := StepFor(doc, k);
    assert [s] + [] == [s] && [s][1..] == [];
    assert s == StepFor(new', k);
    ResolveEntry(new', k, []);
    if kind.Added? {
      PutOne(doc, s, View(new')[k]);
    }
  }

  // ---- Replaying a change onto the new document does nothing ----

  lemma {:induction false} NoOpValue(p: seq<Step>, o: Json, n: Json, c: Change)
    requires c in DiffValue(p, o, n)
    ensures Extends(p, c.steps)
    ensures ReplayOne(n, n, c.steps[|p|..], c.kind) == n
    decreases o, 1, 0
  {
    DiffValueReal(p, o, n, c);
    if SameKind(o, n) {
      NoOpNames(p, o, n, Order(o, n), false, c);
    }
  }

  lemma {:induction false} NoOpNames(p: seq<Step>, o: Json, n: Json, ks: seq<string>, told: bool, c: Change)
    requires SameKind(o, n)
    requires c in DiffNames(p, o, n, ks, told)
    ensures Extends(p, c.steps)
    ensures ReplayOne(n, n, c.steps[|p|..], c.kind) == n
    decreases o, 0, |ks|
  {
    DiffNamesReal(p, o, n, ks, told, c);
    var k := ks[0];
    if c !in DiffName(p, o, n, k, told) {
      NoOpNames(p, o, n, ks[1..], told || TellsParent(p, o, n, k), c);
    } else {
      NoOpName(p, o, n, k, told, c);
    }
  }

  lemma {:induction false} NoOpName(p: seq<Step>, o: Json, n: Json, k: string, told: bool, c: Change)
    requires SameKind(o, n)
    requires c in DiffName(p, o, n, k, told)
    ensures Extends(p, c.steps)
    ensures ReplayOne(n, n, c.steps[|p|..], c.kind) == n
    decreases o, 0, 0
  {
    hide IsRecordList, WellFormed;
    var s := StepFor(n, k);
    var q := p + [s];
    DiffNameCases(p, o, n, k, told, c);
    LookEntry(n, k);
    AlterSame(n, s);
    if !Spelled(q) {
      assert c.steps[|p|..] == [];
    } else if k in View(o) && k in View(n) {
      ViewSmaller(o, k);
      NoOpValue(q, View(o)[k], View(n)[k], c);
      DiffValueReal(q, View(o)[k], View(n)[k], c);
      SplitSteps(p, s, c.steps);
      ReplayInside(n, n, k, c.steps[|q|..], c.kind);
    } else {
      SplitSteps(p, s, c.steps);
      assert c.steps[|p|..] == [s];
      ReplayWhole(n, n, k, c.kind);
    }
  }

  /** Once the document is the new one, the rest of the list leaves it alone. */
  lemma {:induction false} ReplayNoOps(n: Json, cs: seq<Change>, depth: nat)
    requires forall c :: c in cs ==> depth <= |c.steps| && ReplayOne(n, n, c.steps[depth..], c.kind) == n
    ensures Replay(n, n, cs, depth) == n
    decreases |cs|
  {
    if cs == [] {
    } else {
      assert cs[0] in cs && forall c :: c in cs[1..] ==> c in cs;
      ReplayNoOps(n, cs[1..], depth);
    }
  }

  // ---- Replaying the list onto the old document ----

  /** A list below a record that leaves the record's id alone. */
  ghost predicate KeepsId(cs: seq<Change>, depth: nat) {
    forall c :: c in cs ==>
      && depth <= |c.steps|
      && (|c.steps| > depth ==> c.steps[depth] != Key("id") && c.steps[depth] != Pick("id"))
      && (c.kind.Removed? ==> |c.steps| > depth)
  }

  lemma {:induction false} DiffNamesKeepId(p: seq<Step>, a: Json, b: Json, ks: seq<string>, told: bool, c: Change)
    requires IsRecord(a) && IsRecord(b) && IdOf(a) == IdOf(b)
    requires c in DiffNames(p, a, b, ks, told)
    ensures |c.steps| > |p| ==> c.steps[|p|] != Key("id") && c.steps[|p|] != Pick("id")
    decreases |ks|
  {
    var k := ks[0];
    if c in DiffName(p, a, b, k, told) {
      DiffNameReal(p, a, b, k, told, c);
      assert !NeedsBrackets("id");
      assert k != "id";
    } else {
      DiffNamesKeepId(p, a, b, ks[1..], told || TellsParent(p, a, b, k), c);
    }
  }

  lemma DiffKeepsId(q: seq<Step>, a: Json, b: Json)
    requires IsRecord(a) && IsRecord(b) && IdOf(a) == IdOf(b)
    ensures KeepsId(DiffValue(q, a, b), |q|)
  {
    forall c | c in DiffValue(q, a, b)
      ensures |q| <= |c.steps|
      ensures |c.steps| > |q| ==> c.steps[|q|] != Key("id") && c.steps[|q|] != Pick("id")
      ensures c.kind.Removed? ==> |c.steps| > |q|
    {
      DiffValueReal(q, a, b, c);
      DiffNamesKeepId(q, a, b, Order(a, b), false, c);
    }
  }

  lemma OneKeepsId(v: Json, new': Json, steps: seq<Step>, kind: ChangeKind, id: string)
    requires HasId(v, id) && HasId(new', id)
    requires steps != [] ==> steps[0] != Key("id") && steps[0] != Pick("id")
    requires kind.Removed? ==> steps != []
    ensures HasId(ReplayOne(v, new', steps, kind), id)
  {
  }

  /** Every change of the list is at or below the entry that `s` leads to. */
  ghost predicate AllThrough(cs: seq<Change>, depth: nat, s: Step) {
    forall c :: c in cs ==>
      |c.steps| > depth && c.steps[depth] == s && (c.kind.Removed? ==> |c.steps| > depth + 1)
  }

  lemma ThroughCons(cs: seq<Change>, depth: nat, s: Step)
    requires cs != []
    ensures AllThrough(cs, depth, s) ==> AllThrough([cs[0]], depth, s) && AllThrough(cs[1..], depth, s)
    ensures KeepsId(cs, depth + 1) ==> KeepsId([cs[0]], depth + 1) && KeepsId(cs[1..], depth + 1)
  {
    assert cs[0] in cs && forall x :: x in cs[1..] ==> x in cs;
  }

  lemma UpdateTwice(m: map<string, Json>, k: string, x: Json, y: Json)
    ensures m[k := x][k := y] == m[k := y]
  {
  }

  lemma UpdateSame(m: map<string, Json>, k: string)
    requires k in m
    ensures m[k := m[k]] == m
  {
  }

  lemma ReplayEntryOne(doc: Json, n: Json, k: string, c: Change, depth: nat)
    requires SameKind(doc, n) && k in View(doc) && k in View(n)
    requires AllThrough([c], depth, StepFor(doc, k))
    requires doc.Arr? ==> KeepsId([c], depth + 1)
    ensures var doc' := ReplayOne(doc, n, Below(c, depth), c.kind);
      && SameKind(doc', n)
      && View(doc') == View(doc)[k := ReplayOne(View(doc)[k], View(n)[k], Below(c, depth + 1), c.kind)]
  {
    hide IsRecordList;
    assert c in [c];
    var rest := c.steps[depth + 1..];
    assert c.steps[depth..] == [StepFor(doc, k)] + rest;
    ReplayInside(doc, n, k, rest, c.kind);
    var x := ReplayOne(View(doc)[k], View(n)[k], rest, c.kind);
    if doc.Arr? {
      ViewSmaller(doc, k);
      ViewSmaller(n, k);
      OneKeepsId(View(doc)[k], View(n)[k], rest, c.kind, k);
    }
    AlterEntry(doc, k, Some(x));
  }

  /** Changes at and below one entry are replayed inside that entry. */
  lemma {:induction false} ReplayEntry(doc: Json, n: Json, k: string, cs: seq<Change>, depth: nat)
    requires SameKind(doc, n) && k in View(doc) && k in View(n)
    requires AllThrough(cs, depth, StepFor(doc, k))
    requires doc.Arr? ==> KeepsId(cs, depth + 1)
    ensures SameKind(Replay(doc, n, cs, depth), n)
    ensures View(Replay(doc, n, cs, depth)) == View(doc)[k := Replay(View(doc)[k], View(n)[k], cs, depth + 1)]
    decreases |cs|
  {
    var m := View(doc);
    if cs == [] {
      UpdateSame(m, k);
    } else {
      ThroughCons(cs, depth, StepFor(doc, k));
      ReplayEntryOne(doc, n, k, cs[0], depth);
      var doc' := ReplayOne(doc, n, Below(cs[0], depth), cs[0].kind);
      var x := View(doc')[k];
      ReplayEntry(doc', n, k, cs[1..], depth);
      var y := Replay(x, View(n)[k], cs[1..], depth + 1);
      UpdateTwice(m, k, x, y);
    }
  }

  ghost predicate SameEntry(a: Option<Json>, b: Option<Json>) {
    match (a, b)
    case (Some(x), Some(y)) => Equivalent(x, y)
    case (None, None) => true
    case _ => false
  }

  /** `doc'` is `doc` with the entry `k` brought up to the new document, or is that document. */
  ghost predicate Advanced(doc: Json, doc': Json, n: Json, k: string)
    requires SameKind(doc, n)
  {
    && SameKind(doc', n)
    && (doc' == n || forall j :: j != k ==> Entry(doc', j) == Entry(doc, j))
    && SameEntry(Entry(doc', k), Entry(n, k))
  }

  lemma AdvancedByEntry(doc: Json, doc': Json, n: Json, k: string, x: Option<Json>)
    requires SameKind(doc, n) && SameKind(doc', n)
    requires View(doc') == AlterField(View(doc), k, x)
    requires SameEntry(x, Entry(n, k))
    ensures Advanced(doc, doc', n, k)
  {
    hide SameEntry, Container, Entry, View;
    forall j ensures Entry(doc', j) == if j == k then x else Entry(doc, j) {
      EntryAltered(doc, doc', k, x, j);
    }
  }

  lemma EntryAltered(doc: Json, doc': Json, k: string, x: Option<Json>, j: string)
    requires Container(doc) && Container(doc') && View(doc') == AlterField(View(doc), k, x)
    ensures Entry(doc', j) == if j == k then x else Entry(doc, j)
  {
    hide View, Container;
  }

  lemma AdvancedFully(doc: Json, n: Json, k: string)
    requires SameKind(doc, n)
    ensures Advanced(doc, n, n, k)
  {
    if k in View(n) {
      EquivalentReflexive(View(n)[k]);
    }
  }

  lemma DiffNamesDepth(p: seq<Step>, o: Json, n: Json, ks: seq<string>, told: bool)
    requires SameKind(o, n)
    ensures forall c :: c in DiffNames(p, o, n, ks, told) ==> |p| <= |c.steps|
    ensures ks != [] ==> forall c :: c in DiffName(p, o, n, ks[0], told) ==> |p| <= |c.steps|
  {
    forall c | c in DiffNames(p, o, n, ks, told) ensures |p| <= |c.steps| {
      DiffNamesReal(p, o, n, ks, told, c);
    }
  }

  /** The heart of it: replaying the differ's list onto the old value gives the new one. */
  lemma {:induction false} ReplayValue(p: seq<Step>, o: Json, n: Json)
    ensures Equivalent(Replay(o, n, DiffValue(p, o, n), |p|), n)
    decreases o, 1, 0
  {
    EquivalentReflexive(n);
    if SameKind(o, n) {
      OrderCovers(o, n);
      ReplayNames(p, o, n, o, Order(o, n), false);
    } else if o != n {
      assert p[|p|..] == [];
    }
  }

  /** What is left to do: the names `ks` are as they were in `o`, all others as in `n`. */
  ghost predicate Pending(o: Json, n: Json, doc: Json, ks: seq<string>)
    requires SameKind(o, n)
  {
    && SameKind(doc, n)
    && (doc == n || forall k :: k in ks ==> Entry(doc, k) == Entry(o, k))
    && (forall k :: k !in ks ==> SameEntry(Entry(doc, k), Entry(n, k)))
  }

  lemma PendingNone(o: Json, n: Json, doc: Json)
    requires SameKind(o, n) && Pending(o, n, doc, [])
    ensures Equivalent(doc, n)
  {
    hide IsRecordList;
    forall k ensures SameEntry(Entry(doc, k), Entry(n, k)) {
    }
    assert forall k :: k in View(doc) <==> Entry(doc, k).Some?;
    assert forall k :: k in View(n) <==> Entry(n, k).Some?;
    assert View(doc).Keys == View(n).Keys;
  }

  lemma PendingNext(o: Json, n: Json, doc: Json, doc': Json, ks: seq<string>)
    requires SameKind(o, n) && NoRepeats(ks) && ks != []
    requires Pending(o, n, doc, ks) && Advanced(doc, doc', n, ks[0])
    requires doc == n ==> doc' == n
    ensures Pending(o, n, doc', ks[1..])
  {
    hide IsRecordList;
    assert forall j :: j in ks[1..] ==> j in ks && j != ks[0];
    forall j | j !in ks[1..] ensures SameEntry(Entry(doc', j), Entry(n, j)) {
      if doc' == n {
        if j in View(n) {
          EquivalentReflexive(View(n)[j]);
        }
      } else if j != ks[0] {
        assert ks == [ks[0]] + ks[1..];
        assert j !in ks;
      }
    }
  }

  lemma {:induction false} ReplayNames(p: seq<Step>, o: Json, n: Json, doc: Json, ks: seq<string>, told: bool)
    requires SameKind(o, n) && NoRepeats(ks)
    requires told ==> doc == n
    requires Pending(o, n, doc, ks)
    ensures Equivalent(Replay(doc, n, DiffNames(p, o, n, ks, told), |p|), n)
    decreases o, 0, |ks|, 1
  {
    if ks == [] {
      PendingNone(o, n, doc);
    } else {
      var k, told' := ks[0], told || TellsParent(p, o, n, ks[0]);
      var first, more := DiffName(p, o, n, k, told), DiffNames(p, o, n, ks[1..], told');
      ReplayName(p, o, n, doc, k, told);
      var doc' := Replay(doc, n, first, |p|);
      PendingNext(o, n, doc, doc', ks);
      ReplayNames(p, o, n, doc', ks[1..], told');
      ReplayConcat(doc, n, first, more, |p|);
    }
  }

  lemma {:induction false} ReplayName(p: seq<Step>, o: Json, n: Json, doc: Json, k: string, told: bool)
    requires SameKind(o, n) && SameKind(doc, n)
    requires told ==> doc == n
    requires doc == n || Entry(doc, k) == Entry(o, k)
    ensures var doc' := Replay(doc, n, DiffName(p, o, n, k, told), |p|);
      && Advanced(doc, doc', n, k)
      && (doc == n || told || TellsParent(p, o, n, k) ==> doc' == n)
    decreases o, 0, 0
  {
    var cs := DiffName(p, o, n, k, told);
    assert DiffNames(p, o, n, [k], told) == cs + DiffNames(p, o, n, [k][1..], told || TellsParent(p, o, n, k));
    DiffNamesDepth(p, o, n, [k], told);
    if k in View(n) {
      EquivalentReflexive(View(n)[k]);
    }
    if doc == n {
      forall c | c in cs ensures ReplayOne(n, n, c.steps[|p|..], c.kind) == n {
        NoOpNames(p, o, n, [k], told, c);
      }
      ReplayNoOps(n, cs, |p|);
    } else {
      ReplayChangedName(p, o, n, doc, k);
    }
  }

  lemma ReplayBeneath(p: seq<Step>, doc: Json, n: Json)
    ensures Replay(doc, n, [Beneath(p)], |p|) == n
  {
    assert Beneath(p).steps[|p|..] == [];
    assert [Beneath(p)][1..] == [];
  }

  /** An entry that cannot be spelled: its parent is replaced, unless the entry is the same. */
  lemma ReplayUnspelledName(p: seq<Step>, o: Json, n: Json, doc: Json, k: string)
    requires SameKind(o, n) && SameKind(doc, n)
    requires Entry(doc, k) == Entry(o, k) && !Spelled(p + [StepFor(o, k)])
    ensures var doc' := Replay(doc, n, DiffName(p, o, n, k, false), |p|);
      && Advanced(doc, doc', n, k)
      && (TellsParent(p, o, n, k) ==> doc' == n)
  {
    hide Spelled, Advanced, Container, Entry, View, StepFor;
    if TellsParent(p, o, n, k) {
      ReplayBeneath(p, doc, n);
      AdvancedFully(doc, n, k);
    } else {
      SameEntryReflexive(Entry(n, k));
      AdvancedByNothing(doc, n, k);
    }
  }

  lemma {:induction false} ReplayChangedName(p: seq<Step>, o: Json, n: Json, doc: Json, k: string)
    requires SameKind(o, n) && SameKind(doc, n)
    requires Entry(doc, k) == Entry(o, k)
    ensures var doc' := Replay(doc, n, DiffName(p, o, n, k, false), |p|);
      && Advanced(doc, doc', n, k)
      && (TellsParent(p, o, n, k) ==> doc' == n)
    decreases o, 0, 0, 0
  {
    hide IsRecordList, WellFormed, Equivalent, Advanced, DiffValue;
    var q := p + [StepFor(o, k)];
    var cs := DiffName(p, o, n, k, false);
    if !Spelled(q) {
      ReplayUnspelledName(p, o, n, doc, k);
    } else if k in View(o) && k in View(n) {
      ViewSmaller(o, k);
      assert cs == DiffValue(q, View(o)[k], View(n)[k]);
      ReplayBoth(q, doc, n, k);
      var doc' := Replay(doc, n, cs, |p|);
      AdvancedByEntry(doc, doc', n, k, Entry(doc', k));
    } else if k in View(o) || k in View(n) {
      var c := Change(q, if k in View(n) then Added else Removed, Entry(o, k), Entry(n, k));
      assert cs == [c];
      ReplayOneSided(q, c, doc, n, k);
      SameEntryReflexive(Entry(n, k));
      AdvancedByEntry(doc, Replay(doc, n, cs, |p|), n, k, Entry(n, k));
    } else {
      SameEntryReflexive(Entry(n, k));
      AdvancedByNothing(doc, n, k);
    }
  }

  lemma SameEntryReflexive(x: Option<Json>)
    ensures SameEntry(x, x)
  {
    if x.Some? {
      EquivalentReflexive(x.value);
    }
  }

  lemma AdvancedByNothing(doc: Json, n: Json, k: string)
    requires SameKind(doc, n) && SameEntry(Entry(doc, k), Entry(n, k))
    ensures Advanced(doc, doc, n, k)
  {
  }

  /** `q`: where the entry `k` of both documents is. */
  lemma {:induction false} ReplayBoth(q: seq<Step>, doc: Json, n: Json, k: string)
    requires SameKind(doc, n) && k in View(doc) && k in View(n)
    requires q != [] && q[|q| - 1] == StepFor(doc, k)
    ensures var cs := DiffValue(q, View(doc)[k], View(n)[k]);
      var doc' := Replay(doc, n, cs, |q| - 1);
      && SameKind(doc', n) && k in View(doc')
      && View(doc') == View(doc)[k := View(doc')[k]]
      && Equivalent(View(doc')[k], View(n)[k])
    decreases View(doc)[k], 2
  {
    hide IsRecordList, WellFormed, AllThrough, KeepsId, Equivalent, DiffValue, Replay;
    var a, b := View(doc)[k], View(n)[k];
    ReplayValue(q, a, b);
    DiffGoesThrough(q, a, b);
    if doc.Arr? {
      RecordsOfOneId(doc, n, k);
      DiffKeepsId(q, a, b);
    }
    ReplayEntry(doc, n, k, DiffValue(q, a, b), |q| - 1);
  }

  /** Every change found at `q` goes through the last step of `q`. */
  lemma DiffGoesThrough(q: seq<Step>, a: Json, b: Json)
    requires q != []
    ensures AllThrough(DiffValue(q, a, b), |q| - 1, q[|q| - 1])
  {
    hide DiffValue, WellFormed, IsRecordList;
    forall c | c in DiffValue(q, a, b)
      ensures |c.steps| >= |q| && c.steps[|q| - 1] == q[|q| - 1] && (c.kind.Removed? ==> |c.steps| > |q|)
    {
      DiffValueReal(q, a, b, c);
      assert c.steps[|q| - 1] == c.steps[..|q|][|q| - 1];
    }
  }

  lemma RecordsOfOneId(doc: Json, n: Json, k: string)
    requires SameKind(doc, n) && doc.Arr? && k in View(doc) && k in View(n)
    ensures IsRecord(View(doc)[k]) && IsRecord(View(n)[k]) && IdOf(View(doc)[k]) == IdOf(View(n)[k])
  {
    ViewSmaller(doc, k);
    ViewSmaller(n, k);
  }

  lemma ReplayOneSided(q: seq<Step>, c: Change, doc: Json, n: Json, k: string)
    requires SameKind(doc, n)
    requires q != [] && q[|q| - 1] == StepFor(doc, k) && c.steps == q
    requires c.kind == if k in View(n) then Added else Removed
    ensures var doc' := Replay(doc, n, [c], |q| - 1);
      && SameKind(doc', n)
      && View(doc') == AlterField(View(doc), k, Entry(n, k))
  {
    assert c.steps[|q| - 1..] == [StepFor(doc, k)];
    ReplayWhole(doc, n, k, c.kind);
    if k in View(n) {
      ViewSmaller(n, k);
    }
    AlterEntry(doc, k, Entry(n, k));
    assert [c][1..] == [];
  }

  // ---- The results ----

  /** The uncapped list is a complete patch. */
  lemma DiffIsACompletePatch(o: Json, n: Json)
    ensures Equivalent(Replay(o, n, DiffValue([], o, n), 0), n)
  {
    ReplayValue([], o, n);
  }

  /** Nothing listed: the documents are equal up to record order. */
  lemma EmptyDiffMeansEquivalent(o: Json, n: Json)
    requires DiffValue([], o, n) == []
    ensures Equivalent(o, n)
  {
    ReplayValue([], o, n);
  }
}
