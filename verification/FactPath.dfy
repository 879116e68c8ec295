/** Fact paths (`crates/core/src/selector/path.rs`): their grammar, and what they reach. */
module FactPaths {
  import opened JsonModel
  import opened Text

  const MAX_FACT_PATH_LEN := 512

  /** A segment as the parser stores it: a key and the `[id]`s after it. */
  datatype Segment = Segment(key: string, ids: seq<string>)

  /** The same path, one step at a time. */
  datatype Step = Key(key: string) | Pick(id: string)

  const SPECIAL: set<char> := {'.', '[', ']'}

  predicate PlainKey(k: string) {
    k != "" && Free(k, SPECIAL)
  }

  predicate SpellableId(id: string) {
    id != "" && Free(id, {']'})
  }

  predicate WellFormedStep(s: Step) {
    match s case Key(k) => PlainKey(k) case Pick(id) => SpellableId(id)
  }

  predicate WellFormedTail(steps: seq<Step>) {
    forall i :: 0 <= i < |steps| ==> WellFormedStep(steps[i])
  }

  /** Step lists the grammar can spell. */
  predicate WellFormed(steps: seq<Step>) {
    steps != [] && steps[0].Key? && WellFormedTail(steps)
  }

  function RenderTail(steps: seq<Step>): string {
    if steps == [] then ""
    else (match steps[0] case Key(k) => "." + k case Pick(id) => "[" + id + "]") + RenderTail(steps[1..])
  }

  /** The one text of a step list. `""` for the empty list: the whole document. */
  function Render(steps: seq<Step>): string {
    if steps == [] then ""
    else (match steps[0] case Key(k) => k case Pick(id) => "[" + id + "]") + RenderTail(steps[1..])
  }

  /** `path` is the text of `steps`. */
  predicate Spells(path: string, steps: seq<Step>) {
    WellFormed(steps) && path == Render(steps)
  }

  lemma {:induction false} RenderTailConcat(a: seq<Step>, b: seq<Step>)
    ensures RenderTail(a + b) == RenderTail(a) + RenderTail(b)
  {
    if a == [] {
      assert a + b == b;
    } else {
      assert (a + b)[1..] == a[1..] + b;
      RenderTailConcat(a[1..], b);
    }
  }

  lemma RenderExtend(steps: seq<Step>, s: Step)
    requires steps != []
    ensures Render(steps + [s]) == Render(steps) + RenderTail([s])
  {
    assert (steps + [s])[1..] == steps[1..] + [s];
    RenderTailConcat(steps[1..], [s]);
  }

  // ---- Parsing ----

  type Parsed = Result<seq<Step>, string>

  function Prepend(front: seq<Step>, r: Parsed): Parsed {
    match r case Ok(steps) => Ok(front + steps) case Err(e) => Err(e)
  }

  lemma PrependTwice(a: seq<Step>, b: seq<Step>, r: Parsed)
    ensures Prepend(a, Prepend(b, r)) == Prepend(a + b, r)
  {
    if r.Ok? {
      assert a + (b + r.value) == a + b + r.value;
    }
  }

  /** What follows a key or an `[id]`. */
  function ParseTail(rest: string): Parsed
    decreases |rest|, 0
  {
    if rest == "" then Ok([])
    else if rest[0] == '[' then
      var after := rest[1..];
      var close := FirstOf(after, {']'});
      if close == |after| then Err("unclosed [")
      else if close == 0 then Err("empty [id]")
      else Prepend([Pick(after[..close])], ParseTail(after[close + 1..]))
    else if rest[0] == '.' then ParseKey(rest[1..])
    else Err("expected . after ]")
  }

  /** A key and everything after it. */
  function ParseKey(rest: string): Parsed
    decreases |rest|, 1
  {
    var end := FirstOf(rest, SPECIAL);
    if end == 0 then Err("empty key")
    else Prepend([Key(rest[..end])], ParseTail(rest[end..]))
  }

  function ParseSteps(path: string): Parsed {
    if path == "" then Err("empty") else ParseKey(path)
  }

  /** A segment list, flattened. */
  function Flatten(segments: seq<Segment>): seq<Step> {
    if segments == [] then []
    else [Key(segments[0].key)] + Picks(segments[0].ids) + Flatten(segments[1..])
  }

  function Picks(ids: seq<string>): seq<Step> {
    seq(|ids|, i requires 0 <= i < |ids| => Pick(ids[i]))
  }

  lemma {:induction false} FlattenSnoc(segments: seq<Segment>, s: Segment)
    ensures Flatten(segments + [s]) == Flatten(segments) + [Key(s.key)] + Picks(s.ids)
  {
    if segments == [] {
      assert segments + [s] == [s];
    } else {
      assert (segments + [s])[1..] == segments[1..] + [s];
      FlattenSnoc(segments[1..], s);
    }
  }

  lemma PicksSnoc(ids: seq<string>, id: string)
    ensures Picks(ids + [id]) == Picks(ids) + [Pick(id)]
  {
  }

  function FlattenResult(r: Result<seq<Segment>, string>): Parsed {
    match r case Ok(segments) => Ok(Flatten(segments)) case Err(e) => Err(e)
  }

  /** `FactPath::parse`: a cursor over the text, pushing segments. */
  method Parse(path: string) returns (r: Result<seq<Segment>, string>)
    ensures FlattenResult(r) == ParseSteps(path)
  {
    if path == "" {
      return Err("empty");
    }
    var segments: seq<Segment> := [];
    var rest := path;
    assert ParseKey(path).Ok? ==> Flatten([]) + ParseKey(path).value == ParseKey(path).value;
    while true
      invariant ParseKey(path) == Prepend(Flatten(segments), ParseKey(rest))
      decreases |rest|
    {
      ghost var before, done := rest, Flatten(segments);
      var end := FirstOf(rest, SPECIAL);
      var key := rest[..end];
      if key == "" {
        return Err("empty key");
      }
      rest := rest[end..];
      var ids: seq<string> := [];
      PrependTwice(done, [Key(key)], ParseTail(rest));
      assert done + [Key(key)] + Picks(ids) == done + [Key(key)];
      while rest != "" && rest[0] == '['
        invariant |rest| < |before|
        invariant ParseKey(path) == Prepend(done + [Key(key)] + Picks(ids), ParseTail(rest))
        decreases |rest|
      {
        var after := rest[1..];
        var close := FirstOf(after, {']'});
        if close == |after| {
          return Err("unclosed [");
        }
        var id := after[..close];
        if id == "" {
          return Err("empty [id]");
        }
        PicksSnoc(ids, id);
        PrependTwice(done + [Key(key)] + Picks(ids), [Pick(id)], ParseTail(after[close + 1..]));
        assert done + [Key(key)] + Picks(ids) + [Pick(id)] == done + [Key(key)] + Picks(ids + [id]);
        ids := ids + [id];
        rest := after[close + 1..];
      }
      FlattenSnoc(segments, Segment(key, ids));
      segments := segments + [Segment(key, ids)];
      if rest == "" {
        assert Flatten(segments) + [] == Flatten(segments);
        break;
      } else if rest[0] == '.' {
        rest := rest[1..];
      } else {
        return Err("expected . after ]");
      }
    }
    return Ok(segments);
  }

  lemma TailCons(s: Step, tail: seq<Step>)
    requires WellFormedStep(s) && WellFormedTail(tail)
    ensures WellFormedTail([s] + tail)
    ensures RenderTail([s] + tail) ==
            (match s case Key(k) => "." + k case Pick(id) => "[" + id + "]") + RenderTail(tail)
    ensures Render([s] + tail) == (match s case Key(k) => k case Pick(id) => "[" + id + "]") + RenderTail(tail)
  {
    assert ([s] + tail)[1..] == tail;
  }

  lemma TailEmpty()
    ensures WellFormedTail([]) && RenderTail([]) == ""
  {
  }

  lemma RenderTailOfKey(steps: seq<Step>)
    requires steps != [] && steps[0].Key?
    ensures RenderTail(steps) == "." + Render(steps)
  {
  }

  /** Whatever parses is the text of a well-formed step list... */
  lemma {:induction false} ParseTailSound(rest: string)
    requires ParseTail(rest).Ok?
    ensures WellFormedTail(ParseTail(rest).value) && RenderTail(ParseTail(rest).value) == rest
    decreases |rest|, 0
  {
    hide FirstOf, WellFormedTail, RenderTail;
    if rest == "" {
      TailEmpty();
    } else if rest[0] == '[' {
      var after := rest[1..];
      var close := FirstOf(after, {']'});
      var id, more := after[..close], after[close + 1..];
      ParseTailSound(more);
      TailCons(Pick(id), ParseTail(more).value);
      assert rest == "[" + id + "]" + more;
    } else {
      ParseKeySound(rest[1..]);
      assert rest == "." + rest[1..];
      RenderTailOfKey(ParseKey(rest[1..]).value);
    }
  }

  lemma {:induction false} ParseKeySound(rest: string)
    requires ParseKey(rest).Ok?
    ensures Spells(rest, ParseKey(rest).value)
    decreases |rest|, 1
  {
    var end := FirstOf(rest, SPECIAL);
    ParseTailSound(rest[end..]);
    TailCons(Key(rest[..end]), ParseTail(rest[end..]).value);
    assert rest == rest[..end] + rest[end..];
  }

  lemma ParseTailPick(id: string, more: string)
    requires SpellableId(id)
    ensures ParseTail("[" + id + "]" + more) == Prepend([Pick(id)], ParseTail(more))
  {
    var text := "[" + id + "]" + more;
    var after := text[1..];
    assert after == id + ("]" + more);
    FirstOfAfter(id, "]" + more, {']'});
    hide FirstOf;
    assert after[..|id|] == id && after[|id| + 1..] == more;
  }

  lemma ParseTailPicked(steps: seq<Step>)
    requires WellFormedTail(steps) && steps != [] && steps[0].Pick?
    ensures ParseTail(RenderTail(steps)) == Prepend([steps[0]], ParseTail(RenderTail(steps[1..])))
    ensures WellFormedTail(steps[1..])
  {
    hide ParseTail;
    ParseTailPick(steps[0].id, RenderTail(steps[1..]));
  }

  lemma ParseTailKey(steps: seq<Step>)
    requires WellFormedTail(steps) && steps != [] && steps[0].Key?
    ensures ParseTail(RenderTail(steps)) == ParseKey(Render(steps))
    ensures WellFormed(steps)
  {
    RenderTailOfKey(steps);
    assert RenderTail(steps)[1..] == Render(steps);
  }

  /** ...and the text of every well-formed step list parses back to it. */
  lemma {:induction false} ParseTailComplete(steps: seq<Step>)
    requires WellFormedTail(steps)
    ensures ParseTail(RenderTail(steps)) == Ok(steps)
    decreases |steps|, 0
  {
    if steps == [] {
    } else {
      hide ParseTail, RenderTail, WellFormedTail, ParseKey, Render, WellFormed;
      assert steps == [steps[0]] + steps[1..];
      if steps[0].Key? {
        ParseTailKey(steps);
        ParseKeyComplete(steps);
      } else {
        ParseTailPicked(steps);
        ParseTailComplete(steps[1..]);
      }
    }
  }

  lemma {:induction false} ParseKeyComplete(steps: seq<Step>)
    requires WellFormed(steps)
    ensures ParseKey(Render(steps)) == Ok(steps)
    decreases |steps|, 0, 0
  {
    var k, more := steps[0].key, RenderTail(steps[1..]);
    assert steps == [steps[0]] + steps[1..];
    FirstOfAfter(k, more, SPECIAL);
    assert (k + more)[..|k|] == k && (k + more)[|k|..] == more;
    ParseTailComplete(steps[1..]);
  }

  /** The grammar is a bijection: a text parses to `steps` exactly when it spells them. */
  lemma ParseIffSpells(path: string, steps: seq<Step>)
    ensures ParseSteps(path) == Ok(steps) <==> Spells(path, steps)
  {
    if ParseSteps(path) == Ok(steps) {
      ParseKeySound(path);
    }
    if Spells(path, steps) {
      ParseKeyComplete(steps);
    }
  }

  lemma RenderInjective(a: seq<Step>, b: seq<Step>)
    requires WellFormed(a) && WellFormed(b) && Render(a) == Render(b)
    ensures a == b
  {
    ParseIffSpells(Render(a), a);
    ParseIffSpells(Render(b), b);
  }

  /** Flattening loses nothing: segments are recovered from their steps. */
  lemma {:induction false} FlattenInjective(a: seq<Segment>, b: seq<Segment>)
    requires Flatten(a) == Flatten(b)
    ensures a == b
  {
    assert a != [] ==> Flatten(a)[0] == Key(a[0].key);
    assert b != [] ==> Flatten(b)[0] == Key(b[0].key);
    if a != [] && b != [] {
      var m, n := |a[0].ids|, |b[0].ids|;
      var p, q := Picks(a[0].ids), Picks(b[0].ids);
      var x, y := Flatten(a[1..]), Flatten(b[1..]);
      var f := Flatten(a);
      assert f == [Key(a[0].key)] + p + x == [Key(b[0].key)] + q + y;
      assert forall i :: 1 <= i <= m ==> f[i] == p[i - 1];
      assert forall i :: 1 <= i <= n ==> f[i] == q[i - 1];
      assert |f| > 1 + m ==> f[1 + m] == x[0] && x[0].Key?;
      assert |f| > 1 + n ==> f[1 + n] == y[0] && y[0].Key?;
      assert m == n;
      forall i | 0 <= i < m ensures a[0].ids[i] == b[0].ids[i] {
        assert f[1 + i] == p[i] && f[1 + i] == q[i];
      }
      assert a[0].ids == b[0].ids;
      assert x == f[1 + m..] == y;
      FlattenInjective(a[1..], b[1..]);
      assert a == [a[0]] + a[1..] && b == [b[0]] + b[1..];
    }
  }

  // ---- Spelling a longer path ----

  predicate NeedsBrackets(key: string) {
    !Free(key, SPECIAL)
  }

  /** `FactPath::child`. */
  function Child(parent: string, key: string, inRecord: bool): Option<string> {
    if key == "" then None
    else if NeedsBrackets(key) && (parent == "" || inRecord || !Free(key, {']'})) then None
    else
      var path :=
        if NeedsBrackets(key) then parent + "[" + key + "]"
        else if parent == "" then key
        else parent + "." + key;
      if Utf8Len(path) <= MAX_FACT_PATH_LEN then Some(path) else None
  }

  /** `FactPath::pick`. */
  function PickPath(parent: string, id: string): Option<string> {
    if parent == "" || id == "" || !Free(id, {']'}) then None
    else
      var path := parent + "[" + id + "]";
      if Utf8Len(path) <= MAX_FACT_PATH_LEN then Some(path) else None
  }

  /** The step a map key is spelled as. */
  function ChildStep(key: string): Step {
    if NeedsBrackets(key) then Pick(key) else Key(key)
  }

  /** `steps` name the whole document or a path the grammar spells. */
  predicate Located(steps: seq<Step>) {
    steps == [] || WellFormed(steps)
  }

  function StepText(s: Step): string {
    match s case Key(k) => k case Pick(id) => "[" + id + "]"
  }

  lemma RenderOne(s: Step)
    ensures Render([s]) == StepText(s)
    ensures RenderTail([s]) == (if s.Key? then "." else "") + StepText(s)
  {
    assert [s][1..] == [];
    assert "" + StepText(s) == StepText(s);
  }

  /** How one more step is written. */
  lemma SpellStep(parent: seq<Step>, s: Step)
    ensures Render(parent + [s]) ==
            if parent == [] then StepText(s)
            else if s.Key? then Render(parent) + "." + StepText(s) else Render(parent) + StepText(s)
  {
    hide Render, RenderTail, StepText;
    RenderOne(s);
    if parent == [] {
      assert parent + [s] == [s];
    } else {
      RenderExtend(parent, s);
      assert Render(parent) + ("." + StepText(s)) == Render(parent) + "." + StepText(s);
      assert Render(parent) + ("" + StepText(s)) == Render(parent) + StepText(s);
    }
  }

  /** When the longer path is well formed. */
  lemma StepFits(parent: seq<Step>, s: Step)
    requires Located(parent)
    ensures WellFormed(parent + [s]) <==> WellFormedStep(s) && (parent == [] ==> s.Key?)
  {
    hide WellFormedStep;
    var steps := parent + [s];
    assert steps[|parent|] == s;
    assert forall i :: 0 <= i < |parent| ==> steps[i] == parent[i];
  }

  lemma RenderedNothing()
    ensures Render([]) == ""
  {
  }

  lemma RenderedIsNotEmpty(steps: seq<Step>)
    requires WellFormed(steps)
    ensures Render(steps) != ""
  {
    assert WellFormedStep(steps[0]);
  }

  /** A path made by `Child` reads back as its parent's steps and the one new step; there is
      one exactly when that longer step list is well formed and short enough to store. */
  lemma ChildSpells(parent: seq<Step>, key: string, inRecord: bool)
    requires Located(parent)
    ensures var steps := parent + [ChildStep(key)];
      Child(Render(parent), key, inRecord) ==
      if WellFormed(steps) && Utf8Len(Render(steps)) <= MAX_FACT_PATH_LEN && !(NeedsBrackets(key) && inRecord)
      then Some(Render(steps)) else None
  {
    hide Render, WellFormed, Utf8Len, Free;
    SpellStep(parent, ChildStep(key));
    StepFits(parent, ChildStep(key));
    if parent == [] {
      RenderedNothing();
    } else {
      RenderedIsNotEmpty(parent);
      assert Render(parent) + "[" + key + "]" == Render(parent) + ("[" + key + "]");
    }
  }

  lemma PickSpells(parent: seq<Step>, id: string)
    requires Located(parent)
    ensures var steps := parent + [Pick(id)];
      PickPath(Render(parent), id) ==
      if WellFormed(steps) && Utf8Len(Render(steps)) <= MAX_FACT_PATH_LEN then Some(Render(steps)) else None
  {
    hide Render, WellFormed, Utf8Len, Free;
    SpellStep(parent, Pick(id));
    StepFits(parent, Pick(id));
    if parent == [] {
      RenderedNothing();
    } else {
      RenderedIsNotEmpty(parent);
      assert Render(parent) + "[" + id + "]" == Render(parent) + ("[" + id + "]");
    }
  }

  // ---- Resolving ----

  /** What a key reaches: the entry of a map, or the entries of a list's records. */
  function KeyInto(v: Json, k: string): seq<Json> {
    match v
    case Obj(m) => if k in m then [m[k]] else []
    case Arr(items) => KeyIntoAll(items, k)
    case _ => []
  }

  function KeyIntoAll(items: seq<Json>, k: string): seq<Json> {
    if items == [] then []
    else (if items[0].Obj? && k in items[0].fields then [items[0].fields[k]] else []) + KeyIntoAll(items[1..], k)
  }

  predicate HasId(v: Json, id: string) {
    v.Obj? && "id" in v.fields && v.fields["id"] == Str(id)
  }

  function RecordsWithId(items: seq<Json>, id: string): seq<Json> {
    if items == [] then []
    else (if HasId(items[0], id) then [items[0]] else []) + RecordsWithId(items[1..], id)
  }

  /** `[id]` applied to one value. */
  function PickFrom(v: Json, id: string): seq<Json> {
    match v
    case Arr(items) => RecordsWithId(items, id)
    case Obj(m) => if id in m then [m[id]] else []
    case _ => []
  }

  function StepInto(v: Json, s: Step): seq<Json> {
    match s case Key(k) => KeyInto(v, k) case Pick(id) => PickFrom(v, id)
  }

  function StepAll(vs: seq<Json>, s: Step): seq<Json> {
    if vs == [] then [] else StepInto(vs[0], s) + StepAll(vs[1..], s)
  }

  function ResolveAll(vs: seq<Json>, steps: seq<Step>): seq<Json>
    decreases |steps|
  {
    if steps == [] then vs else ResolveAll(StepAll(vs, steps[0]), steps[1..])
  }

  /** Every value a path reaches in a document. */
  function ResolveSteps(doc: Json, steps: seq<Step>): seq<Json> {
    ResolveAll([doc], steps)
  }

  lemma {:induction false} StepAllConcat(a: seq<Json>, b: seq<Json>, s: Step)
    ensures StepAll(a + b, s) == StepAll(a, s) + StepAll(b, s)
  {
    if a == [] {
      assert a + b == b;
    } else {
      assert (a + b)[1..] == a[1..] + b;
      StepAllConcat(a[1..], b, s);
    }
  }

  lemma {:induction false} ResolveConcat(vs: seq<Json>, a: seq<Step>, b: seq<Step>)
    ensures ResolveAll(vs, a + b) == ResolveAll(ResolveAll(vs, a), b)
    decreases |a|
  {
    if a == [] {
      assert a + b == b;
    } else {
      assert (a + b)[1..] == a[1..] + b;
      ResolveConcat(StepAll(vs, a[0]), a[1..], b);
    }
  }

  /** A longer path reaches what its last step reaches from everything its parent reaches. */
  lemma ResolveExtend(doc: Json, steps: seq<Step>, s: Step)
    ensures ResolveSteps(doc, steps + [s]) == StepAll(ResolveSteps(doc, steps), s)
  {
    ResolveConcat([doc], steps, [s]);
    var vs := ResolveSteps(doc, steps);
    assert ResolveAll(vs, [s]) == ResolveAll(StepAll(vs, s), [s][1..]);
  }

  lemma StepAllSingle(v: Json, s: Step)
    ensures StepAll([v], s) == StepInto(v, s)
  {
    assert StepAll([v], s) == StepInto(v, s) + StepAll([v][1..], s);
  }

  // ---- What one step reaches ----

  /** `at` are places in a list, in order. */
  predicate InPlaces(at: seq<nat>, items: seq<Json>) {
    && (forall j :: 0 <= j < |at| ==> at[j] < |items|)
    && (forall j, k :: 0 <= j < k < |at| ==> at[j] < at[k])
  }

  lemma OneMorePlace(at: seq<nat>, items: seq<Json>, x: Json)
    requires InPlaces(at, items)
    ensures InPlaces(at, items + [x]) && InPlaces(at + [|items|], items + [x])
    ensures forall i: nat :: i in at + [|items|] <==> i in at || i == |items|
    ensures forall i: nat :: i in at ==> i < |items|
    ensures (items + [x])[|items|] == x && forall i: nat :: i < |items| ==> (items + [x])[i] == items[i]
  {
  }

  lemma Together<T>(a: seq<T>, b: seq<T>, c: seq<T>)
    ensures a + (b + c) == a + b + c
  {
  }

  lemma {:induction false} KeyIntoOneMore(items: seq<Json>, x: Json, k: string)
    ensures KeyIntoAll(items + [x], k) ==
            KeyIntoAll(items, k) + if x.Obj? && k in x.fields then [x.fields[k]] else []
  {
    var last := if x.Obj? && k in x.fields then [x.fields[k]] else [];
    if items == [] {
      assert items + [x] == [x] && [x][1..] == [];
      assert KeyIntoAll([x], k) == last + KeyIntoAll([x][1..], k) == last;
    } else {
      var first := if items[0].Obj? && k in items[0].fields then [items[0].fields[k]] else [];
      assert (items + [x])[0] == items[0] && (items + [x])[1..] == items[1..] + [x];
      KeyIntoOneMore(items[1..], x, k);
      Together(first, KeyIntoAll(items[1..], k), last);
    }
  }

  lemma {:induction false} PickOneMore(items: seq<Json>, x: Json, id: string)
    ensures RecordsWithId(items + [x], id) == RecordsWithId(items, id) + if HasId(x, id) then [x] else []
  {
    hide HasId;
    var last := if HasId(x, id) then [x] else [];
    if items == [] {
      assert items + [x] == [x] && [x][1..] == [];
      assert RecordsWithId([x], id) == last + RecordsWithId([x][1..], id) == last;
    } else {
      var first := if HasId(items[0], id) then [items[0]] else [];
      assert (items + [x])[0] == items[0] && (items + [x])[1..] == items[1..] + [x];
      PickOneMore(items[1..], x, id);
      Together(first, RecordsWithId(items[1..], id), last);
    }
  }

  predicate HasKey(v: Json, k: string) {
    v.Obj? && k in v.fields
  }

  /** `reached` are the fields `k` of the records that have it, at the places `at`. */
  ghost predicate FieldsAt(reached: seq<Json>, items: seq<Json>, at: seq<nat>, k: string) {
    && InPlaces(at, items) && |reached| == |at|
    && (forall i: nat :: i in at <==> i < |items| && HasKey(items[i], k))
    && (forall j :: 0 <= j < |at| ==> HasKey(items[at[j]], k) && reached[j] == items[at[j]].fields[k])
  }

  lemma FieldsOneMore(reached: seq<Json>, items: seq<Json>, at: seq<nat>, k: string, x: Json)
    requires FieldsAt(reached, items, at, k)
    ensures if HasKey(x, k) then FieldsAt(reached + [x.fields[k]], items + [x], at + [|items|], k)
            else FieldsAt(reached, items + [x], at, k)
  {
    var n, more := |items|, items + [x];
    OneMorePlace(at, items, x);
    hide InPlaces, HasKey;
    forall j | 0 <= j < |at| ensures HasKey(more[at[j]], k) && reached[j] == more[at[j]].fields[k] {
      assert at[j] in at;
    }
    if HasKey(x, k) {
      var all, found := at + [n], reached + [x.fields[k]];
      forall j | 0 <= j < |all| ensures HasKey(more[all[j]], k) && found[j] == more[all[j]].fields[k] {
        if j < |at| {
          assert all[j] == at[j];
        }
      }
    }
  }

  /** A key on a list reaches that field of every record that has it, in the order of the
      records, and nothing else. */
  lemma {:induction false} KeyReachesFields(items: seq<Json>, k: string) returns (at: seq<nat>)
    ensures FieldsAt(StepInto(Arr(items), Key(k)), items, at, k)
    decreases |items|
  {
    if items == [] {
      at := [];
    } else {
      var front, x := items[..|items| - 1], items[|items| - 1];
      assert items == front + [x];
      at := KeyReachesFields(front, k);
      FieldsOneMore(KeyIntoAll(front, k), front, at, k, x);
      KeyIntoOneMore(front, x, k);
      hide KeyIntoAll, FieldsAt;
      assert KeyIntoAll(front, k) + [] == KeyIntoAll(front, k);
      if HasKey(x, k) {
        at := at + [|front|];
      }
    }
  }

  /** `reached` are the records whose id is `id`, at the places `at`. */
  ghost predicate RecordsAt(reached: seq<Json>, items: seq<Json>, at: seq<nat>, id: string) {
    && InPlaces(at, items) && |reached| == |at|
    && (forall i: nat :: i in at <==> i < |items| && items[i].Obj? && Field(items[i].fields, "id") == Some(Str(id)))
    && (forall j :: 0 <= j < |at| ==> reached[j] == items[at[j]])
  }

  lemma RecordsOneMore(reached: seq<Json>, items: seq<Json>, at: seq<nat>, id: string, x: Json)
    requires RecordsAt(reached, items, at, id)
    ensures if HasId(x, id) then RecordsAt(reached + [x], items + [x], at + [|items|], id)
            else RecordsAt(reached, items + [x], at, id)
  {
    var n, more := |items|, items + [x];
    OneMorePlace(at, items, x);
    hide InPlaces;
    forall j | 0 <= j < |at| ensures reached[j] == more[at[j]] {
      assert at[j] in at;
    }
  }

  /** A bracketed id on a list reaches every record with that id, in order, and nothing else. */
  lemma {:induction false} PickReachesRecords(items: seq<Json>, id: string) returns (at: seq<nat>)
    ensures RecordsAt(StepInto(Arr(items), Pick(id)), items, at, id)
    decreases |items|
  {
    if items == [] {
      at := [];
    } else {
      var front, x := items[..|items| - 1], items[|items| - 1];
      assert items == front + [x];
      at := PickReachesRecords(front, id);
      RecordsOneMore(RecordsWithId(front, id), front, at, id, x);
      PickOneMore(front, x, id);
      hide RecordsWithId, RecordsAt;
      assert RecordsWithId(front, id) + [] == RecordsWithId(front, id);
      if HasId(x, id) {
        at := at + [|front|];
      }
    }
  }

  /** On a map a key and a bracketed name reach the entry of that name; on a scalar, nothing. */
  lemma StepsIntoOthers(v: Json, name: string)
    ensures v.Obj? ==>
      StepInto(v, Key(name)) == StepInto(v, Pick(name)) == if name in v.fields then [v.fields[name]] else []
    ensures !v.Obj? && !v.Arr? ==> StepInto(v, Key(name)) == StepInto(v, Pick(name)) == []
  {
  }

  /** The empty path reaches the document, and one step from several values reaches what it
      reaches from each, in turn. */
  lemma StepsFromEach(doc: Json, vs: seq<Json>, v: Json, s: Step)
    ensures ResolveSteps(doc, []) == [doc]
    ensures StepAll([], s) == []
    ensures StepAll(vs + [v], s) == StepAll(vs, s) + StepInto(v, s)
  {
    StepAllConcat(vs, [v], s);
    StepAllSingle(v, s);
  }

  /** One key step over every value reached so far. */
  method StepEach(current: seq<Json>, key: string) returns (next: seq<Json>)
    ensures next == StepAll(current, Key(key))
  {
    next := [];
    for j := 0 to |current|
      invariant next == StepAll(current[..j], Key(key))
    {
      StepAllConcat(current[..j], [current[j]], Key(key));
      StepAllSingle(current[j], Key(key));
      assert current[..j + 1] == current[..j] + [current[j]];
      next := next + KeyInto(current[j], key);
    }
    assert current[..|current|] == current;
  }

  /** Every `[id]` of a segment, one after the other. */
  method PickEach(start: seq<Json>, ids: seq<string>) returns (next: seq<Json>)
    ensures next == ResolveAll(start, Picks(ids))
  {
    next := start;
    for j := 0 to |ids|
      invariant next == ResolveAll(start, Picks(ids[..j]))
    {
      assert ids[..j + 1] == ids[..j] + [ids[j]];
      PicksSnoc(ids[..j], ids[j]);
      ResolveConcat(start, Picks(ids[..j]), [Pick(ids[j])]);
      assert ResolveAll(next, [Pick(ids[j])]) == ResolveAll(StepAll(next, Pick(ids[j])), [Pick(ids[j])][1..]);
      next := StepAll(next, Pick(ids[j]));
    }
    assert ids[..|ids|] == ids;
  }

  /** `FactPath::resolve`. */
  method Resolve(segments: seq<Segment>, doc: Json) returns (current: seq<Json>)
    ensures current == ResolveSteps(doc, Flatten(segments))
  {
    current := [doc];
    assert current == ResolveSteps(doc, Flatten(segments[..0]));
    hide ResolveAll, Flatten, Picks, StepAll;
    for i := 0 to |segments|
      invariant current == ResolveSteps(doc, Flatten(segments[..i]))
    {
      var seg := segments[i];
      ghost var front := Flatten(segments[..i]) + [Key(seg.key)];
      ResolveExtend(doc, Flatten(segments[..i]), Key(seg.key));
      ResolveConcat([doc], front, Picks(seg.ids));
      assert segments[..i + 1] == segments[..i] + [seg];
      FlattenSnoc(segments[..i], seg);
      var next := StepEach(current, seg.key);
      current := PickEach(next, seg.ids);
    }
    assert segments[..|segments|] == segments;
  }
}
