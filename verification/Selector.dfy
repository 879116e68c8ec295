/**
 Group selectors: how a host's tags and facts documents decide which groups it is in.

 The two results this file is for: a selector that is not host-controlled cannot be
 swayed by anything the host says about itself, and evaluating a selector with only the
 documents it names gives the answer every document would.
 */
module Selectors {
  import opened JsonModel
  import opened Text
  import opened FactPaths

  const AGENT_SOURCE := "agent"
  const MAX_KEY_LEN := 128
  const MAX_VALUE_LEN := 256
  const MAX_NODES := 64
  const MAX_DEPTH := 8
  const MAX_IN_VALUES := 64
  const MAX_SOURCE_LEN := 64

  /** Who set a tag: an operator, or the host's agent. */
  datatype TagSource = Manual | Agent

  /** Which sources a selector leaf accepts a value from. */
  datatype SourceFilter = OnlyManual | OnlyAgent | AnySource {
    predicate Accepts(source: TagSource) {
      match this
      case OnlyManual => source == Manual
      case OnlyAgent => source == Agent
      case AnySource => true
    }

    predicate IsHostControlled() {
      OnlyAgent? || AnySource?
    }
  }

  datatype TagValue = TagValue(value: string, source: TagSource)

  type HostTags = map<string, seq<TagValue>>

  /** A host's facts documents by source. */
  type HostFacts = map<string, Json>

  /** A parsed path and the text it was parsed from. */
  datatype FactPath = FactPath(raw: string, segments: seq<Segment>)

  datatype FactTest =
    | Present
    | Equals(value: string)
    | OneOf(values: seq<string>)
    | Has(value: string)

  datatype Expr =
    | Fact(facts: string, path: FactPath, test: FactTest)
    | TagEq(key: string, value: string, source: SourceFilter)
    | TagIn(key: string, values: seq<string>, source: SourceFilter)
    | TagExists(key: string, source: SourceFilter)
    | Not(expr: Expr)
    | And(exprs: seq<Expr>)
    | Or(exprs: seq<Expr>)

  /** An implicit `And` of its clauses; no clause at all matches every host. */
  datatype Selector = Selector(clauses: seq<Expr>)

  // ---- Evaluation ----

  /** The text that stands for a scalar in comparisons; other values have none. */
  function ScalarText(v: Json): Option<string> {
    match v
    case Str(s) => Some(s)
    case Num(text) => Some(text)
    case Bool(b) => Some(if b then "true" else "false")
    case _ => None
  }

  /** `has`: an element of a list, the id of a record in it, or a key of a map. */
  predicate Holds(v: Json, value: string) {
    match v
    case Arr(items) =>
      exists i :: 0 <= i < |items|
        && if items[i].Obj? then HasId(items[i], value) else ScalarText(items[i]) == Some(value)
    case Obj(m) => value in m
    case _ => false
  }

  predicate Passes(test: FactTest, v: Json) {
    match test
    case Present => !v.Null?
    case Equals(value) => ScalarText(v) == Some(value)
    case OneOf(values) => ScalarText(v).Some? && ScalarText(v).value in values
    case Has(value) => Holds(v, value)
  }

  /** Some value under `key` from an accepted source. */
  predicate Carries(tags: HostTags, key: string, value: string, source: SourceFilter) {
    key in tags &&
    exists i :: 0 <= i < |tags[key]| && tags[key][i].value == value && source.Accepts(tags[key][i].source)
  }

  predicate CarriesAny(tags: HostTags, key: string, source: SourceFilter) {
    key in tags && exists i :: 0 <= i < |tags[key]| && source.Accepts(tags[key][i].source)
  }

  predicate FactHolds(doc: Json, path: FactPath, test: FactTest) {
    var reached := ResolveSteps(doc, Flatten(path.segments));
    exists i :: 0 <= i < |reached| && Passes(test, reached[i])
  }

  predicate Eval(e: Expr, tags: HostTags, facts: HostFacts) {
    match e
    case TagEq(key, value, source) => Carries(tags, key, value, source)
    case TagIn(key, values, source) => exists i :: 0 <= i < |values| && Carries(tags, key, values[i], source)
    case TagExists(key, source) => CarriesAny(tags, key, source)
    case Fact(source, path, test) => source in facts && FactHolds(facts[source], path, test)
    case Not(sub) => !Eval(sub, tags, facts)
    case And(subs) => forall i :: 0 <= i < |subs| ==> Eval(subs[i], tags, facts)
    case Or(subs) => exists i :: 0 <= i < |subs| && Eval(subs[i], tags, facts)
  }

  predicate Matches(s: Selector, tags: HostTags, facts: HostFacts) {
    forall i :: 0 <= i < |s.clauses| ==> Eval(s.clauses[i], tags, facts)
  }

  // ---- What a selector reads ----

  predicate ExprIsHostControlled(e: Expr) {
    match e
    case TagEq(_, _, source) => source.IsHostControlled()
    case TagIn(_, _, source) => source.IsHostControlled()
    case TagExists(_, source) => source.IsHostControlled()
    case Fact(source, _, _) => source == AGENT_SOURCE
    case Not(sub) => ExprIsHostControlled(sub)
    case And(subs) => exists i :: 0 <= i < |subs| && ExprIsHostControlled(subs[i])
    case Or(subs) => exists i :: 0 <= i < |subs| && ExprIsHostControlled(subs[i])
  }

  predicate IsHostControlled(s: Selector) {
    exists i :: 0 <= i < |s.clauses| && ExprIsHostControlled(s.clauses[i])
  }

  function SourcesOf(e: Expr): set<string> {
    match e
    case Fact(source, _, _) => {source}
    case Not(sub) => SourcesOf(sub)
    case And(subs) => SourcesOfAll(subs)
    case Or(subs) => SourcesOfAll(subs)
    case _ => {}
  }

  function SourcesOfAll(es: seq<Expr>): set<string> {
    if es == [] then {} else SourcesOf(es[0]) + SourcesOfAll(es[1..])
  }

  lemma {:induction false} SourcesOfAllSnoc(es: seq<Expr>, e: Expr)
    ensures SourcesOfAll(es + [e]) == SourcesOfAll(es) + SourcesOf(e)
  {
    if es == [] {
      assert es + [e] == [e] && [e][1..] == [];
    } else {
      assert (es + [e])[1..] == es[1..] + [e];
      SourcesOfAllSnoc(es[1..], e);
    }
  }

  lemma {:induction false} SourcesOfMember(es: seq<Expr>, i: nat)
    requires i < |es|
    ensures SourcesOf(es[i]) <= SourcesOfAll(es)
  {
    if i == 0 {
    } else {
      SourcesOfMember(es[1..], i - 1);
    }
  }

  /** `walk`: adds to `out` every source the expression names. */
  method Walk(e: Expr, start: set<string>) returns (out: set<string>)
    ensures out == start + SourcesOf(e)
  {
    out := start;
    match e
    case Fact(source, _, _) => out := out + {source};
    case Not(sub) => out := Walk(sub, out);
    case And(subs) => out := WalkAll(subs, out);
    case Or(subs) => out := WalkAll(subs, out);
    case _ =>
  }

  method WalkAll(es: seq<Expr>, start: set<string>) returns (out: set<string>)
    ensures out == start + SourcesOfAll(es)
  {
    out := start;
    for i := 0 to |es|
      invariant out == start + SourcesOfAll(es[..i])
    {
      assert es[..i + 1] == es[..i] + [es[i]];
      SourcesOfAllSnoc(es[..i], es[i]);
      out := Walk(es[i], out);
    }
    assert es[..|es|] == es;
  }

  method FactSources(s: Selector) returns (out: set<string>)
    ensures out == SourcesOfAll(s.clauses)
  {
    out := WalkAll(s.clauses, {});
  }

  // ---- Lazy loading ----

  /** The documents of `facts` that come from `sources`. */
  function Restrict(facts: HostFacts, sources: set<string>): HostFacts {
    map s | s in facts && s in sources :: facts[s]
  }

  lemma {:induction false} EvalNeedsOnlyItsSources(e: Expr, tags: HostTags, facts: HostFacts, sources: set<string>)
    requires SourcesOf(e) <= sources
    ensures Eval(e, tags, Restrict(facts, sources)) == Eval(e, tags, facts)
    decreases e, 1
  {
    match e
    case Not(sub) => EvalNeedsOnlyItsSources(sub, tags, facts, sources);
    case And(subs) => EvalAllNeedsOnlyItsSources(e, subs, tags, facts, sources);
    case Or(subs) => EvalAllNeedsOnlyItsSources(e, subs, tags, facts, sources);
    case _ =>
  }

  lemma {:induction false} EvalAllNeedsOnlyItsSources(e: Expr, subs: seq<Expr>, tags: HostTags, facts: HostFacts,
                                                      sources: set<string>)
    requires (e.And? || e.Or?) && subs == e.exprs
    requires SourcesOfAll(subs) <= sources
    ensures forall i :: 0 <= i < |subs| ==> Eval(subs[i], tags, Restrict(facts, sources)) == Eval(subs[i], tags, facts)
    decreases e, 0
  {
    forall i | 0 <= i < |subs|
      ensures Eval(subs[i], tags, Restrict(facts, sources)) == Eval(subs[i], tags, facts)
    {
      SourcesOfMember(subs, i);
      EvalNeedsOnlyItsSources(subs[i], tags, facts, sources);
    }
  }

  /** Any loaded set that covers a selector's own sources answers it exactly: its own
      sources, or the union over all of a tenant's selectors. */
  lemma MatchesNeedsOnlyItsSources(s: Selector, tags: HostTags, facts: HostFacts, sources: set<string>)
    requires SourcesOfAll(s.clauses) <= sources
    ensures Matches(s, tags, Restrict(facts, sources)) == Matches(s, tags, facts)
  {
    forall i | 0 <= i < |s.clauses|
      ensures Eval(s.clauses[i], tags, Restrict(facts, sources)) == Eval(s.clauses[i], tags, facts)
    {
      SourcesOfMember(s.clauses, i);
      EvalNeedsOnlyItsSources(s.clauses[i], tags, facts, sources);
    }
  }

  // ---- Non-interference ----

  /** Nothing an operator's side wrote about the two hosts differs: the same manual values
      under every key, and the same documents from every source but the agent. */
  ghost predicate SameToOperators(tags: HostTags, facts: HostFacts, tags': HostTags, facts': HostFacts) {
    && (forall k, v :: Carries(tags, k, v, OnlyManual) == Carries(tags', k, v, OnlyManual))
    && (forall s :: s != AGENT_SOURCE ==> Field(facts, s) == Field(facts', s))
  }

  lemma CarriesAnyIsSomeValue(tags: HostTags, key: string)
    ensures CarriesAny(tags, key, OnlyManual) <==> exists v :: Carries(tags, key, v, OnlyManual)
  {
    if CarriesAny(tags, key, OnlyManual) {
      var i :| 0 <= i < |tags[key]| && OnlyManual.Accepts(tags[key][i].source);
      assert Carries(tags, key, tags[key][i].value, OnlyManual);
    }
  }

  lemma {:induction false} EvalIgnoresTheHost(e: Expr, tags: HostTags, facts: HostFacts, tags': HostTags,
                                              facts': HostFacts)
    requires SameToOperators(tags, facts, tags', facts')
    requires !ExprIsHostControlled(e)
    ensures Eval(e, tags, facts) == Eval(e, tags', facts')
  {
    match e
    case TagExists(key, _) =>
      CarriesAnyIsSomeValue(tags, key);
      CarriesAnyIsSomeValue(tags', key);
    case Fact(source, _, _) =>
      assert Field(facts, source) == Field(facts', source);
    case Not(sub) => EvalIgnoresTheHost(sub, tags, facts, tags', facts');
    case And(subs) =>
      forall i | 0 <= i < |subs| ensures Eval(subs[i], tags, facts) == Eval(subs[i], tags', facts') {
        EvalIgnoresTheHost(subs[i], tags, facts, tags', facts');
      }
    case Or(subs) =>
      forall i | 0 <= i < |subs| ensures Eval(subs[i], tags, facts) == Eval(subs[i], tags', facts') {
        EvalIgnoresTheHost(subs[i], tags, facts, tags', facts');
      }
    case _ =>
  }

  /** A group whose selector is not host-controlled: no host can talk its way in or out. */
  lemma HostCannotSwayAnOperatorSelector(s: Selector, tags: HostTags, facts: HostFacts, tags': HostTags,
                                         facts': HostFacts)
    requires SameToOperators(tags, facts, tags', facts')
    requires !IsHostControlled(s)
    ensures Matches(s, tags, facts) == Matches(s, tags', facts')
  {
    forall i | 0 <= i < |s.clauses|
      ensures Eval(s.clauses[i], tags, facts) == Eval(s.clauses[i], tags', facts')
    {
      EvalIgnoresTheHost(s.clauses[i], tags, facts, tags', facts');
    }
  }

  /** The tags of a host that also reports `value` under `key` about itself. */
  function Claiming(tags: HostTags, key: string, value: string): HostTags {
    tags[key := (if key in tags then tags[key] else []) + [TagValue(value, Agent)]]
  }

  lemma ClaimAddsOneAgentValue(tags: HostTags, key: string, value: string, k: string, v: string, source: SourceFilter)
    ensures Carries(Claiming(tags, key, value), k, v, source)
      <==> Carries(tags, k, v, source) || (k == key && v == value && source.IsHostControlled())
  {
    var tags' := Claiming(tags, key, value);
    if k == key {
      var before := if key in tags then tags[key] else [];
      assert tags'[key] == before + [TagValue(value, Agent)];
      assert tags'[key][|before|] == TagValue(value, Agent);
      assert forall i :: 0 <= i < |before| ==> tags'[key][i] == before[i];
    }
  }

  /** Why the source matters: supplementing is enough. A claim satisfies an equality leaf
      exactly when the leaf is host-controlled or an accepted value was there already, and
      it is invisible to operators either way. */
  lemma ClaimSatisfiesExactlyHostControlledLeaves(tags: HostTags, facts: HostFacts, key: string, value: string,
                                                  source: SourceFilter)
    ensures SameToOperators(tags, facts, Claiming(tags, key, value), facts)
    ensures Eval(TagEq(key, value, source), Claiming(tags, key, value), facts)
      <==> source.IsHostControlled() || Eval(TagEq(key, value, source), tags, facts)
  {
    var tags' := Claiming(tags, key, value);
    forall k, v ensures Carries(tags, k, v, OnlyManual) == Carries(tags', k, v, OnlyManual) {
      ClaimAddsOneAgentValue(tags, key, value, k, v, OnlyManual);
    }
    ClaimAddsOneAgentValue(tags, key, value, key, value, source);
  }

  // ---- Validation ----

  datatype SelectorError =
    | TooManyNodes
    | TooDeep
    | TooManyInValues
    | KeyTooLong
    | ValueTooLong
    | EmptyKey
    | EmptyCompound
    | BadFactsSource(source: string)
    | BadFactPath

  predicate SourceByte(c: byte) {
    'a' as int <= c <= 'z' as int || '0' as int <= c <= '9' as int
    || c in {'_' as int, '.' as int, ':' as int, '-' as int}
  }

  predicate ValidSource(s: string) {
    var b := Utf8(s);
    && 0 < |b| <= MAX_SOURCE_LEN
    && 'a' as int <= b[0] <= 'z' as int
    && forall i :: 0 <= i < |b| ==> SourceByte(b[i])
  }

  predicate GoodKey(key: string) {
    0 < Utf8Len(key) <= MAX_KEY_LEN
  }

  predicate GoodValues(values: seq<string>) {
    |values| <= MAX_IN_VALUES && forall i :: 0 <= i < |values| ==> Utf8Len(values[i]) <= MAX_VALUE_LEN
  }

  /** What every leaf must satisfy on its own. */
  predicate GoodLeaf(e: Expr) {
    match e
    case TagEq(key, value, _) => GoodKey(key) && Utf8Len(value) <= MAX_VALUE_LEN
    case TagIn(key, values, _) => GoodKey(key) && GoodValues(values)
    case TagExists(key, _) => GoodKey(key)
    case Fact(source, path, test) =>
      && ValidSource(source)
      && Utf8Len(path.raw) <= MAX_FACT_PATH_LEN
      && (match test
          case Present => true
          case Equals(value) => Utf8Len(value) <= MAX_VALUE_LEN
          case Has(value) => Utf8Len(value) <= MAX_VALUE_LEN
          case OneOf(values) => GoodValues(values))
    case _ => true
  }

  /** Every leaf is good and no compound is empty. */
  predicate GoodShape(e: Expr) {
    && GoodLeaf(e)
    && ((e.And? || e.Or?) ==> e.exprs != [])
    && (match e
        case Not(sub) => GoodShape(sub)
        case And(subs) => forall i :: 0 <= i < |subs| ==> GoodShape(subs[i])
        case Or(subs) => forall i :: 0 <= i < |subs| ==> GoodShape(subs[i])
        case _ => true)
  }

  function Size(e: Expr): (n: nat)
    ensures n >= 1
  {
    match e
    case Not(sub) => 1 + Size(sub)
    case And(subs) => 1 + SizeAll(subs)
    case Or(subs) => 1 + SizeAll(subs)
    case _ => 1
  }

  function SizeAll(es: seq<Expr>): nat {
    if es == [] then 0 else Size(es[0]) + SizeAll(es[1..])
  }

  function Height(e: Expr): (n: nat)
    ensures n >= 1
  {
    match e
    case Not(sub) => 1 + Height(sub)
    case And(subs) => 1 + HeightAll(subs)
    case Or(subs) => 1 + HeightAll(subs)
    case _ => 1
  }

  function HeightAll(es: seq<Expr>): nat {
    if es == [] then 0 else
    var h, rest := Height(es[0]), HeightAll(es[1..]);
    if h > rest then h else rest
  }

  lemma {:induction false} SnocSizes(es: seq<Expr>, e: Expr)
    ensures SizeAll(es + [e]) == SizeAll(es) + Size(e)
    ensures HeightAll(es + [e]) == if HeightAll(es) > Height(e) then HeightAll(es) else Height(e)
  {
    if es == [] {
      assert es + [e] == [e] && [e][1..] == [];
    } else {
      assert (es + [e])[1..] == es[1..] + [e];
      SnocSizes(es[1..], e);
    }
  }

  lemma {:induction false} SplitSizes(es: seq<Expr>, i: nat)
    requires i < |es|
    ensures SizeAll(es[..i]) + Size(es[i]) <= SizeAll(es)
    ensures Height(es[i]) <= HeightAll(es)
  {
    if i > 0 {
      SplitSizes(es[1..], i - 1);
      assert es[..i][1..] == es[1..][..i - 1];
    } else {
      assert es[..0] == [];
    }
  }

  /** The whole of what validation demands, said without walking: nodes counted over the
      tree, its height, and every leaf and compound good. */
  predicate Fits(e: Expr, depth: nat, nodes: nat) {
    GoodShape(e) && depth + Height(e) - 1 <= MAX_DEPTH && nodes + Size(e) <= MAX_NODES
  }

  method CheckKey(key: string) returns (r: Option<SelectorError>)
    ensures r.None? <==> GoodKey(key)
    ensures r.Some? ==> r.value == if key == "" then EmptyKey else KeyTooLong
  {
    if key == "" {
      return Some(EmptyKey);
    }
    assert Utf8Len(key) > 0;
    if Utf8Len(key) > MAX_KEY_LEN {
      return Some(KeyTooLong);
    }
    r := None;
  }

  method CheckValues(values: seq<string>) returns (r: Option<SelectorError>)
    ensures r.None? <==> GoodValues(values)
    ensures r.Some? ==> r.value == if |values| > MAX_IN_VALUES then TooManyInValues else ValueTooLong
  {
    if |values| > MAX_IN_VALUES {
      return Some(TooManyInValues);
    }
    for i := 0 to |values|
      invariant forall j :: 0 <= j < i ==> Utf8Len(values[j]) <= MAX_VALUE_LEN
    {
      if Utf8Len(values[i]) > MAX_VALUE_LEN {
        return Some(ValueTooLong);
      }
    }
    r := None;
  }

  /** The checks on one leaf, in order. */
  method CheckLeaf(e: Expr) returns (r: Option<SelectorError>)
    ensures r.None? <==> GoodLeaf(e)
    ensures r.Some? ==> r.value !in {TooManyNodes, TooDeep, EmptyCompound}
  {
    r := None;
    match e
    case TagEq(key, value, _) =>
      r := CheckKey(key);
      if r.None? && Utf8Len(value) > MAX_VALUE_LEN {
        r := Some(ValueTooLong);
      }
    case TagIn(key, values, _) =>
      r := CheckKey(key);
      if r.None? {
        r := CheckValues(values);
      }
    case TagExists(key, _) =>
      r := CheckKey(key);
    case Fact(source, path, test) =>
      if !ValidSource(source) {
        return Some(BadFactsSource(source));
      }
      if Utf8Len(path.raw) > MAX_FACT_PATH_LEN {
        return Some(BadFactPath);
      }
      match test {
        case Present =>
        case Equals(value) => if Utf8Len(value) > MAX_VALUE_LEN { r := Some(ValueTooLong); }
        case Has(value) => if Utf8Len(value) > MAX_VALUE_LEN { r := Some(ValueTooLong); }
        case OneOf(values) => r := CheckValues(values);
      }
    case _ =>
  }

  /** `validate_expr`, with the shared node counter threaded through: it accepts exactly
      what fits, and the counter ends where the tree's size says. */
  method ValidateExpr(e: Expr, depth: nat, nodes: nat) returns (r: Option<SelectorError>, count: nat)
    ensures r.None? <==> Fits(e, depth, nodes)
    ensures r.None? ==> count == nodes + Size(e)
    ensures r == Some(TooDeep) ==> depth + Height(e) - 1 > MAX_DEPTH
    ensures r == Some(TooManyNodes) ==> nodes + Size(e) > MAX_NODES
    ensures r.Some? && r.value !in {TooDeep, TooManyNodes} ==> !GoodShape(e)
    decreases e, 1
  {
    if depth > MAX_DEPTH {
      return Some(TooDeep), nodes;
    }
    count := nodes + 1;
    if count > MAX_NODES {
      return Some(TooManyNodes), count;
    }
    r := CheckLeaf(e);
    if r.Some? {
      return;
    }
    match e
    case Not(sub) =>
      r, count := ValidateExpr(sub, depth + 1, count);
    case And(subs) =>
      if subs == [] { return Some(EmptyCompound), count; }
      r, count := ValidateChildren(e, subs, depth + 1, count);
    case Or(subs) =>
      if subs == [] { return Some(EmptyCompound), count; }
      r, count := ValidateChildren(e, subs, depth + 1, count);
    case _ =>
  }

  method ValidateChildren(e: Expr, subs: seq<Expr>, depth: nat, nodes: nat)
    returns (r: Option<SelectorError>, count: nat)
    requires (e.And? || e.Or?) && subs == e.exprs && subs != []
    ensures r.None? <==>
      && (forall i :: 0 <= i < |subs| ==> GoodShape(subs[i]))
      && depth + HeightAll(subs) - 1 <= MAX_DEPTH
      && nodes + SizeAll(subs) <= MAX_NODES
    ensures r.None? ==> count == nodes + SizeAll(subs)
    ensures r == Some(TooDeep) ==> depth + HeightAll(subs) - 1 > MAX_DEPTH
    ensures r == Some(TooManyNodes) ==> nodes + SizeAll(subs) > MAX_NODES
    ensures r.Some? && r.value !in {TooDeep, TooManyNodes} ==> exists i :: 0 <= i < |subs| && !GoodShape(subs[i])
    decreases e, 0
  {
    hide GoodShape, GoodLeaf, Size, Height;
    count := nodes;
    r := None;
    for i := 0 to |subs|
      invariant r.None?
      invariant forall j :: 0 <= j < i ==> GoodShape(subs[j])
      invariant i > 0 ==> depth + HeightAll(subs[..i]) - 1 <= MAX_DEPTH && nodes + SizeAll(subs[..i]) <= MAX_NODES
      invariant count == nodes + SizeAll(subs[..i])
    {
      assert subs[..i + 1] == subs[..i] + [subs[i]];
      SnocSizes(subs[..i], subs[i]);
      SplitSizes(subs, i);
      r, count := ValidateExpr(subs[i], depth, count);
      if r.Some? {
        return;
      }
    }
    assert subs[..|subs|] == subs;
  }

  /** `Selector::validate`: the counter starts at zero and is shared by the clauses. */
  method Validate(s: Selector) returns (r: Option<SelectorError>)
    ensures r.None? <==>
      && (forall i :: 0 <= i < |s.clauses| ==> GoodShape(s.clauses[i]))
      && HeightAll(s.clauses) <= MAX_DEPTH
      && SizeAll(s.clauses) <= MAX_NODES
  {
    hide GoodShape, GoodLeaf, Size, Height;
    var count: nat := 0;
    r := None;
    for i := 0 to |s.clauses|
      invariant r.None?
      invariant forall j :: 0 <= j < i ==> GoodShape(s.clauses[j])
      invariant HeightAll(s.clauses[..i]) <= MAX_DEPTH && SizeAll(s.clauses[..i]) <= MAX_NODES
      invariant count == SizeAll(s.clauses[..i])
    {
      assert s.clauses[..i + 1] == s.clauses[..i] + [s.clauses[i]];
      SnocSizes(s.clauses[..i], s.clauses[i]);
      SplitSizes(s.clauses, i);
      r, count := ValidateExpr(s.clauses[i], 1, count);
      if r.Some? {
        return;
      }
    }
    assert s.clauses[..|s.clauses|] == s.clauses;
  }
}
