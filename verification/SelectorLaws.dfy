/**
 What a selector means, law by law: how compounds come from their parts, which tags satisfy
 a tag leaf, and which values a test on facts accepts, kind by kind.
 */
module SelectorLaws {
  import opened JsonModel
  import opened Text
  import opened FactPaths
  import opened Selectors

  // ---- Compounds ----

  /** No clause matches every host, and every clause must hold. */
  lemma ClausesAllHold(clauses: seq<Expr>, e: Expr, tags: HostTags, facts: HostFacts)
    ensures Matches(Selector([]), tags, facts)
    ensures Matches(Selector([e]), tags, facts) <==> Eval(e, tags, facts)
    ensures Matches(Selector(clauses + [e]), tags, facts) <==>
            Matches(Selector(clauses), tags, facts) && Matches(Selector([e]), tags, facts)
  {
    var more := clauses + [e];
    assert [e][0] == e && more[|clauses|] == e;
    assert forall i :: 0 <= i < |clauses| ==> more[i] == clauses[i];
  }

  /** `And` of nothing holds; one more operand must hold too. */
  lemma AndOneMore(es: seq<Expr>, e: Expr, tags: HostTags, facts: HostFacts)
    ensures Eval(And([]), tags, facts)
    ensures Eval(And(es + [e]), tags, facts) <==> Eval(And(es), tags, facts) && Eval(e, tags, facts)
  {
    var more := es + [e];
    assert more[|es|] == e;
    assert forall i :: 0 <= i < |es| ==> more[i] == es[i];
  }

  /** `Or` of nothing fails; one more operand is one more way to hold. */
  lemma OrOneMore(es: seq<Expr>, e: Expr, tags: HostTags, facts: HostFacts)
    ensures !Eval(Or([]), tags, facts)
    ensures Eval(Or(es + [e]), tags, facts) <==> Eval(Or(es), tags, facts) || Eval(e, tags, facts)
  {
    var more := es + [e];
    assert more[|es|] == e;
    assert forall i :: 0 <= i < |es| ==> more[i] == es[i];
  }

  lemma NotFlips(e: Expr, tags: HostTags, facts: HostFacts)
    ensures Eval(Not(e), tags, facts) <==> !Eval(e, tags, facts)
  {
  }

  /** Negation swaps the two compounds. */
  lemma NotSwapsCompounds(es: seq<Expr>, nots: seq<Expr>, tags: HostTags, facts: HostFacts)
    requires |nots| == |es| && forall i :: 0 <= i < |es| ==> nots[i] == Not(es[i])
    ensures Eval(Not(And(es)), tags, facts) <==> Eval(Or(nots), tags, facts)
    ensures Eval(Not(Or(es)), tags, facts) <==> Eval(And(nots), tags, facts)
  {
    forall i | 0 <= i < |es| ensures Eval(nots[i], tags, facts) == !Eval(es[i], tags, facts) {
      NotFlips(es[i], tags, facts);
    }
    CompoundsMean(es, tags, facts);
    CompoundsMean(nots, tags, facts);
    NotFlips(And(es), tags, facts);
    NotFlips(Or(es), tags, facts);
    hide Eval;
  }

  lemma CompoundsMean(es: seq<Expr>, tags: HostTags, facts: HostFacts)
    ensures Eval(And(es), tags, facts) <==> forall i :: 0 <= i < |es| ==> Eval(es[i], tags, facts)
    ensures Eval(Or(es), tags, facts) <==> exists i :: 0 <= i < |es| && Eval(es[i], tags, facts)
  {
  }

  // ---- Tags ----

  function Tagged(tags: HostTags, key: string, tag: TagValue): HostTags {
    tags[key := (if key in tags then tags[key] else []) + [tag]]
  }

  /** A host without a value under a key fails every equality on it; one more value satisfies
      just the equalities with it whose filter names its source, or any. */
  lemma TagEqOneMore(tags: HostTags, key: string, tag: TagValue, k: string, v: string, source: SourceFilter,
                     facts: HostFacts)
    ensures k !in tags || tags[k] == [] ==> !Eval(TagEq(k, v, source), tags, facts)
    ensures Eval(TagEq(k, v, source), Tagged(tags, key, tag), facts) <==>
      || Eval(TagEq(k, v, source), tags, facts)
      || (k == key && v == tag.value &&
          (source.AnySource? || (source.OnlyManual? && tag.source.Manual?) || (source.OnlyAgent? && tag.source.Agent?)))
  {
    var after := Tagged(tags, key, tag);
    if k == key {
      var before := if key in tags then tags[key] else [];
      assert after[key] == before + [tag];
      assert after[key][|before|] == tag;
      assert forall i :: 0 <= i < |before| ==> after[key][i] == before[i];
      assert tag.value == v && source.Accepts(tag.source) ==> Carries(after, k, v, source);
    } else {
      assert k in after <==> k in tags;
    }
  }

  /** One of several values: the disjunction of the equalities. */
  lemma TagInIsOr(key: string, values: seq<string>, source: SourceFilter, eqs: seq<Expr>, tags: HostTags,
                  facts: HostFacts)
    requires |eqs| == |values| && forall i :: 0 <= i < |values| ==> eqs[i] == TagEq(key, values[i], source)
    ensures Eval(TagIn(key, values, source), tags, facts) <==> Eval(Or(eqs), tags, facts)
  {
    assert forall i :: 0 <= i < |values| ==> Eval(eqs[i], tags, facts) == Carries(tags, key, values[i], source);
  }

  /** Any value at all: some equality holds. */
  lemma TagExistsIsSomeEq(key: string, source: SourceFilter, tags: HostTags, facts: HostFacts)
    ensures Eval(TagExists(key, source), tags, facts) <==> exists v :: Eval(TagEq(key, v, source), tags, facts)
  {
    if Eval(TagExists(key, source), tags, facts) {
      var i :| 0 <= i < |tags[key]| && source.Accepts(tags[key][i].source);
      assert Eval(TagEq(key, tags[key][i].value, source), tags, facts);
    }
  }

  // ---- Facts ----

  /** The path that reaches the document itself. */
  const HERE := FactPath("", [])

  lemma HereTestsTheDocument(source: string, test: FactTest, v: Json, tags: HostTags)
    ensures Eval(Fact(source, HERE, test), tags, map[source := v]) <==> Passes(test, v)
  {
    var reached := ResolveSteps(v, Flatten(HERE.segments));
    assert reached == [v] && reached[0] == v;
    assert Eval(Fact(source, HERE, test), tags, map[source := v]) <==> FactHolds(v, HERE, test);
  }

  /** A leaf on a document the host does not have fails. On one it has, some value the path
      reaches must pass, as if it were the document. */
  lemma FactReadsEachValue(source: string, path: FactPath, test: FactTest, tags: HostTags, facts: HostFacts)
    ensures source !in facts ==> !Eval(Fact(source, path, test), tags, facts)
    ensures source in facts ==>
      (Eval(Fact(source, path, test), tags, facts) <==>
       exists v :: v in ResolveSteps(facts[source], Flatten(path.segments)) &&
         Eval(Fact(source, HERE, test), tags, map[source := v]))
  {
    if source in facts {
      var reached := ResolveSteps(facts[source], Flatten(path.segments));
      forall v ensures Eval(Fact(source, HERE, test), tags, map[source := v]) <==> Passes(test, v) {
        HereTestsTheDocument(source, test, v, tags);
      }
      if Eval(Fact(source, path, test), tags, facts) {
        var i :| 0 <= i < |reached| && Passes(test, reached[i]);
        assert reached[i] in reached;
      }
    }
  }

  /** Which values pass a test: anything but null is there; a string equals itself, a number
      its digits, a flag its word, and nothing else equals any text; a list has its scalars
      and the ids of its records, a map has its keys, and nothing else has anything. */
  lemma TestsByKind(source: string, test: FactTest, v: Json, tags: HostTags)
    ensures var holds := Eval(Fact(source, HERE, test), tags, map[source := v]);
      match test
      case Present => holds <==> v != Null
      case Equals(value) =>
        holds <==> v == Str(value) || v == Num(value) ||
                   (v == Bool(true) && value == "true") || (v == Bool(false) && value == "false")
      case OneOf(values) =>
        holds <==> (exists value :: value in values && Eval(Fact(source, HERE, Equals(value)), tags, map[source := v]))
      case Has(value) =>
        match v
        case Arr(items) =>
          holds <==> (exists x ::
            x in items &&
            (Eval(Fact(source, HERE, Equals(value)), tags, map[source := x]) ||
             (x.Obj? && Field(x.fields, "id") == Some(Str(value)))))
        case Obj(m) => holds <==> value in m.Keys
        case _ => !holds
  {
    forall x: Json, t: FactTest ensures Eval(Fact(source, HERE, t), tags, map[source := x]) <==> Passes(t, x) {
      HereTestsTheDocument(source, t, x, tags);
    }
    hide Eval;
    if test.Has? && v.Arr? {
      ListHas(v.items, test.value);
    }
  }

  lemma ListHas(items: seq<Json>, value: string)
    ensures Holds(Arr(items), value) <==> exists x ::
      x in items && (Passes(Equals(value), x) || (x.Obj? && Field(x.fields, "id") == Some(Str(value))))
  {
    if Holds(Arr(items), value) {
      var i :| 0 <= i < |items|
        && if items[i].Obj? then HasId(items[i], value) else ScalarText(items[i]) == Some(value);
      assert items[i] in items;
    }
  }

  // ---- Names of sources ----

  predicate SourceChar(c: char) {
    'a' <= c <= 'z' || '0' <= c <= '9' || c in {'_', '.', ':', '-'}
  }

  predicate AllSourceChars(s: string) {
    forall i :: 0 <= i < |s| ==> SourceChar(s[i])
  }

  predicate AllSourceBytes(b: seq<byte>) {
    forall i :: 0 <= i < |b| ==> SourceByte(b[i])
  }

  lemma SourceCharBytes(c: char)
    ensures AllSourceBytes(Utf8Char(c)) <==> SourceChar(c)
    ensures SourceChar(c) ==> Utf8Char(c) == [c as int]
  {
    var b := Utf8Char(c);
    if c as int < 0x80 {
      assert AllSourceBytes([c as int]) <==> SourceByte([c as int][0]);
    } else {
      assert b[0] >= 0xC0 && !SourceByte(b[0]);
    }
  }

  lemma BytesTogether(a: seq<byte>, b: seq<byte>)
    ensures AllSourceBytes(a + b) <==> AllSourceBytes(a) && AllSourceBytes(b)
  {
    assert forall i :: 0 <= i < |a| ==> (a + b)[i] == a[i];
    assert forall i :: 0 <= i < |b| ==> (a + b)[|a| + i] == b[i];
  }

  lemma {:induction false} SourceBytesAreChars(s: string)
    ensures AllSourceBytes(Utf8(s)) <==> AllSourceChars(s)
    ensures AllSourceChars(s) ==> |Utf8(s)| == |s|
  {
    if s == "" {
    } else {
      hide Utf8Char, SourceChar, SourceByte;
      SourceCharBytes(s[0]);
      SourceBytesAreChars(s[1..]);
      BytesTogether(Utf8Char(s[0]), Utf8(s[1..]));
      assert s == [s[0]] + s[1..];
      assert AllSourceChars(s) <==> SourceChar(s[0]) && AllSourceChars(s[1..]) by {
        assert forall i :: 0 < i < |s| ==> s[i] == s[1..][i - 1];
      }
    }
  }

  /** A source has a name of 1 to 64 lower-case letters, digits, underscores, dots, colons and
      hyphens, a letter first. */
  lemma SourceNames(s: string)
    ensures ValidSource(s) <==> 1 <= |s| <= 64 && 'a' <= s[0] <= 'z' && AllSourceChars(s)
  {
    SourceBytesAreChars(s);
    if s != "" {
      SourceCharBytes(s[0]);
    }
  }

  // ---- Who controls a selector ----

  /** The leaves of an expression. */
  function LeavesOf(e: Expr): set<Expr> {
    match e
    case Not(sub) => LeavesOf(sub)
    case And(subs) => set i, l | 0 <= i < |subs| && l in LeavesOf(subs[i]) :: l
    case Or(subs) => set i, l | 0 <= i < |subs| && l in LeavesOf(subs[i]) :: l
    case _ => {e}
  }

  /** The leaf is satisfied by what an agent reports. */
  predicate HearsTheAgent(leaf: Expr) {
    match leaf
    case Fact(source, _, _) => source == "agent"
    case TagEq(_, _, source) => source.Accepts(Agent)
    case TagIn(_, _, source) => source.Accepts(Agent)
    case TagExists(_, source) => source.Accepts(Agent)
    case _ => false
  }

  lemma {:induction false} ControlledByALeaf(e: Expr)
    ensures ExprIsHostControlled(e) <==> exists l :: l in LeavesOf(e) && HearsTheAgent(l)
  {
    match e
    case Not(sub) => ControlledByALeaf(sub);
    case And(subs) =>
      forall i | 0 <= i < |subs|
        ensures ExprIsHostControlled(subs[i]) <==> exists l :: l in LeavesOf(subs[i]) && HearsTheAgent(l)
      {
        ControlledByALeaf(subs[i]);
      }
    case Or(subs) =>
      forall i | 0 <= i < |subs|
        ensures ExprIsHostControlled(subs[i]) <==> exists l :: l in LeavesOf(subs[i]) && HearsTheAgent(l)
      {
        ControlledByALeaf(subs[i]);
      }
    case _ =>
      assert e in LeavesOf(e) && LeavesOf(e) == {e};
      assert ExprIsHostControlled(e) <==> HearsTheAgent(e);
  }

  /** A selector is host-controlled exactly when some leaf of it hears the agent. */
  lemma HostControlledIffALeafHears(s: Selector)
    ensures IsHostControlled(s) <==>
            exists i, l :: 0 <= i < |s.clauses| && l in LeavesOf(s.clauses[i]) && HearsTheAgent(l)
  {
    forall i | 0 <= i < |s.clauses|
      ensures ExprIsHostControlled(s.clauses[i]) <==> exists l :: l in LeavesOf(s.clauses[i]) && HearsTheAgent(l)
    {
      ControlledByALeaf(s.clauses[i]);
    }
  }
}
