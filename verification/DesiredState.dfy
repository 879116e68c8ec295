/**
 What a host should run: the bundles of the groups it is in, in priority order, its
 override, and the message the state hash is taken over.

 The message must tell any two states apart, since an agent that sees an unchanged hash
 does not sync. That the hash itself (a keyed MAC) does is not modelled; that equal message
 bytes mean equal states is proved here.
 */
module DesiredStates {
  import opened JsonModel
  import opened Text
  import opened Canonical
  import opened Selectors

  datatype DesiredBundle = DesiredBundle(
    id: string, name: string, version: string, format: string,
    sha256: string, signature: string, priority: int)

  /** A group, with no selector when the stored one does not parse or validate. */
  datatype Group = Group(id: string, selector: Option<Selector>)

  /** A row of the join of bundle assignments with their bundles. */
  datatype Assignment = Assignment(group: string, bundle: DesiredBundle)

  /** `message` is what the state hash is the MAC of. */
  datatype DesiredState = DesiredState(message: seq<byte>, config: Json, bundles: seq<DesiredBundle>)

  // ---- Choosing bundles ----

  /** Every source some usable selector reads. */
  function SourcesRead(groups: seq<Group>): set<string> {
    if groups == [] then {}
    else
      var first := if groups[0].selector.Some? then SourcesOfAll(groups[0].selector.value.clauses) else {};
      first + SourcesRead(groups[1..])
  }

  function MatchingGroups(groups: seq<Group>, tags: HostTags, facts: HostFacts): seq<string> {
    if groups == [] then []
    else
      var rest := MatchingGroups(groups[1..], tags, facts);
      if groups[0].selector.Some? && Matches(groups[0].selector.value, tags, facts) then [groups[0].id] + rest else rest
  }

  /** `list_for_groups`. */
  function BundlesFor(rows: seq<Assignment>, ids: seq<string>): seq<DesiredBundle> {
    if rows == [] then []
    else (if rows[0].group in ids then [rows[0].bundle] else []) + BundlesFor(rows[1..], ids)
  }

  /** Loading only the documents some selector reads, as the walk does, changes nothing. */
  lemma {:induction false} MatchingNeedsOnlySourcesRead(groups: seq<Group>, tags: HostTags, facts: HostFacts,
                                                        sources: set<string>)
    requires SourcesRead(groups) <= sources
    ensures MatchingGroups(groups, tags, Restrict(facts, sources)) == MatchingGroups(groups, tags, facts)
  {
    if groups == [] {
    } else {
      MatchingNeedsOnlySourcesRead(groups[1..], tags, facts, sources);
      if groups[0].selector.Some? {
        MatchesNeedsOnlyItsSources(groups[0].selector.value, tags, facts, sources);
      }
    }
  }

  predicate NoGroupIsHostControlled(groups: seq<Group>) {
    forall i :: 0 <= i < |groups| && groups[i].selector.Some? ==> !IsHostControlled(groups[i].selector.value)
  }

  lemma {:induction false} HostCannotSwayItsGroups(groups: seq<Group>, tags: HostTags, facts: HostFacts,
                                                   tags': HostTags, facts': HostFacts)
    requires NoGroupIsHostControlled(groups)
    requires SameToOperators(tags, facts, tags', facts')
    ensures MatchingGroups(groups, tags, facts) == MatchingGroups(groups, tags', facts')
  {
    if groups == [] {
    } else {
      assert forall i :: 0 <= i < |groups[1..]| ==> groups[1..][i] == groups[i + 1];
      HostCannotSwayItsGroups(groups[1..], tags, facts, tags', facts');
      if groups[0].selector.Some? {
        HostCannotSwayAnOperatorSelector(groups[0].selector.value, tags, facts, tags', facts');
      }
    }
  }

  // ---- Priority order ----

  /** Places a bundle before every later one of the same or a higher priority. */
  function Insert(b: DesiredBundle, s: seq<DesiredBundle>): seq<DesiredBundle> {
    if s == [] || b.priority <= s[0].priority then [b] + s else [s[0]] + Insert(b, s[1..])
  }

  /** `sort_by_key` on the priority: ascending, and stable. */
  function ByPriority(s: seq<DesiredBundle>): seq<DesiredBundle> {
    if s == [] then [] else Insert(s[0], ByPriority(s[1..]))
  }

  predicate AscendingPriority(s: seq<DesiredBundle>) {
    forall i, j :: 0 <= i < j < |s| ==> s[i].priority <= s[j].priority
  }

  /** The bundles of one priority, in their order. */
  function Layer(s: seq<DesiredBundle>, p: int): seq<DesiredBundle> {
    if s == [] then [] else (if s[0].priority == p then [s[0]] else []) + Layer(s[1..], p)
  }

  lemma {:induction false} InsertKeepsLayers(b: DesiredBundle, s: seq<DesiredBundle>, p: int)
    requires AscendingPriority(s)
    ensures AscendingPriority(Insert(b, s))
    ensures Layer(Insert(b, s), p) == (if b.priority == p then [b] else []) + Layer(s, p)
    ensures |Insert(b, s)| == |s| + 1 && (Insert(b, s)[0] == b || (s != [] && Insert(b, s)[0] == s[0]))
  {
    if s == [] || b.priority <= s[0].priority {
      assert ([b] + s)[1..] == s;
    } else {
      InsertKeepsLayers(b, s[1..], p);
      assert Insert(b, s)[1..] == Insert(b, s[1..]);
      assert s[1..] != [] ==> s[1..][0] == s[1];
      AscendingFromHead(Insert(b, s));
    }
  }

  lemma AscendingFromHead(s: seq<DesiredBundle>)
    requires |s| > 0 && AscendingPriority(s[1..])
    requires |s| > 1 ==> s[0].priority <= s[1].priority
    ensures AscendingPriority(s)
  {
    forall i, j | 0 <= i < j < |s| ensures s[i].priority <= s[j].priority {
      assert s[j] == s[1..][j - 1];
      if i > 0 {
        assert s[i] == s[1..][i - 1];
      } else if j > 1 {
        assert s[1] == s[1..][0];
      }
    }
  }

  /** Sorting keeps every layer as it was, in its order. */
  lemma {:induction false} SortedByPriority(s: seq<DesiredBundle>, p: int)
    ensures AscendingPriority(ByPriority(s))
    ensures Layer(ByPriority(s), p) == Layer(s, p)
  {
    if s == [] {
    } else {
      SortedByPriority(s[1..], p);
      InsertKeepsLayers(s[0], ByPriority(s[1..]), p);
    }
  }

  lemma {:induction false} LayerOfOthers(s: seq<DesiredBundle>, p: int)
    requires forall i :: 0 <= i < |s| ==> s[i].priority != p
    ensures Layer(s, p) == []
  {
    if s == [] {
    } else {
      LayerOfOthers(s[1..], p);
    }
  }

  lemma LayerTail(s: seq<DesiredBundle>, p: int)
    requires s != []
    ensures s[0].priority == p ==> Layer(s, p) != [] && Layer(s, p)[0] == s[0]
    ensures Layer(s[1..], p) == if s[0].priority == p then Layer(s, p)[1..] else Layer(s, p)
  {
  }

  lemma SameLayersSameEmptiness(s: seq<DesiredBundle>, t: seq<DesiredBundle>)
    requires forall p :: Layer(s, p) == Layer(t, p)
    ensures s != [] ==> t != []
  {
    if s != [] {
      LayerTail(s, s[0].priority);
      assert Layer(t, s[0].priority) != [];
    }
  }

  /** There is only one such order: ascending sequences with the same layers are the same. */
  lemma {:induction false} StableOrderUnique(s: seq<DesiredBundle>, t: seq<DesiredBundle>)
    requires AscendingPriority(s) && AscendingPriority(t)
    requires forall p :: Layer(s, p) == Layer(t, p)
    ensures s == t
  {
    SameLayersSameEmptiness(s, t);
    SameLayersSameEmptiness(t, s);
    if s == [] {
    } else {
      var p, q := s[0].priority, t[0].priority;
      assert Layer(s, p) == Layer(t, p) && Layer(s, q) == Layer(t, q);
      if p < q {
        LayerOfOthers(t, p);
      } else if q < p {
        LayerOfOthers(s, q);
      }
      assert s[0] == Layer(s, p)[0] == t[0];
      forall r ensures Layer(s[1..], r) == Layer(t[1..], r) {
        LayerTail(s, r);
        LayerTail(t, r);
        assert Layer(s, r) == Layer(t, r);
      }
      StableOrderUnique(s[1..], t[1..]);
      assert s == [s[0]] + s[1..] && t == [t[0]] + t[1..];
    }
  }

  // ---- The message under the state hash ----

  const TWO_64 := 0x1_0000_0000_0000_0000

  /** `n` in `k` bytes, least significant first. */
  function LittleEndian(n: nat, k: nat): (r: seq<byte>)
    ensures |r| == k
  {
    if k == 0 then [] else [n % 256] + LittleEndian(n / 256, k - 1)
  }

  function Power256(k: nat): nat {
    if k == 0 then 1 else 256 * Power256(k - 1)
  }

  lemma {:induction false} LittleEndianInjective(m: nat, n: nat, k: nat)
    requires m < Power256(k) && n < Power256(k)
    requires LittleEndian(m, k) == LittleEndian(n, k)
    ensures m == n
  {
    if k == 0 {
    } else {
      assert LittleEndian(m, k)[1..] == LittleEndian(m / 256, k - 1);
      assert LittleEndian(n, k)[1..] == LittleEndian(n / 256, k - 1);
      LittleEndianInjective(m / 256, n / 256, k - 1);
      assert LittleEndian(m, k)[0] == LittleEndian(n, k)[0];
    }
  }

  lemma EightBytes()
    ensures Power256(8) == TWO_64
  {
    assert Power256(2) == 0x1_0000;
    assert Power256(4) == 0x1_0000_0000;
    assert Power256(6) == 0x1_0000_0000_0000;
  }

  predicate IsI64(n: int) {
    -0x8000_0000_0000_0000 <= n < 0x8000_0000_0000_0000
  }

  /** `i64::to_le_bytes`: two's complement. */
  function I64Bytes(n: int): seq<byte> {
    LittleEndian(n % TWO_64, 8)
  }

  lemma I64BytesInjective(m: int, n: int)
    requires IsI64(m) && IsI64(n)
    requires I64Bytes(m) == I64Bytes(n)
    ensures m == n
  {
    hide LittleEndian, Power256;
    EightBytes();
    LittleEndianInjective(m % TWO_64, n % TWO_64, 8);
  }

  /** Every field after its length in eight bytes, which is what makes the whole parse one way. */
  function Framed(fields: seq<seq<byte>>): seq<byte> {
    if fields == [] then [] else LittleEndian(|fields[0]|, 8) + fields[0] + Framed(fields[1..])
  }

  /** A length is a 64-bit machine word. */
  predicate Storable(fields: seq<seq<byte>>) {
    forall i :: 0 <= i < |fields| ==> |fields[i]| < TWO_64
  }

  lemma {:induction false} FramedSnoc(fields: seq<seq<byte>>, f: seq<byte>)
    ensures Framed(fields + [f]) == Framed(fields) + (LittleEndian(|f|, 8) + f)
  {
    if fields == [] {
      assert fields + [f] == [f] && [f][1..] == [];
    } else {
      assert (fields + [f])[1..] == fields[1..] + [f];
      FramedSnoc(fields[1..], f);
      AssocBytes(LittleEndian(|fields[0]|, 8) + fields[0], Framed(fields[1..]), LittleEndian(|f|, 8) + f);
    }
  }

  lemma AssocBytes(a: seq<byte>, b: seq<byte>, c: seq<byte>)
    ensures a + (b + c) == a + b + c
  {
  }

  lemma SplitBytes(a: seq<byte>, b: seq<byte>, x: seq<byte>, y: seq<byte>)
    requires |a| == |b| && a + x == b + y
    ensures a == b && x == y
  {
    assert (a + x)[..|a|] == a && (b + y)[..|b|] == b;
    assert (a + x)[|a|..] == x && (b + y)[|b|..] == y;
  }

  lemma SplitFrame(a: seq<byte>, b: seq<byte>, x: seq<byte>, y: seq<byte>)
    requires |a| < TWO_64 && |b| < TWO_64
    requires LittleEndian(|a|, 8) + a + x == LittleEndian(|b|, 8) + b + y
    ensures a == b && x == y
  {
    hide LittleEndian;
    AssocBytes(LittleEndian(|a|, 8), a, x);
    AssocBytes(LittleEndian(|b|, 8), b, y);
    SplitBytes(LittleEndian(|a|, 8), LittleEndian(|b|, 8), a + x, b + y);
    EightBytes();
    LittleEndianInjective(|a|, |b|, 8);
    SplitBytes(a, b, x, y);
  }

  lemma {:induction false} FramedInjective(fields: seq<seq<byte>>, others: seq<seq<byte>>)
    requires Storable(fields) && Storable(others)
    requires Framed(fields) == Framed(others)
    ensures fields == others
  {
    if fields == [] || others == [] {
      assert |Framed(fields)| == |Framed(others)|;
    } else {
      SplitFrame(fields[0], others[0], Framed(fields[1..]), Framed(others[1..]));
      assert Storable(fields[1..]) && Storable(others[1..]);
      FramedInjective(fields[1..], others[1..]);
      assert fields == [fields[0]] + fields[1..] && others == [others[0]] + others[1..];
    }
  }

  /** The seven fields of a bundle, in the order they are hashed. */
  function BundleFields(b: DesiredBundle): (r: seq<seq<byte>>)
    ensures |r| == 7
  {
    [Utf8(b.id), Utf8(b.name), Utf8(b.version), Utf8(b.format), Utf8(b.sha256), Utf8(b.signature), I64Bytes(b.priority)]
  }

  lemma BundleFieldsInjective(b: DesiredBundle, c: DesiredBundle)
    requires IsI64(b.priority) && IsI64(c.priority)
    requires BundleFields(b) == BundleFields(c)
    ensures b == c
  {
    var f, g := BundleFields(b), BundleFields(c);
    assert f[0] == g[0] && f[1] == g[1] && f[2] == g[2] && f[3] == g[3] && f[4] == g[4] && f[5] == g[5] && f[6] == g[6];
    Utf8Injective(b.id, c.id);
    Utf8Injective(b.name, c.name);
    Utf8Injective(b.version, c.version);
    Utf8Injective(b.format, c.format);
    Utf8Injective(b.sha256, c.sha256);
    Utf8Injective(b.signature, c.signature);
    I64BytesInjective(b.priority, c.priority);
  }

  function AllFields(bundles: seq<DesiredBundle>): (r: seq<seq<byte>>)
    ensures |r| == 7 * |bundles|
  {
    if bundles == [] then [] else BundleFields(bundles[0]) + AllFields(bundles[1..])
  }

  predicate Priorities64(bundles: seq<DesiredBundle>) {
    forall i :: 0 <= i < |bundles| ==> IsI64(bundles[i].priority)
  }

  lemma {:induction false} AllFieldsInjective(bundles: seq<DesiredBundle>, others: seq<DesiredBundle>)
    requires Priorities64(bundles) && Priorities64(others)
    requires AllFields(bundles) == AllFields(others)
    ensures bundles == others
  {
    assert 7 * |bundles| == 7 * |others|;
    if bundles == [] {
    } else {
      var f, g := AllFields(bundles), AllFields(others);
      assert f[..7] == BundleFields(bundles[0]) && g[..7] == BundleFields(others[0]);
      assert f[7..] == AllFields(bundles[1..]) && g[7..] == AllFields(others[1..]);
      BundleFieldsInjective(bundles[0], others[0]);
      AllFieldsInjective(bundles[1..], others[1..]);
      assert bundles == [bundles[0]] + bundles[1..] && others == [others[0]] + others[1..];
    }
  }

  lemma {:induction false} AllFieldsSnoc(bundles: seq<DesiredBundle>, b: DesiredBundle)
    ensures AllFields(bundles + [b]) == AllFields(bundles) + BundleFields(b)
  {
    if bundles == [] {
      assert bundles + [b] == [b] && [b][1..] == [];
    } else {
      assert (bundles + [b])[1..] == bundles[1..] + [b];
      AllFieldsSnoc(bundles[1..], b);
    }
  }

  function MessageFields(config: Json, bundles: seq<DesiredBundle>): seq<seq<byte>> {
    [Utf8(Canon(config))] + AllFields(bundles)
  }

  /** The bytes the state hash covers. */
  function Message(config: Json, bundles: seq<DesiredBundle>): seq<byte> {
    Framed(MessageFields(config, bundles))
  }

  /** What every stored state satisfies: fields that fit in memory, 64-bit priorities, and
      numbers that print as JSON numbers. */
  predicate Hashable(config: Json, bundles: seq<DesiredBundle>) {
    Printable(config) && Priorities64(bundles) && Storable(MessageFields(config, bundles))
  }

  /** Two states with the same message are the same state, up to object key order (which
      `Json` does not have): the message changes with the content, and with nothing else. */
  lemma MessageInjective(config: Json, bundles: seq<DesiredBundle>, config': Json, bundles': seq<DesiredBundle>)
    requires Hashable(config, bundles) && Hashable(config', bundles')
    ensures Message(config, bundles) == Message(config', bundles') <==> config == config' && bundles == bundles'
  {
    if Message(config, bundles) == Message(config', bundles') {
      var f, g := MessageFields(config, bundles), MessageFields(config', bundles');
      FramedInjective(f, g);
      assert f[0] == Utf8(Canon(config)) && g[0] == Utf8(Canon(config'));
      assert f[1..] == AllFields(bundles) && g[1..] == AllFields(bundles');
      Utf8Injective(Canon(config), Canon(config'));
      CanonInjective(config, config');
      AllFieldsInjective(bundles, bundles');
    }
  }

  /** `field`: appends one length-prefixed field to the message. */
  method AppendField(msg: seq<byte>, bytes: seq<byte>, ghost fields: seq<seq<byte>>) returns (out: seq<byte>)
    requires msg == Framed(fields)
    ensures out == Framed(fields + [bytes])
  {
    FramedSnoc(fields, bytes);
    AssocBytes(msg, LittleEndian(|bytes|, 8), bytes);
    out := msg + LittleEndian(|bytes|, 8);
    out := out + bytes;
  }

  lemma MessageFieldsNext(config: Json, bundles: seq<DesiredBundle>, i: nat)
    requires i < |bundles|
    ensures MessageFields(config, bundles[..i + 1]) == MessageFields(config, bundles[..i]) + BundleFields(bundles[i])
  {
    assert bundles[..i + 1] == bundles[..i] + [bundles[i]];
    AllFieldsSnoc(bundles[..i], bundles[i]);
  }

  method HashMessage(config: Json, bundles: seq<DesiredBundle>) returns (msg: seq<byte>)
    ensures msg == Message(config, bundles)
  {
    var canonical := CanonicalString(config);
    msg := AppendField([], Utf8(canonical), []);
    assert [] + [Utf8(canonical)] == MessageFields(config, bundles[..0]);
    hide Framed, Utf8, Canon, MessageFields, BundleFields;
    for i := 0 to |bundles|
      invariant msg == Framed(MessageFields(config, bundles[..i]))
    {
      msg := AppendBundle(msg, bundles[i], MessageFields(config, bundles[..i]));
      MessageFieldsNext(config, bundles, i);
    }
    assert bundles[..|bundles|] == bundles;
  }

  method AppendBundle(start: seq<byte>, b: DesiredBundle, ghost fields: seq<seq<byte>>) returns (msg: seq<byte>)
    requires start == Framed(fields)
    ensures msg == Framed(fields + BundleFields(b))
  {
    hide Framed;
    msg := AppendField(start, Utf8(b.id), fields);
    msg := AppendField(msg, Utf8(b.name), fields + [Utf8(b.id)]);
    ghost var f := fields + [Utf8(b.id)] + [Utf8(b.name)];
    msg := AppendField(msg, Utf8(b.version), f);
    msg := AppendField(msg, Utf8(b.format), f + [Utf8(b.version)]);
    ghost var g := f + [Utf8(b.version)] + [Utf8(b.format)];
    msg := AppendField(msg, Utf8(b.sha256), g);
    msg := AppendField(msg, Utf8(b.signature), g + [Utf8(b.sha256)]);
    msg := AppendField(msg, I64Bytes(b.priority), g + [Utf8(b.sha256)] + [Utf8(b.signature)]);
    assert fields + BundleFields(b) == g + [Utf8(b.sha256)] + [Utf8(b.signature)] + [I64Bytes(b.priority)];
  }

  // ---- The walk ----

  /** The stored override exactly as it is, nulls included, when it is an object. */
  function ConfigOf(patch: Option<Json>): Json {
    if patch.Some? && patch.value.Obj? then patch.value else EMPTY_OBJECT
  }

  function Assemble(chosen: seq<DesiredBundle>, patch: Option<Json>): DesiredState {
    var config, bundles := ConfigOf(patch), ByPriority(chosen);
    DesiredState(Message(config, bundles), config, bundles)
  }

  /** What a host should run, from everything stored about it and its tenant. */
  function Build(tags: HostTags, groups: seq<Group>, facts: HostFacts, rows: seq<Assignment>,
                 patch: Option<Json>): DesiredState
  {
    Assemble(BundlesFor(rows, MatchingGroups(groups, tags, facts)), patch)
  }

  // ---- What is chosen ----

  /** Row `i` assigns its bundle to a group whose selector is usable and matches the host. */
  predicate Serves(rows: seq<Assignment>, i: nat, groups: seq<Group>, tags: HostTags, facts: HostFacts) {
    i < |rows| && exists j :: 0 <= j < |groups| && groups[j].id == rows[i].group
                              && groups[j].selector.Some? && Matches(groups[j].selector.value, tags, facts)
  }

  /** Row `i` comes before row `j`: of a lower priority, or of the same and listed earlier. */
  predicate Sooner(rows: seq<Assignment>, i: nat, j: nat) {
    i < |rows| && j < |rows| &&
    var p, q := rows[i].bundle.priority, rows[j].bundle.priority;
    p < q || (p == q && i < j)
  }

  predicate InTurn(rows: seq<Assignment>, picks: seq<nat>) {
    forall k, l :: 0 <= k < l < |picks| ==> Sooner(rows, picks[k], picks[l])
  }

  /** `bundles` are those of the rows that serve the host, each row once, soonest first;
      `picks` tells which row each is from. */
  ghost predicate ServedFrom(bundles: seq<DesiredBundle>, picks: seq<nat>, rows: seq<Assignment>, groups: seq<Group>,
                             tags: HostTags, facts: HostFacts)
  {
    && |picks| == |bundles|
    && (forall i: nat :: i in picks <==> Serves(rows, i, groups, tags, facts))
    && (forall k :: 0 <= k < |picks| ==> picks[k] < |rows| && bundles[k] == rows[picks[k]].bundle)
    && InTurn(rows, picks)
  }

  lemma {:induction false} MatchingMeans(groups: seq<Group>, tags: HostTags, facts: HostFacts, id: string)
    ensures id in MatchingGroups(groups, tags, facts) <==>
      exists j :: 0 <= j < |groups| && groups[j].id == id
                  && groups[j].selector.Some? && Matches(groups[j].selector.value, tags, facts)
  {
    hide Matches;
    if groups == [] {
    } else {
      MatchingMeans(groups[1..], tags, facts, id);
      if id in MatchingGroups(groups[1..], tags, facts) {
        var j :| 0 <= j < |groups[1..]| && groups[1..][j].id == id
                 && groups[1..][j].selector.Some? && Matches(groups[1..][j].selector.value, tags, facts);
        assert groups[j + 1] == groups[1..][j];
      }
      forall j | 0 <= j < |groups| && groups[j].id == id
                 && groups[j].selector.Some? && Matches(groups[j].selector.value, tags, facts)
        ensures id in MatchingGroups(groups, tags, facts)
      {
        assert j > 0 ==> groups[1..][j - 1] == groups[j];
      }
    }
  }

  predicate Holding(rows: seq<Assignment>, picks: seq<nat>, bundles: seq<DesiredBundle>) {
    && |picks| == |bundles|
    && forall k :: 0 <= k < |picks| ==> picks[k] < |rows| && bundles[k] == rows[picks[k]].bundle
  }

  lemma PickFirst(rows: seq<Assignment>, i: nat, picks: seq<nat>, bundles: seq<DesiredBundle>)
    requires i < |rows| && Holding(rows, picks, bundles) && InTurn(rows, picks)
    requires forall k :: 0 <= k < |picks| ==> Sooner(rows, i, picks[k])
    ensures Holding(rows, [i] + picks, [rows[i].bundle] + bundles) && InTurn(rows, [i] + picks)
  {
    hide Sooner;
    var more := [i] + picks;
    forall k, l | 0 <= k < l < |more| ensures Sooner(rows, more[k], more[l]) {
      assert more[l] == picks[l - 1];
      assert k > 0 ==> more[k] == picks[k - 1];
    }
  }

  lemma PickRest(rows: seq<Assignment>, picks: seq<nat>, bundles: seq<DesiredBundle>)
    requires Holding(rows, picks, bundles) && InTurn(rows, picks) && picks != []
    ensures Holding(rows, picks[1..], bundles[1..]) && InTurn(rows, picks[1..])
    ensures forall k :: 0 <= k < |picks[1..]| ==> Sooner(rows, picks[0], picks[1..][k])
    ensures picks == [picks[0]] + picks[1..] && bundles == [rows[picks[0]].bundle] + bundles[1..]
  {
    hide Sooner;
    var rest := picks[1..];
    assert forall k :: 0 <= k < |rest| ==> rest[k] == picks[k + 1];
  }

  /** Inserting the bundle of a row that is listed before all the others. */
  lemma {:induction false} InsertPick(rows: seq<Assignment>, i: nat, picks: seq<nat>, bundles: seq<DesiredBundle>)
    returns (more: seq<nat>)
    requires i < |rows| && Holding(rows, picks, bundles) && InTurn(rows, picks)
    requires forall k :: 0 <= k < |picks| ==> i < picks[k]
    ensures Holding(rows, more, Insert(rows[i].bundle, bundles)) && InTurn(rows, more)
    ensures forall x :: x in more <==> x == i || x in picks
    decreases |picks|
  {
    var b := rows[i].bundle;
    if picks == [] || b.priority <= bundles[0].priority {
      more := [i] + picks;
      forall k | 0 <= k < |picks| ensures Sooner(rows, i, picks[k]) {
        assert k > 0 ==> Sooner(rows, picks[0], picks[k]);
      }
      PickFirst(rows, i, picks, bundles);
    } else {
      PickRest(rows, picks, bundles);
      var rest := InsertPick(rows, i, picks[1..], bundles[1..]);
      more := [picks[0]] + rest;
      hide Insert, InTurn;
      forall k | 0 <= k < |rest| ensures Sooner(rows, picks[0], rest[k]) {
        assert rest[k] in rest;
      }
      PickFirst(rows, picks[0], rest, Insert(b, bundles[1..]));
      InsertLater(b, bundles);
    }
  }

  lemma InsertLater(b: DesiredBundle, s: seq<DesiredBundle>)
    requires s != [] && b.priority > s[0].priority
    ensures Insert(b, s) == [s[0]] + Insert(b, s[1..])
  {
  }

  lemma BundlesOfOneMore(rows: seq<Assignment>, ids: seq<string>, from: nat)
    requires from < |rows|
    ensures var rest := BundlesFor(rows[from + 1..], ids);
      ByPriority(BundlesFor(rows[from..], ids)) ==
      if rows[from].group in ids then Insert(rows[from].bundle, ByPriority(rest)) else ByPriority(rest)
  {
    hide Insert;
    var rest := BundlesFor(rows[from + 1..], ids);
    assert rows[from..][0] == rows[from] && rows[from..][1..] == rows[from + 1..];
    assert [] + rest == rest;
    assert ([rows[from].bundle] + rest)[1..] == rest;
  }

  /** The rows behind the sorted bundles of `ids`, among the rows from `from` on. */
  lemma {:induction false} SortedPicks(rows: seq<Assignment>, ids: seq<string>, from: nat) returns (picks: seq<nat>)
    requires from <= |rows|
    ensures Holding(rows, picks, ByPriority(BundlesFor(rows[from..], ids))) && InTurn(rows, picks)
    ensures forall i :: i in picks <==> from <= i < |rows| && rows[i].group in ids
    decreases |rows| - from
  {
    if from == |rows| {
      picks := [];
    } else {
      picks := SortedPicks(rows, ids, from + 1);
      hide ByPriority, BundlesFor, Insert, InTurn, Holding;
      BundlesOfOneMore(rows, ids, from);
      if rows[from].group in ids {
        assert forall k :: 0 <= k < |picks| ==> picks[k] in picks;
        picks := InsertPick(rows, from, picks, ByPriority(BundlesFor(rows[from + 1..], ids)));
      }
    }
  }

  /** The bundles a host is served are those of the rows that serve it, each row once. */
  lemma BuildServes(tags: HostTags, groups: seq<Group>, facts: HostFacts, rows: seq<Assignment>, patch: Option<Json>)
    returns (picks: seq<nat>)
    ensures ServedFrom(Build(tags, groups, facts, rows, patch).bundles, picks, rows, groups, tags, facts)
  {
    hide Matches, ByPriority, MatchingGroups, BundlesFor;
    var ids := MatchingGroups(groups, tags, facts);
    assert rows[0..] == rows;
    picks := SortedPicks(rows, ids, 0);
    forall i: nat ensures i in picks <==> Serves(rows, i, groups, tags, facts) {
      if i < |rows| {
        MatchingMeans(groups, tags, facts, rows[i].group);
      }
    }
  }

  /** A bundle is served if and only if some row assigns it to a group that takes the host in. */
  lemma ServedIffAssigned(tags: HostTags, groups: seq<Group>, facts: HostFacts, rows: seq<Assignment>,
                          patch: Option<Json>, b: DesiredBundle)
    ensures b in Build(tags, groups, facts, rows, patch).bundles <==>
            exists i: nat :: Serves(rows, i, groups, tags, facts) && rows[i].bundle == b
  {
    var bundles := Build(tags, groups, facts, rows, patch).bundles;
    var picks := BuildServes(tags, groups, facts, rows, patch);
    PickedBundles(bundles, picks, rows, groups, tags, facts, b);
  }

  lemma PickedBundles(bundles: seq<DesiredBundle>, picks: seq<nat>, rows: seq<Assignment>, groups: seq<Group>,
                      tags: HostTags, facts: HostFacts, b: DesiredBundle)
    requires ServedFrom(bundles, picks, rows, groups, tags, facts)
    ensures b in bundles <==> exists i: nat :: Serves(rows, i, groups, tags, facts) && rows[i].bundle == b
  {
    ServingIsInRange(rows, groups, tags, facts);
    hide Serves, Sooner;
    if b in bundles {
      var k :| 0 <= k < |bundles| && bundles[k] == b;
      assert picks[k] in picks;
    }
    if i: nat :| Serves(rows, i, groups, tags, facts) && rows[i].bundle == b {
      assert i in picks;
      var k :| 0 <= k < |picks| && picks[k] == i;
      assert bundles[k] == b;
    }
  }

  lemma ServingIsInRange(rows: seq<Assignment>, groups: seq<Group>, tags: HostTags, facts: HostFacts)
    ensures forall i: nat :: Serves(rows, i, groups, tags, facts) ==> i < |rows|
  {
  }

  /** Why a stored override could not be read. */
  datatype OverrideError = NotDecrypted | NotUtf8 | NotJson

  /** `compute_uncached`, given what each query returns: the documents of `facts` are
      consulted only for sources some selector reads, and `stored` is the override, if any,
      as decrypting and parsing leave it. */
  method ComputeUncached(tags: HostTags, groups: seq<Group>, facts: HostFacts, rows: seq<Assignment>,
                         stored: Option<Result<Json, OverrideError>>)
    returns (r: Result<DesiredState, OverrideError>)
    ensures r.Err? <==> stored.Some? && stored.value.Err?
    ensures r.Err? ==> r.error == stored.value.error
    ensures r.Ok? ==>
            r.value == Build(tags, groups, facts, rows, if stored.Some? then Some(stored.value.value) else None)
    ensures r.Ok? ==>
            && (exists picks :: ServedFrom(r.value.bundles, picks, rows, groups, tags, facts))
            && r.value.config == (if stored.Some? && stored.value.value.Obj? then stored.value.value else Obj(map[]))
  {
    hide ServedFrom, MatchingGroups, ByPriority, Message, Restrict;
    var sources: set<string> := {};
    for i := 0 to |groups|
      invariant sources == SourcesRead(groups[..i])
    {
      assert groups[..i + 1] == groups[..i] + [groups[i]];
      SourcesReadSnoc(groups[..i], groups[i]);
      if groups[i].selector.Some? {
        var more := FactSources(groups[i].selector.value);
        sources := sources + more;
      }
    }
    assert groups[..|groups|] == groups;
    var loaded := Restrict(facts, sources);
    MatchingNeedsOnlySourcesRead(groups, tags, facts, sources);
    var ids := MatchingGroups(groups, tags, loaded);
    var chosen := if ids == [] then [] else BundlesFor(rows, ids);
    NoGroupNoBundle(rows);
    var bundles := ByPriority(chosen);
    var config := EMPTY_OBJECT;
    if stored.Some? {
      if stored.value.Err? {
        return Err(stored.value.error);
      }
      var patch := stored.value.value;
      if patch.Obj? {
        config := patch;
      }
    }
    var msg := HashMessage(config, bundles);
    ghost var picks := BuildServes(tags, groups, facts, rows, None);
    assert ServedFrom(bundles, picks, rows, groups, tags, facts);
    r := Ok(DesiredState(msg, config, bundles));
  }

  lemma {:induction false} NoGroupNoBundle(rows: seq<Assignment>)
    ensures BundlesFor(rows, []) == []
  {
    if rows == [] {
    } else {
      NoGroupNoBundle(rows[1..]);
    }
  }

  lemma {:induction false} SourcesReadSnoc(groups: seq<Group>, g: Group)
    ensures SourcesRead(groups + [g]) ==
            SourcesRead(groups) + (if g.selector.Some? then SourcesOfAll(g.selector.value.clauses) else {})
  {
    if groups == [] {
      assert groups + [g] == [g] && [g][1..] == [];
    } else {
      assert (groups + [g])[1..] == groups[1..] + [g];
      SourcesReadSnoc(groups[1..], g);
    }
  }

  /** When no group is host-controlled, nothing a host reports about itself changes what it
      is served. */
  lemma HostCannotSwayItsState(tags: HostTags, facts: HostFacts, tags': HostTags, facts': HostFacts,
                               groups: seq<Group>, rows: seq<Assignment>, patch: Option<Json>)
    requires NoGroupIsHostControlled(groups)
    requires SameToOperators(tags, facts, tags', facts')
    ensures Build(tags, groups, facts, rows, patch) == Build(tags', groups, facts', rows, patch)
  {
    HostCannotSwayItsGroups(groups, tags, facts, tags', facts');
  }
}
