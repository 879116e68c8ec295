/**
 Matching imported rows to hosts: an inverted index from normalized key values to hosts,
 against the naive join it stands for, and the resolution of every row of an import.
 */
module Imports {
  import opened JsonModel
  import opened Text

  // ---- Normalizing ----

  /** `lower` stands for `str::to_lowercase`, whose Unicode case table is not modelled. */
  datatype Normalize = Normalize(trim: bool, caseInsensitive: bool, shortHostname: bool, lower: string -> string)

  /** `char::is_whitespace`: the Unicode White_Space property. */
  predicate White(c: char) {
    var n := c as int;
    0x9 <= n <= 0xD || n in {0x20, 0x85, 0xA0, 0x1680, 0x2028, 0x2029, 0x202F, 0x205F, 0x3000} || 0x2000 <= n <= 0x200A
  }

  function Apply(n: Normalize, s: string): string {
    var trimmed := if n.trim then Trim(s, White) else s;
    var short := if n.shortHostname then trimmed[..FirstOf(trimmed, {'.'})] else trimmed;
    if n.caseInsensitive then n.lower(short) else short
  }

  // ---- The naive join ----

  /** One recorded value of one host. */
  datatype Added = Added(target: nat, host: nat, value: string)

  predicate HeldBy(a: Added, n: Normalize, target: nat, host: nat, v: string) {
    a.target == target && a.host == host && Apply(n, a.value) == v
  }

  /** The host has some value for the target whose normal form is `v`, which is not empty. */
  ghost predicate Holds(added: set<Added>, n: Normalize, target: nat, host: nat, v: string) {
    v != "" && exists a :: a in added && HeldBy(a, n, target, host, v)
  }

  ghost predicate HoldsAll(added: set<Added>, n: Normalize, keys: seq<string>, host: nat) {
    forall t :: 0 <= t < |keys| ==> Holds(added, n, t, host, Apply(n, keys[t]))
  }

  /** The hosts on which a row of `targets` keys comes down. */
  ghost function Joined(added: set<Added>, n: Normalize, targets: nat, keys: seq<string>): set<nat> {
    if |keys| != targets || keys == [] then {}
    else set a | a in added && HoldsAll(added, n, keys, a.host) :: a.host
  }

  lemma JoinedMeaning(added: set<Added>, n: Normalize, targets: nat, keys: seq<string>, host: nat)
    ensures host in Joined(added, n, targets, keys) <==>
            |keys| == targets && keys != [] && HoldsAll(added, n, keys, host)
  {
    if |keys| == targets && keys != [] && HoldsAll(added, n, keys, host) {
      assert Holds(added, n, 0, host, Apply(n, keys[0]));
      var a :| a in added && HeldBy(a, n, 0, host, Apply(n, keys[0]));
      assert a.host == host;
    }
  }

  /** The join said of recorded values alone: for every key the host has a value whose normal
      form is the key's, and not empty. */
  lemma JoinedByValues(added: set<Added>, n: Normalize, targets: nat, keys: seq<string>, host: nat)
    ensures host in Joined(added, n, targets, keys) <==>
      && 0 < |keys| == targets
      && forall t :: 0 <= t < |keys| ==>
           exists a :: a in added && a.target == t && a.host == host &&
             Apply(n, a.value) == Apply(n, keys[t]) && Apply(n, keys[t]) != ""
  {
    hide Apply;
    JoinedMeaning(added, n, targets, keys, host);
    forall t: nat | t < |keys|
      ensures Holds(added, n, t, host, Apply(n, keys[t])) <==>
        exists a :: a in added && a.target == t && a.host == host &&
          Apply(n, a.value) == Apply(n, keys[t]) && Apply(n, keys[t]) != ""
    {
      if Holds(added, n, t, host, Apply(n, keys[t])) {
        var a :| a in added && HeldBy(a, n, t, host, Apply(n, keys[t]));
      }
      if a :| a in added && a.target == t && a.host == host &&
              Apply(n, a.value) == Apply(n, keys[t]) && Apply(n, keys[t]) != "" {
        assert HeldBy(a, n, t, host, Apply(n, keys[t]));
      }
    }
  }

  // ---- What the options disregard ----

  /** Whatever was recorded, and whatever the other keys of the row are, the two keys find the
      same hosts. */
  ghost predicate FindAlike(n: Normalize, x: string, y: string) {
    forall added: set<Added>, targets: nat, front: seq<string>, back: seq<string> ::
      Joined(added, n, targets, front + [x] + back) == Joined(added, n, targets, front + [y] + back)
  }

  lemma SameFormsFindAlike(n: Normalize, x: string, y: string)
    requires Apply(n, x) == Apply(n, y)
    ensures FindAlike(n, x, y)
  {
    hide Apply;
    forall added: set<Added>, targets: nat, front: seq<string>, back: seq<string>
      ensures Joined(added, n, targets, front + [x] + back) == Joined(added, n, targets, front + [y] + back)
    {
      var j, k := front + [x] + back, front + [y] + back;
      assert forall t :: 0 <= t < |j| ==> Apply(n, j[t]) == Apply(n, k[t]);
      forall host ensures host in Joined(added, n, targets, j) <==> host in Joined(added, n, targets, k) {
        JoinedByValues(added, n, targets, j, host);
        JoinedByValues(added, n, targets, k, host);
      }
    }
  }

  lemma OneRecorded(n: Normalize, z: string, k: string)
    ensures 0 in Joined({Added(0, 0, z)}, n, 1, [k]) <==> Apply(n, z) == Apply(n, k) && Apply(n, k) != ""
  {
    hide Apply;
    var added := {Added(0, 0, z)};
    JoinedByValues(added, n, 1, [k], 0);
    assert Added(0, 0, z) in added;
    if 0 in Joined(added, n, 1, [k]) {
      var a :| a in added && a.target == 0 && a.host == 0 &&
               Apply(n, a.value) == Apply(n, [k][0]) && Apply(n, [k][0]) != "";
      assert a.value == z;
    }
  }

  /** A host recorded under one of two keys of different normal forms is found by that one only. */
  lemma OtherFormsFindApart(n: Normalize, x: string, y: string)
    requires Apply(n, x) != Apply(n, y)
    ensures !FindAlike(n, x, y)
  {
    var z := if Apply(n, x) == "" then y else x;
    hide Apply;
    OneRecorded(n, z, x);
    OneRecorded(n, z, y);
    assert [] + [x] + [] == [x] && [] + [y] + [] == [y];
    assert Joined({Added(0, 0, z)}, n, 1, [] + [x] + []) != Joined({Added(0, 0, z)}, n, 1, [] + [y] + []);
  }

  function AsciiLower(s: string): string {
    seq(|s|, i requires 0 <= i < |s| => if 'A' <= s[i] <= 'Z' then (s[i] as int + 32) as char else s[i])
  }

  /** What is known of lower-casing: what it does to ASCII texts. */
  ghost predicate LowersAscii(lower: string -> string) {
    forall s :: (forall i :: 0 <= i < |s| ==> s[i] < 128 as char) ==> lower(s) == AsciiLower(s)
  }

  lemma LowersSome(lower: string -> string, s: string)
    requires LowersAscii(lower) && forall i :: 0 <= i < |s| ==> s[i] < 128 as char && !('A' <= s[i] <= 'Z')
    ensures lower(s) == s
  {
    assert AsciiLower(s) == s;
  }

  lemma WhiteEnds(a: string, b: string)
    requires AllWhite(a, White) && AllWhite(b, White)
    ensures AllWhite(a + b, White)
  {
  }

  /** White space around a text makes no difference to trimming it. */
  lemma PaddingTrims(a: string, s: string, b: string)
    requires AllWhite(a, White) && AllWhite(b, White)
    ensures Trim(a + s + b, White) == Trim(s, White)
  {
    var x, y := TrimParts(s, White);
    WhiteEnds(a, x);
    WhiteEnds(y, b);
    var core := Trim(s, White);
    assert a + (x + core + y) + b == (a + x) + core + (y + b);
    TrimOf(a + x, core, y + b, White);
  }

  lemma TrimmedIsItself(s: string)
    requires Trimmed(s, White)
    ensures Trim(s, White) == s
  {
    hide Trim, Trimmed, White;
    assert AllWhite("", White);
    TrimOf("", s, "", White);
    assert "" + s + "" == s;
  }

  lemma DotlessIsWhole(s: string)
    requires Free(s, {'.'})
    ensures FirstOf(s, {'.'}) == |s| && s[..|s|] == s
  {
    hide FirstOf, Free;
    FirstOfAfter(s, "", {'.'});
    assert s + "" == s;
  }

  /** A trimmed text of ASCII characters in lower case, with no dot to cut at, is its own
      normal form. */
  lemma OwnForm(n: Normalize, s: string)
    requires LowersAscii(n.lower) && (n.shortHostname ==> Free(s, {'.'})) && (n.trim ==> Trimmed(s, White))
    requires forall i :: 0 <= i < |s| ==> s[i] < 128 as char && !('A' <= s[i] <= 'Z')
    ensures Apply(n, s) == s
  {
    hide Trim, FirstOf, LowersAscii, White;
    if n.trim {
      TrimmedIsItself(s);
    }
    if n.shortHostname {
      DotlessIsWhole(s);
    }
    LowersSome(n.lower, s);
  }

  lemma PaddingIsIgnored(n: Normalize, a: string, s: string, b: string)
    requires n.trim && AllWhite(a, White) && AllWhite(b, White)
    ensures FindAlike(n, a + s + b, s)
  {
    hide Trim, FirstOf, AllWhite, FindAlike;
    PaddingTrims(a, s, b);
    SameFormsFindAlike(n, a + s + b, s);
  }

  lemma PaddingTells(n: Normalize)
    requires LowersAscii(n.lower) && !n.trim
    ensures AllWhite(" ", White) && AllWhite("", White) && !FindAlike(n, " " + "w" + "", "w")
  {
    hide Apply, FindAlike, LowersAscii;
    assert " " + "w" + "" == " w";
    OwnForm(n, " w");
    OwnForm(n, "w");
    OtherFormsFindApart(n, " w", "w");
  }

  /** Keys that differ in the white space around them find the same hosts if and only if the
      index trims. */
  lemma TrimIffPaddingIsIgnored(n: Normalize)
    requires LowersAscii(n.lower)
    ensures n.trim <==> forall a, s, b :: AllWhite(a, White) && AllWhite(b, White) ==> FindAlike(n, a + s + b, s)
  {
    hide FindAlike, AllWhite, LowersAscii;
    if n.trim {
      forall a, s, b | AllWhite(a, White) && AllWhite(b, White) ensures FindAlike(n, a + s + b, s) {
        PaddingIsIgnored(n, a, s, b);
      }
    } else {
      PaddingTells(n);
    }
  }

  /** What is kept of a text with a dot: what stands before it, without white space in front. */
  function BeforeTheDot(n: Normalize, s: string): string {
    if n.trim then s[Leading(s, White, 0)..] else s
  }

  lemma DotEnds(s: string, x: string)
    ensures Leading(s + "." + x, White, 0) == Leading(s, White, 0)
    ensures |s| < Trailing(s + "." + x, White, |s + "." + x|)
  {
    var text := s + "." + x;
    LeadingMeans(s, White, 0);
    TrailingMeans(text, White, |text|);
    hide Leading, Trailing;
    assert text[|s|] == '.' && !White('.');
    assert forall i :: 0 <= i < |s| ==> text[i] == s[i];
    LeadingIs(text, White, Leading(s, White, 0));
  }

  lemma CutAfter(own: string, rest: string)
    requires Free(own, {'.'}) && rest != "" && rest[0] == '.'
    ensures FirstOf(own + rest, {'.'}) == |own| && (own + rest)[..|own|] == own
  {
    FirstOfAfter(own, rest, {'.'});
  }

  lemma Middle(s: string, x: string, a: nat, b: nat)
    requires a <= |s| < b <= |s + "." + x|
    ensures (s + "." + x)[a..b] == s[a..] + (s + "." + x)[|s|..b] && (s + "." + x)[|s|..b][0] == '.'
  {
  }

  lemma TrimmedBeforeTheDot(s: string, x: string)
    requires Free(s, {'.'})
    ensures var t, own := Trim(s + "." + x, White), s[Leading(s, White, 0)..];
      FirstOf(t, {'.'}) == |own| && t[..|own|] == own
  {
    hide Leading, Trailing, White, FirstOf;
    var text := s + "." + x;
    DotEnds(s, x);
    var a, b := Leading(s, White, 0), Trailing(text, White, |text|);
    Middle(s, x, a, b);
    CutAfter(s[a..], text[|s|..b]);
  }

  lemma CutAtTheDot(n: Normalize, s: string, x: string)
    requires n.shortHostname && Free(s, {'.'})
    ensures Apply(n, s + "." + x) ==
            if n.caseInsensitive then n.lower(BeforeTheDot(n, s)) else BeforeTheDot(n, s)
  {
    hide FirstOf, Trim, Leading;
    if n.trim {
      TrimmedBeforeTheDot(s, x);
    } else {
      FirstOfAfter(s, "." + x, {'.'});
      assert s + "." + x == s + ("." + x);
      assert (s + "." + x)[..|s|] == s;
    }
  }

  /** Keys that differ in what follows the first dot find the same hosts if and only if the
      index compares short host names. */
  lemma ShortIffDomainIsIgnored(n: Normalize)
    requires LowersAscii(n.lower)
    ensures n.shortHostname <==> forall s, x, y :: Free(s, {'.'}) ==> FindAlike(n, s + "." + x, s + "." + y)
  {
    hide Apply, FindAlike, LowersAscii;
    if n.shortHostname {
      forall s, x, y | Free(s, {'.'}) ensures FindAlike(n, s + "." + x, s + "." + y) {
        CutAtTheDot(n, s, x);
        CutAtTheDot(n, s, y);
        SameFormsFindAlike(n, s + "." + x, s + "." + y);
      }
    } else {
      assert Free("w", {'.'}) && "w" + "." + "a" == "w.a" && "w" + "." + "b" == "w.b";
      OwnForm(n, "w.a");
      OwnForm(n, "w.b");
      assert "w.a"[2] != "w.b"[2];
      OtherFormsFindApart(n, "w.a", "w.b");
      assert !FindAlike(n, "w" + "." + "a", "w" + "." + "b");
    }
  }

  /** So a full name finds what its short name finds, unless white space before the dot tells
      them apart: trimming comes first. */
  lemma FullNameFindsShortName(n: Normalize, s: string, x: string)
    requires n.shortHostname && Free(s, {'.'}) && (n.trim && s != "" ==> !White(s[|s| - 1]))
    ensures FindAlike(n, s + "." + x, s)
  {
    hide Leading, FirstOf, White, Trailing, FindAlike;
    CutAtTheDot(n, s, x);
    var own := BeforeTheDot(n, s);
    if n.trim {
      TrimmedFrontOnly(s);
    }
    DotlessIsWhole(own);
    SameFormsFindAlike(n, s + "." + x, s);
  }

  lemma TrimmedFrontOnly(s: string)
    requires s != "" ==> !White(s[|s| - 1])
    ensures Trim(s, White) == s[Leading(s, White, 0)..]
  {
    TrailingIs(s, White, |s|);
    hide Leading, Trailing;
    assert s[Leading(s, White, 0)..|s|] == s[Leading(s, White, 0)..];
  }

  /** The same text but for case: place by place white space and dots are the same, and every
      stretch of it lower-cases alike. */
  ghost predicate SameButCase(lower: string -> string, s: string, t: string) {
    && |s| == |t|
    && (forall i :: 0 <= i < |s| ==> (White(s[i]) <==> White(t[i])) && (s[i] == '.' <==> t[i] == '.'))
    && (forall i, j :: 0 <= i <= j <= |s| ==> lower(s[i..j]) == lower(t[i..j]))
  }

  /** Where the trimmed text lies in the text. */
  lemma TrimBounds(lower: string -> string, s: string, t: string) returns (i: nat, j: nat)
    requires SameButCase(lower, s, t)
    ensures i <= j <= |s| && Trim(s, White) == s[i..j] && Trim(t, White) == t[i..j]
  {
    i, j := Leading(s, White, 0), Trailing(s, White, |s|);
    LeadingMeans(s, White, 0);
    TrailingMeans(s, White, |s|);
    hide Leading, Trailing, White;
    LeadingIs(t, White, i);
    TrailingIs(t, White, j);
    if i > j {
      i, j := 0, 0;
    }
  }

  lemma CutBounds(lower: string -> string, s: string, t: string, i: nat, j: nat) returns (m: nat)
    requires SameButCase(lower, s, t) && i <= j <= |s|
    ensures i <= m <= j
    ensures s[i..j][..FirstOf(s[i..j], {'.'})] == s[i..m] && t[i..j][..FirstOf(t[i..j], {'.'})] == t[i..m]
  {
    var x, y := s[i..j], t[i..j];
    var f := FirstOf(x, {'.'});
    hide FirstOf, White;
    assert forall k :: 0 <= k < |x| ==> x[k] == s[i + k] && y[k] == t[i + k];
    assert y == y[..f] + y[f..];
    FirstOfAfter(y[..f], y[f..], {'.'});
    m := i + f;
    assert x[..f] == s[i..m] && y[..f] == t[i..m];
  }

  /** The normal forms come from the same stretch of both texts. */
  lemma SameForms(n: Normalize, s: string, t: string)
    requires n.caseInsensitive && SameButCase(n.lower, s, t)
    ensures Apply(n, s) == Apply(n, t)
  {
    hide Trim, FirstOf, White;
    var i, j := 0, |s|;
    assert s[0..|s|] == s && t[0..|t|] == t;
    if n.trim {
      i, j := TrimBounds(n.lower, s, t);
    }
    if n.shortHostname {
      j := CutBounds(n.lower, s, t, i, j);
    }
    assert n.lower(s[i..j]) == n.lower(t[i..j]);
  }

  /** Keys that are the same but for case find the same hosts if and only if the index ignores
      case. */
  lemma CaseIffCaseIsIgnored(n: Normalize)
    requires LowersAscii(n.lower)
    ensures n.caseInsensitive <==> forall s, t :: SameButCase(n.lower, s, t) ==> FindAlike(n, s, t)
  {
    hide Apply, FindAlike;
    if n.caseInsensitive {
      forall s, t | SameButCase(n.lower, s, t) ensures FindAlike(n, s, t) {
        SameForms(n, s, t);
        SameFormsFindAlike(n, s, t);
      }
    } else {
      OneLetter(n);
      OtherFormsFindApart(n, "W", "w");
    }
  }

  lemma OneLetter(n: Normalize)
    requires LowersAscii(n.lower)
    ensures SameButCase(n.lower, "W", "w")
    ensures !n.caseInsensitive ==> Apply(n, "W") != Apply(n, "w")
  {
    assert AsciiLower("W") == "w" == AsciiLower("w");
    forall i, j | 0 <= i <= j <= 1 ensures n.lower("W"[i..j]) == n.lower("w"[i..j]) {
      assert if i < j then "W"[i..j] == "W" && "w"[i..j] == "w" else "W"[i..j] == "" == "w"[i..j];
    }
    hide Trim, FirstOf;
    TrimmedIsItself("W");
    TrimmedIsItself("w");
    DotlessIsWhole("W");
    DotlessIsWhole("w");
    assert "W"[0] != "w"[0];
  }

  // ---- Ascending lists ----

  predicate Ascending(s: seq<nat>) {
    forall i, j :: 0 <= i < j < |s| ==> s[i] < s[j]
  }

  function Elements(s: seq<nat>): set<nat> {
    set x | x in s
  }

  lemma EmptyTogether(s: seq<nat>, t: seq<nat>)
    requires Elements(s) == Elements(t)
    ensures s != [] ==> t != []
  {
    if s != [] {
      assert s[0] in Elements(t);
    }
  }

  /** A set has one ascending listing. */
  lemma {:induction false} AscendingUnique(s: seq<nat>, t: seq<nat>)
    requires Ascending(s) && Ascending(t) && Elements(s) == Elements(t)
    ensures s == t
  {
    EmptyTogether(s, t);
    EmptyTogether(t, s);
    if s == [] {
    } else {
      assert s[0] in Elements(s) && t[0] in Elements(t);
      TailElements(s);
      TailElements(t);
      assert s[0] == t[0];
      AscendingUnique(s[1..], t[1..]);
      assert s == [s[0]] + s[1..] && t == [t[0]] + t[1..];
    }
  }

  lemma TailElements(s: seq<nat>)
    requires s != [] && Ascending(s)
    ensures Ascending(s[1..]) && Elements(s[1..]) == Elements(s) - {s[0]}
    ensures forall x :: x in Elements(s) ==> s[0] <= x
  {
    var t := s[1..];
    assert forall i :: 0 <= i < |t| ==> t[i] == s[i + 1];
    forall x ensures x in t <==> x in s && x != s[0] {
      if x in t {
        var i :| 0 <= i < |t| && t[i] == x;
        assert s[0] < s[i + 1] == x;
      }
      if x in s && x != s[0] {
        var i :| 0 <= i < |s| && s[i] == x;
        assert t[i - 1] == x;
      }
    }
    forall x | x in s ensures s[0] <= x {
      var i :| 0 <= i < |s| && s[i] == x;
      assert i > 0 ==> s[0] < s[i];
    }
  }

  /** `binary_search`: whether `host` is there, and where it is or would go. */
  method BinarySearch(hosts: seq<nat>, host: nat) returns (found: bool, at: nat)
    requires Ascending(hosts)
    ensures at <= |hosts|
    ensures forall i :: 0 <= i < at ==> hosts[i] < host
    ensures forall i :: at <= i < |hosts| ==> hosts[i] >= host
    ensures found <==> host in hosts
    ensures found ==> at < |hosts| && hosts[at] == host
  {
    var lo, hi := 0, |hosts|;
    while lo < hi
      invariant 0 <= lo <= hi <= |hosts|
      invariant forall i :: 0 <= i < lo ==> hosts[i] < host
      invariant forall i :: hi <= i < |hosts| ==> hosts[i] >= host
    {
      var mid := (lo + hi) / 2;
      if hosts[mid] < host {
        lo := mid + 1;
      } else {
        hi := mid;
      }
    }
    at := lo;
    found := at < |hosts| && hosts[at] == host;
  }

  // ---- The index ----

  /** A list holds exactly the hosts that hold `v`. */
  ghost predicate ListsHolders(hosts: seq<nat>, added: set<Added>, n: Normalize, target: nat, v: string) {
    Ascending(hosts) && forall h :: h in hosts <==> Holds(added, n, target, h, v)
  }

  function HostsOf(target: map<string, seq<nat>>, v: string): seq<nat> {
    if v in target then target[v] else []
  }

  ghost predicate Indexed(targets: seq<map<string, seq<nat>>>, added: set<Added>, n: Normalize) {
    forall t, v :: 0 <= t < |targets| ==> ListsHolders(HostsOf(targets[t], v), added, n, t, v)
  }

  class KeyIndex {
    const normalize: Normalize
    var targets: seq<map<string, seq<nat>>>
    ghost var added: set<Added>

    ghost predicate Valid()
      reads this
    {
      Indexed(targets, added, normalize)
    }

    constructor (count: nat, n: Normalize)
      ensures Valid() && |targets| == count && added == {} && normalize == n
    {
      normalize := n;
      targets := seq(count, _ => map[]);
      added := {};
    }

    /** Record that `host` has `value` for `target`. */
    method Add(target: nat, host: nat, value: string)
      requires Valid() && target < |targets|
      modifies this
      ensures Valid() && |targets| == old(|targets|)
      ensures added == old(added) + {Added(target, host, value)}
    {
      var v := Apply(normalize, value);
      ghost var before := added;
      ghost var a := Added(target, host, value);
      added := added + {a};
      if v == "" {
        forall t, w | 0 <= t < |targets| ensures ListsHolders(HostsOf(targets[t], w), added, normalize, t, w) {
          AddedOne(HostsOf(targets[t], w), HostsOf(targets[t], w), before, normalize, a, t, w);
        }
        return;
      }
      var hosts := HostsOf(targets[target], v);
      assert ListsHolders(hosts, before, normalize, target, v);
      var found, at := BinarySearch(hosts, host);
      ghost var old' := targets;
      if !found {
        var longer := hosts[..at] + [host] + hosts[at..];
        InsertedAt(hosts, host, at);
        targets := targets[target := targets[target][v := longer]];
      }
      forall t, w | 0 <= t < |targets| ensures ListsHolders(HostsOf(targets[t], w), added, normalize, t, w) {
        AddedOne(HostsOf(old'[t], w), HostsOf(targets[t], w), before, normalize, a, t, w);
      }
    }

    /** The naive join, listed in strictly ascending order. */
    method Lookup(keys: seq<string>) returns (r: seq<nat>)
      requires Valid()
      ensures Ascending(r)
      ensures Elements(r) == Joined(added, normalize, |targets|, keys)
    {
      if |keys| != |targets| || keys == [] {
        return [];
      }
      hide HoldsAll, Apply, Holds;
      r := [];
      for t := 0 to |keys|
        invariant Ascending(r)
        invariant t > 0 ==> forall h :: h in r <==> HoldsAll(added, normalize, keys[..t], h)
      {
        var k := Apply(normalize, keys[t]);
        var hosts := HostsOf(targets[t], k);
        assert ListsHolders(hosts, added, normalize, t, k);
        if k == "" || k !in targets[t] {
          if k == "" {
            EmptyIsNeverHeld(hosts, added, normalize, t);
          }
          NoneHolds(added, normalize, keys, t, hosts);
          return [];
        }
        ghost var before := r;
        if t == 0 {
          r := hosts;
        } else {
          r := Both(r, hosts);
        }
        forall h ensures h in r <==> HoldsAll(added, normalize, keys[..t + 1], h) {
          HoldsOneMore(added, normalize, keys, t, h);
        }
        if r == [] {
          NoneHolds(added, normalize, keys, t, r);
          return [];
        }
      }
      assert keys[..|keys|] == keys;
      forall h ensures h in r <==> h in Joined(added, normalize, |targets|, keys) {
        JoinedMeaning(added, normalize, |targets|, keys, h);
      }
    }
  }

  /** What recording one value does to one list. */
  lemma AddedOne(hosts: seq<nat>, hosts': seq<nat>, before: set<Added>, n: Normalize, a: Added, t: nat, w: string)
    requires ListsHolders(hosts, before, n, t, w)
    requires Ascending(hosts')
    requires Elements(hosts') == Elements(hosts) + if w != "" && HeldBy(a, n, t, a.host, w) then {a.host} else {}
    ensures ListsHolders(hosts', before + {a}, n, t, w)
  {
    hide Apply;
    forall h ensures h in hosts' <==> Holds(before + {a}, n, t, h, w) {
      assert h in hosts' <==> h in Elements(hosts');
      assert h in hosts <==> h in Elements(hosts);
      HoldsAfter(before, a, n, t, h, w);
    }
  }

  lemma HoldsAfter(before: set<Added>, a: Added, n: Normalize, t: nat, h: nat, w: string)
    ensures Holds(before + {a}, n, t, h, w) <==> Holds(before, n, t, h, w) || (w != "" && HeldBy(a, n, t, h, w))
  {
    hide Apply;
    if w != "" && HeldBy(a, n, t, h, w) {
      assert a in before + {a};
    }
    if Holds(before, n, t, h, w) {
      var b :| b in before && HeldBy(b, n, t, h, w);
      assert b in before + {a};
    }
  }

  lemma InsertedAt(hosts: seq<nat>, host: nat, at: nat)
    requires Ascending(hosts) && at <= |hosts| && host !in hosts
    requires forall i :: 0 <= i < at ==> hosts[i] < host
    requires forall i :: at <= i < |hosts| ==> hosts[i] >= host
    ensures var longer := hosts[..at] + [host] + hosts[at..];
      Ascending(longer) && Elements(longer) == Elements(hosts) + {host}
  {
    var longer := hosts[..at] + [host] + hosts[at..];
    assert forall i :: 0 <= i < |longer| ==>
           longer[i] == if i < at then hosts[i] else if i == at then host else hosts[i - 1];
    assert forall i :: at <= i < |hosts| ==> hosts[i] != host;
    forall x | x in Elements(hosts) + {host} ensures x in Elements(longer) {
      if x == host {
        assert longer[at] == x;
      } else {
        var i :| 0 <= i < |hosts| && hosts[i] == x;
        assert longer[if i < at then i else i + 1] == x;
      }
    }
  }

  lemma HoldsOneMore(added: set<Added>, n: Normalize, keys: seq<string>, t: nat, h: nat)
    requires t < |keys|
    ensures HoldsAll(added, n, keys[..t + 1], h) <==>
            HoldsAll(added, n, keys[..t], h) && Holds(added, n, t, h, Apply(n, keys[t]))
    ensures t == 0 ==> HoldsAll(added, n, keys[..t], h)
  {
    hide Holds, Apply;
    assert keys[..t + 1] == keys[..t] + [keys[t]];
    assert HoldsAll(added, n, keys[..t + 1], h) ==> Holds(added, n, t, h, Apply(n, keys[..t + 1][t]));
    assert forall i :: 0 <= i < t ==> keys[..t + 1][i] == keys[..t][i];
  }

  lemma EmptyIsNeverHeld(hosts: seq<nat>, added: set<Added>, n: Normalize, t: nat)
    requires ListsHolders(hosts, added, n, t, "")
    ensures hosts == []
  {
    assert Elements(hosts) == {} == Elements([]);
    EmptyTogether(hosts, []);
  }

  /** A key no host left in the running holds ends the search. */
  lemma NoneHolds(added: set<Added>, n: Normalize, keys: seq<string>, t: nat, none: seq<nat>)
    requires t < |keys| && none == []
    requires (forall h :: h in none <==> Holds(added, n, t, h, Apply(n, keys[t])))
      || (forall h :: h in none <==> HoldsAll(added, n, keys[..t + 1], h))
    ensures Joined(added, n, |keys|, keys) == {}
  {
    hide Holds, Apply;
    assert forall i :: 0 <= i <= t ==> keys[..t + 1][i] == keys[i];
    forall h ensures h !in Joined(added, n, |keys|, keys) {
      JoinedMeaning(added, n, |keys|, keys, h);
      assert h !in none;
      assert HoldsAll(added, n, keys, h) ==> Holds(added, n, t, h, Apply(n, keys[t]));
      assert HoldsAll(added, n, keys, h) ==> HoldsAll(added, n, keys[..t + 1], h);
    }
  }

  /** The hosts of `prev` that are also in `hosts`. */
  method Both(prev: seq<nat>, hosts: seq<nat>) returns (r: seq<nat>)
    requires Ascending(prev) && Ascending(hosts)
    ensures Ascending(r)
    ensures forall h :: h in r <==> h in prev && h in hosts
  {
    r := [];
    for i := 0 to |prev|
      invariant Ascending(r)
      invariant forall h :: h in r <==> h in prev[..i] && h in hosts
    {
      assert prev[..i + 1] == prev[..i] + [prev[i]];
      var found, _ := BinarySearch(hosts, prev[i]);
      if found {
        assert forall h :: h in prev[..i] ==> h < prev[i];
        assert forall j :: 0 <= j < |r| ==> r[j] in r;
        r := r + [prev[i]];
      }
    }
    assert prev[..|prev|] == prev;
  }

  // ---- Resolving rows ----

  datatype RowKey = Keys(keys: seq<string>) | Host(host: Option<nat>) | SkippedRow

  datatype Resolution =
    | Matched(host: nat)
    | Ambiguous(hosts: seq<nat>)
    | Unmatched
    | Duplicate(host: nat, of: nat)
    | Skipped

  /** Where a row comes down, before rows are compared with each other. */
  datatype Landing = On(host: nat) | Off(resolution: Resolution)

  /** What the row's own keys or choice say. */
  ghost predicate Lands(added: set<Added>, n: Normalize, targets: nat, row: RowKey, l: Landing) {
    match row
    case SkippedRow => l == Off(Skipped)
    case Host(None) => l == Off(Unmatched)
    case Host(Some(h)) => l == On(h)
    case Keys(keys) =>
      var hosts := Joined(added, n, targets, keys);
      if hosts == {} then l == Off(Unmatched)
      else if |hosts| == 1 then l.On? && hosts == {l.host}
      else l.Off? && l.resolution.Ambiguous? && Ascending(l.resolution.hosts) && Elements(l.resolution.hosts) == hosts
  }

  /** The first row to come down on `host`, or how many rows there are. */
  function FirstOn(ls: seq<Landing>, host: nat): (i: nat)
    ensures i <= |ls|
    ensures i < |ls| ==> ls[i] == On(host)
    ensures forall j :: 0 <= j < i ==> ls[j] != On(host)
  {
    if ls == [] || ls[0] == On(host) then 0 else 1 + FirstOn(ls[1..], host)
  }

  /** A row is matched when it is the first to come down on its host, and else names the first. */
  function ResolutionOf(ls: seq<Landing>, i: nat): Resolution
    requires i < |ls|
  {
    match ls[i]
    case Off(resolution) => resolution
    case On(host) => var first := FirstOn(ls, host); if first == i then Matched(host) else Duplicate(host, first)
  }

  /** A landing off every host is never itself a match or a duplicate. */
  predicate Honest(ls: seq<Landing>) {
    forall i :: 0 <= i < |ls| && ls[i].Off? ==> !ls[i].resolution.Matched? && !ls[i].resolution.Duplicate?
  }

  lemma FirstOnIsMatched(ls: seq<Landing>, i: nat)
    requires Honest(ls) && i < |ls| && ResolutionOf(ls, i).Duplicate?
    ensures var d := ResolutionOf(ls, i); d.of < i && ResolutionOf(ls, d.of) == Matched(d.host)
  {
    var first := FirstOn(ls, ls[i].host);
    assert first <= i;
  }

  // ---- Skipped rows ----

  /** How many of the first `n` rows are not skipped. */
  function Rank(ls: seq<Landing>, n: nat): (r: nat)
    requires n <= |ls|
    ensures r <= n
  {
    if n == 0 then 0 else Rank(ls, n - 1) + if ls[n - 1] == Off(Skipped) then 0 else 1
  }

  function WithoutSkipped(ls: seq<Landing>): seq<Landing> {
    if ls == [] then []
    else WithoutSkipped(ls[..|ls| - 1]) + if ls[|ls| - 1] == Off(Skipped) then [] else [ls[|ls| - 1]]
  }

  lemma {:induction false} RankOfFront(ls: seq<Landing>, m: nat, n: nat)
    requires n <= m <= |ls|
    ensures Rank(ls[..m], n) == Rank(ls, n)
  {
    if n == 0 {
    } else {
      RankOfFront(ls, m, n - 1);
    }
  }

  lemma {:induction false} RankAscends(ls: seq<Landing>, m: nat, n: nat)
    requires m <= n <= |ls|
    ensures Rank(ls, m) <= Rank(ls, n)
    ensures m < n && ls[m] != Off(Skipped) ==> Rank(ls, m) < Rank(ls, n)
  {
    if m < n {
      RankAscends(ls, m, n - 1);
    }
  }

  lemma {:induction false} KeptAtRank(ls: seq<Landing>, i: nat)
    requires i < |ls| && ls[i] != Off(Skipped)
    ensures |WithoutSkipped(ls)| == Rank(ls, |ls|)
    ensures Rank(ls, i) < |WithoutSkipped(ls)| && WithoutSkipped(ls)[Rank(ls, i)] == ls[i]
    decreases |ls|
  {
    var front := ls[..|ls| - 1];
    KeptLength(ls);
    KeptLength(front);
    RankOfFront(ls, |front|, i);
    RankOfFront(ls, |front|, |front|);
    RankAscends(ls, i, |ls|);
    if i >= |front| {
    } else {
      KeptAtRank(front, i);
    }
  }

  lemma {:induction false} KeptLength(ls: seq<Landing>)
    ensures |WithoutSkipped(ls)| == Rank(ls, |ls|)
    decreases |ls|
  {
    if ls == [] {
    } else {
      KeptLength(ls[..|ls| - 1]);
      RankOfFront(ls, |ls| - 1, |ls| - 1);
    }
  }

  /** Every place in the shortened list comes from a row that was kept. */
  lemma {:induction false} KeptFrom(ls: seq<Landing>, k: nat) returns (i: nat)
    requires k < |WithoutSkipped(ls)|
    ensures i < |ls| && ls[i] != Off(Skipped) && Rank(ls, i) == k
    decreases |ls|
  {
    var front := ls[..|ls| - 1];
    KeptLength(front);
    KeptLength(ls);
    RankOfFront(ls, |front|, |front|);
    if k < |WithoutSkipped(front)| {
      i := KeptFrom(front, k);
      RankOfFront(ls, |front|, i);
    } else {
      i := |front|;
    }
  }

  lemma FirstOnKept(ls: seq<Landing>, host: nat)
    requires On(host) in ls
    ensures FirstOn(ls, host) < |ls| && FirstOn(WithoutSkipped(ls), host) == Rank(ls, FirstOn(ls, host))
  {
    var i := FirstOn(ls, host);
    KeptAtRank(ls, i);
    var kept := WithoutSkipped(ls);
    var k := FirstOn(kept, host);
    assert k <= Rank(ls, i);
    var j := KeptFrom(ls, k);
    KeptAtRank(ls, j);
    RankAscends(ls, i, j);
  }

  lemma KeptResolution(ls: seq<Landing>, i: nat)
    requires i < |ls| && ls[i] != Off(Skipped) && Honest(ls)
    ensures Rank(ls, i) < |WithoutSkipped(ls)|
    ensures var r, r' := ResolutionOf(ls, i), ResolutionOf(WithoutSkipped(ls), Rank(ls, i));
      if r.Duplicate? then r.of < i && r' == Duplicate(r.host, Rank(ls, r.of)) else r' == r
  {
    KeptAtRank(ls, i);
    if ls[i].On? {
      FirstOnKept(ls, ls[i].host);
      var first := FirstOn(ls, ls[i].host);
      assert first <= i;
      RankAscends(ls, first, i);
    }
  }

  /** What a row says fixes where it lands, and only a skipped row lands nowhere as skipped. */
  lemma LandsUnique(added: set<Added>, n: Normalize, targets: nat, row: RowKey, l: Landing, m: Landing)
    requires Lands(added, n, targets, row, l) && Lands(added, n, targets, row, m)
    ensures l == m
    ensures l == Off(Skipped) <==> row == SkippedRow
    ensures l.Off? ==> !l.resolution.Matched? && !l.resolution.Duplicate?
  {
    hide Joined;
    if l.Off? && m.Off? && l.resolution.Ambiguous? && m.resolution.Ambiguous? {
      AscendingUnique(l.resolution.hosts, m.resolution.hosts);
    }
  }

  /** Every row lands where it says. */
  ghost predicate LandAll(added: set<Added>, n: Normalize, targets: nat, rows: seq<RowKey>, ls: seq<Landing>) {
    |ls| == |rows| && forall i :: 0 <= i < |rows| ==> Lands(added, n, targets, rows[i], ls[i])
  }

  /** The resolutions of rows that land at `ls`. */
  predicate Resolve(ls: seq<Landing>, r: seq<Resolution>) {
    |r| == |ls| && forall i :: 0 <= i < |ls| ==> r[i] == ResolutionOf(ls, i)
  }

  lemma LandingsAreHonest(added: set<Added>, n: Normalize, targets: nat, rows: seq<RowKey>, ls: seq<Landing>)
    requires LandAll(added, n, targets, rows, ls)
    ensures Honest(ls)
    ensures forall i :: 0 <= i < |rows| ==> (ls[i] == Off(Skipped) <==> rows[i] == SkippedRow)
  {
    hide Lands;
    forall i | 0 <= i < |rows|
      ensures ls[i] == Off(Skipped) <==> rows[i] == SkippedRow
      ensures ls[i].Off? ==> !ls[i].resolution.Matched? && !ls[i].resolution.Duplicate?
    {
      LandsUnique(added, n, targets, rows[i], ls[i], ls[i]);
    }
  }

  /** The rows that are not skipped, in their order. */
  function KeptRows(rows: seq<RowKey>): seq<RowKey> {
    if rows == [] then []
    else KeptRows(rows[..|rows| - 1]) + if rows[|rows| - 1] == SkippedRow then [] else [rows[|rows| - 1]]
  }

  lemma LandAllFront(added: set<Added>, n: Normalize, targets: nat, rows: seq<RowKey>, ls: seq<Landing>)
    requires rows != [] && LandAll(added, n, targets, rows, ls)
    ensures LandAll(added, n, targets, rows[..|rows| - 1], ls[..|rows| - 1])
    ensures Lands(added, n, targets, rows[|rows| - 1], ls[|rows| - 1])
  {
    hide Lands;
  }

  lemma KeptLast(rows: seq<RowKey>, ls: seq<Landing>)
    requires rows != [] && |ls| == |rows|
    ensures var last := |rows| - 1;
      && KeptRows(rows) == KeptRows(rows[..last]) + (if rows[last] == SkippedRow then [] else [rows[last]])
      && WithoutSkipped(ls) == WithoutSkipped(ls[..last]) + if ls[last] == Off(Skipped) then [] else [ls[last]]
  {
  }

  /** The landing of one more row, skipped or kept. */
  lemma KeptRowLands(added: set<Added>, n: Normalize, targets: nat, row: RowKey, l: Landing,
                     kept: seq<RowKey>, ls': seq<Landing>)
    requires Lands(added, n, targets, row, l)
    requires LandAll(added, n, targets, kept + (if row == SkippedRow then [] else [row]), ls')
    ensures var front := ls'[..|kept|];
      && LandAll(added, n, targets, kept, front)
      && ls' == front + if l == Off(Skipped) then [] else [l]
  {
    hide Lands;
    LandsUnique(added, n, targets, row, l, l);
    if row == SkippedRow {
      assert kept + [] == kept && ls'[..|kept|] == ls';
    } else {
      var rows := kept + [row];
      assert rows[|kept|] == row;
      assert forall i :: 0 <= i < |kept| ==> rows[i] == kept[i];
      LandsUnique(added, n, targets, row, l, ls'[|kept|]);
    }
  }

  lemma {:induction false} KeptRowsLand(added: set<Added>, n: Normalize, targets: nat, rows: seq<RowKey>,
                                        ls: seq<Landing>, ls': seq<Landing>)
    requires LandAll(added, n, targets, rows, ls) && LandAll(added, n, targets, KeptRows(rows), ls')
    ensures ls' == WithoutSkipped(ls)
    decreases |rows|
  {
    if rows == [] {
    } else {
      var last := |rows| - 1;
      LandAllFront(added, n, targets, rows, ls);
      KeptLast(rows, ls);
      hide Lands, LandAll, KeptRows, WithoutSkipped;
      var kept := KeptRows(rows[..last]);
      KeptRowLands(added, n, targets, rows[last], ls[last], kept, ls');
      KeptRowsLand(added, n, targets, rows[..last], ls[..last], ls'[..|kept|]);
    }
  }

  /** The index of a row once the skipped rows before it are gone. */
  function NewIndex(rows: seq<RowKey>, i: nat): nat
    requires i <= |rows|
  {
    |KeptRows(rows[..i])|
  }

  function Renumbered(rows: seq<RowKey>, r: Resolution): Resolution {
    match r
    case Duplicate(host, of) => if of <= |rows| then Duplicate(host, NewIndex(rows, of)) else r
    case _ => r
  }

  lemma {:induction false} RankIsNewIndex(rows: seq<RowKey>, ls: seq<Landing>, i: nat)
    requires |ls| == |rows| && i <= |rows|
    requires forall k :: 0 <= k < |rows| ==> (ls[k] == Off(Skipped) <==> rows[k] == SkippedRow)
    ensures Rank(ls, i) == NewIndex(rows, i)
  {
    if i == 0 {
    } else {
      RankIsNewIndex(rows, ls, i - 1);
      assert rows[..i][..i - 1] == rows[..i - 1];
    }
  }

  lemma KeptRowsResolve(rows: seq<RowKey>, ls: seq<Landing>, r: seq<Resolution>, r': seq<Resolution>, i: nat)
    requires |ls| == |rows| && Honest(ls) && Resolve(ls, r) && Resolve(WithoutSkipped(ls), r')
    requires forall k :: 0 <= k < |rows| ==> (ls[k] == Off(Skipped) <==> rows[k] == SkippedRow)
    requires i < |rows| && rows[i] != SkippedRow
    ensures NewIndex(rows, i) < |r'| == NewIndex(rows, |rows|)
    ensures r'[NewIndex(rows, i)] == Renumbered(rows, r[i])
  {
    hide Honest, KeptRows, NewIndex, Rank, WithoutSkipped, ResolutionOf;
    KeptResolution(ls, i);
    KeptLength(ls);
    RankIsNewIndex(rows, ls, i);
    RankIsNewIndex(rows, ls, |rows|);
    if r[i].Duplicate? {
      RankIsNewIndex(rows, ls, r[i].of);
    }
  }

  /** `r` is what `rows` resolve to. */
  ghost predicate Resolved(added: set<Added>, n: Normalize, targets: nat, rows: seq<RowKey>, r: seq<Resolution>) {
    exists ls :: LandAll(added, n, targets, rows, ls) && Resolve(ls, r)
  }

  /** No host is matched by two rows. */
  lemma NoHostMatchedTwice(added: set<Added>, n: Normalize, targets: nat, rows: seq<RowKey>, r: seq<Resolution>,
                           i: nat, j: nat, host: nat)
    requires Resolved(added, n, targets, rows, r) && i < |r| && j < |r|
    requires r[i] == Matched(host) && r[j] == Matched(host)
    ensures i == j
  {
    hide Lands;
    var ls :| LandAll(added, n, targets, rows, ls) && Resolve(ls, r);
    LandingsAreHonest(added, n, targets, rows, ls);
    assert ls[i] == On(host) && ls[j] == On(host);
  }

  /** A duplicate names an earlier row, which is matched to the same host. */
  lemma DuplicatePointsBack(added: set<Added>, n: Normalize, targets: nat, rows: seq<RowKey>,
                            r: seq<Resolution>, i: nat)
    requires Resolved(added, n, targets, rows, r) && i < |r| && r[i].Duplicate?
    ensures r[i].of < i && r[r[i].of] == Matched(r[i].host)
  {
    hide Lands, ResolutionOf;
    var ls :| LandAll(added, n, targets, rows, ls) && Resolve(ls, r);
    LandingsAreHonest(added, n, targets, rows, ls);
    FirstOnIsMatched(ls, i);
  }

  /** There is one way to resolve the rows. */
  lemma ResolvedUnique(added: set<Added>, n: Normalize, targets: nat, rows: seq<RowKey>,
                       r: seq<Resolution>, s: seq<Resolution>)
    requires Resolved(added, n, targets, rows, r) && Resolved(added, n, targets, rows, s)
    ensures r == s
  {
    hide Lands, ResolutionOf;
    var ls :| LandAll(added, n, targets, rows, ls) && Resolve(ls, r);
    var ms :| LandAll(added, n, targets, rows, ms) && Resolve(ms, s);
    forall i | 0 <= i < |rows| ensures ls[i] == ms[i] {
      LandsUnique(added, n, targets, rows[i], ls[i], ms[i]);
    }
    assert ls == ms;
  }

  /** Resolving the rows without the skipped ones gives every row that was kept the result it
      had, the earlier row a duplicate names renumbered. */
  lemma SkippedRowsDoNotCount(added: set<Added>, n: Normalize, targets: nat, rows: seq<RowKey>,
                              r: seq<Resolution>, r': seq<Resolution>, i: nat)
    requires Resolved(added, n, targets, rows, r) && Resolved(added, n, targets, KeptRows(rows), r')
    requires i < |rows| && rows[i] != SkippedRow
    ensures |r| == |rows| && NewIndex(rows, i) < |r'|
    ensures r'[NewIndex(rows, i)] == Renumbered(rows, r[i])
  {
    hide Lands, KeptRows, NewIndex, ResolutionOf;
    var ls :| LandAll(added, n, targets, rows, ls) && Resolve(ls, r);
    var ls' :| LandAll(added, n, targets, KeptRows(rows), ls') && Resolve(ls', r');
    LandingsAreHonest(added, n, targets, rows, ls);
    KeptRowsLand(added, n, targets, rows, ls, ls');
    hide LandAll, Honest, WithoutSkipped, Resolve, Renumbered;
    KeptRowsResolve(rows, ls, r, r', i);
  }

  /** The rows so far, their resolutions, and the first row on every host. */
  predicate Settled(ls: seq<Landing>, r: seq<Resolution>, firstRowOf: map<nat, nat>) {
    && |r| == |ls| && Honest(ls)
    && (forall j :: 0 <= j < |ls| ==> r[j] == ResolutionOf(ls, j))
    && (forall h :: h in firstRowOf ==> firstRowOf[h] == FirstOn(ls, h) < |ls|)
    && (forall j :: 0 <= j < |ls| && ls[j].On? ==> ls[j].host in firstRowOf)
  }

  /** A row more changes nothing about the rows before it. */
  lemma EarlierStay(ls: seq<Landing>, l: Landing, j: nat)
    requires j < |ls|
    ensures (ls + [l])[j] == ls[j] && ResolutionOf(ls + [l], j) == ResolutionOf(ls, j)
  {
    if ls[j].On? {
      FirstOnNext(ls, l, ls[j].host);
      assert FirstOn(ls, ls[j].host) <= j;
    }
  }

  lemma SettledNext(ls: seq<Landing>, r: seq<Resolution>, firstRowOf: map<nat, nat>, l: Landing, last: Resolution,
                    firsts: map<nat, nat>)
    requires Settled(ls, r, firstRowOf)
    requires l.Off? ==> !l.resolution.Matched? && !l.resolution.Duplicate?
    requires last == ResolutionOf(ls + [l], |ls|)
    requires firsts == if l.On? && l.host !in firstRowOf then firstRowOf[l.host := |ls|] else firstRowOf
    ensures Settled(ls + [l], r + [last], firsts)
  {
    hide FirstOn, ResolutionOf;
    var longer := ls + [l];
    forall j | 0 <= j < |ls| ensures longer[j] == ls[j] && ResolutionOf(longer, j) == ResolutionOf(ls, j) {
      EarlierStay(ls, l, j);
    }
    forall h | h in firsts ensures firsts[h] == FirstOn(longer, h) < |longer| {
      FirstOnNext(ls, l, h);
      assert h !in firstRowOf ==> FirstOn(ls, h) == |ls|;
    }
    assert longer[|ls|] == l;
  }

  /** What the table of first rows says of the next row. */
  lemma NextResolution(ls: seq<Landing>, r: seq<Resolution>, firstRowOf: map<nat, nat>, l: Landing)
    requires Settled(ls, r, firstRowOf)
    ensures ResolutionOf(ls + [l], |ls|) ==
      match l
      case Off(resolution) => resolution
      case On(host) => if host in firstRowOf then Duplicate(host, firstRowOf[host]) else Matched(host)
  {
    var longer := ls + [l];
    assert longer[|ls|] == l;
    if l.On? {
      FirstOnNext(ls, l, l.host);
    }
  }

  /** `resolve_rows`: where every row lands, and the resolutions that follow. */
  method ResolveRows(index: KeyIndex, rows: seq<RowKey>) returns (r: seq<Resolution>)
    requires index.Valid()
    ensures Resolved(index.added, index.normalize, |index.targets|, rows, r)
  {
    var firstRowOf: map<nat, nat> := map[];
    r := [];
    ghost var ls: seq<Landing> := [];
    assert Settled(ls, r, firstRowOf);
    for i := 0 to |rows|
      invariant |r| == |ls| == i
      invariant forall j :: 0 <= j < i ==> Lands(index.added, index.normalize, |index.targets|, rows[j], ls[j])
      invariant Settled(ls, r, firstRowOf)
    {
      hide Lands, Settled, Indexed;
      var landing := Land(index, rows[i]);
      NextResolution(ls, r, firstRowOf, landing);
      SettledNext(ls, r, firstRowOf, landing, ResolutionOf(ls + [landing], i),
                  if landing.On? && landing.host !in firstRowOf then firstRowOf[landing.host := i] else firstRowOf);
      match landing {
        case Off(resolution) => r := r + [resolution];
        case On(host) =>
          if host in firstRowOf {
            r := r + [Duplicate(host, firstRowOf[host])];
          } else {
            firstRowOf := firstRowOf[host := i];
            r := r + [Matched(host)];
          }
      }
      ls := ls + [landing];
    }
    assert LandAll(index.added, index.normalize, |index.targets|, rows, ls);
  }

  lemma {:induction false} FirstOnNext(ls: seq<Landing>, l: Landing, h: nat)
    ensures FirstOn(ls + [l], h) ==
            if FirstOn(ls, h) < |ls| then FirstOn(ls, h) else if l == On(h) then |ls| else |ls| + 1
  {
    if ls == [] {
      assert [] + [l] == [l] && [l][1..] == [];
    } else {
      assert (ls + [l])[1..] == ls[1..] + [l];
      FirstOnNext(ls[1..], l, h);
    }
  }

  lemma AscendingCount(s: seq<nat>)
    requires Ascending(s)
    ensures |Elements(s)| == |s|
  {
    if s != [] {
      var front := s[..|s| - 1];
      AscendingCount(front);
      assert Elements(s) == Elements(front) + {s[|s| - 1]} by {
        assert s == front + [s[|s| - 1]];
      }
    } else {
      assert Elements(s) == {};
    }
  }

  method Land(index: KeyIndex, row: RowKey) returns (l: Landing)
    requires index.Valid()
    ensures Lands(index.added, index.normalize, |index.targets|, row, l)
    ensures l.Off? ==> !l.resolution.Matched? && !l.resolution.Duplicate?
  {
    match row
    case SkippedRow => return Off(Skipped);
    case Host(None) => return Off(Unmatched);
    case Host(Some(h)) => return On(h);
    case Keys(keys) =>
      var hosts := index.Lookup(keys);
      AscendingCount(hosts);
      if |hosts| == 0 {
        assert Elements(hosts) == {};
        return Off(Unmatched);
      }
      if |hosts| == 1 {
        assert hosts == [hosts[0]];
        assert Elements(hosts) == {hosts[0]};
        return On(hosts[0]);
      }
      assert hosts[0] in Elements(hosts);
      return Off(Ambiguous(hosts));
  }
}
