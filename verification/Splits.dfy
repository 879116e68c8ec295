/** Splitting text at a separator and joining it again. */
module Splits {
  import opened Text

  /** `s.split(sep)`: always at least one part. */
  function Split(s: string, sep: char): (parts: seq<string>)
    ensures |parts| >= 1
    decreases |s|
  {
    var i := FirstOf(s, {sep});
    if i == |s| then [s] else [s[..i]] + Split(s[i + 1..], sep)
  }

  /** `parts.join(sep)`. */
  function Join(parts: seq<string>, sep: char): string {
    if parts == [] then ""
    else if |parts| == 1 then parts[0]
    else parts[0] + [sep] + Join(parts[1..], sep)
  }

  /** How a section of a configuration is written. */
  function SectionText(segments: seq<string>): string {
    "/" + Join(segments, '/')
  }

  function NonEmpty(parts: seq<string>): seq<string> {
    if parts == [] then []
    else (if parts[0] == "" then [] else [parts[0]]) + NonEmpty(parts[1..])
  }

  predicate Without(parts: seq<string>, sep: char) {
    forall i :: 0 <= i < |parts| ==> Free(parts[i], {sep})
  }

  lemma SplitOne(s: string, sep: char)
    requires Free(s, {sep})
    ensures Split(s, sep) == [s]
  {
    FirstOfAfter(s, "", {sep});
    assert s + "" == s;
  }

  lemma SplitFirst(first: string, rest: string, sep: char)
    requires Free(first, {sep})
    ensures Split(first + ([sep] + rest), sep) == [first] + Split(rest, sep)
  {
    var s := first + ([sep] + rest);
    FirstOfAfter(first, [sep] + rest, {sep});
    hide FirstOf;
    assert s[..|first|] == first && s[|first| + 1..] == rest;
  }

  lemma Regroup(a: string, b: string, c: string, sep: char)
    ensures a + [sep] + b + ([sep] + c) == a + ([sep] + (b + ([sep] + c)))
    ensures a + [sep] + b == a + ([sep] + b)
  {
  }

  lemma {:induction false} SplitJoin(parts: seq<string>, sep: char)
    requires parts != [] && Without(parts, sep)
    ensures Split(Join(parts, sep), sep) == parts
    decreases |parts|
  {
    hide Split;
    var first := parts[0];
    if |parts| == 1 {
      SplitOne(first, sep);
    } else {
      Regroup(first, Join(parts[1..], sep), "", sep);
      SplitFirst(first, Join(parts[1..], sep), sep);
      SplitJoin(parts[1..], sep);
      assert parts == [first] + parts[1..];
    }
  }

  lemma {:induction false} SplitPrefix(p: seq<string>, x: string, sep: char)
    requires p != [] && Without(p, sep)
    ensures Split(Join(p, sep) + ([sep] + x), sep) == p + Split(x, sep)
  {
    hide Split;
    if |p| == 1 {
      SplitFirst(p[0], x, sep);
      assert p == [p[0]];
    } else {
      Regroup(p[0], Join(p[1..], sep), x, sep);
      SplitFirst(p[0], Join(p[1..], sep) + ([sep] + x), sep);
      SplitPrefix(p[1..], x, sep);
      assert p + Split(x, sep) == [p[0]] + (p[1..] + Split(x, sep));
    }
  }

  lemma {:induction false} JoinConcat(p: seq<string>, r: seq<string>, sep: char)
    requires p != [] && r != []
    ensures Join(p + r, sep) == Join(p, sep) + ([sep] + Join(r, sep))
  {
    if |p| == 1 {
      assert (p + r)[1..] == r;
      Regroup(p[0], Join(r, sep), "", sep);
    } else {
      assert (p + r)[1..] == p[1..] + r;
      JoinConcat(p[1..], r, sep);
      var a, b, c := p[0] + [sep], Join(p[1..], sep), [sep] + Join(r, sep);
      assert a + (b + c) == a + b + c;
    }
  }

  lemma JoinCons(first: string, rest: seq<string>, sep: char)
    requires rest != []
    ensures Join([first] + rest, sep) == first + [sep] + Join(rest, sep)
  {
    assert ([first] + rest)[1..] == rest;
  }

  lemma WithoutCons(first: string, rest: seq<string>, sep: char)
    requires Free(first, {sep}) && Without(rest, sep)
    ensures Without([first] + rest, sep)
  {
  }

  /** The parts hold no separator, and joining them gives the text back. */
  lemma {:induction false} JoinSplit(s: string, sep: char)
    ensures Without(Split(s, sep), sep)
    ensures Join(Split(s, sep), sep) == s
    decreases |s|
  {
    hide Join, FirstOf;
    var i := FirstOf(s, {sep});
    if i < |s| {
      hide Without;
      JoinSplit(s[i + 1..], sep);
      JoinCons(s[..i], Split(s[i + 1..], sep), sep);
      WithoutCons(s[..i], Split(s[i + 1..], sep), sep);
      assert s == s[..i] + [sep] + s[i + 1..];
    } else {
      JoinAlone(s, sep);
    }
  }

  lemma JoinAlone(s: string, sep: char)
    ensures Join([s], sep) == s
  {
  }

  lemma {:induction false} NonEmptyAll(parts: seq<string>)
    requires forall i :: 0 <= i < |parts| ==> parts[i] != ""
    ensures NonEmpty(parts) == parts
  {
    if parts == [] {
    } else {
      NonEmptyAll(parts[1..]);
      assert parts == [parts[0]] + parts[1..];
    }
  }

  /** A path written with a leading separator splits back into its segments. */
  lemma RootedSegments(segments: seq<string>, sep: char)
    requires Without(segments, sep) && forall i :: 0 <= i < |segments| ==> segments[i] != ""
    ensures NonEmpty(Split([sep] + Join(segments, sep), sep)) == segments
  {
    var s := [sep] + Join(segments, sep);
    SplitFirst("", Join(segments, sep), sep);
    assert s == "" + ([sep] + Join(segments, sep));
    var parts := Split(Join(segments, sep), sep);
    assert ([""] + parts)[1..] == parts;
    if segments == [] {
      SplitOne("", sep);
      assert NonEmpty([""]) == [] by {
        assert [""][1..] == [];
      }
    } else {
      SplitJoin(segments, sep);
      NonEmptyAll(segments);
    }
  }
}
