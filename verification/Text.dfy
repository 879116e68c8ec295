/** Strings as the control plane's Rust code sees them: searching, and UTF-8 bytes. */
module Text {
  import opened JsonModel

  type byte = x: int | 0 <= x < 256

  /** Index of the first character of `s` that is in `stop`, or `|s|`. */
  function FirstOf(s: string, stop: set<char>): (i: nat)
    ensures i <= |s|
    ensures i < |s| ==> s[i] in stop
    ensures forall j :: 0 <= j < i ==> s[j] !in stop
  {
    if s == "" || s[0] in stop then 0 else 1 + FirstOf(s[1..], stop)
  }

  /** No character of `s` is in `stop`. */
  predicate Free(s: string, stop: set<char>) {
    forall i :: 0 <= i < |s| ==> s[i] !in stop
  }

  /** A stop character after a stop-free prefix is the first one. */
  lemma FirstOfAfter(s: string, rest: string, stop: set<char>)
    requires Free(s, stop)
    requires rest != "" ==> rest[0] in stop
    ensures FirstOf(s + rest, stop) == |s|
  {
    assert forall j :: 0 <= j < |s| ==> (s + rest)[j] == s[j];
    if rest != "" {
      assert (s + rest)[|s|] == rest[0];
    }
  }

  // ---- Trimming ----

  /** The first place from `i` on that is not white. */
  function Leading(s: string, white: char -> bool, i: nat): (n: nat)
    requires i <= |s|
    ensures i <= n <= |s|
    decreases |s| - i
  {
    if i < |s| && white(s[i]) then Leading(s, white, i + 1) else i
  }

  /** Where the white characters that end at `n` begin. */
  function Trailing(s: string, white: char -> bool, n: nat): (m: nat)
    requires n <= |s|
    ensures m <= n
  {
    if n > 0 && white(s[n - 1]) then Trailing(s, white, n - 1) else n
  }

  function Trim(s: string, white: char -> bool): string {
    var a, b := Leading(s, white, 0), Trailing(s, white, |s|);
    if a <= b then s[a..b] else ""
  }

  predicate AllWhite(s: string, white: char -> bool) {
    forall i :: 0 <= i < |s| ==> white(s[i])
  }

  /** Nothing to trim at either end. */
  predicate Trimmed(s: string, white: char -> bool) {
    s == "" || (!white(s[0]) && !white(s[|s| - 1]))
  }

  /** Only white from `i` up to `n`. */
  predicate WhiteBetween(s: string, white: char -> bool, i: nat, n: nat) {
    n <= |s| && forall k :: i <= k < n ==> white(s[k])
  }

  lemma {:induction false} LeadingMeans(s: string, white: char -> bool, i: nat)
    requires i <= |s|
    ensures var n := Leading(s, white, i); WhiteBetween(s, white, i, n) && (n < |s| ==> !white(s[n]))
    decreases |s| - i
  {
    if i < |s| && white(s[i]) {
      LeadingMeans(s, white, i + 1);
    }
  }

  lemma {:induction false} TrailingMeans(s: string, white: char -> bool, n: nat)
    requires n <= |s|
    ensures var m := Trailing(s, white, n); WhiteBetween(s, white, m, n) && (m > 0 ==> !white(s[m - 1]))
  {
    if n > 0 && white(s[n - 1]) {
      TrailingMeans(s, white, n - 1);
    }
  }

  lemma LeadingIs(s: string, white: char -> bool, n: nat)
    requires WhiteBetween(s, white, 0, n) && (n < |s| ==> !white(s[n]))
    ensures Leading(s, white, 0) == n
  {
    LeadingMeans(s, white, 0);
    hide Leading;
  }

  lemma TrailingIs(s: string, white: char -> bool, m: nat)
    requires m <= |s| && WhiteBetween(s, white, m, |s|) && (m > 0 ==> !white(s[m - 1]))
    ensures Trailing(s, white, |s|) == m
  {
    TrailingMeans(s, white, |s|);
    hide Trailing;
  }

  /** Trimming finds what lies between white ends... */
  lemma TrimOf(a: string, t: string, b: string, white: char -> bool)
    requires AllWhite(a, white) && AllWhite(b, white) && Trimmed(t, white)
    ensures Trim(a + t + b, white) == t
  {
    hide Leading, Trailing;
    var s := a + t + b;
    assert forall k :: 0 <= k < |a| ==> s[k] == a[k];
    assert forall k :: |a| + |t| <= k < |s| ==> s[k] == b[k - |a| - |t|];
    if t == "" {
      LeadingIs(s, white, |s|);
      TrailingIs(s, white, 0);
    } else {
      assert s[|a|] == t[0] && s[|a| + |t| - 1] == t[|t| - 1];
      LeadingIs(s, white, |a|);
      TrailingIs(s, white, |a| + |t|);
      assert s[|a|..|a| + |t|] == t;
    }
  }

  lemma ThreeParts(s: string, white: char -> bool, i: nat, j: nat)
    requires i <= j <= |s| && WhiteBetween(s, white, 0, i) && WhiteBetween(s, white, j, |s|)
    requires (i < |s| ==> !white(s[i])) && (j > 0 ==> !white(s[j - 1]))
    ensures s == s[..i] + s[i..j] + s[j..]
    ensures AllWhite(s[..i], white) && AllWhite(s[j..], white) && Trimmed(s[i..j], white)
  {
    assert i < j ==> s[i..j][0] == s[i] && s[i..j][j - i - 1] == s[j - 1];
  }

  lemma OnePart(s: string, white: char -> bool, i: nat, j: nat)
    requires j < i && WhiteBetween(s, white, 0, i) && WhiteBetween(s, white, j, |s|)
    ensures s == s + "" + ""
    ensures AllWhite(s, white) && AllWhite("", white) && Trimmed("", white)
  {
  }

  /** ...and every text lies so. */
  lemma TrimParts(s: string, white: char -> bool) returns (a: string, b: string)
    ensures s == a + Trim(s, white) + b && AllWhite(a, white) && AllWhite(b, white)
    ensures Trimmed(Trim(s, white), white)
  {
    hide Leading, Trailing, AllWhite, Trimmed, WhiteBetween;
    LeadingMeans(s, white, 0);
    TrailingMeans(s, white, |s|);
    var i, j := Leading(s, white, 0), Trailing(s, white, |s|);
    if i <= j {
      a, b := s[..i], s[j..];
      ThreeParts(s, white, i, j);
    } else {
      a, b := s, "";
      OnePart(s, white, i, j);
    }
  }

  /** A first character that is not white stays first. */
  lemma TrimKeepsFirst(s: string, white: char -> bool)
    requires s != "" && !white(s[0])
    ensures Trim(s, white) != "" && Trim(s, white)[0] == s[0]
  {
    LeadingMeans(s, white, 0);
    TrailingMeans(s, white, |s|);
    assert Leading(s, white, 0) == 0;
    assert Trailing(s, white, |s|) > 0;
  }

  // ---- UTF-8 (RFC 3629, section 3) ----

  function Utf8Char(c: char): (bytes: seq<byte>)
    ensures 1 <= |bytes| <= 4
  {
    var n := c as int;
    if n < 0x80 then [n]
    else if n < 0x800 then [0xC0 + n / 0x40, 0x80 + n % 0x40]
    else if n < 0x1_0000 then [0xE0 + n / 0x1000, 0x80 + n / 0x40 % 0x40, 0x80 + n % 0x40]
    else [0xF0 + n / 0x4_0000, 0x80 + n / 0x1000 % 0x40, 0x80 + n / 0x40 % 0x40, 0x80 + n % 0x40]
  }

  function Utf8(s: string): seq<byte> {
    if s == "" then [] else Utf8Char(s[0]) + Utf8(s[1..])
  }

  /** `s.len()` of a Rust string: its length in bytes. */
  function Utf8Len(s: string): nat {
    |Utf8(s)|
  }

  lemma {:induction false} Utf8Concat(a: string, b: string)
    ensures Utf8(a + b) == Utf8(a) + Utf8(b)
  {
    if a == "" {
      assert a + b == b;
    } else {
      assert (a + b)[1..] == a[1..] + b;
      Utf8Concat(a[1..], b);
    }
  }

  /** The first byte tells how many there are. */
  lemma Utf8FirstByte(c: char, d: char)
    requires Utf8Char(c)[0] == Utf8Char(d)[0]
    ensures |Utf8Char(c)| == |Utf8Char(d)|
  {
  }

  /** The bytes tell which character it is. */
  lemma Utf8CharInjective(c: char, d: char)
    requires Utf8Char(c) == Utf8Char(d)
    ensures c == d
  {
    var p, q := Utf8Char(c), Utf8Char(d);
    var m, n := c as int, d as int;
    assert forall i :: 0 <= i < |p| ==> p[i] == q[i];
    assert m == n by {
      assert m / 0x40 / 0x40 == m / 0x1000;
      assert n / 0x40 / 0x40 == n / 0x1000;
      assert m / 0x1000 / 0x40 == m / 0x4_0000;
      assert n / 0x1000 / 0x40 == n / 0x4_0000;
    }
  }

  lemma Utf8CharPrefixFree(c: char, d: char, x: seq<byte>, y: seq<byte>)
    requires Utf8Char(c) + x == Utf8Char(d) + y
    ensures c == d && x == y
  {
    hide Utf8Char;
    var p, q := Utf8Char(c), Utf8Char(d);
    assert p[0] == (p + x)[0] == (q + y)[0] == q[0];
    Utf8FirstByte(c, d);
    assert p == (p + x)[..|p|] == (q + y)[..|q|] == q;
    assert x == (p + x)[|p|..] == (q + y)[|q|..] == y;
    Utf8CharInjective(c, d);
  }

  lemma {:induction false} Utf8Injective(a: string, b: string)
    requires Utf8(a) == Utf8(b)
    ensures a == b
  {
    if a != "" && b != "" {
      Utf8CharPrefixFree(a[0], b[0], Utf8(a[1..]), Utf8(b[1..]));
      Utf8Injective(a[1..], b[1..]);
      assert a == [a[0]] + a[1..] && b == [b[0]] + b[1..];
    }
  }

  // ---- Reading UTF-8 back (RFC 3629, section 3) ----

  /** How many bytes a character takes, by the first of them. */
  function SizeOf(first: byte): nat {
    if first < 0x80 then 1 else if first < 0xE0 then 2 else if first < 0xF0 then 3 else 4
  }

  /** The number that the bytes of one character carry: what the first leaves free, then six
      bits a byte. */
  function CodeOf(b: seq<byte>): int
    requires 1 <= |b| <= 4
  {
    var first := b[0] as int;
    if |b| == 1 then first
    else if |b| == 2 then Six(first - 0xC0, b[1])
    else if |b| == 3 then Six(Six(first - 0xE0, b[1]), b[2])
    else Six(Six(Six(first - 0xF0, b[1]), b[2]), b[3])
  }

  function Six(n: int, b: byte): int {
    n * 0x40 + (b as int - 0x80)
  }

  function CharOf(n: int): Option<char> {
    if 0 <= n < 0xD800 || 0xE000 <= n < 0x11_0000 then Some(n as char) else None
  }

  function ReadUtf8(bytes: seq<byte>): Option<string>
    decreases |bytes|
  {
    if bytes == [] then Some("")
    else
      var size := SizeOf(bytes[0]);
      if |bytes| < size then None
      else
        match (CharOf(CodeOf(bytes[..size])), ReadUtf8(bytes[size..]))
        case (Some(c), Some(s)) => Some([c] + s)
        case _ => None
  }

  lemma CodeReads(c: char)
    ensures SizeOf(Utf8Char(c)[0]) == |Utf8Char(c)| && CodeOf(Utf8Char(c)) == c as int
  {
    var n := c as int;
    assert n / 0x40 / 0x40 == n / 0x1000 && n / 0x1000 / 0x40 == n / 0x4_0000;
  }

  lemma Utf8CharReads(c: char, rest: seq<byte>)
    ensures ReadUtf8(Utf8Char(c) + rest) ==
            match ReadUtf8(rest) case Some(s) => Some([c] + s) case None => None
  {
    CodeReads(c);
    hide Utf8Char, CodeOf, SizeOf;
    var p := Utf8Char(c);
    assert (p + rest)[0] == p[0] && (p + rest)[..|p|] == p && (p + rest)[|p|..] == rest;
  }

  /** The bytes of a text give the text back. */
  lemma {:induction false} Utf8ReadsBack(s: string)
    ensures ReadUtf8(Utf8(s)) == Some(s)
  {
    if s == "" {
    } else {
      hide Utf8Char, ReadUtf8;
      Utf8CharReads(s[0], Utf8(s[1..]));
      Utf8ReadsBack(s[1..]);
      assert s == [s[0]] + s[1..];
    }
  }
}
