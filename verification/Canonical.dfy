/** The canonical text of a document (`crates/core/src/merge.rs`): the same for every order of
    the keys, and different for different documents. */
module Canonical {
  import opened JsonModel
  import opened Ordering

  lemma Assoc(a: string, b: string, c: string)
    ensures a + b + c == a + (b + c)
  {
  }

  /** A bracketed text and what follows it. */
  lemma OpenClose(open: string, body: string, close: string, x: string)
    ensures open + body + close + x == open + (body + (close + x))
  {
    Assoc(open + body, close, x);
    Assoc(open, body, close + x);
  }

  /** `a + x == b + y` with parts of equal length. */
  lemma SplitEven(a: string, b: string, x: string, y: string)
    requires |a| == |b| && a + x == b + y
    ensures a == b && x == y
  {
    assert a == (a + x)[..|a|] == (b + y)[..|b|] == b;
    assert x == (a + x)[|a|..] == (b + y)[|b|..] == y;
  }

  // ---- Strings, escaped as section 7 of RFC 8259 requires ----

  function HexDigit(n: nat): char
    requires n < 16
  {
    "0123456789abcdef"[n]
  }

  function EscapedChar(c: char): (r: string)
    ensures |r| > 0 && r[0] != '"'
  {
    if c == '"' then "\\\""
    else if c == '\\' then "\\\\"
    else if c == 8 as char then "\\b"
    else if c == '\t' then "\\t"
    else if c == '\n' then "\\n"
    else if c == 12 as char then "\\f"
    else if c == '\r' then "\\r"
    else if c as int < 0x20 then "\\u00" + [HexDigit(c as int / 16), HexDigit(c as int % 16)]
    else [c]
  }

  function Escaped(s: string): string {
    if s == "" then "" else EscapedChar(s[0]) + Escaped(s[1..])
  }

  function Quote(s: string): string {
    "\"" + Escaped(s) + "\""
  }

  // ---- Documents ----

  function Canon(v: Json): string
    decreases v, 0
  {
    match v
    case Null => "null"
    case Bool(b) => if b then "true" else "false"
    case Num(text) => text
    case Str(s) => Quote(s)
    case Arr(items) => "[" + CanonItems(items) + "]"
    case Obj(fields) => "{" + CanonMembers(v, SortedKeys(fields.Keys)) + "}"
  }

  function CanonItems(items: seq<Json>): string
    decreases items, 1
  {
    if items == [] then "" else Canon(items[0]) + MoreItems(items[1..])
  }

  function MoreItems(items: seq<Json>): string
    decreases items, 2
  {
    if items == [] then "" else "," + CanonItems(items)
  }

  function CanonMember(v: Json, k: string): string
    requires v.Obj? && k in v.fields
    decreases v, 0, 0
  {
    Quote(k) + (":" + Canon(v.fields[k]))
  }

  function CanonMembers(v: Json, ks: seq<string>): string
    requires v.Obj? && forall k :: k in ks ==> k in v.fields
    decreases v, 0, 1, |ks|, 0
  {
    if ks == [] then "" else CanonMember(v, ks[0]) + MoreMembers(v, ks[1..])
  }

  function MoreMembers(v: Json, ks: seq<string>): string
    requires v.Obj? && forall k :: k in ks ==> k in v.fields
    decreases v, 0, 1, |ks|, 1
  {
    if ks == [] then "" else "," + CanonMembers(v, ks)
  }

  lemma {:induction false} CanonItemsSnoc(items: seq<Json>, x: Json)
    ensures CanonItems(items + [x]) == CanonItems(items) + (if items == [] then "" else ",") + Canon(x)
    ensures items != [] ==> MoreItems(items + [x]) == MoreItems(items) + "," + Canon(x)
  {
    hide Canon;
    if items == [] {
      assert items + [x] == [x];
      assert MoreItems([x][1..]) == "";
    } else {
      assert (items + [x])[1..] == items[1..] + [x];
      CanonItemsSnoc(items[1..], x);
      Assoc(Canon(items[0]), MoreItems(items[1..]), "," + Canon(x));
      Assoc(",", CanonItems(items), "," + Canon(x));
    }
  }

  lemma {:induction false} CanonMembersSnoc(v: Json, ks: seq<string>, k: string)
    requires v.Obj? && k in v.fields && forall j :: j in ks ==> j in v.fields
    ensures forall j :: j in ks + [k] ==> j in v.fields
    ensures CanonMembers(v, ks + [k]) == CanonMembers(v, ks) + (if ks == [] then "" else ",") + CanonMember(v, k)
    ensures ks != [] ==> MoreMembers(v, ks + [k]) == MoreMembers(v, ks) + "," + CanonMember(v, k)
    decreases |ks|
  {
    hide CanonMember;
    if ks == [] {
      assert ks + [k] == [k];
      assert MoreMembers(v, [k][1..]) == "";
    } else {
      assert (ks + [k])[1..] == ks[1..] + [k];
      CanonMembersSnoc(v, ks[1..], k);
    }
  }

  lemma Bracketed(buf: string, open: string, body: string, close: string)
    ensures buf + open + body + close == buf + (open + body + close)
  {
  }

  /** `write_canonical`: appends to a buffer. */
  method WriteCanonical(buf: string, v: Json) returns (out: string)
    ensures out == buf + Canon(v)
    decreases v, 0
  {
    hide Quote, CanonItems, CanonMembers, SortedKeys;
    match v {
      case Null => out := buf + "null";
      case Bool(b) => out := buf + if b then "true" else "false";
      case Num(text) => out := buf + text;
      case Str(s) => out := buf + Quote(s);
      case Arr(items) =>
        out := WriteItems(buf + "[", items);
        out := out + "]";
        Bracketed(buf, "[", CanonItems(items), "]");
      case Obj(fields) =>
        var keys := SortedKeys(fields.Keys);
        out := WriteMembers(buf + "{", v, keys);
        out := out + "}";
        Bracketed(buf, "{", CanonMembers(v, keys), "}");
    }
  }

  /** The loop over an array's items. */
  method WriteItems(buf: string, items: seq<Json>) returns (out: string)
    ensures out == buf + CanonItems(items)
    decreases items, 1
  {
    out := buf;
    for i := 0 to |items|
      invariant out == buf + CanonItems(items[..i])
    {
      CanonItemsSnoc(items[..i], items[i]);
      assert items[..i + 1] == items[..i] + [items[i]];
      if i > 0 {
        out := out + ",";
      }
      out := WriteCanonical(out, items[i]);
    }
    assert items[..|items|] == items;
  }

  /** The loop over an object's sorted keys. */
  method WriteMembers(buf: string, v: Json, keys: seq<string>) returns (out: string)
    requires v.Obj? && forall k :: k in keys ==> k in v.fields
    ensures out == buf + CanonMembers(v, keys)
    decreases v, 0, 1
  {
    out := buf;
    assert buf + CanonMembers(v, keys[..0]) == buf;
    hide CanonMember, CanonMembers, MoreMembers;
    for i := 0 to |keys|
      invariant out == buf + CanonMembers(v, keys[..i])
    {
      CanonMembersSnoc(v, keys[..i], keys[i]);
      assert keys[..i + 1] == keys[..i] + [keys[i]];
      ghost var written, comma := CanonMembers(v, keys[..i]), if i > 0 then "," else "";
      Assoc(buf, written, comma);
      Assoc(buf, written + comma, CanonMember(v, keys[i]));
      if i > 0 {
        out := out + ",";
      }
      assert out == buf + (written + comma);
      out := WriteMember(out, v, keys[i]);
    }
    assert keys[..|keys|] == keys;
  }

  method WriteMember(buf: string, v: Json, k: string) returns (out: string)
    requires v.Obj? && k in v.fields
    ensures out == buf + CanonMember(v, k)
    decreases v, 0, 0
  {
    hide Quote, Canon;
    out := buf + Quote(k);
    out := out + ":";
    out := WriteCanonical(out, v.fields[k]);
    Assoc(buf, Quote(k), ":");
    Assoc(buf, Quote(k) + ":", Canon(v.fields[k]));
    Assoc(Quote(k), ":", Canon(v.fields[k]));
  }

  method CanonicalString(v: Json) returns (s: string)
    ensures s == Canon(v)
  {
    s := WriteCanonical("", v);
  }

  // ---- Reading it back is unambiguous ----

  const NUMBER_CHARS: set<char> := {'0', '1', '2', '3', '4', '5', '6', '7', '8', '9', '+', '-', '.', 'e', 'E'}

  /** Texts a JSON number prints as (section 6 of RFC 8259), as far as telling them apart from
      everything else needs. */
  predicate NumberText(t: string) {
    t != "" && t[0] != 'e' && t[0] != 'E' && forall i :: 0 <= i < |t| ==> t[i] in NUMBER_CHARS
  }

  predicate Printable(v: Json) {
    match v
    case Num(text) => NumberText(text)
    case Arr(items) => forall i :: 0 <= i < |items| ==> Printable(items[i])
    case Obj(fields) => forall k :: k in fields ==> Printable(fields[k])
    case _ => true
  }

  /** What can follow a value. */
  predicate Follows(x: string) {
    x == "" || x[0] == ',' || x[0] == ']' || x[0] == '}'
  }

  lemma HexInjective(m: nat, n: nat)
    requires m < 16 && n < 16 && HexDigit(m) == HexDigit(n)
    ensures m == n
  {
  }

  lemma EscapedCharPrefixFree(c: char, d: char, x: string, y: string)
    requires EscapedChar(c) + x == EscapedChar(d) + y
    ensures c == d && x == y
  {
    var p, q := EscapedChar(c), EscapedChar(d);
    assert p[0] == (p + x)[0] == (q + y)[0] == q[0];
    if p[0] == '\\' {
      assert p[1] == (p + x)[1] == (q + y)[1] == q[1];
      if p[1] == 'u' {
        assert p[4] == (p + x)[4] == (q + y)[4] == q[4];
        assert p[5] == (p + x)[5] == (q + y)[5] == q[5];
        HexInjective(c as int / 16, d as int / 16);
        HexInjective(c as int % 16, d as int % 16);
      }
    }
    assert |p| == |q|;
    assert x == (p + x)[|p|..] == (q + y)[|q|..] == y;
  }

  lemma EscapedEnd(s: string, x: string)
    requires x != "" && x[0] == '"'
    ensures Escaped(s) + x != ""
    ensures (Escaped(s) + x)[0] == '"' <==> s == ""
    ensures s == "" ==> Escaped(s) + x == x
    ensures s != "" ==> Escaped(s) + x == EscapedChar(s[0]) + (Escaped(s[1..]) + x)
  {
    hide EscapedChar;
    if s != "" {
      Assoc(EscapedChar(s[0]), Escaped(s[1..]), x);
    }
  }

  lemma {:induction false} EscapedUnique(s: string, t: string, x: string, y: string)
    requires x != "" && x[0] == '"' && y != "" && y[0] == '"'
    requires Escaped(s) + x == Escaped(t) + y
    ensures s == t && x == y
  {
    hide EscapedChar;
    EscapedEnd(s, x);
    EscapedEnd(t, y);
    if s != "" && t != "" {
      EscapedCharPrefixFree(s[0], t[0], Escaped(s[1..]) + x, Escaped(t[1..]) + y);
      EscapedUnique(s[1..], t[1..], x, y);
      assert s == [s[0]] + s[1..] && t == [t[0]] + t[1..];
    }
  }

  lemma QuoteUnique(s: string, t: string, x: string, y: string)
    requires Quote(s) + x == Quote(t) + y
    ensures s == t && x == y
  {
    hide Escaped;
    OpenClose("\"", Escaped(s), "\"", x);
    OpenClose("\"", Escaped(t), "\"", y);
    SplitEven("\"", "\"", Escaped(s) + ("\"" + x), Escaped(t) + ("\"" + y));
    EscapedUnique(s, t, "\"" + x, "\"" + y);
    SplitEven("\"", "\"", x, y);
  }

  lemma {:induction false} NumberUnique(s: string, t: string, x: string, y: string)
    requires forall i :: 0 <= i < |s| ==> s[i] in NUMBER_CHARS
    requires forall i :: 0 <= i < |t| ==> t[i] in NUMBER_CHARS
    requires Follows(x) && Follows(y)
    requires s + x == t + y
    ensures s == t && x == y
  {
    var l, r := s + x, t + y;
    assert s == "" ==> l == x;
    assert t == "" ==> r == y;
    assert s != "" ==> l[0] == s[0] && l[1..] == s[1..] + x;
    assert t != "" ==> r[0] == t[0] && r[1..] == t[1..] + y;
    if s != "" && t != "" {
      NumberUnique(s[1..], t[1..], x, y);
      assert s == [s[0]] + s[1..] && t == [t[0]] + t[1..];
    }
  }

  /** The first character tells what kind of value a text starts with. */
  function Kind(v: Json): char
    requires Printable(v)
  {
    match v
    case Null => 'n'
    case Bool(b) => if b then 't' else 'f'
    case Num(_) => '0'
    case Str(_) => '"'
    case Arr(_) => '['
    case Obj(_) => '{'
  }

  lemma FirstCharTells(v: Json)
    requires Printable(v)
    ensures Canon(v) != ""
    ensures if v.Num? then Canon(v)[0] in NUMBER_CHARS - {'e', 'E'} else Canon(v)[0] == Kind(v)
  {
  }

  lemma SameKind(a: Json, b: Json, x: string, y: string)
    requires Printable(a) && Printable(b)
    requires Canon(a) + x == Canon(b) + y
    ensures Kind(a) == Kind(b)
  {
    hide Canon, Printable;
    FirstCharTells(a);
    FirstCharTells(b);
    assert (Canon(a) + x)[0] == Canon(a)[0] && (Canon(b) + y)[0] == Canon(b)[0];
  }

  lemma {:induction false} CanonUnique(a: Json, b: Json, x: string, y: string)
    requires Printable(a) && Printable(b) && Follows(x) && Follows(y)
    requires Canon(a) + x == Canon(b) + y
    ensures a == b && x == y
    decreases a, 0, 2
  {
    SameKind(a, b, x, y);
    match a {
      case Null => SplitEven(Canon(a), Canon(b), x, y);
      case Bool(v) => SplitEven(Canon(a), Canon(b), x, y);
      case Num(text) => NumberUnique(text, b.text, x, y);
      case Str(s) => QuoteUnique(s, b.s, x, y);
      case Arr(items) => ArrUnique(a, b, x, y);
      case Obj(fields) => ObjUnique(a, b, x, y);
    }
  }

  lemma {:induction false} ArrUnique(a: Json, b: Json, x: string, y: string)
    requires a.Arr? && b.Arr? && Printable(a) && Printable(b) && Follows(x) && Follows(y)
    requires Canon(a) + x == Canon(b) + y
    ensures a == b && x == y
    decreases a.items, 2
  {
    hide CanonItems;
    OpenClose("[", CanonItems(a.items), "]", x);
    OpenClose("[", CanonItems(b.items), "]", y);
    SplitEven("[", "[", CanonItems(a.items) + ("]" + x), CanonItems(b.items) + ("]" + y));
    ItemsUnique(a.items, b.items, "]" + x, "]" + y);
    SplitEven("]", "]", x, y);
  }

  lemma {:induction false} ItemsUnique(a: seq<Json>, b: seq<Json>, x: string, y: string)
    requires forall i :: 0 <= i < |a| ==> Printable(a[i])
    requires forall i :: 0 <= i < |b| ==> Printable(b[i])
    requires x != "" && x[0] == ']' && y != "" && y[0] == ']'
    requires CanonItems(a) + x == CanonItems(b) + y
    ensures a == b && x == y
    decreases a, 1
  {
    ItemsEnd(a, x);
    ItemsEnd(b, y);
    if a == [] {
    } else {
      var p, q := MoreItems(a[1..]) + x, MoreItems(b[1..]) + y;
      CanonUnique(a[0], b[0], p, q);
      MoreItemsEnd(a[1..], x);
      MoreItemsEnd(b[1..], y);
      if a[1..] != [] && b[1..] != [] {
        SplitEven(",", ",", CanonItems(a[1..]) + x, CanonItems(b[1..]) + y);
        ItemsUnique(a[1..], b[1..], x, y);
      }
      assert a == [a[0]] + a[1..] && b == [b[0]] + b[1..];
    }
  }

  lemma NotACloser(v: Json)
    requires Printable(v)
    ensures Canon(v) != "" && !Follows(Canon(v))
  {
    FirstCharTells(v);
  }

  lemma MoreItemsEnd(items: seq<Json>, x: string)
    requires x != "" && x[0] == ']'
    ensures MoreItems(items) + x == if items == [] then x else "," + (CanonItems(items) + x)
  {
    Assoc(",", CanonItems(items), x);
    assert items == [] ==> MoreItems(items) + x == x;
  }

  lemma ItemsHead(first: Json, more: string, x: string)
    requires Printable(first)
    ensures Canon(first) + more + x == Canon(first) + (more + x)
    ensures Canon(first) + more + x != "" && !Follows(Canon(first) + more + x)
  {
    hide Canon, Printable;
    NotACloser(first);
    Assoc(Canon(first), more, x);
    assert (Canon(first) + more + x)[0] == Canon(first)[0];
  }

  lemma MoreItemsFollow(items: seq<Json>, x: string)
    requires x != "" && x[0] == ']'
    ensures MoreItems(items) + x != "" && Follows(MoreItems(items) + x)
    ensures (MoreItems(items) + x)[0] == ']' <==> items == []
  {
    hide CanonItems, MoreItems;
    MoreItemsEnd(items, x);
  }

  lemma ItemsEnd(a: seq<Json>, x: string)
    requires forall i :: 0 <= i < |a| ==> Printable(a[i])
    requires x != "" && x[0] == ']'
    ensures CanonItems(a) + x != ""
    ensures (CanonItems(a) + x)[0] == ']' <==> a == []
    ensures a == [] ==> CanonItems(a) + x == x
    ensures a != [] ==> CanonItems(a) + x == Canon(a[0]) + (MoreItems(a[1..]) + x)
    ensures a != [] ==> MoreItems(a[1..]) + x != "" && Follows(MoreItems(a[1..]) + x)
    ensures a != [] ==> ((MoreItems(a[1..]) + x)[0] == ']' <==> a[1..] == [])
  {
    hide Canon, Printable, MoreItems;
    if a == [] {
      assert "" + x == x;
    } else {
      ItemsHead(a[0], MoreItems(a[1..]), x);
      MoreItemsFollow(a[1..], x);
    }
  }

  lemma {:induction false} ObjUnique(a: Json, b: Json, x: string, y: string)
    requires a.Obj? && b.Obj? && Printable(a) && Printable(b) && Follows(x) && Follows(y)
    requires Canon(a) + x == Canon(b) + y
    ensures a == b && x == y
    decreases a, 0, 0, 1
  {
    var j, k := SortedKeys(a.fields.Keys), SortedKeys(b.fields.Keys);
    hide CanonMembers, Printable, Follows;
    OpenClose("{", CanonMembers(a, j), "}", x);
    OpenClose("{", CanonMembers(b, k), "}", y);
    SplitEven("{", "{", CanonMembers(a, j) + ("}" + x), CanonMembers(b, k) + ("}" + y));
    MembersUnique(a, b, j, k, "}" + x, "}" + y);
    SplitEven("}", "}", x, y);
    assert a.fields == b.fields by {
      assert forall i :: i in a.fields <==> i in j;
      assert forall i :: i in b.fields <==> i in k;
    }
  }

  lemma {:induction false} MembersUnique(a: Json, b: Json, j: seq<string>, k: seq<string>, x: string, y: string)
    requires a.Obj? && b.Obj? && Printable(a) && Printable(b)
    requires forall i :: i in j ==> i in a.fields
    requires forall i :: i in k ==> i in b.fields
    requires x != "" && x[0] == '}' && y != "" && y[0] == '}'
    requires CanonMembers(a, j) + x == CanonMembers(b, k) + y
    ensures j == k && x == y
    ensures forall i :: i in j ==> i in b.fields && a.fields[i] == b.fields[i]
    decreases a, 0, 0, 0, |j|
  {
    MembersEnd(a, j, x);
    MembersEnd(b, k, y);
    if j == [] {
    } else {
      var p, q := MoreMembers(a, j[1..]) + x, MoreMembers(b, k[1..]) + y;
      MemberUnique(a, b, j[0], k[0], p, q);
      MoreMembersEnd(a, j[1..], x);
      MoreMembersEnd(b, k[1..], y);
      if j[1..] != [] && k[1..] != [] {
        SplitEven(",", ",", CanonMembers(a, j[1..]) + x, CanonMembers(b, k[1..]) + y);
        MembersUnique(a, b, j[1..], k[1..], x, y);
      }
      assert j == [j[0]] + j[1..] && k == [k[0]] + k[1..];
    }
  }

  lemma MoreMembersEnd(a: Json, ks: seq<string>, x: string)
    requires a.Obj? && forall i :: i in ks ==> i in a.fields
    requires x != "" && x[0] == '}'
    ensures MoreMembers(a, ks) + x == if ks == [] then x else "," + (CanonMembers(a, ks) + x)
  {
    Assoc(",", CanonMembers(a, ks), x);
    assert ks == [] ==> MoreMembers(a, ks) + x == x;
  }

  lemma MembersEnd(a: Json, j: seq<string>, x: string)
    requires a.Obj? && forall i :: i in j ==> i in a.fields
    requires x != "" && x[0] == '}'
    ensures CanonMembers(a, j) + x != ""
    ensures (CanonMembers(a, j) + x)[0] == '}' <==> j == []
    ensures j == [] ==> CanonMembers(a, j) + x == x
    ensures j != [] ==> CanonMembers(a, j) + x == CanonMember(a, j[0]) + (MoreMembers(a, j[1..]) + x)
    ensures j != [] ==> MoreMembers(a, j[1..]) + x != "" && Follows(MoreMembers(a, j[1..]) + x)
    ensures j != [] ==> ((MoreMembers(a, j[1..]) + x)[0] == '}' <==> j[1..] == [])
  {
    if j == [] {
      assert CanonMembers(a, j) + x == x;
    } else {
      assert CanonMember(a, j[0]) != "" && CanonMember(a, j[0])[0] == '\"';
      hide CanonMember;
      Assoc(CanonMember(a, j[0]), MoreMembers(a, j[1..]), x);
      MoreMembersEnd(a, j[1..], x);
    }
  }

  lemma {:induction false} MemberUnique(a: Json, b: Json, j: string, k: string, p: string, q: string)
    requires a.Obj? && b.Obj? && Printable(a) && Printable(b) && j in a.fields && k in b.fields
    requires Follows(p) && Follows(q)
    requires CanonMember(a, j) + p == CanonMember(b, k) + q
    ensures j == k && a.fields[j] == b.fields[k] && p == q
    decreases a, 0, 0, 0, 0
  {
    hide Canon, Quote;
    var x, y := Canon(a.fields[j]) + p, Canon(b.fields[k]) + q;
    Assoc(Quote(j), ":" + Canon(a.fields[j]), p);
    Assoc(":", Canon(a.fields[j]), p);
    Assoc(Quote(k), ":" + Canon(b.fields[k]), q);
    Assoc(":", Canon(b.fields[k]), q);
    QuoteUnique(j, k, ":" + x, ":" + y);
    SplitEven(":", ":", x, y);
    CanonUnique(a.fields[j], b.fields[k], p, q);
  }

  /** Two documents have the same canonical text exactly when they are the same document. */
  lemma CanonInjective(a: Json, b: Json)
    requires Printable(a) && Printable(b)
    ensures Canon(a) == Canon(b) <==> a == b
  {
    if Canon(a) == Canon(b) {
      assert Canon(a) + "" == Canon(b) + "";
      CanonUnique(a, b, "", "");
    }
  }
}
