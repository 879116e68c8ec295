/**
 A reader of JSON texts as sections 2 to 7 of RFC 8259 define them, without white space, and
 with the names of every object in ascending order: what canonical texts are written in. It
 gives every document back.
 */
module JsonReaders {
  import opened JsonModel
  import opened Ordering
  import opened Canonical

  /** What was read, and what follows it. */
  datatype Reading<+T> = Fails | Reads(value: T, rest: string)

  // ---- Strings (section 7) ----

  function HexValue(c: char): Option<nat> {
    if '0' <= c <= '9' then Some(c as int - '0' as int)
    else if 'a' <= c <= 'f' then Some(c as int - 'a' as int + 10)
    else if 'A' <= c <= 'F' then Some(c as int - 'A' as int + 10)
    else None
  }

  /** The character that four hexadecimal digits name. Surrogates, of which JSON makes pairs,
      are not read: no canonical text has them. */
  function HexChar(text: string): Option<char> {
    if |text| < 4 then None
    else
      match (HexValue(text[0]), HexValue(text[1]), HexValue(text[2]), HexValue(text[3]))
      case (Some(a), Some(b), Some(c), Some(d)) =>
        var n := ((a * 16 + b) * 16 + c) * 16 + d;
        if n < 0xD800 || 0xE000 <= n < 0x1_0000 then Some(n as char) else None
      case _ => None
  }

  /** One character of a string, escaped or not. */
  function ReadChar(text: string): (r: Reading<char>)
    ensures r.Reads? ==> |r.rest| < |text|
  {
    if text == "" || text[0] == '"' || text[0] as int < 0x20 then Fails
    else if text[0] != '\\' then Reads(text[0], text[1..])
    else if |text| < 2 then Fails
    else
      var after := text[2..];
      match text[1]
      case '"' => Reads('"', after)
      case '\\' => Reads('\\', after)
      case '/' => Reads('/', after)
      case 'b' => Reads(8 as char, after)
      case 'f' => Reads(12 as char, after)
      case 'n' => Reads('\n', after)
      case 'r' => Reads('\r', after)
      case 't' => Reads('\t', after)
      case 'u' => (match HexChar(after) case Some(c) => Reads(c, after[4..]) case None => Fails)
      case _ => Fails
  }

  /** The characters up to a closing quotation mark. */
  function ReadString(text: string): (r: Reading<string>)
    ensures r.Reads? ==> |r.rest| < |text|
    decreases |text|
  {
    if text != "" && text[0] == '"' then Reads("", text[1..])
    else
      match ReadChar(text)
      case Fails => Fails
      case Reads(c, more) =>
        (match ReadString(more) case Fails => Fails case Reads(s, rest) => Reads([c] + s, rest))
  }

  // ---- Values ----

  predicate Begins(text: string, word: string) {
    |word| <= |text| && text[..|word|] == word
  }

  /** Where the longest run of characters of numbers ends. */
  function NumberEnd(text: string): (n: nat)
    ensures n <= |text|
  {
    if text == "" || text[0] !in NUMBER_CHARS then 0 else 1 + NumberEnd(text[1..])
  }

  function ReadValue(text: string): (r: Reading<Json>)
    ensures r.Reads? ==> |r.rest| < |text|
    decreases |text|, 0
  {
    if text == "" then Fails
    else if text[0] == '"' then
      (match ReadString(text[1..]) case Fails => Fails case Reads(s, rest) => Reads(Str(s), rest))
    else if text[0] == '[' then
      if Begins(text, "[]") then Reads(Arr([]), text[2..])
      else (match ReadItems(text[1..]) case Fails => Fails case Reads(items, rest) => Reads(Arr(items), rest))
    else if text[0] == '{' then
      if Begins(text, "{}") then Reads(EMPTY_OBJECT, text[2..])
      else (match ReadMembers(text[1..], None) case Fails => Fails case Reads(m, rest) => Reads(Obj(m), rest))
    else if Begins(text, "null") then Reads(Null, text[4..])
    else if Begins(text, "true") then Reads(Bool(true), text[4..])
    else if Begins(text, "false") then Reads(Bool(false), text[5..])
    else
      var n := NumberEnd(text);
      if n > 0 && NumberText(text[..n]) then Reads(Num(text[..n]), text[n..]) else Fails
  }

  /** The items of an array from one of them on, and the bracket that closes it. */
  function ReadItems(text: string): (r: Reading<seq<Json>>)
    ensures r.Reads? ==> |r.rest| < |text|
    decreases |text|, 1
  {
    match ReadValue(text)
    case Fails => Fails
    case Reads(v, more) =>
      if Begins(more, "]") then Reads([v], more[1..])
      else if Begins(more, ",") then
        (match ReadItems(more[1..]) case Fails => Fails case Reads(vs, rest) => Reads([v] + vs, rest))
      else Fails
  }

  /** The members of an object from one of them on, their names after `last`, and the brace
      that closes it. */
  function ReadMembers(text: string, last: Option<string>): (r: Reading<map<string, Json>>)
    ensures r.Reads? ==> |r.rest| < |text|
    decreases |text|, 1
  {
    if !Begins(text, "\"") then Fails
    else
      match ReadString(text[1..])
      case Fails => Fails
      case Reads(k, colon) =>
        if !Begins(colon, ":") || (last.Some? && Le(k, last.value)) then Fails
        else
          match ReadValue(colon[1..])
          case Fails => Fails
          case Reads(v, more) =>
            if Begins(more, "}") then Reads(map[k := v], more[1..])
            else if Begins(more, ",") then
              (match ReadMembers(more[1..], Some(k))
               case Fails => Fails
               case Reads(m, rest) => Reads(m[k := v], rest))
            else Fails
  }

  /** A whole text. */
  function ReadDocument(text: string): Option<Json> {
    match ReadValue(text) case Reads(v, rest) => if rest == "" then Some(v) else None case Fails => None
  }

  // ---- Strings read back ----

  lemma HexReads(n: nat)
    requires n < 16
    ensures HexValue(HexDigit(n)) == Some(n)
  {
  }

  lemma ControlReads(c: char, rest: string)
    requires c as int < 0x20
    ensures HexChar("00" + [HexDigit(c as int / 16), HexDigit(c as int % 16)] + rest) == Some(c)
  {
    HexReads(c as int / 16);
    HexReads(c as int % 16);
    HexReads(0);
    var text := "00" + [HexDigit(c as int / 16), HexDigit(c as int % 16)] + rest;
    assert text[0] == '0' && text[1] == '0';
    assert text[2] == HexDigit(c as int / 16) && text[3] == HexDigit(c as int % 16);
  }

  lemma ControlCharReads(c: char, rest: string)
    requires c as int < 0x20
    ensures var text := "\\u00" + [HexDigit(c as int / 16), HexDigit(c as int % 16)] + rest;
      ReadChar(text) == Reads(c, rest)
  {
    ControlReads(c, rest);
    hide HexChar, HexDigit;
    var digits := "00" + [HexDigit(c as int / 16), HexDigit(c as int % 16)];
    var text := "\\u00" + [HexDigit(c as int / 16), HexDigit(c as int % 16)] + rest;
    assert text[0] == '\\' && text[1] == 'u' && text[2..] == digits + rest && (digits + rest)[4..] == rest;
  }

  lemma ShortEscapeReads(e: char, rest: string)
    ensures e in {'"', '\\', 'b', 't', 'n', 'f', 'r'} ==>
      var text := "\\" + [e] + rest;
      ReadChar(text).Reads? && ReadChar(text).rest == rest && EscapedChar(ReadChar(text).value) == "\\" + [e]
  {
    var text := "\\" + [e] + rest;
    assert text[0] == '\\' && text[1] == e && text[2..] == rest;
  }

  /** Every escaped character reads as itself. */
  lemma CharReads(c: char, rest: string)
    ensures ReadChar(EscapedChar(c) + rest) == Reads(c, rest)
  {
    var e := EscapedChar(c);
    if c as int >= 0x20 && c != '"' && c != '\\' {
      assert e == [c] && (e + rest)[0] == c && (e + rest)[1..] == rest;
    } else if e[1] == 'u' {
      ControlCharReads(c, rest);
    } else {
      assert e == "\\" + [e[1]];
      ShortEscapeReads(e[1], rest);
      EscapedCharPrefixFree(c, ReadChar(e + rest).value, "", "");
    }
  }

  lemma NextChar(text: string, c: char, more: string)
    requires ReadChar(text) == Reads(c, more)
    ensures ReadString(text) ==
            match ReadString(more) case Fails => Fails case Reads(s, rest) => Reads([c] + s, rest)
  {
  }

  /** Every escaped string reads as itself, up to its closing quotation mark. */
  lemma {:induction false} StringReads(s: string, rest: string)
    ensures ReadString(Escaped(s) + ("\"" + rest)) == Reads(s, rest)
  {
    var end := "\"" + rest;
    assert end[0] == '"' && end[1..] == rest;
    EscapedEnd(s, end);
    if s == "" {
    } else {
      hide Escaped, EscapedChar, ReadChar, ReadString;
      CharReads(s[0], Escaped(s[1..]) + end);
      NextChar(Escaped(s) + end, s[0], Escaped(s[1..]) + end);
      StringReads(s[1..], rest);
      assert s == [s[0]] + s[1..];
    }
  }

  /** A quoted string, its opening quotation mark read, gives the string back. */
  lemma QuoteReads(s: string, rest: string)
    ensures Begins(Quote(s) + rest, "\"") && ReadString((Quote(s) + rest)[1..]) == Reads(s, rest)
  {
    hide Escaped, ReadString;
    OpenClose("\"", Escaped(s), "\"", rest);
    assert (Quote(s) + rest)[1..] == Escaped(s) + ("\"" + rest);
    StringReads(s, rest);
  }

  // ---- Documents read back ----

  lemma {:induction false} NumberEnds(t: string, x: string)
    requires (forall i :: 0 <= i < |t| ==> t[i] in NUMBER_CHARS) && Follows(x)
    ensures NumberEnd(t + x) == |t|
  {
    if t == "" {
      assert t + x == x;
    } else {
      assert (t + x)[1..] == t[1..] + x;
      NumberEnds(t[1..], x);
    }
  }

  lemma WordReads(word: string, x: string)
    ensures Begins(word + x, word) && (word + x)[|word|..] == x
    ensures word != "" ==> word + x != "" && (word + x)[0] == word[0]
  {
  }

  lemma NumberReads(t: string, x: string)
    requires NumberText(t) && Follows(x)
    ensures ReadValue(t + x) == Reads(Num(t), x)
  {
    NumberEnds(t, x);
    assert (t + x)[0] == t[0] && t[0] in NUMBER_CHARS;
    assert (t + x)[..|t|] == t && (t + x)[|t|..] == x;
    hide NumberEnd;
    assert !Begins(t + x, "null") && !Begins(t + x, "true") && !Begins(t + x, "false") by {
      assert "null"[0] == 'n' && "true"[0] == 't' && "false"[0] == 'f';
    }
  }

  /** Whatever follows a value in a document, the value reads as itself. */
  lemma {:induction false} ValueReads(v: Json, x: string)
    requires Printable(v) && Follows(x)
    ensures ReadValue(Canon(v) + x) == Reads(v, x)
    decreases v, 0
  {
    match v {
      case Null => WordReads("null", x);
      case Bool(b) => WordReads(if b then "true" else "false", x);
      case Num(t) => NumberReads(t, x);
      case Str(s) => QuoteReads(s, x);
      case Arr(items) => ArrayReads(items, x);
      case Obj(fields) => ObjectReads(v, x);
    }
  }

  lemma {:induction false} ArrayReads(items: seq<Json>, x: string)
    requires (forall i :: 0 <= i < |items| ==> Printable(items[i])) && Follows(x)
    ensures ReadValue("[" + CanonItems(items) + "]" + x) == Reads(Arr(items), x)
    decreases items, 2
  {
    hide CanonItems, ReadItems, Printable;
    OpenClose("[", CanonItems(items), "]", x);
    var body := CanonItems(items) + ("]" + x);
    var text := "[" + body;
    assert text[0] == '[' && text[1..] == body;
    ItemsEnd(items, "]" + x);
    if items == [] {
      assert body == "]" + x && text[2..] == x;
    } else {
      assert body[0] != ']' && text[1] == body[0];
      ItemsRead(items, x);
    }
  }

  lemma LastItem(text: string, v: Json, x: string)
    requires ReadValue(text) == Reads(v, "]" + x)
    ensures ReadItems(text) == Reads([v], x)
  {
    assert ("]" + x)[1..] == x;
  }

  lemma NextItem(text: string, v: Json, more: string)
    requires ReadValue(text) == Reads(v, "," + more)
    ensures ReadItems(text) ==
            match ReadItems(more) case Fails => Fails case Reads(vs, rest) => Reads([v] + vs, rest)
  {
    assert ("," + more)[1..] == more;
  }

  lemma {:induction false} ItemsRead(items: seq<Json>, x: string)
    requires items != [] && (forall i :: 0 <= i < |items| ==> Printable(items[i]))
    ensures ReadItems(CanonItems(items) + ("]" + x)) == Reads(items, x)
    decreases items, 1
  {
    hide CanonItems, MoreItems, ReadValue, ReadItems, Printable, Canon;
    var end := "]" + x;
    var text, more := CanonItems(items) + end, MoreItems(items[1..]) + end;
    ItemsEnd(items, end);
    ValueReads(items[0], more);
    MoreItemsEnd(items[1..], end);
    assert items == [items[0]] + items[1..];
    if items[1..] == [] {
      assert items == [items[0]];
      LastItem(text, items[0], x);
    } else {
      NextItem(text, items[0], CanonItems(items[1..]) + end);
      ItemsRead(items[1..], x);
    }
  }

  /** An object's text, and what reading it comes to. */
  lemma ObjectText(v: Json, ks: seq<string>, x: string)
    requires v.Obj? && ks == SortedKeys(v.fields.Keys)
    ensures Canon(v) + x == "{" + (CanonMembers(v, ks) + ("}" + x))
  {
    hide CanonMembers, SortedKeys;
    OpenClose("{", CanonMembers(v, ks), "}", x);
  }

  lemma OpensObject(body: string)
    requires body != "" && body[0] != '}'
    ensures ReadValue("{" + body) ==
            match ReadMembers(body, None) case Fails => Fails case Reads(m, rest) => Reads(Obj(m), rest)
  {
    hide ReadMembers;
    var text := "{" + body;
    assert text[0] == '{' && text[1] == body[0] && text[1..] == body;
  }

  lemma OpensNothing(x: string)
    ensures ReadValue("{" + ("}" + x)) == Reads(EMPTY_OBJECT, x)
  {
    var text := "{" + ("}" + x);
    assert text[..2] == "{}" && text[2..] == x;
  }

  lemma {:induction false} ObjectReads(v: Json, x: string)
    requires v.Obj? && Printable(v) && Follows(x)
    ensures ReadValue(Canon(v) + x) == Reads(v, x)
    decreases v, 0, 0, 1
  {
    hide CanonMembers, ReadMembers, Printable, SortedKeys, Canon, ReadValue, Ascending, NoRepeats, CanonMember,
         MoreMembers;
    var ks := SortedKeys(v.fields.Keys);
    SortedKeysAscend(v.fields.Keys);
    ObjectText(v, ks, x);
    MembersEnd(v, ks, "}" + x);
    if ks == [] {
      OpensNothing(x);
      assert v.fields == map[];
    } else {
      OpensObject(CanonMembers(v, ks) + ("}" + x));
      MembersRead(v, ks, None, x);
      assert Only(v.fields, ks) == v.fields;
    }
  }

  /** The members with the names `ks`. */
  function Only(m: map<string, Json>, ks: seq<string>): map<string, Json> {
    map k | k in m && k in ks :: m[k]
  }

  /** `text` begins with the member `k`, and `more` follows it. */
  predicate MemberAt(text: string, k: string, v: Json, more: string) {
    && Begins(text, "\"")
    && ReadString(text[1..]).Reads? && ReadString(text[1..]).value == k
    && var colon := ReadString(text[1..]).rest;
       Begins(colon, ":") && ReadValue(colon[1..]) == Reads(v, more)
  }

  lemma LastMember(text: string, last: Option<string>, k: string, v: Json, x: string)
    requires MemberAt(text, k, v, "}" + x) && (last.Some? ==> !Le(k, last.value))
    ensures ReadMembers(text, last) == Reads(map[k := v], x)
  {
    hide ReadString, ReadValue, Le;
    assert ("}" + x)[1..] == x;
  }

  lemma NextMember(text: string, last: Option<string>, k: string, v: Json, more: string)
    requires MemberAt(text, k, v, "," + more) && (last.Some? ==> !Le(k, last.value))
    ensures ReadMembers(text, last) ==
            match ReadMembers(more, Some(k)) case Fails => Fails case Reads(m, rest) => Reads(m[k := v], rest)
  {
    hide ReadString, ReadValue, Le;
    assert ("," + more)[1..] == more;
  }

  lemma OnlyOneMore(m: map<string, Json>, ks: seq<string>)
    requires ks != [] && ks[0] in m
    ensures Only(m, ks) == Only(m, ks[1..])[ks[0] := m[ks[0]]]
    ensures ks[1..] == [] ==> Only(m, ks) == map[ks[0] := m[ks[0]]]
  {
    assert ks == [ks[0]] + ks[1..];
  }

  lemma {:induction false} MembersRead(v: Json, ks: seq<string>, last: Option<string>, x: string)
    requires v.Obj? && Printable(v) && ks != [] && NoRepeats(ks) && Ascending(ks)
    requires forall k :: k in ks ==> k in v.fields
    requires last.Some? ==> !Le(ks[0], last.value)
    ensures ReadMembers(CanonMembers(v, ks) + ("}" + x), last) == Reads(Only(v.fields, ks), x)
    decreases v, 0, 0, 0, |ks|
  {
    hide CanonMembers, MoreMembers, CanonMember, ReadMembers, Printable, MemberAt, Le, Only;
    var end := "}" + x;
    var k, text, more := ks[0], CanonMembers(v, ks) + end, MoreMembers(v, ks[1..]) + end;
    MembersEnd(v, ks, end);
    MemberReads(v, k, more);
    MoreMembersEnd(v, ks[1..], end);
    OnlyOneMore(v.fields, ks);
    if ks[1..] == [] {
      LastMember(text, last, k, v.fields[k], x);
    } else {
      NextIsLater(ks);
      NextMember(text, last, k, v.fields[k], CanonMembers(v, ks[1..]) + end);
      MembersRead(v, ks[1..], Some(k), x);
    }
  }

  lemma NextIsLater(ks: seq<string>)
    requires |ks| > 1 && NoRepeats(ks) && Ascending(ks)
    ensures NoRepeats(ks[1..]) && Ascending(ks[1..]) && !Le(ks[1..][0], ks[0])
  {
    if Le(ks[1], ks[0]) {
      LeAntisymmetric(ks[0], ks[1]);
    }
  }

  lemma {:induction false} MemberReads(v: Json, k: string, more: string)
    requires v.Obj? && Printable(v) && k in v.fields && Follows(more)
    ensures MemberAt(CanonMember(v, k) + more, k, v.fields[k], more)
    decreases v, 0, 0, 0, 0
  {
    var c := Canon(v.fields[k]);
    hide Quote, Canon, ReadString, ReadValue;
    assert CanonMember(v, k) == Quote(k) + (":" + c);
    Assoc(Quote(k), ":" + c, more);
    Assoc(":", c, more);
    QuoteReads(k, ":" + (c + more));
    assert (":" + (c + more))[1..] == c + more;
    ValueReads(v.fields[k], more);
  }

  /** A reader gives every document back from its canonical text. */
  lemma CanonicalTextReadsBack(v: Json)
    requires Printable(v)
    ensures ReadDocument(Canon(v)) == Some(v)
  {
    ValueReads(v, "");
    assert Canon(v) + "" == Canon(v);
  }
}
