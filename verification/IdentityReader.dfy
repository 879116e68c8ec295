/**
 Readers of the byte strings that stand for an identity: they give back the bundle a signature
 is for, and the purpose a ciphertext was sealed for.
 */
module IdentityReaders {
  import opened JsonModel
  import opened Text
  import opened Encodings

  // ---- Integers ----

  function FromDigits(s: string): Option<nat> {
    if s == "" then Some(0)
    else
      var last := s[|s| - 1];
      match FromDigits(s[..|s| - 1])
      case Some(n) => if '0' <= last <= '9' then Some(10 * n + (last as int - '0' as int)) else None
      case None => None
  }

  function FromDecimal(s: string): Option<int> {
    if s != "" && s[0] == '-' then (match FromDigits(s[1..]) case Some(n) => Some(-(n as int)) case None => None)
    else FromDigits(s)
  }

  lemma {:induction false} DigitsRead(n: nat)
    ensures FromDigits(Digits(n)) == Some(n)
  {
    if n < 10 {
      assert Digits(n)[..0] == "";
    } else {
      DigitsRead(n / 10);
      assert Digits(n)[..|Digits(n)| - 1] == Digits(n / 10);
    }
  }

  /** A decimal text gives its integer back. */
  lemma DecimalReads(n: int)
    ensures FromDecimal(Decimal(n)) == Some(n)
  {
    hide Digits, FromDigits;
    DigitsRead(if n < 0 then -n else n);
    assert ("-" + Digits(if n < 0 then -n else n))[1..] == Digits(if n < 0 then -n else n);
  }

  // ---- Fields between NULs ----

  function NulAt(bytes: seq<byte>): (n: nat)
    ensures n <= |bytes|
  {
    if bytes == [] || bytes[0] == 0 then 0 else 1 + NulAt(bytes[1..])
  }

  /** What stands before the first NUL, and after it. */
  function Head(bytes: seq<byte>): seq<byte> {
    bytes[..NulAt(bytes)]
  }

  function Tail(bytes: seq<byte>): seq<byte> {
    if NulAt(bytes) < |bytes| then bytes[NulAt(bytes) + 1..] else []
  }

  lemma {:induction false} NulAfter(a: seq<byte>, x: seq<byte>)
    requires NulFree(a) && EndsField(x)
    ensures NulAt(a + x) == |a|
  {
    if a == [] {
      assert a + x == x;
    } else {
      assert (a + x)[1..] == a[1..] + x;
      NulAfter(a[1..], x);
    }
  }

  lemma HeadAndTail(a: seq<byte>, x: seq<byte>)
    requires NulFree(a)
    ensures Head(a) == a && Tail(a) == []
    ensures Head(a + ([0] + x)) == a && Tail(a + ([0] + x)) == x
  {
    hide NulAt;
    NulAfter(a, []);
    assert a + [] == a;
    NulAfter(a, [0] + x);
    var all := a + ([0] + x);
    assert all[..|a|] == a && all[|a| + 1..] == x;
  }

  /** The texts between NULs, `count` of them, the last one whole. */
  function ReadTexts(bytes: seq<byte>, count: nat): Option<seq<string>>
    decreases count
  {
    if count == 0 then Some([])
    else if count == 1 then (match ReadUtf8(bytes) case Some(s) => Some([s]) case None => None)
    else
      match (ReadUtf8(Head(bytes)), ReadTexts(Tail(bytes), count - 1))
      case (Some(s), Some(more)) => Some([s] + more)
      case _ => None
  }

  function Encoded(texts: seq<string>): (r: seq<seq<byte>>)
    ensures |r| == |texts| && forall i :: 0 <= i < |r| ==> r[i] == Utf8(texts[i])
  {
    if texts == [] then [] else [Utf8(texts[0])] + Encoded(texts[1..])
  }

  lemma LastText(s: string)
    ensures ReadTexts(Utf8(s), 1) == Some([s])
  {
    hide Utf8, ReadUtf8;
    Utf8ReadsBack(s);
  }

  lemma NextText(s: string, x: seq<byte>, count: nat)
    requires Free(s, {'\0'}) && count > 0
    ensures ReadTexts(Utf8(s) + ([0] + x), count + 1) ==
            match ReadTexts(x, count) case Some(more) => Some([s] + more) case None => None
  {
    hide Utf8, ReadUtf8, Head, Tail, Free;
    Utf8ReadsBack(s);
    Utf8NulFree(s);
    HeadAndTail(Utf8(s), x);
  }

  lemma LeadingField(first: seq<byte>, fields: seq<seq<byte>>)
    ensures Separated([first] + fields) == [0] + (first + Separated(fields))
    ensures Separated([first] + fields)[1..] == first + Separated(fields)
  {
    assert ([first] + fields)[1..] == fields;
  }

  lemma SeparatedStart(fields: seq<seq<byte>>)
    ensures fields != [] ==> Separated(fields) != [] && Separated(fields)[0] == 0
    ensures fields == [] ==> Separated(fields) == []
  {
  }

  lemma EncodedText(texts: seq<string>)
    requires texts != []
    ensures Separated(Encoded(texts)) == [0] + (Utf8(texts[0]) + Separated(Encoded(texts[1..])))
    ensures texts[1..] != [] ==> Separated(Encoded(texts[1..])) != [] && Separated(Encoded(texts[1..]))[0] == 0
    ensures texts[1..] == [] ==> Separated(Encoded(texts[1..])) == []
  {
    assert Encoded(texts) == [Utf8(texts[0])] + Encoded(texts[1..]);
    hide Utf8, Separated, Encoded;
    LeadingField(Utf8(texts[0]), Encoded(texts[1..]));
    SeparatedStart(Encoded(texts[1..]));
  }

  /** Texts written after NULs read back when all but the last are free of NUL. */
  lemma {:induction false} TextsRead(texts: seq<string>)
    requires texts != [] && forall i :: 0 <= i < |texts| - 1 ==> Free(texts[i], {'\0'})
    ensures Separated(Encoded(texts)) != [] && ReadTexts(Separated(Encoded(texts))[1..], |texts|) == Some(texts)
  {
    hide ReadTexts, Utf8, Separated, Encoded, Free;
    var rest := texts[1..];
    EncodedText(texts);
    var more := Separated(Encoded(rest));
    assert Separated(Encoded(texts))[1..] == Utf8(texts[0]) + more;
    if rest == [] {
      assert Utf8(texts[0]) + [] == Utf8(texts[0]) && texts == [texts[0]];
      LastText(texts[0]);
    } else {
      TextsRead(rest);
      assert more == [0] + more[1..];
      NextText(texts[0], more[1..], |rest|);
      assert texts == [texts[0]] + rest;
    }
  }

  // ---- Descriptors ----

  function ReadDescriptor(bytes: seq<byte>): Option<BundleDescriptor> {
    match ReadTexts(bytes, 7)
    case None => None
    case Some(t) =>
      if |t| != 7 || t[0] != "nsclient-fleet/bundle-sig/v2" then None
      else
        match FromDecimal(t[1])
        case Some(n) => Some(BundleDescriptor(n, t[2], t[3], t[4], t[5], t[6]))
        case None => None
  }

  /** The signed bytes of a bundle read back as that bundle, when no field but the last holds a
      NUL. */
  lemma SigningBytesReadBack(d: BundleDescriptor)
    requires NulFreeDescriptor(d.(sha256Hex := ""))
    ensures ReadDescriptor(SigningBytes(d)) == Some(d)
  {
    hide Utf8, ReadTexts, Decimal, FromDecimal, Separated;
    var texts := [SIGNATURE_DOMAIN, Decimal(d.tenantId), d.bundleId, d.name, d.version, d.format, d.sha256Hex];
    DecimalFree(d.tenantId);
    DecimalReads(d.tenantId);
    TextsRead(texts);
    assert Encoded(texts) == [Utf8(SIGNATURE_DOMAIN)] + DescriptorFields(d);
    LeadingField(Utf8(SIGNATURE_DOMAIN), DescriptorFields(d));
  }

  // ---- Purposes ----

  /** The purpose that three or four texts name. */
  function PurposeOf(t: seq<string>): Option<Purpose> {
    if |t| < 3 || t[0] != "nsclient-fleet/aead/v1" then None
    else
      match FromDecimal(t[2])
      case None => None
      case Some(tenant) =>
        if t[1] == "tenant_ca_key" && |t| == 3 then Some(TenantCaKey(tenant))
        else if t[1] == "tenant_bundle_signing_key" && |t| == 3 then Some(TenantBundleSigningKey(tenant))
        else if t[1] == "host_override" && |t| == 4 then Some(HostOverride(tenant, t[3]))
        else None
  }

  /** The kind tells whether a host follows the tenant; all that follows is its id. */
  function ReadPurpose(bytes: seq<byte>): Option<Purpose> {
    var fields := if ReadUtf8(Head(Tail(bytes))) == Some("host_override") then 4 else 3;
    match ReadTexts(bytes, fields) case Some(t) => PurposeOf(t) case None => None
  }

  function PurposeTexts(p: Purpose): seq<string> {
    [AEAD_DOMAIN, KindOf(p), Decimal(p.tenantId)] + if p.HostOverride? then [p.hostId] else []
  }

  lemma PurposeOfTexts(p: Purpose)
    ensures PurposeOf(PurposeTexts(p)) == Some(p)
  {
    hide Decimal, FromDecimal;
    DecimalReads(p.tenantId);
  }

  lemma AadTexts(p: Purpose)
    ensures Aad(p) == Separated(Encoded(PurposeTexts(p)))[1..]
    ensures ReadTexts(Aad(p), |PurposeTexts(p)|) == Some(PurposeTexts(p))
  {
    hide Utf8, ReadTexts, Decimal, Separated, KindOf;
    var texts := PurposeTexts(p);
    DecimalFree(p.tenantId);
    KindTells(p, p);
    TextsRead(texts);
    assert Encoded(texts) == [Utf8(AEAD_DOMAIN)] + PurposeFields(p);
    LeadingField(Utf8(AEAD_DOMAIN), PurposeFields(p));
  }

  /** The kind stands between the first NUL and the second. */
  lemma KindIsSecond(p: Purpose)
    ensures ReadUtf8(Head(Tail(Aad(p)))) == Some(KindOf(p))
  {
    hide Utf8, Decimal, KindOf, Separated, PurposeFields, ReadUtf8, Head, Tail;
    var domain, kind := Utf8(AEAD_DOMAIN), Utf8(KindOf(p));
    PurposeParts(p);
    Utf8NulFree(AEAD_DOMAIN);
    var x := Utf8(Decimal(p.tenantId)) + HostField(p);
    HeadAndTail(domain, kind + ([0] + x));
    HeadAndTail(kind, x);
    Utf8ReadsBack(KindOf(p));
  }

  lemma FieldCount(p: Purpose)
    ensures |PurposeTexts(p)| == if KindOf(p) == "host_override" then 4 else 3
  {
    assert "tenant_ca_key"[0] != "host_override"[0] && "tenant_bundle_signing_key"[0] != "host_override"[0];
  }

  /** The associated data of a ciphertext reads back as the purpose it was sealed for. */
  lemma AadReadsBack(p: Purpose)
    ensures ReadPurpose(Aad(p)) == Some(p)
  {
    hide Aad, PurposeTexts, ReadTexts, Head, Tail, ReadUtf8, PurposeOf, KindOf;
    KindIsSecond(p);
    AadTexts(p);
    FieldCount(p);
    PurposeOfTexts(p);
  }
}
