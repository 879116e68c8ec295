/**
 The byte strings that stand for an identity: what a bundle signature covers
 (`crates/core/src/crypto/bundlesig.rs`) and the associated data of a ciphertext
 (`crates/core/src/crypto/aead.rs`). Both are NUL-separated. The associated data tells all
 purposes apart, as only its last field can hold a NUL; the signing bytes tell a bundle from
 every other exactly when none of its fields holds one.
 */
module Encodings {
  import opened Text

  // ---- Decimal text of an integer ----

  function Digit(n: nat): char
    requires n < 10
  {
    ('0' as int + n) as char
  }

  function Digits(n: nat): (s: string)
    ensures s != "" && s[0] != '-'
  {
    if n < 10 then [Digit(n)] else Digits(n / 10) + [Digit(n % 10)]
  }

  /** `i64::to_string`. */
  function Decimal(n: int): string {
    if n < 0 then "-" + Digits(-n) else Digits(n)
  }

  lemma {:induction false} DigitsInjective(m: nat, n: nat)
    requires Digits(m) == Digits(n)
    ensures m == n
  {
    var s, t := Digits(m), Digits(n);
    assert s[|s| - 1] == Digit(m % 10) && t[|t| - 1] == Digit(n % 10);
    assert m % 10 == n % 10;
    DigitsLength(m);
    DigitsLength(n);
    if m >= 10 {
      assert Digits(m / 10) == s[..|s| - 1] && Digits(n / 10) == t[..|t| - 1];
      DigitsInjective(m / 10, n / 10);
    }
  }

  lemma DigitsLength(n: nat)
    ensures |Digits(n)| == 1 <==> n < 10
  {
    if n >= 10 {
      assert |Digits(n / 10)| >= 1;
    }
  }

  lemma DecimalInjective(m: int, n: int)
    requires Decimal(m) == Decimal(n)
    ensures m == n
  {
    hide Digits;
    assert Decimal(m)[0] == '-' <==> m < 0;
    assert Decimal(n)[0] == '-' <==> n < 0;
    if m < 0 {
      assert Decimal(m)[1..] == Digits(-m) && Decimal(n)[1..] == Digits(-n);
      DigitsInjective(-m, -n);
    } else {
      DigitsInjective(m, n);
    }
  }

  lemma {:induction false} DigitsFree(n: nat)
    ensures Free(Digits(n), {'\0'})
  {
    if n >= 10 {
      DigitsFree(n / 10);
    }
  }

  lemma DecimalFree(n: int)
    ensures Free(Decimal(n), {'\0'})
  {
    DigitsFree(if n < 0 then -n else n);
  }

  // ---- NUL-separated fields ----

  predicate NulFree(bytes: seq<byte>) {
    0 !in bytes
  }

  lemma {:induction false} Utf8NulFree(s: string)
    ensures NulFree(Utf8(s)) <==> Free(s, {'\0'})
  {
    if s == "" {
    } else {
      Utf8NulFree(s[1..]);
      assert s == [s[0]] + s[1..];
      assert 0 in Utf8Char(s[0]) <==> s[0] == '\0';
    }
  }

  /** Each field after a NUL of its own. */
  function Separated(fields: seq<seq<byte>>): seq<byte> {
    if fields == [] then [] else [0] + fields[0] + Separated(fields[1..])
  }

  predicate AllNulFree(fields: seq<seq<byte>>) {
    forall i :: 0 <= i < |fields| ==> NulFree(fields[i])
  }

  /** What follows a field is nothing, or begins with a NUL. */
  predicate EndsField(x: seq<byte>) {
    x != [] ==> x[0] == 0
  }

  lemma FieldUnique(a: seq<byte>, b: seq<byte>, x: seq<byte>, y: seq<byte>)
    requires NulFree(a) && NulFree(b) && EndsField(x) && EndsField(y) && a + x == b + y
    ensures a == b && x == y
  {
    var s := a + x;
    assert forall i :: 0 <= i < |a| ==> s[i] == a[i] && a[i] in a;
    assert forall i :: 0 <= i < |b| ==> s[i] == (b + y)[i] == b[i] && b[i] in b;
    assert |a| < |s| ==> s[|a|] == x[0] == 0;
    assert |b| < |s| ==> s[|b|] == (b + y)[|b|] == y[0] == 0;
    assert |a| == |b|;
    assert a == s[..|a|] == (b + y)[..|b|] == b;
    assert x == s[|a|..] == (b + y)[|b|..] == y;
  }

  lemma {:induction false} SeparatedInjective(fields: seq<seq<byte>>, others: seq<seq<byte>>)
    requires AllNulFree(fields) && AllNulFree(others)
    requires Separated(fields) == Separated(others)
    ensures fields == others
  {
    if fields == [] || others == [] {
      assert |Separated(fields)| == |Separated(others)|;
    } else {
      var x, y := Separated(fields[1..]), Separated(others[1..]);
      assert Separated(fields)[1..] == fields[0] + x && Separated(others)[1..] == others[0] + y;
      FieldUnique(fields[0], others[0], x, y);
      SeparatedInjective(fields[1..], others[1..]);
      assert fields == [fields[0]] + fields[1..] && others == [others[0]] + others[1..];
    }
  }

  lemma {:induction false} SeparatedSnoc(fields: seq<seq<byte>>, f: seq<byte>)
    ensures Separated(fields + [f]) == Separated(fields) + [0] + f
  {
    if fields == [] {
      assert fields + [f] == [f] && [f][1..] == [];
    } else {
      assert (fields + [f])[1..] == fields[1..] + [f];
      SeparatedSnoc(fields[1..], f);
    }
  }

  lemma SamePrefix(domain: seq<byte>, x: seq<byte>, y: seq<byte>)
    ensures domain + x == domain + y <==> x == y
  {
    assert (domain + x)[|domain|..] == x && (domain + y)[|domain|..] == y;
  }

  // ---- What a bundle signature covers ----

  const SIGNATURE_DOMAIN := "nsclient-fleet/bundle-sig/v2"

  datatype BundleDescriptor = BundleDescriptor(
    tenantId: int, bundleId: string, name: string, version: string, format: string, sha256Hex: string)

  function DescriptorFields(d: BundleDescriptor): seq<seq<byte>> {
    [Utf8(Decimal(d.tenantId)), Utf8(d.bundleId), Utf8(d.name), Utf8(d.version), Utf8(d.format), Utf8(d.sha256Hex)]
  }

  function SigningBytes(d: BundleDescriptor): seq<byte> {
    Utf8(SIGNATURE_DOMAIN) + Separated(DescriptorFields(d))
  }

  predicate NulFreeDescriptor(d: BundleDescriptor) {
    var stop := {'\0'};
    Free(d.bundleId, stop) && Free(d.name, stop) && Free(d.version, stop) && Free(d.format, stop) &&
      Free(d.sha256Hex, stop)
  }

  /** `to_signing_bytes`. */
  method ToSigningBytes(d: BundleDescriptor) returns (out: seq<byte>)
    ensures out == SigningBytes(d)
  {
    hide Utf8, Decimal;
    out := Utf8(SIGNATURE_DOMAIN);
    var fields := [Utf8(Decimal(d.tenantId)), Utf8(d.bundleId), Utf8(d.name), Utf8(d.version), Utf8(d.format),
      Utf8(d.sha256Hex)];
    assert Separated(fields[..0]) == [];
    hide Separated;
    for i := 0 to |fields|
      invariant out == Utf8(SIGNATURE_DOMAIN) + Separated(fields[..i])
    {
      assert fields[..i + 1] == fields[..i] + [fields[i]];
      SeparatedSnoc(fields[..i], fields[i]);
      out := out + [0];
      out := out + fields[i];
    }
    assert fields[..|fields|] == fields;
  }

  lemma DescriptorNulFree(d: BundleDescriptor)
    requires NulFreeDescriptor(d)
    ensures AllNulFree(DescriptorFields(d))
  {
    hide Utf8, Decimal;
    DecimalFree(d.tenantId);
    Utf8NulFree(Decimal(d.tenantId));
    Utf8NulFree(d.bundleId);
    Utf8NulFree(d.name);
    Utf8NulFree(d.version);
    Utf8NulFree(d.format);
    Utf8NulFree(d.sha256Hex);
  }

  /** A signature for one bundle is never a signature for another. */
  lemma SigningBytesInjective(d: BundleDescriptor, e: BundleDescriptor)
    requires NulFreeDescriptor(d) && NulFreeDescriptor(e)
    ensures SigningBytes(d) == SigningBytes(e) <==> d == e
  {
    hide Utf8, Separated, Decimal, AllNulFree, Free;
    if SigningBytes(d) == SigningBytes(e) {
      SamePrefix(Utf8(SIGNATURE_DOMAIN), Separated(DescriptorFields(d)), Separated(DescriptorFields(e)));
      DescriptorNulFree(d);
      DescriptorNulFree(e);
      var f, g := DescriptorFields(d), DescriptorFields(e);
      SeparatedInjective(f, g);
      assert f[0] == g[0] && f[1] == g[1] && f[2] == g[2] && f[3] == g[3] && f[4] == g[4] && f[5] == g[5];
      Utf8Injective(Decimal(d.tenantId), Decimal(e.tenantId));
      DecimalInjective(d.tenantId, e.tenantId);
      Utf8Injective(d.bundleId, e.bundleId);
      Utf8Injective(d.name, e.name);
      Utf8Injective(d.version, e.version);
      Utf8Injective(d.format, e.format);
      Utf8Injective(d.sha256Hex, e.sha256Hex);
    }
  }

  lemma {:induction false} SeparatedConcat(fields: seq<seq<byte>>, more: seq<seq<byte>>)
    ensures Separated(fields + more) == Separated(fields) + Separated(more)
  {
    if fields == [] {
      assert fields + more == more;
    } else {
      assert (fields + more)[1..] == fields[1..] + more;
      SeparatedConcat(fields[1..], more);
    }
  }

  lemma Utf8AroundNul(a: string, b: string)
    ensures Utf8(a + "\0" + b) == Utf8(a) + [0] + Utf8(b)
  {
    Utf8Concat(a, "\0");
    Utf8Concat(a + "\0", b);
    assert Utf8("\0") == [0];
  }

  lemma PairMoves(x: seq<byte>, y: seq<byte>, z: seq<byte>)
    ensures Separated([x + [0] + y, z]) == Separated([x, y + [0] + z])
  {
    hide Separated;
    SeparatedPair(x + [0] + y, z);
    SeparatedPair(x, y + [0] + z);
    assert [0] + (x + [0] + y) + [0] + z == [0] + x + [0] + (y + [0] + z);
  }

  /** A NUL inside a field may as well be the boundary with the next one. */
  lemma BoundaryMoves(before: seq<seq<byte>>, x: seq<byte>, y: seq<byte>, z: seq<byte>, after: seq<seq<byte>>)
    ensures Separated(before + [x + [0] + y, z] + after) == Separated(before + [x, y + [0] + z] + after)
  {
    hide Separated;
    PairMoves(x, y, z);
    var p, q := [x + [0] + y, z], [x, y + [0] + z];
    SeparatedConcat(before, p);
    SeparatedConcat(before, q);
    SeparatedConcat(before + p, after);
    SeparatedConcat(before + q, after);
  }

  lemma SeparatedPair(x: seq<byte>, y: seq<byte>)
    ensures Separated([x, y]) == [0] + x + [0] + y
  {
    SeparatedSnoc([x], y);
    SeparatedSnoc([], x);
    assert [x] + [y] == [x, y] && [] + [x] == [x];
  }

  /** A NUL in the name, say, is read as well as the start of the version. */
  lemma NulMovesTheBoundary(d: BundleDescriptor, a: string, b: string, c: string)
    ensures SigningBytes(d.(name := a + "\0" + b, version := c)) == SigningBytes(d.(name := a, version := b + "\0" + c))
  {
    hide Utf8, Separated, Decimal;
    Utf8AroundNul(a, b);
    Utf8AroundNul(b, c);
    var d1, d2 := d.(name := a + "\0" + b, version := c), d.(name := a, version := b + "\0" + c);
    var before, after := [Utf8(Decimal(d.tenantId)), Utf8(d.bundleId)], [Utf8(d.format), Utf8(d.sha256Hex)];
    var x, y, z := Utf8(a), Utf8(b), Utf8(c);
    assert DescriptorFields(d1) == before + [x + [0] + y, z] + after;
    assert DescriptorFields(d2) == before + [x, y + [0] + z] + after;
    BoundaryMoves(before, x, y, z, after);
  }

  // ---- Exactly which descriptors are told from every other ----

  /** How many bytes are NUL. */
  function Zeros(bytes: seq<byte>): nat {
    if bytes == [] then 0 else (if bytes[0] == 0 then 1 else 0) + Zeros(bytes[1..])
  }

  function ZerosWithin(fields: seq<seq<byte>>): nat {
    if fields == [] then 0 else Zeros(fields[0]) + ZerosWithin(fields[1..])
  }

  lemma {:induction false} ZerosConcat(a: seq<byte>, b: seq<byte>)
    ensures Zeros(a + b) == Zeros(a) + Zeros(b)
  {
    if a == [] {
      assert a + b == b;
    } else {
      assert (a + b)[1..] == a[1..] + b;
      ZerosConcat(a[1..], b);
    }
  }

  lemma {:induction false} NoZeros(bytes: seq<byte>)
    ensures Zeros(bytes) == 0 <==> NulFree(bytes)
  {
    if bytes == [] {
    } else {
      NoZeros(bytes[1..]);
      assert bytes == [bytes[0]] + bytes[1..];
    }
  }

  /** A NUL for every field, and those inside fields. */
  lemma {:induction false} ZerosOfSeparated(fields: seq<seq<byte>>)
    ensures Zeros(Separated(fields)) == |fields| + ZerosWithin(fields)
  {
    if fields == [] {
    } else {
      ZerosOfSeparated(fields[1..]);
      ZerosConcat([0] + fields[0], Separated(fields[1..]));
      ZerosConcat([0], fields[0]);
      assert [0][1..] == [];
    }
  }

  lemma {:induction false} NoZerosWithin(fields: seq<seq<byte>>)
    ensures ZerosWithin(fields) == 0 <==> AllNulFree(fields)
  {
    if fields == [] {
    } else {
      NoZeros(fields[0]);
      NoZerosWithin(fields[1..]);
      assert forall i :: 0 <= i < |fields[1..]| ==> fields[1..][i] == fields[i + 1];
    }
  }

  /** As many fields with the same bytes as NUL-free ones are NUL-free too. */
  lemma SameBytesNulFree(fields: seq<seq<byte>>, others: seq<seq<byte>>)
    requires AllNulFree(fields) && |fields| == |others| && Separated(fields) == Separated(others)
    ensures AllNulFree(others)
  {
    ZerosOfSeparated(fields);
    ZerosOfSeparated(others);
    NoZerosWithin(fields);
    NoZerosWithin(others);
  }

  lemma FieldsNulFree(d: BundleDescriptor)
    requires AllNulFree(DescriptorFields(d))
    ensures NulFreeDescriptor(d)
  {
    hide Utf8, Decimal, NulFree, Free;
    var f := DescriptorFields(d);
    assert NulFree(f[1]) && NulFree(f[2]) && NulFree(f[3]) && NulFree(f[4]) && NulFree(f[5]);
    Utf8NulFree(d.bundleId);
    Utf8NulFree(d.name);
    Utf8NulFree(d.version);
    Utf8NulFree(d.format);
    Utf8NulFree(d.sha256Hex);
  }

  lemma NulFreeIsToldApart(d: BundleDescriptor, e: BundleDescriptor)
    requires NulFreeDescriptor(d) && SigningBytes(d) == SigningBytes(e)
    ensures d == e
  {
    hide Utf8, Separated, Decimal, AllNulFree, NulFreeDescriptor;
    SamePrefix(Utf8(SIGNATURE_DOMAIN), Separated(DescriptorFields(d)), Separated(DescriptorFields(e)));
    DescriptorNulFree(d);
    SameBytesNulFree(DescriptorFields(d), DescriptorFields(e));
    FieldsNulFree(e);
    SigningBytesInjective(d, e);
  }

  lemma CutAtNul(s: string) returns (a: string, b: string)
    requires !Free(s, {'\0'})
    ensures s == a + "\0" + b
  {
    var i :| 0 <= i < |s| && s[i] in {'\0'};
    a, b := s[..i], s[i + 1..];
    assert s == s[..i] + [s[i]] + s[i + 1..];
  }

  /** Another descriptor with the bytes of one that has a NUL in the field before `z`. */
  lemma SameBytes(d: BundleDescriptor, e: BundleDescriptor, before: seq<seq<byte>>, a: string, b: string, z: string,
                  after: seq<seq<byte>>)
    requires DescriptorFields(d) == before + [Utf8(a + "\0" + b), Utf8(z)] + after
    requires DescriptorFields(e) == before + [Utf8(a), Utf8(b + "\0" + z)] + after
    ensures SigningBytes(d) == SigningBytes(e)
  {
    hide Utf8, Separated, DescriptorFields;
    Utf8AroundNul(a, b);
    Utf8AroundNul(b, z);
    BoundaryMoves(before, Utf8(a), Utf8(b), Utf8(z), after);
  }

  /** With a NUL in some field there is another descriptor with the same bytes. */
  lemma NulHasADouble(d: BundleDescriptor) returns (e: BundleDescriptor)
    requires !NulFreeDescriptor(d)
    ensures SigningBytes(e) == SigningBytes(d) && e != d
  {
    hide Utf8, Decimal, SigningBytes;
    var f := DescriptorFields(d);
    var a, b;
    if !Free(d.bundleId, {'\0'}) {
      a, b := CutAtNul(d.bundleId);
      e := d.(bundleId := a, name := b + "\0" + d.name);
      SameBytes(d, e, f[..1], a, b, d.name, f[3..]);
    } else if !Free(d.name, {'\0'}) {
      a, b := CutAtNul(d.name);
      e := d.(name := a, version := b + "\0" + d.version);
      SameBytes(d, e, f[..2], a, b, d.version, f[4..]);
    } else if !Free(d.version, {'\0'}) {
      a, b := CutAtNul(d.version);
      e := d.(version := a, format := b + "\0" + d.format);
      SameBytes(d, e, f[..3], a, b, d.format, f[5..]);
    } else if !Free(d.format, {'\0'}) {
      a, b := CutAtNul(d.format);
      e := d.(format := a, sha256Hex := b + "\0" + d.sha256Hex);
      SameBytes(d, e, f[..4], a, b, d.sha256Hex, []);
    } else {
      a, b := CutAtNul(d.sha256Hex);
      e := d.(format := d.format + "\0" + a, sha256Hex := b);
      SameBytes(e, d, f[..4], d.format, a, b, []);
    }
  }

  /** A signature for a bundle is a signature for no other if and only if no field of the
      bundle holds a NUL, whatever the fields of the others hold. */
  lemma ToldApartIffNulFree(d: BundleDescriptor)
    ensures NulFreeDescriptor(d) <==> forall e :: SigningBytes(e) == SigningBytes(d) ==> e == d
  {
    hide SigningBytes, NulFreeDescriptor;
    if NulFreeDescriptor(d) {
      forall e | SigningBytes(e) == SigningBytes(d) ensures e == d {
        NulFreeIsToldApart(d, e);
      }
    } else {
      var e := NulHasADouble(d);
      assert SigningBytes(e) == SigningBytes(d) && e != d;
    }
  }

  // ---- Associated data ----

  const AEAD_DOMAIN := "nsclient-fleet/aead/v1"

  datatype Purpose =
    | TenantCaKey(tenantId: int)
    | TenantBundleSigningKey(tenantId: int)
    | HostOverride(tenantId: int, hostId: string)

  function KindOf(p: Purpose): string {
    match p
    case TenantCaKey(_) => "tenant_ca_key"
    case TenantBundleSigningKey(_) => "tenant_bundle_signing_key"
    case HostOverride(_, _) => "host_override"
  }

  function PurposeFields(p: Purpose): seq<seq<byte>> {
    [Utf8(KindOf(p)), Utf8(Decimal(p.tenantId))] + if p.HostOverride? then [Utf8(p.hostId)] else []
  }

  function Aad(p: Purpose): seq<byte> {
    Utf8(AEAD_DOMAIN) + Separated(PurposeFields(p))
  }

  method AppendField(start: seq<byte>, bytes: seq<byte>, ghost fields: seq<seq<byte>>) returns (out: seq<byte>)
    requires start == Utf8(AEAD_DOMAIN) + Separated(fields)
    ensures out == Utf8(AEAD_DOMAIN) + Separated(fields + [bytes])
  {
    hide Utf8, Separated;
    SeparatedSnoc(fields, bytes);
    out := start + [0];
    out := out + bytes;
  }

  /** `aad`. */
  method ToAad(p: Purpose) returns (out: seq<byte>)
    ensures out == Aad(p)
  {
    hide Utf8, Decimal, KindOf;
    out := Utf8(AEAD_DOMAIN);
    assert Separated([]) == [];
    hide Separated;
    out := AppendField(out, Utf8(KindOf(p)), []);
    out := AppendField(out, Utf8(Decimal(p.tenantId)), [] + [Utf8(KindOf(p))]);
    assert PurposeFields(p)[..2] == [] + [Utf8(KindOf(p))] + [Utf8(Decimal(p.tenantId))];
    match p
    case HostOverride(_, hostId) =>
      out := AppendField(out, Utf8(hostId), [] + [Utf8(KindOf(p))] + [Utf8(Decimal(p.tenantId))]);
      assert PurposeFields(p) == [] + [Utf8(KindOf(p))] + [Utf8(Decimal(p.tenantId))] + [Utf8(hostId)];
    case _ =>
      assert PurposeFields(p) == [] + [Utf8(KindOf(p))] + [Utf8(Decimal(p.tenantId))];
  }

  lemma KindTells(p: Purpose, q: Purpose)
    ensures KindOf(p) == KindOf(q) <==> (p.TenantCaKey? == q.TenantCaKey? && p.HostOverride? == q.HostOverride?)
    ensures Free(KindOf(p), {'\0'})
  {
    assert KindOf(p)[0] == 'h' <==> p.HostOverride?;
    assert KindOf(q)[0] == 'h' <==> q.HostOverride?;
    assert |KindOf(p)| == 25 <==> p.TenantBundleSigningKey?;
    assert |KindOf(q)| == 25 <==> q.TenantBundleSigningKey?;
  }

  /** What comes after the kind and the tenant. */
  function HostField(p: Purpose): seq<byte> {
    if p.HostOverride? then [0] + Utf8(p.hostId) else []
  }

  lemma PurposeParts(p: Purpose)
    ensures Separated(PurposeFields(p)) == [0] + (Utf8(KindOf(p)) + ([0] + (Utf8(Decimal(p.tenantId)) + HostField(p))))
    ensures NulFree(Utf8(KindOf(p))) && NulFree(Utf8(Decimal(p.tenantId)))
  {
    hide Utf8, Decimal, KindOf;
    KindTells(p, p);
    Utf8NulFree(KindOf(p));
    DecimalFree(p.tenantId);
    Utf8NulFree(Decimal(p.tenantId));
    var k, n := Utf8(KindOf(p)), Utf8(Decimal(p.tenantId));
    SeparatedPair(k, n);
    assert [0] + k + [0] + n + HostField(p) == [0] + (k + ([0] + (n + HostField(p))));
    if p.HostOverride? {
      SeparatedSnoc([k, n], Utf8(p.hostId));
      assert [0] + k + [0] + n + [0] + Utf8(p.hostId) == [0] + k + [0] + n + HostField(p);
    } else {
      assert PurposeFields(p) == [k, n];
    }
  }

  lemma AfterNul(x: seq<byte>, y: seq<byte>)
    requires [0] + x == [0] + y
    ensures x == y
  {
    assert ([0] + x)[1..] == x && ([0] + y)[1..] == y;
  }

  /** A ciphertext opens only for the purpose it was sealed for, whatever the host is called. */
  lemma AadInjective(p: Purpose, q: Purpose)
    ensures Aad(p) == Aad(q) <==> p == q
  {
    hide Utf8, Separated, Decimal, KindOf, NulFree, PurposeFields;
    if Aad(p) == Aad(q) {
      SamePrefix(Utf8(AEAD_DOMAIN), Separated(PurposeFields(p)), Separated(PurposeFields(q)));
      PurposeParts(p);
      PurposeParts(q);
      var m, n := Utf8(Decimal(p.tenantId)), Utf8(Decimal(q.tenantId));
      AfterNul(Utf8(KindOf(p)) + ([0] + (m + HostField(p))), Utf8(KindOf(q)) + ([0] + (n + HostField(q))));
      FieldUnique(Utf8(KindOf(p)), Utf8(KindOf(q)), [0] + (m + HostField(p)), [0] + (n + HostField(q)));
      AfterNul(m + HostField(p), n + HostField(q));
      FieldUnique(m, n, HostField(p), HostField(q));
      Utf8Injective(KindOf(p), KindOf(q));
      KindTells(p, q);
      Utf8Injective(Decimal(p.tenantId), Decimal(q.tenantId));
      DecimalInjective(p.tenantId, q.tenantId);
      if p.HostOverride? {
        AfterNul(Utf8(p.hostId), Utf8(q.hostId));
        Utf8Injective(p.hostId, q.hostId);
      }
    }
  }
}
