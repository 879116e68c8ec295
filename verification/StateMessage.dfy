/**
 A reader of the message under the state hash: a configuration, then bundles of seven fields
 each, every field after its length. It gives back the state the message was written for.
 */
module StateMessages {
  import opened JsonModel
  import opened Text
  import opened Canonical
  import opened JsonReaders
  import opened DesiredStates

  /** The number in some bytes, least significant first. */
  function FromBytes(b: seq<byte>): nat {
    if b == [] then 0 else b[0] as int + 256 * FromBytes(b[1..])
  }

  /** Two's complement in eight bytes. */
  function FromI64Bytes(b: seq<byte>): int {
    var n := FromBytes(b);
    if n < 0x8000_0000_0000_0000 then n else n - 0x1_0000_0000_0000_0000
  }

  lemma {:induction false} BytesRead(n: nat, k: nat)
    requires n < Power256(k)
    ensures FromBytes(LittleEndian(n, k)) == n
  {
    if k == 0 {
    } else {
      BytesRead(n / 256, k - 1);
      assert LittleEndian(n, k)[1..] == LittleEndian(n / 256, k - 1);
    }
  }

  lemma I64Reads(n: int)
    requires IsI64(n)
    ensures |I64Bytes(n)| == 8 && FromI64Bytes(I64Bytes(n)) == n
  {
    hide LittleEndian, FromBytes, Power256;
    EightBytes();
    BytesRead(n % TWO_64, 8);
  }

  /** The fields, each after its length. */
  function ReadFields(msg: seq<byte>): Option<seq<seq<byte>>>
    decreases |msg|
  {
    if msg == [] then Some([])
    else if |msg| < 8 then None
    else
      var size, after := FromBytes(msg[..8]), msg[8..];
      if |after| < size then None
      else match ReadFields(after[size..]) case Some(more) => Some([after[..size]] + more) case None => None
  }

  lemma FieldReads(field: seq<byte>, rest: seq<byte>)
    requires |field| < TWO_64
    ensures ReadFields(LittleEndian(|field|, 8) + field + rest) ==
            match ReadFields(rest) case Some(more) => Some([field] + more) case None => None
  {
    EightBytes();
    BytesRead(|field|, 8);
    hide LittleEndian, FromBytes, Power256;
    var length := LittleEndian(|field|, 8);
    AssocBytes(length, field, rest);
    var msg := length + (field + rest);
    assert msg[..8] == length && msg[8..] == field + rest;
    assert (field + rest)[..|field|] == field && (field + rest)[|field|..] == rest;
  }

  lemma {:induction false} FieldsRead(fields: seq<seq<byte>>)
    requires Storable(fields)
    ensures ReadFields(Framed(fields)) == Some(fields)
  {
    if fields == [] {
    } else {
      hide ReadFields, LittleEndian;
      assert Storable(fields[1..]);
      FieldReads(fields[0], Framed(fields[1..]));
      FieldsRead(fields[1..]);
      assert fields == [fields[0]] + fields[1..];
    }
  }

  function ReadBundle(f: seq<seq<byte>>): Option<DesiredBundle>
    requires |f| == 7
  {
    match (ReadUtf8(f[0]), ReadUtf8(f[1]), ReadUtf8(f[2]), ReadUtf8(f[3]), ReadUtf8(f[4]), ReadUtf8(f[5]))
    case (Some(id), Some(name), Some(version), Some(format), Some(sha256), Some(signature)) =>
      Some(DesiredBundle(id, name, version, format, sha256, signature, FromI64Bytes(f[6])))
    case _ => None
  }

  function ReadBundles(fields: seq<seq<byte>>): Option<seq<DesiredBundle>>
    decreases |fields|
  {
    if fields == [] then Some([])
    else if |fields| < 7 then None
    else
      match (ReadBundle(fields[..7]), ReadBundles(fields[7..]))
      case (Some(b), Some(more)) => Some([b] + more)
      case _ => None
  }

  /** The configuration and the bundles, in their order. */
  function ReadMessage(msg: seq<byte>): Option<(Json, seq<DesiredBundle>)> {
    match ReadFields(msg)
    case None => None
    case Some(fields) =>
      if fields == [] then None
      else
        match ReadUtf8(fields[0])
        case None => None
        case Some(text) =>
          match (ReadDocument(text), ReadBundles(fields[1..]))
          case (Some(config), Some(bundles)) => Some((config, bundles))
          case _ => None
  }

  lemma BundleReads(b: DesiredBundle)
    requires IsI64(b.priority)
    ensures ReadBundle(BundleFields(b)) == Some(b)
  {
    hide Utf8, ReadUtf8, I64Bytes, FromI64Bytes;
    Utf8ReadsBack(b.id);
    Utf8ReadsBack(b.name);
    Utf8ReadsBack(b.version);
    Utf8ReadsBack(b.format);
    Utf8ReadsBack(b.sha256);
    Utf8ReadsBack(b.signature);
    I64Reads(b.priority);
  }

  lemma NextBundle(first: seq<seq<byte>>, more: seq<seq<byte>>)
    requires |first| == 7
    ensures ReadBundles(first + more) ==
            match (ReadBundle(first), ReadBundles(more)) case (Some(b), Some(bs)) => Some([b] + bs) case _ => None
  {
    hide ReadBundle;
    assert (first + more)[..7] == first && (first + more)[7..] == more;
  }

  lemma {:induction false} BundlesRead(bundles: seq<DesiredBundle>)
    requires Priorities64(bundles)
    ensures ReadBundles(AllFields(bundles)) == Some(bundles)
  {
    if bundles == [] {
    } else {
      hide ReadBundle, BundleFields, ReadBundles;
      BundleReads(bundles[0]);
      BundlesRead(bundles[1..]);
      NextBundle(BundleFields(bundles[0]), AllFields(bundles[1..]));
      assert bundles == [bundles[0]] + bundles[1..];
    }
  }

  /** The message under the state hash reads back as the configuration and the bundles. */
  lemma MessageReadsBack(config: Json, bundles: seq<DesiredBundle>)
    requires Hashable(config, bundles)
    ensures ReadMessage(Message(config, bundles)) == Some((config, bundles))
  {
    hide ReadFields, Framed, Utf8, ReadUtf8, Canon, ReadDocument, AllFields, ReadBundles;
    var fields := MessageFields(config, bundles);
    FieldsRead(fields);
    Utf8ReadsBack(Canon(config));
    CanonicalTextReadsBack(config);
    BundlesRead(bundles);
    assert fields[0] == Utf8(Canon(config)) && fields[1..] == AllFields(bundles);
  }
}
