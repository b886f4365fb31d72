// The binary data record of DocInfo (Table 17 of the format,
// crates/hwp-core/src/document/docinfo/bin_data.rs): a WORD of attributes
// whose low four bits say where the data lives, then, for a link, two
// length-prefixed paths, for an embedding, a storage id and a
// length-prefixed extension, and for a storage, a storage id alone.

module BinData {
  import opened Bytes
  import opened Errors
  import opened Utf16
  import opened BitFlags
  import FaceName

  datatype BinDataStorageType = Link | Embedding | Storage

  datatype CompressionType = StorageDefault | Compress | NoCompress

  datatype AccessState = Never | Success | Failed | FailedIgnored

  datatype BinDataAttributes = BinDataAttributes(
    storageType: BinDataStorageType, compression: CompressionType, access: AccessState)

  datatype BinDataLink = BinDataLink(absolutePath: string, relativePath: string)

  datatype BinDataEmbedding = BinDataEmbedding(binaryDataId: u16, extension: string)

  datatype BinDataStorage = BinDataStorage(binaryDataId: u16)

  datatype BinDataRecord =
    | LinkRecord(attributes: BinDataAttributes, link: BinDataLink)
    | EmbeddingRecord(attributes: BinDataAttributes, embedding: BinDataEmbedding)
    | StorageRecord(attributes: BinDataAttributes, storage: BinDataStorage)

  // BinDataStorageType::from_u16 on the low four bits: only 1 and 2 are
  // named, and every other value falls back to Link.
  function StorageTypeOf(v: u16): (t: BinDataStorageType)
    ensures t == Embedding <==> v % 0x10 == 1
    ensures t == Storage <==> v % 0x10 == 2
    ensures t == Link <==> v % 0x10 != 1 && v % 0x10 != 2
  {
    match v % 0x10
    case 1 => Embedding
    case 2 => Storage
    case _ => Link
  }

  // CompressionType::from_u16 on bits 4-5: the value 3 falls back to the
  // storage default.
  function CompressionOf(v: u16): (c: CompressionType)
    ensures c == Compress <==> v / 0x10 % 4 == 1
    ensures c == NoCompress <==> v / 0x10 % 4 == 2
    ensures c == StorageDefault <==> v / 0x10 % 4 == 0 || v / 0x10 % 4 == 3
  {
    match v / 0x10 % 4
    case 1 => Compress
    case 2 => NoCompress
    case _ => StorageDefault
  }

  // AccessState::from_u16 on bits 8-9: all four values are named.
  function AccessOf(v: u16): (a: AccessState)
    ensures a == Never <==> v / 0x100 % 4 == 0
    ensures a == Success <==> v / 0x100 % 4 == 1
    ensures a == Failed <==> v / 0x100 % 4 == 2
    ensures a == FailedIgnored <==> v / 0x100 % 4 == 3
  {
    match v / 0x100 % 4
    case 0 => Never
    case 1 => Success
    case 2 => Failed
    case _ => FailedIgnored
  }

  function AttributesOf(v: u16): (a: BinDataAttributes)
    ensures a.storageType == StorageTypeOf(v) && a.compression == CompressionOf(v) && a.access == AccessOf(v)
  {
    BinDataAttributes(StorageTypeOf(v), CompressionOf(v), AccessOf(v))
  }

  function StorageTypeBits(t: BinDataStorageType): (v: nat)
    ensures v < 3
  {
    match t
    case Link => 0
    case Embedding => 1
    case Storage => 2
  }

  function CompressionBits(c: CompressionType): (v: nat)
    ensures v < 3
  {
    match c
    case StorageDefault => 0
    case Compress => 1
    case NoCompress => 2
  }

  function AccessBits(a: AccessState): (v: nat)
    ensures v < 4
  {
    match a
    case Never => 0
    case Success => 1
    case Failed => 2
    case FailedIgnored => 3
  }

  // The attribute WORD a writer stores.
  function AttributeBits(a: BinDataAttributes): (v: u16)
    ensures v < 0x400
  {
    StorageTypeBits(a.storageType) + 0x10 * CompressionBits(a.compression) + 0x100 * AccessBits(a.access)
  }

  // Every attribute value is written by exactly the bits it reads back from.
  lemma AttributesRoundTrip(a: BinDataAttributes)
    ensures AttributesOf(AttributeBits(a)) == a
  {
    var s, c, x := StorageTypeBits(a.storageType), CompressionBits(a.compression), AccessBits(a.access);
    var v := AttributeBits(a);
    FieldIn(v, 0, 1, s, 0x10, c + 0x10 * x);
    FieldIn(v, s, 0x10, c, 4, 4 * x);
    FieldIn(v, s + 0x10 * c, 0x100, x, 4, 0);
  }

  // Bits 6-7 and 10-15 are not read.
  lemma AttributesIgnoreOtherBits(v: u16, w: u16)
    requires v % 0x10 == w % 0x10 && v / 0x10 % 4 == w / 0x10 % 4 && v / 0x100 % 4 == w / 0x100 % 4
    ensures AttributesOf(v) == AttributesOf(w)
  {
  }

  // The link payload after the attribute WORD: two length-prefixed paths.
  function LinkAt(data: seq<byte>, a: BinDataAttributes): (r: Result<BinDataRecord>)
    requires |data| >= 2
    ensures |data| < 4 ==> r == Err(InsufficientData("BinDataRecord LINK absolute path length", 2, |data| - 2))
    ensures r.Ok? ==> r.value.LinkRecord? && r.value.attributes == a && |data| >= 4
    ensures r.Ok? ==>
      var abs := FaceName.WcharsAt(data, 4, U16(data, 2), "BinDataRecord LINK absolute path");
      |data| >= 4 && r.value.LinkRecord? && abs.Ok? && abs.value.0 == r.value.link.absolutePath &&
      abs.value.1 + 2 <= |data| &&
      FaceName.WcharsAt(data, abs.value.1 + 2, U16(data, abs.value.1), "BinDataRecord LINK relative path").Ok? &&
      FaceName.WcharsAt(data, abs.value.1 + 2, U16(data, abs.value.1), "BinDataRecord LINK relative path").value.0 ==
        r.value.link.relativePath
  {
    if |data| < 4 then Err(InsufficientData("BinDataRecord LINK absolute path length", 2, |data| - 2))
    else
      match FaceName.WcharsAt(data, 4, U16(data, 2), "BinDataRecord LINK absolute path")
      case Err(e) => Err(e)
      case Ok((absolutePath, o)) =>
        if |data| < o + 2 then Err(InsufficientData("BinDataRecord LINK relative path length", 2, |data| - o))
        else
          match FaceName.WcharsAt(data, o + 2, U16(data, o), "BinDataRecord LINK relative path")
          case Err(e) => Err(e)
          case Ok((relativePath, _)) => Ok(LinkRecord(a, BinDataLink(absolutePath, relativePath)))
  }

  // The embedding payload: a storage id and a length-prefixed extension.
  function EmbeddingAt(data: seq<byte>, a: BinDataAttributes): (r: Result<BinDataRecord>)
    requires |data| >= 2
    ensures |data| < 4 ==> r == Err(InsufficientData("BinDataRecord EMBEDDING binary_data_id", 2, |data| - 2))
    ensures 4 <= |data| < 6 ==> r == Err(InsufficientData("BinDataRecord EMBEDDING extension length", 2, |data| - 4))
    ensures r.Ok? ==> r.value.EmbeddingRecord? && r.value.attributes == a && |data| >= 6
    ensures r.Ok? ==> r.value.EmbeddingRecord? && |data| >= 6 && r.value.embedding.binaryDataId == U16(data, 2)
    ensures r.Ok? ==>
      r.value.EmbeddingRecord? && |data| >= 6 &&
      FaceName.WcharsAt(data, 6, U16(data, 4), "BinDataRecord EMBEDDING extension").Ok? &&
      FaceName.WcharsAt(data, 6, U16(data, 4), "BinDataRecord EMBEDDING extension").value.0 == r.value.embedding.extension
  {
    if |data| < 4 then Err(InsufficientData("BinDataRecord EMBEDDING binary_data_id", 2, |data| - 2))
    else if |data| < 6 then Err(InsufficientData("BinDataRecord EMBEDDING extension length", 2, |data| - 4))
    else
      match FaceName.WcharsAt(data, 6, U16(data, 4), "BinDataRecord EMBEDDING extension")
      case Err(e) => Err(e)
      case Ok((extension, _)) => Ok(EmbeddingRecord(a, BinDataEmbedding(U16(data, 2), extension)))
  }

  // BinDataRecord::parse: the payload the storage type announces.
  function BinDataOf(data: seq<byte>): (r: Result<BinDataRecord>)
    ensures |data| < 2 ==> r == Err(InsufficientData("BinDataRecord attributes", 2, |data|))
    ensures r.Ok? ==> |data| >= 2 && r.value.attributes == AttributesOf(U16(data, 0))
    ensures r.Ok? ==> (r.value.LinkRecord? <==> AttributesOf(U16(data, 0)).storageType == Link)
    ensures r.Ok? ==> (r.value.EmbeddingRecord? <==> AttributesOf(U16(data, 0)).storageType == Embedding)
    ensures r.Ok? ==> (r.value.StorageRecord? <==> AttributesOf(U16(data, 0)).storageType == Storage)
    ensures r.Err? && r.error.EncodingError? ==> AttributesOf(U16(data, 0)).storageType != Storage
  {
    if |data| < 2 then Err(InsufficientData("BinDataRecord attributes", 2, |data|))
    else
      var a := AttributesOf(U16(data, 0));
      match a.storageType
      case Link => LinkAt(data, a)
      case Embedding => EmbeddingAt(data, a)
      case Storage =>
        if |data| < 4 then Err(InsufficientData("BinDataRecord STORAGE binary_data_id", 2, |data| - 2))
        else Ok(StorageRecord(a, BinDataStorage(U16(data, 2))))
  }

  // A storage record needs exactly four bytes, whatever follows them.
  lemma StorageRecordNeedsFourBytes(data: seq<byte>)
    requires |data| >= 2 && StorageTypeOf(U16(data, 0)) == Storage
    ensures BinDataOf(data).Ok? <==> |data| >= 4
    ensures BinDataOf(data).Ok? ==> BinDataOf(data).value.storage.binaryDataId == U16(data, 2)
  {
  }

  // BinDataRecord::parse with its running offset.
  method ParseBinData(data: seq<byte>) returns (r: Result<BinDataRecord>)
    ensures r == BinDataOf(data)
  {
    if |data| < 2 {
      return Err(InsufficientData("BinDataRecord attributes", 2, |data|));
    }
    var offset: nat := 0;
    var attrValue := U16(data, offset);
    offset := offset + 2;
    var attributes := AttributesOf(attrValue);
    match attributes.storageType {
      case Link =>
        r := ParseLink(data, attributes);
      case Embedding =>
        r := ParseEmbedding(data, attributes);
      case Storage =>
        if |data| < offset + 2 {
          return Err(InsufficientData("BinDataRecord STORAGE binary_data_id", 2, |data| - offset));
        }
        var binaryDataId := U16(data, offset);
        r := Ok(StorageRecord(attributes, BinDataStorage(binaryDataId)));
    }
  }

  // The LINK branch of the parse, from offset 2.
  method ParseLink(data: seq<byte>, attributes: BinDataAttributes) returns (r: Result<BinDataRecord>)
    requires |data| >= 2
    ensures r == LinkAt(data, attributes)
  {
    var offset: nat := 2;
    if |data| < offset + 2 {
      return Err(InsufficientData("BinDataRecord LINK absolute path length", 2, |data| - offset));
    }
    var len1: nat := U16(data, offset);
    offset := offset + 2;
    var absolutePath := FaceName.WcharsAt(data, offset, len1, "BinDataRecord LINK absolute path");
    if absolutePath.Err? {
      return Err(absolutePath.error);
    }
    offset := absolutePath.value.1;
    if |data| < offset + 2 {
      return Err(InsufficientData("BinDataRecord LINK relative path length", 2, |data| - offset));
    }
    var len2: nat := U16(data, offset);
    offset := offset + 2;
    var relativePath := FaceName.WcharsAt(data, offset, len2, "BinDataRecord LINK relative path");
    if relativePath.Err? {
      return Err(relativePath.error);
    }
    r := Ok(LinkRecord(attributes, BinDataLink(absolutePath.value.0, relativePath.value.0)));
  }

  // The EMBEDDING branch of the parse, from offset 2.
  method ParseEmbedding(data: seq<byte>, attributes: BinDataAttributes) returns (r: Result<BinDataRecord>)
    requires |data| >= 2
    ensures r == EmbeddingAt(data, attributes)
  {
    var offset: nat := 2;
    if |data| < offset + 2 {
      return Err(InsufficientData("BinDataRecord EMBEDDING binary_data_id", 2, |data| - offset));
    }
    var binaryDataId := U16(data, offset);
    offset := offset + 2;
    if |data| < offset + 2 {
      return Err(InsufficientData("BinDataRecord EMBEDDING extension length", 2, |data| - offset));
    }
    var len3: nat := U16(data, offset);
    offset := offset + 2;
    var extension := FaceName.WcharsAt(data, offset, len3, "BinDataRecord EMBEDDING extension");
    if extension.Err? {
      return Err(extension.error);
    }
    r := Ok(EmbeddingRecord(attributes, BinDataEmbedding(binaryDataId, extension.value.0)));
  }

  // The writer side: the payload matches the storage type, and every name
  // has fewer than 0x10000 UTF-16 units.
  predicate WellFormedBinData(b: BinDataRecord)
  {
    match b
    case LinkRecord(a, l) => a.storageType == Link && FaceName.Short(l.absolutePath) && FaceName.Short(l.relativePath)
    case EmbeddingRecord(a, e) => a.storageType == Embedding && FaceName.Short(e.extension)
    case StorageRecord(a, _) => a.storageType == Storage
  }

  function EncodeBinData(b: BinDataRecord): seq<byte>
    requires WellFormedBinData(b)
  {
    match b
    case LinkRecord(a, l) =>
      Le16(AttributeBits(a)) + (FaceName.EncodeWchars(l.absolutePath) + FaceName.EncodeWchars(l.relativePath))
    case EmbeddingRecord(a, e) => Le16(AttributeBits(a)) + (Le16(e.binaryDataId) + FaceName.EncodeWchars(e.extension))
    case StorageRecord(a, s) => Le16(AttributeBits(a)) + Le16(s.binaryDataId)
  }

  // The attribute WORD at the front of an encoding.
  lemma AttributesAtFront(b: BinDataRecord, rest: seq<byte>)
    requires WellFormedBinData(b)
    ensures var d := EncodeBinData(b) + rest; |d| >= 2 && AttributesOf(U16(d, 0)) == b.attributes
  {
    var d := EncodeBinData(b) + rest;
    var t := d[2..];
    assert d == [] + Le16(AttributeBits(b.attributes)) + t;
    Le16Read([], AttributeBits(b.attributes), t);
    AttributesRoundTrip(b.attributes);
  }

  // LinkAt once both paths are known.
  lemma LinkFields(data: seq<byte>, a: BinDataAttributes, abs: string, o: nat, rel: string, m: nat)
    requires |data| >= 4 && FaceName.WcharsAt(data, 4, U16(data, 2), "BinDataRecord LINK absolute path") == Ok((abs, o))
    requires o + 2 <= |data|
    requires FaceName.WcharsAt(data, o + 2, U16(data, o), "BinDataRecord LINK relative path") == Ok((rel, m))
    ensures LinkAt(data, a) == Ok(LinkRecord(a, BinDataLink(abs, rel)))
  {
  }

  // The relative path reads back once the absolute path has been read up to o.
  lemma RelativePathRead(d: seq<byte>, a: BinDataAttributes, l: BinDataLink, o: nat, rest: seq<byte>)
    requires FaceName.Short(l.relativePath)
    requires |d| >= 4 && FaceName.WcharsAt(d, 4, U16(d, 2), "BinDataRecord LINK absolute path") == Ok((l.absolutePath, o))
    requires o <= |d| && d[o..] == FaceName.EncodeWchars(l.relativePath) + rest
    ensures LinkAt(d, a) == Ok(LinkRecord(a, l))
  {
    FaceName.WcharsRead(d, o, l.relativePath, rest, "BinDataRecord LINK relative path");
    LinkFields(d, a, l.absolutePath, o, l.relativePath, o + |FaceName.EncodeWchars(l.relativePath)|);
  }

  lemma LinkRoundTrip(a: BinDataAttributes, l: BinDataLink, rest: seq<byte>)
    requires WellFormedBinData(LinkRecord(a, l))
    ensures var d := EncodeBinData(LinkRecord(a, l)) + rest; |d| >= 2 && LinkAt(d, a) == Ok(LinkRecord(a, l))
  {
    var d := EncodeBinData(LinkRecord(a, l)) + rest;
    var rel := FaceName.EncodeWchars(l.relativePath) + rest;
    var p := FaceName.EncodeWchars(l.absolutePath) + rel;
    assert d[0..] == Le16(AttributeBits(a)) + p;
    SliceAfter(d, 0, Le16(AttributeBits(a)), p);
    FaceName.WcharsRead(d, 2, l.absolutePath, rel, "BinDataRecord LINK absolute path");
    RelativePathRead(d, a, l, 2 + |FaceName.EncodeWchars(l.absolutePath)|, rest);
  }

  lemma EmbeddingRoundTrip(a: BinDataAttributes, e: BinDataEmbedding, rest: seq<byte>)
    requires WellFormedBinData(EmbeddingRecord(a, e))
    ensures var d := EncodeBinData(EmbeddingRecord(a, e)) + rest;
      |d| >= 2 && EmbeddingAt(d, a) == Ok(EmbeddingRecord(a, e))
  {
    var d := EncodeBinData(EmbeddingRecord(a, e)) + rest;
    var ext := FaceName.EncodeWchars(e.extension) + rest;
    assert d == Le16(AttributeBits(a)) + Le16(e.binaryDataId) + ext;
    Le16Read(Le16(AttributeBits(a)), e.binaryDataId, ext);
    assert d[4..] == ext;
    FaceName.WcharsRead(d, 4, e.extension, rest, "BinDataRecord EMBEDDING extension");
  }

  lemma StorageRoundTrip(a: BinDataAttributes, s: BinDataStorage, rest: seq<byte>)
    requires WellFormedBinData(StorageRecord(a, s))
    ensures var d := EncodeBinData(StorageRecord(a, s)) + rest; |d| >= 4 && U16(d, 2) == s.binaryDataId
  {
    var d := EncodeBinData(StorageRecord(a, s)) + rest;
    assert d == Le16(AttributeBits(a)) + Le16(s.binaryDataId) + rest;
    Le16Read(Le16(AttributeBits(a)), s.binaryDataId, rest);
  }

  // Every well-formed record, followed by anything, reads back as itself.
  lemma BinDataRoundTrip(b: BinDataRecord, rest: seq<byte>)
    requires WellFormedBinData(b)
    ensures BinDataOf(EncodeBinData(b) + rest) == Ok(b)
  {
    AttributesAtFront(b, rest);
    match b
    case LinkRecord(a, l) => LinkRoundTrip(a, l, rest);
    case EmbeddingRecord(a, e) => EmbeddingRoundTrip(a, e, rest);
    case StorageRecord(a, s) => StorageRoundTrip(a, s, rest);
  }
}
