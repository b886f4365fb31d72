// The DocInfo stream (crates/hwp-core/src/document/docinfo/mod.rs), after
// decompression: records are read one after another; each record's tag and
// level decide whether it is parsed, kept as raw bytes or skipped.
// Document properties and ID mappings count only at level 0, the list
// records only at level 1, and unknown tags are skipped.

module DocInfo {
  import opened Bytes
  import opened Errors
  import opened HwpTypes
  import opened RecordTree
  import DocumentProperties
  import IdMappings
  import FaceName
  import BorderFill
  import CharShape
  import TabDef
  import Numbering

  // The DocInfo tags, HWPTAG_BEGIN (0x10) plus 0 to 10.
  const DocumentPropertiesTag: nat := 0x10
  const IdMappingsTag: nat := 0x11
  const BinDataTag: nat := 0x12
  const FaceNameTag: nat := 0x13
  const BorderFillTag: nat := 0x14
  const CharShapeTag: nat := 0x15
  const TabDefTag: nat := 0x16
  const NumberingTag: nat := 0x17
  const BulletTag: nat := 0x18
  const ParaShapeTag: nat := 0x19
  const StyleTag: nat := 0x1A

  datatype DocInfo = DocInfo(
    documentProperties: Option<DocumentProperties.DocumentProperties>,
    idMappings: Option<IdMappings.IdMappings>,
    binData: seq<seq<byte>>,
    faceNames: seq<FaceName.FaceName>,
    borderFill: seq<BorderFill.BorderFill>,
    charShapes: seq<CharShape.CharShape>,
    tabDefs: seq<TabDef.TabDef>,
    numbering: seq<Numbering.Numbering>,
    bullets: seq<seq<byte>>,
    paraShapes: seq<seq<byte>>,
    styles: seq<seq<byte>>)

  const EmptyDocInfo := DocInfo(None, None, [], [], [], [], [], [], [], [], [])

  // DocInfo::parse fails with a string; the model keeps what it is made of.
  datatype DocInfoError =
    | RecordFailure(error: HwpError)
    | DataBeyondStream(offset: nat, size: nat, streamLength: nat)

  datatype DocInfoResult = Parsed(info: DocInfo) | Failed(reason: DocInfoError)

  // The record parsers the loop calls. The loop and its lemmas are stated
  // for any table of parsers; HwpDecoders is the table DocInfo::parse uses.
  datatype Decoders = Decoders(
    documentProperties: seq<byte> -> Result<DocumentProperties.DocumentProperties>,
    idMappings: seq<byte> -> Result<IdMappings.IdMappings>,
    faceName: seq<byte> -> Result<FaceName.FaceName>,
    borderFill: seq<byte> -> Result<BorderFill.BorderFill>,
    charShape: seq<byte> -> Result<CharShape.CharShape>,
    tabDef: seq<byte> -> Result<TabDef.TabDef>,
    numbering: (seq<byte>, u32) -> Result<Numbering.Numbering>)

  const HwpDecoders := Decoders(
    DocumentProperties.DocumentPropertiesOf, IdMappings.IdMappingsOf, FaceName.FaceNameOf,
    BorderFill.BorderFillOf, CharShape.CharShapeOf, TabDef.TabDefOf, Numbering.NumberingOf)

  // The tags DocInfo::parse acts on.
  predicate KnownTag(t: nat)
  {
    DocumentPropertiesTag <= t <= StyleTag
  }

  // The tags whose level-0 record is parsed into a single field.
  predicate HeadTag(t: nat)
  {
    t == DocumentPropertiesTag || t == IdMappingsTag
  }

  // The match on the tag for one record with header h and data d.
  function StoreRecord(dec: Decoders, info: DocInfo, h: RecordHeader, d: seq<byte>, version: u32): (r: DocInfoResult)
    ensures !KnownTag(h.tagId) ==> r == Parsed(info)
    ensures HeadTag(h.tagId) && h.level != 0 ==> r == Parsed(info)
    ensures KnownTag(h.tagId) && !HeadTag(h.tagId) && h.level != 1 ==> r == Parsed(info)
  {
    var t := h.tagId;
    if t == DocumentPropertiesTag then
      if h.level != 0 then Parsed(info)
      else match dec.documentProperties(d)
        case Err(e) => Failed(RecordFailure(e))
        case Ok(p) => Parsed(info.(documentProperties := Some(p)))
    else if t == IdMappingsTag then
      if h.level != 0 then Parsed(info)
      else match dec.idMappings(d)
        case Err(e) => Failed(RecordFailure(e))
        case Ok(m) => Parsed(info.(idMappings := Some(m)))
    else if !KnownTag(t) || h.level != 1 then Parsed(info)
    else if t == BinDataTag then Parsed(info.(binData := info.binData + [d]))
    else if t == FaceNameTag then
      match dec.faceName(d)
      case Err(e) => Failed(RecordFailure(e))
      case Ok(f) => Parsed(info.(faceNames := info.faceNames + [f]))
    else if t == BorderFillTag then
      match dec.borderFill(d)
      case Err(e) => Failed(RecordFailure(e))
      case Ok(b) => Parsed(info.(borderFill := info.borderFill + [b]))
    else if t == CharShapeTag then
      match dec.charShape(d)
      case Err(e) => Failed(RecordFailure(e))
      case Ok(c) => Parsed(info.(charShapes := info.charShapes + [c]))
    else if t == TabDefTag then
      match dec.tabDef(d)
      case Err(e) => Failed(RecordFailure(e))
      case Ok(x) => Parsed(info.(tabDefs := info.tabDefs + [x]))
    else if t == NumberingTag then
      match dec.numbering(d, version)
      case Err(e) => Failed(RecordFailure(e))
      case Ok(n) => Parsed(info.(numbering := info.numbering + [n]))
    else if t == BulletTag then Parsed(info.(bullets := info.bullets + [d]))
    else if t == ParaShapeTag then Parsed(info.(paraShapes := info.paraShapes + [d]))
    else Parsed(info.(styles := info.styles + [d]))
  }

  // The record loop from offset on, with the fields gathered so far.
  function DocInfoFrom(dec: Decoders, data: seq<byte>, offset: nat, version: u32, info: DocInfo): (r: DocInfoResult)
    requires offset <= |data|
    decreases |data| - offset
  {
    if offset == |data| then Parsed(info)
    else match ParseRecordHeader(data[offset..])
      case Err(e) => Failed(RecordFailure(e))
      case Ok((h, n)) =>
        if offset + n + h.size > |data| then Failed(DataBeyondStream(offset + n, h.size, |data|))
        else match StoreRecord(dec, info, h, data[offset + n..offset + n + h.size], version)
          case Failed(e) => Failed(e)
          case Parsed(next) => DocInfoFrom(dec, data, offset + n + h.size, version, next)
  }

  // DocInfo::parse on the decompressed stream.
  function DocInfoOf(data: seq<byte>, version: u32): DocInfoResult
  {
    DocInfoFrom(HwpDecoders, data, 0, version, EmptyDocInfo)
  }

  // StoreRecord over records in order, stopping at the first failure.
  function StoreAll(dec: Decoders, recs: seq<Record>, version: u32, info: DocInfo): DocInfoResult
    decreases |recs|
  {
    if |recs| == 0 then Parsed(info)
    else match StoreRecord(dec, info, recs[0].header, recs[0].data, version)
      case Failed(e) => Failed(e)
      case Parsed(next) => StoreAll(dec, recs[1..], version, next)
  }

  // The loop after one record has been stored.
  function Resume(dec: Decoders, data: seq<byte>, next: nat, version: u32, stored: DocInfoResult): DocInfoResult
    requires next <= |data|
  {
    match stored
    case Failed(e) => Failed(e)
    case Parsed(info) => DocInfoFrom(dec, data, next, version, info)
  }

  // One turn of the loop: the header, exactly `size` data bytes, and on to
  // offset + header size + size.
  lemma DocInfoStep(dec: Decoders, data: seq<byte>, offset: nat, version: u32, info: DocInfo, h: RecordHeader, n: nat)
    requires offset < |data| && ParseRecordHeader(data[offset..]) == Ok((h, n))
    ensures offset + n + h.size > |data| ==>
      DocInfoFrom(dec, data, offset, version, info) == Failed(DataBeyondStream(offset + n, h.size, |data|))
    ensures offset + n + h.size <= |data| ==>
      offset < offset + n + h.size &&
      DocInfoFrom(dec, data, offset, version, info) ==
        Resume(dec, data, offset + n + h.size, version, StoreRecord(dec, info, h, data[offset + n..offset + n + h.size], version))
  {
  }

  // The record loop visits exactly the records of the flat record sequence
  // that the BodyText tree builder reads, in order.
  lemma {:induction false} DocInfoFromRecords(dec: Decoders, data: seq<byte>, offset: nat, version: u32, info: DocInfo)
    requires offset <= |data| && Records(data, offset).Ok?
    ensures DocInfoFrom(dec, data, offset, version, info) == StoreAll(dec, Records(data, offset).value, version, info)
    decreases |data| - offset
  {
    if offset < |data| {
      var (h, n) := ParseRecordHeader(data[offset..]).value;
      var next := offset + n + h.size;
      var rec := Record(h, data[offset + n..next]);
      RecordsStep(data, offset, h, n);
      DocInfoStep(dec, data, offset, version, info, h, n);
      var rest := Records(data, next).value;
      assert Records(data, offset).value == [rec] + rest;
      assert ([rec] + rest)[1..] == rest;
      match StoreRecord(dec, info, h, rec.data, version)
      case Failed(e) =>
      case Parsed(i) =>
        DocInfoFromRecords(dec, data, next, version, i);
    }
  }

  // A stream DocInfo::parse accepts splits into records with nothing left
  // over.
  lemma {:induction false} DocInfoCoversRecords(dec: Decoders, data: seq<byte>, offset: nat, version: u32, info: DocInfo)
    requires offset <= |data| && DocInfoFrom(dec, data, offset, version, info).Parsed?
    ensures Records(data, offset).Ok?
    decreases |data| - offset
  {
    if offset < |data| {
      var (h, n) := ParseRecordHeader(data[offset..]).value;
      DocInfoStep(dec, data, offset, version, info, h, n);
      RecordsStep(data, offset, h, n);
      var i := StoreRecord(dec, info, h, data[offset + n..offset + n + h.size], version).info;
      DocInfoCoversRecords(dec, data, offset + n + h.size, version, i);
    }
  }

  // The records with a given tag at level 1, as raw bytes, in order.
  function RawRecords(recs: seq<Record>, tag: nat): (r: seq<seq<byte>>)
    ensures |r| <= |recs|
  {
    if |recs| == 0 then []
    else (if recs[0].header.tagId == tag && recs[0].header.level == 1 then [recs[0].data] else []) +
         RawRecords(recs[1..], tag)
  }

  // The raw-kept list for a tag.
  function RawField(info: DocInfo, tag: nat): seq<seq<byte>>
  {
    if tag == BinDataTag then info.binData
    else if tag == BulletTag then info.bullets
    else if tag == ParaShapeTag then info.paraShapes
    else info.styles
  }

  predicate RawTag(tag: nat)
  {
    tag == BinDataTag || tag == BulletTag || tag == ParaShapeTag || tag == StyleTag
  }

  // One record appends its bytes to the raw list of its own tag, when at
  // level 1, and leaves every raw list of another tag alone.
  lemma StoreRaw(dec: Decoders, info: DocInfo, h: RecordHeader, d: seq<byte>, version: u32, tag: nat)
    requires RawTag(tag) && StoreRecord(dec, info, h, d, version).Parsed?
    ensures RawField(StoreRecord(dec, info, h, d, version).info, tag) ==
      RawField(info, tag) + (if h.tagId == tag && h.level == 1 then [d] else [])
  {
  }

  // The bin data, bullet, paragraph shape and style lists hold exactly the
  // level-1 records of their tag, byte for byte and in stream order.
  lemma {:induction false} StoreAllRaw(dec: Decoders, recs: seq<Record>, version: u32, info: DocInfo, tag: nat)
    requires RawTag(tag) && StoreAll(dec, recs, version, info).Parsed?
    ensures RawField(StoreAll(dec, recs, version, info).info, tag) == RawField(info, tag) + RawRecords(recs, tag)
    decreases |recs|
  {
    if |recs| > 0 {
      var h := recs[0].header;
      var d := recs[0].data;
      var next := StoreRecord(dec, info, h, d, version).info;
      StoreRaw(dec, info, h, d, version, tag);
      StoreAllRaw(dec, recs[1..], version, next, tag);
      var k := if h.tagId == tag && h.level == 1 then [d] else [];
      assert RawField(info, tag) + k + RawRecords(recs[1..], tag) ==
        RawField(info, tag) + (k + RawRecords(recs[1..], tag));
    }
  }

  // The raw lists of a parsed stream.
  lemma RawListsOfStream(dec: Decoders, data: seq<byte>, version: u32, tag: nat)
    requires RawTag(tag) && DocInfoFrom(dec, data, 0, version, EmptyDocInfo).Parsed?
    ensures Records(data, 0).Ok? &&
      RawField(DocInfoFrom(dec, data, 0, version, EmptyDocInfo).info, tag) == RawRecords(Records(data, 0).value, tag)
  {
    DocInfoCoversRecords(dec, data, 0, version, EmptyDocInfo);
    DocInfoFromRecords(dec, data, 0, version, EmptyDocInfo);
    StoreAllRaw(dec, Records(data, 0).value, version, EmptyDocInfo, tag);
    assert RawField(EmptyDocInfo, tag) == [];
  }

  // The parsed face names of the level-1 FACE_NAME records, in order.
  function FaceNameRecords(dec: Decoders, recs: seq<Record>): (r: seq<FaceName.FaceName>)
    ensures |r| <= |recs|
  {
    if |recs| == 0 then []
    else
      var f := dec.faceName(recs[0].data);
      (if recs[0].header.tagId == FaceNameTag && recs[0].header.level == 1 && f.Ok? then [f.value] else []) +
      FaceNameRecords(dec, recs[1..])
  }

  lemma StoreFaceName(dec: Decoders, info: DocInfo, h: RecordHeader, d: seq<byte>, version: u32)
    requires StoreRecord(dec, info, h, d, version).Parsed?
    ensures StoreRecord(dec, info, h, d, version).info.faceNames ==
      info.faceNames + (if h.tagId == FaceNameTag && h.level == 1 && dec.faceName(d).Ok? then [dec.faceName(d).value] else [])
  {
  }

  // The face names of a parsed stream are those of its level-1 FACE_NAME
  // records, every one of which parsed.
  lemma {:induction false} StoreAllFaceNames(dec: Decoders, recs: seq<Record>, version: u32, info: DocInfo)
    requires StoreAll(dec, recs, version, info).Parsed?
    ensures StoreAll(dec, recs, version, info).info.faceNames == info.faceNames + FaceNameRecords(dec, recs)
    ensures forall i :: 0 <= i < |recs| && recs[i].header.tagId == FaceNameTag && recs[i].header.level == 1 ==>
      dec.faceName(recs[i].data).Ok?
    decreases |recs|
  {
    if |recs| > 0 {
      var h := recs[0].header;
      var d := recs[0].data;
      var next := StoreRecord(dec, info, h, d, version).info;
      StoreFaceName(dec, info, h, d, version);
      StoreAllFaceNames(dec, recs[1..], version, next);
      var f := dec.faceName(d);
      var k := if h.tagId == FaceNameTag && h.level == 1 && f.Ok? then [f.value] else [];
      assert info.faceNames + k + FaceNameRecords(dec, recs[1..]) ==
        info.faceNames + (k + FaceNameRecords(dec, recs[1..]));
      forall i | 0 <= i < |recs| && recs[i].header.tagId == FaceNameTag && recs[i].header.level == 1
        ensures dec.faceName(recs[i].data).Ok?
      {
        if i > 0 {
          assert recs[i] == recs[1..][i - 1];
        }
      }
    }
  }

  // ---------------------------------------------------------------------
  // The loop as written.

  // The match on the tag, pushing into the fields of info.
  method Store(dec: Decoders, info: DocInfo, header: RecordHeader, recordData: seq<byte>, version: u32) returns (r: DocInfoResult)
    ensures r == StoreRecord(dec, info, header, recordData, version)
  {
    var t := header.tagId;
    if t == DocumentPropertiesTag {
      if header.level == 0 {
        var props := dec.documentProperties(recordData);
        if props.Err? {
          return Failed(RecordFailure(props.error));
        }
        return Parsed(info.(documentProperties := Some(props.value)));
      }
    } else if t == IdMappingsTag {
      if header.level == 0 {
        var idMappings := dec.idMappings(recordData);
        if idMappings.Err? {
          return Failed(RecordFailure(idMappings.error));
        }
        return Parsed(info.(idMappings := Some(idMappings.value)));
      }
    } else if t == BinDataTag {
      if header.level == 1 {
        return Parsed(info.(binData := info.binData + [recordData]));
      }
    } else if t == FaceNameTag {
      if header.level == 1 {
        var faceName := dec.faceName(recordData);
        if faceName.Err? {
          return Failed(RecordFailure(faceName.error));
        }
        return Parsed(info.(faceNames := info.faceNames + [faceName.value]));
      }
    } else if t == BorderFillTag {
      if header.level == 1 {
        var borderFill := dec.borderFill(recordData);
        if borderFill.Err? {
          return Failed(RecordFailure(borderFill.error));
        }
        return Parsed(info.(borderFill := info.borderFill + [borderFill.value]));
      }
    } else if t == CharShapeTag {
      if header.level == 1 {
        var charShape := dec.charShape(recordData);
        if charShape.Err? {
          return Failed(RecordFailure(charShape.error));
        }
        return Parsed(info.(charShapes := info.charShapes + [charShape.value]));
      }
    } else if t == TabDefTag {
      if header.level == 1 {
        var tabDef := dec.tabDef(recordData);
        if tabDef.Err? {
          return Failed(RecordFailure(tabDef.error));
        }
        return Parsed(info.(tabDefs := info.tabDefs + [tabDef.value]));
      }
    } else if t == NumberingTag {
      if header.level == 1 {
        var numbering := dec.numbering(recordData, version);
        if numbering.Err? {
          return Failed(RecordFailure(numbering.error));
        }
        return Parsed(info.(numbering := info.numbering + [numbering.value]));
      }
    } else if t == BulletTag {
      if header.level == 1 {
        return Parsed(info.(bullets := info.bullets + [recordData]));
      }
    } else if t == ParaShapeTag {
      if header.level == 1 {
        return Parsed(info.(paraShapes := info.paraShapes + [recordData]));
      }
    } else if t == StyleTag {
      if header.level == 1 {
        return Parsed(info.(styles := info.styles + [recordData]));
      }
    }
    r := Parsed(info);
  }

  // One turn of the while loop: read the header, take `size` bytes of data
  // and store the record; next is the offset of the following record.
  method ReadStep(dec: Decoders, data: seq<byte>, offset: nat, version: u32, docInfo: DocInfo) returns (r: DocInfoResult, next: nat)
    requires offset < |data|
    ensures r.Failed? ==> DocInfoFrom(dec, data, offset, version, docInfo) == r
    ensures r.Parsed? ==>
      offset < next <= |data| && DocInfoFrom(dec, data, offset, version, docInfo) == DocInfoFrom(dec, data, next, version, r.info)
  {
    next := offset;
    var hr := ParseRecordHeader(data[offset..]);
    if hr.Err? {
      return Failed(RecordFailure(hr.error)), next;
    }
    var (header, headerSize) := hr.value;
    DocInfoStep(dec, data, offset, version, docInfo, header, headerSize);
    next := offset + headerSize;
    var dataSize: nat := header.size;
    if next + dataSize > |data| {
      return Failed(DataBeyondStream(next, dataSize, |data|)), next;
    }
    var recordData := data[next..next + dataSize];
    next := next + dataSize;
    r := Store(dec, docInfo, header, recordData, version);
    assert DocInfoFrom(dec, data, offset, version, docInfo) == Resume(dec, data, next, version, r);
  }

  // DocInfo::parse: the while loop over the offset.
  method ParseDocInfo(data: seq<byte>, version: u32) returns (r: DocInfoResult)
    ensures r == DocInfoOf(data, version)
  {
    var docInfo := EmptyDocInfo;
    var offset: nat := 0;
    while offset < |data|
      invariant offset <= |data|
      invariant DocInfoOf(data, version) == DocInfoFrom(HwpDecoders, data, offset, version, docInfo)
      decreases |data| - offset
    {
      var stored, next := ReadStep(HwpDecoders, data, offset, version, docInfo);
      if stored.Failed? {
        return stored;
      }
      docInfo := stored.info;
      offset := next;
    }
    r := Parsed(docInfo);
  }
}
