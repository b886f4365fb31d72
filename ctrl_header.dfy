// The control header record (crates/hwp-core/src/document/bodytext/ctrl_header/mod.rs):
// a four-character control id stored as a little-endian DWORD, followed by
// a body whose layout the id selects.

module CtrlHeader {
  import opened Bytes
  import opened Errors
  import opened CtrlIds
  import ObjectCommon
  import ColumnDefinition
  import CtrlField
  import CtrlOverlap

  datatype CtrlHeaderData =
    | ObjectCommonData(common: ObjectCommon.ObjectCommonProperties)
    | ColumnDefinitionData(column: ColumnDefinition.ColumnDefinition)
    | FieldData(field: CtrlField.Field)
    | OverlapData(overlap: CtrlOverlap.Overlap)
    | HiddenDescription
      // A known control whose body parser is not part of this model; the
      // body is kept as it was read.
    | NotModelled(id: seq<byte>, body: seq<byte>)
    | Other

  datatype CtrlHeader = CtrlHeader(ctrlId: seq<byte>, ctrlIdValue: u32, data: CtrlHeaderData)

  // The known ids whose body parsers lie outside the model.
  const OtherKnownIds: seq<seq<byte>> := [Footnote, Endnote, Header, Footer, PageNumber, PageNumberPos,
    SectionDef, AutoNumber, AutoNumberAlt, NewNumber, Hide, PageAdjust, BookmarkMarker, Comment]

  // The ids that select one of the modelled body layouts.
  predicate ModelledId(id: seq<byte>)
  {
    id == Table || id == ShapeObject || id == ColumnDef || id == FieldStart || id == Overlap || id == HiddenDesc
  }

  // The body parser's error, or its value wrapped for the header.
  function BodyOf(id: seq<byte>, body: seq<byte>): (r: Result<CtrlHeaderData>)
    ensures r.Err? ==> ModelledId(id) && id != HiddenDesc
    ensures id == HiddenDesc ==> r == Ok(HiddenDescription)
    ensures !ModelledId(id) && id !in OtherKnownIds ==> r == Ok(Other)
    ensures !ModelledId(id) && id in OtherKnownIds ==> r == Ok(NotModelled(id, body))
  {
    if id == Table || id == ShapeObject then
      match ObjectCommon.ObjectCommonOf(body)
      case Ok(c) => Ok(ObjectCommonData(c))
      case Err(e) => Err(e)
    else if id == ColumnDef then
      match ColumnDefinition.ColumnDefinitionOf(body)
      case Ok(c) => Ok(ColumnDefinitionData(c))
      case Err(e) => Err(e)
    else if id == FieldStart then
      match CtrlField.FieldOf(body)
      case Ok(f) => Ok(FieldData(f))
      case Err(e) => Err(e)
    else if id == Overlap then
      match CtrlOverlap.OverlapOf(body)
      case Ok(o) => Ok(OverlapData(o))
      case Err(e) => Err(e)
    else if id == HiddenDesc then Ok(HiddenDescription)
    else if id in OtherKnownIds then Ok(NotModelled(id, body))
    else Ok(Other)
  }

  // CtrlHeader::parse: the id is the four bytes reversed with trailing NULs
  // removed, the value is the same bytes as a DWORD, and everything after
  // them goes to the body parser the id selects.
  function CtrlHeaderOf(data: seq<byte>): (r: Result<CtrlHeader>)
    ensures |data| < 4 ==> r == Err(InsufficientData("CtrlHeader", 4, |data|))
    ensures |data| >= 4 ==> var id := ReversedId(data, 0);
      (r.Err? <==> BodyOf(id, data[4..]).Err?) &&
      (r.Ok? ==> r.value == CtrlHeader(id, U32(data, 0), BodyOf(id, data[4..]).value))
  {
    if |data| < 4 then Err(InsufficientData("CtrlHeader", 4, |data|))
    else
      var id := ReversedId(data, 0);
      match BodyOf(id, data[4..])
      case Ok(d) => Ok(CtrlHeader(id, U32(data, 0), d))
      case Err(e) => Err(e)
  }

  // The header a writer lays down for a four-character id.
  lemma HeaderPrefix(id: seq<byte>, body: seq<byte>)
    requires |id| == 4 && id[3] != 0
    ensures var s := IdBytes(id) + body;
      ReversedId(s, 0) == id && s[4..] == body && U32(s, 0) == U32Be(id, 0)
  {
    var s := IdBytes(id) + body;
    ReversedIdBytes([], id, body);
    assert s == [] + IdBytes(id) + body;
    IdValue(s, 0);
  }

  // A header whose id names none of the controls is always accepted, as Other.
  lemma UnknownIdIsOther(data: seq<byte>)
    requires |data| >= 4
    requires !ModelledId(ReversedId(data, 0)) && ReversedId(data, 0) !in OtherKnownIds
    ensures CtrlHeaderOf(data) == Ok(CtrlHeader(ReversedId(data, 0), U32(data, 0), Other))
  {
  }

  // Each body encoder, behind its id, is read back as that control.
  lemma ObjectCommonHeaderRoundTrip(id: seq<byte>, x: ObjectCommon.ObjectCommonProperties)
    requires id == Table || id == ShapeObject
    requires ObjectCommon.WellFormedCommon(x)
    ensures CtrlHeaderOf(IdBytes(id) + ObjectCommon.EncodeObjectCommon(x)) ==
      Ok(CtrlHeader(id, U32Be(id, 0), ObjectCommonData(x)))
  {
    HeaderPrefix(id, ObjectCommon.EncodeObjectCommon(x));
    ObjectCommon.ObjectCommonRoundTrip(x);
  }

  lemma FieldHeaderRoundTrip(x: CtrlField.Field)
    requires CtrlField.WellFormedField(x)
    ensures CtrlHeaderOf(IdBytes(FieldStart) + CtrlField.EncodeField(x)) ==
      Ok(CtrlHeader(FieldStart, 0x2525_2525, FieldData(x)))
  {
    HeaderPrefix(FieldStart, CtrlField.EncodeField(x));
    CtrlField.FieldRoundTrip(x);
  }

  lemma OverlapHeaderRoundTrip(x: CtrlOverlap.Overlap)
    requires CtrlOverlap.WellFormedOverlap(x)
    ensures CtrlHeaderOf(IdBytes(Overlap) + CtrlOverlap.EncodeOverlap(x)) ==
      Ok(CtrlHeader(Overlap, 0x6F76_6572, OverlapData(x)))
  {
    var s := IdBytes(Overlap) + CtrlOverlap.EncodeOverlap(x);
    HeaderPrefix(Overlap, CtrlOverlap.EncodeOverlap(x));
    CtrlOverlap.OverlapRoundTrip(x);
    assert Overlap != Table && Overlap != ShapeObject && Overlap != ColumnDef && Overlap != FieldStart;
    assert BodyOf(Overlap, s[4..]) == Ok(OverlapData(x));
    assert U32Be(Overlap, 0) == 0x6F76_6572;
  }
}
