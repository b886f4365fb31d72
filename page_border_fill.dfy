// The page border and fill of a section
// (crates/hwp-core/src/document/bodytext/page_border_fill.rs, tables 135
// and 136 of the format): an attribute DWORD, four spacings and a
// border-fill id, fourteen bytes in all.

module PageBorderFill {
  import opened Bytes
  import opened Errors
  import opened BitFlags

  datatype PositionReference = BodyText | Paper
  datatype FillArea = Paper | Page | Border

  datatype PageBorderFillAttributes = PageBorderFillAttributes(
    positionReference: PositionReference, includeHeader: bool, includeFooter: bool, fillArea: FillArea)

  datatype PageBorderFill = PageBorderFill(
    attributes: PageBorderFillAttributes,
    leftSpacing: i16,
    rightSpacing: i16,
    topSpacing: i16,
    bottomSpacing: i16,
    borderFillId: u16)

  // parse_page_border_fill_attributes: bits 0, 1, 2 and 3-4 (3 falls back to Paper).
  function PageBorderFillAttributesOf(value: u32): (a: PageBorderFillAttributes)
    ensures a.positionReference == PositionReference.Paper <==> value % 2 == 1
    ensures a.includeHeader <==> (value / 2) % 2 == 1
    ensures a.includeFooter <==> (value / 4) % 2 == 1
    ensures a.fillArea == FillArea.Paper <==> (value / 8) % 4 == 0 || (value / 8) % 4 == 3
  {
    PageBorderFillAttributes(
      if value % 2 == 0 then BodyText else PositionReference.Paper,
      (value / 2) % 2 == 1,
      (value / 4) % 2 == 1,
      match (value / 8) % 4
      case 1 => Page
      case 2 => Border
      case _ => FillArea.Paper)
  }

  function PageBorderFillAttributesBits(a: PageBorderFillAttributes): (v: u32)
    ensures v < 0x20
  {
    (if a.positionReference == PositionReference.Paper then 1 else 0) +
    (if a.includeHeader then 2 else 0) + (if a.includeFooter then 4 else 0) +
    8 * (match a.fillArea case Paper => 0 case Page => 1 case Border => 2)
  }

  lemma PageBorderFillAttributesRoundTrip(a: PageBorderFillAttributes)
    ensures PageBorderFillAttributesOf(PageBorderFillAttributesBits(a)) == a
  {
  }

  // Only bits 0-4 matter.
  lemma PageBorderFillAttributesLowBits(value: u32)
    ensures PageBorderFillAttributesOf(value) == PageBorderFillAttributesOf(value % 0x20)
  {
    FieldBelow(value, 1, 2, 16);
    FieldBelow(value, 2, 2, 8);
    FieldBelow(value, 4, 2, 4);
    FieldBelow(value, 8, 4, 1);
  }

  // The fields at their offsets, for data that holds all fourteen bytes.
  function PageBorderFillAt(data: seq<byte>): PageBorderFill
    requires |data| >= 14
  {
    PageBorderFill(PageBorderFillAttributesOf(U32(data, 0)), I16(data, 4), I16(data, 6), I16(data, 8),
      I16(data, 10), U16(data, 12))
  }

  // PageBorderFill::parse as written: the guard admits 12 and 13 bytes, but
  // the border-fill id is bytes 12..14.
  function PageBorderFillAsWritten(data: seq<byte>): (r: Outcome<PageBorderFill>)
  {
    if |data| < 12 then Returned(Err(InsufficientData("PageBorderFill", 12, |data|)))
    else if |data| < 14 then IndexOutOfBounds
    else Returned(Ok(PageBorderFillAt(data)))
  }

  // The evidently intended guard covers the fourteen bytes read.
  function PageBorderFillOf(data: seq<byte>): (r: Result<PageBorderFill>)
    ensures r.Err? <==> |data| < 14
    ensures r.Err? ==> r.error == InsufficientData("PageBorderFill", 14, |data|)
    ensures r.Ok? ==> r.value.attributes == PageBorderFillAttributesOf(U32(data, 0))
    ensures r.Ok? ==> r.value.borderFillId == U16(data, 12)
  {
    if |data| < 14 then Err(InsufficientData("PageBorderFill", 14, |data|))
    else Ok(PageBorderFillAt(data))
  }

  // The counterexample: twelve bytes pass the guard.
  lemma PageBorderFillPastEnd()
    ensures PageBorderFillAsWritten(Zeros(12)) == IndexOutOfBounds
    ensures PageBorderFillOf(Zeros(12)) == Err(InsufficientData("PageBorderFill", 14, 12))
  {
  }

  // Wherever the code as written returns a value, the corrected parser
  // returns the same value.
  lemma PageBorderFillAgree(data: seq<byte>)
    requires PageBorderFillAsWritten(data).Returned? && PageBorderFillAsWritten(data).result.Ok?
    ensures PageBorderFillAsWritten(data) == Returned(PageBorderFillOf(data))
  {
  }

  // PageBorderFill::parse with its running offset, under the corrected guard.
  method ParsePageBorderFill(data: seq<byte>) returns (r: Result<PageBorderFill>)
    ensures r == PageBorderFillOf(data)
  {
    if |data| < 14 {
      return Err(InsufficientData("PageBorderFill", 14, |data|));
    }
    var offset := 0;
    var attributes := PageBorderFillAttributesOf(U32(data, offset));
    offset := offset + 4;
    var leftSpacing := I16(data, offset);
    offset := offset + 2;
    var rightSpacing := I16(data, offset);
    offset := offset + 2;
    var topSpacing := I16(data, offset);
    offset := offset + 2;
    var bottomSpacing := I16(data, offset);
    offset := offset + 2;
    var borderFillId := U16(data, offset);
    r := Ok(PageBorderFill(attributes, leftSpacing, rightSpacing, topSpacing, bottomSpacing, borderFillId));
  }

  function PageBorderFillHalves(p: PageBorderFill): seq<u16>
  {
    [FromI16(p.leftSpacing), FromI16(p.rightSpacing), FromI16(p.topSpacing), FromI16(p.bottomSpacing),
     p.borderFillId]
  }

  function EncodePageBorderFill(p: PageBorderFill): (r: seq<byte>)
    ensures |r| == 14
  {
    Le32(PageBorderFillAttributesBits(p.attributes)) + Halves(PageBorderFillHalves(p))
  }

  lemma PageBorderFillRoundTrip(p: PageBorderFill)
    ensures PageBorderFillOf(EncodePageBorderFill(p)) == Ok(p)
  {
    var w := PageBorderFillAttributesBits(p.attributes);
    var hs := PageBorderFillHalves(p);
    Le32Read([], w, Halves(hs));
    assert [] + Le32(w) + Halves(hs) == EncodePageBorderFill(p);
    HalfAfter(Le32(w), hs, 0);
    HalfAfter(Le32(w), hs, 1);
    HalfAfter(Le32(w), hs, 2);
    HalfAfter(Le32(w), hs, 3);
    HalfAfter(Le32(w), hs, 4);
    PageBorderFillAttributesRoundTrip(p.attributes);
  }
}
