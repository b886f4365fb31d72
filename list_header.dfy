// The paragraph-list header (crates/hwp-core/src/document/bodytext/list_header.rs,
// table 65 of the format): a paragraph count and an attribute DWORD, the
// latter at bytes 4..8 in the eight-byte layout and at 2..6 in the six-byte one.

module ListHeader {
  import opened Bytes
  import opened Errors

  datatype TextDirection = Horizontal | Vertical
  datatype LineBreak = Normal | MaintainOneLine | ExpandByContent
  datatype VerticalAlign = Top | Center | Bottom

  datatype ListHeaderAttribute = ListHeaderAttribute(
    textDirection: TextDirection, lineBreak: LineBreak, verticalAlign: VerticalAlign)

  datatype ListHeader = ListHeader(paragraphCount: i16, attribute: ListHeaderAttribute)

  // parse_list_header_attribute: bits 0-2, 3-4 and 5-6; values without a
  // variant fall back to the first one.
  function ListHeaderAttributeOf(value: u32): (a: ListHeaderAttribute)
    ensures a.textDirection == Vertical <==> value % 8 == 1
    ensures a.lineBreak == Normal <==> (value / 8) % 4 == 0 || (value / 8) % 4 == 3
    ensures a.verticalAlign == Top <==> (value / 32) % 4 == 0 || (value / 32) % 4 == 3
  {
    ListHeaderAttribute(
      if value % 8 == 1 then Vertical else Horizontal,
      match (value / 8) % 4
      case 1 => MaintainOneLine
      case 2 => ExpandByContent
      case _ => Normal,
      match (value / 32) % 4
      case 1 => Center
      case 2 => Bottom
      case _ => Top)
  }

  // The attribute word a writer stores: each field at its own bits.
  function ListHeaderAttributeBits(a: ListHeaderAttribute): (v: u32)
    ensures v < 0x80
  {
    (if a.textDirection == Vertical then 1 else 0) +
    8 * (match a.lineBreak case Normal => 0 case MaintainOneLine => 1 case ExpandByContent => 2) +
    32 * (match a.verticalAlign case Top => 0 case Center => 1 case Bottom => 2)
  }

  lemma ListHeaderAttributeRoundTrip(a: ListHeaderAttribute)
    ensures ListHeaderAttributeOf(ListHeaderAttributeBits(a)) == a
  {
  }

  // Only bits 0-6 matter.
  lemma ListHeaderAttributeLowBits(value: u32)
    ensures ListHeaderAttributeOf(value) == ListHeaderAttributeOf(value % 0x80)
  {
    var q, m := value / 0x80, value % 0x80;
    assert value == 0x80 * q + m;
    assert value / 8 == 16 * q + m / 8;
    assert value / 32 == 4 * q + m / 32;
  }

  // ListHeader::parse.
  function ListHeaderOf(data: seq<byte>): (r: Result<ListHeader>)
    ensures r.Err? <==> |data| < 6
    ensures r.Err? ==> r.error == InsufficientData("ListHeader", 6, |data|)
    ensures r.Ok? ==> r.value.paragraphCount == I16(data, 0)
    ensures r.Ok? && |data| >= 8 ==> r.value.attribute == ListHeaderAttributeOf(U32(data, 4))
    ensures r.Ok? && |data| < 8 ==> r.value.attribute == ListHeaderAttributeOf(U32(data, 2))
  {
    if |data| < 6 then Err(InsufficientData("ListHeader", 6, |data|))
    else
      var value := if |data| >= 8 then U32(data, 4) else U32(data, 2);
      Ok(ListHeader(I16(data, 0), ListHeaderAttributeOf(value)))
  }

  // The two layouts a writer can use: with or without the unknown WORD.
  function EncodeListHeader(h: ListHeader, unknown: Option<u16>): seq<byte>
  {
    match unknown
    case Some(u) => Le16(FromI16(h.paragraphCount)) + Le16(u) + Le32(ListHeaderAttributeBits(h.attribute))
    case None => Le16(FromI16(h.paragraphCount)) + Le32(ListHeaderAttributeBits(h.attribute))
  }

  // Both layouts are read back; the eight-byte one may be followed by more data.
  lemma ListHeaderRoundTrip(h: ListHeader, unknown: Option<u16>, rest: seq<byte>)
    requires unknown.None? ==> rest == []
    ensures ListHeaderOf(EncodeListHeader(h, unknown) + rest) == Ok(h)
  {
    var w := ListHeaderAttributeBits(h.attribute);
    var c := FromI16(h.paragraphCount);
    var s := EncodeListHeader(h, unknown) + rest;
    ListHeaderAttributeRoundTrip(h.attribute);
    match unknown
    case Some(u) =>
      assert s == [] + Le16(c) + (Le16(u) + Le32(w) + rest);
      Le16Read([], c, Le16(u) + Le32(w) + rest);
      assert s == Le16(c) + Le16(u) + Le32(w) + rest;
      Le32Read(Le16(c) + Le16(u), w, rest);
    case None =>
      assert s == [] + Le16(c) + (Le32(w) + rest);
      Le16Read([], c, Le32(w) + rest);
      Le32Read(Le16(c), w, rest);
  }
}
