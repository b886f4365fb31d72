// The caption of a table or shape, read from the LIST_HEADER record that
// precedes the caption's paragraphs
// (crates/hwp-core/src/document/bodytext/ctrl_header/caption.rs).

module CtrlCaption {
  import opened Bytes
  import opened Errors

  datatype CaptionAlign = Left | Right | Top | Bottom
  datatype CaptionVAlign = Top | Middle | Bottom

  datatype Caption = Caption(
    align: CaptionAlign,
    includeMargin: bool,
    width: u32,
    gap: i16,
    lastWidth: u32,
    verticalAlign: Option<CaptionVAlign>)

  // Bits 0-1 of the caption property.
  function AlignOf(c: bv32): CaptionAlign
    requires c < 4
  {
    if c == 0 then CaptionAlign.Left else if c == 1 then CaptionAlign.Right
    else if c == 2 then CaptionAlign.Top else CaptionAlign.Bottom
  }

  function AlignCode(a: CaptionAlign): (c: bv32)
    ensures c < 4 && AlignOf(c) == a
  {
    match a
    case Left => 0
    case Right => 1
    case Top => 2
    case Bottom => 3
  }

  // Bits 5-6 of the list-header property; the unused code 3 reads as Middle.
  function VAlignOf(c: bv32): CaptionVAlign
    requires c < 4
  {
    if c == 0 then CaptionVAlign.Top else if c == 2 then CaptionVAlign.Bottom else CaptionVAlign.Middle
  }

  function VAlignCode(a: CaptionVAlign): (c: bv32)
    ensures c < 3 && VAlignOf(c) == a
  {
    match a
    case Top => 0
    case Middle => 1
    case Bottom => 2
  }

  // The caption of a LIST_HEADER by absolute offsets: paragraph count at 0
  // (skipped), list-header property at 4, caption property at 8, width at 12,
  // gap at 16 and last width at 18.  Shorter records have no caption.
  function CaptionOf(data: seq<byte>): (r: Result<Option<Caption>>)
    ensures r.Ok?
    ensures r.value.Some? <==> |data| >= 22
    ensures r.value.Some? ==> r.value.value.verticalAlign.Some?
  {
    if |data| < 22 then Ok(None)
    else
      var listProperty := U32(data, 4) as bv32;
      var property := U32(data, 8) as bv32;
      Ok(Some(Caption(AlignOf(property & 0x3), property & 0x4 != 0, U32(data, 12), I16(data, 16),
        U32(data, 18), Some(VAlignOf((listProperty >> 5) & 0x3)))))
  }

  // parse_caption_from_list_header with its running offset.
  method ParseCaptionFromListHeader(data: seq<byte>) returns (r: Result<Option<Caption>>)
    ensures r == CaptionOf(data)
  {
    if |data| < 22 {
      return Ok(None);
    }
    var offset := 0;
    offset := offset + 4;
    var listHeaderProperty := U32(data, offset) as bv32;
    offset := offset + 4;
    var verticalAlign := VAlignOf((listHeaderProperty >> 5) & 0x3);
    var captionProperty := U32(data, offset) as bv32;
    offset := offset + 4;
    var align := AlignOf(captionProperty & 0x3);
    var includeMargin := captionProperty & 0x4 != 0;
    var width := U32(data, offset);
    offset := offset + 4;
    var gap := I16(data, offset);
    offset := offset + 2;
    var lastWidth := U32(data, offset);
    r := Ok(Some(Caption(align, includeMargin, width, gap, lastWidth, Some(verticalAlign))));
  }

  // The writer side: a LIST_HEADER prefix carrying the caption, with the
  // given paragraph count and the other list-header property bits.
  function CaptionWords(c: Caption, paraCount: u32, listBits: bv32): (ws: seq<u32>)
    requires c.verticalAlign.Some?
    ensures |ws| == 4
  {
    var listProperty := (listBits & !0x60) | (VAlignCode(c.verticalAlign.value) << 5);
    var property := AlignCode(c.align) | Bit(c.includeMargin, 0x4);
    [paraCount, Word(listProperty), Word(property), c.width]
  }

  function EncodeCaption(c: Caption, paraCount: u32, listBits: bv32): (r: seq<byte>)
    requires c.verticalAlign.Some?
    ensures |r| == 22
  {
    Words(CaptionWords(c, paraCount, listBits)) + (Le16(FromI16(c.gap)) + Le32(c.lastWidth))
  }

  // The decoding of the two property DWORDs and the three size fields.
  lemma CaptionOfFields(s: seq<byte>, c: Caption, listBits: bv32)
    requires |s| >= 22 && c.verticalAlign.Some?
    requires U32(s, 4) as bv32 == (listBits & !0x60) | (VAlignCode(c.verticalAlign.value) << 5)
    requires U32(s, 8) as bv32 == AlignCode(c.align) | Bit(c.includeMargin, 0x4)
    requires U32(s, 12) == c.width && I16(s, 16) == c.gap && U32(s, 18) == c.lastWidth
    ensures CaptionOf(s) == Ok(Some(c))
  {
    var v := U32(s, 4) as bv32;
    var p := U32(s, 8) as bv32;
    assert (v >> 5) & 0x3 == VAlignCode(c.verticalAlign.value);
    assert p & 0x3 == AlignCode(c.align);
    assert (p & 0x4 != 0) == c.includeMargin;
  }

  // Where the writer's fields sit in the 22 bytes.
  lemma CaptionLayout(ws: seq<u32>, gap: u16, lastWidth: u32, rest: seq<byte>)
    requires |ws| == 4
    ensures var s := Words(ws) + (Le16(gap) + Le32(lastWidth)) + rest;
      |s| >= 22 && U32(s, 4) == ws[1] && U32(s, 8) == ws[2] && U32(s, 12) == ws[3] &&
      U16(s, 16) == gap && U32(s, 18) == lastWidth
  {
    var g, w := Le16(gap), Le32(lastWidth);
    var s := Words(ws) + (g + w) + rest;
    assert s == Words(ws) + (g + w + rest);
    WordAt(ws, 1, g + w + rest);
    WordAt(ws, 2, g + w + rest);
    WordAt(ws, 3, g + w + rest);
    assert s[16] == g[0] && s[17] == g[1];
    assert s[18] == w[0] && s[19] == w[1] && s[20] == w[2] && s[21] == w[3];
    U16Of(s, 16, gap);
    U32Of(s, 18, lastWidth);
  }

  // A caption with a vertical alignment is read back from its encoding,
  // whatever the other list-header bits and whatever follows.
  lemma CaptionRoundTrip(c: Caption, paraCount: u32, listBits: bv32, rest: seq<byte>)
    requires c.verticalAlign.Some?
    ensures CaptionOf(EncodeCaption(c, paraCount, listBits) + rest) == Ok(Some(c))
  {
    var ws := CaptionWords(c, paraCount, listBits);
    CaptionLayout(ws, FromI16(c.gap), c.lastWidth, rest);
    CaptionOfFields(EncodeCaption(c, paraCount, listBits) + rest, c, listBits);
  }
}
