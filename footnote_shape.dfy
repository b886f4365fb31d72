// The footnote and endnote shape of a section
// (crates/hwp-core/src/document/bodytext/footnote_shape.rs, tables 133 and
// 134 of the format): an attribute DWORD, three characters, the start
// number, four spacings, the separator line's type, thickness and colour.

module FootnoteShape {
  import opened Bytes
  import opened Errors

  datatype NumberShape =
    | Arabic | CircledArabic | RomanUpper | RomanLower | AlphaUpper | AlphaLower
    | CircledAlphaUpper | CircledAlphaLower | Hangul | CircledHangul | HangulJamo
    | CircledHangulJamo | HangulNumber | ChineseNumber | CircledChineseNumber
    | HeavenlyStem | HeavenlyStemChinese | FourCharRepeat | CustomCharRepeat

  datatype PagePosition = Separate | Across | Rightmost
  datatype NumberingMethod = Continue | Restart | PerPage

  datatype FootnoteShapeAttributes = FootnoteShapeAttributes(
    numberShape: NumberShape, pagePosition: PagePosition, numbering: NumberingMethod,
    superscript: bool, prefix: bool)

  datatype FootnoteShape = FootnoteShape(
    attributes: FootnoteShapeAttributes,
    customSymbol: u16,
    frontDecoration: u16,
    backDecoration: u16,
    startNumber: u16,
    breaklineLength: i16,
    breaklineTopMargin: i16,
    breaklineBottomMargin: i16,
    remarkBetweenMargin: i16,
    breaklineType: byte,
    breaklineThickness: byte,
    breaklineColor: u32)

  // The number shapes of bits 0-7: codes 0 to 16, 0x80 and 0x81; any other
  // code is Arabic.
  function NumberShapeOf(code: byte): NumberShape
  {
    match code
    case 1 => CircledArabic
    case 2 => RomanUpper
    case 3 => RomanLower
    case 4 => AlphaUpper
    case 5 => AlphaLower
    case 6 => CircledAlphaUpper
    case 7 => CircledAlphaLower
    case 8 => Hangul
    case 9 => CircledHangul
    case 10 => HangulJamo
    case 11 => CircledHangulJamo
    case 12 => HangulNumber
    case 13 => ChineseNumber
    case 14 => CircledChineseNumber
    case 15 => HeavenlyStem
    case 16 => HeavenlyStemChinese
    case 0x80 => FourCharRepeat
    case 0x81 => CustomCharRepeat
    case _ => Arabic
  }

  function NumberShapeCode(s: NumberShape): (code: byte)
    ensures code <= 16 || code == 0x80 || code == 0x81
    ensures NumberShapeOf(code) == s
  {
    match s
    case Arabic => 0
    case CircledArabic => 1
    case RomanUpper => 2
    case RomanLower => 3
    case AlphaUpper => 4
    case AlphaLower => 5
    case CircledAlphaUpper => 6
    case CircledAlphaLower => 7
    case Hangul => 8
    case CircledHangul => 9
    case HangulJamo => 10
    case CircledHangulJamo => 11
    case HangulNumber => 12
    case ChineseNumber => 13
    case CircledChineseNumber => 14
    case HeavenlyStem => 15
    case HeavenlyStemChinese => 16
    case FourCharRepeat => 0x80
    case CustomCharRepeat => 0x81
  }

  // The codes without a shape of their own fall back to Arabic.
  lemma NumberShapeFallback(code: byte)
    requires 16 < code < 0x80 || 0x81 < code
    ensures NumberShapeOf(code) == Arabic
  {
  }

  // Distinct codes in the table give distinct shapes.
  lemma NumberShapeInjective(a: byte, b: byte)
    requires a <= 16 || a == 0x80 || a == 0x81
    requires b <= 16 || b == 0x80 || b == 0x81
    ensures NumberShapeOf(a) == NumberShapeOf(b) ==> a == b
  {
  }

  // parse_footnote_shape_attributes: bits 0-7, 8-9, 10-11, 12 and 13; the
  // value 3 of a two-bit field falls back to its first variant.
  function FootnoteShapeAttributesOf(value: u32): (a: FootnoteShapeAttributes)
    ensures a.numberShape == NumberShapeOf(value % 0x100)
    ensures a.pagePosition == Separate <==> (value / 0x100) % 4 == 0 || (value / 0x100) % 4 == 3
    ensures a.numbering == Continue <==> (value / 0x400) % 4 == 0 || (value / 0x400) % 4 == 3
    ensures a.superscript <==> (value / 0x1000) % 2 == 1
    ensures a.prefix <==> (value / 0x2000) % 2 == 1
  {
    FootnoteShapeAttributes(
      NumberShapeOf(value % 0x100),
      match (value / 0x100) % 4
      case 1 => Across
      case 2 => Rightmost
      case _ => Separate,
      match (value / 0x400) % 4
      case 1 => Restart
      case 2 => PerPage
      case _ => Continue,
      (value / 0x1000) % 2 == 1,
      (value / 0x2000) % 2 == 1)
  }

  function FootnoteShapeAttributesBits(a: FootnoteShapeAttributes): (v: u32)
    ensures v < 0x4000
  {
    NumberShapeCode(a.numberShape) +
    0x100 * (match a.pagePosition case Separate => 0 case Across => 1 case Rightmost => 2) +
    0x400 * (match a.numbering case Continue => 0 case Restart => 1 case PerPage => 2) +
    (if a.superscript then 0x1000 else 0) + (if a.prefix then 0x2000 else 0)
  }

  lemma AttributeFields(c: nat, p: nat, n: nat, s: nat, f: nat)
    requires c < 0x100 && p < 4 && n < 4 && s < 2 && f < 2
    ensures var v := c + 0x100 * p + 0x400 * n + 0x1000 * s + 0x2000 * f;
      v % 0x100 == c && (v / 0x100) % 4 == p && (v / 0x400) % 4 == n &&
      (v / 0x1000) % 2 == s && (v / 0x2000) % 2 == f
  {
    var v := c + 0x100 * p + 0x400 * n + 0x1000 * s + 0x2000 * f;
    var hi := p + 4 * n + 16 * s + 32 * f;
    assert v == c + 0x100 * hi;
    assert v / 0x100 == hi;
    assert v / 0x400 == n + 4 * s + 8 * f;
    assert v / 0x1000 == s + 2 * f;
  }

  lemma FootnoteShapeAttributesRoundTrip(a: FootnoteShapeAttributes)
    ensures FootnoteShapeAttributesOf(FootnoteShapeAttributesBits(a)) == a
  {
    AttributeFields(NumberShapeCode(a.numberShape),
      match a.pagePosition case Separate => 0 case Across => 1 case Rightmost => 2,
      match a.numbering case Continue => 0 case Restart => 1 case PerPage => 2,
      if a.superscript then 1 else 0, if a.prefix then 1 else 0);
  }

  // FootnoteShape::parse by absolute offsets: the 26 bytes it reads.
  function FootnoteShapeOf(data: seq<byte>): (r: Result<FootnoteShape>)
    ensures r.Err? <==> |data| < 26
    ensures r.Err? ==> r.error == InsufficientData("FootnoteShape", 26, |data|)
    ensures r.Ok? ==> r.value.attributes == FootnoteShapeAttributesOf(U32(data, 0))
    ensures r.Ok? ==> r.value.breaklineType == data[20] && r.value.breaklineThickness == data[21]
    ensures r.Ok? ==> r.value.breaklineColor == U32(data, 22)
  {
    if |data| < 26 then Err(InsufficientData("FootnoteShape", 26, |data|))
    else
      Ok(FootnoteShape(FootnoteShapeAttributesOf(U32(data, 0)), U16(data, 4), U16(data, 6), U16(data, 8),
        U16(data, 10), I16(data, 12), I16(data, 14), I16(data, 16), I16(data, 18), data[20], data[21],
        U32(data, 22)))
  }

  // FootnoteShape::parse with its running offset.
  method ParseFootnoteShape(data: seq<byte>) returns (r: Result<FootnoteShape>)
    ensures r == FootnoteShapeOf(data)
  {
    if |data| < 26 {
      return Err(InsufficientData("FootnoteShape", 26, |data|));
    }
    var offset := 0;
    var attributes := FootnoteShapeAttributesOf(U32(data, offset));
    offset := offset + 4;
    var customSymbol := U16(data, offset);
    offset := offset + 2;
    var frontDecoration := U16(data, offset);
    offset := offset + 2;
    var backDecoration := U16(data, offset);
    offset := offset + 2;
    var startNumber := U16(data, offset);
    offset := offset + 2;
    var breaklineLength := I16(data, offset);
    offset := offset + 2;
    var breaklineTopMargin := I16(data, offset);
    offset := offset + 2;
    var breaklineBottomMargin := I16(data, offset);
    offset := offset + 2;
    var remarkBetweenMargin := I16(data, offset);
    offset := offset + 2;
    var breaklineType := data[offset];
    offset := offset + 1;
    var breaklineThickness := data[offset];
    offset := offset + 1;
    var breaklineColor := U32(data, offset);
    r := Ok(FootnoteShape(attributes, customSymbol, frontDecoration, backDecoration, startNumber,
      breaklineLength, breaklineTopMargin, breaklineBottomMargin, remarkBetweenMargin,
      breaklineType, breaklineThickness, breaklineColor));
  }

  // The writer side: the attribute word, eight WORDs, two bytes and the colour.
  function FootnoteShapeHalves(f: FootnoteShape): seq<u16>
  {
    [f.customSymbol, f.frontDecoration, f.backDecoration, f.startNumber, FromI16(f.breaklineLength),
     FromI16(f.breaklineTopMargin), FromI16(f.breaklineBottomMargin), FromI16(f.remarkBetweenMargin)]
  }

  function EncodeFootnoteShape(f: FootnoteShape): (r: seq<byte>)
    ensures |r| == 26
  {
    Le32(FootnoteShapeAttributesBits(f.attributes)) + Halves(FootnoteShapeHalves(f)) +
    [f.breaklineType, f.breaklineThickness] + Le32(f.breaklineColor)
  }

  lemma FootnoteShapeLayout(f: FootnoteShape)
    ensures var s := EncodeFootnoteShape(f);
      U32(s, 0) == FootnoteShapeAttributesBits(f.attributes) &&
      forall i :: 0 <= i < 8 ==> U16(s, 4 + 2 * i) == FootnoteShapeHalves(f)[i]
  {
    var w := FootnoteShapeAttributesBits(f.attributes);
    var hs := FootnoteShapeHalves(f);
    var tail := [f.breaklineType, f.breaklineThickness] + Le32(f.breaklineColor);
    var s := EncodeFootnoteShape(f);
    assert s == Le32(w) + Halves(hs) + tail;
    Le32Read([], w, Halves(hs) + tail);
    assert s == [] + Le32(w) + (Halves(hs) + tail);
    forall i | 0 <= i < 8
      ensures U16(s, 4 + 2 * i) == hs[i]
    {
      HalfAfter(Le32(w), hs, i);
      U16Skip([], Le32(w) + Halves(hs), 4 + 2 * i);
      assert (Le32(w) + Halves(hs))[4 + 2 * i] == s[4 + 2 * i];
      assert (Le32(w) + Halves(hs))[5 + 2 * i] == s[5 + 2 * i];
    }
  }

  lemma FootnoteShapeTail(f: FootnoteShape)
    ensures var s := EncodeFootnoteShape(f);
      s[20] == f.breaklineType && s[21] == f.breaklineThickness && U32(s, 22) == f.breaklineColor
  {
    var p := Le32(FootnoteShapeAttributesBits(f.attributes)) + Halves(FootnoteShapeHalves(f)) +
      [f.breaklineType, f.breaklineThickness];
    Le32Read(p, f.breaklineColor, []);
    assert EncodeFootnoteShape(f) == p + Le32(f.breaklineColor) + [];
  }

  lemma FootnoteShapeRoundTrip(f: FootnoteShape)
    ensures FootnoteShapeOf(EncodeFootnoteShape(f)) == Ok(f)
  {
    var s := EncodeFootnoteShape(f);
    var hs := FootnoteShapeHalves(f);
    FootnoteShapeLayout(f);
    FootnoteShapeTail(f);
    FootnoteShapeAttributesRoundTrip(f.attributes);
    assert U16(s, 4) == hs[0] && U16(s, 6) == hs[1] && U16(s, 8) == hs[2] && U16(s, 10) == hs[3];
    assert U16(s, 12) == hs[4] && U16(s, 14) == hs[5] && U16(s, 16) == hs[6] && U16(s, 18) == hs[7];
  }
}
