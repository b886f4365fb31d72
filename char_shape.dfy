// The character shape record of DocInfo (Tables 33-35 of the format,
// crates/hwp-core/src/document/docinfo/char_shape.rs): seven font ids and
// four per-language byte arrays, the base size, the attribute DWORD, shadow
// spacings, four colours, and two trailing fields that later versions add.

module CharShape {
  import opened Bytes
  import opened Errors
  import opened BitFlags

  // One value per language: Korean, English, Chinese, Japanese, other, symbol, user.
  datatype LanguageFontInfo = LanguageFontInfo(korean: u16, english: u16, chinese: u16, japanese: u16,
                                               other: u16, symbol: u16, user: u16)

  datatype LanguageCharAttributesU8 = LanguageCharAttributesU8(korean: byte, english: byte, chinese: byte,
    japanese: byte, other: byte, symbol: byte, user: byte)

  datatype LanguageCharAttributesI8 = LanguageCharAttributesI8(korean: i8, english: i8, chinese: i8,
    japanese: i8, other: i8, symbol: i8, user: i8)

  datatype CharShapeAttributes = CharShapeAttributes(
    italic: bool, bold: bool, underlineType: byte, underlineStyle: byte, outlineType: byte, shadowType: byte,
    emboss: bool, engrave: bool, superscript: bool, subscript: bool, strikethrough: byte, emphasisMark: byte,
    useFontSpacing: bool, strikethroughStyle: byte, kerning: bool)

  datatype CharShape = CharShape(
    fontIds: LanguageFontInfo,
    fontStretch: LanguageCharAttributesU8,
    letterSpacing: LanguageCharAttributesI8,
    relativeSize: LanguageCharAttributesU8,
    textPosition: LanguageCharAttributesI8,
    baseSize: i32,
    attributes: CharShapeAttributes,
    shadowSpacingX: i8,
    shadowSpacingY: i8,
    textColor: u32,
    underlineColor: u32,
    shadingColor: u32,
    shadowColor: u32,
    borderFillId: Option<u16>,
    strikethroughColor: Option<u32>)

  // ---------------------------------------------------------------- attributes

  // The attribute DWORD: bits 0 and 1, the underline type at 2-3 and style
  // at 4-7, outline 8-10, shadow 11-12, single bits 13-16, strikethrough
  // 18-20, emphasis mark 21-24, bit 25, strikethrough style 26-29 and bit 30.
  function CharShapeAttributesOf(v: u32): (a: CharShapeAttributes)
    ensures a.italic <==> HasMask(v, 0x1)
    ensures a.bold <==> HasMask(v, 0x2)
    ensures a.underlineType == (v / 4) % 4
    ensures a.strikethrough == (v / 0x4_0000) % 8
  {
    CharShapeAttributes(HasMask(v, 0x1), HasMask(v, 0x2), (v / 4) % 4, (v / 0x10) % 16, (v / 0x100) % 8,
      (v / 0x800) % 4, HasMask(v, 0x2000), HasMask(v, 0x4000), HasMask(v, 0x8000), HasMask(v, 0x1_0000),
      (v / 0x4_0000) % 8, (v / 0x20_0000) % 16, HasMask(v, 0x200_0000), (v / 0x400_0000) % 16,
      HasMask(v, 0x4000_0000))
  }

  // Every numeric field fits its bit width.
  predicate WellFormedAttributes(a: CharShapeAttributes)
  {
    a.underlineType < 4 && a.underlineStyle < 16 && a.outlineType < 8 && a.shadowType < 4 &&
    a.strikethrough < 8 && a.emphasisMark < 16 && a.strikethroughStyle < 16
  }

  // The attribute DWORD a writer produces: each field at its lowest bit,
  // bit 17 clear.
  function AttributeBits(a: CharShapeAttributes): (v: u32)
    requires WellFormedAttributes(a)
  {
    BoolBit(a.italic) + 2 * BoolBit(a.bold) + 4 * a.underlineType + 0x10 * a.underlineStyle + 0x100 * a.outlineType +
    0x800 * a.shadowType + 0x2000 * BoolBit(a.emboss) + 0x4000 * BoolBit(a.engrave) + 0x8000 * BoolBit(a.superscript) +
    0x1_0000 * BoolBit(a.subscript) + 0x4_0000 * a.strikethrough + 0x20_0000 * a.emphasisMark +
    0x200_0000 * BoolBit(a.useFontSpacing) + 0x400_0000 * a.strikethroughStyle + 0x4000_0000 * BoolBit(a.kerning)
  }

  // A flag read back from its bit.
  // The fields of bits 0 to 10 of a DWORD laid out field by field.
  lemma LowBits(v: nat, b0: nat, b1: nat, c2: nat, c4: nat, c8: nat, hi: nat)
    requires b0 < 2 && b1 < 2 && c2 < 4 && c4 < 16 && c8 < 8
    requires v == b0 + 2 * b1 + 4 * c2 + 0x10 * c4 + 0x100 * c8 + 0x800 * hi
    ensures v / 1 % 2 == b0 && v / 2 % 2 == b1 && v / 4 % 4 == c2 && v / 0x10 % 16 == c4 && v / 0x100 % 8 == c8
  {
    FieldIn(v, 0, 1, b0, 2, b1 + 2 * (c2 + 4 * (c4 + 16 * (c8 + 8 * hi))));
    FieldIn(v, b0, 2, b1, 2, c2 + 4 * (c4 + 16 * (c8 + 8 * hi)));
    FieldIn(v, b0 + 2 * b1, 4, c2, 4, c4 + 16 * (c8 + 8 * hi));
    FieldIn(v, b0 + 2 * b1 + 4 * c2, 0x10, c4, 16, c8 + 8 * hi);
    FieldIn(v, b0 + 2 * b1 + 4 * c2 + 0x10 * c4, 0x100, c8, 8, hi);
  }

  // The fields of bits 11 to 16.
  lemma MiddleBits(v: nat, lo: nat, c11: nat, b13: nat, b14: nat, b15: nat, b16: nat, hi: nat)
    requires lo < 0x800 && c11 < 4 && b13 < 2 && b14 < 2 && b15 < 2 && b16 < 2
    requires v == lo + 0x800 * c11 + 0x2000 * b13 + 0x4000 * b14 + 0x8000 * b15 + 0x1_0000 * b16 + 0x2_0000 * hi
    ensures v / 0x800 % 4 == c11 && v / 0x2000 % 2 == b13 && v / 0x4000 % 2 == b14 && v / 0x8000 % 2 == b15
    ensures v / 0x1_0000 % 2 == b16
  {
    FieldIn(v, lo, 0x800, c11, 4, b13 + 2 * (b14 + 2 * (b15 + 2 * (b16 + 2 * hi))));
    FieldIn(v, lo + 0x800 * c11, 0x2000, b13, 2, b14 + 2 * (b15 + 2 * (b16 + 2 * hi)));
    FieldIn(v, lo + 0x800 * c11 + 0x2000 * b13, 0x4000, b14, 2, b15 + 2 * (b16 + 2 * hi));
    FieldIn(v, lo + 0x800 * c11 + 0x2000 * b13 + 0x4000 * b14, 0x8000, b15, 2, b16 + 2 * hi);
    FieldIn(v, lo + 0x800 * c11 + 0x2000 * b13 + 0x4000 * b14 + 0x8000 * b15, 0x1_0000, b16, 2, hi);
  }

  // The fields of bits 18 to 30.
  lemma HighBits(v: nat, lo: nat, c18: nat, c21: nat, b25: nat, c26: nat, b30: nat)
    requires lo < 0x4_0000 && c18 < 8 && c21 < 16 && b25 < 2 && c26 < 16 && b30 < 2
    requires v == lo + 0x4_0000 * c18 + 0x20_0000 * c21 + 0x200_0000 * b25 + 0x400_0000 * c26 + 0x4000_0000 * b30
    ensures v / 0x4_0000 % 8 == c18 && v / 0x20_0000 % 16 == c21 && v / 0x200_0000 % 2 == b25
    ensures v / 0x400_0000 % 16 == c26 && v / 0x4000_0000 % 2 == b30
  {
    FieldIn(v, lo, 0x4_0000, c18, 8, c21 + 16 * (b25 + 2 * (c26 + 16 * b30)));
    FieldIn(v, lo + 0x4_0000 * c18, 0x20_0000, c21, 16, b25 + 2 * (c26 + 16 * b30));
    FieldIn(v, lo + 0x4_0000 * c18 + 0x20_0000 * c21, 0x200_0000, b25, 2, c26 + 16 * b30);
    FieldIn(v, lo + 0x4_0000 * c18 + 0x20_0000 * c21 + 0x200_0000 * b25, 0x400_0000, c26, 16, b30);
    FieldIn(v, lo + 0x4_0000 * c18 + 0x20_0000 * c21 + 0x200_0000 * b25 + 0x400_0000 * c26, 0x4000_0000, b30, 2, 0);
  }

  lemma LowAttributes(a: CharShapeAttributes)
    requires WellFormedAttributes(a)
    ensures var d := CharShapeAttributesOf(AttributeBits(a));
      d.italic == a.italic && d.bold == a.bold && d.underlineType == a.underlineType &&
      d.underlineStyle == a.underlineStyle && d.outlineType == a.outlineType
  {
    var v := AttributeBits(a);
    var hi := a.shadowType + 4 * BoolBit(a.emboss) + 8 * BoolBit(a.engrave) + 0x10 * BoolBit(a.superscript) +
      0x20 * BoolBit(a.subscript) + 0x80 * a.strikethrough + 0x400 * a.emphasisMark +
      0x4000 * BoolBit(a.useFontSpacing) + 0x8000 * a.strikethroughStyle + 0x8_0000 * BoolBit(a.kerning);
    LowBits(v, BoolBit(a.italic), BoolBit(a.bold), a.underlineType, a.underlineStyle, a.outlineType, hi);
    BoolBitMask(a.italic, v, 1);
    BoolBitMask(a.bold, v, 2);
  }

  lemma MiddleAttributes(a: CharShapeAttributes)
    requires WellFormedAttributes(a)
    ensures var d := CharShapeAttributesOf(AttributeBits(a));
      d.shadowType == a.shadowType && d.emboss == a.emboss && d.engrave == a.engrave &&
      d.superscript == a.superscript && d.subscript == a.subscript
  {
    var v := AttributeBits(a);
    var lo := BoolBit(a.italic) + 2 * BoolBit(a.bold) + 4 * a.underlineType + 0x10 * a.underlineStyle +
      0x100 * a.outlineType;
    var hi := 2 * a.strikethrough + 0x10 * a.emphasisMark + 0x100 * BoolBit(a.useFontSpacing) +
      0x200 * a.strikethroughStyle + 0x2000 * BoolBit(a.kerning);
    MiddleBits(v, lo, a.shadowType, BoolBit(a.emboss), BoolBit(a.engrave), BoolBit(a.superscript), BoolBit(a.subscript), hi);
    BoolBitMask(a.emboss, v, 0x2000);
    BoolBitMask(a.engrave, v, 0x4000);
    BoolBitMask(a.superscript, v, 0x8000);
    BoolBitMask(a.subscript, v, 0x1_0000);
  }

  lemma HighAttributes(a: CharShapeAttributes)
    requires WellFormedAttributes(a)
    ensures var d := CharShapeAttributesOf(AttributeBits(a));
      d.strikethrough == a.strikethrough && d.emphasisMark == a.emphasisMark &&
      d.useFontSpacing == a.useFontSpacing && d.strikethroughStyle == a.strikethroughStyle &&
      d.kerning == a.kerning
  {
    var v := AttributeBits(a);
    var lo := BoolBit(a.italic) + 2 * BoolBit(a.bold) + 4 * a.underlineType + 0x10 * a.underlineStyle +
      0x100 * a.outlineType + 0x800 * a.shadowType + 0x2000 * BoolBit(a.emboss) + 0x4000 * BoolBit(a.engrave) +
      0x8000 * BoolBit(a.superscript) + 0x1_0000 * BoolBit(a.subscript);
    HighBits(v, lo, a.strikethrough, a.emphasisMark, BoolBit(a.useFontSpacing), a.strikethroughStyle,
      BoolBit(a.kerning));
    BoolBitMask(a.useFontSpacing, v, 0x200_0000);
    BoolBitMask(a.kerning, v, 0x4000_0000);
  }

  // Every attribute DWORD a writer can produce reads back as itself.
  lemma AttributesRoundTrip(a: CharShapeAttributes)
    requires WellFormedAttributes(a)
    ensures CharShapeAttributesOf(AttributeBits(a)) == a
  {
    LowAttributes(a);
    MiddleAttributes(a);
    HighAttributes(a);
  }

  // ------------------------------------------------------------- the record

  function FontIdsAt(data: seq<byte>, o: nat): LanguageFontInfo
    requires o + 14 <= |data|
  {
    LanguageFontInfo(U16(data, o), U16(data, o + 2), U16(data, o + 4), U16(data, o + 6), U16(data, o + 8),
      U16(data, o + 10), U16(data, o + 12))
  }

  function U8sAt(data: seq<byte>, o: nat): LanguageCharAttributesU8
    requires o + 7 <= |data|
  {
    LanguageCharAttributesU8(data[o], data[o + 1], data[o + 2], data[o + 3], data[o + 4], data[o + 5],
      data[o + 6])
  }

  // `i8::from_le_bytes` of each byte: the two's-complement value.
  function I8sAt(data: seq<byte>, o: nat): LanguageCharAttributesI8
    requires o + 7 <= |data|
  {
    LanguageCharAttributesI8(AsI8(data[o]), AsI8(data[o + 1]), AsI8(data[o + 2]), AsI8(data[o + 3]),
      AsI8(data[o + 4]), AsI8(data[o + 5]), AsI8(data[o + 6]))
  }

  // The fields at their offsets, for data holding the 68 fixed bytes: the
  // border-fill id needs 70 bytes and the strikethrough colour 74.
  function CharShapeAt(data: seq<byte>): (c: CharShape)
    requires 68 <= |data|
    ensures c.borderFillId.Some? <==> 70 <= |data|
    ensures c.strikethroughColor.Some? <==> 74 <= |data|
    ensures c.borderFillId.Some? ==> c.borderFillId.value == U16(data, 68)
    ensures c.strikethroughColor.Some? ==> c.strikethroughColor.value == U32(data, 70)
  {
    var border := if 70 <= |data| then Some(U16(data, 68)) else None;
    var strike := if 74 <= |data| then Some(U32(data, 70)) else None;
    CharShape(FontIdsAt(data, 0), U8sAt(data, 14), I8sAt(data, 21), U8sAt(data, 28), I8sAt(data, 35),
      I32(data, 42), CharShapeAttributesOf(U32(data, 46)), AsI8(data[50]), AsI8(data[51]), U32(data, 52),
      U32(data, 56), U32(data, 60), U32(data, 64), border, strike)
  }

  // CharShape::parse as written: the guard admits 66 and 67 bytes, but the
  // shadow colour is bytes 64..68.
  function CharShapeAsWritten(data: seq<byte>): (r: Outcome<CharShape>)
  {
    if |data| < 66 then Returned(Err(InsufficientData("CharShape", 66, |data|)))
    else if |data| < 68 then IndexOutOfBounds
    else Returned(Ok(CharShapeAt(data)))
  }

  // The evidently intended guard covers the 68 bytes always read.
  function CharShapeOf(data: seq<byte>): (r: Result<CharShape>)
    ensures r.Err? <==> |data| < 68
    ensures r.Err? ==> r.error == InsufficientData("CharShape", 68, |data|)
    ensures r.Ok? ==> r.value == CharShapeAt(data)
  {
    if |data| < 68 then Err(InsufficientData("CharShape", 68, |data|))
    else Ok(CharShapeAt(data))
  }

  // The counterexample: 66 bytes pass the guard.
  lemma CharShapePastEnd()
    ensures CharShapeAsWritten(Zeros(66)) == IndexOutOfBounds
    ensures CharShapeOf(Zeros(66)) == Err(InsufficientData("CharShape", 68, 66))
  {
  }

  // Wherever the code as written returns a value, the corrected parser
  // returns the same value.
  lemma CharShapeAgree(data: seq<byte>)
    requires CharShapeAsWritten(data).Returned? && CharShapeAsWritten(data).result.Ok?
    ensures CharShapeAsWritten(data) == Returned(CharShapeOf(data))
  {
  }

  // CharShape::parse with its running offset, under the corrected guard.
  method ParseCharShape(data: seq<byte>, version: u32) returns (r: Result<CharShape>)
    ensures r == CharShapeOf(data)
  {
    if |data| < 68 {
      return Err(InsufficientData("CharShape", 68, |data|));
    }
    var offset := 0;
    var fontIds := FontIdsAt(data, offset);
    offset := offset + 14;
    var fontStretch := U8sAt(data, offset);
    offset := offset + 7;
    var letterSpacing := I8sAt(data, offset);
    offset := offset + 7;
    var relativeSize := U8sAt(data, offset);
    offset := offset + 7;
    var textPosition := I8sAt(data, offset);
    offset := offset + 7;
    var baseSize := I32(data, offset);
    offset := offset + 4;
    var attrValue := U32(data, offset);
    offset := offset + 4;
    var attributes := CharShapeAttributesOf(attrValue);
    var shadowSpacingX := AsI8(data[offset]);
    offset := offset + 1;
    var shadowSpacingY := AsI8(data[offset]);
    offset := offset + 1;
    var textColor := U32(data, offset);
    offset := offset + 4;
    var underlineColor := U32(data, offset);
    offset := offset + 4;
    var shadingColor := U32(data, offset);
    offset := offset + 4;
    var shadowColor := U32(data, offset);
    offset := offset + 4;
    var borderFillId: Option<u16> := None;
    if |data| >= 66 && offset + 2 <= |data| {
      borderFillId := Some(U16(data, offset));
    }
    if borderFillId.Some? {
      offset := offset + 2;
    }
    var strikethroughColor: Option<u32> := None;
    if |data| >= 70 && offset + 4 <= |data| {
      strikethroughColor := Some(U32(data, offset));
    }
    r := Ok(CharShape(fontIds, fontStretch, letterSpacing, relativeSize, textPosition, baseSize, attributes,
      shadowSpacingX, shadowSpacingY, textColor, underlineColor, shadingColor, shadowColor, borderFillId,
      strikethroughColor));
  }

  // ----------------------------------------------------------------- writers

  function FontIdWords(f: LanguageFontInfo): (hs: seq<u16>)
    ensures |hs| == 7
  {
    [f.korean, f.english, f.chinese, f.japanese, f.other, f.symbol, f.user]
  }

  function U8Bytes(l: LanguageCharAttributesU8): (r: seq<byte>)
    ensures |r| == 7
  {
    [l.korean, l.english, l.chinese, l.japanese, l.other, l.symbol, l.user]
  }

  function I8Bytes(l: LanguageCharAttributesI8): (r: seq<byte>)
    ensures |r| == 7
  {
    [FromI8(l.korean), FromI8(l.english), FromI8(l.chinese), FromI8(l.japanese), FromI8(l.other),
     FromI8(l.symbol), FromI8(l.user)]
  }

  // The writer side: fields that fit their widths, and a strikethrough
  // colour only after a border-fill id.
  predicate WellFormedCharShape(c: CharShape)
  {
    WellFormedAttributes(c.attributes) && (c.strikethroughColor.Some? ==> c.borderFillId.Some?)
  }

  // The 28 bytes of the four per-language arrays.
  function LanguageArrays(c: CharShape): (r: seq<byte>)
    ensures |r| == 28
  {
    U8Bytes(c.fontStretch) + I8Bytes(c.letterSpacing) + U8Bytes(c.relativeSize) + I8Bytes(c.textPosition)
  }

  function Colors(c: CharShape): seq<u32>
  {
    [c.textColor, c.underlineColor, c.shadingColor, c.shadowColor]
  }

  function OptionalTail(c: CharShape): seq<byte>
  {
    (if c.borderFillId.Some? then Le16(c.borderFillId.value) else []) +
    (if c.strikethroughColor.Some? then Le32(c.strikethroughColor.value) else [])
  }

  // The base size and the attribute word, which sit together.
  function SizeAndAttributes(c: CharShape): (ws: seq<u32>)
    requires WellFormedAttributes(c.attributes)
    ensures |ws| == 2
  {
    [FromI32(c.baseSize), AttributeBits(c.attributes)]
  }

  function FixedPart(c: CharShape): (r: seq<byte>)
    requires WellFormedAttributes(c.attributes)
    ensures |r| == 68
  {
    Halves(FontIdWords(c.fontIds)) + (LanguageArrays(c) + (Words(SizeAndAttributes(c)) +
      ([FromI8(c.shadowSpacingX), FromI8(c.shadowSpacingY)] + Words(Colors(c)))))
  }

  function EncodeCharShape(c: CharShape): seq<byte>
    requires WellFormedCharShape(c)
  {
    FixedPart(c) + OptionalTail(c)
  }

  // The 26 bytes after the arrays: two DWORDs, two INT8s, four DWORDs.
  lemma MiddleLayout(two: seq<u32>, sh: seq<byte>, ws: seq<u32>, rest: seq<byte>)
    requires |two| == 2 && |sh| == 2 && |ws| == 4
    ensures var m := Words(two) + (sh + Words(ws)) + rest;
      U32(m, 0) == two[0] && U32(m, 4) == two[1] && m[8] == sh[0] && m[9] == sh[1] &&
      U32(m, 10) == ws[0] && U32(m, 14) == ws[1] && U32(m, 18) == ws[2] && U32(m, 22) == ws[3]
  {
    var t := sh + Words(ws) + rest;
    assert Words(two) + (sh + Words(ws)) + rest == Words(two) + t;
    WordAt(two, 0, t);
    WordAt(two, 1, t);
    var q := Words(two) + sh;
    var u := Words(ws) + rest;
    assert Words(two) + (sh + Words(ws)) + rest == q + u;
    WordAt(ws, 0, rest);
    WordAt(ws, 1, rest);
    WordAt(ws, 2, rest);
    WordAt(ws, 3, rest);
    U32Skip(q, u, 0);
    U32Skip(q, u, 4);
    U32Skip(q, u, 8);
    U32Skip(q, u, 12);
  }

  // Reading each group back from where the writer put it.
  lemma FontIdsRead(f: LanguageFontInfo, t: seq<byte>)
    ensures FontIdsAt(Halves(FontIdWords(f)) + t, 0) == f
  {
    var hs := FontIdWords(f);
    HalfAt(hs, 0, t);
    HalfAt(hs, 1, t);
    HalfAt(hs, 2, t);
    HalfAt(hs, 3, t);
    HalfAt(hs, 4, t);
    HalfAt(hs, 5, t);
    HalfAt(hs, 6, t);
  }

  lemma ArraysRead(c: CharShape, t: seq<byte>)
    ensures var s := LanguageArrays(c) + t;
      U8sAt(s, 0) == c.fontStretch && I8sAt(s, 7) == c.letterSpacing &&
      U8sAt(s, 14) == c.relativeSize && I8sAt(s, 21) == c.textPosition
  {
    var s := LanguageArrays(c) + t;
    assert s[7..14] == I8Bytes(c.letterSpacing);
    assert s[21..28] == I8Bytes(c.textPosition);
  }

  // The fixed 68 bytes read back field by field.
  lemma FixedFields(c: CharShape, rest: seq<byte>)
    requires WellFormedAttributes(c.attributes)
    ensures var s := FixedPart(c) + rest;
      FontIdsAt(s, 0) == c.fontIds && U8sAt(s, 14) == c.fontStretch && I8sAt(s, 21) == c.letterSpacing &&
      U8sAt(s, 28) == c.relativeSize && I8sAt(s, 35) == c.textPosition &&
      I32(s, 42) == c.baseSize && U32(s, 46) == AttributeBits(c.attributes) &&
      AsI8(s[50]) == c.shadowSpacingX && AsI8(s[51]) == c.shadowSpacingY && U32(s, 52) == c.textColor &&
      U32(s, 56) == c.underlineColor && U32(s, 60) == c.shadingColor && U32(s, 64) == c.shadowColor
  {
    var h := Halves(FontIdWords(c.fontIds));
    var a := LanguageArrays(c);
    var two, sh, ws := SizeAndAttributes(c), [FromI8(c.shadowSpacingX), FromI8(c.shadowSpacingY)], Colors(c);
    var m := Words(two) + (sh + Words(ws)) + rest;
    var s := FixedPart(c) + rest;
    assert s == h + (a + m);
    FontIdsRead(c.fontIds, a + m);
    ArraysRead(c, m);
    assert s[14..42] == (a + m)[..28];
    assert U8sAt(s, 14) == U8sAt(a + m, 0) && I8sAt(s, 21) == I8sAt(a + m, 7);
    assert U8sAt(s, 28) == U8sAt(a + m, 14) && I8sAt(s, 35) == I8sAt(a + m, 21);
    MiddleLayout(two, sh, ws, rest);
    assert s == (h + a) + m;
    U32Skip(h + a, m, 0);
    U32Skip(h + a, m, 4);
    U32Skip(h + a, m, 10);
    U32Skip(h + a, m, 14);
    U32Skip(h + a, m, 18);
    U32Skip(h + a, m, 22);
  }

  lemma TailFields(c: CharShape)
    requires WellFormedCharShape(c)
    ensures var s := EncodeCharShape(c);
      |s| == 68 + (if c.borderFillId.Some? then 2 else 0) + (if c.strikethroughColor.Some? then 4 else 0) &&
      (c.borderFillId.Some? ==> U16(s, 68) == c.borderFillId.value) &&
      (c.strikethroughColor.Some? ==> U32(s, 70) == c.strikethroughColor.value)
  {
    var f := FixedPart(c);
    var s := EncodeCharShape(c);
    if c.borderFillId.Some? {
      var st := if c.strikethroughColor.Some? then Le32(c.strikethroughColor.value) else [];
      assert s == f + Le16(c.borderFillId.value) + st;
      Le16Read(f, c.borderFillId.value, st);
      if c.strikethroughColor.Some? {
        assert s == (f + Le16(c.borderFillId.value)) + Le32(c.strikethroughColor.value) + [];
        Le32Read(f + Le16(c.borderFillId.value), c.strikethroughColor.value, []);
      }
    }
  }

  // Every well-formed character shape reads back as itself; the length of
  // the encoding announces the optional fields.
  lemma CharShapeRoundTrip(c: CharShape)
    requires WellFormedCharShape(c)
    ensures CharShapeOf(EncodeCharShape(c)) == Ok(c)
  {
    var s := EncodeCharShape(c);
    FixedFields(c, OptionalTail(c));
    TailFields(c);
    AttributesRoundTrip(c.attributes);
  }
}
