// The paragraph shape record of DocInfo (Tables 43-46 of the format,
// crates/hwp-core/src/document/docinfo/para_shape.rs): the first attribute
// DWORD, seven INT32 margins and spacings, three ids, four INT16 border
// spacings, and three trailing fields gated by the document version.

module ParaShape {
  import opened Bytes
  import opened Errors
  import opened BitFlags

  // ------------------------------------------------------------ enumerations

  datatype LineSpacingTypeOld = OldByCharacter | OldFixed | OldMarginOnly
  datatype ParagraphAlignment = Justify | Left | Right | Center | Distribute | Divide
  datatype LineDivideUnit = Word | Hyphen | Character
  datatype VerticalAlignment = Baseline | Top | VCenter | Bottom
  datatype HeaderShapeType = NoHeader | Outline | Number | Bullet
  datatype LineSpacingType = ByCharacter | Fixed | MarginOnly | Minimum

  // Each decoder takes the already shifted and masked bit field; an unused
  // code falls back to the first variant.
  function LineSpacingTypeOldOf(code: nat): (t: LineSpacingTypeOld)
    ensures t == OldFixed <==> code == 1
    ensures t == OldMarginOnly <==> code == 2
  {
    if code == 1 then OldFixed else if code == 2 then OldMarginOnly else OldByCharacter
  }

  function LineSpacingTypeOldCode(t: LineSpacingTypeOld): (c: nat)
    ensures c < 3 && LineSpacingTypeOldOf(c) == t
  {
    match t
    case OldByCharacter => 0
    case OldFixed => 1
    case OldMarginOnly => 2
  }

  function ParagraphAlignmentOf(code: nat): (a: ParagraphAlignment)
    ensures a == Justify <==> code == 0 || code > 5
    ensures a == Left <==> code == 1
    ensures a == Right <==> code == 2
    ensures a == Center <==> code == 3
    ensures a == Distribute <==> code == 4
    ensures a == Divide <==> code == 5
  {
    if code == 1 then Left
    else if code == 2 then Right
    else if code == 3 then Center
    else if code == 4 then Distribute
    else if code == 5 then Divide
    else Justify
  }

  function ParagraphAlignmentCode(a: ParagraphAlignment): (c: nat)
    ensures c < 6 && ParagraphAlignmentOf(c) == a
  {
    match a
    case Justify => 0
    case Left => 1
    case Right => 2
    case Center => 3
    case Distribute => 4
    case Divide => 5
  }

  // The English line break unit takes two bits; the Korean one a single
  // bit, which can only say Word or Character.
  function LineDivideUnitOf(code: nat): (u: LineDivideUnit)
    ensures u == Hyphen <==> code == 1
    ensures u == Character <==> code == 2
  {
    if code == 1 then Hyphen else if code == 2 then Character else Word
  }

  function LineDivideUnitCode(u: LineDivideUnit): (c: nat)
    ensures c < 3 && LineDivideUnitOf(c) == u
  {
    match u
    case Word => 0
    case Hyphen => 1
    case Character => 2
  }

  function LineDivideKoOf(bit: bool): (u: LineDivideUnit)
    ensures u != Hyphen
    ensures u == Character <==> bit
  {
    if bit then Character else Word
  }

  function VerticalAlignmentOf(code: nat): (v: VerticalAlignment)
    ensures v == Top <==> code == 1
    ensures v == VCenter <==> code == 2
    ensures v == Bottom <==> code == 3
  {
    if code == 1 then Top else if code == 2 then VCenter else if code == 3 then Bottom else Baseline
  }

  function VerticalAlignmentCode(v: VerticalAlignment): (c: nat)
    ensures c < 4 && VerticalAlignmentOf(c) == v
  {
    match v
    case Baseline => 0
    case Top => 1
    case VCenter => 2
    case Bottom => 3
  }

  function HeaderShapeTypeOf(code: nat): (h: HeaderShapeType)
    ensures h == Outline <==> code == 1
    ensures h == Number <==> code == 2
    ensures h == Bullet <==> code == 3
  {
    if code == 1 then Outline else if code == 2 then Number else if code == 3 then Bullet else NoHeader
  }

  function HeaderShapeTypeCode(h: HeaderShapeType): (c: nat)
    ensures c < 4 && HeaderShapeTypeOf(c) == h
  {
    match h
    case NoHeader => 0
    case Outline => 1
    case Number => 2
    case Bullet => 3
  }

  function LineSpacingTypeOf(code: nat): (t: LineSpacingType)
    ensures t == Fixed <==> code == 1
    ensures t == MarginOnly <==> code == 2
    ensures t == Minimum <==> code == 3
  {
    if code == 1 then Fixed else if code == 2 then MarginOnly else if code == 3 then Minimum else ByCharacter
  }

  function LineSpacingTypeCode(t: LineSpacingType): (c: nat)
    ensures c < 4 && LineSpacingTypeOf(c) == t
  {
    match t
    case ByCharacter => 0
    case Fixed => 1
    case MarginOnly => 2
    case Minimum => 3
  }

  // -------------------------------------------------------------- attributes

  datatype ParaShapeAttributes1 = ParaShapeAttributes1(
    lineSpacingTypeOld: LineSpacingTypeOld, align: ParagraphAlignment, lineDivideEn: LineDivideUnit,
    lineDivideKo: LineDivideUnit, useLineGrid: bool, blankMinValue: byte, protectOrphanLine: bool,
    withNextParagraph: bool, protectParagraph: bool, alwaysPageBreakBefore: bool,
    verticalAlign: VerticalAlignment, lineHeightMatchesFont: bool, headerShapeType: HeaderShapeType,
    paragraphLevel: byte, connectBorder: bool, ignoreMargin: bool, tailShape: bool)

  datatype ParaShapeAttributes2 = ParaShapeAttributes2(singleLineInput: byte, autoSpacingKoEn: bool,
                                                       autoSpacingKoNum: bool)

  datatype ParaShapeAttributes3 = ParaShapeAttributes3(lineSpacingType: LineSpacingType)

  // Table 44: the old line spacing type at bits 0-1, the alignment at 2-4,
  // the break units at 5-6 and 7, bit 8, the minimum blank at 9-15, bits
  // 16-19, the vertical alignment at 20-21, bit 22, the header shape type at
  // 23-24, the paragraph level at 25-27 and bits 28-30.
  function ParaShapeAttributes1Of(v: u32): (a: ParaShapeAttributes1)
    ensures a.align == ParagraphAlignmentOf(v / 4 % 8)
    ensures a.blankMinValue == v / 0x200 % 0x80
    ensures a.paragraphLevel == v / 0x200_0000 % 8
  {
    ParaShapeAttributes1(LineSpacingTypeOldOf(v % 4), ParagraphAlignmentOf(v / 4 % 8),
      LineDivideUnitOf(v / 0x20 % 4), LineDivideKoOf(HasMask(v, 0x80)), HasMask(v, 0x100),
      v / 0x200 % 0x80, HasMask(v, 0x1_0000), HasMask(v, 0x2_0000), HasMask(v, 0x4_0000),
      HasMask(v, 0x8_0000), VerticalAlignmentOf(v / 0x10_0000 % 4), HasMask(v, 0x40_0000),
      HeaderShapeTypeOf(v / 0x80_0000 % 4), v / 0x200_0000 % 8, HasMask(v, 0x1000_0000),
      HasMask(v, 0x2000_0000), HasMask(v, 0x4000_0000))
  }

  // Table 45: the single-line input at bits 0-1 and the automatic spacing
  // bits 4 and 5.
  function ParaShapeAttributes2Of(v: u32): (a: ParaShapeAttributes2)
    ensures a.singleLineInput < 4
  {
    ParaShapeAttributes2(v % 4, HasMask(v, 0x10), HasMask(v, 0x20))
  }

  // Table 46: the line spacing type at bits 0-4.
  function ParaShapeAttributes3Of(v: u32): (a: ParaShapeAttributes3)
  {
    ParaShapeAttributes3(LineSpacingTypeOf(v % 0x20))
  }

  // Attributes a writer can produce: the Korean break unit fits its bit and
  // the numeric fields their widths.
  predicate WellFormedAttributes1(a: ParaShapeAttributes1)
  {
    a.lineDivideKo != Hyphen && a.blankMinValue < 0x80 && a.paragraphLevel < 8
  }

  // The first attribute DWORD, each field at its lowest bit: the field
  // names give the bit a field starts at.
  function Attributes1Word(c0: nat, c2: nat, c5: nat, b7: nat, b8: nat, c9: nat, b16: nat, b17: nat, b18: nat, b19: nat, c20: nat, b22: nat, c23: nat, c25: nat, b28: nat, b29: nat, b30: nat): nat
  {
    c0 + 4 * c2 + 0x20 * c5 + 0x80 * b7 + 0x100 * b8 + 0x200 * c9 + 0x1_0000 * b16 + 0x2_0000 * b17 +
    0x4_0000 * b18 + 0x8_0000 * b19 + 0x10_0000 * c20 + 0x40_0000 * b22 + 0x80_0000 * c23 + 0x200_0000 * c25 +
    0x1000_0000 * b28 + 0x2000_0000 * b29 + 0x4000_0000 * b30
  }

  // The widths of the seventeen fields.
  predicate Fit1(c0: nat, c2: nat, c5: nat, b7: nat, b8: nat, c9: nat, b16: nat, b17: nat, b18: nat, b19: nat, c20: nat, b22: nat, c23: nat, c25: nat, b28: nat, b29: nat, b30: nat)
  {
    c0 < 4 && c2 < 8 && c5 < 4 && b7 < 2 && b8 < 2 && c9 < 0x80 && b16 < 2 && b17 < 2 && b18 < 2 && b19 < 2 &&
    c20 < 4 && b22 < 2 && c23 < 4 && c25 < 8 && b28 < 2 && b29 < 2 && b30 < 2
  }

  function Attributes1Bits(a: ParaShapeAttributes1): (v: u32)
    requires WellFormedAttributes1(a)
  {
    Attributes1Word(LineSpacingTypeOldCode(a.lineSpacingTypeOld), ParagraphAlignmentCode(a.align),
      LineDivideUnitCode(a.lineDivideEn), BoolBit(a.lineDivideKo == Character), BoolBit(a.useLineGrid),
      a.blankMinValue, BoolBit(a.protectOrphanLine), BoolBit(a.withNextParagraph), BoolBit(a.protectParagraph),
      BoolBit(a.alwaysPageBreakBefore), VerticalAlignmentCode(a.verticalAlign), BoolBit(a.lineHeightMatchesFont),
      HeaderShapeTypeCode(a.headerShapeType), a.paragraphLevel, BoolBit(a.connectBorder), BoolBit(a.ignoreMargin),
      BoolBit(a.tailShape))
  }

  // A flag read back from its bit.
  // The fields below bit 9.
  lemma LowBits(c0: nat, c2: nat, c5: nat, b7: nat, b8: nat, c9: nat, b16: nat, b17: nat, b18: nat, b19: nat, c20: nat, b22: nat, c23: nat, c25: nat, b28: nat, b29: nat, b30: nat)
    requires Fit1(c0, c2, c5, b7, b8, c9, b16, b17, b18, b19, c20, b22, c23, c25, b28, b29, b30)
    ensures var v := Attributes1Word(c0, c2, c5, b7, b8, c9, b16, b17, b18, b19, c20, b22, c23, c25, b28, b29, b30);
      v % 4 == c0 && v / 4 % 8 == c2 && v / 0x20 % 4 == c5 && v / 0x80 % 2 == b7 && v / 0x100 % 2 == b8
  {
    var v := Attributes1Word(c0, c2, c5, b7, b8, c9, b16, b17, b18, b19, c20, b22, c23, c25, b28, b29, b30);
    var hi := c9 + 0x80 * b16 + 0x100 * b17 + 0x200 * b18 + 0x400 * b19 + 0x800 * c20 + 0x2000 * b22 +
      0x4000 * c23 + 0x1_0000 * c25 + 0x8_0000 * b28 + 0x10_0000 * b29 + 0x20_0000 * b30;
    FieldIn(v, 0, 1, c0, 4, c2 + 8 * (c5 + 4 * (b7 + 2 * (b8 + 2 * hi))));
    assert v / 1 == v;
    FieldIn(v, c0, 4, c2, 8, c5 + 4 * (b7 + 2 * (b8 + 2 * hi)));
    FieldIn(v, c0 + 4 * c2, 0x20, c5, 4, b7 + 2 * (b8 + 2 * hi));
    FieldIn(v, c0 + 4 * c2 + 0x20 * c5, 0x80, b7, 2, b8 + 2 * hi);
    FieldIn(v, c0 + 4 * c2 + 0x20 * c5 + 0x80 * b7, 0x100, b8, 2, hi);
  }

  // The minimum blank and the flags of bits 16-19.
  lemma MiddleBits(c0: nat, c2: nat, c5: nat, b7: nat, b8: nat, c9: nat, b16: nat, b17: nat, b18: nat, b19: nat, c20: nat, b22: nat, c23: nat, c25: nat, b28: nat, b29: nat, b30: nat)
    requires Fit1(c0, c2, c5, b7, b8, c9, b16, b17, b18, b19, c20, b22, c23, c25, b28, b29, b30)
    ensures var v := Attributes1Word(c0, c2, c5, b7, b8, c9, b16, b17, b18, b19, c20, b22, c23, c25, b28, b29, b30);
      v / 0x200 % 0x80 == c9 && v / 0x1_0000 % 2 == b16 && v / 0x2_0000 % 2 == b17 &&
      v / 0x4_0000 % 2 == b18 && v / 0x8_0000 % 2 == b19
  {
    var v := Attributes1Word(c0, c2, c5, b7, b8, c9, b16, b17, b18, b19, c20, b22, c23, c25, b28, b29, b30);
    var lo := c0 + 4 * c2 + 0x20 * c5 + 0x80 * b7 + 0x100 * b8;
    var hi := c20 + 4 * b22 + 8 * c23 + 0x20 * c25 + 0x100 * b28 + 0x200 * b29 + 0x400 * b30;
    FieldIn(v, lo, 0x200, c9, 0x80, b16 + 2 * (b17 + 2 * (b18 + 2 * (b19 + 2 * hi))));
    FieldIn(v, lo + 0x200 * c9, 0x1_0000, b16, 2, b17 + 2 * (b18 + 2 * (b19 + 2 * hi)));
    FieldIn(v, lo + 0x200 * c9 + 0x1_0000 * b16, 0x2_0000, b17, 2, b18 + 2 * (b19 + 2 * hi));
    FieldIn(v, lo + 0x200 * c9 + 0x1_0000 * b16 + 0x2_0000 * b17, 0x4_0000, b18, 2, b19 + 2 * hi);
    FieldIn(v, lo + 0x200 * c9 + 0x1_0000 * b16 + 0x2_0000 * b17 + 0x4_0000 * b18, 0x8_0000, b19, 2, hi);
  }

  // The vertical alignment, bit 22 and the header shape type.
  lemma UpperBits(c0: nat, c2: nat, c5: nat, b7: nat, b8: nat, c9: nat, b16: nat, b17: nat, b18: nat, b19: nat, c20: nat, b22: nat, c23: nat, c25: nat, b28: nat, b29: nat, b30: nat)
    requires Fit1(c0, c2, c5, b7, b8, c9, b16, b17, b18, b19, c20, b22, c23, c25, b28, b29, b30)
    ensures var v := Attributes1Word(c0, c2, c5, b7, b8, c9, b16, b17, b18, b19, c20, b22, c23, c25, b28, b29, b30);
      v / 0x10_0000 % 4 == c20 && v / 0x40_0000 % 2 == b22 && v / 0x80_0000 % 4 == c23
  {
    var v := Attributes1Word(c0, c2, c5, b7, b8, c9, b16, b17, b18, b19, c20, b22, c23, c25, b28, b29, b30);
    var lo := c0 + 4 * c2 + 0x20 * c5 + 0x80 * b7 + 0x100 * b8 + 0x200 * c9 + 0x1_0000 * b16 + 0x2_0000 * b17 +
      0x4_0000 * b18 + 0x8_0000 * b19;
    var hi := c25 + 8 * b28 + 0x10 * b29 + 0x20 * b30;
    FieldIn(v, lo, 0x10_0000, c20, 4, b22 + 2 * (c23 + 4 * hi));
    FieldIn(v, lo + 0x10_0000 * c20, 0x40_0000, b22, 2, c23 + 4 * hi);
    FieldIn(v, lo + 0x10_0000 * c20 + 0x40_0000 * b22, 0x80_0000, c23, 4, hi);
  }

  // The paragraph level and the flags of bits 28-30.
  lemma TopBits(c0: nat, c2: nat, c5: nat, b7: nat, b8: nat, c9: nat, b16: nat, b17: nat, b18: nat, b19: nat, c20: nat, b22: nat, c23: nat, c25: nat, b28: nat, b29: nat, b30: nat)
    requires Fit1(c0, c2, c5, b7, b8, c9, b16, b17, b18, b19, c20, b22, c23, c25, b28, b29, b30)
    ensures var v := Attributes1Word(c0, c2, c5, b7, b8, c9, b16, b17, b18, b19, c20, b22, c23, c25, b28, b29, b30);
      v / 0x200_0000 % 8 == c25 && v / 0x1000_0000 % 2 == b28 && v / 0x2000_0000 % 2 == b29 &&
      v / 0x4000_0000 % 2 == b30
  {
    var v := Attributes1Word(c0, c2, c5, b7, b8, c9, b16, b17, b18, b19, c20, b22, c23, c25, b28, b29, b30);
    var lo := c0 + 4 * c2 + 0x20 * c5 + 0x80 * b7 + 0x100 * b8 + 0x200 * c9 + 0x1_0000 * b16 + 0x2_0000 * b17 +
      0x4_0000 * b18 + 0x8_0000 * b19 + 0x10_0000 * c20 + 0x40_0000 * b22 + 0x80_0000 * c23;
    FieldIn(v, lo, 0x200_0000, c25, 8, b28 + 2 * (b29 + 2 * b30));
    FieldIn(v, lo + 0x200_0000 * c25, 0x1000_0000, b28, 2, b29 + 2 * b30);
    FieldIn(v, lo + 0x200_0000 * c25 + 0x1000_0000 * b28, 0x2000_0000, b29, 2, b30);
    FieldIn(v, lo + 0x200_0000 * c25 + 0x1000_0000 * b28 + 0x2000_0000 * b29, 0x4000_0000, b30, 2, 0);
  }

  lemma Attributes1Low(a: ParaShapeAttributes1)
    requires WellFormedAttributes1(a)
    ensures var d := ParaShapeAttributes1Of(Attributes1Bits(a));
      d.lineSpacingTypeOld == a.lineSpacingTypeOld && d.align == a.align && d.lineDivideEn == a.lineDivideEn &&
      d.lineDivideKo == a.lineDivideKo && d.useLineGrid == a.useLineGrid
  {
    LowBits(LineSpacingTypeOldCode(a.lineSpacingTypeOld), ParagraphAlignmentCode(a.align),
      LineDivideUnitCode(a.lineDivideEn), BoolBit(a.lineDivideKo == Character), BoolBit(a.useLineGrid),
      a.blankMinValue, BoolBit(a.protectOrphanLine), BoolBit(a.withNextParagraph), BoolBit(a.protectParagraph),
      BoolBit(a.alwaysPageBreakBefore), VerticalAlignmentCode(a.verticalAlign), BoolBit(a.lineHeightMatchesFont),
      HeaderShapeTypeCode(a.headerShapeType), a.paragraphLevel, BoolBit(a.connectBorder), BoolBit(a.ignoreMargin),
      BoolBit(a.tailShape));
    BoolBitMask(a.lineDivideKo == Character, Attributes1Bits(a), 0x80);
    BoolBitMask(a.useLineGrid, Attributes1Bits(a), 0x100);
  }

  lemma Attributes1Middle(a: ParaShapeAttributes1)
    requires WellFormedAttributes1(a)
    ensures var d := ParaShapeAttributes1Of(Attributes1Bits(a));
      d.blankMinValue == a.blankMinValue && d.protectOrphanLine == a.protectOrphanLine
  {
    MiddleBits(LineSpacingTypeOldCode(a.lineSpacingTypeOld), ParagraphAlignmentCode(a.align),
      LineDivideUnitCode(a.lineDivideEn), BoolBit(a.lineDivideKo == Character), BoolBit(a.useLineGrid),
      a.blankMinValue, BoolBit(a.protectOrphanLine), BoolBit(a.withNextParagraph), BoolBit(a.protectParagraph),
      BoolBit(a.alwaysPageBreakBefore), VerticalAlignmentCode(a.verticalAlign), BoolBit(a.lineHeightMatchesFont),
      HeaderShapeTypeCode(a.headerShapeType), a.paragraphLevel, BoolBit(a.connectBorder), BoolBit(a.ignoreMargin),
      BoolBit(a.tailShape));
    BoolBitMask(a.protectOrphanLine, Attributes1Bits(a), 0x1_0000);
  }

  lemma Attributes1NextBreak(a: ParaShapeAttributes1)
    requires WellFormedAttributes1(a)
    ensures var d := ParaShapeAttributes1Of(Attributes1Bits(a)); d.withNextParagraph == a.withNextParagraph
  {
    MiddleBits(LineSpacingTypeOldCode(a.lineSpacingTypeOld), ParagraphAlignmentCode(a.align),
      LineDivideUnitCode(a.lineDivideEn), BoolBit(a.lineDivideKo == Character), BoolBit(a.useLineGrid),
      a.blankMinValue, BoolBit(a.protectOrphanLine), BoolBit(a.withNextParagraph), BoolBit(a.protectParagraph),
      BoolBit(a.alwaysPageBreakBefore), VerticalAlignmentCode(a.verticalAlign), BoolBit(a.lineHeightMatchesFont),
      HeaderShapeTypeCode(a.headerShapeType), a.paragraphLevel, BoolBit(a.connectBorder), BoolBit(a.ignoreMargin),
      BoolBit(a.tailShape));
    BoolBitMask(a.withNextParagraph, Attributes1Bits(a), 0x2_0000);
  }

  lemma Attributes1KeepBreak(a: ParaShapeAttributes1)
    requires WellFormedAttributes1(a)
    ensures var d := ParaShapeAttributes1Of(Attributes1Bits(a)); d.protectParagraph == a.protectParagraph
  {
    MiddleBits(LineSpacingTypeOldCode(a.lineSpacingTypeOld), ParagraphAlignmentCode(a.align),
      LineDivideUnitCode(a.lineDivideEn), BoolBit(a.lineDivideKo == Character), BoolBit(a.useLineGrid),
      a.blankMinValue, BoolBit(a.protectOrphanLine), BoolBit(a.withNextParagraph), BoolBit(a.protectParagraph),
      BoolBit(a.alwaysPageBreakBefore), VerticalAlignmentCode(a.verticalAlign), BoolBit(a.lineHeightMatchesFont),
      HeaderShapeTypeCode(a.headerShapeType), a.paragraphLevel, BoolBit(a.connectBorder), BoolBit(a.ignoreMargin),
      BoolBit(a.tailShape));
    BoolBitMask(a.protectParagraph, Attributes1Bits(a), 0x4_0000);
  }

  lemma Attributes1PageBreak(a: ParaShapeAttributes1)
    requires WellFormedAttributes1(a)
    ensures var d := ParaShapeAttributes1Of(Attributes1Bits(a)); d.alwaysPageBreakBefore == a.alwaysPageBreakBefore
  {
    MiddleBits(LineSpacingTypeOldCode(a.lineSpacingTypeOld), ParagraphAlignmentCode(a.align),
      LineDivideUnitCode(a.lineDivideEn), BoolBit(a.lineDivideKo == Character), BoolBit(a.useLineGrid),
      a.blankMinValue, BoolBit(a.protectOrphanLine), BoolBit(a.withNextParagraph), BoolBit(a.protectParagraph),
      BoolBit(a.alwaysPageBreakBefore), VerticalAlignmentCode(a.verticalAlign), BoolBit(a.lineHeightMatchesFont),
      HeaderShapeTypeCode(a.headerShapeType), a.paragraphLevel, BoolBit(a.connectBorder), BoolBit(a.ignoreMargin),
      BoolBit(a.tailShape));
    BoolBitMask(a.alwaysPageBreakBefore, Attributes1Bits(a), 0x8_0000);
  }

  lemma Attributes1Upper(a: ParaShapeAttributes1)
    requires WellFormedAttributes1(a)
    ensures var d := ParaShapeAttributes1Of(Attributes1Bits(a));
      d.verticalAlign == a.verticalAlign && d.lineHeightMatchesFont == a.lineHeightMatchesFont &&
      d.headerShapeType == a.headerShapeType
  {
    UpperBits(LineSpacingTypeOldCode(a.lineSpacingTypeOld), ParagraphAlignmentCode(a.align),
      LineDivideUnitCode(a.lineDivideEn), BoolBit(a.lineDivideKo == Character), BoolBit(a.useLineGrid),
      a.blankMinValue, BoolBit(a.protectOrphanLine), BoolBit(a.withNextParagraph), BoolBit(a.protectParagraph),
      BoolBit(a.alwaysPageBreakBefore), VerticalAlignmentCode(a.verticalAlign), BoolBit(a.lineHeightMatchesFont),
      HeaderShapeTypeCode(a.headerShapeType), a.paragraphLevel, BoolBit(a.connectBorder), BoolBit(a.ignoreMargin),
      BoolBit(a.tailShape));
    BoolBitMask(a.lineHeightMatchesFont, Attributes1Bits(a), 0x40_0000);
  }

  lemma Attributes1Top(a: ParaShapeAttributes1)
    requires WellFormedAttributes1(a)
    ensures var d := ParaShapeAttributes1Of(Attributes1Bits(a));
      d.paragraphLevel == a.paragraphLevel && d.connectBorder == a.connectBorder &&
      d.ignoreMargin == a.ignoreMargin && d.tailShape == a.tailShape
  {
    TopBits(LineSpacingTypeOldCode(a.lineSpacingTypeOld), ParagraphAlignmentCode(a.align),
      LineDivideUnitCode(a.lineDivideEn), BoolBit(a.lineDivideKo == Character), BoolBit(a.useLineGrid),
      a.blankMinValue, BoolBit(a.protectOrphanLine), BoolBit(a.withNextParagraph), BoolBit(a.protectParagraph),
      BoolBit(a.alwaysPageBreakBefore), VerticalAlignmentCode(a.verticalAlign), BoolBit(a.lineHeightMatchesFont),
      HeaderShapeTypeCode(a.headerShapeType), a.paragraphLevel, BoolBit(a.connectBorder), BoolBit(a.ignoreMargin),
      BoolBit(a.tailShape));
    BoolBitMask(a.connectBorder, Attributes1Bits(a), 0x1000_0000);
    BoolBitMask(a.ignoreMargin, Attributes1Bits(a), 0x2000_0000);
    BoolBitMask(a.tailShape, Attributes1Bits(a), 0x4000_0000);
  }

  // Every attribute a writer can produce reads back as itself.
  lemma Attributes1RoundTrip(a: ParaShapeAttributes1)
    requires WellFormedAttributes1(a)
    ensures ParaShapeAttributes1Of(Attributes1Bits(a)) == a
  {
    Attributes1Low(a);
    Attributes1Middle(a);
    Attributes1NextBreak(a);
    Attributes1KeepBreak(a);
    Attributes1PageBreak(a);
    Attributes1Upper(a);
    Attributes1Top(a);
  }

  function Attributes2Bits(a: ParaShapeAttributes2): (v: u32)
    requires a.singleLineInput < 4
  {
    a.singleLineInput + 0x10 * BoolBit(a.autoSpacingKoEn) + 0x20 * BoolBit(a.autoSpacingKoNum)
  }

  lemma Attributes2Layout(v: nat, c0: nat, b4: nat, b5: nat)
    requires c0 < 4 && b4 < 2 && b5 < 2 && v == c0 + 0x10 * b4 + 0x20 * b5
    ensures v % 4 == c0 && v / 0x10 % 2 == b4 && v / 0x20 % 2 == b5
  {
    FieldIn(v, c0, 0x10, b4, 2, b5);
    FieldIn(v, c0 + 0x10 * b4, 0x20, b5, 2, 0);
  }

  lemma Attributes2RoundTrip(a: ParaShapeAttributes2)
    requires a.singleLineInput < 4
    ensures ParaShapeAttributes2Of(Attributes2Bits(a)) == a
  {
    Attributes2Layout(Attributes2Bits(a), a.singleLineInput, BoolBit(a.autoSpacingKoEn), BoolBit(a.autoSpacingKoNum));
    BoolBitMask(a.autoSpacingKoEn, Attributes2Bits(a), 0x10);
    BoolBitMask(a.autoSpacingKoNum, Attributes2Bits(a), 0x20);
  }

  function Attributes3Bits(a: ParaShapeAttributes3): (v: u32)
  {
    LineSpacingTypeCode(a.lineSpacingType)
  }

  lemma Attributes3RoundTrip(a: ParaShapeAttributes3)
    ensures ParaShapeAttributes3Of(Attributes3Bits(a)) == a
  {
  }

  // -------------------------------------------------------------- the record

  datatype ParaShape = ParaShape(
    attributes1: ParaShapeAttributes1,
    leftMargin: i32, rightMargin: i32, indent: i32, outdent: i32, topSpacing: i32, bottomSpacing: i32,
    lineSpacingOld: i32,
    tabDefId: u16, numberBulletId: u16, borderFillId: u16,
    borderSpacingLeft: i16, borderSpacingRight: i16, borderSpacingTop: i16, borderSpacingBottom: i16,
    attributes2: Option<ParaShapeAttributes2>,
    attributes3: Option<ParaShapeAttributes3>,
    lineSpacing: Option<i32>)

  // The first version with the second attribute DWORD (5.0.1.7), and with the
  // third one and the line spacing (5.0.2.5).
  const Attributes2Version: u32 := 0x0001_0107
  const Attributes3Version: u32 := 0x0002_0500

  // The three trailing fields: each is read when its version gate holds and
  // four bytes remain after what was read before it.
  function TrailingFields(data: seq<byte>, version: u32):
    (r: (Option<ParaShapeAttributes2>, Option<ParaShapeAttributes3>, Option<i32>))
    requires 46 <= |data|
    ensures r.0.Some? <==> version >= Attributes2Version && 50 <= |data|
    ensures r.1.Some? <==> version >= Attributes3Version && 54 <= |data|
    ensures r.2.Some? <==> version >= Attributes3Version && 58 <= |data|
    ensures r.0.Some? ==> r.0.value == ParaShapeAttributes2Of(U32(data, 46))
    ensures r.1.Some? ==> r.1.value == ParaShapeAttributes3Of(U32(data, 50))
    ensures r.2.Some? ==> r.2.value == I32(data, 54)
  {
    var a2 := if version >= Attributes2Version && 50 <= |data| then Some(ParaShapeAttributes2Of(U32(data, 46)))
              else None;
    var o3: nat := if a2.Some? then 50 else 46;
    var a3 := if version >= Attributes3Version && o3 + 4 <= |data| then Some(ParaShapeAttributes3Of(U32(data, o3)))
              else None;
    var o4: nat := if a3.Some? then o3 + 4 else o3;
    var ls := if version >= Attributes3Version && o4 + 4 <= |data| then Some(I32(data, o4)) else None;
    (a2, a3, ls)
  }

  // ParaShape::parse: 46 fixed bytes, then the trailing fields.
  function ParaShapeOf(data: seq<byte>, version: u32): (r: Result<ParaShape>)
    ensures r.Err? <==> |data| < 46
    ensures r.Err? ==> r.error == InsufficientData("ParaShape", 46, |data|)
    ensures r.Ok? ==> (r.value.attributes1 == ParaShapeAttributes1Of(U32(data, 0)) &&
      r.value.leftMargin == I32(data, 4) && r.value.lineSpacingOld == I32(data, 28) &&
      r.value.tabDefId == U16(data, 32) && r.value.borderFillId == U16(data, 36) &&
      r.value.borderSpacingLeft == I16(data, 38) && r.value.borderSpacingBottom == I16(data, 44))
    ensures r.Ok? ==> (r.value.attributes2, r.value.attributes3, r.value.lineSpacing) == TrailingFields(data, version)
  {
    if |data| < 46 then Err(InsufficientData("ParaShape", 46, |data|))
    else
      var t := TrailingFields(data, version);
      Ok(ParaShape(ParaShapeAttributes1Of(U32(data, 0)), I32(data, 4), I32(data, 8), I32(data, 12),
        I32(data, 16), I32(data, 20), I32(data, 24), I32(data, 28), U16(data, 32), U16(data, 34),
        U16(data, 36), I16(data, 38), I16(data, 40), I16(data, 42), I16(data, 44), t.0, t.1, t.2))
  }

  // ParaShape::parse with its running offset.
  method ParseParaShape(data: seq<byte>, version: u32) returns (r: Result<ParaShape>)
    ensures r == ParaShapeOf(data, version)
  {
    if |data| < 46 {
      return Err(InsufficientData("ParaShape", 46, |data|));
    }
    var offset := 0;
    var attr1Value := U32(data, offset);
    offset := offset + 4;
    var attributes1 := ParaShapeAttributes1Of(attr1Value);
    var leftMargin := I32(data, offset);
    offset := offset + 4;
    var rightMargin := I32(data, offset);
    offset := offset + 4;
    var indent := I32(data, offset);
    offset := offset + 4;
    var outdent := I32(data, offset);
    offset := offset + 4;
    var topSpacing := I32(data, offset);
    offset := offset + 4;
    var bottomSpacing := I32(data, offset);
    offset := offset + 4;
    var lineSpacingOld := I32(data, offset);
    offset := offset + 4;
    var tabDefId := U16(data, offset);
    offset := offset + 2;
    var numberBulletId := U16(data, offset);
    offset := offset + 2;
    var borderFillId := U16(data, offset);
    offset := offset + 2;
    var borderSpacingLeft := I16(data, offset);
    offset := offset + 2;
    var borderSpacingRight := I16(data, offset);
    offset := offset + 2;
    var borderSpacingTop := I16(data, offset);
    offset := offset + 2;
    var borderSpacingBottom := I16(data, offset);
    offset := offset + 2;
    assert offset == 46;
    ghost var t := TrailingFields(data, version);
    var attributes2: Option<ParaShapeAttributes2> := None;
    if version >= Attributes2Version && offset + 4 <= |data| {
      attributes2 := Some(ParaShapeAttributes2Of(U32(data, offset)));
      offset := offset + 4;
    }
    assert attributes2 == t.0 && offset == if attributes2.Some? then 50 else 46;
    var attributes3: Option<ParaShapeAttributes3> := None;
    if version >= Attributes3Version && offset + 4 <= |data| {
      attributes3 := Some(ParaShapeAttributes3Of(U32(data, offset)));
      offset := offset + 4;
    }
    assert attributes3 == t.1;
    var lineSpacing: Option<i32> := None;
    if version >= Attributes3Version && offset + 4 <= |data| {
      lineSpacing := Some(I32(data, offset));
      offset := offset + 4;
    }
    assert lineSpacing == t.2;
    r := Ok(ParaShape(attributes1, leftMargin, rightMargin, indent, outdent, topSpacing, bottomSpacing,
      lineSpacingOld, tabDefId, numberBulletId, borderFillId, borderSpacingLeft, borderSpacingRight,
      borderSpacingTop, borderSpacingBottom, attributes2, attributes3, lineSpacing));
  }

  // ----------------------------------------------------------------- writers

  // A record a writer for the given version produces: each trailing field
  // only when its version allows it and the field before it is present.
  predicate WellFormedParaShape(p: ParaShape, version: u32)
  {
    WellFormedAttributes1(p.attributes1) &&
    (p.attributes2.Some? ==> version >= Attributes2Version && p.attributes2.value.singleLineInput < 4) &&
    (p.attributes3.Some? ==> version >= Attributes3Version && p.attributes2.Some?) &&
    (p.lineSpacing.Some? ==> p.attributes3.Some?)
  }

  function MarginWords(p: ParaShape): (ws: seq<u32>)
    ensures |ws| == 7
  {
    IntWords([p.leftMargin, p.rightMargin, p.indent, p.outdent, p.topSpacing, p.bottomSpacing,
      p.lineSpacingOld])
  }

  function IdHalves(p: ParaShape): (hs: seq<u16>)
    ensures |hs| == 7
  {
    [p.tabDefId, p.numberBulletId, p.borderFillId, FromI16(p.borderSpacingLeft), FromI16(p.borderSpacingRight),
     FromI16(p.borderSpacingTop), FromI16(p.borderSpacingBottom)]
  }

  function TrailingBytes(p: ParaShape): seq<byte>
    requires p.attributes2.Some? ==> p.attributes2.value.singleLineInput < 4
  {
    (if p.attributes2.Some? then Le32(Attributes2Bits(p.attributes2.value)) else []) +
    (if p.attributes3.Some? then Le32(Attributes3Bits(p.attributes3.value)) else []) +
    (if p.lineSpacing.Some? then Le32(FromI32(p.lineSpacing.value)) else [])
  }

  function EncodeParaShape(p: ParaShape, version: u32): (r: seq<byte>)
    requires WellFormedParaShape(p, version)
  {
    Le32(Attributes1Bits(p.attributes1)) + (Words(MarginWords(p)) + (Halves(IdHalves(p)) + TrailingBytes(p)))
  }

  // The 46 fixed bytes: one DWORD, seven DWORDs, seven WORDs.
  lemma FixedLayout(a: u32, ws: seq<u32>, hs: seq<u16>, tail: seq<byte>)
    requires |ws| == 7 && |hs| == 7
    ensures var s := Le32(a) + (Words(ws) + (Halves(hs) + tail));
      |s| == 46 + |tail| && U32(s, 0) == a &&
      (forall k :: 0 <= k < 7 ==> U32(s, 4 + 4 * k) == ws[k]) &&
      (forall k :: 0 <= k < 7 ==> U16(s, 32 + 2 * k) == hs[k]) &&
      s[46..] == tail
  {
    var x := Words(ws) + (Halves(hs) + tail);
    var s := Le32(a) + x;
    assert s == [] + Le32(a) + x;
    Le32Read([], a, x);
    forall k | 0 <= k < 7
      ensures U32(s, 4 + 4 * k) == ws[k]
    {
      assert Words(ws) + (Halves(hs) + tail) == Words(ws) + Halves(hs) + tail;
      WordAt(ws, k, Halves(hs) + tail);
      U32Skip(Le32(a), x, 4 * k);
    }
    forall k | 0 <= k < 7
      ensures U16(s, 32 + 2 * k) == hs[k]
    {
      HalfAt(hs, k, tail);
      U16Skip(Words(ws), Halves(hs) + tail, 2 * k);
      U16Skip(Le32(a), x, 28 + 2 * k);
    }
    assert s[46..] == tail;
  }

  // The trailing fields read back from where the writer put them.
  lemma TrailingRoundTrip(p: ParaShape, version: u32, fixed: seq<byte>)
    requires WellFormedParaShape(p, version) && |fixed| == 46
    ensures TrailingFields(fixed + TrailingBytes(p), version) == (p.attributes2, p.attributes3, p.lineSpacing)
  {
    var s := fixed + TrailingBytes(p);
    if p.attributes2.Some? {
      var b2 := Le32(Attributes2Bits(p.attributes2.value));
      Attributes2RoundTrip(p.attributes2.value);
      if p.attributes3.Some? {
        var b3 := Le32(Attributes3Bits(p.attributes3.value));
        Attributes3RoundTrip(p.attributes3.value);
        if p.lineSpacing.Some? {
          var b4 := Le32(FromI32(p.lineSpacing.value));
          assert s == fixed + b2 + (b3 + b4);
          Le32Read(fixed, Attributes2Bits(p.attributes2.value), b3 + b4);
          assert s == (fixed + b2) + b3 + b4;
          Le32Read(fixed + b2, Attributes3Bits(p.attributes3.value), b4);
          assert s == (fixed + b2 + b3) + b4 + [];
          Le32Read(fixed + b2 + b3, FromI32(p.lineSpacing.value), []);
        } else {
          assert s == fixed + b2 + b3;
          Le32Read(fixed, Attributes2Bits(p.attributes2.value), b3);
          assert s == (fixed + b2) + b3 + [];
          Le32Read(fixed + b2, Attributes3Bits(p.attributes3.value), []);
        }
      } else {
        assert s == fixed + b2 + [];
        Le32Read(fixed, Attributes2Bits(p.attributes2.value), []);
      }
    } else {
      assert s == fixed;
    }
  }

  // The fifteen fixed fields read back.
  lemma FixedRead(p: ParaShape, tail: seq<byte>)
    requires WellFormedAttributes1(p.attributes1)
    ensures var s := Le32(Attributes1Bits(p.attributes1)) + (Words(MarginWords(p)) + (Halves(IdHalves(p)) + tail));
      |s| == 46 + |tail| && s[46..] == tail && U32(s, 0) == Attributes1Bits(p.attributes1) &&
      I32(s, 4) == p.leftMargin && I32(s, 8) == p.rightMargin && I32(s, 12) == p.indent &&
      I32(s, 16) == p.outdent && I32(s, 20) == p.topSpacing && I32(s, 24) == p.bottomSpacing &&
      I32(s, 28) == p.lineSpacingOld && U16(s, 32) == p.tabDefId && U16(s, 34) == p.numberBulletId &&
      U16(s, 36) == p.borderFillId && I16(s, 38) == p.borderSpacingLeft && I16(s, 40) == p.borderSpacingRight &&
      I16(s, 42) == p.borderSpacingTop && I16(s, 44) == p.borderSpacingBottom
  {
    var s := Le32(Attributes1Bits(p.attributes1)) + (Words(MarginWords(p)) + (Halves(IdHalves(p)) + tail));
    var ws, hs := MarginWords(p), IdHalves(p);
    FixedLayout(Attributes1Bits(p.attributes1), ws, hs, tail);
    assert U32(s, 4 + 4 * 0) == ws[0] && U32(s, 4 + 4 * 1) == ws[1] && U32(s, 4 + 4 * 2) == ws[2];
    assert U32(s, 4 + 4 * 3) == ws[3] && U32(s, 4 + 4 * 4) == ws[4] && U32(s, 4 + 4 * 5) == ws[5];
    assert U32(s, 4 + 4 * 6) == ws[6];
    assert U16(s, 32 + 2 * 0) == hs[0] && U16(s, 32 + 2 * 1) == hs[1] && U16(s, 32 + 2 * 2) == hs[2];
    assert U16(s, 32 + 2 * 3) == hs[3] && U16(s, 32 + 2 * 4) == hs[4] && U16(s, 32 + 2 * 5) == hs[5];
    assert U16(s, 32 + 2 * 6) == hs[6];
  }

  // Every record a writer for a version produces reads back as itself under
  // that version.
  lemma ParaShapeRoundTrip(p: ParaShape, version: u32)
    requires WellFormedParaShape(p, version)
    ensures ParaShapeOf(EncodeParaShape(p, version), version) == Ok(p)
  {
    var s := EncodeParaShape(p, version);
    FixedRead(p, TrailingBytes(p));
    Attributes1RoundTrip(p.attributes1);
    assert s == s[..46] + TrailingBytes(p);
    TrailingRoundTrip(p, version, s[..46]);
  }
}
