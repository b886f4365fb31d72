// The border/fill record of DocInfo (Tables 23-32 of the format,
// crates/hwp-core/src/document/docinfo/border_fill.rs): an attribute WORD,
// four border lines stored in one of two layouts, a diagonal line and an
// optional fill description.

module BorderFill {
  import opened Bytes
  import opened Errors
  import opened BitFlags

  datatype BorderLine = BorderLine(lineType: byte, width: byte, color: u32)

  datatype DiagonalLine = DiagonalLine(lineType: byte, thickness: byte, color: u32)

  datatype FillType = NoFillType | SolidType | ImageType | GradientType

  datatype FillInfo =
    | NoFill
    | Solid(backgroundColor: u32, patternColor: u32, patternType: i32)
    | Image(imageFillType: byte, imageInfo: seq<byte>, gradientSpreadCenter: Option<byte>,
            additionalAttributesLength: Option<u32>, additionalAttributes: Option<seq<byte>>)
    | Gradient(gradientType: i16, angle: i16, horizontalCenter: i16, verticalCenter: i16, spread: i16,
               colorCount: i16, positions: Option<seq<i32>>, colors: seq<u32>)

  datatype BorderFillAttributes = BorderFillAttributes(
    has3dEffect: bool, hasShadow: bool, slashShape: byte, backslashShape: byte, slashBrokenLine: byte,
    backslashBrokenLine: bool, slashRotated180: bool, backslashRotated180: bool, hasCenterLine: bool)

  // The borders are Left, Right, Top and Bottom.
  datatype BorderFill = BorderFill(attributes: BorderFillAttributes, borders: seq<BorderLine>,
                                   diagonal: DiagonalLine, fill: FillInfo)

  // ---------------------------------------------------------------- attributes

  // The attribute WORD: bits 0 and 1, the three-bit shapes at 2 and 5, the
  // two-bit broken line at 8, and bits 10 to 13.
  function BorderFillAttributesOf(v: u16): (a: BorderFillAttributes)
    ensures a.has3dEffect <==> HasMask(v, 0x1)
    ensures a.hasShadow <==> HasMask(v, 0x2)
    ensures a.slashShape == (v / 4) % 8 && a.backslashShape == (v / 0x20) % 8
    ensures a.slashBrokenLine == (v / 0x100) % 4
    ensures a.backslashBrokenLine <==> HasMask(v, 0x400)
    ensures a.slashRotated180 <==> HasMask(v, 0x800)
    ensures a.backslashRotated180 <==> HasMask(v, 0x1000)
    ensures a.hasCenterLine <==> HasMask(v, 0x2000)
  {
    BorderFillAttributes(HasMask(v, 0x1), HasMask(v, 0x2), (v / 4) % 8, (v / 0x20) % 8, (v / 0x100) % 4,
      HasMask(v, 0x400), HasMask(v, 0x800), HasMask(v, 0x1000), HasMask(v, 0x2000))
  }

  // The shapes are three bits wide and the slash broken line two.
  predicate WellFormedAttributes(a: BorderFillAttributes)
  {
    a.slashShape < 8 && a.backslashShape < 8 && a.slashBrokenLine < 4
  }

  // The attribute WORD a writer produces.
  function AttributeBits(a: BorderFillAttributes): (w: u16)
    ensures w < 0x4000
  {
    BoolBit(a.has3dEffect) + 2 * BoolBit(a.hasShadow) + 4 * (a.slashShape % 8) + 0x20 * (a.backslashShape % 8) +
    0x100 * (a.slashBrokenLine % 4) + 0x400 * BoolBit(a.backslashBrokenLine) + 0x800 * BoolBit(a.slashRotated180) +
    0x1000 * BoolBit(a.backslashRotated180) + 0x2000 * BoolBit(a.hasCenterLine)
  }

  lemma AttributeFields(b0: nat, b1: nat, c2: nat, c5: nat, c8: nat, b10: nat, b11: nat, b12: nat, b13: nat)
    requires b0 < 2 && b1 < 2 && c2 < 8 && c5 < 8 && c8 < 4 && b10 < 2 && b11 < 2 && b12 < 2 && b13 < 2
    ensures var v := b0 + 2 * b1 + 4 * c2 + 0x20 * c5 + 0x100 * c8 + 0x400 * b10 + 0x800 * b11 +
      0x1000 * b12 + 0x2000 * b13;
      v % 2 == b0 && (v / 2) % 2 == b1 && (v / 4) % 8 == c2 && (v / 0x20) % 8 == c5 &&
      (v / 0x100) % 4 == c8 && (v / 0x400) % 2 == b10 && (v / 0x800) % 2 == b11 &&
      (v / 0x1000) % 2 == b12 && (v / 0x2000) % 2 == b13
  {
    var v := b0 + 2 * b1 + 4 * c2 + 0x20 * c5 + 0x100 * c8 + 0x400 * b10 + 0x800 * b11 +
      0x1000 * b12 + 0x2000 * b13;
    var h10 := b10 + 2 * b11 + 4 * b12 + 8 * b13;
    var h8 := c8 + 4 * h10;
    var h5 := c5 + 8 * h8;
    var h2 := c2 + 8 * h5;
    var l10 := b0 + 2 * b1 + 4 * c2 + 0x20 * c5 + 0x100 * c8;
    FieldOf(0, 1, b0, 2, b1 + 2 * h2);
    FieldOf(b0, 2, b1, 2, h2);
    FieldOf(b0 + 2 * b1, 4, c2, 8, h5);
    FieldOf(b0 + 2 * b1 + 4 * c2, 0x20, c5, 8, h8);
    FieldOf(b0 + 2 * b1 + 4 * c2 + 0x20 * c5, 0x100, c8, 4, h10);
    FieldOf(l10, 0x400, b10, 2, b11 + 2 * b12 + 4 * b13);
    FieldOf(l10 + 0x400 * b10, 0x800, b11, 2, b12 + 2 * b13);
    FieldOf(l10 + 0x400 * b10 + 0x800 * b11, 0x1000, b12, 2, b13);
    FieldOf(l10 + 0x400 * b10 + 0x800 * b11 + 0x1000 * b12, 0x2000, b13, 2, 0);
  }

  lemma AttributeBitsSum(a: BorderFillAttributes)
    requires WellFormedAttributes(a)
    ensures AttributeBits(a) == BoolBit(a.has3dEffect) + 2 * BoolBit(a.hasShadow) + 4 * a.slashShape +
      0x20 * a.backslashShape + 0x100 * a.slashBrokenLine + 0x400 * BoolBit(a.backslashBrokenLine) +
      0x800 * BoolBit(a.slashRotated180) + 0x1000 * BoolBit(a.backslashRotated180) + 0x2000 * BoolBit(a.hasCenterLine)
  {
    assert a.slashShape % 8 == a.slashShape && a.backslashShape % 8 == a.backslashShape;
    assert a.slashBrokenLine % 4 == a.slashBrokenLine;
  }

  lemma AttributesRoundTrip(a: BorderFillAttributes)
    requires WellFormedAttributes(a)
    ensures BorderFillAttributesOf(AttributeBits(a)) == a
  {
    var b0, b1, b10, b11, b12, b13 := BoolBit(a.has3dEffect), BoolBit(a.hasShadow), BoolBit(a.backslashBrokenLine),
      BoolBit(a.slashRotated180), BoolBit(a.backslashRotated180), BoolBit(a.hasCenterLine);
    var v := AttributeBits(a);
    AttributeBitsSum(a);
    AttributeFields(b0, b1, a.slashShape, a.backslashShape, a.slashBrokenLine, b10, b11, b12, b13);
    BoolBitMask(a.has3dEffect, v, 1);
    BoolBitMask(a.hasShadow, v, 2);
    BoolBitMask(a.backslashBrokenLine, v, 0x400);
    BoolBitMask(a.slashRotated180, v, 0x800);
    BoolBitMask(a.backslashRotated180, v, 0x1000);
    BoolBitMask(a.hasCenterLine, v, 0x2000);
  }

  // ------------------------------------------------------------ border layouts

  // score_borderline: widths up to 15 and line types up to 32 are plausible,
  // an all-ones colour is suspicious.
  function LineScore(line: BorderLine): (s: int)
    ensures s <= 5
    ensures s == 5 <==> line.width <= 15 && line.lineType <= 32 && line.color != 0xFFFF_FFFF
  {
    (if line.width <= 15 then 3 else -10) + (if line.lineType <= 32 then 2 else -5) +
    (if line.color == 0xFFFF_FFFF then -2 else 0)
  }

  predicate Plausible(line: BorderLine)
  {
    line.width <= 15 && line.lineType <= 32 && line.color != 0xFFFF_FFFF
  }

  // score_borders: the sum over the four lines.
  function BordersScore(lines: seq<BorderLine>): (s: int)
    requires |lines| == 4
    ensures s <= 20
    ensures s == 20 <==> forall k :: 0 <= k < 4 ==> Plausible(lines[k])
  {
    LineScore(lines[0]) + LineScore(lines[1]) + LineScore(lines[2]) + LineScore(lines[3])
  }

  // Layout B: (type, width, colour) per line, six bytes each, from offset 2.
  function InterleavedLine(data: seq<byte>, i: nat): BorderLine
    requires i < 4 && 32 <= |data|
  {
    BorderLine(data[2 + 6 * i], data[3 + 6 * i], U32(data, 4 + 6 * i))
  }

  // Layout A: four types, four widths, then four colours, from offset 2.
  function SpecLine(data: seq<byte>, i: nat): BorderLine
    requires i < 4 && 32 <= |data|
  {
    BorderLine(data[2 + i], data[6 + i], U32(data, 10 + 4 * i))
  }

  function Interleaved(data: seq<byte>): (lines: seq<BorderLine>)
    requires 32 <= |data|
    ensures |lines| == 4 && forall k :: 0 <= k < 4 ==> lines[k] == InterleavedLine(data, k)
  {
    [InterleavedLine(data, 0), InterleavedLine(data, 1), InterleavedLine(data, 2), InterleavedLine(data, 3)]
  }

  function SpecLayout(data: seq<byte>): (lines: seq<BorderLine>)
    requires 32 <= |data|
    ensures |lines| == 4 && forall k :: 0 <= k < 4 ==> lines[k] == SpecLine(data, k)
  {
    [SpecLine(data, 0), SpecLine(data, 1), SpecLine(data, 2), SpecLine(data, 3)]
  }

  // The layout with the higher score; a tie keeps the interleaved one.
  function ChosenBorders(data: seq<byte>): (lines: seq<BorderLine>)
    requires 32 <= |data|
    ensures |lines| == 4
    ensures lines == Interleaved(data) || lines == SpecLayout(data)
    ensures BordersScore(lines) >= BordersScore(Interleaved(data))
    ensures BordersScore(lines) >= BordersScore(SpecLayout(data))
    ensures BordersScore(Interleaved(data)) == BordersScore(SpecLayout(data)) ==> lines == Interleaved(data)
  {
    if BordersScore(Interleaved(data)) >= BordersScore(SpecLayout(data)) then Interleaved(data)
    else SpecLayout(data)
  }

  // ---------------------------------------------------------------- fill info

  // The fill kind by bit precedence: Solid, then Image, then Gradient.
  function FillTypeOf(v: u32): (t: FillType)
    ensures t == SolidType <==> HasMask(v, 0x1)
    ensures t == ImageType <==> !HasMask(v, 0x1) && HasMask(v, 0x2)
    ensures t == GradientType <==> !HasMask(v, 0x1) && !HasMask(v, 0x2) && HasMask(v, 0x4)
    ensures v == 0 ==> t == NoFillType
  {
    if v == 0 then NoFillType
    else if HasMask(v, 0x1) then SolidType
    else if HasMask(v, 0x2) then ImageType
    else if HasMask(v, 0x4) then GradientType
    else NoFillType
  }

  // `4 * color_count as usize`.
  function ColorBytes(count: i16): (r: nat)
    ensures 0 <= count ==> r == 4 * count
    ensures count < 0 ==> r == UsizeModulus + 4 * count
  {
    Usize(4 * Usize(count))
  }

  // `offset + 4 * color_count as usize`: the sum wraps only for a negative
  // count, since no slice reaches the size of the address space.
  function ColorsEnd(off: nat, count: i16): (r: nat)
    ensures 0 <= count ==> r == off + 4 * count
  {
    if count < 0 then Usize(off + ColorBytes(count)) else off + ColorBytes(count)
  }

  // The colour check of a gradient passes for counts in -4..-1, whose wrapped
  // byte count cancels the offset, and fails below -4.
  lemma NegativeColorCount(count: i16, len: nat)
    requires count < 0 && 16 <= len < UsizeModulus - 0x2_0000
    ensures ColorsEnd(16, count) <= len <==> -4 <= count
  {
  }

  function ItemCount(count: i16): (n: nat)
    ensures count <= 0 ==> n == 0
    ensures count > 0 ==> n == count
  {
    if count > 0 then count else 0
  }

  function SolidOf(data: seq<byte>): (r: Result<FillInfo>)
    requires 4 <= |data|
    ensures r.Err? <==> |data| < 16
    ensures r.Err? ==> r.error == InsufficientData("Solid fill data", 12, |data| - 4)
    ensures r.Ok? ==> r.value == Solid(U32(data, 4), U32(data, 8), I32(data, 12))
  {
    if 4 + 12 > |data| then Err(InsufficientData("Solid fill data", 12, |data| - 4))
    else Ok(Solid(U32(data, 4), U32(data, 8), I32(data, 12)))
  }

  function ImageOf(data: seq<byte>): (r: Result<FillInfo>)
    requires 4 <= |data|
    ensures r.Err? <==> |data| < 10
    ensures |data| == 4 ==> r == Err(InsufficientData("Image fill type", 1, 0))
    ensures 4 < |data| < 10 ==> r == Err(InsufficientData("Image info", 5, |data| - 5))
    ensures r.Ok? ==> r.value == Image(data[4], data[5..10], None, None, None)
  {
    if 4 + 1 > |data| then Err(InsufficientData("Image fill type", 1, |data| - 4))
    else if 5 + 5 > |data| then Err(InsufficientData("Image info", 5, |data| - 5))
    else Ok(Image(data[4], data[5..10], None, None, None))
  }

  // The colours after offset off, with the wrapped size check.
  function ColorsAt(data: seq<byte>, off: nat, count: i16): (r: Result<seq<u32>>)
    requires off <= |data|
    ensures r.Ok? <==> ColorsEnd(off, count) <= |data|
    ensures r.Err? ==> r.error == InsufficientData("Gradient colors data", ColorBytes(count), |data| - off)
    ensures r.Ok? ==> off + 4 * ItemCount(count) <= |data| && r.value == DwordsAt(data, off, ItemCount(count))
  {
    if ColorsEnd(off, count) > |data| then
      Err(InsufficientData("Gradient colors data", ColorBytes(count), |data| - off))
    else Ok(DwordsAt(data, off, ItemCount(count)))
  }

  function GradientOf(data: seq<byte>): (r: Result<FillInfo>)
    requires 4 <= |data|
    ensures |data| < 16 ==> r == Err(InsufficientData("Gradient fill data", 12, |data| - 4))
    ensures 16 <= |data| && I16(data, 14) > 2 && 16 + 4 * I16(data, 14) > |data| ==>
      r == Err(InsufficientData("Gradient positions data", 4 * I16(data, 14), |data| - 16))
    ensures r.Ok? ==> r.value.Gradient? && r.value.colorCount == I16(data, 14)
    ensures r.Ok? ==> (r.value.positions.Some? <==> r.value.colorCount > 2)
    ensures r.Ok? && r.value.positions.Some? ==> r.value.positions.value == Int32sAt(data, 16, r.value.colorCount)
    ensures r.Ok? ==> |r.value.colors| == ItemCount(r.value.colorCount)
  {
    if 4 + 12 > |data| then Err(InsufficientData("Gradient fill data", 12, |data| - 4))
    else
      var count := I16(data, 14);
      if count > 2 then
        if 16 + 4 * count > |data| then
          Err(InsufficientData("Gradient positions data", 4 * count, |data| - 16))
        else
          var colors := ColorsAt(data, 16 + 4 * count, count);
          if colors.Err? then Err(colors.error)
          else
            Ok(Gradient(I16(data, 4), I16(data, 6), I16(data, 8), I16(data, 10), I16(data, 12), count,
              Some(Int32sAt(data, 16, count)), colors.value))
      else
        var colors := ColorsAt(data, 16, count);
        if colors.Err? then Err(colors.error)
        else
          Ok(Gradient(I16(data, 4), I16(data, 6), I16(data, 8), I16(data, 10), I16(data, 12), count,
            None, colors.value))
  }

  // parse_fill_info: short data and unknown kinds give no fill.
  function FillInfoOf(data: seq<byte>): (r: Result<FillInfo>)
    ensures |data| < 4 ==> r == Ok(NoFill)
    ensures 4 <= |data| && FillTypeOf(U32(data, 0)) == NoFillType ==> r == Ok(NoFill)
    ensures 4 <= |data| && FillTypeOf(U32(data, 0)) == SolidType ==> r == SolidOf(data)
    ensures 4 <= |data| && FillTypeOf(U32(data, 0)) == ImageType ==> r == ImageOf(data)
    ensures 4 <= |data| && FillTypeOf(U32(data, 0)) == GradientType ==> r == GradientOf(data)
  {
    if |data| < 4 then Ok(NoFill)
    else
      match FillTypeOf(U32(data, 0))
      case NoFillType => Ok(NoFill)
      case SolidType => SolidOf(data)
      case ImageType => ImageOf(data)
      case GradientType => GradientOf(data)
  }

  // --------------------------------------------------------------- the record

  // BorderFill::parse by absolute offsets: the borders end at 26 in either
  // layout, the diagonal takes 26-31 and the fill is whatever follows.
  function BorderFillOf(data: seq<byte>): (r: Result<BorderFill>)
    ensures |data| < 32 ==> r == Err(InsufficientData("BorderFill", 32, |data|))
    ensures 32 < |data| && FillInfoOf(data[32..]).Err? ==> r == Err(FillInfoOf(data[32..]).error)
    ensures r.Ok? <==> 32 <= |data| && (32 < |data| ==> FillInfoOf(data[32..]).Ok?)
    ensures r.Ok? ==> r.value.attributes == BorderFillAttributesOf(U16(data, 0))
    ensures r.Ok? ==> r.value.borders == ChosenBorders(data)
    ensures r.Ok? ==> r.value.diagonal == DiagonalLine(data[26], data[27], U32(data, 28))
    ensures r.Ok? ==> r.value.fill == if |data| == 32 then NoFill else FillInfoOf(data[32..]).value
  {
    if |data| < 32 then Err(InsufficientData("BorderFill", 32, |data|))
    else
      var fill := if 32 < |data| then FillInfoOf(data[32..]) else Ok(NoFill);
      if fill.Err? then Err(fill.error)
      else
        Ok(BorderFill(BorderFillAttributesOf(U16(data, 0)), ChosenBorders(data),
          DiagonalLine(data[26], data[27], U32(data, 28)), fill.value))
  }

  // parse_fill_info with its running offset.
  method ParseFillInfo(data: seq<byte>) returns (r: Result<FillInfo>)
    ensures r == FillInfoOf(data)
  {
    if |data| < 4 {
      return Ok(NoFill);
    }
    var offset := 0;
    var fillTypeValue := U32(data, offset);
    offset := offset + 4;
    match FillTypeOf(fillTypeValue)
    case NoFillType =>
      r := Ok(NoFill);
    case SolidType =>
      if offset + 12 > |data| {
        return Err(InsufficientData("Solid fill data", 12, |data| - offset));
      }
      var backgroundColor := U32(data, offset);
      offset := offset + 4;
      var patternColor := U32(data, offset);
      offset := offset + 4;
      var patternType := I32(data, offset);
      r := Ok(Solid(backgroundColor, patternColor, patternType));
    case GradientType =>
      r := ParseGradient(data);
    case ImageType =>
      if offset + 1 > |data| {
        return Err(InsufficientData("Image fill type", 1, |data| - offset));
      }
      var imageFillType := data[offset];
      offset := offset + 1;
      if offset + 5 > |data| {
        return Err(InsufficientData("Image info", 5, |data| - offset));
      }
      var imageInfo := data[offset..offset + 5];
      r := Ok(Image(imageFillType, imageInfo, None, None, None));
  }

  // The gradient branch of parse_fill_info, from offset 4.
  method ParseGradient(data: seq<byte>) returns (r: Result<FillInfo>)
    requires 4 <= |data|
    ensures r == GradientOf(data)
  {
    var offset := 4;
    if offset + 12 > |data| {
      return Err(InsufficientData("Gradient fill data", 12, |data| - offset));
    }
    var gradientType := I16(data, offset);
    offset := offset + 2;
    var angle := I16(data, offset);
    offset := offset + 2;
    var horizontalCenter := I16(data, offset);
    offset := offset + 2;
    var verticalCenter := I16(data, offset);
    offset := offset + 2;
    var spread := I16(data, offset);
    offset := offset + 2;
    var colorCount := I16(data, offset);
    offset := offset + 2;
    var count: int := colorCount;
    var positions: Option<seq<i32>> := None;
    if count > 2 {
      if offset + 4 * count > |data| {
        return Err(InsufficientData("Gradient positions data", 4 * count, |data| - offset));
      }
      var posVec;
      posVec, offset := ReadPositions(data, offset, count);
      positions := Some(posVec);
    }
    if ColorsEnd(offset, colorCount) > |data| {
      return Err(InsufficientData("Gradient colors data", ColorBytes(colorCount), |data| - offset));
    }
    var colors;
    colors, offset := ReadColors(data, offset, colorCount);
    r := Ok(Gradient(gradientType, angle, horizontalCenter, verticalCenter, spread, colorCount, positions,
      colors));
  }

  // The loop over the stop positions.
  method ReadPositions(data: seq<byte>, start: nat, count: nat) returns (posVec: seq<i32>, offset: nat)
    requires start + 4 * count <= |data|
    ensures posVec == Int32sAt(data, start, count) && offset == start + 4 * count
  {
    posVec, offset := [], start;
    var i := 0;
    while i < count
      invariant 0 <= i <= count && offset == start + 4 * i
      invariant posVec == Int32sAt(data, start, i)
    {
      posVec := posVec + [I32(data, offset)];
      offset := offset + 4;
      i := i + 1;
    }
  }

  // The loop over the colours, which a negative count skips.
  method ReadColors(data: seq<byte>, start: nat, colorCount: i16) returns (colors: seq<u32>, offset: nat)
    requires start + 4 * ItemCount(colorCount) <= |data|
    ensures colors == DwordsAt(data, start, ItemCount(colorCount)) && offset == start + 4 * ItemCount(colorCount)
  {
    var count: int := colorCount;
    colors, offset := [], start;
    var j: int := 0;
    while j < count
      invariant 0 <= j && (count >= 0 ==> j <= count) && (count < 0 ==> j == 0)
      invariant offset == start + 4 * j
      invariant colors == DwordsAt(data, start, j)
    {
      colors := colors + [U32(data, offset)];
      offset := offset + 4;
      j := j + 1;
    }
  }

  // BorderFill::parse: both layouts are read with their own offsets and the
  // better-scoring one is kept.
  method ParseBorderFill(data: seq<byte>) returns (r: Result<BorderFill>)
    ensures r == BorderFillOf(data)
  {
    if |data| < 32 {
      return Err(InsufficientData("BorderFill", 32, |data|));
    }
    var offset := 0;
    var attrValue := U16(data, offset);
    offset := offset + 2;
    var attributes := BorderFillAttributesOf(attrValue);
    var start := offset;
    var zero := BorderLine(0, 0, 0);
    var bordersInterleave := [zero, zero, zero, zero];
    var offI := start;
    var i := 0;
    while i < 4
      invariant 0 <= i <= 4 && offI == 2 + 6 * i && |bordersInterleave| == 4
      invariant forall k :: 0 <= k < i ==> bordersInterleave[k] == InterleavedLine(data, k)
    {
      var lineType := data[offI];
      offI := offI + 1;
      var width := data[offI];
      offI := offI + 1;
      var color := U32(data, offI);
      offI := offI + 4;
      bordersInterleave := bordersInterleave[i := BorderLine(lineType, width, color)];
      i := i + 1;
    }
    var bordersSpec := bordersInterleave;
    var offS := start;
    var lineTypes := [data[offS], data[offS + 1], data[offS + 2], data[offS + 3]];
    offS := offS + 4;
    var widths := [data[offS], data[offS + 1], data[offS + 2], data[offS + 3]];
    offS := offS + 4;
    var colors: seq<u32> := [0, 0, 0, 0];
    i := 0;
    while i < 4
      invariant 0 <= i <= 4 && offS == 10 + 4 * i && |colors| == 4
      invariant forall k :: 0 <= k < i ==> colors[k] == U32(data, 10 + 4 * k)
    {
      colors := colors[i := U32(data, offS)];
      offS := offS + 4;
      i := i + 1;
    }
    i := 0;
    while i < 4
      invariant 0 <= i <= 4 && |bordersSpec| == 4
      invariant forall k :: 0 <= k < i ==> bordersSpec[k] == SpecLine(data, k)
    {
      bordersSpec := bordersSpec[i := BorderLine(lineTypes[i], widths[i], colors[i])];
      i := i + 1;
    }
    assert bordersInterleave == Interleaved(data);
    assert bordersSpec == SpecLayout(data);
    var scoreI := BordersScore(bordersInterleave);
    var scoreS := BordersScore(bordersSpec);
    var borders;
    if scoreI >= scoreS {
      offset := offI;
      borders := bordersInterleave;
    } else {
      offset := offS;
      borders := bordersSpec;
    }
    var diagonalType := data[offset];
    offset := offset + 1;
    var diagonalThickness := data[offset];
    offset := offset + 1;
    var diagonalColor := U32(data, offset);
    offset := offset + 4;
    var diagonal := DiagonalLine(diagonalType, diagonalThickness, diagonalColor);
    var fill := NoFill;
    if offset < |data| {
      var parsed := ParseFillInfo(data[offset..]);
      if parsed.Err? {
        return Err(parsed.error);
      }
      fill := parsed.value;
    }
    r := Ok(BorderFill(attributes, borders, diagonal, fill));
  }

  // ----------------------------------------------------------------- writers

  // Gradient positions exist exactly for more than two colours, and both lists
  // have one entry per colour.
  predicate WellFormedFill(f: FillInfo)
  {
    match f
    case NoFill => true
    case Solid(_, _, _) => true
    case Image(_, info, center, length, more) => |info| == 5 && center.None? && length.None? && more.None?
    case Gradient(_, _, _, _, _, count, positions, colors) =>
      0 <= count && (positions.Some? <==> count > 2) && (positions.Some? ==> |positions.value| == count) &&
      |colors| == count
  }

  function GradientHalves(f: FillInfo): (hs: seq<u16>)
    requires f.Gradient?
    ensures |hs| == 6
  {
    [FromI16(f.gradientType), FromI16(f.angle), FromI16(f.horizontalCenter), FromI16(f.verticalCenter),
     FromI16(f.spread), FromI16(f.colorCount)]
  }

  function PositionBytes(positions: Option<seq<i32>>): seq<byte>
  {
    if positions.Some? then Words(IntWords(positions.value)) else []
  }

  // No fill is written as nothing at all.
  function EncodeFill(f: FillInfo): (r: seq<byte>)
    ensures f.NoFill? <==> r == []
  {
    match f
    case NoFill => []
    case Solid(background, pattern, patternType) =>
      Le32(1) + Le32(background) + Le32(pattern) + Le32(FromI32(patternType))
    case Image(imageFillType, info, _, _, _) => Le32(2) + [imageFillType] + info
    case Gradient(_, _, _, _, _, _, positions, colors) =>
      Le32(4) + Halves(GradientHalves(f)) + PositionBytes(positions) + Words(colors)
  }

  // The six INT16 fields of an encoded gradient.
  lemma GradientHead(f: FillInfo)
    requires f.Gradient? && WellFormedFill(f)
    ensures var s := EncodeFill(f);
      16 <= |s| && U32(s, 0) == 4 && I16(s, 4) == f.gradientType && I16(s, 6) == f.angle &&
      I16(s, 8) == f.horizontalCenter && I16(s, 10) == f.verticalCenter && I16(s, 12) == f.spread &&
      I16(s, 14) == f.colorCount
  {
    var hs := GradientHalves(f);
    var s := EncodeFill(f);
    GradientHeadHalves(f);
    assert I16(s, 4 + 2 * 0) == AsI16(hs[0]) && I16(s, 4 + 2 * 1) == AsI16(hs[1]);
    assert I16(s, 4 + 2 * 2) == AsI16(hs[2]) && I16(s, 4 + 2 * 3) == AsI16(hs[3]);
    assert I16(s, 4 + 2 * 4) == AsI16(hs[4]) && I16(s, 4 + 2 * 5) == AsI16(hs[5]);
  }

  lemma GradientHeadHalves(f: FillInfo)
    requires f.Gradient? && WellFormedFill(f)
    ensures var s := EncodeFill(f); var hs := GradientHalves(f);
      16 <= |s| && U32(s, 0) == 4 && forall k :: 0 <= k < 6 ==> I16(s, 4 + 2 * k) == AsI16(hs[k])
  {
    var hs := GradientHalves(f);
    var h := Le32(4) + Halves(hs);
    var t := PositionBytes(f.positions) + Words(f.colors);
    var s := EncodeFill(f);
    assert s == [] + Le32(4) + (Halves(hs) + t);
    Le32Read([], 4, Halves(hs) + t);
    assert s == h + t;
    forall k | 0 <= k < 6
      ensures I16(s, 4 + 2 * k) == AsI16(hs[k])
    {
      HalfAfter(Le32(4), hs, k);
      U16Prefix(h, t, 4 + 2 * k);
    }
  }

  // The positions and colours of an encoded gradient.
  lemma GradientLists(f: FillInfo)
    requires f.Gradient? && WellFormedFill(f)
    ensures var s := EncodeFill(f); var n := f.colorCount; var pb := PositionBytes(f.positions);
      |pb| == (if n > 2 then 4 * n else 0) && |s| == 16 + |pb| + 4 * n &&
      (f.positions.Some? ==> Int32sAt(s, 16, n) == f.positions.value) &&
      DwordsAt(s, 16 + |pb|, n) == f.colors
  {
    var h := Le32(4) + Halves(GradientHalves(f));
    var pb := PositionBytes(f.positions);
    var s := EncodeFill(f);
    var n: nat := f.colorCount;
    if f.positions.Some? {
      var ws := IntWords(f.positions.value);
      forall k | 0 <= k < n
        ensures I32(s, 16 + 4 * k) == f.positions.value[k]
      {
        assert s == (h + Words(ws)) + Words(f.colors);
        WordAfter(h, ws, k);
        U32Prefix(h + Words(ws), Words(f.colors), 16 + 4 * k);
      }
      assert Int32sAt(s, 16, n) == f.positions.value;
    }
    forall k | 0 <= k < n
      ensures U32(s, 16 + |pb| + 4 * k) == f.colors[k]
    {
      assert s == (h + pb) + Words(f.colors);
      WordAfter(h + pb, f.colors, k);
    }
    assert DwordsAt(s, 16 + |pb|, n) == f.colors;
  }

  lemma GradientRoundTrip(f: FillInfo)
    requires f.Gradient? && WellFormedFill(f)
    ensures GradientOf(EncodeFill(f)) == Ok(f)
  {
    GradientHead(f);
    GradientLists(f);
    assert ItemCount(f.colorCount) == f.colorCount;
  }

  lemma SolidRoundTrip(f: FillInfo)
    requires f.Solid?
    ensures var s := EncodeFill(f);
      16 <= |s| && U32(s, 0) == 1 && U32(s, 4) == f.backgroundColor && U32(s, 8) == f.patternColor &&
      I32(s, 12) == f.patternType
  {
    var a, b, c, d := Le32(1), Le32(f.backgroundColor), Le32(f.patternColor), Le32(FromI32(f.patternType));
    var s := EncodeFill(f);
    assert s == [] + a + (b + c + d);
    Le32Read([], 1, b + c + d);
    assert s == a + b + (c + d);
    Le32Read(a, f.backgroundColor, c + d);
    assert s == a + b + c + d;
    Le32Read(a + b, f.patternColor, d);
    assert s == a + b + c + d + [];
    Le32Read(a + b + c, FromI32(f.patternType), []);
  }

  lemma ImageRoundTrip(f: FillInfo)
    requires f.Image? && WellFormedFill(f)
    ensures var s := EncodeFill(f);
      10 <= |s| && U32(s, 0) == 2 && s[4] == f.imageFillType && s[5..10] == f.imageInfo
  {
    var s := EncodeFill(f);
    Le32Read([], 2, [f.imageFillType] + f.imageInfo);
    assert s == [] + Le32(2) + ([f.imageFillType] + f.imageInfo);
    assert s[5..10] == f.imageInfo;
  }

  // Every well-formed fill reads back as itself.
  lemma FillRoundTrip(f: FillInfo)
    requires WellFormedFill(f)
    ensures FillInfoOf(EncodeFill(f)) == Ok(f)
  {
    var s := EncodeFill(f);
    match f
    case NoFill =>
    case Solid(_, _, _) =>
      SolidRoundTrip(f);
      assert FillTypeOf(U32(s, 0)) == SolidType;
    case Image(_, _, _, _, _) =>
      ImageRoundTrip(f);
      assert FillTypeOf(U32(s, 0)) == ImageType;
    case Gradient(_, _, _, _, _, _, _, _) =>
      GradientHead(f);
      assert FillTypeOf(U32(s, 0)) == GradientType;
      GradientRoundTrip(f);
  }

  function EncodeLine(line: BorderLine): (r: seq<byte>)
    ensures |r| == 6
  {
    [line.lineType, line.width] + Le32(line.color)
  }

  function EncodeLines(lines: seq<BorderLine>): (r: seq<byte>)
    ensures |r| == 6 * |lines|
  {
    if |lines| == 0 then [] else EncodeLine(lines[0]) + EncodeLines(lines[1..])
  }

  // The line whose six bytes start at o.
  function LineAt(s: seq<byte>, o: nat): BorderLine
    requires o + 6 <= |s|
  {
    BorderLine(s[o], s[o + 1], U32(s, o + 2))
  }

  lemma LineRead(s: seq<byte>, o: nat, l: BorderLine, t: seq<byte>)
    requires o <= |s| && s[o..] == EncodeLine(l) + t
    ensures o + 6 <= |s| && LineAt(s, o) == l && s[o + 6..] == t
  {
    var u := s[o..];
    assert u[2..6] == Le32(l.color);
    assert s[o + 2..o + 6] == u[2..6];
    U32At(s, o + 2, l.color);
    assert s[o + 6..] == u[6..];
  }

  // A run of encoded lines that starts at o reads back line by line.
  lemma {:induction false} LinesRead(s: seq<byte>, o: nat, lines: seq<BorderLine>, t: seq<byte>)
    requires o <= |s| && s[o..] == EncodeLines(lines) + t
    ensures o + 6 * |lines| <= |s| && s[o + 6 * |lines|..] == t
    ensures forall k :: 0 <= k < |lines| ==> LineAt(s, o + 6 * k) == lines[k]
    decreases |lines|
  {
    if |lines| > 0 {
      var t1 := EncodeLines(lines[1..]) + t;
      assert EncodeLines(lines) + t == EncodeLine(lines[0]) + t1;
      LineRead(s, o, lines[0], t1);
      LinesRead(s, o + 6, lines[1..], t);
      forall k | 0 < k < |lines|
        ensures LineAt(s, o + 6 * k) == lines[k]
      {
        assert o + 6 * k == (o + 6) + 6 * (k - 1);
        assert lines[k] == lines[1..][k - 1];
      }
    }
  }

  // The records a writer produces: four plausible border lines, so the
  // interleaved layout it writes is the one read back.
  predicate WellFormedBorderFill(b: BorderFill)
  {
    WellFormedAttributes(b.attributes) && |b.borders| == 4 &&
    (forall k :: 0 <= k < 4 ==> Plausible(b.borders[k])) && WellFormedFill(b.fill)
  }

  function DiagonalBytes(d: DiagonalLine): (r: seq<byte>)
    ensures |r| == 6
  {
    [d.lineType, d.thickness] + Le32(d.color)
  }

  function EncodeBorderFill(b: BorderFill): seq<byte>
  {
    Le16(AttributeBits(b.attributes)) + (EncodeLines(b.borders) + (DiagonalBytes(b.diagonal) + EncodeFill(b.fill)))
  }

  lemma DiagonalRead(s: seq<byte>, o: nat, d: DiagonalLine, t: seq<byte>)
    requires o <= |s| && s[o..] == DiagonalBytes(d) + t
    ensures o + 6 <= |s| && s[o] == d.lineType && s[o + 1] == d.thickness && U32(s, o + 2) == d.color
    ensures s[o + 6..] == t
  {
    var u := s[o..];
    assert u[2..6] == Le32(d.color);
    assert s[o + 2..o + 6] == u[2..6];
    U32At(s, o + 2, d.color);
    assert s[o + 6..] == u[6..];
  }

  // The 32 fixed bytes of an encoded record.
  lemma BorderFillHead(b: BorderFill)
    requires WellFormedBorderFill(b)
    ensures var s := EncodeBorderFill(b);
      32 <= |s| && U16(s, 0) == AttributeBits(b.attributes) && Interleaved(s) == b.borders &&
      s[26] == b.diagonal.lineType && s[27] == b.diagonal.thickness && U32(s, 28) == b.diagonal.color &&
      s[32..] == EncodeFill(b.fill)
  {
    var s := EncodeBorderFill(b);
    var t := DiagonalBytes(b.diagonal) + EncodeFill(b.fill);
    assert s[..2] == Le16(AttributeBits(b.attributes));
    U16At(s, 0, AttributeBits(b.attributes));
    assert s[2..] == EncodeLines(b.borders) + t;
    LinesRead(s, 2, b.borders, t);
    forall k | 0 <= k < 4
      ensures InterleavedLine(s, k) == b.borders[k]
    {
      assert LineAt(s, 2 + 6 * k) == b.borders[k];
    }
    DiagonalRead(s, 26, b.diagonal, EncodeFill(b.fill));
  }

  // Every well-formed record reads back as itself.
  lemma BorderFillRoundTrip(b: BorderFill)
    requires WellFormedBorderFill(b)
    ensures BorderFillOf(EncodeBorderFill(b)) == Ok(b)
  {
    var s := EncodeBorderFill(b);
    BorderFillHead(b);
    AttributesRoundTrip(b.attributes);
    assert BordersScore(Interleaved(s)) == 20;
    FillRoundTrip(b.fill);
  }
}
