// Object common properties of a table or shape control
// (crates/hwp-core/src/document/bodytext/ctrl_header/object_common.rs):
// 40 fixed bytes, an optional UTF-16 description, and the object attribute
// DWORD whose bit fields place the object on the page.

module ObjectCommon {
  import opened Bytes
  import opened Errors
  import opened Utf16
  import opened CtrlCaption

  datatype VertRelTo = Paper | Page | Para
  datatype HorzRelTo = Paper | Page | Column | Para
  datatype WidthStandard = Paper | Page | Column | Para | Absolute
  datatype HeightStandard = Paper | Page | Absolute
  datatype TextOption = Square | Tight | Through | TopAndBottom | BehindText | InFrontOfText
  datatype TextPositionOption = BothSides | LeftOnly | RightOnly | LargestOnly
  datatype ObjectCategory = None | Figure | Table | Equation

  datatype ObjectAttribute = ObjectAttribute(
    likeLetters: bool,
    affectLineSpacing: bool,
    vertRelTo: VertRelTo,
    vertRelative: byte,
    horzRelTo: HorzRelTo,
    horzRelative: byte,
    vertRelToParaLimit: bool,
    overlap: bool,
    widthStandard: WidthStandard,
    heightStandard: HeightStandard,
    textOption: TextOption,
    textPositionOption: TextPositionOption,
    category: ObjectCategory,
    sizeProtect: bool)

  // The value decoders of the enumerated fields; codes past the last
  // variant fall back as the source's match arms say.
  function VertRelToOf(c: bv32): VertRelTo
  {
    if c == 0 then VertRelTo.Paper else if c == 1 then VertRelTo.Page else VertRelTo.Para
  }

  function HorzRelToOf(c: bv32): HorzRelTo
  {
    if c == 0 then HorzRelTo.Paper else if c == 1 then HorzRelTo.Page
    else if c == 2 then HorzRelTo.Column else if c == 3 then HorzRelTo.Para else HorzRelTo.Page
  }

  function WidthStandardOf(c: bv32): WidthStandard
  {
    if c == 0 then WidthStandard.Paper else if c == 1 then WidthStandard.Page
    else if c == 2 then WidthStandard.Column else if c == 3 then WidthStandard.Para else WidthStandard.Absolute
  }

  function HeightStandardOf(c: bv32): HeightStandard
  {
    if c == 0 then HeightStandard.Paper else if c == 1 then HeightStandard.Page else HeightStandard.Absolute
  }

  function TextOptionOf(c: bv32): TextOption
  {
    if c == 0 then Square else if c == 1 then Tight else if c == 2 then Through
    else if c == 3 then TopAndBottom else if c == 4 then BehindText else if c == 5 then InFrontOfText
    else Square
  }

  function TextPositionOptionOf(c: bv32): TextPositionOption
  {
    if c == 1 then LeftOnly else if c == 2 then RightOnly else if c == 3 then LargestOnly else BothSides
  }

  function CategoryOf(c: bv32): ObjectCategory
  {
    if c == 1 then Figure else if c == 2 then ObjectCategory.Table else if c == 3 then Equation
    else ObjectCategory.None
  }

  // parse_object_attribute (table 70 of the format): bit 0 treat-as-letter,
  // bit 2 affects line spacing, bits 3-4 and 5-7 vertical anchor and
  // relation, bits 8-9 and 10-12 horizontal anchor and relation, bit 13,
  // bit 14, bits 15-17 width basis, 18-19 height basis, bit 20 size
  // protection, 21-23 text wrapping, 24-25 wrapping side, 26-28 category.
  function ObjectAttributeOf(v: bv32): ObjectAttribute
  {
    ObjectAttribute(v & 0x1 != 0, v & 0x4 != 0,
      VertRelToOf((v >> 3) & 0x3), ((v >> 5) & 0x7) as int,
      HorzRelToOf((v >> 8) & 0x3), ((v >> 10) & 0x7) as int,
      v & 0x2000 != 0, v & 0x4000 != 0,
      WidthStandardOf((v >> 15) & 0x7), HeightStandardOf((v >> 18) & 0x3),
      TextOptionOf((v >> 21) & 0x7), TextPositionOptionOf((v >> 24) & 0x3),
      CategoryOf((v >> 26) & 0x7), v & 0x10_0000 != 0)
  }

  // The codes a writer uses for each variant.
  function VertRelToCode(x: VertRelTo): (c: bv32)
    ensures c < 3 && VertRelToOf(c) == x
  {
    match x
    case Paper => 0
    case Page => 1
    case Para => 2
  }

  function HorzRelToCode(x: HorzRelTo): (c: bv32)
    ensures c < 4 && HorzRelToOf(c) == x
  {
    match x
    case Paper => 0
    case Page => 1
    case Column => 2
    case Para => 3
  }

  function WidthStandardCode(x: WidthStandard): (c: bv32)
    ensures c < 5 && WidthStandardOf(c) == x
  {
    match x
    case Paper => 0
    case Page => 1
    case Column => 2
    case Para => 3
    case Absolute => 4
  }

  function HeightStandardCode(x: HeightStandard): (c: bv32)
    ensures c < 3 && HeightStandardOf(c) == x
  {
    match x
    case Paper => 0
    case Page => 1
    case Absolute => 2
  }

  function TextOptionCode(x: TextOption): (c: bv32)
    ensures c < 6 && TextOptionOf(c) == x
  {
    match x
    case Square => 0
    case Tight => 1
    case Through => 2
    case TopAndBottom => 3
    case BehindText => 4
    case InFrontOfText => 5
  }

  function TextPositionOptionCode(x: TextPositionOption): (c: bv32)
    ensures c < 4 && TextPositionOptionOf(c) == x
  {
    match x
    case BothSides => 0
    case LeftOnly => 1
    case RightOnly => 2
    case LargestOnly => 3
  }

  function CategoryCode(x: ObjectCategory): (c: bv32)
    ensures c < 4 && CategoryOf(c) == x
  {
    match x
    case None => 0
    case Figure => 1
    case Table => 2
    case Equation => 3
  }

  function BitOf(b: bool): (c: bv32)
    ensures c < 2
  {
    if b then 1 else 0
  }

  // A three-bit relation field.
  function RelativeBits(x: byte): (c: bv32)
    ensures c < 8
  {
    (x % 8) as bv32
  }

  // The attribute layout: the fields placed at their bit positions.
  function PackAttribute(b0: bv32, b2: bv32, c3: bv32, c5: bv32, c8: bv32, c10: bv32, b13: bv32, b14: bv32,
    c15: bv32, c18: bv32, b20: bv32, c21: bv32, c24: bv32, c26: bv32): bv32
  {
    b0 | (b2 << 2) | (c3 << 3) | (c5 << 5) | (c8 << 8) | (c10 << 10) | (b13 << 13) | (b14 << 14) |
    (c15 << 15) | (c18 << 18) | (b20 << 20) | (c21 << 21) | (c24 << 24) | (c26 << 26)
  }

  // Fields that fit their widths are read back from their positions.
  lemma UnpackAttribute(b0: bv32, b2: bv32, c3: bv32, c5: bv32, c8: bv32, c10: bv32, b13: bv32, b14: bv32,
    c15: bv32, c18: bv32, b20: bv32, c21: bv32, c24: bv32, c26: bv32)
    requires b0 < 2 && b2 < 2 && c3 < 4 && c5 < 8 && c8 < 4 && c10 < 8 && b13 < 2 && b14 < 2
    requires c15 < 8 && c18 < 4 && b20 < 2 && c21 < 8 && c24 < 4 && c26 < 8
    ensures var v := PackAttribute(b0, b2, c3, c5, c8, c10, b13, b14, c15, c18, b20, c21, c24, c26);
      (v & 0x1 != 0 <==> b0 == 1) && (v & 0x4 != 0 <==> b2 == 1) && (v >> 3) & 0x3 == c3 &&
      (v >> 5) & 0x7 == c5 && (v >> 8) & 0x3 == c8 && (v >> 10) & 0x7 == c10 &&
      (v & 0x2000 != 0 <==> b13 == 1) && (v & 0x4000 != 0 <==> b14 == 1) &&
      (v >> 15) & 0x7 == c15 && (v >> 18) & 0x3 == c18 && (v & 0x10_0000 != 0 <==> b20 == 1) &&
      (v >> 21) & 0x7 == c21 && (v >> 24) & 0x3 == c24 && (v >> 26) & 0x7 == c26
  {
  }

  // Packing the fields read from a word gives the word without its unused bits.
  lemma RepackAttribute(v: bv32)
    ensures PackAttribute(BitOf(v & 0x1 != 0), BitOf(v & 0x4 != 0), (v >> 3) & 0x3, (v >> 5) & 0x7,
      (v >> 8) & 0x3, (v >> 10) & 0x7, BitOf(v & 0x2000 != 0), BitOf(v & 0x4000 != 0), (v >> 15) & 0x7,
      (v >> 18) & 0x3, BitOf(v & 0x10_0000 != 0), (v >> 21) & 0x7, (v >> 24) & 0x3, (v >> 26) & 0x7)
      == v & 0x1FFF_FFFD
  {
  }

  // The attribute DWORD a writer produces.
  function AttributeBits(a: ObjectAttribute): bv32
  {
    PackAttribute(BitOf(a.likeLetters), BitOf(a.affectLineSpacing), VertRelToCode(a.vertRelTo),
      RelativeBits(a.vertRelative), HorzRelToCode(a.horzRelTo), RelativeBits(a.horzRelative),
      BitOf(a.vertRelToParaLimit), BitOf(a.overlap), WidthStandardCode(a.widthStandard),
      HeightStandardCode(a.heightStandard), BitOf(a.sizeProtect), TextOptionCode(a.textOption),
      TextPositionOptionCode(a.textPositionOption), CategoryCode(a.category))
  }

  // The relation fields are three bits wide.
  predicate WellFormedAttribute(a: ObjectAttribute)
  {
    a.vertRelative < 8 && a.horzRelative < 8
  }

  // The decoder applied to a word whose fields hold the codes of a.
  lemma DecodeFields(v: bv32, a: ObjectAttribute)
    requires WellFormedAttribute(a)
    requires (v & 0x1 != 0) == a.likeLetters && (v & 0x4 != 0) == a.affectLineSpacing
    requires (v >> 3) & 0x3 == VertRelToCode(a.vertRelTo) && (v >> 5) & 0x7 == RelativeBits(a.vertRelative)
    requires (v >> 8) & 0x3 == HorzRelToCode(a.horzRelTo) && (v >> 10) & 0x7 == RelativeBits(a.horzRelative)
    requires (v & 0x2000 != 0) == a.vertRelToParaLimit && (v & 0x4000 != 0) == a.overlap
    requires (v >> 15) & 0x7 == WidthStandardCode(a.widthStandard)
    requires (v >> 18) & 0x3 == HeightStandardCode(a.heightStandard)
    requires (v & 0x10_0000 != 0) == a.sizeProtect
    requires (v >> 21) & 0x7 == TextOptionCode(a.textOption)
    requires (v >> 24) & 0x3 == TextPositionOptionCode(a.textPositionOption)
    requires (v >> 26) & 0x7 == CategoryCode(a.category)
    ensures ObjectAttributeOf(v) == a
  {
    var d := ObjectAttributeOf(v);
    assert d.vertRelTo == a.vertRelTo && d.horzRelTo == a.horzRelTo;
    assert d.vertRelative == a.vertRelative by { RelativeOfCode(a.vertRelative); }
    assert d.horzRelative == a.horzRelative by { RelativeOfCode(a.horzRelative); }
    assert d.widthStandard == a.widthStandard && d.heightStandard == a.heightStandard;
    assert d.textOption == a.textOption && d.textPositionOption == a.textPositionOption;
    assert d.category == a.category;
  }

  lemma RelativeOfCode(x: byte)
    requires x < 8
    ensures RelativeBits(x) as int == x
  {
  }

  lemma ObjectAttributeRoundTrip(a: ObjectAttribute)
    requires WellFormedAttribute(a)
    ensures ObjectAttributeOf(AttributeBits(a)) == a
  {
    UnpackAttribute(BitOf(a.likeLetters), BitOf(a.affectLineSpacing), VertRelToCode(a.vertRelTo),
      RelativeBits(a.vertRelative), HorzRelToCode(a.horzRelTo), RelativeBits(a.horzRelative),
      BitOf(a.vertRelToParaLimit), BitOf(a.overlap), WidthStandardCode(a.widthStandard),
      HeightStandardCode(a.heightStandard), BitOf(a.sizeProtect), TextOptionCode(a.textOption),
      TextPositionOptionCode(a.textPositionOption), CategoryCode(a.category));
    DecodeFields(AttributeBits(a), a);
  }

  // The codes every variant is written with; on such words the decoder loses
  // nothing but the unused bits 1 and 29-31.
  predicate CanonicalAttribute(v: bv32)
  {
    (v >> 3) & 0x3 != 3 && (v >> 15) & 0x7 <= 4 && (v >> 18) & 0x3 != 3 &&
    (v >> 21) & 0x7 <= 5 && (v >> 26) & 0x7 <= 3
  }

  lemma AttributeCodes(v: bv32)
    requires CanonicalAttribute(v)
    ensures var a := ObjectAttributeOf(v);
      VertRelToCode(a.vertRelTo) == (v >> 3) & 0x3 && RelativeBits(a.vertRelative) == (v >> 5) & 0x7 &&
      HorzRelToCode(a.horzRelTo) == (v >> 8) & 0x3 && RelativeBits(a.horzRelative) == (v >> 10) & 0x7 &&
      WidthStandardCode(a.widthStandard) == (v >> 15) & 0x7 &&
      HeightStandardCode(a.heightStandard) == (v >> 18) & 0x3 &&
      TextOptionCode(a.textOption) == (v >> 21) & 0x7 &&
      TextPositionOptionCode(a.textPositionOption) == (v >> 24) & 0x3 &&
      CategoryCode(a.category) == (v >> 26) & 0x7
  {
    var a := ObjectAttributeOf(v);
    assert VertRelToCode(a.vertRelTo) == (v >> 3) & 0x3 by { VertRelToCodeOf((v >> 3) & 0x3); }
    assert RelativeBits(a.vertRelative) == (v >> 5) & 0x7 by { RelativeCodeOf((v >> 5) & 0x7); }
    assert HorzRelToCode(a.horzRelTo) == (v >> 8) & 0x3 by { HorzRelToCodeOf((v >> 8) & 0x3); }
    assert RelativeBits(a.horzRelative) == (v >> 10) & 0x7 by { RelativeCodeOf((v >> 10) & 0x7); }
    assert WidthStandardCode(a.widthStandard) == (v >> 15) & 0x7 by { WidthStandardCodeOf((v >> 15) & 0x7); }
    assert HeightStandardCode(a.heightStandard) == (v >> 18) & 0x3 by { HeightStandardCodeOf((v >> 18) & 0x3); }
    assert TextOptionCode(a.textOption) == (v >> 21) & 0x7 by { TextOptionCodeOf((v >> 21) & 0x7); }
    assert TextPositionOptionCode(a.textPositionOption) == (v >> 24) & 0x3 by {
      TextPositionOptionCodeOf((v >> 24) & 0x3);
    }
    assert CategoryCode(a.category) == (v >> 26) & 0x7 by { CategoryCodeOf((v >> 26) & 0x7); }
  }

  // Each code a writer uses is the code of the variant it decodes to.
  lemma VertRelToCodeOf(c: bv32)
    requires c < 3
    ensures VertRelToCode(VertRelToOf(c)) == c
  {
  }

  lemma HorzRelToCodeOf(c: bv32)
    requires c < 4
    ensures HorzRelToCode(HorzRelToOf(c)) == c
  {
  }

  lemma WidthStandardCodeOf(c: bv32)
    requires c < 5
    ensures WidthStandardCode(WidthStandardOf(c)) == c
  {
  }

  lemma HeightStandardCodeOf(c: bv32)
    requires c < 3
    ensures HeightStandardCode(HeightStandardOf(c)) == c
  {
  }

  lemma TextOptionCodeOf(c: bv32)
    requires c < 6
    ensures TextOptionCode(TextOptionOf(c)) == c
  {
  }

  lemma TextPositionOptionCodeOf(c: bv32)
    requires c < 4
    ensures TextPositionOptionCode(TextPositionOptionOf(c)) == c
  {
  }

  lemma CategoryCodeOf(c: bv32)
    requires c < 4
    ensures CategoryCode(CategoryOf(c)) == c
  {
  }

  lemma RelativeCodeOf(c: bv32)
    requires c < 8
    ensures RelativeBits(c as int) == c
  {
  }

  lemma AttributeBitsOfAttribute(v: bv32)
    requires CanonicalAttribute(v)
    ensures AttributeBits(ObjectAttributeOf(v)) == v & 0x1FFF_FFFD
  {
    AttributeCodes(v);
    RepackAttribute(v);
  }

  datatype Margin = Margin(top: i16, right: i16, bottom: i16, left: i16)

  datatype ObjectCommonProperties = ObjectCommonProperties(
    attribute: ObjectAttribute,
    offsetY: i32,
    offsetX: i32,
    width: u32,
    height: u32,
    zOrder: i32,
    margin: Margin,
    instanceId: u32,
    pageDivide: i32,
    description: Option<string>,
    caption: Option<Caption>)

  // The description after the 40 fixed bytes: a WORD count of UTF-16 units
  // and the units.  It is kept exactly when the count is positive, the units
  // fit and they decode to a non-empty string; otherwise it is dropped
  // without an error.
  predicate DescriptionFits(data: seq<byte>)
    requires |data| >= 40
  {
    42 <= |data| && 0 < U16(data, 40) && 42 + 2 * U16(data, 40) <= |data|
  }

  function DescriptionOf(data: seq<byte>): (d: Option<string>)
    requires |data| >= 40
    ensures d.Some? <==> DescriptionFits(data) && DecodeUtf16Le(data[42..42 + 2 * U16(data, 40)]).Ok? &&
                         DecodeUtf16Le(data[42..42 + 2 * U16(data, 40)]).value != ""
    ensures d.Some? ==> DecodeUtf16Le(data[42..42 + 2 * U16(data, 40)]) == Ok(d.value)
  {
    if 42 <= |data| then
      var n := U16(data, 40);
      if n > 0 && 42 + 2 * n <= |data| then
        match DecodeUtf16Le(data[42..42 + 2 * n])
        case Ok(text) => if text != "" then Some(text) else Option.None
        case Err(_) => Option.None
      else Option.None
    else Option.None
  }

  // parse_object_common (table 69 of the format) by absolute offsets.  The
  // margins are stored bottom, left, right, top; the caption is never read
  // here.
  function ObjectCommonOf(data: seq<byte>): (r: Result<ObjectCommonProperties>)
    ensures r.Err? <==> |data| < 40
    ensures r.Err? ==> r.error == InsufficientData("Object common properties", 40, |data|)
    ensures r.Ok? ==> r.value.caption == Option.None && r.value.description == DescriptionOf(data)
  {
    if |data| < 40 then Err(InsufficientData("Object common properties", 40, |data|))
    else
      Ok(ObjectCommonProperties(ObjectAttributeOf(U32(data, 0) as bv32), I32(data, 4), I32(data, 8),
        U32(data, 12), U32(data, 16), I32(data, 20),
        Margin(I16(data, 30), I16(data, 28), I16(data, 24), I16(data, 26)),
        U32(data, 32), I32(data, 36), DescriptionOf(data), Option.None))
  }

  // The description block of parse_object_common, read from offset 40.
  method ReadDescription(data: seq<byte>, start: nat) returns (description: Option<string>)
    requires |data| >= 40 && start == 40
    ensures description == DescriptionOf(data)
  {
    var offset := start;
    description := Option.None;
    if offset + 2 <= |data| {
      var descriptionLen: nat := U16(data, offset);
      offset := offset + 2;
      if descriptionLen > 0 && offset + descriptionLen * 2 <= |data| {
        var decoded := DecodeUtf16Le(data[offset..offset + descriptionLen * 2]);
        if decoded.Ok? && decoded.value != "" {
          description := Some(decoded.value);
        }
      }
    }
  }

  // parse_object_common with its running offset.
  method ParseObjectCommon(data: seq<byte>) returns (r: Result<ObjectCommonProperties>)
    ensures r == ObjectCommonOf(data)
  {
    if |data| < 40 {
      return Err(InsufficientData("Object common properties", 40, |data|));
    }
    var offset := 0;
    var attributeValue := U32(data, offset);
    offset := offset + 4;
    var offsetY := I32(data, offset);
    offset := offset + 4;
    var offsetX := I32(data, offset);
    offset := offset + 4;
    var width := U32(data, offset);
    offset := offset + 4;
    var height := U32(data, offset);
    offset := offset + 4;
    var zOrder := I32(data, offset);
    offset := offset + 4;
    var marginBottom := I16(data, offset);
    offset := offset + 2;
    var marginLeft := I16(data, offset);
    offset := offset + 2;
    var marginRight := I16(data, offset);
    offset := offset + 2;
    var marginTop := I16(data, offset);
    offset := offset + 2;
    var instanceId := U32(data, offset);
    offset := offset + 4;
    var pageDivide := I32(data, offset);
    offset := offset + 4;
    var description := ReadDescription(data, offset);
    var attribute := ObjectAttributeOf(attributeValue as bv32);
    r := Ok(ObjectCommonProperties(attribute, offsetY, offsetX, width, height, zOrder,
      Margin(marginTop, marginRight, marginBottom, marginLeft), instanceId, pageDivide, description, Option.None));
  }

  // The writer side.
  predicate WellFormedDescription(d: Option<string>)
  {
    d.Some? ==> d.value != "" && |EncodeUnits(d.value)| < 0x1_0000
  }

  predicate WellFormedCommon(x: ObjectCommonProperties)
  {
    WellFormedAttribute(x.attribute) && x.caption.None? && WellFormedDescription(x.description)
  }

  function CommonWords(x: ObjectCommonProperties): (ws: seq<u32>)
    ensures |ws| == 6
  {
    [Word(AttributeBits(x.attribute)), FromI32(x.offsetY), FromI32(x.offsetX), x.width, x.height, FromI32(x.zOrder)]
  }

  function MarginHalves(m: Margin): (hs: seq<u16>)
    ensures |hs| == 4
  {
    [FromI16(m.bottom), FromI16(m.left), FromI16(m.right), FromI16(m.top)]
  }

  function TailWords(x: ObjectCommonProperties): (ws: seq<u32>)
    ensures |ws| == 2
  {
    [x.instanceId, FromI32(x.pageDivide)]
  }

  function DescriptionBytes(d: Option<string>): seq<byte>
    requires WellFormedDescription(d)
  {
    if d.Some? then Le16(|EncodeUnits(d.value)|) + EncodeUtf16Le(d.value) else []
  }

  function EncodeObjectCommon(x: ObjectCommonProperties): seq<byte>
    requires WellFormedCommon(x)
  {
    Words(CommonWords(x)) + (Halves(MarginHalves(x.margin)) + (Words(TailWords(x)) + DescriptionBytes(x.description)))
  }

  // Where the fixed fields sit.
  lemma HeadLayout(ws: seq<u32>, x: seq<byte>)
    requires |ws| == 6
    ensures var s := Words(ws) + x;
      U32(s, 0) == ws[0] && U32(s, 4) == ws[1] && U32(s, 8) == ws[2] && U32(s, 12) == ws[3] &&
      U32(s, 16) == ws[4] && U32(s, 20) == ws[5]
  {
    WordAt(ws, 0, x);
    WordAt(ws, 1, x);
    WordAt(ws, 2, x);
    WordAt(ws, 3, x);
    WordAt(ws, 4, x);
    WordAt(ws, 5, x);
  }

  lemma MarginLayout(hs: seq<u16>, ws: seq<u32>, tail: seq<byte>)
    requires |hs| == 4 && |ws| == 2
    ensures var s := Halves(hs) + (Words(ws) + tail);
      U16(s, 0) == hs[0] && U16(s, 2) == hs[1] && U16(s, 4) == hs[2] && U16(s, 6) == hs[3] &&
      U32(s, 8) == ws[0] && U32(s, 12) == ws[1]
  {
    var y := Words(ws) + tail;
    HalfAt(hs, 0, y);
    HalfAt(hs, 1, y);
    HalfAt(hs, 2, y);
    HalfAt(hs, 3, y);
    WordAt(ws, 0, tail);
    WordAt(ws, 1, tail);
    U32Skip(Halves(hs), y, 0);
    U32Skip(Halves(hs), y, 4);
  }

  lemma CommonLayout(ws1: seq<u32>, hs: seq<u16>, ws2: seq<u32>, tail: seq<byte>)
    requires |ws1| == 6 && |hs| == 4 && |ws2| == 2
    ensures var s := Words(ws1) + (Halves(hs) + (Words(ws2) + tail));
      |s| == 40 + |tail| &&
      U32(s, 0) == ws1[0] && U32(s, 4) == ws1[1] && U32(s, 8) == ws1[2] && U32(s, 12) == ws1[3] &&
      U32(s, 16) == ws1[4] && U32(s, 20) == ws1[5] &&
      U16(s, 24) == hs[0] && U16(s, 26) == hs[1] && U16(s, 28) == hs[2] && U16(s, 30) == hs[3] &&
      U32(s, 32) == ws2[0] && U32(s, 36) == ws2[1]
  {
    var x := Halves(hs) + (Words(ws2) + tail);
    HeadLayout(ws1, x);
    MarginLayout(hs, ws2, tail);
    U16Skip(Words(ws1), x, 0);
    U16Skip(Words(ws1), x, 2);
    U16Skip(Words(ws1), x, 4);
    U16Skip(Words(ws1), x, 6);
    U32Skip(Words(ws1), x, 8);
    U32Skip(Words(ws1), x, 12);
  }

  lemma DescriptionRoundTrip(p: seq<byte>, d: Option<string>)
    requires |p| == 40 && WellFormedDescription(d)
    ensures DescriptionOf(p + DescriptionBytes(d)) == d
  {
    if d.Some? {
      var n := |EncodeUnits(d.value)|;
      var e := EncodeUtf16Le(d.value);
      var s := p + DescriptionBytes(d);
      assert s == p + Le16(n) + e;
      Le16Read(p, n, e);
      MiddleSlice(p + Le16(n), e, []);
      assert s[42..42 + 2 * n] == e;
      DecodeEncodeUtf16Le(d.value);
    }
  }

  // Every well-formed set of properties is read back from its encoding.
  lemma ObjectCommonRoundTrip(x: ObjectCommonProperties)
    requires WellFormedCommon(x)
    ensures ObjectCommonOf(EncodeObjectCommon(x)) == Ok(x)
  {
    var s := EncodeObjectCommon(x);
    CommonLayout(CommonWords(x), MarginHalves(x.margin), TailWords(x), DescriptionBytes(x.description));
    assert s == s[..40] + DescriptionBytes(x.description);
    DescriptionRoundTrip(s[..40], x.description);
    ObjectAttributeRoundTrip(x.attribute);
    assert ObjectAttributeOf(U32(s, 0) as bv32) == x.attribute;
  }
}

