// The paragraph numbering record of DocInfo (Tables 38-40 of the format,
// crates/hwp-core/src/document/docinfo/numbering.rs): up to seven level
// headers, each a fixed twelve-byte part, a length-prefixed number format,
// a start number and, from version 5.0.2.5 on, a level start number; then
// up to three extended number formats. Every part after the fixed twelve
// bytes is optional: the reader takes what fits and defaults the rest.

module Numbering {
  import opened Bytes
  import opened Errors
  import opened Utf16
  import opened BitFlags

  datatype ParagraphAlignType = Left | Center | Right

  datatype DistanceType = Ratio | Value

  datatype NumberingHeaderAttributes = NumberingHeaderAttributes(
    alignType: ParagraphAlignType, instanceLike: bool, autoOutdent: bool, distanceType: DistanceType)

  datatype NumberingLevelInfo = NumberingLevelInfo(
    attributes: NumberingHeaderAttributes, width: i16, distance: i16, charShapeId: u32,
    formatLength: u16, formatString: string, startNumber: u16, levelStartNumber: Option<u32>)

  datatype ExtendedNumberingLevel = ExtendedNumberingLevel(formatLength: u16, formatString: string)

  datatype Numbering = Numbering(levels: seq<NumberingLevelInfo>, extendedLevels: seq<ExtendedNumberingLevel>)

  // Version 5.0.2.5, the first to store a start number per level.
  const LevelStartVersion: u32 := 0x0002_0500

  const MaxLevels: nat := 7
  const MaxExtendedLevels: nat := 3

  // ParagraphAlignType::from_bits on the two low bits: 3 reads as Left.
  function AlignTypeOf(v: nat): (t: ParagraphAlignType)
    ensures t == Center <==> v % 4 == 1
    ensures t == Right <==> v % 4 == 2
    ensures t == Left <==> v % 4 == 0 || v % 4 == 3
  {
    match v % 4
    case 1 => Center
    case 2 => Right
    case _ => Left
  }

  function AlignTypeBits(t: ParagraphAlignType): (v: nat)
    ensures v < 3
  {
    match t
    case Left => 0
    case Center => 1
    case Right => 2
  }

  // The attribute DWORD of a level (Table 40).
  function NumberingHeaderAttributesOf(v: u32): (a: NumberingHeaderAttributes)
    ensures a.alignType == AlignTypeOf(v)
    ensures a.instanceLike <==> HasMask(v, 0x4)
    ensures a.autoOutdent <==> HasMask(v, 0x8)
    ensures a.distanceType == Value <==> HasMask(v, 0x10)
  {
    NumberingHeaderAttributes(AlignTypeOf(v), HasMask(v, 0x4), HasMask(v, 0x8),
                              if HasMask(v, 0x10) then Value else Ratio)
  }

  function NumberingHeaderAttributesBits(a: NumberingHeaderAttributes): (v: u32)
    ensures v < 0x20
  {
    AlignTypeBits(a.alignType) + 0x4 * BoolBit(a.instanceLike) + 0x8 * BoolBit(a.autoOutdent) +
    0x10 * BoolBit(a.distanceType == Value)
  }

  // Every attribute value is written by exactly the bits it reads back from.
  lemma NumberingHeaderAttributesRoundTrip(a: NumberingHeaderAttributes)
    ensures NumberingHeaderAttributesOf(NumberingHeaderAttributesBits(a)) == a
  {
    var al, b1, b2, b3 := AlignTypeBits(a.alignType), BoolBit(a.instanceLike), BoolBit(a.autoOutdent),
                          BoolBit(a.distanceType == Value);
    var v := NumberingHeaderAttributesBits(a);
    FieldIn(v, al, 0x4, b1, 2, b2 + 2 * b3);
    FieldIn(v, al + 0x4 * b1, 0x8, b2, 2, b3);
    FieldIn(v, al + 0x4 * b1 + 0x8 * b2, 0x10, b3, 2, 0);
    BoolBitMask(a.instanceLike, v, 0x4);
    BoolBitMask(a.autoOutdent, v, 0x8);
    BoolBitMask(a.distanceType == Value, v, 0x10);
  }

  // Bits above the five the table defines change nothing.
  lemma NumberingHeaderAttributesHighBitsIgnored(v: u32)
    ensures NumberingHeaderAttributesOf(v) == NumberingHeaderAttributesOf(v % 0x20)
  {
    ModKeepsMask(v, 0x4, 4);
    ModKeepsMask(v, 0x8, 2);
    ModKeepsMask(v, 0x10, 1);
    ModAddMul(4, 8 * (v / 0x20), v % 0x20);
    assert v == 4 * (8 * (v / 0x20)) + v % 0x20;
  }

  // A number format: a WORD count, then that many WCHARs if they fit. With
  // too few bytes for the count the format is (0, "") and nothing is
  // consumed; with a count whose characters do not fit it is (0, "") and the
  // count alone is consumed. A format that fits but is not valid UTF-16 is an
  // EncodingError.
  function FormatAt(data: seq<byte>, off: nat): (r: Result<(u16, string, nat)>)
    requires off <= |data|
    ensures off + 2 > |data| ==> r == Ok((0, "", off))
    ensures off + 2 <= |data| && off + 2 + 2 * U16(data, off) > |data| ==>
      r.Ok? && r.value.0 == 0 && r.value.1 == "" && r.value.2 == off + 2
    ensures off + 2 <= |data| && off + 2 + 2 * U16(data, off) <= |data| ==>
      var b := data[off + 2..off + 2 + 2 * U16(data, off)];
      (r.Err? <==> DecodeUtf16Le(b).Err?) &&
      (r.Err? ==> r == Err(EncodingError)) &&
      (r.Ok? ==> r.value == (U16(data, off), DecodeUtf16Le(b).value, off + 2 + 2 * U16(data, off)))
    ensures r.Ok? ==> off <= r.value.2 <= |data|
  {
    if off + 2 > |data| then Ok((0, "", off))
    else
      var len := U16(data, off);
      if off + 2 + 2 * len > |data| then Ok((0, "", off + 2))
      else
        match DecodeUtf16Le(data[off + 2..off + 2 + 2 * len])
        case Err(e) => Err(e)
        case Ok(s) => Ok((len, s, off + 2 + 2 * len))
  }

  // One level header at offset off, which has its twelve fixed bytes, and
  // the offset past it.
  function LevelAt(data: seq<byte>, off: nat, version: u32): (r: Result<(NumberingLevelInfo, nat)>)
    requires off + 12 <= |data|
    ensures r.Err? <==> FormatAt(data, off + 12).Err?
    ensures r.Err? ==> r == Err(EncodingError)
    ensures r.Ok? ==> off + 12 <= r.value.1 <= |data|
    ensures r.Ok? ==> var l := r.value.0;
      l.attributes == NumberingHeaderAttributesOf(U32(data, off)) && l.width == I16(data, off + 4) &&
      l.distance == I16(data, off + 6) && l.charShapeId == U32(data, off + 8) &&
      (l.formatLength, l.formatString) == (FormatAt(data, off + 12).value.0, FormatAt(data, off + 12).value.1)
    ensures r.Ok? && r.value.0.levelStartNumber.Some? ==> version >= LevelStartVersion
  {
    match FormatAt(data, off + 12)
    case Err(e) => Err(e)
    case Ok((len, format, o1)) =>
      var startNumber := if o1 + 2 <= |data| then U16(data, o1) else 0;
      var o2 := if o1 + 2 <= |data| then o1 + 2 else o1;
      var levelStart := if version >= LevelStartVersion && o2 + 4 <= |data| then Some(U32(data, o2)) else None;
      var o3 := if levelStart.Some? then o2 + 4 else o2;
      Ok((NumberingLevelInfo(NumberingHeaderAttributesOf(U32(data, off)), I16(data, off + 4), I16(data, off + 6),
                             U32(data, off + 8), len, format, startNumber, levelStart), o3))
  }

  // The start numbers of a level: the WORD is read when two bytes remain
  // after the format, and the level start DWORD from version 5.0.2.5 on when
  // four more remain.
  lemma LevelStartNumbers(data: seq<byte>, off: nat, version: u32)
    requires off + 12 <= |data| && LevelAt(data, off, version).Ok?
    ensures var o1 := FormatAt(data, off + 12).value.2;
      var l := LevelAt(data, off, version).value.0;
      (l.startNumber == if o1 + 2 <= |data| then U16(data, o1) else 0) &&
      (l.levelStartNumber.Some? <==> version >= LevelStartVersion && o1 + 6 <= |data|) &&
      (l.levelStartNumber.Some? ==> l.levelStartNumber.value == U32(data, o1 + 2))
  {
  }

  // A result with a prefix of items put in front of its list.
  function Prepend<T>(p: seq<T>, r: Result<(seq<T>, nat)>): (q: Result<(seq<T>, nat)>)
    ensures q.Err? <==> r.Err?
  {
    match r
    case Err(e) => Err(e)
    case Ok((xs, o)) => Ok((p + xs, o))
  }

  lemma PrependPrepend<T>(p: seq<T>, x: T, r: Result<(seq<T>, nat)>)
    ensures Prepend(p, Prepend([x], r)) == Prepend(p + [x], r)
  {
    match r
    case Err(e) =>
    case Ok((xs, o)) =>
      assert p + ([x] + xs) == p + [x] + xs;
  }

  lemma PrependOk<T>(x: T, r: Result<(seq<T>, nat)>, xs: seq<T>, m: nat)
    requires r == Ok((xs, m))
    ensures Prepend([x], r) == Ok(([x] + xs, m))
  {
  }

  lemma PrependNothing<T>(r: Result<(seq<T>, nat)>)
    ensures Prepend([], r) == r
  {
    match r
    case Err(e) =>
    case Ok((xs, o)) =>
      assert [] + xs == xs;
  }

  // The level loop from offset off with k iterations left: it stops early
  // only when fewer than twelve bytes remain.
  function LevelsFrom(data: seq<byte>, off: nat, version: u32, k: nat): (r: Result<(seq<NumberingLevelInfo>, nat)>)
    requires off <= |data|
    ensures r.Err? ==> r == Err(EncodingError)
    ensures r.Ok? ==> |r.value.0| <= k && off <= r.value.1 <= |data|
    ensures r.Ok? && |r.value.0| < k ==> r.value.1 + 12 > |data|
    decreases k
  {
    if k == 0 || off + 12 > |data| then Ok(([], off))
    else
      match LevelAt(data, off, version)
      case Err(e) => Err(e)
      case Ok((level, next)) => Prepend([level], LevelsFrom(data, next, version, k - 1))
  }

  // What one turn of the extended-format loop finds at an offset with a
  // count: the end of the list, with the offset it has reached, or a level
  // and the offset after it.
  datatype ExtendedTurn = Stop(stopAt: nat) | Next(level: ExtendedNumberingLevel, next: nat)

  // A count whose characters do not fit stops the list after the count; a
  // format that fits is decoded, and not valid UTF-16 is an EncodingError.
  function ExtendedAt(data: seq<byte>, off: nat): (r: Result<ExtendedTurn>)
    requires off + 2 <= |data|
    ensures r.Err? ==> r == Err(EncodingError)
    ensures r.Ok? && r.value.Stop? ==> r.value.stopAt == off + 2 && off + 2 + 2 * U16(data, off) > |data|
    ensures r.Ok? && r.value.Next? ==> var n := off + 2 + 2 * U16(data, off);
      r.value.next == n <= |data| && r.value.level.formatLength == U16(data, off) &&
      DecodeUtf16Le(data[off + 2..n]) == Ok(r.value.level.formatString)
  {
    var len := U16(data, off);
    if off + 2 + 2 * len > |data| then Ok(Stop(off + 2))
    else
      match DecodeUtf16Le(data[off + 2..off + 2 + 2 * len])
      case Err(e) => Err(e)
      case Ok(s) => Ok(Next(ExtendedNumberingLevel(len, s), off + 2 + 2 * len))
  }

  // The extended formats from offset off with k iterations left: a missing
  // count, or a count whose characters do not fit, ends the list.
  function ExtendedFrom(data: seq<byte>, off: nat, k: nat): (r: Result<(seq<ExtendedNumberingLevel>, nat)>)
    requires off <= |data|
    ensures r.Err? ==> r == Err(EncodingError)
    ensures r.Ok? ==> |r.value.0| <= k && off <= r.value.1 <= |data|
    decreases k
  {
    if k == 0 || off + 2 > |data| then Ok(([], off))
    else
      match ExtendedAt(data, off)
      case Err(e) => Err(e)
      case Ok(Stop(at)) => Ok(([], at))
      case Ok(Next(level, next)) => Prepend([level], ExtendedFrom(data, next, k - 1))
  }

  // Numbering::parse: never short of data, at most seven levels and three
  // extended formats, fewer than seven levels only when the record ran out,
  // and an error only for a format that is not valid UTF-16.
  function NumberingOf(data: seq<byte>, version: u32): (r: Result<Numbering>)
    ensures r.Err? ==> r == Err(EncodingError)
    ensures r.Ok? ==> |r.value.levels| <= MaxLevels && |r.value.extendedLevels| <= MaxExtendedLevels
    ensures r.Ok? ==> var lv := LevelsFrom(data, 0, version, MaxLevels);
      lv.Ok? && r.value.levels == lv.value.0 && (|lv.value.0| < MaxLevels ==> lv.value.1 + 12 > |data|)
  {
    match LevelsFrom(data, 0, version, MaxLevels)
    case Err(e) => Err(e)
    case Ok((levels, off)) =>
      match ExtendedFrom(data, off, MaxExtendedLevels)
      case Err(e) => Err(e)
      case Ok((extended, _)) => Ok(Numbering(levels, extended))
  }

  // The number format of one level, with the source's running offset.
  method ParseFormat(data: seq<byte>, off: nat) returns (r: Result<(u16, string, nat)>)
    requires off <= |data|
    ensures r == FormatAt(data, off)
  {
    var offset := off;
    if offset + 2 <= |data| {
      var len := U16(data, offset);
      offset := offset + 2;
      var formatBytes := len as nat * 2;
      if offset + formatBytes <= |data| {
        var s := DecodeUtf16Le(data[offset..offset + formatBytes]);
        if s.Err? {
          return Err(EncodingError);
        }
        offset := offset + formatBytes;
        return Ok((len, s.value, offset));
      }
      return Ok((0, "", offset));
    }
    return Ok((0, "", offset));
  }

  // The body of the level loop.
  method ParseLevel(data: seq<byte>, off: nat, version: u32) returns (r: Result<(NumberingLevelInfo, nat)>)
    requires off + 12 <= |data|
    ensures r == LevelAt(data, off, version)
  {
    var offset := off;
    var attrValue := U32(data, offset);
    offset := offset + 4;
    var attributes := NumberingHeaderAttributesOf(attrValue);
    var width := I16(data, offset);
    offset := offset + 2;
    var distance := I16(data, offset);
    offset := offset + 2;
    var charShapeId := U32(data, offset);
    offset := offset + 4;
    var format := ParseFormat(data, offset);
    if format.Err? {
      return Err(format.error);
    }
    var (formatLength, formatString, o1) := format.value;
    offset := o1;
    var startNumber := 0;
    if offset + 2 <= |data| {
      startNumber := U16(data, offset);
      offset := offset + 2;
    }
    var levelStartNumber := None;
    if version >= LevelStartVersion && offset + 4 <= |data| {
      levelStartNumber := Some(U32(data, offset));
      offset := offset + 4;
    }
    r := Ok((NumberingLevelInfo(attributes, width, distance, charShapeId, formatLength, formatString,
                                startNumber, levelStartNumber), offset));
  }

  // Numbering::parse with its running offset and its two bounded loops.
  // The level loop of Numbering::parse.
  method ParseLevels(data: seq<byte>, version: u32) returns (r: Result<(seq<NumberingLevelInfo>, nat)>)
    ensures r == LevelsFrom(data, 0, version, MaxLevels)
  {
    var offset: nat := 0;
    var levels: seq<NumberingLevelInfo> := [];
    PrependNothing(LevelsFrom(data, 0, version, MaxLevels));
    var i := 0;
    while i < MaxLevels
      invariant 0 <= i <= MaxLevels && offset <= |data|
      invariant LevelsFrom(data, 0, version, MaxLevels) == Prepend(levels, LevelsFrom(data, offset, version, MaxLevels - i))
    {
      if offset + 12 > |data| {
        break;
      }
      var level := ParseLevel(data, offset, version);
      if level.Err? {
        return Err(level.error);
      }
      PrependPrepend(levels, level.value.0, LevelsFrom(data, level.value.1, version, MaxLevels - i - 1));
      levels := levels + [level.value.0];
      offset := level.value.1;
      i := i + 1;
    }
    assert LevelsFrom(data, offset, version, MaxLevels - i) == Ok(([], offset));
    assert levels + [] == levels;
    r := Ok((levels, offset));
  }

  // The body of the extended-format loop.
  method ParseExtendedLevel(data: seq<byte>, off: nat) returns (r: Result<ExtendedTurn>)
    requires off + 2 <= |data|
    ensures r == ExtendedAt(data, off)
  {
    var offset := off;
    var formatLength := U16(data, offset);
    offset := offset + 2;
    var formatBytes := formatLength as nat * 2;
    if offset + formatBytes > |data| {
      return Ok(Stop(offset));
    }
    var formatString := DecodeUtf16Le(data[offset..offset + formatBytes]);
    if formatString.Err? {
      return Err(EncodingError);
    }
    offset := offset + formatBytes;
    r := Ok(Next(ExtendedNumberingLevel(formatLength, formatString.value), offset));
  }

  // The extended-format loop of Numbering::parse, from where the levels end.
  method ParseExtendedLevels(data: seq<byte>, off: nat) returns (r: Result<(seq<ExtendedNumberingLevel>, nat)>)
    requires off <= |data|
    ensures r == ExtendedFrom(data, off, MaxExtendedLevels)
  {
    var offset: nat := off;
    var extendedLevels: seq<ExtendedNumberingLevel> := [];
    PrependNothing(ExtendedFrom(data, off, MaxExtendedLevels));
    var j := 0;
    while j < MaxExtendedLevels
      invariant 0 <= j <= MaxExtendedLevels && offset <= |data|
      invariant ExtendedFrom(data, off, MaxExtendedLevels) ==
                Prepend(extendedLevels, ExtendedFrom(data, offset, MaxExtendedLevels - j))
    {
      if offset + 2 > |data| {
        break;
      }
      var turn := ParseExtendedLevel(data, offset);
      if turn.Err? {
        return Err(turn.error);
      }
      if turn.value.Stop? {
        assert extendedLevels + [] == extendedLevels;
        return Ok((extendedLevels, turn.value.stopAt));
      }
      var level := turn.value.level;
      PrependPrepend(extendedLevels, level, ExtendedFrom(data, turn.value.next, MaxExtendedLevels - j - 1));
      extendedLevels := extendedLevels + [level];
      offset := turn.value.next;
      j := j + 1;
    }
    assert ExtendedFrom(data, offset, MaxExtendedLevels - j) == Ok(([], offset));
    assert extendedLevels + [] == extendedLevels;
    r := Ok((extendedLevels, offset));
  }

  // Numbering::parse: the levels, then the extended formats after them.
  method ParseNumbering(data: seq<byte>, version: u32) returns (r: Result<Numbering>)
    ensures r == NumberingOf(data, version)
  {
    var levels := ParseLevels(data, version);
    if levels.Err? {
      return Err(levels.error);
    }
    var extendedLevels := ParseExtendedLevels(data, levels.value.1);
    if extendedLevels.Err? {
      return Err(extendedLevels.error);
    }
    r := Ok(Numbering(levels.value.0, extendedLevels.value.0));
  }

  // The writer side. A level stores the unit count of its format, and
  // carries a level start number exactly when the version has one.
  predicate WellFormedLevel(l: NumberingLevelInfo, version: u32)
  {
    |EncodeUnits(l.formatString)| == l.formatLength &&
    (l.levelStartNumber.Some? <==> version >= LevelStartVersion)
  }

  predicate WellFormedExtended(e: ExtendedNumberingLevel)
  {
    |EncodeUnits(e.formatString)| == e.formatLength
  }

  function EncodeFormat(len: u16, format: string): (r: seq<byte>)
  {
    Le16(len) + EncodeUtf16Le(format)
  }

  function EncodeLevelStart(x: Option<u32>): (r: seq<byte>)
  {
    if x.Some? then Le32(x.value) else []
  }

  function EncodeLevelHead(l: NumberingLevelInfo): (r: seq<byte>)
    ensures |r| == 12
  {
    Le32(NumberingHeaderAttributesBits(l.attributes)) + Le16(FromI16(l.width)) + Le16(FromI16(l.distance)) +
    Le32(l.charShapeId)
  }

  function EncodeLevel(l: NumberingLevelInfo): (r: seq<byte>)
  {
    EncodeLevelHead(l) + EncodeFormat(l.formatLength, l.formatString) + Le16(l.startNumber) +
    EncodeLevelStart(l.levelStartNumber)
  }

  // The bytes a written level takes.
  function LevelSize(l: NumberingLevelInfo): nat
  {
    16 + 2 * l.formatLength + |EncodeLevelStart(l.levelStartNumber)|
  }

  // The twelve fixed bytes of a written level.
  lemma LevelHeadLaid(data: seq<byte>, off: nat, l: NumberingLevelInfo, rest: seq<byte>)
    requires off <= |data| && data[off..] == EncodeLevelHead(l) + rest
    ensures off + 12 <= |data| && data[off + 12..] == rest
    ensures U32(data, off) == NumberingHeaderAttributesBits(l.attributes)
    ensures U16(data, off + 4) == FromI16(l.width) && U16(data, off + 6) == FromI16(l.distance)
    ensures U32(data, off + 8) == l.charShapeId
  {
    var a, w, d, c := NumberingHeaderAttributesBits(l.attributes), FromI16(l.width), FromI16(l.distance), l.charShapeId;
    assert data[off..] == Le32(a) + (Le16(w) + (Le16(d) + (Le32(c) + rest)));
    SliceAfter(data, off, Le32(a), Le16(w) + (Le16(d) + (Le32(c) + rest)));
    SliceAfter(data, off + 4, Le16(w), Le16(d) + (Le32(c) + rest));
    SliceAfter(data, off + 6, Le16(d), Le32(c) + rest);
    SliceAfter(data, off + 8, Le32(c), rest);
    U32At(data, off, a);
    U16At(data, off + 4, w);
    U16At(data, off + 6, d);
    U32At(data, off + 8, c);
  }

  // A count and the bytes of its characters.
  lemma CountedLaid(data: seq<byte>, at: nat, len: u16, e: seq<byte>, after: seq<byte>)
    requires |e| == 2 * len && at <= |data| && data[at..] == Le16(len) + (e + after)
    ensures at + 2 + |e| <= |data| && U16(data, at) == len
    ensures data[at + 2..at + 2 + |e|] == e && data[at + 2 + |e|..] == after
  {
    SliceAfter(data, at, Le16(len), e + after);
    U16At(data, at, len);
    SliceAfter(data, at + 2, e, after);
  }

  // The start numbers after the format.
  lemma StartLaid(data: seq<byte>, at: nat, sn: u16, x: Option<u32>, tail: seq<byte>)
    requires at <= |data| && data[at..] == Le16(sn) + (EncodeLevelStart(x) + tail)
    ensures var m := at + 2 + |EncodeLevelStart(x)|;
      m <= |data| && U16(data, at) == sn && data[m..] == tail &&
      (x.Some? ==> U32(data, at + 2) == x.value)
  {
    SliceAfter(data, at, Le16(sn), EncodeLevelStart(x) + tail);
    U16At(data, at, sn);
    SliceAfter(data, at + 2, EncodeLevelStart(x), tail);
    if x.Some? {
      U32At(data, at + 2, x.value);
    }
  }

  // A level whose format characters are the bytes e, in front of tail.
  lemma LevelFieldsRead(data: seq<byte>, off: nat, l: NumberingLevelInfo, version: u32, e: seq<byte>,
                        tail: seq<byte>)
    requires |e| == 2 * l.formatLength && DecodeUtf16Le(e) == Ok(l.formatString)
    requires l.levelStartNumber.Some? <==> version >= LevelStartVersion
    requires off <= |data|
    requires data[off..] == EncodeLevelHead(l) + (Le16(l.formatLength) + (e + (Le16(l.startNumber) +
                            (EncodeLevelStart(l.levelStartNumber) + tail))))
    ensures var n: nat := off + LevelSize(l);
      off + 12 <= |data| && LevelAt(data, off, version) == Ok((l, n)) && data[n..] == tail
  {
    var st := Le16(l.startNumber) + (EncodeLevelStart(l.levelStartNumber) + tail);
    var o1: nat := off + 14 + 2 * l.formatLength;
    LevelHeadLaid(data, off, l, Le16(l.formatLength) + (e + st));
    CountedLaid(data, off + 12, l.formatLength, e, st);
    StartLaid(data, o1, l.startNumber, l.levelStartNumber, tail);
    assert FormatAt(data, off + 12) == Ok((l.formatLength, l.formatString, o1));
    NumberingHeaderAttributesRoundTrip(l.attributes);
    LevelFromFields(data, off, l, version, o1);
  }

  // LevelAt once each field is known to sit where the reader looks.
  lemma LevelFromFields(data: seq<byte>, off: nat, l: NumberingLevelInfo, version: u32, o1: nat)
    requires off + 12 <= |data| && FormatAt(data, off + 12) == Ok((l.formatLength, l.formatString, o1))
    requires NumberingHeaderAttributesOf(U32(data, off)) == l.attributes
    requires I16(data, off + 4) == l.width && I16(data, off + 6) == l.distance && U32(data, off + 8) == l.charShapeId
    requires o1 + 2 + |EncodeLevelStart(l.levelStartNumber)| <= |data| && U16(data, o1) == l.startNumber
    requires l.levelStartNumber.Some? <==> version >= LevelStartVersion
    requires l.levelStartNumber.Some? ==> U32(data, o1 + 2) == l.levelStartNumber.value
    ensures LevelAt(data, off, version) == Ok((l, o1 + 2 + |EncodeLevelStart(l.levelStartNumber)|))
  {
  }

  // A written level, followed by anything, reads back as itself, and the
  // reader goes on exactly where the level's bytes end.
  lemma LevelRoundTrip(data: seq<byte>, off: nat, l: NumberingLevelInfo, version: u32, tail: seq<byte>)
    requires WellFormedLevel(l, version)
    requires off <= |data| && data[off..] == EncodeLevel(l) + tail
    ensures var n: nat := off + LevelSize(l);
      off + 12 <= |data| && LevelAt(data, off, version) == Ok((l, n)) && data[n..] == tail
  {
    var e := EncodeUtf16Le(l.formatString);
    DecodeEncodeUtf16Le(l.formatString);
    LevelFieldsRead(data, off, l, version, e, tail);
  }

  // A written extended format, followed by anything, reads back as itself.
  lemma ExtendedRoundTrip(data: seq<byte>, off: nat, x: ExtendedNumberingLevel, tail: seq<byte>)
    requires WellFormedExtended(x)
    requires off <= |data| && data[off..] == EncodeFormat(x.formatLength, x.formatString) + tail
    ensures var n: nat := off + 2 + 2 * x.formatLength;
      off + 2 <= |data| && ExtendedAt(data, off) == Ok(Next(x, n)) && data[n..] == tail
  {
    var e := EncodeUtf16Le(x.formatString);
    DecodeEncodeUtf16Le(x.formatString);
    assert data[off..] == Le16(x.formatLength) + (e + tail);
    CountedLaid(data, off, x.formatLength, e, tail);
  }
}
