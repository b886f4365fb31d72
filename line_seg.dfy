// Line segments of a paragraph (crates/hwp-core/src/document/bodytext/line_seg.rs):
// PARA_LINE_SEG is an array of 36-byte entries, eight 32-bit fields and a
// tag DWORD whose bits 0, 1 and 16-21 are flags.

module LineSeg {
  import opened Bytes
  import opened Errors
  import opened BitFlags

  datatype LineSegmentTag = LineSegmentTag(
    isFirstLineOfPage: bool,
    isFirstLineOfColumn: bool,
    isEmptySegment: bool,
    isFirstSegmentOfLine: bool,
    isLastSegmentOfLine: bool,
    hasAutoHyphenation: bool,
    hasIndentation: bool,
    hasParagraphHeaderShape: bool)

  // LineSegmentTag::from_bits.
  function TagFromBits(tag: bv32): LineSegmentTag
  {
    LineSegmentTag(tag & 0x1 != 0, tag & 0x2 != 0, tag & 0x1_0000 != 0, tag & 0x2_0000 != 0,
      tag & 0x4_0000 != 0, tag & 0x8_0000 != 0, tag & 0x10_0000 != 0, tag & 0x20_0000 != 0)
  }

  // The partner: the tag DWORD a writer produces for the flags.
  function TagBits(t: LineSegmentTag): bv32
  {
    Bit(t.isFirstLineOfPage, 0x1) | Bit(t.isFirstLineOfColumn, 0x2) | Bit(t.isEmptySegment, 0x1_0000) |
    Bit(t.isFirstSegmentOfLine, 0x2_0000) | Bit(t.isLastSegmentOfLine, 0x4_0000) |
    Bit(t.hasAutoHyphenation, 0x8_0000) | Bit(t.hasIndentation, 0x10_0000) | Bit(t.hasParagraphHeaderShape, 0x20_0000)
  }

  lemma TagFromBitsOfBits(t: LineSegmentTag)
    ensures TagFromBits(TagBits(t)) == t
  {
  }

  // Only bits 0, 1 and 16-21 are read; every other bit is ignored.
  lemma TagBitsOfFromBits(v: bv32)
    ensures TagBits(TagFromBits(v)) == v & 0x3F_0003
  {
  }

  datatype LineSegmentInfo = LineSegmentInfo(
    textStartPosition: u32,
    verticalPosition: i32,
    lineHeight: i32,
    textHeight: i32,
    baselineDistance: i32,
    lineSpacing: i32,
    columnStartPosition: i32,
    segmentWidth: i32,
    tag: LineSegmentTag)

  const SegmentSize: nat := 36

  // One entry by absolute offsets.
  function SegmentOf(s: seq<byte>): LineSegmentInfo
    requires |s| >= 36
  {
    LineSegmentInfo(U32(s, 0), I32(s, 4), I32(s, 8), I32(s, 12), I32(s, 16), I32(s, 20), I32(s, 24),
      I32(s, 28), TagFromBits(U32(s, 32) as bv32))
  }

  function LineSegmentInfoOf(data: seq<byte>): (r: Result<LineSegmentInfo>)
    ensures r.Err? <==> |data| < 36
  {
    if |data| < 36 then Err(InsufficientData("LineSegmentInfo", 36, |data|)) else Ok(SegmentOf(data))
  }

  // LineSegmentInfo::parse with its running offset.
  method ParseLineSegmentInfo(data: seq<byte>) returns (r: Result<LineSegmentInfo>)
    ensures r == LineSegmentInfoOf(data)
  {
    if |data| < 36 {
      return Err(InsufficientData("LineSegmentInfo", 36, |data|));
    }
    var offset := 0;
    var textStartPosition := U32(data, offset);
    offset := offset + 4;
    var verticalPosition := I32(data, offset);
    offset := offset + 4;
    var lineHeight := I32(data, offset);
    offset := offset + 4;
    var textHeight := I32(data, offset);
    offset := offset + 4;
    var baselineDistance := I32(data, offset);
    offset := offset + 4;
    var lineSpacing := I32(data, offset);
    offset := offset + 4;
    var columnStartPosition := I32(data, offset);
    offset := offset + 4;
    var segmentWidth := I32(data, offset);
    offset := offset + 4;
    var tag := TagFromBits(U32(data, offset) as bv32);
    r := Ok(LineSegmentInfo(textStartPosition, verticalPosition, lineHeight, textHeight, baselineDistance,
      lineSpacing, columnStartPosition, segmentWidth, tag));
  }

  // The segments of a whole PARA_LINE_SEG record.
  function ParaLineSegOf(data: seq<byte>): (r: Result<seq<LineSegmentInfo>>)
    ensures r.Err? <==> |data| % 36 != 0
    ensures r.Err? ==> r.error == UnexpectedValue("ParaLineSeg data length")
    ensures r.Ok? ==> |r.value| == |data| / 36
  {
    if |data| % 36 != 0 then Err(UnexpectedValue("ParaLineSeg data length"))
    else Ok(seq(|data| / 36, i requires 0 <= i < |data| / 36 => SegmentOf(data[36 * i..36 * i + 36])))
  }

  // ParaLineSeg::parse: one 36-byte slice per iteration.
  method ParseParaLineSeg(data: seq<byte>) returns (r: Result<seq<LineSegmentInfo>>)
    ensures r == ParaLineSegOf(data)
  {
    if |data| % 36 != 0 {
      return Err(UnexpectedValue("ParaLineSeg data length"));
    }
    var count := |data| / 36;
    var segments: seq<LineSegmentInfo> := [];
    for i := 0 to count
      invariant |segments| == i
      invariant forall j :: 0 <= j < i ==> segments[j] == SegmentOf(data[36 * j..36 * j + 36])
    {
      var offset := i * 36;
      var info := ParseLineSegmentInfo(data[offset..offset + 36]);
      match info
      case Err(e) =>
        assert false;
      case Ok(v) =>
        segments := segments + [v];
    }
    assert segments == seq(count, i requires 0 <= i < count => SegmentOf(data[36 * i..36 * i + 36]));
    r := Ok(segments);
  }

  // The writer side: each entry as nine DWORDs.
  function EncodeSegment(x: LineSegmentInfo): (r: seq<byte>)
    ensures |r| == 36
  {
    Words([x.textStartPosition, FromI32(x.verticalPosition), FromI32(x.lineHeight), FromI32(x.textHeight),
      FromI32(x.baselineDistance), FromI32(x.lineSpacing), FromI32(x.columnStartPosition),
      FromI32(x.segmentWidth), Word(TagBits(x.tag))])
  }

  // The entry read from nine DWORDs that hold the fields of x.
  lemma SegmentOfWords(s: seq<byte>, x: LineSegmentInfo)
    requires |s| >= 36 && U32(s, 0) == x.textStartPosition && U32(s, 4) == FromI32(x.verticalPosition)
    requires U32(s, 8) == FromI32(x.lineHeight) && U32(s, 12) == FromI32(x.textHeight)
    requires U32(s, 16) == FromI32(x.baselineDistance) && U32(s, 20) == FromI32(x.lineSpacing)
    requires U32(s, 24) == FromI32(x.columnStartPosition) && U32(s, 28) == FromI32(x.segmentWidth)
    requires U32(s, 32) == Word(TagBits(x.tag))
    ensures SegmentOf(s) == x
  {
    TagFromBitsOfBits(x.tag);
  }

  lemma SegmentOfEncode(x: LineSegmentInfo, rest: seq<byte>)
    ensures SegmentOf(EncodeSegment(x) + rest) == x
  {
    var ws := [x.textStartPosition, FromI32(x.verticalPosition), FromI32(x.lineHeight), FromI32(x.textHeight),
      FromI32(x.baselineDistance), FromI32(x.lineSpacing), FromI32(x.columnStartPosition),
      FromI32(x.segmentWidth), Word(TagBits(x.tag))];
    var s := Words(ws) + rest;
    WordsAt(ws, rest);
    assert U32(s, 4 * 0) == ws[0] && U32(s, 4 * 1) == ws[1] && U32(s, 4 * 2) == ws[2];
    assert U32(s, 4 * 3) == ws[3] && U32(s, 4 * 4) == ws[4] && U32(s, 4 * 5) == ws[5];
    assert U32(s, 4 * 6) == ws[6] && U32(s, 4 * 7) == ws[7] && U32(s, 4 * 8) == ws[8];
    SegmentOfWords(s, x);
  }

  function EncodeParaLineSeg(segs: seq<LineSegmentInfo>): seq<byte>
  {
    Concat(seq(|segs|, i requires 0 <= i < |segs| => EncodeSegment(segs[i])))
  }

  // Entry i of an encoded list is the encoding of segment i.
  lemma SegmentChunk(segs: seq<LineSegmentInfo>, i: nat)
    requires i < |segs|
    ensures 36 * i + 36 <= |EncodeParaLineSeg(segs)|
    ensures SegmentOf(EncodeParaLineSeg(segs)[36 * i..36 * i + 36]) == segs[i]
  {
    var parts := seq(|segs|, i requires 0 <= i < |segs| => EncodeSegment(segs[i]));
    ConcatLength(parts, 36);
    ConcatChunk(parts, 36, i);
    assert i * 36 == 36 * i;
    SegmentOfEncode(segs[i], []);
    assert EncodeSegment(segs[i]) + [] == parts[i];
  }

  // Every list of segments is read back, in order, from its encoding.
  lemma ParaLineSegRoundTrip(segs: seq<LineSegmentInfo>)
    ensures ParaLineSegOf(EncodeParaLineSeg(segs)) == Ok(segs)
  {
    var parts := seq(|segs|, i requires 0 <= i < |segs| => EncodeSegment(segs[i]));
    var data := EncodeParaLineSeg(segs);
    ConcatLength(parts, 36);
    assert |data| / 36 == |segs|;
    forall i | 0 <= i < |segs|
      ensures SegmentOf(data[36 * i..36 * i + 36]) == segs[i]
    {
      SegmentChunk(segs, i);
    }
    assert ParaLineSegOf(data).value == segs;
  }
}
