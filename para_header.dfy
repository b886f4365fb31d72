// Paragraph headers (crates/hwp-core/src/document/bodytext/para_header.rs):
// the control mask with its per-control-character bits, the column-divide
// bits and the 22- or 24-byte PARA_HEADER record.

module ParaHeader {
  import opened Bytes
  import opened Errors
  import opened BitFlags

  // ControlMask wraps the raw DWORD; new and value are each other's inverse.
  datatype ControlMask = ControlMask(value: u32)

  function NewControlMask(v: u32): (m: ControlMask)
    ensures m.value == v
  {
    ControlMask(v)
  }

  function MaskValue(m: ControlMask): (v: u32)
    ensures NewControlMask(v) == m
  {
    m.value
  }

  // The has_* tests: bit n set means control character n occurs.
  predicate HasSectColDef(m: ControlMask) { HasMask(m.value, 0x4) }
  predicate HasFieldStart(m: ControlMask) { HasMask(m.value, 0x8) }
  predicate HasFieldEnd(m: ControlMask) { HasMask(m.value, 0x10) }
  predicate HasTitleMark(m: ControlMask) { HasMask(m.value, 0x100) }
  predicate HasTab(m: ControlMask) { HasMask(m.value, 0x200) }
  predicate HasLineBreak(m: ControlMask) { HasMask(m.value, 0x400) }
  predicate HasGsoTable(m: ControlMask) { HasMask(m.value, 0x800) }
  predicate HasParaBreak(m: ControlMask) { HasMask(m.value, 0x2000) }
  predicate HasHiddenComment(m: ControlMask) { HasMask(m.value, 0x8000) }
  predicate HasHeaderFooter(m: ControlMask) { HasMask(m.value, 0x1_0000) }
  predicate HasFootnoteEndnote(m: ControlMask) { HasMask(m.value, 0x2_0000) }
  predicate HasAutoNumber(m: ControlMask) { HasMask(m.value, 0x4_0000) }
  predicate HasPageControl(m: ControlMask) { HasMask(m.value, 0x20_0000) }
  predicate HasBookmark(m: ControlMask) { HasMask(m.value, 0x40_0000) }
  predicate HasAdditionalTextOverlappingLetter(m: ControlMask) { HasMask(m.value, 0x80_0000) }
  predicate HasHyphen(m: ControlMask) { HasMask(m.value, 0x100_0000) }
  predicate HasBundleBlank(m: ControlMask) { HasMask(m.value, 0x4000_0000) }
  predicate HasFixWidthBlank(m: ControlMask) { HasMask(m.value, 0x8000_0000) }

  // The names active_flags pushes, one per has_* test, in the same order.
  const ControlFlags: seq<Flag<string>> := [
    Flag(0x4, "section_column_definition"), Flag(0x8, "field_start"), Flag(0x10, "field_end"),
    Flag(0x100, "title_mark"), Flag(0x200, "tab"), Flag(0x400, "line_break"),
    Flag(0x800, "gso_table"), Flag(0x2000, "paragraph_break"), Flag(0x8000, "hidden_comment"),
    Flag(0x1_0000, "header_footer"), Flag(0x2_0000, "footnote_endnote"), Flag(0x4_0000, "auto_number"),
    Flag(0x20_0000, "page_control"), Flag(0x40_0000, "bookmark"),
    Flag(0x80_0000, "additional_text_overlapping_letter"), Flag(0x100_0000, "hyphen"),
    Flag(0x4000_0000, "bundle_blank"), Flag(0x8000_0000, "fix_width_blank")]

  method ActiveFlags(m: ControlMask) returns (flags: seq<string>)
    ensures flags == Active(ControlFlags, m.value)
  {
    flags := CollectFlags(ControlFlags, m.value);
  }

  lemma ControlFlagsDistinct()
    ensures ValidTable(ControlFlags) && DistinctItems(ControlFlags)
  {
    forall i, j | 0 <= i < j < |ControlFlags|
      ensures ControlFlags[i].item != ControlFlags[j].item
    {
      var x, y := ControlFlags[i].item, ControlFlags[j].item;
      assert |x| != |y| || x[0] != y[0];
    }
  }

  // active_flags lists a name exactly when its has_* test holds.
  lemma ActiveFlagsMatch(m: ControlMask, flags: seq<string>)
    requires flags == Active(ControlFlags, m.value)
    ensures HasSectColDef(m) <==> "section_column_definition" in flags
    ensures HasFieldStart(m) <==> "field_start" in flags
    ensures HasFieldEnd(m) <==> "field_end" in flags
    ensures HasTitleMark(m) <==> "title_mark" in flags
    ensures HasTab(m) <==> "tab" in flags
    ensures HasLineBreak(m) <==> "line_break" in flags
    ensures HasGsoTable(m) <==> "gso_table" in flags
    ensures HasParaBreak(m) <==> "paragraph_break" in flags
    ensures HasHiddenComment(m) <==> "hidden_comment" in flags
    ensures HasHeaderFooter(m) <==> "header_footer" in flags
    ensures HasFootnoteEndnote(m) <==> "footnote_endnote" in flags
    ensures HasAutoNumber(m) <==> "auto_number" in flags
    ensures HasPageControl(m) <==> "page_control" in flags
    ensures HasBookmark(m) <==> "bookmark" in flags
    ensures HasAdditionalTextOverlappingLetter(m) <==> "additional_text_overlapping_letter" in flags
    ensures HasHyphen(m) <==> "hyphen" in flags
    ensures HasBundleBlank(m) <==> "bundle_blank" in flags
    ensures HasFixWidthBlank(m) <==> "fix_width_blank" in flags
  {
    ActiveFlagsLow(m, flags);
    ActiveFlagsHigh(m, flags);
  }

  lemma ActiveFlagsLow(m: ControlMask, flags: seq<string>)
    requires flags == Active(ControlFlags, m.value)
    ensures HasSectColDef(m) <==> "section_column_definition" in flags
    ensures HasFieldStart(m) <==> "field_start" in flags
    ensures HasFieldEnd(m) <==> "field_end" in flags
    ensures HasTitleMark(m) <==> "title_mark" in flags
    ensures HasTab(m) <==> "tab" in flags
    ensures HasLineBreak(m) <==> "line_break" in flags
    ensures HasGsoTable(m) <==> "gso_table" in flags
    ensures HasParaBreak(m) <==> "paragraph_break" in flags
    ensures HasHiddenComment(m) <==> "hidden_comment" in flags
  {
    ControlFlagsDistinct();
    ActiveMember(ControlFlags, m.value, 0);
    ActiveMember(ControlFlags, m.value, 1);
    ActiveMember(ControlFlags, m.value, 2);
    ActiveMember(ControlFlags, m.value, 3);
    ActiveMember(ControlFlags, m.value, 4);
    ActiveMember(ControlFlags, m.value, 5);
    ActiveMember(ControlFlags, m.value, 6);
    ActiveMember(ControlFlags, m.value, 7);
    ActiveMember(ControlFlags, m.value, 8);
  }

  lemma ActiveFlagsHigh(m: ControlMask, flags: seq<string>)
    requires flags == Active(ControlFlags, m.value)
    ensures HasHeaderFooter(m) <==> "header_footer" in flags
    ensures HasFootnoteEndnote(m) <==> "footnote_endnote" in flags
    ensures HasAutoNumber(m) <==> "auto_number" in flags
    ensures HasPageControl(m) <==> "page_control" in flags
    ensures HasBookmark(m) <==> "bookmark" in flags
    ensures HasAdditionalTextOverlappingLetter(m) <==> "additional_text_overlapping_letter" in flags
    ensures HasHyphen(m) <==> "hyphen" in flags
    ensures HasBundleBlank(m) <==> "bundle_blank" in flags
    ensures HasFixWidthBlank(m) <==> "fix_width_blank" in flags
  {
    ControlFlagsDistinct();
    ActiveMember(ControlFlags, m.value, 9);
    ActiveMember(ControlFlags, m.value, 10);
    ActiveMember(ControlFlags, m.value, 11);
    ActiveMember(ControlFlags, m.value, 12);
    ActiveMember(ControlFlags, m.value, 13);
    ActiveMember(ControlFlags, m.value, 14);
    ActiveMember(ControlFlags, m.value, 15);
    ActiveMember(ControlFlags, m.value, 16);
    ActiveMember(ControlFlags, m.value, 17);
  }

  datatype ColumnDivideType = Section | MultiColumn | Page | Column

  const ColumnDivideFlags: seq<Flag<ColumnDivideType>> :=
    [Flag(0x01, Section), Flag(0x02, MultiColumn), Flag(0x04, Page), Flag(0x08, Column)]

  // ColumnDivideType::from_bits.
  method ColumnDivideFromBits(bits: byte) returns (types: seq<ColumnDivideType>)
    ensures types == Active(ColumnDivideFlags, bits)
  {
    types := CollectFlags(ColumnDivideFlags, bits);
  }

  function DivideMask(t: ColumnDivideType): nat
  {
    match t
    case Section => 0x01
    case MultiColumn => 0x02
    case Page => 0x04
    case Column => 0x08
  }

  // The partner of from_bits: the bits of a list of divide types.
  function ColumnDivideBits(types: seq<ColumnDivideType>): nat
  {
    if |types| == 0 then 0 else ColumnDivideBits(types[..|types| - 1]) + DivideMask(types[|types| - 1])
  }

  lemma DivideBitsSnoc(a: seq<ColumnDivideType>, x: ColumnDivideType)
    ensures ColumnDivideBits(a + [x]) == ColumnDivideBits(a) + DivideMask(x)
  {
    assert (a + [x])[..|a|] == a;
  }

  lemma DivideBitsStep(a: seq<ColumnDivideType>, bits: byte, mask: nat, x: ColumnDivideType)
    requires mask > 0 && DivideMask(x) == mask
    ensures ColumnDivideBits(a + if HasMask(bits, mask) then [x] else []) ==
      ColumnDivideBits(a) + if HasMask(bits, mask) then mask else 0
  {
    if HasMask(bits, mask) {
      DivideBitsSnoc(a, x);
    } else {
      assert a + [] == a;
    }
  }

  // from_bits keeps exactly the low four bits, in the order Section,
  // MultiColumn, Page, Column.
  lemma ColumnDivideRoundTrip(bits: byte)
    ensures ColumnDivideBits(Active(ColumnDivideFlags, bits)) == bits % 0x10
  {
    var t := ColumnDivideFlags;
    assert t[..1][..0] == [] && t[..2][..1] == t[..1] && t[..3][..2] == t[..2] && t[..3] == t[..|t| - 1];
    var a1 := Active(t[..1], bits);
    var a2 := Active(t[..2], bits);
    var a3 := Active(t[..3], bits);
    assert t[..1] == [Flag(0x01, Section)];
    assert [Flag(0x01, Section)][..0] == [];
    assert a1 == Active([Flag(0x01, Section)][..0], bits) + if HasMask(bits, 1) then [Section] else [];
    DivideBitsStep([], bits, 1, Section);
    DivideBitsStep(a1, bits, 2, MultiColumn);
    DivideBitsStep(a2, bits, 4, Page);
    DivideBitsStep(a3, bits, 8, Column);
    LowNibble(bits);
  }

  lemma LowNibble(bits: byte)
    ensures bits % 0x10 == (if HasMask(bits, 1) then 1 else 0) + (if HasMask(bits, 2) then 2 else 0) +
      (if HasMask(bits, 4) then 4 else 0) + (if HasMask(bits, 8) then 8 else 0)
  {
    var h1, h2, h3 := bits / 2, bits / 4, bits / 8;
    DivDiv(bits, 2, 2);
    DivDiv(bits, 4, 2);
    DivDiv(bits, 8, 2);
    assert bits == 2 * h1 + bits % 2;
    assert h1 == 2 * h2 + h1 % 2;
    assert h2 == 2 * h3 + h2 % 2;
    assert h3 == 2 * (bits / 16) + h3 % 2;
    assert bits == 16 * (bits / 16) + bits % 16;
  }

  datatype ParaHeader = ParaHeader(
    textCharCount: u32,
    controlMask: ControlMask,
    paraShapeId: u16,
    paraStyleId: byte,
    columnDivideType: seq<ColumnDivideType>,
    charShapeCount: u16,
    rangeTagCount: u16,
    lineAlignCount: u16,
    instanceId: u32,
    sectionMerge: Option<u16>)

  // 5.0.3.2 added the two-byte track-change merge flag.
  const MergeVersion: nat := 0x0500_0302

  function MinSize(version: u32): nat
  {
    if version >= MergeVersion then 24 else 22
  }

  // The header by absolute offsets.
  function ParaHeaderOf(data: seq<byte>, version: u32): (r: Result<ParaHeader>)
    ensures r.Err? <==> |data| < MinSize(version)
    ensures r.Err? ==> r.error == InsufficientData("ParaHeader", MinSize(version), |data|)
    ensures r.Ok? ==> r.value.textCharCount < 0x8000_0000 && r.value.textCharCount == U32(data, 0) % 0x8000_0000
    ensures r.Ok? ==> (r.value.sectionMerge.Some? <==> version >= MergeVersion && |data| >= 24)
  {
    if |data| < MinSize(version) then Err(InsufficientData("ParaHeader", MinSize(version), |data|))
    else
      Ok(ParaHeader(U32(data, 0) % 0x8000_0000, ControlMask(U32(data, 4)), U16(data, 8), data[10],
        Active(ColumnDivideFlags, data[11]), U16(data, 12), U16(data, 14), U16(data, 16), U32(data, 18),
        if version >= MergeVersion && |data| >= 24 then Some(U16(data, 22)) else None))
  }

  // ParaHeader::parse, field by field with a running offset.
  method ParseParaHeader(data: seq<byte>, version: u32) returns (r: Result<ParaHeader>)
    ensures r == ParaHeaderOf(data, version)
  {
    var minSize := if version >= 0x0500_0302 then 24 else 22;
    if |data| < minSize {
      return Err(InsufficientData("ParaHeader", minSize, |data|));
    }
    var offset := 0;
    var textCharCount := U32(data, offset);
    if textCharCount / 0x8000_0000 % 2 == 1 {
      textCharCount := textCharCount - 0x8000_0000;
    }
    offset := offset + 4;
    var controlMask := NewControlMask(U32(data, offset));
    offset := offset + 4;
    var paraShapeId := U16(data, offset);
    offset := offset + 2;
    var paraStyleId := data[offset];
    offset := offset + 1;
    var columnDivideType := ColumnDivideFromBits(data[offset]);
    offset := offset + 1;
    var charShapeCount := U16(data, offset);
    offset := offset + 2;
    var rangeTagCount := U16(data, offset);
    offset := offset + 2;
    var lineAlignCount := U16(data, offset);
    offset := offset + 2;
    var instanceId := U32(data, offset);
    offset := offset + 4;
    var sectionMerge := if version >= 0x0500_0302 && |data| >= 24 then Some(U16(data, offset)) else None;
    r := Ok(ParaHeader(textCharCount, controlMask, paraShapeId, paraStyleId, columnDivideType,
      charShapeCount, rangeTagCount, lineAlignCount, instanceId, sectionMerge));
  }
}
