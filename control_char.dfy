// Control characters of paragraph text
// (crates/hwp-core/src/document/bodytext/control_char.rs): which codes the
// text converters drop, which they turn into plain text, and how many
// UTF-16 units each code occupies in PARA_TEXT.

module ControlChar {
  import opened Bytes
  import opened Errors

  // ControlCharPosition: where a control character stood in the paragraph
  // text (a character index) and its code.
  datatype ControlCharPosition = ControlCharPosition(position: nat, code: byte)

  const FieldEnd: byte := 4
  const TitleMark: byte := 8
  const Tab: byte := 9
  const LineBreak: byte := 10
  const ShapeObject: byte := 11
  const ParaBreak: byte := 13
  const HiddenDesc: byte := 15
  const HeaderFooter: byte := 16
  const Footnote: byte := 17
  const AutoNumber: byte := 18
  const PageControl: byte := 21
  const Bookmark: byte := 22
  const CommentOverlap: byte := 23
  const Hyphen: byte := 24
  const BoundSpace: byte := 30
  const FixedSpace: byte := 31

  // Extended controls (kept as separate records), reserved codes, the
  // field end and the title mark.
  predicate IsRemovable(code: byte)
  {
    code == ShapeObject || code == 12 || code == 14 || code == HiddenDesc || code == HeaderFooter ||
    code == Footnote || code == AutoNumber || code == PageControl || code == Bookmark ||
    code == CommentOverlap || 5 <= code <= 7 || 19 <= code <= 20 || 25 <= code <= 29 ||
    code == FieldEnd || code == TitleMark
  }

  predicate IsConvertible(code: byte)
  {
    code == Tab || code == LineBreak || code == ParaBreak || code == Hyphen || code == BoundSpace ||
    code == FixedSpace
  }

  function ToText(code: byte): Option<string>
  {
    if code == Tab then Some("\t")
    else if code == LineBreak || code == ParaBreak then Some("\n")
    else if code == Hyphen then Some("-")
    else if code == BoundSpace || code == FixedSpace then Some(" ")
    else None
  }

  // The size in WCHAR units: char-type controls and ordinary characters
  // take one unit, inline and extended controls eight.
  function SizeByCode(code: byte): nat
  {
    if code <= 31 then
      if code == 0 || code == 10 || code == 13 || code == 24 || code == 30 || code == 31 then 1
      else if code == 4 || code == 5 || code == 6 || code == 7 || code == 8 || code == 9 || code == 19 || code == 20 then 8
      else 8
    else 1
  }

  lemma RemovableNotConvertible(code: byte)
    ensures !(IsRemovable(code) && IsConvertible(code))
  {
  }

  lemma ToTextIffConvertible(code: byte)
    ensures ToText(code).Some? <==> IsConvertible(code)
  {
  }

  lemma BreaksAreNewlines()
    ensures ToText(LineBreak) == Some("\n") && ToText(ParaBreak) == Some("\n")
  {
  }

  // One unit for 0, 10, 13, 24, 30, 31 and every code above 31; eight for
  // every other code; every removable code is an eight-unit control.
  lemma SizeByCodeValues(code: byte)
    ensures SizeByCode(code) == 1 <==> code in {0, 10, 13, 24, 30, 31} || code > 31
    ensures SizeByCode(code) == 1 || SizeByCode(code) == 8
    ensures IsRemovable(code) ==> SizeByCode(code) == 8
  {
  }
}
