// Paragraph text to Markdown
// (crates/hwp-core/src/viewer/markdown/document/bodytext/para_text.rs).
// Without character shapes, paragraph and line breaks become Markdown
// hard breaks ("  \n") between the trimmed pieces of text around them, and
// the result is trimmed at its start only. With character shapes the text
// is cut at the shape positions (sorted and deduplicated, with 0 and the
// length added), each piece takes the shape in force at its start, and
// bold, italic and strikethrough become Markdown emphasis.
//
// Text is a sequence of characters and positions count characters; the
// byte offsets the source converts to are the same positions in UTF-8.

module MarkdownParaText {
  import opened Bytes
  import opened Errors
  import opened Text
  import opened Sorting
  import ControlChar
  import CharShape
  import ParaCharShape

  type ControlPosition = ControlChar.ControlCharPosition

  predicate IsBreak(code: byte)
  {
    code == ControlChar.ParaBreak || code == ControlChar.LineBreak
  }

  predicate HasBreaks(controls: seq<ControlPosition>)
  {
    exists i :: 0 <= i < |controls| && IsBreak(controls[i].code)
  }

  // is_meaningful_text: anything but whitespace.
  predicate IsMeaningfulText(text: string)
  {
    Trim(text) != ""
  }

  // ---------------------------------------------------------------------
  // apply_markdown_styles.

  function ApplyMarkdownStyles(text: string, bold: bool, italic: bool, strikethrough: bool): string
  {
    if |text| == 0 then ""
    else
      var i := if italic then "*" + text + "*" else text;
      var b := if bold then "**" + i + "**" else i;
      if strikethrough then "~~" + b + "~~" else b
  }

  function Mark(on: bool, m: string): string
  {
    if on then m else ""
  }

  function Opening(bold: bool, italic: bool, strikethrough: bool): string
  {
    Mark(strikethrough, "~~") + Mark(bold, "**") + Mark(italic, "*")
  }

  function Closing(bold: bool, italic: bool, strikethrough: bool): string
  {
    Mark(italic, "*") + Mark(bold, "**") + Mark(strikethrough, "~~")
  }

  // Strikethrough is outermost and italic innermost, and the text sits
  // unchanged between the marks.
  lemma StylesNest(text: string, bold: bool, italic: bool, strikethrough: bool)
    requires |text| > 0
    ensures var r := ApplyMarkdownStyles(text, bold, italic, strikethrough);
      var o, c := Opening(bold, italic, strikethrough), Closing(bold, italic, strikethrough);
      r == o + text + c && r[|o|..|r| - |c|] == text
  {
    StylesWrap(text, bold, italic, strikethrough);
    Nest(Mark(strikethrough, "~~"), Mark(bold, "**"), Mark(italic, "*"), text);
  }

  lemma StylesWrap(text: string, bold: bool, italic: bool, strikethrough: bool)
    requires |text| > 0
    ensures var si, sb, ss := Mark(italic, "*"), Mark(bold, "**"), Mark(strikethrough, "~~");
      ApplyMarkdownStyles(text, bold, italic, strikethrough) == ss + (sb + (si + text + si) + sb) + ss
  {
  }

  lemma Nest(a: string, b: string, c: string, t: string)
    ensures a + (b + (c + t + c) + b) + a == (a + b + c) + t + (c + b + a)
    ensures ((a + b + c) + t + (c + b + a))[|a + b + c|..|a + b + c| + |t|] == t
  {
  }

  // ---------------------------------------------------------------------
  // Without character shapes: breaks become hard line breaks.

  function ByPosition(c: ControlPosition): nat { c.position }

  // `char_index_to_byte_index(text, k)` followed by `unwrap_or(fallback)`;
  // the source uses 0 as the fallback.
  function IndexOr(text: string, k: nat, fallback: nat): nat
  {
    if k < |text| then k else fallback
  }

  // The text so far and the position after the last break.
  datatype BreakState = BreakState(result: string, last: nat)

  // One control of the sorted list: a break inside the text appends the
  // trimmed text since the last break and then "  \n"; any other control,
  // and a break past the text, is skipped.
  function BreakStep(text: string, st: BreakState, c: ControlPosition, fallback: nat): BreakState
  {
    if !IsBreak(c.code) || c.position >= |text| then st
    else
      var from := IndexOr(text, st.last, fallback);
      var part := if c.position > from && from <= |text| then Trim(text[from..c.position]) else "";
      BreakState(st.result + part + "  \n", c.position + 1)
  }

  function BreakSteps(text: string, cs: seq<ControlPosition>, fallback: nat): BreakState
  {
    if |cs| == 0 then BreakState("", 0)
    else BreakStep(text, BreakSteps(text, cs[..|cs| - 1], fallback), cs[|cs| - 1], fallback)
  }

  // The text after the last break, trimmed.
  function WithTail(text: string, st: BreakState, fallback: nat): string
  {
    var from := IndexOr(text, st.last, fallback);
    if from < |text| then st.result + Trim(text[from..]) else st.result
  }

  function BreaksRaw(text: string, controls: seq<ControlPosition>, fallback: nat): string
  {
    var sorted := SortByKey(controls, ByPosition);
    WithTail(text, BreakSteps(text, sorted, fallback), fallback)
  }

  function NonEmpty(s: string): Option<string>
  {
    if s != "" then Some(s) else None
  }

  function BreaksMarkdown(text: string, controls: seq<ControlPosition>, fallback: nat): Option<string>
  {
    NonEmpty(TrimStart(BreaksRaw(text, controls, fallback)))
  }

  // The loop over the sorted controls.
  method ConvertBreaks(text: string, controls: seq<ControlPosition>) returns (r: Option<string>)
    ensures r == BreaksMarkdown(text, controls, 0)
  {
    var sorted := SortByKey(controls, ByPosition);
    var result := "";
    var lastCharPos: nat := 0;
    for k := 0 to |sorted|
      invariant BreakState(result, lastCharPos) == BreakSteps(text, sorted[..k], 0)
    {
      assert sorted[..k + 1][..k] == sorted[..k];
      ghost var st := BreakState(result, lastCharPos);
      assert BreakSteps(text, sorted[..k + 1], 0) == BreakStep(text, st, sorted[k], 0);
      var pos := sorted[k];
      if IsBreak(pos.code) && pos.position < |text| {
        var byteIdx := pos.position;
        var lastByteIdx := if lastCharPos < |text| then lastCharPos else 0;
        if byteIdx > lastByteIdx && byteIdx <= |text| {
          var trimmed := Trim(text[lastByteIdx..byteIdx]);
          result := result + trimmed;
        }
        result := result + "  \n";
        lastCharPos := pos.position + 1;
      }
      assert BreakState(result, lastCharPos) == BreakStep(text, st, pos, 0);
    }
    assert sorted[..|sorted|] == sorted;
    var lastByteIdx := if lastCharPos < |text| then lastCharPos else 0;
    if lastByteIdx < |text| {
      result := result + Trim(text[lastByteIdx..]);
    }
    var trimmedResult := TrimStart(result);
    r := if trimmedResult != "" then Some(trimmedResult) else None;
  }

  // ---------------------------------------------------------------------
  // With character shapes: pieces between the shape positions.

  function ShapePosition(s: ParaCharShape.CharShapeInfo): nat { s.position }

  // The segment boundaries: 0, every shape position not past the text,
  // and the text's length, sorted and deduplicated.
  function Boundaries(len: nat, sortedShapes: seq<ParaCharShape.CharShapeInfo>): seq<nat>
  {
    Dedup(Sort([0] + ShapePositionsUpTo(sortedShapes, len) + [len]))
  }

  function ShapePositionsUpTo(shapes: seq<ParaCharShape.CharShapeInfo>, len: nat): (r: seq<nat>)
    ensures forall x :: x in r <==> x <= len && exists i :: 0 <= i < |shapes| && shapes[i].position == x
  {
    if |shapes| == 0 then []
    else
      var rest := ShapePositionsUpTo(shapes[..|shapes| - 1], len);
      var p := shapes[|shapes| - 1].position;
      assert forall i :: 0 <= i < |shapes| - 1 ==> shapes[..|shapes| - 1][i] == shapes[i];
      if p <= len then rest + [p] else rest
  }

  // The boundaries increase strictly from 0 to the length and are exactly
  // 0, the length and the shape positions that do not pass it.
  lemma BoundariesSorted(len: nat, shapes: seq<ParaCharShape.CharShapeInfo>)
    ensures var b := Boundaries(len, shapes);
      Increasing(b) && |b| > 0 && b[0] == 0 && b[|b| - 1] == len
    ensures forall x :: x in Boundaries(len, shapes) <==>
      x == 0 || x == len || (x <= len && exists i :: 0 <= i < |shapes| && shapes[i].position == x)
  {
    var ps := [0] + ShapePositionsUpTo(shapes, len) + [len];
    var s := Sort(ps);
    SortAscending(ps);
    DedupIncreasing(s);
    SameElements(ps, s);
    assert forall x :: x in ps <==> x == 0 || x == len || x in ShapePositionsUpTo(shapes, len);
    AscendingEnds(s, 0, len);
  }

  lemma SameElements(a: seq<nat>, b: seq<nat>)
    requires multiset(a) == multiset(b)
    ensures forall x :: x in a <==> x in b
  {
    assert forall x :: x in a <==> x in multiset(a);
    assert forall x :: x in b <==> x in multiset(b);
  }

  lemma AscendingEnds(s: seq<nat>, lo: nat, hi: nat)
    requires Ascending(s) && lo in s && hi in s
    requires forall x :: x in s ==> lo <= x <= hi
    ensures s[0] == lo && s[|s| - 1] == hi
  {
    var i0 :| 0 <= i0 < |s| && s[i0] == lo;
    var il :| 0 <= il < |s| && s[il] == hi;
    assert s[0] <= s[i0] && s[il] <= s[|s| - 1];
    assert s[0] in s && s[|s| - 1] in s;
  }

  // The shape in force at a segment start: the first one (in sorted order)
  // that starts there, else the last one that starts before it.
  function FirstAt(shapes: seq<ParaCharShape.CharShapeInfo>, start: nat): Option<ParaCharShape.CharShapeInfo>
  {
    if |shapes| == 0 then None
    else if shapes[0].position == start then Some(shapes[0])
    else FirstAt(shapes[1..], start)
  }

  function LastBefore(shapes: seq<ParaCharShape.CharShapeInfo>, start: nat): Option<ParaCharShape.CharShapeInfo>
  {
    if |shapes| == 0 then None
    else if shapes[|shapes| - 1].position < start then Some(shapes[|shapes| - 1])
    else LastBefore(shapes[..|shapes| - 1], start)
  }

  function ShapeFor(shapes: seq<ParaCharShape.CharShapeInfo>, start: nat,
                    lookup: u32 -> Option<CharShape.CharShape>): Option<CharShape.CharShape>
  {
    var found := if FirstAt(shapes, start).Some? then FirstAt(shapes, start) else LastBefore(shapes, start);
    if found.Some? then lookup(found.value.shapeId) else None
  }

  function Styled(t: string, style: Option<CharShape.CharShape>): string
  {
    if style.Some? then
      var a := style.value.attributes;
      ApplyMarkdownStyles(t, a.bold, a.italic, a.strikethrough != 0)
    else t
  }

  // The characters from s to e in the segment's style, or nothing when
  // they are all whitespace.
  function Piece(text: string, s: nat, e: nat, style: Option<CharShape.CharShape>): string
  {
    if s < e <= |text| && Trim(text[s..e]) != "" then Styled(text[s..e], style) else ""
  }

  // The breaks in [start, end), in sorted order, repeats kept.
  function BreaksIn(breaks: seq<nat>, start: nat, end: nat): (r: seq<nat>)
    ensures forall i :: 0 <= i < |r| ==> start <= r[i] < end
  {
    if |breaks| == 0 then []
    else
      var rest := BreaksIn(breaks[1..], start, end);
      if start <= breaks[0] < end then [breaks[0]] + rest else rest
  }

  // The first k sub-pieces of a segment cut at bs, each but the last
  // followed by a hard break.
  function SubPieces(text: string, bs: seq<nat>, style: Option<CharShape.CharShape>, k: nat): string
    requires k < |bs|
  {
    if k == 0 then ""
    else
      SubPieces(text, bs, style, k - 1) + Piece(text, bs[k - 1], bs[k], style) +
        (if k - 1 < |bs| - 2 then "  \n" else "")
  }

  function SegmentText(text: string, start: nat, end: nat, style: Option<CharShape.CharShape>,
                       breaks: seq<nat>): string
  {
    if start < end && end <= |text| then
      var sb := BreaksIn(breaks, start, end);
      if |sb| == 0 then Piece(text, start, end, style)
      else
        var bs := [start] + sb + [end];
        SubPieces(text, bs, style, |bs| - 1)
    else ""
  }

  // One segment: its bounds and its shape.
  datatype Segment = Segment(start: nat, end: nat, style: Option<CharShape.CharShape>)

  function Segments(b: seq<nat>, shapes: seq<ParaCharShape.CharShapeInfo>,
                    lookup: u32 -> Option<CharShape.CharShape>, k: nat): (r: seq<Segment>)
    requires k < |b|
    ensures |r| == k
    ensures forall i :: 0 <= i < k ==> r[i] == Segment(b[i], b[i + 1], ShapeFor(shapes, b[i], lookup))
  {
    if k == 0 then []
    else Segments(b, shapes, lookup, k - 1) + [Segment(b[k - 1], b[k], ShapeFor(shapes, b[k - 1], lookup))]
  }

  function SegmentsText(text: string, segs: seq<Segment>, breaks: seq<nat>): string
  {
    if |segs| == 0 then ""
    else
      var s := segs[|segs| - 1];
      SegmentsText(text, segs[..|segs| - 1], breaks) + SegmentText(text, s.start, s.end, s.style, breaks)
  }

  function BreakPositions(controls: seq<ControlPosition>): (r: seq<nat>)
    ensures forall x :: x in r <==> exists i :: 0 <= i < |controls| && IsBreak(controls[i].code) && controls[i].position == x
  {
    if |controls| == 0 then []
    else
      var rest := BreakPositions(controls[..|controls| - 1]);
      var c := controls[|controls| - 1];
      assert forall i :: 0 <= i < |controls| - 1 ==> controls[..|controls| - 1][i] == controls[i];
      if IsBreak(c.code) then rest + [c.position] else rest
  }

  // convert_text_with_char_shapes.
  function WithCharShapes(text: string, controls: seq<ControlPosition>,
                          charShapes: seq<ParaCharShape.CharShapeInfo>,
                          lookup: u32 -> Option<CharShape.CharShape>): Option<string>
  {
    if Trim(text) == "" then None
    else
      var sorted := SortByKey(charShapes, ShapePosition);
      var b := Boundaries(|text|, sorted);
      BoundariesSorted(|text|, sorted);
      var segs := Segments(b, sorted, lookup, |b| - 1);
      var breaks := Sort(BreakPositions(controls));
      NonEmpty(Trim(SegmentsText(text, segs, breaks)))
  }

  // The inner loop over a segment's breaks.
  method EmitSegment(text: string, start: nat, end: nat, style: Option<CharShape.CharShape>,
                     breaks: seq<nat>) returns (out: string)
    ensures out == SegmentText(text, start, end, style, breaks)
  {
    out := "";
    if start < end && end <= |text| {
      var segmentBreaks := BreaksIn(breaks, start, end);
      if |segmentBreaks| == 0 {
        out := Piece(text, start, end, style);
      } else {
        out := EmitBrokenSegment(text, [start] + segmentBreaks + [end], style);
      }
    }
  }

  // The pieces between a segment's breaks, with a hard break after each
  // but the last.
  method EmitBrokenSegment(text: string, bs: seq<nat>, style: Option<CharShape.CharShape>) returns (out: string)
    requires |bs| >= 2
    ensures out == SubPieces(text, bs, style, |bs| - 1)
  {
    out := "";
    for i := 0 to |bs| - 1
      invariant out == SubPieces(text, bs, style, i)
    {
      var piece := EmitPiece(text, bs[i], bs[i + 1], style);
      out := out + piece;
      if i < |bs| - 2 {
        out := out + "  \n";
      }
    }
  }

  // One piece: the characters between two cuts when they are not blank.
  method EmitPiece(text: string, segStart: nat, segEnd: nat, style: Option<CharShape.CharShape>) returns (piece: string)
    ensures piece == Piece(text, segStart, segEnd, style)
  {
    piece := "";
    if segStart < segEnd && segEnd <= |text| {
      var segmentText := text[segStart..segEnd];
      if Trim(segmentText) != "" {
        piece := Styled(segmentText, style);
      }
    }
  }

  // The loops of convert_text_with_char_shapes.
  method ConvertTextWithCharShapes(text: string, controls: seq<ControlPosition>,
                                   charShapes: seq<ParaCharShape.CharShapeInfo>,
                                   lookup: u32 -> Option<CharShape.CharShape>) returns (r: Option<string>)
    ensures r == WithCharShapes(text, controls, charShapes, lookup)
  {
    if Trim(text) == "" {
      return None;
    }
    var sorted := SortByKey(charShapes, ShapePosition);
    var positions := CollectBoundaries(|text|, sorted);
    BoundariesSorted(|text|, sorted);
    var segments := CollectSegments(positions, sorted, lookup);
    var breakPositions := Sort(BreakPositions(controls));
    var result := EmitSegments(text, segments, breakPositions);
    var trimmedResult := Trim(result);
    r := if trimmedResult != "" then Some(trimmedResult) else None;
  }

  method CollectBoundaries(len: nat, sorted: seq<ParaCharShape.CharShapeInfo>) returns (positions: seq<nat>)
    ensures positions == Boundaries(len, sorted)
  {
    positions := [0];
    for k := 0 to |sorted|
      invariant positions == [0] + ShapePositionsUpTo(sorted[..k], len)
    {
      assert sorted[..k + 1][..k] == sorted[..k];
      var pos := sorted[k].position;
      if pos <= len {
        positions := positions + [pos];
      }
    }
    assert sorted[..|sorted|] == sorted;
    positions := Dedup(Sort(positions + [len]));
  }

  method CollectSegments(positions: seq<nat>, sorted: seq<ParaCharShape.CharShapeInfo>,
                         lookup: u32 -> Option<CharShape.CharShape>) returns (segments: seq<Segment>)
    requires |positions| > 0
    ensures segments == Segments(positions, sorted, lookup, |positions| - 1)
  {
    segments := [];
    for i := 0 to |positions| - 1
      invariant segments == Segments(positions, sorted, lookup, i)
    {
      segments := segments + [Segment(positions[i], positions[i + 1], ShapeFor(sorted, positions[i], lookup))];
    }
  }

  method EmitSegments(text: string, segments: seq<Segment>, breaks: seq<nat>) returns (result: string)
    ensures result == SegmentsText(text, segments, breaks)
  {
    result := "";
    for j := 0 to |segments|
      invariant result == SegmentsText(text, segments[..j], breaks)
    {
      assert segments[..j + 1][..j] == segments[..j];
      var s := segments[j];
      var out := EmitSegment(text, s.start, s.end, s.style, breaks);
      result := result + out;
    }
    assert segments[..|segments|] == segments;
  }

  // ---------------------------------------------------------------------
  // convert_para_text_to_markdown(_with_char_shapes).

  function ConvertWithFallback(text: string, controls: seq<ControlPosition>,
                               charShapes: seq<ParaCharShape.CharShapeInfo>,
                               lookup: Option<u32 -> Option<CharShape.CharShape>>, fallback: nat): Option<string>
  {
    if |charShapes| > 0 && lookup.Some? then WithCharShapes(text, controls, charShapes, lookup.value)
    else if !HasBreaks(controls) then
      if IsMeaningfulText(text) then NonEmpty(Trim(text)) else None
    else BreaksMarkdown(text, controls, fallback)
  }

  // As written: once the last break was at the text's last character,
  // `unwrap_or(0)` resumes from the start of the text.
  function ConvertParaTextWithCharShapes(text: string, controls: seq<ControlPosition>,
                                         charShapes: seq<ParaCharShape.CharShapeInfo>,
                                         lookup: Option<u32 -> Option<CharShape.CharShape>>): Option<string>
  {
    ConvertWithFallback(text, controls, charShapes, lookup, 0)
  }

  function ConvertParaText(text: string, controls: seq<ControlPosition>): Option<string>
  {
    ConvertParaTextWithCharShapes(text, controls, [], None)
  }

  // The evident intent: a position past the text resumes at its end, so
  // nothing is emitted twice.
  function ConvertParaTextCorrected(text: string, controls: seq<ControlPosition>): Option<string>
  {
    ConvertWithFallback(text, controls, [], None, |text|)
  }

  // Without breaks the paragraph is its trimmed text, or nothing when it
  // is blank.
  lemma NoBreaks(text: string, controls: seq<ControlPosition>)
    requires !HasBreaks(controls)
    ensures ConvertParaText(text, controls) == if IsBlank(text) then None else Some(Trim(text))
  {
    TrimEmptyIffBlank(text);
  }

  // The result is the raw text with only its leading whitespace removed,
  // so the trailing "  \n" of a final break stays.
  lemma TrimmedAtStartOnly(text: string, controls: seq<ControlPosition>)
    requires HasBreaks(controls)
    ensures ConvertParaText(text, controls).Some? <==> !IsBlank(BreaksRaw(text, controls, 0))
    ensures ConvertParaText(text, controls).Some? ==>
      StartTrimmed(BreaksRaw(text, controls, 0), ConvertParaText(text, controls).value)
  {
    StartOnly(BreaksRaw(text, controls, 0));
  }

  // t is raw without its leading whitespace, and nothing else removed.
  predicate StartTrimmed(raw: string, t: string)
  {
    0 < |t| <= |raw| && raw[|raw| - |t|..] == t && IsBlank(raw[..|raw| - |t|]) && !IsWhiteSpace(t[0])
  }

  lemma StartOnly(raw: string)
    ensures NonEmpty(TrimStart(raw)).Some? <==> !IsBlank(raw)
    ensures NonEmpty(TrimStart(raw)).Some? ==> StartTrimmed(raw, NonEmpty(TrimStart(raw)).value)
  {
    var t := TrimStart(raw);
    if t == "" {
      assert forall i :: 0 <= i < |raw| ==> IsWhiteSpace(raw[i]);
    } else {
      assert !IsWhiteSpace(raw[|raw| - |t|]);
      var k := |raw| - |t|;
      assert forall i :: 0 <= i < k ==> raw[..k][i] == raw[i];
    }
  }

  // Every break inside the text adds one "  \n": when the text itself has
  // no newline, the raw result has exactly one per such break.
  function Newlines(s: string): nat
  {
    if |s| == 0 then 0 else Newlines(s[..|s| - 1]) + (if s[|s| - 1] == '\n' then 1 else 0)
  }

  function BreaksInText(text: string, cs: seq<ControlPosition>): nat
  {
    if |cs| == 0 then 0
    else
      BreaksInText(text, cs[..|cs| - 1]) +
        (if IsBreak(cs[|cs| - 1].code) && cs[|cs| - 1].position < |text| then 1 else 0)
  }

  predicate NoNewline(s: string)
  {
    forall i :: 0 <= i < |s| ==> s[i] != '\n'
  }

  lemma {:induction false} NewlinesAppend(a: string, b: string)
    ensures Newlines(a + b) == Newlines(a) + Newlines(b)
    decreases |b|
  {
    if |b| > 0 {
      assert (a + b)[..|a + b| - 1] == a + b[..|b| - 1];
      NewlinesAppend(a, b[..|b| - 1]);
    } else {
      assert a + b == a;
    }
  }

  lemma {:induction false} NoNewlineCount(s: string)
    requires NoNewline(s)
    ensures Newlines(s) == 0
  {
    if |s| > 0 {
      NoNewlineCount(s[..|s| - 1]);
    }
  }

  lemma SliceNoNewline(s: string, i: nat, j: nat)
    requires NoNewline(s) && i <= j <= |s|
    ensures NoNewline(s[i..j])
  {
    forall k | 0 <= k < j - i
      ensures s[i..j][k] != '\n'
    {
      assert s[i..j][k] == s[i + k];
    }
  }

  lemma TrimNoNewline(text: string, from: nat, to: nat)
    requires NoNewline(text) && from <= to <= |text|
    ensures Newlines(Trim(text[from..to])) == 0
  {
    var x := text[from..to];
    SliceNoNewline(text, from, to);
    var s := TrimStart(x);
    SliceNoNewline(x, |x| - |s|, |x|);
    var t := TrimEnd(s);
    SliceNoNewline(s, 0, |t|);
    NoNewlineCount(t);
  }

  lemma HardBreakNewline()
    ensures Newlines("  \n") == 1
  {
    assert "  \n"[..2] == "  ";
    assert "  "[..1] == " ";
    assert " "[..0] == "";
  }

  lemma StepNewlines(text: string, st: BreakState, c: ControlPosition, fallback: nat)
    requires NoNewline(text)
    ensures Newlines(BreakStep(text, st, c, fallback).result) ==
      Newlines(st.result) + (if IsBreak(c.code) && c.position < |text| then 1 else 0)
  {
    if IsBreak(c.code) && c.position < |text| {
      var from := IndexOr(text, st.last, fallback);
      var part := if c.position > from && from <= |text| then Trim(text[from..c.position]) else "";
      if c.position > from && from <= |text| {
        TrimNoNewline(text, from, c.position);
      }
      NewlinesAppend(st.result, part);
      NewlinesAppend(st.result + part, "  \n");
      HardBreakNewline();
    }
  }

  lemma {:induction false} BreakStepsNewlines(text: string, cs: seq<ControlPosition>, fallback: nat)
    requires NoNewline(text)
    ensures Newlines(BreakSteps(text, cs, fallback).result) == BreaksInText(text, cs)
  {
    if |cs| > 0 {
      BreakStepsNewlines(text, cs[..|cs| - 1], fallback);
      StepNewlines(text, BreakSteps(text, cs[..|cs| - 1], fallback), cs[|cs| - 1], fallback);
    }
  }

  lemma {:induction false} BreaksInTextPermutation(text: string, cs: seq<ControlPosition>, x: ControlPosition)
    ensures BreaksInText(text, InsertByKey(x, cs, ByPosition)) == BreaksInText(text, cs) + BreaksInText(text, [x])
    decreases |cs|
  {
    var r := InsertByKey(x, cs, ByPosition);
    if |cs| > 0 && ByPosition(x) >= ByPosition(cs[0]) {
      BreaksInTextPermutation(text, cs[1..], x);
      BreaksInTextCons(text, cs[0], cs[1..]);
      BreaksInTextCons(text, cs[0], InsertByKey(x, cs[1..], ByPosition));
      assert [cs[0]] + cs[1..] == cs;
    } else {
      BreaksInTextCons(text, x, cs);
    }
  }

  lemma {:induction false} BreaksInTextCons(text: string, c: ControlPosition, cs: seq<ControlPosition>)
    ensures BreaksInText(text, [c] + cs) == BreaksInText(text, [c]) + BreaksInText(text, cs)
    decreases |cs|
  {
    if |cs| > 0 {
      assert ([c] + cs)[..|[c] + cs| - 1] == [c] + cs[..|cs| - 1];
      BreaksInTextCons(text, c, cs[..|cs| - 1]);
    } else {
      assert [c] + cs == [c];
    }
  }

  lemma {:induction false} BreaksInTextSorted(text: string, cs: seq<ControlPosition>)
    ensures BreaksInText(text, SortByKey(cs, ByPosition)) == BreaksInText(text, cs)
  {
    if |cs| > 0 {
      var init := cs[..|cs| - 1];
      BreaksInTextSorted(text, init);
      BreaksInTextPermutation(text, SortByKey(init, ByPosition), cs[|cs| - 1]);
      assert BreaksInText(text, [cs[|cs| - 1]]) ==
        (if IsBreak(cs[|cs| - 1].code) && cs[|cs| - 1].position < |text| then 1 else 0);
    }
  }

  // The raw result holds one hard break per break control inside the text
  // (the text after the last break has no newline either).
  lemma BreakCount(text: string, controls: seq<ControlPosition>)
    requires NoNewline(text)
    ensures Newlines(BreaksRaw(text, controls, 0)) == BreaksInText(text, controls)
  {
    var sorted := SortByKey(controls, ByPosition);
    BreakStepsNewlines(text, sorted, 0);
    BreaksInTextSorted(text, controls);
    TailNewlines(text, BreakSteps(text, sorted, 0), 0);
  }

  lemma TailNewlines(text: string, st: BreakState, fallback: nat)
    requires NoNewline(text)
    ensures Newlines(WithTail(text, st, fallback)) == Newlines(st.result)
  {
    var from := IndexOr(text, st.last, fallback);
    if from < |text| {
      TrimNoNewline(text, from, |text|);
      assert text[from..] == text[from..|text|];
      NewlinesAppend(st.result, Trim(text[from..]));
    }
  }

  // ---------------------------------------------------------------------
  // The restart at the start of the text.

  // A break at the last character: as written the text after it is the
  // whole text again ("a  \nab"); resuming at the end gives "a  \n".
  lemma BreakAtEndRepeats(text: string, controls: seq<ControlPosition>)
    requires text == "ab" && controls == [ControlChar.ControlCharPosition(1, ControlChar.LineBreak)]
    ensures ConvertParaText(text, controls) == Some("a  \nab")
    ensures ConvertParaTextCorrected(text, controls) == Some("a  \n")
  {
    var head, whole := "a", "ab";
    TrimmedLetters(text, head, whole);
    BreakAtLastChar(text, ControlChar.LineBreak, head, whole);
    LettersStart(head, whole, "a  \nab", "a  \n");
  }

  // In general: after a break at the last character the whole paragraph,
  // trimmed, is emitted once more.
  lemma BreakAtLastChar(text: string, code: byte, head: string, whole: string)
    requires |text| >= 2 && IsBreak(code)
    requires Trim(text[..|text| - 1]) == head && Trim(text) == whole && head != ""
    ensures ConvertParaText(text, [ControlChar.ControlCharPosition(|text| - 1, code)]) == Some(head + "  \n" + whole)
    ensures ConvertParaTextCorrected(text, [ControlChar.ControlCharPosition(|text| - 1, code)]) == Some(head + "  \n")
  {
    var cs := [ControlChar.ControlCharPosition(|text| - 1, code)];
    assert HasBreaks(cs) by {
      assert IsBreak(cs[0].code);
    }
    OneBreakAtEnd(text, cs, code, head, whole);
    TrimEmptyIffBlank(text[..|text| - 1]);
    StartKept(head + "  \n" + whole);
    StartKept(head + "  \n");
  }

  lemma StartKept(s: string)
    requires |s| > 0 && !IsWhiteSpace(s[0])
    ensures TrimStart(s) == s
  {
  }

  lemma TrimmedLetters(text: string, head: string, whole: string)
    requires text == "ab" && head == "a" && whole == "ab"
    ensures Trim(text[..|text| - 1]) == head && Trim(text) == whole
  {
    assert text[..|text| - 1] == head;
    TrimUntouched(head);
    TrimUntouched(whole);
  }

  lemma LettersStart(head: string, whole: string, asWritten: string, corrected: string)
    requires head == "a" && whole == "ab" && asWritten == "a  \nab" && corrected == "a  \n"
    ensures head + "  \n" + whole == asWritten && head + "  \n" == corrected
  {
  }

  // A single break at the last character.
  lemma OneBreakAtEnd(text: string, cs: seq<ControlPosition>, code: byte, head: string, whole: string)
    requires |text| >= 2 && IsBreak(code) && cs == [ControlChar.ControlCharPosition(|text| - 1, code)]
    requires Trim(text[..|text| - 1]) == head && Trim(text) == whole
    ensures BreaksRaw(text, cs, 0) == head + "  \n" + whole
    ensures BreaksRaw(text, cs, |text|) == head + "  \n"
  {
    assert SortByKey(cs, ByPosition) == cs;
    var st := BreakState(head + "  \n", |text|);
    OneBreakSteps(text, cs, code, head, 0);
    OneBreakSteps(text, cs, code, head, |text|);
    assert text[0..] == text;
  }

  lemma OneBreakSteps(text: string, cs: seq<ControlPosition>, code: byte, head: string, fallback: nat)
    requires |text| >= 2 && IsBreak(code) && cs == [ControlChar.ControlCharPosition(|text| - 1, code)]
    requires Trim(text[..|text| - 1]) == head
    ensures BreakSteps(text, cs, fallback) == BreakState(head + "  \n", |text|)
  {
    assert cs[..0] == [];
    assert text[0..|text| - 1] == text[..|text| - 1];
    FirstBreak(text, cs[0], fallback, head);
  }

  lemma FirstBreak(text: string, c: ControlPosition, fallback: nat, head: string)
    requires IsBreak(c.code) && 0 < c.position < |text| && Trim(text[0..c.position]) == head
    ensures BreakStep(text, BreakState("", 0), c, fallback) == BreakState(head + "  \n", c.position + 1)
  {
    assert "" + head == head;
  }

  // Resuming at the end never emits a character twice: over controls
  // sorted by position the text so far is at most the characters before
  // the resume point plus three per break.
  lemma {:induction false} CorrectedSteps(text: string, cs: seq<ControlPosition>)
    requires SortedBy(cs, ByPosition)
    ensures var st := BreakSteps(text, cs, |text|);
      st.last <= |text| && |st.result| <= st.last + 3 * BreaksInText(text, cs) &&
      (|cs| > 0 ==> st.last <= cs[|cs| - 1].position + 1)
  {
    if |cs| > 0 {
      var init := cs[..|cs| - 1];
      assert SortedBy(init, ByPosition) by {
        forall i, j | 0 <= i < j < |init|
          ensures ByPosition(init[i]) <= ByPosition(init[j])
        {
          assert init[i] == cs[i] && init[j] == cs[j];
        }
      }
      CorrectedSteps(text, init);
      var st := BreakSteps(text, init, |text|);
      var c := cs[|cs| - 1];
      if |init| > 0 {
        assert init[|init| - 1] == cs[|cs| - 2];
        assert ByPosition(cs[|cs| - 2]) <= ByPosition(c);
      }
      if IsBreak(c.code) && c.position < |text| {
        var from := IndexOr(text, st.last, |text|);
        assert from == st.last;
        if c.position > from {
          TrimShorter(text[from..c.position]);
        }
      }
    }
  }

  lemma TrimShorter(s: string)
    ensures |Trim(s)| <= |s|
  {
  }

  lemma CorrectedNoRepeat(text: string, controls: seq<ControlPosition>)
    ensures |BreaksRaw(text, controls, |text|)| <= |text| + 3 * BreaksInText(text, controls)
  {
    var sorted := SortByKey(controls, ByPosition);
    SortSorted(controls, ByPosition);
    CorrectedSteps(text, sorted);
    BreaksInTextSorted(text, controls);
    var st := BreakSteps(text, sorted, |text|);
    var from := IndexOr(text, st.last, |text|);
    if from < |text| {
      TrimShorter(text[from..]);
    }
  }
}
