// Character-overlap control "over"
// (crates/hwp-core/src/document/bodytext/ctrl_header/overlap.rs, table 150
// of the format): the overlapped text, the border settings and the list of
// character-shape ids.

module CtrlOverlap {
  import opened Bytes
  import opened Errors
  import opened Utf16
  import opened CtrlIds

  datatype Overlap = Overlap(
    ctrlId: seq<byte>,
    text: string,
    borderType: byte,
    internalTextSize: i8,
    borderInternalTextSpread: byte,
    charShapeIds: seq<u32>)

  // The byte at offset i, or 0 past the end.
  function ByteOr0(data: seq<byte>, i: nat): (b: byte)
    ensures i < |data| ==> b == data[i]
    ensures i >= |data| ==> b == 0
  {
    if i < |data| then data[i] else 0
  }

  // The character-shape ids: all `cnt` of them when they fit, none otherwise.
  function CharShapeIdsOf(data: seq<byte>, start: nat, cnt: nat): (ids: seq<u32>)
    ensures |ids| == 0 || |ids| == cnt
    ensures |ids| == cnt ==> cnt == 0 || start + 4 * cnt <= |data|
    ensures forall k :: 0 <= k < |ids| ==> ids[k] == U32(data, start + 4 * k)
  {
    if cnt > 0 && start + 4 * cnt <= |data| then DwordsAt(data, start, cnt)
    else []
  }

  // parse_overlap by absolute offsets: after the length-prefixed text at
  // offset 6 come three settings bytes and the id count, each 0 past the end.
  function OverlapOf(data: seq<byte>): (r: Result<Overlap>)
    ensures r.Err? <==> |data| < 10
    ensures r.Err? ==> r.error == InsufficientData("Overlap", 10, |data|)
    ensures r.Ok? ==> var n := U16(data, 4); var off := 6 + 2 * n;
      r.value.ctrlId == ReversedId(data, 0) &&
      (r.value.text != "" ==> 0 < n && off <= |data|) &&
      r.value.borderType == ByteOr0(data, off) &&
      r.value.borderInternalTextSpread == ByteOr0(data, off + 2) &&
      (|r.value.charShapeIds| == 0 || |r.value.charShapeIds| == ByteOr0(data, off + 3))
  {
    if |data| < 10 then Err(InsufficientData("Overlap", 10, |data|))
    else Ok(OverlapAt(data, U16(data, 4)))
  }

  // The fields after a text of n units.
  function OverlapAt(data: seq<byte>, n: nat): Overlap
    requires |data| >= 10
  {
    var off := 6 + 2 * n;
    var text := if n > 0 && off <= |data| then DecodeUtf16LeOrEmpty(data[6..off]) else "";
    Overlap(ReversedId(data, 0), text, ByteOr0(data, off), AsI8(ByteOr0(data, off + 1)),
      ByteOr0(data, off + 2), CharShapeIdsOf(data, off + 4, ByteOr0(data, off + 3)))
  }

  // parse_overlap with its running offset and the loop pushing the ids.
  method ParseOverlap(data: seq<byte>) returns (r: Result<Overlap>)
    ensures r == OverlapOf(data)
  {
    if |data| < 10 {
      return Err(InsufficientData("Overlap", 10, |data|));
    }
    var offset := 0;
    var ctrlId := ReversedId(data, offset);
    offset := offset + 4;
    var textLen: nat := U16(data, offset);
    offset := offset + 2;
    ghost var x := OverlapAt(data, textLen);
    var text := "";
    if textLen > 0 && offset + textLen * 2 <= |data| {
      text := DecodeUtf16LeOrEmpty(data[offset..offset + textLen * 2]);
    }
    assert text == x.text;
    offset := offset + textLen * 2;
    assert offset == 6 + 2 * textLen;
    var borderType := ByteOr0(data, offset);
    offset := offset + 1;
    var internalTextSize := AsI8(ByteOr0(data, offset));
    offset := offset + 1;
    var spread := ByteOr0(data, offset);
    offset := offset + 1;
    var cnt: nat := ByteOr0(data, offset);
    offset := offset + 1;
    var ids := ReadCharShapeIds(data, offset, cnt);
    assert Overlap(ctrlId, text, borderType, internalTextSize, spread, ids) == x;
    r := Ok(Overlap(ctrlId, text, borderType, internalTextSize, spread, ids));
  }

  // The loop that pushes the ids, four bytes at a time.
  method ReadCharShapeIds(data: seq<byte>, start: nat, cnt: nat) returns (ids: seq<u32>)
    ensures ids == CharShapeIdsOf(data, start, cnt)
  {
    ids := [];
    if cnt > 0 && start + cnt * 4 <= |data| {
      var offset := start;
      var i := 0;
      while i < cnt
        invariant 0 <= i <= cnt && offset == start + 4 * i
        invariant ids == DwordsAt(data, start, i)
      {
        ids := ids + [U32(data, offset)];
        offset := offset + 4;
        i := i + 1;
      }
    }
  }

  // The writer side: a four-byte id whose last byte is not NUL, a text of
  // fewer than 0x10000 UTF-16 units and fewer than 256 ids.
  predicate WellFormedOverlap(x: Overlap)
  {
    |x.ctrlId| == 4 && x.ctrlId[3] != 0 && |EncodeUnits(x.text)| < 0x1_0000 && |x.charShapeIds| < 0x100
  }

  // The border type, the text size, the spread and the id count.
  function SettingsBytes(x: Overlap): (r: seq<byte>)
    requires |x.charShapeIds| < 0x100
    ensures |r| == 4
  {
    [x.borderType, FromI8(x.internalTextSize), x.borderInternalTextSpread, |x.charShapeIds|]
  }

  function EncodeOverlap(x: Overlap): (r: seq<byte>)
    requires WellFormedOverlap(x)
  {
    IdBytes(x.ctrlId) + (Le16(|EncodeUnits(x.text)|) + (EncodeUtf16Le(x.text) +
      (SettingsBytes(x) + Words(x.charShapeIds))))
  }

  // The id, the length and the text at the front of an encoding.
  lemma HeadLayout(id: seq<byte>, e: seq<byte>, n: u16, rest: seq<byte>)
    requires |id| == 4 && id[3] != 0 && |e| == 2 * n
    ensures var s := IdBytes(id) + (Le16(n) + (e + rest));
      |s| == 6 + 2 * n + |rest| && ReversedId(s, 0) == id && U16(s, 4) == n &&
      s[6..6 + 2 * n] == e && s[6 + 2 * n..] == rest
  {
    var t := Le16(n) + (e + rest);
    var s := IdBytes(id) + t;
    assert s == [] + IdBytes(id) + t;
    ReversedIdBytes([], id, t);
    assert t == [] + Le16(n) + (e + rest);
    Le16Read([], n, e + rest);
    U16Skip(IdBytes(id), t, 0);
    assert s[6..] == e + rest;
    assert s[6..6 + 2 * n] == (e + rest)[..2 * n];
  }

  // The text decoded from its encoding.
  lemma TextRead(text: string)
    ensures var e := EncodeUtf16Le(text);
      (|EncodeUnits(text)| > 0 ==> DecodeUtf16LeOrEmpty(e) == text) && (|EncodeUnits(text)| == 0 ==> text == "")
  {
    DecodeEncodeUtf16Le(text);
    if |EncodeUnits(text)| == 0 {
      assert EncodeUtf16Le(text) == [];
      assert DecodeUtf16Le([]) == Ok("");
    }
  }

  // The settings bytes and the ids after the text.
  lemma TailLayout(head: seq<byte>, tail: seq<byte>, ids: seq<u32>)
    requires |tail| == 4 && tail[3] == |ids|
    ensures var s := head + (tail + Words(ids));
      s[|head|..] == tail + Words(ids) &&
      CharShapeIdsOf(s, |head| + 4, |ids|) == ids
  {
    var s := head + (tail + Words(ids));
    assert s == (head + tail) + Words(ids);
    forall k | 0 <= k < |ids|
      ensures U32(s, |head| + 4 + 4 * k) == ids[k]
    {
      WordAfter(head + tail, ids, k);
    }
  }

  // OverlapOf's fields, once each is known.
  lemma OverlapFields(s: seq<byte>, x: Overlap, n: nat)
    requires |s| >= 10 && U16(s, 4) == n && ReversedId(s, 0) == x.ctrlId
    requires x.text == if n > 0 && 6 + 2 * n <= |s| then DecodeUtf16LeOrEmpty(s[6..6 + 2 * n]) else ""
    requires ByteOr0(s, 6 + 2 * n) == x.borderType && AsI8(ByteOr0(s, 6 + 2 * n + 1)) == x.internalTextSize
    requires ByteOr0(s, 6 + 2 * n + 2) == x.borderInternalTextSpread
    requires CharShapeIdsOf(s, 6 + 2 * n + 4, ByteOr0(s, 6 + 2 * n + 3)) == x.charShapeIds
    ensures OverlapOf(s) == Ok(x)
  {
    assert OverlapAt(s, n) == x;
  }

  lemma SettingsRead(s: seq<byte>, off: nat, x: Overlap)
    requires |x.charShapeIds| < 0x100 && off + 4 <= |s| && s[off..off + 4] == SettingsBytes(x)
    ensures ByteOr0(s, off) == x.borderType && AsI8(ByteOr0(s, off + 1)) == x.internalTextSize
    ensures ByteOr0(s, off + 2) == x.borderInternalTextSpread && ByteOr0(s, off + 3) == |x.charShapeIds|
  {
    assert s[off + 1] == s[off..off + 4][1];
  }

  // Every well-formed overlap is read back from its encoding.
  lemma OverlapRoundTrip(x: Overlap)
    requires WellFormedOverlap(x)
    ensures OverlapOf(EncodeOverlap(x)) == Ok(x)
  {
    var s := EncodeOverlap(x);
    var n := |EncodeUnits(x.text)|;
    var off := 6 + 2 * n;
    var rest := SettingsBytes(x) + Words(x.charShapeIds);
    HeadLayout(x.ctrlId, EncodeUtf16Le(x.text), n, rest);
    TextRead(x.text);
    SettingsAndIds(s, off, x);
    OverlapFields(s, x, n);
  }

  // The bytes after the text.
  lemma SettingsAndIds(s: seq<byte>, off: nat, x: Overlap)
    requires |x.charShapeIds| < 0x100 && off <= |s| && s[off..] == SettingsBytes(x) + Words(x.charShapeIds)
    ensures ByteOr0(s, off) == x.borderType && AsI8(ByteOr0(s, off + 1)) == x.internalTextSize
    ensures ByteOr0(s, off + 2) == x.borderInternalTextSpread && ByteOr0(s, off + 3) == |x.charShapeIds|
    ensures CharShapeIdsOf(s, off + 4, |x.charShapeIds|) == x.charShapeIds
  {
    var tail := SettingsBytes(x);
    assert s[off..off + 4] == tail;
    SettingsRead(s, off, x);
    assert s == s[..off] + (tail + Words(x.charShapeIds));
    TailLayout(s[..off], tail, x.charShapeIds);
  }
}
