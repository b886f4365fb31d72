// Range tags of a paragraph (crates/hwp-core/src/document/bodytext/range_tag.rs):
// PARA_RANGE_TAG is an array of 12-byte entries (start, end, tag) where
// the tag DWORD holds the kind in its top 8 bits and data in the low 24.

module RangeTag {
  import opened Bytes
  import opened Errors

  datatype RangeTagInfo = RangeTagInfo(start: u32, end: u32, tagType: byte, tagData: u32)

  function RangeTagInfoOf(data: seq<byte>): (r: Result<RangeTagInfo>)
    ensures r.Err? <==> |data| < 12
    ensures r.Err? ==> r.error == InsufficientData("RangeTagInfo", 12, |data|)
    ensures r.Ok? ==> r.value.tagData < 0x100_0000
  {
    if |data| < 12 then Err(InsufficientData("RangeTagInfo", 12, |data|))
    else
      var tag := U32(data, 8);
      Ok(RangeTagInfo(U32(data, 0), U32(data, 4), tag / 0x100_0000 % 0x100, tag % 0x100_0000))
  }

  // The tag DWORD of an entry: (type << 24) | data.
  function TagValue(x: RangeTagInfo): u32
  {
    x.tagType * 0x100_0000 + x.tagData % 0x100_0000
  }

  // Splitting the tag and joining it again gives the DWORD back.
  lemma TagSplitJoin(data: seq<byte>)
    requires |data| >= 12
    ensures TagValue(RangeTagInfoOf(data).value) == U32(data, 8)
  {
  }

  function ParaRangeTagOf(data: seq<byte>): (r: Result<seq<RangeTagInfo>>)
    ensures r.Err? <==> |data| % 12 != 0
    ensures r.Err? ==> r.error == UnexpectedValue("ParaRangeTag data length")
    ensures r.Ok? ==> |r.value| == |data| / 12
  {
    if |data| % 12 != 0 then Err(UnexpectedValue("ParaRangeTag data length"))
    else Ok(seq(|data| / 12, i requires 0 <= i < |data| / 12 => RangeTagInfoOf(data[12 * i..12 * i + 12]).value))
  }

  // ParaRangeTag::parse: one 12-byte slice per iteration.
  method ParseParaRangeTag(data: seq<byte>) returns (r: Result<seq<RangeTagInfo>>)
    ensures r == ParaRangeTagOf(data)
  {
    if |data| % 12 != 0 {
      return Err(UnexpectedValue("ParaRangeTag data length"));
    }
    var count := |data| / 12;
    var tags: seq<RangeTagInfo> := [];
    for i := 0 to count
      invariant |tags| == i
      invariant forall j :: 0 <= j < i ==> tags[j] == RangeTagInfoOf(data[12 * j..12 * j + 12]).value
    {
      var offset := i * 12;
      var info := RangeTagInfoOf(data[offset..offset + 12]);
      match info
      case Err(e) =>
        assert false;
      case Ok(v) =>
        tags := tags + [v];
    }
    assert tags == seq(count, i requires 0 <= i < count => RangeTagInfoOf(data[12 * i..12 * i + 12]).value);
    r := Ok(tags);
  }

  predicate WellFormed(x: RangeTagInfo) { x.tagData < 0x100_0000 }

  function EncodeRangeTagInfo(x: RangeTagInfo): (r: seq<byte>)
    ensures |r| == 12
  {
    Words([x.start, x.end, TagValue(x)])
  }

  function EncodeParaRangeTag(tags: seq<RangeTagInfo>): seq<byte>
  {
    Concat(seq(|tags|, i requires 0 <= i < |tags| => EncodeRangeTagInfo(tags[i])))
  }

  lemma RangeTagInfoOfEncode(x: RangeTagInfo)
    requires WellFormed(x)
    ensures RangeTagInfoOf(EncodeRangeTagInfo(x)) == Ok(x)
  {
    var ws := [x.start, x.end, TagValue(x)];
    WordAt(ws, 0, []);
    WordAt(ws, 1, []);
    WordAt(ws, 2, []);
    assert Words(ws) + [] == EncodeRangeTagInfo(x);
  }

  // Every list of well-formed tags is read back, in order, from its encoding.
  lemma ParaRangeTagRoundTrip(tags: seq<RangeTagInfo>)
    requires forall i :: 0 <= i < |tags| ==> WellFormed(tags[i])
    ensures ParaRangeTagOf(EncodeParaRangeTag(tags)) == Ok(tags)
  {
    var parts := seq(|tags|, i requires 0 <= i < |tags| => EncodeRangeTagInfo(tags[i]));
    var data := Concat(parts);
    ConcatLength(parts, 12);
    assert |data| / 12 == |tags|;
    forall i | 0 <= i < |tags|
      ensures RangeTagInfoOf(data[12 * i..12 * i + 12]).value == tags[i]
    {
      ConcatChunk(parts, 12, i);
      assert i * 12 == 12 * i;
      RangeTagInfoOfEncode(tags[i]);
    }
    assert ParaRangeTagOf(data).value == tags;
  }
}
