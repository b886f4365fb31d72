// Character-shape runs of a paragraph
// (crates/hwp-core/src/document/bodytext/char_shape.rs): PARA_CHAR_SHAPE
// is an array of 8-byte (position, shape id) pairs.

module ParaCharShape {
  import opened Bytes
  import opened Errors

  datatype CharShapeInfo = CharShapeInfo(position: u32, shapeId: u32)

  function CharShapeInfoOf(data: seq<byte>): (r: Result<CharShapeInfo>)
    ensures r.Err? <==> |data| < 8
    ensures r.Err? ==> r.error == InsufficientData("CharShapeInfo", 8, |data|)
  {
    if |data| < 8 then Err(InsufficientData("CharShapeInfo", 8, |data|))
    else Ok(CharShapeInfo(U32(data, 0), U32(data, 4)))
  }

  // The pairs of a whole PARA_CHAR_SHAPE record.
  function ParaCharShapeOf(data: seq<byte>): (r: Result<seq<CharShapeInfo>>)
    ensures r.Err? <==> |data| % 8 != 0
    ensures r.Err? ==> r.error == UnexpectedValue("ParaCharShape data length")
    ensures r.Ok? ==> |r.value| == |data| / 8
  {
    if |data| % 8 != 0 then Err(UnexpectedValue("ParaCharShape data length"))
    else Ok(seq(|data| / 8, i requires 0 <= i < |data| / 8 => CharShapeInfoOf(data[8 * i..8 * i + 8]).value))
  }

  // ParaCharShape::parse: one 8-byte slice per iteration.
  method ParseParaCharShape(data: seq<byte>) returns (r: Result<seq<CharShapeInfo>>)
    ensures r == ParaCharShapeOf(data)
  {
    if |data| % 8 != 0 {
      return Err(UnexpectedValue("ParaCharShape data length"));
    }
    var count := |data| / 8;
    var shapes: seq<CharShapeInfo> := [];
    for i := 0 to count
      invariant |shapes| == i
      invariant forall j :: 0 <= j < i ==> shapes[j] == CharShapeInfoOf(data[8 * j..8 * j + 8]).value
    {
      var offset := i * 8;
      var info := CharShapeInfoOf(data[offset..offset + 8]);
      match info
      case Err(e) =>
        assert false;
      case Ok(v) =>
        shapes := shapes + [v];
    }
    assert shapes == seq(count, i requires 0 <= i < count => CharShapeInfoOf(data[8 * i..8 * i + 8]).value);
    r := Ok(shapes);
  }

  function EncodeCharShapeInfo(x: CharShapeInfo): (r: seq<byte>)
    ensures |r| == 8
  {
    Words([x.position, x.shapeId])
  }

  function EncodeParaCharShape(shapes: seq<CharShapeInfo>): seq<byte>
  {
    Concat(seq(|shapes|, i requires 0 <= i < |shapes| => EncodeCharShapeInfo(shapes[i])))
  }

  lemma CharShapeInfoOfEncode(x: CharShapeInfo)
    ensures CharShapeInfoOf(EncodeCharShapeInfo(x)) == Ok(x)
  {
    WordAt([x.position, x.shapeId], 0, []);
    WordAt([x.position, x.shapeId], 1, []);
    assert Words([x.position, x.shapeId]) + [] == EncodeCharShapeInfo(x);
  }

  // Every list of runs is read back, in order, from its encoding.
  lemma ParaCharShapeRoundTrip(shapes: seq<CharShapeInfo>)
    ensures ParaCharShapeOf(EncodeParaCharShape(shapes)) == Ok(shapes)
  {
    var parts := seq(|shapes|, i requires 0 <= i < |shapes| => EncodeCharShapeInfo(shapes[i]));
    var data := Concat(parts);
    ConcatLength(parts, 8);
    assert |data| / 8 == |shapes|;
    forall i | 0 <= i < |shapes|
      ensures CharShapeInfoOf(data[8 * i..8 * i + 8]).value == shapes[i]
    {
      ConcatChunk(parts, 8, i);
      assert i * 8 == 8 * i;
      CharShapeInfoOfEncode(shapes[i]);
    }
    assert ParaCharShapeOf(data).value == shapes;
  }
}
