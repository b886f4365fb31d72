// The curve shape component (Table 103 of the format,
// crates/hwp-core/src/document/bodytext/shape_component/curve.rs): an INT16
// point count, the x and y coordinates as INT32s, and one segment-type byte
// between each two consecutive points.

module ShapeCurve {
  import opened Bytes
  import opened Errors
  import opened Text
  import ShapePolygon

  datatype ShapeComponentCurve = ShapeComponentCurve(
    pointCount: i16, xCoordinates: seq<i32>, yCoordinates: seq<i32>, segmentTypes: seq<byte>)

  // ShapeComponentCurve::parse by absolute offsets: 2 + 8n + (n - 1) bytes.
  function CurveOf(data: seq<byte>): (r: Result<ShapeComponentCurve>)
    ensures |data| < 2 ==> r == Err(InsufficientData("ShapeComponentCurve", 2, |data|))
    ensures 2 <= |data| && I16(data, 0) <= 0 ==> r == Err(UnexpectedValue("ShapeComponentCurve point_count"))
    ensures 2 <= |data| && I16(data, 0) > 0 && |data| < 2 + 8 * I16(data, 0) + I16(data, 0) - 1 ==>
      r == Err(InsufficientData("ShapeComponentCurve (point_count=" + Decimal(I16(data, 0)) + ")",
                                2 + 8 * I16(data, 0) + I16(data, 0) - 1, |data|))
    ensures r.Ok? ==> var n := r.value.pointCount;
      n == I16(data, 0) && 0 < n && 2 + 8 * n + n - 1 <= |data| &&
      |r.value.xCoordinates| == n && |r.value.yCoordinates| == n && |r.value.segmentTypes| == n - 1
    ensures r.Ok? ==> var n := r.value.pointCount;
      forall k :: 0 <= k < n ==>
        r.value.xCoordinates[k] == I32(data, 2 + 4 * k) && r.value.yCoordinates[k] == I32(data, 2 + 4 * n + 4 * k)
    ensures r.Ok? ==> var n := r.value.pointCount;
      forall k :: 0 <= k < n - 1 ==> r.value.segmentTypes[k] == data[2 + 8 * n + k]
  {
    if |data| < 2 then Err(InsufficientData("ShapeComponentCurve", 2, |data|))
    else
      var n := I16(data, 0);
      if n <= 0 then Err(UnexpectedValue("ShapeComponentCurve point_count"))
      else if |data| < 2 + 8 * n + n - 1 then
        Err(InsufficientData("ShapeComponentCurve (point_count=" + Decimal(n) + ")", 2 + 8 * n + n - 1, |data|))
      else
        Ok(ShapeComponentCurve(n, Int32sAt(data, 2, n), Int32sAt(data, 2 + 4 * n, n),
          data[2 + 8 * n..2 + 8 * n + n - 1]))
  }

  // The curve's points are read exactly as a polygon's.
  lemma CurvePointsAsPolygon(data: seq<byte>)
    requires CurveOf(data).Ok?
    ensures var c := CurveOf(data).value;
      ShapePolygon.PolygonOf(data) == Ok(ShapePolygon.ShapeComponentPolygon(c.pointCount, c.xCoordinates, c.yCoordinates))
  {
  }

  // ShapeComponentCurve::parse with its running offset and three loops.
  method ParseCurve(data: seq<byte>) returns (r: Result<ShapeComponentCurve>)
    ensures r == CurveOf(data)
  {
    if |data| < 2 {
      return Err(InsufficientData("ShapeComponentCurve", 2, |data|));
    }
    var offset := 0;
    var pointCount := I16(data, offset);
    offset := offset + 2;
    if pointCount <= 0 {
      return Err(UnexpectedValue("ShapeComponentCurve point_count"));
    }
    var n: nat := pointCount;
    var required := 2 + 8 * n + n - 1;
    if |data| < required {
      return Err(InsufficientData("ShapeComponentCurve (point_count=" + Decimal(n) + ")", required, |data|));
    }
    var xs := ShapePolygon.ReadInt32s(data, offset, n);
    offset := offset + 4 * n;
    var ys := ShapePolygon.ReadInt32s(data, offset, n);
    offset := offset + 4 * n;
    var segmentTypes: seq<byte> := [];
    var i := 0;
    while i < n - 1
      invariant 0 <= i <= n - 1 && offset == 2 + 8 * n + i
      invariant segmentTypes == data[2 + 8 * n..offset]
    {
      segmentTypes := segmentTypes + [data[offset]];
      offset := offset + 1;
      i := i + 1;
    }
    r := Ok(ShapeComponentCurve(pointCount, xs, ys, segmentTypes));
  }

  // The writer side: a positive count, that many coordinates of each kind
  // and one fewer segment types.
  predicate WellFormedCurve(c: ShapeComponentCurve)
  {
    0 < c.pointCount && |c.xCoordinates| == c.pointCount && |c.yCoordinates| == c.pointCount &&
    |c.segmentTypes| == c.pointCount - 1
  }

  function EncodeCurve(c: ShapeComponentCurve): (r: seq<byte>)
  {
    ShapePolygon.EncodePolygon(ShapePolygon.ShapeComponentPolygon(c.pointCount, c.xCoordinates, c.yCoordinates)) +
    c.segmentTypes
  }

  // An encoded curve, followed by anything, parses back to itself.
  lemma CurveRoundTrip(c: ShapeComponentCurve, rest: seq<byte>)
    requires WellFormedCurve(c)
    ensures CurveOf(EncodeCurve(c) + rest) == Ok(c)
  {
    var p := ShapePolygon.ShapeComponentPolygon(c.pointCount, c.xCoordinates, c.yCoordinates);
    var e := ShapePolygon.EncodePolygon(p);
    var s := EncodeCurve(c) + rest;
    var n: nat := c.pointCount;
    assert s == e + (c.segmentTypes + rest);
    ShapePolygon.PolygonRoundTrip(p, c.segmentTypes + rest);
    assert |e| == 2 + 8 * n;
    assert s[2 + 8 * n..2 + 8 * n + n - 1] == c.segmentTypes;
  }
}
