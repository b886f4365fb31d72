// The polygon shape component (Table 99 of the format,
// crates/hwp-core/src/document/bodytext/shape_component_polygon.rs): an INT16
// point count, then all x coordinates, then all y coordinates, as INT32s.

module ShapePolygon {
  import opened Bytes
  import opened Errors
  import opened Text

  datatype ShapeComponentPolygon = ShapeComponentPolygon(pointCount: i16, xCoordinates: seq<i32>, yCoordinates: seq<i32>)

  // ShapeComponentPolygon::parse by absolute offsets.
  function PolygonOf(data: seq<byte>): (r: Result<ShapeComponentPolygon>)
    ensures |data| < 2 ==> r == Err(InsufficientData("ShapeComponentPolygon", 2, |data|))
    ensures 2 <= |data| && I16(data, 0) <= 0 ==> r == Err(UnexpectedValue("ShapeComponentPolygon point_count"))
    ensures 2 <= |data| && I16(data, 0) > 0 && |data| < 2 + 8 * I16(data, 0) ==>
      r == Err(InsufficientData("ShapeComponentPolygon (point_count=" + Decimal(I16(data, 0)) + ")", 2 + 8 * I16(data, 0), |data|))
    ensures r.Ok? ==> var n := r.value.pointCount;
      n == I16(data, 0) && 0 < n && 2 + 8 * n <= |data| &&
      |r.value.xCoordinates| == n && |r.value.yCoordinates| == n
    ensures r.Ok? ==> var n := r.value.pointCount;
      forall k :: 0 <= k < n ==>
        r.value.xCoordinates[k] == I32(data, 2 + 4 * k) && r.value.yCoordinates[k] == I32(data, 2 + 4 * n + 4 * k)
  {
    if |data| < 2 then Err(InsufficientData("ShapeComponentPolygon", 2, |data|))
    else
      var n := I16(data, 0);
      if n <= 0 then Err(UnexpectedValue("ShapeComponentPolygon point_count"))
      else if |data| < 2 + 8 * n then
        Err(InsufficientData("ShapeComponentPolygon (point_count=" + Decimal(n) + ")", 2 + 8 * n, |data|))
      else Ok(ShapeComponentPolygon(n, Int32sAt(data, 2, n), Int32sAt(data, 2 + 4 * n, n)))
  }

  // The n INT32s from offset, read one by one.
  method ReadInt32s(data: seq<byte>, start: nat, n: nat) returns (xs: seq<i32>)
    requires start + 4 * n <= |data|
    ensures xs == Int32sAt(data, start, n)
  {
    xs := [];
    var offset := start;
    var i := 0;
    while i < n
      invariant 0 <= i <= n && offset == start + 4 * i
      invariant xs == Int32sAt(data, start, i)
    {
      xs := xs + [I32(data, offset)];
      offset := offset + 4;
      i := i + 1;
    }
  }

  // ShapeComponentPolygon::parse with its running offset and two loops.
  method ParsePolygon(data: seq<byte>) returns (r: Result<ShapeComponentPolygon>)
    ensures r == PolygonOf(data)
  {
    if |data| < 2 {
      return Err(InsufficientData("ShapeComponentPolygon", 2, |data|));
    }
    var offset := 0;
    var pointCount := I16(data, offset);
    offset := offset + 2;
    if pointCount <= 0 {
      return Err(UnexpectedValue("ShapeComponentPolygon point_count"));
    }
    var n: nat := pointCount;
    var required := 2 + 8 * n;
    if |data| < required {
      return Err(InsufficientData("ShapeComponentPolygon (point_count=" + Decimal(n) + ")", required, |data|));
    }
    var xs := ReadInt32s(data, offset, n);
    offset := offset + 4 * n;
    var ys := ReadInt32s(data, offset, n);
    r := Ok(ShapeComponentPolygon(pointCount, xs, ys));
  }

  // The writer side: a positive count and that many coordinates of each kind.
  predicate WellFormedPolygon(p: ShapeComponentPolygon)
  {
    0 < p.pointCount && |p.xCoordinates| == p.pointCount && |p.yCoordinates| == p.pointCount
  }

  function EncodePolygon(p: ShapeComponentPolygon): (r: seq<byte>)
    ensures |r| == 2 + 4 * |p.xCoordinates| + 4 * |p.yCoordinates|
  {
    Le16(FromI16(p.pointCount)) + Words(IntWords(p.xCoordinates)) + Words(IntWords(p.yCoordinates))
  }

  lemma PolygonCoordinates(p: ShapeComponentPolygon, rest: seq<byte>, k: nat)
    requires WellFormedPolygon(p) && k < p.pointCount
    ensures var s := EncodePolygon(p) + rest; var n := p.pointCount;
      2 + 8 * n <= |s| && I32(s, 2 + 4 * k) == p.xCoordinates[k] && I32(s, 2 + 4 * n + 4 * k) == p.yCoordinates[k]
  {
    var n := p.pointCount;
    var h := Le16(FromI16(n));
    var xw, yw := IntWords(p.xCoordinates), IntWords(p.yCoordinates);
    var s := EncodePolygon(p) + rest;
    assert s == (h + Words(xw)) + (Words(yw) + rest);
    WordAfter(h, xw, k);
    U32Prefix(h + Words(xw), Words(yw) + rest, 2 + 4 * k);
    assert s == (h + Words(xw) + Words(yw)) + rest;
    WordAfter(h + Words(xw), yw, k);
    U32Prefix(h + Words(xw) + Words(yw), rest, 2 + 4 * n + 4 * k);
  }

  // The point count at the front of an encoding.
  lemma PolygonCount(p: ShapeComponentPolygon, rest: seq<byte>)
    requires WellFormedPolygon(p)
    ensures var s := EncodePolygon(p) + rest; 2 + 8 * p.pointCount <= |s| && I16(s, 0) == p.pointCount
  {
    var s := EncodePolygon(p) + rest;
    var tail := Words(IntWords(p.xCoordinates)) + Words(IntWords(p.yCoordinates)) + rest;
    assert s == [] + Le16(FromI16(p.pointCount)) + tail;
    Le16Read([], FromI16(p.pointCount), tail);
  }

  // An encoded polygon, followed by anything, parses back to itself.
  lemma PolygonRoundTrip(p: ShapeComponentPolygon, rest: seq<byte>)
    requires WellFormedPolygon(p)
    ensures PolygonOf(EncodePolygon(p) + rest) == Ok(p)
  {
    var s := EncodePolygon(p) + rest;
    var n: nat := p.pointCount;
    PolygonCount(p, rest);
    var xs, ys := Int32sAt(s, 2, n), Int32sAt(s, 2 + 4 * n, n);
    forall k | 0 <= k < n
      ensures xs[k] == p.xCoordinates[k] && ys[k] == p.yCoordinates[k]
    {
      PolygonCoordinates(p, rest, k);
    }
    assert xs == p.xCoordinates && ys == p.yCoordinates;
  }
}
