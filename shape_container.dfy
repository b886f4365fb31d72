// The container (grouping) shape component (Table 121 of the format,
// crates/hwp-core/src/document/bodytext/shape_component_container.rs): a
// WORD object count followed by one DWORD control id per grouped object.

module ShapeContainer {
  import opened Bytes
  import opened Errors
  import opened Text

  datatype ShapeComponentContainer = ShapeComponentContainer(objectCount: u16, controlIds: seq<u32>)

  // ShapeComponentContainer::parse by absolute offsets.
  function ContainerOf(data: seq<byte>): (r: Result<ShapeComponentContainer>)
    ensures |data| < 2 ==> r == Err(InsufficientData("ShapeComponentContainer", 2, |data|))
    ensures 2 <= |data| < 2 + 4 * U16(data, 0) ==>
      r == Err(InsufficientData("ShapeComponentContainer (object_count=" + Decimal(U16(data, 0)) + ")",
                                2 + 4 * U16(data, 0), |data|))
    ensures r.Ok? <==> 2 <= |data| && 2 + 4 * U16(data, 0) <= |data|
    ensures r.Ok? ==> r.value.objectCount == U16(data, 0) && |r.value.controlIds| == r.value.objectCount
    ensures r.Ok? ==> forall k :: 0 <= k < |r.value.controlIds| ==> r.value.controlIds[k] == U32(data, 2 + 4 * k)
  {
    if |data| < 2 then Err(InsufficientData("ShapeComponentContainer", 2, |data|))
    else
      var n := U16(data, 0);
      if |data| < 2 + 4 * n then
        Err(InsufficientData("ShapeComponentContainer (object_count=" + Decimal(n) + ")", 2 + 4 * n, |data|))
      else Ok(ShapeComponentContainer(n, DwordsAt(data, 2, n)))
  }

  // ShapeComponentContainer::parse with its running offset and loop.
  method ParseContainer(data: seq<byte>) returns (r: Result<ShapeComponentContainer>)
    ensures r == ContainerOf(data)
  {
    if |data| < 2 {
      return Err(InsufficientData("ShapeComponentContainer", 2, |data|));
    }
    var offset := 0;
    var objectCount := U16(data, offset);
    offset := offset + 2;
    var n: nat := objectCount;
    var required := 2 + 4 * n;
    if |data| < required {
      return Err(InsufficientData("ShapeComponentContainer (object_count=" + Decimal(n) + ")", required, |data|));
    }
    var controlIds: seq<u32> := [];
    var i := 0;
    while i < n
      invariant 0 <= i <= n && offset == 2 + 4 * i
      invariant controlIds == DwordsAt(data, 2, i)
    {
      controlIds := controlIds + [U32(data, offset)];
      offset := offset + 4;
      i := i + 1;
    }
    r := Ok(ShapeComponentContainer(objectCount, controlIds));
  }

  // A zero object count gives an empty list, whatever follows.
  lemma EmptyContainer(rest: seq<byte>)
    ensures ContainerOf([0, 0] + rest) == Ok(ShapeComponentContainer(0, []))
  {
  }

  predicate WellFormedContainer(c: ShapeComponentContainer)
  {
    |c.controlIds| == c.objectCount
  }

  function EncodeContainer(c: ShapeComponentContainer): (r: seq<byte>)
    ensures |r| == 2 + 4 * |c.controlIds|
  {
    Le16(c.objectCount) + Words(c.controlIds)
  }

  // An encoded container, followed by anything, parses back to itself.
  lemma ContainerRoundTrip(c: ShapeComponentContainer, rest: seq<byte>)
    requires WellFormedContainer(c)
    ensures ContainerOf(EncodeContainer(c) + rest) == Ok(c)
  {
    var h := Le16(c.objectCount);
    var s := EncodeContainer(c) + rest;
    assert s == [] + h + (Words(c.controlIds) + rest);
    Le16Read([], c.objectCount, Words(c.controlIds) + rest);
    forall k | 0 <= k < |c.controlIds|
      ensures U32(s, 2 + 4 * k) == c.controlIds[k]
    {
      WordAfter(h, c.controlIds, k);
      U32Prefix(h + Words(c.controlIds), rest, 2 + 4 * k);
    }
    assert DwordsAt(s, 2, c.objectCount) == c.controlIds;
  }
}
