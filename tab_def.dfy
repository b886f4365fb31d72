// The tab definition record of DocInfo (Tables 36-38 of the format,
// crates/hwp-core/src/document/docinfo/tab_def.rs): an attribute DWORD, an
// INT16 count and that many eight-byte tab items.

module TabDef {
  import opened Bytes
  import opened Errors
  import opened Text
  import opened BitFlags

  datatype TabType = Left | Right | Center | Decimal

  datatype TabDefAttributes = TabDefAttributes(hasLeftAutoTab: bool, hasRightAutoTab: bool)

  datatype TabItem = TabItem(position: u32, tabType: TabType, fillType: byte)

  datatype TabDef = TabDef(attributes: TabDefAttributes, count: i16, tabs: seq<TabItem>)

  // TabType::from_byte: 1, 2 and 3 are named, anything else is Left.
  function TabTypeOf(b: byte): (t: TabType)
    ensures t == Right <==> b == 1
    ensures t == Center <==> b == 2
    ensures t == Decimal <==> b == 3
    ensures t == Left <==> b == 0 || b > 3
  {
    match b
    case 1 => Right
    case 2 => Center
    case 3 => Decimal
    case _ => Left
  }

  function TabTypeByte(t: TabType): (b: byte)
    ensures TabTypeOf(b) == t
  {
    match t
    case Left => 0
    case Right => 1
    case Center => 2
    case Decimal => 3
  }

  // The two auto-tab bits of the attribute.
  function TabDefAttributesOf(v: u32): (a: TabDefAttributes)
    ensures a.hasLeftAutoTab <==> HasMask(v, 0x1)
    ensures a.hasRightAutoTab <==> HasMask(v, 0x2)
  {
    TabDefAttributes(HasMask(v, 0x1), HasMask(v, 0x2))
  }

  function TabDefAttributesBits(a: TabDefAttributes): (v: u32)
    ensures v < 4
  {
    (if a.hasLeftAutoTab then 1 else 0) + (if a.hasRightAutoTab then 2 else 0)
  }

  lemma TabDefAttributesRoundTrip(a: TabDefAttributes)
    ensures TabDefAttributesOf(TabDefAttributesBits(a)) == a
  {
  }

  // The number of items `for _ in 0..count` visits.
  function ItemCount(count: i16): (n: nat)
    ensures count <= 0 ==> n == 0
    ensures count > 0 ==> n == count
  {
    if count > 0 then count else 0
  }

  function TabItemAt(data: seq<byte>, off: nat): TabItem
    requires off + 8 <= |data|
  {
    TabItem(U32(data, off), TabTypeOf(data[off + 4]), data[off + 5])
  }

  // The first n items from offset start.
  function TabsAt(data: seq<byte>, start: nat, n: nat): (tabs: seq<TabItem>)
    requires start + 8 * n <= |data|
    ensures |tabs| == n
    ensures forall k :: 0 <= k < n ==> tabs[k] == TabItemAt(data, start + 8 * k)
  {
    if n == 0 then [] else TabsAt(data, start, n - 1) + [TabItemAt(data, start + 8 * (n - 1))]
  }

  // TabDef::parse: every item must fit; the error names the offset of the
  // first one that does not.
  function TabDefOf(data: seq<byte>): (r: Result<TabDef>)
    ensures |data| < 6 ==> r == Err(InsufficientData("TabDef", 6, |data|))
    ensures 6 <= |data| ==> (r.Ok? <==> 6 + 8 * ItemCount(I16(data, 4)) <= |data|)
    ensures 6 <= |data| && r.Err? ==> var off := 6 + 8 * ((|data| - 6) / 8);
      off < 6 + 8 * ItemCount(I16(data, 4)) && r == Err(InsufficientData(AtOffset("TabDef tab item", off), off + 8, |data|))
    ensures r.Ok? ==> r.value.attributes == TabDefAttributesOf(U32(data, 0)) && r.value.count == I16(data, 4)
    ensures r.Ok? ==> |r.value.tabs| == ItemCount(r.value.count)
    ensures r.Ok? ==> forall k :: 0 <= k < |r.value.tabs| ==> r.value.tabs[k] == TabItemAt(data, 6 + 8 * k)
  {
    if |data| < 6 then Err(InsufficientData("TabDef", 6, |data|))
    else
      var n := ItemCount(I16(data, 4));
      if 6 + 8 * n <= |data| then Ok(TabDef(TabDefAttributesOf(U32(data, 0)), I16(data, 4), TabsAt(data, 6, n)))
      else
        var off := 6 + 8 * ((|data| - 6) / 8);
        Err(InsufficientData(AtOffset("TabDef tab item", off), off + 8, |data|))
  }

  // TabDef::parse with its running offset and item loop.
  method ParseTabDef(data: seq<byte>) returns (r: Result<TabDef>)
    ensures r == TabDefOf(data)
  {
    if |data| < 6 {
      return Err(InsufficientData("TabDef", 6, |data|));
    }
    var offset := 0;
    var attrValue := U32(data, offset);
    offset := offset + 4;
    var attributes := TabDefAttributesOf(attrValue);
    var count := I16(data, offset);
    offset := offset + 2;
    var n := ItemCount(count);
    var tabs: seq<TabItem> := [];
    var i := 0;
    while i < n
      invariant 0 <= i <= n && offset == 6 + 8 * i && offset <= |data|
      invariant tabs == TabsAt(data, 6, i)
    {
      if offset + 8 > |data| {
        assert (|data| - 6) / 8 == i;
        return Err(InsufficientData(AtOffset("TabDef tab item", offset), offset + 8, |data|));
      }
      var position := U32(data, offset);
      offset := offset + 4;
      var tabType := TabTypeOf(data[offset]);
      offset := offset + 1;
      var fillType := data[offset];
      offset := offset + 1;
      offset := offset + 2;
      tabs := tabs + [TabItem(position, tabType, fillType)];
      i := i + 1;
    }
    r := Ok(TabDef(attributes, count, tabs));
  }

  // The writer side: the count says how many items follow.
  predicate WellFormedTabDef(t: TabDef)
  {
    |t.tabs| == ItemCount(t.count)
  }

  // An item with its reserved WORD written as zero.
  function EncodeTabItem(item: TabItem): (r: seq<byte>)
    ensures |r| == 8
  {
    Le32(item.position) + [TabTypeByte(item.tabType), item.fillType, 0, 0]
  }

  function EncodeTabs(tabs: seq<TabItem>): (r: seq<byte>)
    ensures |r| == 8 * |tabs|
  {
    if |tabs| == 0 then [] else EncodeTabItem(tabs[0]) + EncodeTabs(tabs[1..])
  }

  function EncodeTabDef(t: TabDef): seq<byte>
  {
    Le32(TabDefAttributesBits(t.attributes)) + Le16(FromI16(t.count)) + EncodeTabs(t.tabs)
  }

  lemma TabItemRead(p: seq<byte>, item: TabItem, rest: seq<byte>)
    ensures TabItemAt(p + EncodeTabItem(item) + rest, |p|) == item
  {
    var s := p + EncodeTabItem(item) + rest;
    assert s == p + Le32(item.position) + ([TabTypeByte(item.tabType), item.fillType, 0, 0] + rest);
    Le32Read(p, item.position, [TabTypeByte(item.tabType), item.fillType, 0, 0] + rest);
  }

  // Item k of an encoded run that follows a prefix.
  lemma {:induction false} TabAfter(p: seq<byte>, tabs: seq<TabItem>, k: nat, rest: seq<byte>)
    requires k < |tabs|
    ensures TabItemAt(p + EncodeTabs(tabs) + rest, |p| + 8 * k) == tabs[k]
    decreases k
  {
    var q := p + EncodeTabItem(tabs[0]);
    assert p + EncodeTabs(tabs) + rest == q + EncodeTabs(tabs[1..]) + rest;
    if k == 0 {
      assert p + EncodeTabs(tabs) + rest == p + EncodeTabItem(tabs[0]) + (EncodeTabs(tabs[1..]) + rest);
      TabItemRead(p, tabs[0], EncodeTabs(tabs[1..]) + rest);
    } else {
      TabAfter(q, tabs[1..], k - 1, rest);
    }
  }

  // Every well-formed definition, followed by anything, reads back as itself.
  lemma TabDefRoundTrip(t: TabDef, rest: seq<byte>)
    requires WellFormedTabDef(t)
    ensures TabDefOf(EncodeTabDef(t) + rest) == Ok(t)
  {
    var w := TabDefAttributesBits(t.attributes);
    var h := Le32(w) + Le16(FromI16(t.count));
    var s := EncodeTabDef(t) + rest;
    assert s == [] + Le32(w) + (Le16(FromI16(t.count)) + EncodeTabs(t.tabs) + rest);
    Le32Read([], w, Le16(FromI16(t.count)) + EncodeTabs(t.tabs) + rest);
    assert s == Le32(w) + Le16(FromI16(t.count)) + (EncodeTabs(t.tabs) + rest);
    Le16Read(Le32(w), FromI16(t.count), EncodeTabs(t.tabs) + rest);
    TabDefAttributesRoundTrip(t.attributes);
    forall k | 0 <= k < |t.tabs|
      ensures TabItemAt(s, 6 + 8 * k) == t.tabs[k]
    {
      assert s == h + EncodeTabs(t.tabs) + rest;
      TabAfter(h, t.tabs, k, rest);
    }
    assert TabsAt(s, 6, |t.tabs|) == t.tabs;
  }
}
