// The document data record of DocInfo (Tables 49-52 of the format,
// crates/hwp-core/src/document/docinfo/doc_data.rs): a parameter set of
// typed items, where an item may itself hold a set or an array of sets.

module DocData {
  import opened Bytes
  import opened Errors
  import opened Utf16

  datatype ParameterItemType =
    | PNull | PBstr | PI1 | PI2 | PI4 | PI | PUi1 | PUi2 | PUi4 | PUi | PSet | PArray | PBindata

  datatype ParameterItemData =
    | DNull
    | DBstr(text: string)
    | DI1(i1: i8)
    | DI2(i2: i16)
    | DI4(i4: i32)
    | DI(i: i8)
    | DUi1(ui1: byte)
    | DUi2(ui2: u16)
    | DUi4(ui4: u32)
    | DUi(ui: byte)
    | DSet(inner: ParameterSet)
    | DArray(sets: seq<ParameterSet>)
    | DBindata(binDataId: u16)

  datatype ParameterItem = ParameterItem(id: u16, itemType: ParameterItemType, data: ParameterItemData)

  datatype ParameterSet = ParameterSet(setId: u16, itemCount: i16, items: seq<ParameterItem>)

  datatype DocData = DocData(parameterSet: ParameterSet)

  // Table 52: the type codes; any other code is unknown.
  function ItemTypeOf(v: u16): (t: Option<ParameterItemType>)
    ensures t.None? <==> !(v <= 9 || 0x8000 <= v <= 0x8002)
  {
    if v == 0 then Some(PNull)
    else if v == 1 then Some(PBstr)
    else if v == 2 then Some(PI1)
    else if v == 3 then Some(PI2)
    else if v == 4 then Some(PI4)
    else if v == 5 then Some(PI)
    else if v == 6 then Some(PUi1)
    else if v == 7 then Some(PUi2)
    else if v == 8 then Some(PUi4)
    else if v == 9 then Some(PUi)
    else if v == 0x8000 then Some(PSet)
    else if v == 0x8001 then Some(PArray)
    else if v == 0x8002 then Some(PBindata)
    else None
  }

  function ItemTypeCode(t: ParameterItemType): (v: u16)
    ensures ItemTypeOf(v) == Some(t)
  {
    match t
    case PNull => 0
    case PBstr => 1
    case PI1 => 2
    case PI2 => 3
    case PI4 => 4
    case PI => 5
    case PUi1 => 6
    case PUi2 => 7
    case PUi4 => 8
    case PUi => 9
    case PSet => 0x8000
    case PArray => 0x8001
    case PBindata => 0x8002
  }

  // The bytes a fixed-size item type holds; strings, sets and arrays have
  // no fixed size.
  function FixedSize(t: ParameterItemType): Option<nat>
  {
    match t
    case PNull => Some(0)
    case PI1 => Some(1)
    case PI => Some(1)
    case PUi1 => Some(1)
    case PUi => Some(1)
    case PI2 => Some(2)
    case PUi2 => Some(2)
    case PBindata => Some(2)
    case PI4 => Some(4)
    case PUi4 => Some(4)
    case PBstr => None
    case PSet => None
    case PArray => None
  }

  // The item loop runs `0..item_count`: no iteration for a negative count.
  function ItemCount(count: i16): nat
  {
    if count < 0 then 0 else count
  }

  // The arms of parse_parameter_item_data for the types without nested sets.
  function ScalarItemOf(data: seq<byte>, t: ParameterItemType): (r: Result<(ParameterItemData, nat)>)
    requires !t.PSet? && !t.PArray?
    ensures FixedSize(t).Some? ==> (r.Ok? <==> FixedSize(t).value <= |data|)
    ensures FixedSize(t).Some? && r.Ok? ==> r.value.1 == FixedSize(t).value
    ensures t == PBstr && r.Ok? ==> 2 <= |data| && r.value.1 == 2 + 2 * U16(data, 0) <= |data|
  {
    match t
    case PNull => Ok((DNull, 0))
    case PBstr =>
      if |data| < 2 then Err(InsufficientData("BSTR length", 2, |data|))
      else
        var total := 2 + 2 * U16(data, 0);
        if |data| < total then Err(InsufficientData("BSTR data", total, |data|))
        else
          (match DecodeUtf16Le(data[2..total])
           case Ok(s) => Ok((DBstr(s), total))
           case Err(_) => Err(EncodingError))
    case PI1 => if |data| < 1 then Err(InsufficientData("I1", 1, |data|)) else Ok((DI1(AsI8(data[0])), 1))
    case PI2 => if |data| < 2 then Err(InsufficientData("I2", 2, |data|)) else Ok((DI2(I16(data, 0)), 2))
    case PI4 => if |data| < 4 then Err(InsufficientData("I4", 4, |data|)) else Ok((DI4(I32(data, 0)), 4))
    case PI => if |data| < 1 then Err(InsufficientData("I", 1, |data|)) else Ok((DI(AsI8(data[0])), 1))
    case PUi1 => if |data| < 1 then Err(InsufficientData("UI1", 1, |data|)) else Ok((DUi1(data[0]), 1))
    case PUi2 => if |data| < 2 then Err(InsufficientData("UI2", 2, |data|)) else Ok((DUi2(U16(data, 0)), 2))
    case PUi4 => if |data| < 4 then Err(InsufficientData("UI4", 4, |data|)) else Ok((DUi4(U32(data, 0)), 4))
    case PUi => if |data| < 1 then Err(InsufficientData("UI", 1, |data|)) else Ok((DUi(data[0]), 1))
    case PBindata =>
      if |data| < 2 then Err(InsufficientData("Bindata", 2, |data|)) else Ok((DBindata(U16(data, 0)), 2))
  }

  // parse_parameter_item_data: the value of one item and the bytes it takes.
  function ItemDataOf(data: seq<byte>, t: ParameterItemType): (r: Result<(ParameterItemData, nat)>)
    ensures t.PSet? ==> (r.Ok? <==> 4 <= |data|)
    ensures t.PArray? ==> (r.Ok? <==> 2 <= |data|)
    decreases |data|, 3, 0
  {
    match t
    case PSet =>
      // The size of a nested set is the approximation 4 + 4 * items.
      (match ParameterSetOf(data)
       case Err(e) => Err(e)
       case Ok(inner) => Ok((DSet(inner), 4 + 4 * |inner.items|)))
    case PArray =>
      if |data| < 2 then Err(InsufficientData("Array count", 2, |data|))
      else
        var (sets, end) := ArraySets(data, 2, Usize(I16(data, 0)));
        Ok((DArray(sets), end))
    case _ => ScalarItemOf(data, t)
  }

  // The array loop from offset off with n sets still to read: it stops at
  // the end of the data or at the first set that fails, and steps by the
  // approximate size of each set.
  function ArraySets(data: seq<byte>, off: nat, n: nat): (r: (seq<ParameterSet>, nat))
    requires off >= 2
    ensures |r.0| <= n && r.1 >= off
    decreases |data|, 2, n
  {
    if n == 0 || off >= |data| then ([], off)
    else
      match ParameterSetOf(data[off..])
      case Err(_) => ([], off)
      case Ok(first) =>
        var (sets, end) := ArraySets(data, off + 4 + 4 * |first.items|, n - 1);
        ([first] + sets, end)
  }

  // ParameterSet::parse.
  function ParameterSetOf(data: seq<byte>): (r: Result<ParameterSet>)
    ensures r.Err? <==> |data| < 4
    ensures r.Err? ==> r.error == InsufficientData("ParameterSet", 4, |data|)
    ensures r.Ok? ==> (r.value.setId == U16(data, 0) && r.value.itemCount == I16(data, 2) &&
      |r.value.items| <= ItemCount(I16(data, 2)))
    decreases |data|, 1, 0
  {
    if |data| < 4 then Err(InsufficientData("ParameterSet", 4, |data|))
    else Ok(ParameterSet(U16(data, 0), I16(data, 2), SetItems(data, 4, ItemCount(I16(data, 2)))))
  }

  // The item loop from offset cur with n iterations left: it stops at the
  // end of the data, and a failed item skips its four header bytes when
  // they are there.
  function SetItems(data: seq<byte>, cur: nat, n: nat): (items: seq<ParameterItem>)
    requires cur >= 4
    ensures |items| <= n
    decreases |data|, 0, n
  {
    if n == 0 || cur >= |data| then []
    else
      match ParameterItemOf(data[cur..])
      case Ok((item, size)) => [item] + SetItems(data, cur + size, n - 1)
      case Err(_) => if cur + 4 <= |data| then SetItems(data, cur + 4, n - 1) else []
  }

  // ParameterItem::parse: the item and the bytes it takes. An unknown type
  // code gives a Null item of four bytes.
  function ParameterItemOf(data: seq<byte>): (r: Result<(ParameterItem, nat)>)
    ensures |data| < 4 ==> r == Err(InsufficientData("ParameterItem", 4, |data|))
    ensures 4 <= |data| && ItemTypeOf(U16(data, 2)).None? ==> r == Ok((ParameterItem(U16(data, 0), PNull, DNull), 4))
    ensures r.Ok? ==> r.value.1 >= 4 && r.value.0.id == U16(data, 0)
    decreases |data|, 0, 1
  {
    if |data| < 4 then Err(InsufficientData("ParameterItem", 4, |data|))
    else
      var id := U16(data, 0);
      match ItemTypeOf(U16(data, 2))
      case None => Ok((ParameterItem(id, PNull, DNull), 4))
      case Some(t) =>
        match ItemDataOf(data[4..], t)
        case Err(e) => Err(e)
        case Ok((value, size)) => Ok((ParameterItem(id, t, value), 4 + size))
  }

  // DocData::parse.
  function DocDataOf(data: seq<byte>): (r: Result<DocData>)
    ensures |data| == 0 ==> r == Err(InsufficientData("DocData data", 1, 0))
    ensures r.Ok? <==> 4 <= |data|
  {
    if |data| == 0 then Err(InsufficientData("DocData data", 1, 0))
    else
      match ParameterSetOf(data)
      case Err(e) => Err(e)
      case Ok(ps) => Ok(DocData(ps))
  }

  // The steps of the item loop: a decoded item, a skipped header, the end.
  lemma SetItemsTake(data: seq<byte>, cur: nat, m: nat, item: ParameterItem, size: nat)
    requires cur >= 4 && m > 0 && cur < |data|
    requires ParameterItemOf(data[cur..]) == Ok((item, size))
    ensures SetItems(data, cur, m) == [item] + SetItems(data, cur + size, m - 1)
  {
  }

  lemma SetItemsSkip(data: seq<byte>, cur: nat, m: nat)
    requires cur >= 4 && m > 0 && cur + 4 <= |data|
    requires ParameterItemOf(data[cur..]).Err?
    ensures SetItems(data, cur, m) == SetItems(data, cur + 4, m - 1)
  {
  }

  lemma SetItemsStop(data: seq<byte>, cur: nat, m: nat)
    requires cur >= 4 && m > 0 && cur < |data| < cur + 4
    requires ParameterItemOf(data[cur..]).Err?
    ensures SetItems(data, cur, m) == []
  {
  }

  // ParameterSet::parse: the header and then the item loop.
  method ParseParameterSet(data: seq<byte>) returns (r: Result<ParameterSet>)
    ensures r == ParameterSetOf(data)
    decreases |data|, 1, 0
  {
    if |data| < 4 {
      return Err(InsufficientData("ParameterSet", 4, |data|));
    }
    var setId := U16(data, 0);
    var itemCount := I16(data, 2);
    var items := ParseItems(data, ItemCount(itemCount));
    r := Ok(ParameterSet(setId, itemCount, items));
  }

  // One pass of the item loop at offset cur: the item it keeps (none for a
  // failed item), the next offset, and whether the loop stops.
  function ItemStep(data: seq<byte>, cur: nat): (r: (seq<ParameterItem>, nat, bool))
    requires 4 <= cur < |data|
    ensures r.1 >= 4 && |r.0| <= 1
    ensures r.2 ==> r.0 == [] && ParameterItemOf(data[cur..]).Err? && |data| < cur + 4
  {
    match ParameterItemOf(data[cur..])
    case Ok((item, size)) => ([item], cur + size, false)
    case Err(_) => if cur + 4 <= |data| then ([], cur + 4, false) else ([], cur, true)
  }

  // The items from cur on are the step's item followed by the items from
  // the next offset, or nothing more when the step stops.
  lemma ItemStepItems(data: seq<byte>, cur: nat, m: nat)
    requires 4 <= cur < |data| && m > 0
    ensures var (kept, next, stop) := ItemStep(data, cur);
      (stop ==> kept == SetItems(data, cur, m)) &&
      (!stop ==> kept + SetItems(data, next, m - 1) == SetItems(data, cur, m))
  {
    match ParameterItemOf(data[cur..])
    case Ok((item, size)) =>
      SetItemsTake(data, cur, m, item, size);
    case Err(_) =>
      if cur + 4 <= |data| {
        SetItemsSkip(data, cur, m);
        assert [] + SetItems(data, cur + 4, m - 1) == SetItems(data, cur + 4, m - 1);
      } else {
        SetItemsStop(data, cur, m);
      }
  }

  method ParseItemStep(data: seq<byte>, cur: nat) returns (kept: seq<ParameterItem>, next: nat, stop: bool)
    requires 4 <= cur < |data|
    ensures (kept, next, stop) == ItemStep(data, cur)
    decreases |data|, 0, 0
  {
    var parsed := ParseParameterItem(data[cur..]);
    if parsed.Ok? {
      kept, next, stop := [parsed.value.0], cur + parsed.value.1, false;
    } else if cur + 4 <= |data| {
      kept, next, stop := [], cur + 4, false;
    } else {
      kept, next, stop := [], cur, true;
    }
  }

  // The item loop of ParameterSet::parse over n iterations; each item is
  // decoded by ParameterItemOf.
  method ParseItems(data: seq<byte>, n: nat) returns (items: seq<ParameterItem>)
    ensures items == SetItems(data, 4, n)
    decreases |data|, 0, 1
  {
    items := [];
    var current: nat := 4;
    var i := 0;
    while i < n
      invariant 0 <= i <= n && current >= 4
      invariant items + SetItems(data, current, n - i) == SetItems(data, 4, n)
      decreases n - i
    {
      if current >= |data| {
        assert items == items + SetItems(data, current, n - i);
        break;
      }
      var kept, next, stop := ParseItemStep(data, current);
      ItemStepItems(data, current, n - i);
      if stop {
        items := items + kept;
        break;
      }
      Associative(items, kept, SetItems(data, next, n - i - 1));
      items := items + kept;
      current := next;
      i := i + 1;
    }
    assert i == n ==> items == items + SetItems(data, current, n - i);
  }

  // ParameterItem::parse: the header, then the value.
  method ParseParameterItem(data: seq<byte>) returns (r: Result<(ParameterItem, nat)>)
    ensures r == ParameterItemOf(data)
    decreases |data|, 2, 0
  {
    if |data| < 4 {
      return Err(InsufficientData("ParameterItem", 4, |data|));
    }
    var id := U16(data, 0);
    var t := ItemTypeOf(U16(data, 2));
    if t.None? {
      return Ok((ParameterItem(id, PNull, DNull), 4));
    }
    var value := ParseItemData(data[4..], t.value);
    if value.Err? {
      return Err(value.error);
    }
    r := Ok((ParameterItem(id, t.value, value.value.0), 4 + value.value.1));
  }

  // parse_parameter_item_data; a nested set is parsed again by
  // ParseParameterSet and an array by its own loop.
  method ParseItemData(data: seq<byte>, t: ParameterItemType) returns (r: Result<(ParameterItemData, nat)>)
    ensures r == ItemDataOf(data, t)
    decreases |data|, 5, 0
  {
    match t {
      case PSet =>
        var inner := ParseParameterSet(data);
        if inner.Err? {
          return Err(inner.error);
        }
        r := Ok((DSet(inner.value), 4 + 4 * |inner.value.items|));
      case PArray =>
        if |data| < 2 {
          return Err(InsufficientData("Array count", 2, |data|));
        }
        var sets, end := ParseArraySets(data, Usize(I16(data, 0)));
        r := Ok((DArray(sets), end));
      case _ =>
        r := ScalarItemOf(data, t);
    }
  }

  lemma ArraySetsTake(data: seq<byte>, off: nat, n: nat, first: ParameterSet)
    requires off >= 2 && n > 0 && off < |data|
    requires ParameterSetOf(data[off..]) == Ok(first)
    ensures var next := ArraySets(data, off + 4 + 4 * |first.items|, n - 1);
      ArraySets(data, off, n) == ([first] + next.0, next.1)
  {
  }

  lemma ArraySetsStop(data: seq<byte>, off: nat, n: nat)
    requires off >= 2 && n > 0 && off < |data|
    requires ParameterSetOf(data[off..]).Err?
    ensures ArraySets(data, off, n) == ([], off)
  {
  }

  // The array loop of parse_parameter_item_data over n sets.
  method ParseArraySets(data: seq<byte>, n: nat) returns (sets: seq<ParameterSet>, offset: nat)
    requires |data| >= 2
    ensures (sets, offset) == ArraySets(data, 2, n)
    decreases |data|, 4, 0
  {
    sets := [];
    offset := 2;
    var i := 0;
    while i < n
      invariant 0 <= i <= n && offset >= 2
      invariant sets + ArraySets(data, offset, n - i).0 == ArraySets(data, 2, n).0
      invariant ArraySets(data, offset, n - i).1 == ArraySets(data, 2, n).1
      decreases n - i
    {
      if offset >= |data| {
        assert sets == sets + ArraySets(data, offset, n - i).0;
        break;
      }
      var parsed := ParseParameterSet(data[offset..]);
      if parsed.Err? {
        ArraySetsStop(data, offset, n - i);
        assert sets == sets + ArraySets(data, offset, n - i).0;
        break;
      }
      var first := parsed.value;
      ArraySetsTake(data, offset, n - i, first);
      ghost var rest := ArraySets(data, offset + 4 + 4 * |first.items|, n - i - 1).0;
      Associative(sets, [first], rest);
      sets := sets + [first];
      offset := offset + 4 + 4 * |first.items|;
      i := i + 1;
    }
    assert i == n ==> sets == sets + ArraySets(data, offset, n - i).0;
  }

  // The writer side: the type a value belongs to and its bytes. Sets and
  // arrays are left to the reader (their sizes are approximated there).
  function DataType(d: ParameterItemData): ParameterItemType
  {
    match d
    case DNull => PNull
    case DBstr(_) => PBstr
    case DI1(_) => PI1
    case DI2(_) => PI2
    case DI4(_) => PI4
    case DI(_) => PI
    case DUi1(_) => PUi1
    case DUi2(_) => PUi2
    case DUi4(_) => PUi4
    case DUi(_) => PUi
    case DSet(_) => PSet
    case DArray(_) => PArray
    case DBindata(_) => PBindata
  }

  // A value without nested sets, whose string (if any) fits a WORD length.
  predicate FlatData(d: ParameterItemData)
  {
    !d.DSet? && !d.DArray? && (d.DBstr? ==> |EncodeUnits(d.text)| < 0x1_0000)
  }

  predicate FlatItem(item: ParameterItem)
  {
    FlatData(item.data) && item.itemType == DataType(item.data)
  }

  function EncodeItemData(d: ParameterItemData): (r: seq<byte>)
    requires FlatData(d)
  {
    match d
    case DNull => []
    case DBstr(text) => Le16(|EncodeUnits(text)|) + EncodeUtf16Le(text)
    case DI1(v) => [FromI8(v)]
    case DI2(v) => Le16(FromI16(v))
    case DI4(v) => Le32(FromI32(v))
    case DI(v) => [FromI8(v)]
    case DUi1(v) => [v]
    case DUi2(v) => Le16(v)
    case DUi4(v) => Le32(v)
    case DUi(v) => [v]
    case DBindata(v) => Le16(v)
  }

  function EncodeItem(item: ParameterItem): (r: seq<byte>)
    requires FlatItem(item)
  {
    Le16(item.id) + Le16(ItemTypeCode(item.itemType)) + EncodeItemData(item.data)
  }

  function EncodeItems(items: seq<ParameterItem>): (r: seq<byte>)
    requires FlatItems(items)
  {
    if |items| == 0 then [] else EncodeItem(items[0]) + EncodeItems(items[1..])
  }

  predicate FlatItems(items: seq<ParameterItem>)
  {
    forall k :: 0 <= k < |items| ==> FlatItem(items[k])
  }

  lemma ItemsCons(items: seq<ParameterItem>)
    requires |items| > 0 && FlatItems(items)
    ensures FlatItem(items[0]) && FlatItems(items[1..])
    ensures EncodeItems(items) == EncodeItem(items[0]) + EncodeItems(items[1..])
  {
    assert forall k :: 0 <= k < |items| - 1 ==> items[1..][k] == items[k + 1];
  }

  predicate FlatSet(ps: ParameterSet)
  {
    FlatItems(ps.items)
  }

  function EncodeSet(ps: ParameterSet): (r: seq<byte>)
    requires FlatSet(ps)
  {
    Le16(ps.setId) + Le16(FromI16(ps.itemCount)) + EncodeItems(ps.items)
  }

  // A BSTR whose length WORD and UTF-16 bytes are there.
  lemma BstrOf(data: seq<byte>, total: nat, text: string)
    requires 2 <= |data| && total == 2 + 2 * U16(data, 0) && total <= |data|
    requires DecodeUtf16Le(data[2..total]) == Ok(text)
    ensures ScalarItemOf(data, PBstr) == Ok((DBstr(text), total))
  {
  }

  // The length WORD and the code-unit bytes of an encoded BSTR.
  lemma BstrLayout(n: u16, e: seq<byte>, rest: seq<byte>)
    requires |e| == 2 * n
    ensures var b := Le16(n) + e + rest;
      2 <= |b| && U16(b, 0) == n && 2 + 2 * n <= |b| && b[2..2 + 2 * n] == e
  {
    Le16Read([], n, e + rest);
    assert Le16(n) + e + rest == [] + Le16(n) + (e + rest);
    MiddleSlice(Le16(n), e, rest);
  }

  lemma BstrRoundTrip(text: string, rest: seq<byte>)
    requires |EncodeUnits(text)| < 0x1_0000
    ensures var b := Le16(|EncodeUnits(text)|) + EncodeUtf16Le(text) + rest;
      ScalarItemOf(b, PBstr) == Ok((DBstr(text), 2 + 2 * |EncodeUnits(text)|))
  {
    var n: u16 := |EncodeUnits(text)|;
    BstrLayout(n, EncodeUtf16Le(text), rest);
    DecodeEncodeUtf16Le(text);
    BstrOf(Le16(n) + EncodeUtf16Le(text) + rest, 2 + 2 * n, text);
  }

  // A flat value reads back from its bytes, whatever follows them.
  lemma ItemDataRoundTrip(d: ParameterItemData, rest: seq<byte>)
    requires FlatData(d)
    ensures ScalarItemOf(EncodeItemData(d) + rest, DataType(d)) == Ok((d, |EncodeItemData(d)|))
  {
    var b := EncodeItemData(d) + rest;
    match d
    case DNull =>
    case DBstr(text) =>
      BstrRoundTrip(text, rest);
    case DI1(v) =>
    case DI2(v) =>
      Le16Read([], FromI16(v), rest);
      assert b == [] + Le16(FromI16(v)) + rest;
    case DI4(v) =>
      Le32Read([], FromI32(v), rest);
      assert b == [] + Le32(FromI32(v)) + rest;
    case DI(v) =>
    case DUi1(v) =>
    case DUi2(v) =>
      Le16Read([], v, rest);
      assert b == [] + Le16(v) + rest;
    case DUi4(v) =>
      Le32Read([], v, rest);
      assert b == [] + Le32(v) + rest;
    case DUi(v) =>
    case DBindata(v) =>
      Le16Read([], v, rest);
      assert b == [] + Le16(v) + rest;
  }

  // A flat item reads back, and takes exactly its own bytes.
  lemma ItemRoundTrip(item: ParameterItem, rest: seq<byte>)
    requires FlatItem(item)
    ensures ParameterItemOf(EncodeItem(item) + rest) == Ok((item, |EncodeItem(item)|))
  {
    var code := ItemTypeCode(item.itemType);
    var body := EncodeItemData(item.data) + rest;
    var b := EncodeItem(item) + rest;
    assert b == Le16(item.id) + (Le16(code) + body);
    Le16Read([], item.id, Le16(code) + body);
    Le16Read(Le16(item.id), code, body);
    assert b == [] + Le16(item.id) + (Le16(code) + body);
    assert b == Le16(item.id) + Le16(code) + body;
    assert b[4..] == body;
    ItemDataRoundTrip(item.data, rest);
    assert ItemDataOf(body, item.itemType) == ScalarItemOf(body, item.itemType);
  }

  lemma {:induction false} EncodeItemsLength(items: seq<ParameterItem>)
    requires FlatItems(items)
    ensures |EncodeItems(items)| >= 4 * |items|
  {
    if |items| > 0 {
      EncodeItemsLength(items[1..]);
    }
  }

  // items is read, one item after another, from offset cur.
  predicate ItemsAt(data: seq<byte>, cur: nat, items: seq<ParameterItem>)
    decreases |items|
  {
    |items| == 0 ||
    (cur < |data| &&
     var p := ParameterItemOf(data[cur..]);
     p.Ok? && p.value.0 == items[0] && ItemsAt(data, cur + p.value.1, items[1..]))
  }

  // The first step of the item loop over a run of items that reads one after another.
  lemma ItemsAtHead(data: seq<byte>, cur: nat, items: seq<ParameterItem>) returns (size: nat)
    requires cur >= 4 && |items| > 0 && ItemsAt(data, cur, items)
    ensures ItemsAt(data, cur + size, items[1..])
    ensures SetItems(data, cur, |items|) == [items[0]] + SetItems(data, cur + size, |items[1..]|)
  {
    size := ParameterItemOf(data[cur..]).value.1;
    SetItemsTake(data, cur, |items|, items[0], size);
    assert |items[1..]| == |items| - 1;
  }

  // The item loop returns a run of items that reads one after another.
  lemma {:induction false} SetItemsAt(data: seq<byte>, cur: nat, items: seq<ParameterItem>)
    requires cur >= 4 && ItemsAt(data, cur, items)
    ensures SetItems(data, cur, |items|) == items
    decreases |items|
  {
    if |items| > 0 {
      var size := ItemsAtHead(data, cur, items);
      SetItemsAt(data, cur + size, items[1..]);
      ConsSlice(items);
    }
  }

  lemma ItemsAtCons(data: seq<byte>, cur: nat, items: seq<ParameterItem>, size: nat)
    requires |items| > 0 && cur < |data| && ParameterItemOf(data[cur..]) == Ok((items[0], size))
    requires ItemsAt(data, cur + size, items[1..])
    ensures ItemsAt(data, cur, items)
  {
  }

  // The first of a run of encoded items where the run starts.
  lemma ItemsConsAt(data: seq<byte>, cur: nat, items: seq<ParameterItem>)
    requires cur <= |data| && |items| > 0 && FlatItems(items) && data[cur..] == EncodeItems(items)
    ensures FlatItem(items[0]) && FlatItems(items[1..])
    ensures data[cur..] == EncodeItem(items[0]) + EncodeItems(items[1..])
  {
    ItemsCons(items);
  }

  // An encoded flat item reads back where it starts, and the bytes after it follow.
  lemma ItemAt(data: seq<byte>, cur: nat, item: ParameterItem, rest: seq<byte>) returns (size: nat)
    requires cur <= |data| && FlatItem(item) && data[cur..] == EncodeItem(item) + rest
    ensures cur + size <= |data| && cur < |data|
    ensures ParameterItemOf(data[cur..]) == Ok((item, size)) && data[cur + size..] == rest
  {
    ItemRoundTrip(item, rest);
    SliceAfter(data, cur, EncodeItem(item), rest);
    size := |EncodeItem(item)|;
  }

  // The first item of an encoded run, and the run of the others after it.
  lemma EncodedItemsHead(data: seq<byte>, cur: nat, items: seq<ParameterItem>) returns (size: nat)
    requires cur <= |data| && |items| > 0 && FlatItems(items) && data[cur..] == EncodeItems(items)
    ensures cur < |data| && cur + size <= |data| && ParameterItemOf(data[cur..]) == Ok((items[0], size))
    ensures FlatItems(items[1..]) && data[cur + size..] == EncodeItems(items[1..])
  {
    ItemsConsAt(data, cur, items);
    size := ItemAt(data, cur, items[0], EncodeItems(items[1..]));
  }

  // A run of encoded flat items reads one after another.
  lemma {:induction false} EncodedItemsAt(data: seq<byte>, cur: nat, items: seq<ParameterItem>)
    requires cur <= |data| && FlatItems(items) && data[cur..] == EncodeItems(items)
    ensures ItemsAt(data, cur, items)
    decreases |items|
  {
    if |items| > 0 {
      var size := EncodedItemsHead(data, cur, items);
      EncodedItemsAt(data, cur + size, items[1..]);
      ItemsAtCons(data, cur, items, size);
    }
  }

  // The item loop reads back a run of encoded flat items.
  lemma ItemsRoundTrip(data: seq<byte>, cur: nat, items: seq<ParameterItem>)
    requires cur >= 4 && cur <= |data|
    requires FlatItems(items)
    requires data[cur..] == EncodeItems(items)
    ensures SetItems(data, cur, |items|) == items
  {
    EncodedItemsAt(data, cur, items);
    SetItemsAt(data, cur, items);
  }

  // A flat set whose count is the number of its items reads back.
  lemma SetRoundTrip(ps: ParameterSet)
    requires FlatSet(ps) && ps.itemCount == |ps.items|
    ensures ParameterSetOf(EncodeSet(ps)) == Ok(ps)
  {
    var b := EncodeSet(ps);
    var c := FromI16(ps.itemCount);
    var tail := EncodeItems(ps.items);
    Le16Read([], ps.setId, Le16(c) + tail);
    Le16Read(Le16(ps.setId), c, tail);
    assert b == [] + Le16(ps.setId) + (Le16(c) + tail);
    assert b == Le16(ps.setId) + Le16(c) + tail;
    assert b[4..] == tail;
    ItemsRoundTrip(b, 4, ps.items);
  }

  // A nested set is credited with four bytes per item: never more than its
  // encoding, and exactly its encoding only when no item carries a value.
  lemma NestedSetSize(ps: ParameterSet)
    requires FlatSet(ps) && ps.itemCount == |ps.items|
    ensures ItemDataOf(EncodeSet(ps), PSet) == Ok((DSet(ps), 4 + 4 * |ps.items|))
    ensures 4 + 4 * |ps.items| <= |EncodeSet(ps)|
  {
    SetRoundTrip(ps);
    EncodeItemsLength(ps.items);
  }
}
