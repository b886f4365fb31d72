// The table control's record (crates/hwp-core/src/document/bodytext/table.rs,
// tables 74 to 78 of the format): the table attributes with the row sizes,
// the border-fill id and, from version 5010 on, the zone list. The cell
// list is never built from this record; cells come from the list headers
// beneath it in the record tree.

module Table {
  import opened Bytes
  import opened Errors
  import ListHeader

  datatype PageBreakBehavior = NoBreak | BreakByCell | NoBreakOther

  datatype TableAttribute = TableAttribute(pageBreak: PageBreakBehavior, headerRowRepeat: bool)

  datatype TablePadding = TablePadding(left: i16, right: i16, top: i16, bottom: i16)

  datatype TableZone = TableZone(startCol: u16, startRow: u16, endCol: u16, endRow: u16, borderFillId: u16)

  datatype TableAttributes = TableAttributes(
    attribute: TableAttribute,
    rowCount: u16,
    colCount: u16,
    cellSpacing: i16,
    padding: TablePadding,
    rowSizes: seq<i16>,
    borderFillId: u16,
    zones: seq<TableZone>)

  datatype CellAttributes = CellAttributes(
    colAddress: u16, rowAddress: u16, colSpan: u16, rowSpan: u16, width: u32, height: u32,
    leftMargin: i16, rightMargin: i16, topMargin: i16, bottomMargin: i16, borderFillId: u16)

  // A cell without its paragraphs, which the record tree supplies.
  datatype TableCell = TableCell(listHeader: ListHeader.ListHeader, cellAttributes: CellAttributes)

  datatype Table = Table(attributes: TableAttributes, cells: seq<TableCell>)

  // The smallest version with a zone list.
  const ZoneVersion := 5010

  // parse_table_attribute: bits 0-1 (3 falls back to NoBreak) and bit 2.
  function TableAttributeOf(value: u32): (a: TableAttribute)
    ensures a.pageBreak == BreakByCell <==> value % 4 == 1
    ensures a.pageBreak == NoBreakOther <==> value % 4 == 2
    ensures a.headerRowRepeat <==> (value / 4) % 2 == 1
  {
    TableAttribute(
      match value % 4
      case 1 => BreakByCell
      case 2 => NoBreakOther
      case _ => NoBreak,
      (value / 4) % 2 == 1)
  }

  function TableAttributeBits(a: TableAttribute): (v: u32)
    ensures v < 8
  {
    (match a.pageBreak case NoBreak => 0 case BreakByCell => 1 case NoBreakOther => 2) +
    (if a.headerRowRepeat then 4 else 0)
  }

  lemma TableAttributeRoundTrip(a: TableAttribute)
    ensures TableAttributeOf(TableAttributeBits(a)) == a
  {
  }

  // Only bits 0-2 matter.
  lemma TableAttributeLowBits(value: u32)
    ensures TableAttributeOf(value) == TableAttributeOf(value % 8)
  {
    var q, m := value / 8, value % 8;
    assert value == 8 * q + m;
    assert value / 4 == 2 * q + m / 4;
  }

  // The row sizes that follow the fixed fields at offset 18.
  function RowSizesAt(data: seq<byte>, n: nat): (rows: seq<i16>)
    requires 18 + 2 * n <= |data|
    ensures |rows| == n
    ensures forall k :: 0 <= k < n ==> rows[k] == I16(data, 18 + 2 * k)
  {
    if n == 0 then [] else RowSizesAt(data, n - 1) + [I16(data, 18 + 2 * (n - 1))]
  }

  // How many of the n row sizes the loop reads before the data runs out.
  function RowsRead(data: seq<byte>, n: nat): (k: nat)
    requires |data| >= 18
    ensures k <= n && 18 + 2 * k <= |data|
    ensures k < n ==> |data| < 18 + 2 * k + 2
  {
    if n <= (|data| - 18) / 2 then n else (|data| - 18) / 2
  }

  function ZoneAt(data: seq<byte>, o: nat): TableZone
    requires o + 10 <= |data|
  {
    TableZone(U16(data, o), U16(data, o + 2), U16(data, o + 4), U16(data, o + 6), U16(data, o + 8))
  }

  function ZonesAt(data: seq<byte>, start: nat, n: nat): (zones: seq<TableZone>)
    requires start + 10 * n <= |data|
    ensures |zones| == n
    ensures forall k :: 0 <= k < n ==> zones[k] == ZoneAt(data, start + 10 * k)
  {
    if n == 0 then [] else ZonesAt(data, start, n - 1) + [ZoneAt(data, start + 10 * (n - 1))]
  }

  // The zone loop: every zone, or an error at the first one that does not fit.
  function ZonesOf(data: seq<byte>, start: nat, n: nat): (r: Result<seq<TableZone>>)
    requires start <= |data|
    ensures r.Err? <==> start + 10 * n > |data|
    ensures r.Err? ==> r.error == InsufficientData("zone attributes", 10, (|data| - start) % 10)
    ensures r.Ok? ==> r.value == ZonesAt(data, start, n)
  {
    if start + 10 * n > |data| then Err(InsufficientData("zone attributes", 10, (|data| - start) % 10))
    else Ok(ZonesAt(data, start, n))
  }

  // Everything after the row sizes, once the border-fill id is known to fit.
  function TableAttributesTail(data: seq<byte>, version: u32, n: nat): (r: Result<TableAttributes>)
    requires |data| >= 22 && n == U16(data, 4) && 18 + 2 * n + 2 <= |data|
  {
    var off := 20 + 2 * n;
    var zones :=
      if version < ZoneVersion then Ok([])
      else if off + 2 > |data| then Err(InsufficientData("valid zone info size", 2, |data| - off))
      else ZonesOf(data, off + 2, U16(data, off) / 10);
    match zones
    case Err(e) => Err(e)
    case Ok(zs) =>
      Ok(TableAttributes(TableAttributeOf(U32(data, 0)), n, U16(data, 6), I16(data, 8),
        TablePadding(I16(data, 10), I16(data, 12), I16(data, 14), I16(data, 16)),
        RowSizesAt(data, n), U16(data, 18 + 2 * n), zs))
  }

  // parse_table_attributes as written: when the data ends inside the row
  // sizes or right after them, the border-fill id is read past the end.
  function TableAttributesAsWritten(data: seq<byte>, version: u32): (r: Outcome<TableAttributes>)
  {
    if |data| < 22 then Returned(Err(InsufficientData("Table attributes", 22, |data|)))
    else
      var n := U16(data, 4);
      if 18 + 2 * RowsRead(data, n) + 2 > |data| then IndexOutOfBounds
      else Returned(TableAttributesTail(data, version, n))
  }

  // The evidently intended parser: the missing bounds check reports the
  // border-fill id as insufficient data, like the zone fields after it.
  function TableAttributesOf(data: seq<byte>, version: u32): (r: Result<TableAttributes>)
    ensures |data| < 22 ==> r == Err(InsufficientData("Table attributes", 22, |data|))
    ensures r.Ok? ==> |data| >= 22 && r.value.rowCount == U16(data, 4) && r.value.colCount == U16(data, 6)
    ensures r.Ok? ==> 20 + 2 * U16(data, 4) <= |data| && |r.value.rowSizes| == r.value.rowCount
    ensures r.Ok? && version >= ZoneVersion ==> 22 + 2 * U16(data, 4) <= |data|
    ensures r.Ok? ==> forall k :: 0 <= k < r.value.rowCount ==> r.value.rowSizes[k] == I16(data, 18 + 2 * k)
    ensures r.Ok? ==> r.value.borderFillId == U16(data, 18 + 2 * U16(data, 4))
    ensures r.Ok? && version < ZoneVersion ==> r.value.zones == []
    ensures r.Ok? && version >= ZoneVersion ==> |r.value.zones| == U16(data, 20 + 2 * U16(data, 4)) / 10
  {
    if |data| < 22 then Err(InsufficientData("Table attributes", 22, |data|))
    else
      var n := U16(data, 4);
      var off := 18 + 2 * RowsRead(data, n);
      if off + 2 > |data| then Err(InsufficientData("border fill id", 2, |data| - off))
      else TableAttributesTail(data, version, n)
  }

  // Table::parse over the corrected attribute parser.
  function TableOf(data: seq<byte>, version: u32): (r: Result<Table>)
    ensures |data| == 0 ==> r == Err(InsufficientData("Table data", 1, 0))
    ensures r.Ok? ==> r.value.cells == [] && TableAttributesOf(data, version) == Ok(r.value.attributes)
  {
    if |data| == 0 then Err(InsufficientData("Table data", 1, 0))
    else
      match TableAttributesOf(data, version)
      case Ok(a) => Ok(Table(a, []))
      case Err(e) => Err(e)
  }

  // The counterexample: 22 bytes announcing two rows. The row sizes take
  // bytes 18..22 and the border-fill id would be bytes 22..24.
  lemma TableBorderFillPastEnd()
    ensures var data := [0, 0, 0, 0, 2, 0] + Zeros(16);
      |data| == 22 && TableAttributesAsWritten(data, ZoneVersion) == IndexOutOfBounds &&
      TableAttributesOf(data, ZoneVersion) == Err(InsufficientData("border fill id", 2, 0))
  {
    var data := [0, 0, 0, 0, 2, 0] + Zeros(16);
    assert U16(data, 4) == 2;
  }

  // Wherever the code as written returns, the corrected parser returns the same.
  lemma TableAttributesAgree(data: seq<byte>, version: u32)
    requires TableAttributesAsWritten(data, version) != IndexOutOfBounds
    ensures TableAttributesAsWritten(data, version) == Returned(TableAttributesOf(data, version))
  {
  }

  // The writer side: the attribute word, then WORDs only.
  function ZoneHalves(zones: seq<TableZone>): (hs: seq<u16>)
    ensures |hs| == 5 * |zones|
  {
    if |zones| == 0 then []
    else
      var z := zones[0];
      [z.startCol, z.startRow, z.endCol, z.endRow, z.borderFillId] + ZoneHalves(zones[1..])
  }

  // The five WORDs of the first zone, then those of the others.
  lemma ZoneHalvesCons(zones: seq<TableZone>)
    requires |zones| > 0
    ensures var z, hs := zones[0], ZoneHalves(zones);
      hs[0] == z.startCol && hs[1] == z.startRow && hs[2] == z.endCol && hs[3] == z.endRow &&
      hs[4] == z.borderFillId && hs[5..] == ZoneHalves(zones[1..])
  {
  }

  lemma {:induction false} ZoneHalvesAt(zones: seq<TableZone>, k: nat)
    requires k < |zones|
    ensures var z, hs := zones[k], ZoneHalves(zones);
      hs[5 * k] == z.startCol && hs[5 * k + 1] == z.startRow && hs[5 * k + 2] == z.endCol &&
      hs[5 * k + 3] == z.endRow && hs[5 * k + 4] == z.borderFillId
  {
    ZoneHalvesCons(zones);
    if k > 0 {
      var hs, tl := ZoneHalves(zones), ZoneHalves(zones[1..]);
      var j := 5 * (k - 1);
      ZoneHalvesAt(zones[1..], k - 1);
      assert zones[1..][k - 1] == zones[k];
      assert 5 * k == 5 + j;
      assert hs[5 + j] == tl[j] && hs[5 + j + 1] == tl[j + 1] && hs[5 + j + 2] == tl[j + 2];
      assert hs[5 + j + 3] == tl[j + 3] && hs[5 + j + 4] == tl[j + 4];
    }
  }

  function TableHalves(t: TableAttributes, version: u32): (hs: seq<u16>)
    requires 10 * |t.zones| < 0x1_0000
  {
    [t.rowCount, t.colCount, FromI16(t.cellSpacing), FromI16(t.padding.left), FromI16(t.padding.right),
     FromI16(t.padding.top), FromI16(t.padding.bottom)] +
    seq(|t.rowSizes|, k requires 0 <= k < |t.rowSizes| => FromI16(t.rowSizes[k])) +
    [t.borderFillId] +
    (if version >= ZoneVersion then [10 * |t.zones|] + ZoneHalves(t.zones) else [])
  }

  // One row size per row, a zone count that fits its WORD, no zones before
  // version 5010, and at least the 22 bytes the parser demands.
  predicate WellFormedTable(t: TableAttributes, version: u32)
  {
    |t.rowSizes| == t.rowCount && 10 * |t.zones| < 0x1_0000 &&
    (version < ZoneVersion ==> t.zones == [] && t.rowCount >= 1)
  }

  function EncodeTableAttributes(t: TableAttributes, version: u32): seq<byte>
    requires WellFormedTable(t, version)
  {
    Le32(TableAttributeBits(t.attribute)) + Halves(TableHalves(t, version))
  }

  lemma HalvesAfterWord(w: u32, hs: seq<u16>, i: nat)
    requires i < |hs|
    ensures U16(Le32(w) + Halves(hs), 4 + 2 * i) == hs[i]
  {
    HalfAfter(Le32(w), hs, i);
  }

  lemma WordBeforeHalves(w: u32, hs: seq<u16>)
    ensures U32(Le32(w) + Halves(hs), 0) == w
  {
    Le32Read([], w, Halves(hs));
    assert [] + Le32(w) + Halves(hs) == Le32(w) + Halves(hs);
  }

  lemma TableFixedLayout(t: TableAttributes, version: u32)
    requires WellFormedTable(t, version)
    ensures var s := EncodeTableAttributes(t, version); var n := t.rowCount;
      |s| >= 22 + 2 * n - (if version >= ZoneVersion then 0 else 2) &&
      U32(s, 0) == TableAttributeBits(t.attribute) && U16(s, 4) == n && U16(s, 6) == t.colCount &&
      I16(s, 8) == t.cellSpacing &&
      TablePadding(I16(s, 10), I16(s, 12), I16(s, 14), I16(s, 16)) == t.padding &&
      U16(s, 18 + 2 * n) == t.borderFillId &&
      (version >= ZoneVersion ==> U16(s, 20 + 2 * n) == 10 * |t.zones|)
  {
    var w := TableAttributeBits(t.attribute);
    var hs := TableHalves(t, version);
    var n: nat := t.rowCount;
    WordBeforeHalves(w, hs);
    HalvesAfterWord(w, hs, 0);
    HalvesAfterWord(w, hs, 1);
    HalvesAfterWord(w, hs, 2);
    HalvesAfterWord(w, hs, 3);
    HalvesAfterWord(w, hs, 4);
    HalvesAfterWord(w, hs, 5);
    HalvesAfterWord(w, hs, 6);
    HalvesAfterWord(w, hs, 7 + n);
    if version >= ZoneVersion {
      HalvesAfterWord(w, hs, 8 + n);
    }
  }

  lemma TableRowsLayout(t: TableAttributes, version: u32)
    requires WellFormedTable(t, version)
    ensures var s := EncodeTableAttributes(t, version);
      20 + 2 * t.rowCount <= |s| && RowSizesAt(s, t.rowCount) == t.rowSizes
  {
    var w := TableAttributeBits(t.attribute);
    var hs := TableHalves(t, version);
    var s := EncodeTableAttributes(t, version);
    forall k | 0 <= k < t.rowCount
      ensures I16(s, 18 + 2 * k) == t.rowSizes[k]
    {
      HalvesAfterWord(w, hs, 7 + k);
      assert hs[7 + k] == FromI16(t.rowSizes[k]);
    }
  }

  lemma TableZoneLayout(t: TableAttributes, version: u32, k: nat)
    requires WellFormedTable(t, version) && version >= ZoneVersion && k < |t.zones|
    ensures var s := EncodeTableAttributes(t, version);
      22 + 2 * t.rowCount + 10 * |t.zones| <= |s| && ZoneAt(s, 22 + 2 * t.rowCount + 10 * k) == t.zones[k]
  {
    var w := TableAttributeBits(t.attribute);
    var hs := TableHalves(t, version);
    var zh := ZoneHalves(t.zones);
    var i := 9 + t.rowCount + 5 * k;
    ZoneHalvesAt(t.zones, k);
    assert hs[i] == zh[5 * k] && hs[i + 1] == zh[5 * k + 1] && hs[i + 2] == zh[5 * k + 2];
    assert hs[i + 3] == zh[5 * k + 3] && hs[i + 4] == zh[5 * k + 4];
    HalvesAfterWord(w, hs, i);
    HalvesAfterWord(w, hs, i + 1);
    HalvesAfterWord(w, hs, i + 2);
    HalvesAfterWord(w, hs, i + 3);
    HalvesAfterWord(w, hs, i + 4);
  }

  lemma TableZonesRead(t: TableAttributes, version: u32)
    requires WellFormedTable(t, version) && version >= ZoneVersion
    ensures var s := EncodeTableAttributes(t, version); var n := t.rowCount;
      22 + 2 * n <= |s| && ZonesOf(s, 22 + 2 * n, U16(s, 20 + 2 * n) / 10) == Ok(t.zones)
  {
    var s := EncodeTableAttributes(t, version);
    var n: nat := t.rowCount;
    var z := |t.zones|;
    TableFixedLayout(t, version);
    if z > 0 {
      TableZoneLayout(t, version, 0);
    }
    DivUnique(10 * z, 10, z, 0);
    assert U16(s, 20 + 2 * n) / 10 == z;
    var zs := ZonesAt(s, 22 + 2 * n, z);
    forall k | 0 <= k < z
      ensures zs[k] == t.zones[k]
    {
      TableZoneLayout(t, version, k);
    }
    assert zs == t.zones;
  }

  // Every well-formed table record is read back by the corrected parser.
  lemma TableAttributesRoundTrip(t: TableAttributes, version: u32)
    requires WellFormedTable(t, version)
    ensures TableAttributesOf(EncodeTableAttributes(t, version), version) == Ok(t)
  {
    var s := EncodeTableAttributes(t, version);
    var n: nat := t.rowCount;
    TableFixedLayout(t, version);
    TableRowsLayout(t, version);
    TableAttributeRoundTrip(t.attribute);
    assert RowsRead(s, n) == n;
    if version >= ZoneVersion {
      TableZonesRead(t, version);
    }
    assert TableAttributesTail(s, version, n) == Ok(t);
  }

  // The row loop, the bounds check the code misses, and the zone loop.
  method ReadRowSizes(data: seq<byte>, n: nat) returns (rowSizes: seq<i16>, offset: nat)
    requires |data| >= 18
    ensures offset == 18 + 2 * RowsRead(data, n)
    ensures RowsRead(data, n) == n ==> rowSizes == RowSizesAt(data, n)
    ensures RowsRead(data, n) < n ==> |rowSizes| < n
  {
    rowSizes := [];
    offset := 18;
    var i := 0;
    while i < n
      invariant 0 <= i <= n && offset == 18 + 2 * i && offset <= |data|
      invariant rowSizes == RowSizesAt(data, i)
    {
      if offset + 2 > |data| {
        break;
      }
      rowSizes := rowSizes + [I16(data, offset)];
      offset := offset + 2;
      i := i + 1;
    }
    assert i == RowsRead(data, n);
  }

  method ReadZones(data: seq<byte>, start: nat, n: nat) returns (r: Result<seq<TableZone>>)
    requires start <= |data|
    ensures r == ZonesOf(data, start, n)
  {
    var zones: seq<TableZone> := [];
    var offset := start;
    var k := 0;
    while k < n
      invariant 0 <= k <= n && offset == start + 10 * k && offset <= |data|
      invariant zones == ZonesAt(data, start, k)
    {
      if offset + 10 > |data| {
        assert |data| - start == 10 * k + (|data| - offset);
        return Err(InsufficientData("zone attributes", 10, |data| - offset));
      }
      zones := zones + [TableZone(U16(data, offset), U16(data, offset + 2), U16(data, offset + 4),
        U16(data, offset + 6), U16(data, offset + 8))];
      offset := offset + 10;
      k := k + 1;
    }
    r := Ok(zones);
  }

  method ParseTableAttributes(data: seq<byte>, version: u32) returns (r: Result<TableAttributes>)
    ensures r == TableAttributesOf(data, version)
  {
    if |data| < 22 {
      return Err(InsufficientData("Table attributes", 22, |data|));
    }
    var attributeValue := U32(data, 0);
    var rowCount := U16(data, 4);
    var colCount := U16(data, 6);
    var cellSpacing := I16(data, 8);
    var padding := TablePadding(I16(data, 10), I16(data, 12), I16(data, 14), I16(data, 16));
    var rowSizes, offset := ReadRowSizes(data, rowCount);
    if |rowSizes| != rowCount {
      rowSizes := [];
    }
    if offset + 2 > |data| {
      return Err(InsufficientData("border fill id", 2, |data| - offset));
    }
    var borderFillId := U16(data, offset);
    offset := offset + 2;
    var zones: seq<TableZone> := [];
    if version >= ZoneVersion {
      if offset + 2 > |data| {
        return Err(InsufficientData("valid zone info size", 2, |data| - offset));
      }
      var validZoneInfoSize: nat := U16(data, offset);
      offset := offset + 2;
      var read := ReadZones(data, offset, validZoneInfoSize / 10);
      if read.Err? {
        return Err(read.error);
      }
      zones := read.value;
    }
    var finalRowSizes := if rowCount == 0 || |rowSizes| != rowCount then [] else rowSizes;
    r := Ok(TableAttributes(TableAttributeOf(attributeValue), rowCount, colCount, cellSpacing, padding,
      finalRowSizes, borderFillId, zones));
  }

  method ParseTable(data: seq<byte>, version: u32) returns (r: Result<Table>)
    ensures r == TableOf(data, version)
  {
    if |data| == 0 {
      return Err(InsufficientData("Table data", 1, 0));
    }
    var attributes := ParseTableAttributes(data, version);
    if attributes.Err? {
      return Err(attributes.error);
    }
    r := Ok(Table(attributes.value, []));
  }
}
