// Column definition control "cold"
// (crates/hwp-core/src/document/bodytext/ctrl_header/column_definition.rs,
// table 138 of the format): an attribute WORD, the spacing, one width per
// column unless the columns are equal, and optional divider-line fields.

module ColumnDefinition {
  import opened Bytes
  import opened Errors
  import opened BitFlags

  datatype ColumnType = Normal | Distributed | Parallel
  datatype ColumnDirection = Left | Right | Both

  datatype ColumnDefinitionAttribute = ColumnDefinitionAttribute(
    columnType: ColumnType,
    columnCount: byte,
    columnDirection: ColumnDirection,
    equalWidth: bool)

  datatype ColumnDefinition = ColumnDefinition(
    attribute: ColumnDefinitionAttribute,
    columnSpacing: i16,
    columnWidths: seq<i16>,
    attributeHigh: u16,
    dividerLineType: byte,
    dividerLineThickness: byte,
    dividerLineColor: u32)

  function ColumnTypeOf(c: nat): ColumnType
  {
    if c == 1 then Distributed else if c == 2 then Parallel else Normal
  }

  function ColumnDirectionOf(c: nat): ColumnDirection
  {
    if c == 1 then Right else if c == 2 then Both else Left
  }

  // Bits 0-1 type, 2-9 count (0 is read as one column), 10-11 direction,
  // bit 12 equal widths (table 139 of the format).  The fields are taken
  // with division and remainder, which select the same bits as the
  // source's shifts and masks.
  function ColumnAttributeOf(low: u16): (a: ColumnDefinitionAttribute)
    ensures a.columnCount >= 1
  {
    var count := (low / 4) % 0x100;
    ColumnDefinitionAttribute(ColumnTypeOf(low % 4), if count == 0 then 1 else count,
      ColumnDirectionOf((low / 0x400) % 4), (low / 0x1000) % 2 == 1)
  }

  function ColumnTypeCode(t: ColumnType): (c: nat)
    ensures c < 3 && ColumnTypeOf(c) == t
  {
    match t
    case Normal => 0
    case Distributed => 1
    case Parallel => 2
  }

  function ColumnDirectionCode(d: ColumnDirection): (c: nat)
    ensures c < 3 && ColumnDirectionOf(c) == d
  {
    match d
    case Left => 0
    case Right => 1
    case Both => 2
  }

  // The attribute WORD a writer produces.
  function ColumnAttributeBits(a: ColumnDefinitionAttribute): u16
  {
    ColumnTypeCode(a.columnType) + 4 * a.columnCount + 0x400 * ColumnDirectionCode(a.columnDirection) +
    (if a.equalWidth then 0x1000 else 0)
  }

  // The four fields of a WORD laid out field by field.
  lemma ColumnBits(v: nat, t: nat, c: nat, d: nat, e: nat)
    requires t < 4 && c < 0x100 && d < 4 && e < 2 && v == t + 4 * c + 0x400 * d + 0x1000 * e
    ensures v % 4 == t && v / 4 % 0x100 == c && v / 0x400 % 4 == d && v / 0x1000 % 2 == e
  {
    FieldIn(v, 0, 1, t, 4, c + 0x100 * (d + 4 * e));
    assert v / 1 == v;
    FieldIn(v, t, 4, c, 0x100, d + 4 * e);
    FieldIn(v, t + 4 * c, 0x400, d, 4, e);
    FieldIn(v, t + 4 * c + 0x400 * d, 0x1000, e, 2, 0);
  }

  lemma ColumnAttributeRoundTrip(a: ColumnDefinitionAttribute)
    requires a.columnCount >= 1
    ensures ColumnAttributeOf(ColumnAttributeBits(a)) == a
  {
    ColumnBits(ColumnAttributeBits(a), ColumnTypeCode(a.columnType), a.columnCount,
      ColumnDirectionCode(a.columnDirection), if a.equalWidth then 1 else 0);
  }

  // The number of widths read: none for equal columns, otherwise one per
  // column while two more bytes remain.
  function WidthCount(data: seq<byte>, a: ColumnDefinitionAttribute): (n: nat)
    requires |data| >= 12
    ensures 4 + 2 * n <= |data|
    ensures a.equalWidth ==> n == 0
    ensures !a.equalWidth ==> n <= a.columnCount && (n < a.columnCount ==> 4 + 2 * n + 2 > |data|)
  {
    if a.equalWidth then 0
    else if a.columnCount <= (|data| - 4) / 2 then a.columnCount
    else (|data| - 4) / 2
  }

  // parse_column_definition by absolute offsets; the fields after the widths
  // are 0 when they lie past the end.
  function ColumnDefinitionOf(data: seq<byte>): (r: Result<ColumnDefinition>)
    ensures r.Err? <==> |data| < 12
    ensures r.Err? ==> r.error == InsufficientData("Column definition", 12, |data|)
    ensures r.Ok? ==> var x := r.value;
      |x.columnWidths| == WidthCount(data, x.attribute) &&
      (forall k :: 0 <= k < |x.columnWidths| ==> x.columnWidths[k] == I16(data, 4 + 2 * k))
    ensures r.Ok? ==> var off := 4 + 2 * |r.value.columnWidths|;
      (off + 2 > |data| ==> r.value.attributeHigh == 0) &&
      (off + 2 >= |data| ==> r.value.dividerLineType == 0) &&
      (off + 3 >= |data| ==> r.value.dividerLineThickness == 0) &&
      (off + 8 > |data| ==> r.value.dividerLineColor == 0)
  {
    if |data| < 12 then Err(InsufficientData("Column definition", 12, |data|))
    else
      var attribute := ColumnAttributeOf(U16(data, 0));
      var n := WidthCount(data, attribute);
      var off := 4 + 2 * n;
      Ok(ColumnDefinition(attribute, I16(data, 2), seq(n, k requires 0 <= k < n => I16(data, 4 + 2 * k)),
        if off + 2 <= |data| then U16(data, off) else 0,
        if off + 2 < |data| then data[off + 2] else 0,
        if off + 3 < |data| then data[off + 3] else 0,
        if off + 8 <= |data| then U32(data, off + 4) else 0))
  }

  // parse_column_definition: the widths loop stops at the column count or
  // at the end of the data.
  method ParseColumnDefinition(data: seq<byte>) returns (r: Result<ColumnDefinition>)
    ensures r == ColumnDefinitionOf(data)
  {
    if |data| < 12 {
      return Err(InsufficientData("Column definition", 12, |data|));
    }
    var offset := 0;
    var attributeLow := U16(data, offset);
    offset := offset + 2;
    var attribute := ColumnAttributeOf(attributeLow);
    var columnSpacing := I16(data, offset);
    offset := offset + 2;
    var columnWidths: seq<i16> := [];
    if !attribute.equalWidth {
      var i := 0;
      while i < attribute.columnCount
        invariant i <= attribute.columnCount && i <= (|data| - 4) / 2
        invariant offset == 4 + 2 * i && |columnWidths| == i
        invariant forall k :: 0 <= k < i ==> columnWidths[k] == I16(data, 4 + 2 * k)
      {
        if offset + 2 <= |data| {
          columnWidths := columnWidths + [I16(data, offset)];
          offset := offset + 2;
          i := i + 1;
        } else {
          break;
        }
      }
    }
    var n := WidthCount(data, attribute);
    assert columnWidths == seq(n, k requires 0 <= k < n => I16(data, 4 + 2 * k));
    var attributeHigh := if offset + 2 <= |data| then U16(data, offset) else 0;
    offset := offset + 2;
    var dividerLineType := if offset < |data| then data[offset] else 0;
    offset := offset + 1;
    var dividerLineThickness := if offset < |data| then data[offset] else 0;
    offset := offset + 1;
    var dividerLineColor := if offset + 4 <= |data| then U32(data, offset) else 0;
    r := Ok(ColumnDefinition(attribute, columnSpacing, columnWidths, attributeHigh, dividerLineType,
      dividerLineThickness, dividerLineColor));
  }
}
