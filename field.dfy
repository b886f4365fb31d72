// Field-start control "%%%%"
// (crates/hwp-core/src/document/bodytext/ctrl_header/field.rs, table 152 of
// the format): the field type id, attributes, a length-prefixed UTF-16
// command and an optional id.

module CtrlField {
  import opened Bytes
  import opened Errors
  import opened Utf16
  import opened CtrlIds

  datatype Field = Field(
    fieldType: seq<byte>,
    attribute: u32,
    otherAttr: byte,
    commandLen: u16,
    command: string,
    id: u32)

  // The command: 2·len bytes from offset 11, empty when the length is 0,
  // when they do not fit, or when they do not decode.
  function CommandOf(data: seq<byte>, n: nat): (command: string)
    requires |data| >= 11
    ensures command != "" ==> 0 < n && 11 + 2 * n <= |data|
  {
    if n > 0 && 11 + 2 * n <= |data| then DecodeUtf16LeOrEmpty(data[11..11 + 2 * n]) else ""
  }

  // parse_field by absolute offsets.
  function FieldOf(data: seq<byte>): (r: Result<Field>)
    ensures r.Err? <==> |data| < 15
    ensures r.Err? ==> r.error == InsufficientData("Field data", 15, |data|)
    ensures r.Ok? ==> r.value.fieldType == ReversedId(data, 0) && r.value.commandLen == U16(data, 9)
    ensures r.Ok? && r.value.id != 0 ==> 11 + 2 * U16(data, 9) + 4 <= |data|
  {
    if |data| < 15 then Err(InsufficientData("Field data", 15, |data|))
    else
      var n := U16(data, 9);
      var off := 11 + 2 * n;
      Ok(Field(ReversedId(data, 0), U32(data, 4), data[8], n, CommandOf(data, n),
        if off + 4 <= |data| then U32(data, off) else 0))
  }

  // parse_field with its running offset.
  method ParseField(data: seq<byte>) returns (r: Result<Field>)
    ensures r == FieldOf(data)
  {
    if |data| < 15 {
      return Err(InsufficientData("Field data", 15, |data|));
    }
    var offset := 0;
    var fieldType := ReversedId(data, offset);
    offset := offset + 4;
    var attribute := U32(data, offset);
    offset := offset + 4;
    var otherAttr := data[offset];
    offset := offset + 1;
    var commandLen: nat := U16(data, offset);
    offset := offset + 2;
    var command := "";
    if commandLen > 0 && offset + commandLen * 2 <= |data| {
      command := DecodeUtf16LeOrEmpty(data[offset..offset + commandLen * 2]);
    }
    offset := offset + commandLen * 2;
    var id := if offset + 4 <= |data| then U32(data, offset) else 0;
    r := Ok(Field(fieldType, attribute, otherAttr, commandLen, command, id));
  }

  // The writer side: the field type is four bytes whose last is not NUL,
  // and the length counts the command's UTF-16 units.
  predicate WellFormedField(x: Field)
  {
    |x.fieldType| == 4 && x.fieldType[3] != 0 && x.commandLen == |EncodeUnits(x.command)|
  }

  function EncodeField(x: Field): (r: seq<byte>)
    requires WellFormedField(x)
  {
    IdBytes(x.fieldType) + Le32(x.attribute) + [x.otherAttr] + Le16(x.commandLen) +
    EncodeUtf16Le(x.command) + Le32(x.id)
  }

  lemma FieldLayout(a: seq<byte>, attr: u32, other: byte, n: u16, e: seq<byte>, id: u32)
    requires |a| == 4 && |e| == 2 * n
    ensures var s := a + Le32(attr) + [other] + Le16(n) + e + Le32(id);
      |s| == 15 + 2 * n && s[..4] == a && U32(s, 4) == attr && s[8] == other && U16(s, 9) == n &&
      s[11..11 + 2 * n] == e && U32(s, 11 + 2 * n) == id
  {
    var s := a + Le32(attr) + [other] + Le16(n) + e + Le32(id);
    Le32Read(a, attr, [other] + Le16(n) + e + Le32(id));
    assert s == a + Le32(attr) + ([other] + Le16(n) + e + Le32(id));
    var p := a + Le32(attr) + [other];
    assert s == p + Le16(n) + (e + Le32(id));
    Le16Read(p, n, e + Le32(id));
    MiddleSlice(p + Le16(n), e, Le32(id));
    Le32Read(p + Le16(n) + e, id, []);
    assert s == p + Le16(n) + e + Le32(id) + [];
  }

  // Every well-formed field is read back from its encoding.
  lemma FieldRoundTrip(x: Field)
    requires WellFormedField(x)
    ensures FieldOf(EncodeField(x)) == Ok(x)
  {
    var e := EncodeUtf16Le(x.command);
    var s := EncodeField(x);
    FieldLayout(IdBytes(x.fieldType), x.attribute, x.otherAttr, x.commandLen, e, x.id);
    ReversedIdBytes([], x.fieldType, s[4..]);
    assert s == [] + IdBytes(x.fieldType) + s[4..];
    DecodeEncodeUtf16Le(x.command);
    assert CommandOf(s, x.commandLen) == x.command;
  }
}
