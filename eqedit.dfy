// The equation editor record (Table 105 of the format,
// crates/hwp-core/src/document/bodytext/eqedit.rs): an attribute DWORD, a
// script length, the script, the character size and colour, the base line,
// and then a version string and a font name. As written, all three strings
// take their length from the one script-length WORD.

module EqEdit {
  import opened Bytes
  import opened Errors
  import opened Text
  import opened Utf16

  datatype EqEdit = EqEdit(
    attribute: u32,
    scriptLength: u16,
    script: string,
    characterSize: u32,
    characterColor: u32,
    baseLine: i16,
    versionInfo: string,
    fontName: string)

  // The three UTF-16 strings of a record whose script length is n, at
  // offsets 6, 16 + 2n and 16 + 4n.
  function ScriptBytes(data: seq<byte>, n: nat): seq<byte>
    requires 16 + 6 * n <= |data|
  {
    data[6..6 + 2 * n]
  }

  function VersionBytes(data: seq<byte>, n: nat): seq<byte>
    requires 16 + 6 * n <= |data|
  {
    data[16 + 2 * n..16 + 4 * n]
  }

  function FontBytes(data: seq<byte>, n: nat): seq<byte>
    requires 16 + 6 * n <= |data|
  {
    data[16 + 4 * n..16 + 6 * n]
  }

  // EqEdit::parse by absolute offsets: 16 + 6n bytes, and every string must
  // decode.
  function EqEditOf(data: seq<byte>): (r: Result<EqEdit>)
    ensures |data| < 16 ==> r == Err(InsufficientData("EqEdit", 16, |data|))
    ensures 16 <= |data| < 16 + 6 * U16(data, 4) ==>
      r == Err(InsufficientData("EqEdit (script_length=" + Decimal(U16(data, 4)) + ")", 16 + 6 * U16(data, 4), |data|))
    ensures r.Ok? <==> (16 <= |data| && 16 + 6 * U16(data, 4) <= |data| &&
                        DecodeUtf16Le(ScriptBytes(data, U16(data, 4))).Ok? &&
                        DecodeUtf16Le(VersionBytes(data, U16(data, 4))).Ok? &&
                        DecodeUtf16Le(FontBytes(data, U16(data, 4))).Ok?)
    ensures 16 <= |data| && 16 + 6 * U16(data, 4) <= |data| && r.Err? ==> r == Err(EncodingError)
    ensures r.Ok? ==> var n := U16(data, 4);
      r.value.attribute == U32(data, 0) && r.value.scriptLength == n &&
      r.value.characterSize == U32(data, 6 + 2 * n) && r.value.characterColor == U32(data, 10 + 2 * n) &&
      r.value.baseLine == I16(data, 14 + 2 * n)
    ensures r.Ok? ==> var n := U16(data, 4);
      DecodeUtf16Le(ScriptBytes(data, n)) == Ok(r.value.script) &&
      DecodeUtf16Le(VersionBytes(data, n)) == Ok(r.value.versionInfo) &&
      DecodeUtf16Le(FontBytes(data, n)) == Ok(r.value.fontName)
  {
    if |data| < 16 then Err(InsufficientData("EqEdit", 16, |data|))
    else
      var n := U16(data, 4);
      if |data| < 16 + 6 * n then
        Err(InsufficientData("EqEdit (script_length=" + Decimal(n) + ")", 16 + 6 * n, |data|))
      else
        match DecodeUtf16Le(ScriptBytes(data, n))
        case Err(e) => Err(e)
        case Ok(script) =>
          match DecodeUtf16Le(VersionBytes(data, n))
          case Err(e) => Err(e)
          case Ok(versionInfo) =>
            match DecodeUtf16Le(FontBytes(data, n))
            case Err(e) => Err(e)
            case Ok(fontName) =>
              Ok(EqEdit(U32(data, 0), n, script, U32(data, 6 + 2 * n), U32(data, 10 + 2 * n),
                I16(data, 14 + 2 * n), versionInfo, fontName))
  }

  // EqEdit::parse with its running offset.
  method ParseEqEdit(data: seq<byte>) returns (r: Result<EqEdit>)
    ensures r == EqEditOf(data)
  {
    if |data| < 16 {
      return Err(InsufficientData("EqEdit", 16, |data|));
    }
    var offset := 0;
    var attribute := U32(data, offset);
    offset := offset + 4;
    var scriptLength := U16(data, offset);
    offset := offset + 2;
    var n: nat := scriptLength;
    var required := 16 + 6 * n;
    if |data| < required {
      return Err(InsufficientData("EqEdit (script_length=" + Decimal(n) + ")", required, |data|));
    }
    var decoded := DecodeUtf16Le(ScriptBytes(data, n));
    if decoded.Err? {
      return Err(decoded.error);
    }
    var script := decoded.value;
    offset := offset + 2 * n;
    var characterSize := U32(data, offset);
    offset := offset + 4;
    var characterColor := U32(data, offset);
    offset := offset + 4;
    var baseLine := I16(data, offset);
    offset := offset + 2;
    decoded := DecodeUtf16Le(VersionBytes(data, n));
    if decoded.Err? {
      return Err(decoded.error);
    }
    var versionInfo := decoded.value;
    offset := offset + 2 * n;
    decoded := DecodeUtf16Le(FontBytes(data, n));
    if decoded.Err? {
      return Err(decoded.error);
    }
    var fontName := decoded.value;
    r := Ok(EqEdit(attribute, scriptLength, script, characterSize, characterColor, baseLine, versionInfo, fontName));
  }

  // The writer side: the three strings have the same number of UTF-16 units,
  // and that is the script length.
  predicate WellFormedEqEdit(q: EqEdit)
  {
    |EncodeUnits(q.script)| == q.scriptLength &&
    |EncodeUnits(q.versionInfo)| == q.scriptLength &&
    |EncodeUnits(q.fontName)| == q.scriptLength
  }

  function EncodeEqEdit(q: EqEdit): seq<byte>
  {
    Le32(q.attribute) + Le16(q.scriptLength) + EncodeUtf16Le(q.script) + Le32(q.characterSize) +
    Le32(q.characterColor) + Le16(FromI16(q.baseLine)) + EncodeUtf16Le(q.versionInfo) +
    EncodeUtf16Le(q.fontName)
  }

  lemma HeadLayout(attr: u32, n: u16, e1: seq<byte>, tail: seq<byte>)
    requires |e1| == 2 * n
    ensures var s := Le32(attr) + Le16(n) + e1 + tail;
      U32(s, 0) == attr && U16(s, 4) == n && s[6..6 + 2 * n] == e1 && s[6 + 2 * n..] == tail
  {
    var s := Le32(attr) + Le16(n) + e1 + tail;
    assert s == [] + Le32(attr) + (Le16(n) + e1 + tail);
    Le32Read([], attr, Le16(n) + e1 + tail);
    assert s == Le32(attr) + Le16(n) + (e1 + tail);
    Le16Read(Le32(attr), n, e1 + tail);
    MiddleSlice(Le32(attr) + Le16(n), e1, tail);
  }

  lemma MiddleLayout(size: u32, color: u32, base: u16, e2: seq<byte>, e3: seq<byte>)
    ensures var t := Le32(size) + Le32(color) + Le16(base) + e2 + e3;
      U32(t, 0) == size && U32(t, 4) == color && U16(t, 8) == base && t[10..10 + |e2|] == e2 &&
      t[10 + |e2|..] == e3
  {
    var t := Le32(size) + Le32(color) + Le16(base) + e2 + e3;
    assert t == [] + Le32(size) + (Le32(color) + Le16(base) + e2 + e3);
    Le32Read([], size, Le32(color) + Le16(base) + e2 + e3);
    assert t == Le32(size) + Le32(color) + (Le16(base) + e2 + e3);
    Le32Read(Le32(size), color, Le16(base) + e2 + e3);
    assert t == Le32(size) + Le32(color) + Le16(base) + (e2 + e3);
    Le16Read(Le32(size) + Le32(color), base, e2 + e3);
    MiddleSlice(Le32(size) + Le32(color) + Le16(base), e2, e3);
  }

  // The fields after the script, read through the split head + tail.
  lemma TailFields(head: seq<byte>, size: u32, color: u32, base: u16, e2: seq<byte>, e3: seq<byte>, n: nat)
    requires |head| == 6 + 2 * n && |e2| == 2 * n && |e3| >= 2 * n
    ensures var s := head + (Le32(size) + Le32(color) + Le16(base) + e2 + e3);
      16 + 6 * n <= |s| && U32(s, 6 + 2 * n) == size && U32(s, 10 + 2 * n) == color &&
      U16(s, 14 + 2 * n) == base && VersionBytes(s, n) == e2 && FontBytes(s, n) == e3[..2 * n]
  {
    var tail := Le32(size) + Le32(color) + Le16(base) + e2 + e3;
    MiddleLayout(size, color, base, e2, e3);
    U32Skip(head, tail, 0);
    U32Skip(head, tail, 4);
    U16Skip(head, tail, 8);
    var s := head + tail;
    assert VersionBytes(s, n) == tail[10..10 + 2 * n];
    assert FontBytes(s, n) == tail[10 + 2 * n..10 + 4 * n];
  }

  lemma EqEditLayout(q: EqEdit, rest: seq<byte>)
    requires WellFormedEqEdit(q)
    ensures var s := EncodeEqEdit(q) + rest; var n := q.scriptLength;
      16 + 6 * n <= |s| && U32(s, 0) == q.attribute && U16(s, 4) == n &&
      ScriptBytes(s, n) == EncodeUtf16Le(q.script) &&
      U32(s, 6 + 2 * n) == q.characterSize && U32(s, 10 + 2 * n) == q.characterColor &&
      U16(s, 14 + 2 * n) == FromI16(q.baseLine) &&
      VersionBytes(s, n) == EncodeUtf16Le(q.versionInfo) && FontBytes(s, n) == EncodeUtf16Le(q.fontName)
  {
    var n: nat := q.scriptLength;
    var e1, e2, e3 := EncodeUtf16Le(q.script), EncodeUtf16Le(q.versionInfo), EncodeUtf16Le(q.fontName);
    var head := Le32(q.attribute) + Le16(q.scriptLength) + e1;
    var tail := Le32(q.characterSize) + Le32(q.characterColor) + Le16(FromI16(q.baseLine)) + e2 + (e3 + rest);
    assert EncodeEqEdit(q) + rest == head + tail;
    HeadLayout(q.attribute, q.scriptLength, e1, tail);
    TailFields(head, q.characterSize, q.characterColor, FromI16(q.baseLine), e2, e3 + rest, n);
    assert (e3 + rest)[..2 * n] == e3;
  }

  // Every well-formed record, followed by anything, is read back from its
  // encoding.
  lemma EqEditRoundTrip(q: EqEdit, rest: seq<byte>)
    requires WellFormedEqEdit(q)
    ensures EqEditOf(EncodeEqEdit(q) + rest) == Ok(q)
  {
    EqEditLayout(q, rest);
    DecodeEncodeUtf16Le(q.script);
    DecodeEncodeUtf16Le(q.versionInfo);
    DecodeEncodeUtf16Le(q.fontName);
  }
}
