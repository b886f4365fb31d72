// The style record of DocInfo (Table 47 of the format,
// crates/hwp-core/src/document/docinfo/style.rs): a length-prefixed local
// name, a length-prefixed English name, then eight bytes of fixed fields:
// the attribute byte (bits 0-2 give the style type), the next style id, the
// language id and the paragraph and character shape ids, of which only the
// one that matches the style type is kept.

module Style {
  import opened Bytes
  import opened Errors
  import opened Utf16
  import FaceName

  datatype StyleType = Paragraph | Character

  datatype Style = Style(
    localName: string,
    englishName: string,
    styleType: StyleType,
    nextStyleId: byte,
    langId: i16,
    paraShapeId: Option<u16>,
    charShapeId: Option<u16>)

  // StyleType::from_bits: bits 0-2 equal to 1 mean a character style, and
  // every other value falls back to a paragraph style.
  function StyleTypeOf(b: byte): (t: StyleType)
    ensures t == Character <==> b % 8 == 1
  {
    if b % 8 == 1 then Character else Paragraph
  }

  // The eight bytes of fixed fields from offset p, after both names.
  function StyleTailAt(data: seq<byte>, p: nat, localName: string, englishName: string): (r: Result<Style>)
    requires p <= |data|
    ensures p + 1 > |data| ==> r == Err(InsufficientData("Style attributes", 1, |data| - p))
    ensures p + 1 <= |data| < p + 2 ==> r == Err(InsufficientData("Style next style ID", 1, |data| - (p + 1)))
    ensures p + 2 <= |data| < p + 4 ==> r == Err(InsufficientData("Style language ID", 2, |data| - (p + 2)))
    ensures p + 4 <= |data| < p + 6 ==> r == Err(InsufficientData("Style paragraph shape ID", 2, |data| - (p + 4)))
    ensures p + 6 <= |data| < p + 8 ==> r == Err(InsufficientData("Style character shape ID", 2, |data| - (p + 6)))
    ensures p + 8 <= |data| <==> r.Ok?
    ensures r.Ok? ==> p + 8 <= |data| && r.value.localName == localName && r.value.englishName == englishName
    ensures r.Ok? ==> p + 8 <= |data| && r.value.styleType == StyleTypeOf(data[p]) &&
                      r.value.nextStyleId == data[p + 1] && r.value.langId == I16(data, p + 2)
    ensures r.Ok? ==> p + 8 <= |data| &&
                      r.value.paraShapeId == (if r.value.styleType == Paragraph then Some(U16(data, p + 4)) else None)
    ensures r.Ok? ==> p + 8 <= |data| &&
                      r.value.charShapeId == (if r.value.styleType == Character then Some(U16(data, p + 6)) else None)
  {
    if p + 1 > |data| then Err(InsufficientData("Style attributes", 1, |data| - p))
    else if p + 2 > |data| then Err(InsufficientData("Style next style ID", 1, |data| - (p + 1)))
    else if p + 4 > |data| then Err(InsufficientData("Style language ID", 2, |data| - (p + 2)))
    else if p + 6 > |data| then Err(InsufficientData("Style paragraph shape ID", 2, |data| - (p + 4)))
    else if p + 8 > |data| then Err(InsufficientData("Style character shape ID", 2, |data| - (p + 6)))
    else
      var t := StyleTypeOf(data[p]);
      Ok(Style(localName, englishName, t, data[p + 1], I16(data, p + 2),
               if t == Paragraph then Some(U16(data, p + 4)) else None,
               if t == Character then Some(U16(data, p + 6)) else None))
  }

  // Style::parse: at least twelve bytes, the two names, then the fixed fields.
  function StyleOf(data: seq<byte>): (r: Result<Style>)
    ensures |data| < 12 ==> r == Err(InsufficientData("Style", 12, |data|))
    ensures r.Ok? ==> 12 <= |data|
    ensures r.Ok? ==> (r.value.paraShapeId.Some? <==> r.value.styleType == Paragraph)
    ensures r.Ok? ==> (r.value.charShapeId.Some? <==> r.value.styleType == Character)
    ensures r.Ok? ==>
      var local := FaceName.WcharsAt(data, 2, U16(data, 0), "Style local name");
      12 <= |data| && local.Ok? && local.value.0 == r.value.localName && local.value.1 + 2 <= |data| &&
      FaceName.WcharsAt(data, local.value.1 + 2, U16(data, local.value.1), "Style English name").Ok? &&
      FaceName.WcharsAt(data, local.value.1 + 2, U16(data, local.value.1), "Style English name").value.0 ==
        r.value.englishName
  {
    if |data| < 12 then Err(InsufficientData("Style", 12, |data|))
    else
      match FaceName.WcharsAt(data, 2, U16(data, 0), "Style local name")
      case Err(e) => Err(e)
      case Ok((localName, o)) =>
        if o + 2 > |data| then Err(InsufficientData("Style English name length", 2, |data| - o))
        else
          match FaceName.WcharsAt(data, o + 2, U16(data, o), "Style English name")
          case Err(e) => Err(e)
          case Ok((englishName, p)) => StyleTailAt(data, p, localName, englishName)
  }

  // Style::parse with its running offset.
  method ParseStyle(data: seq<byte>) returns (r: Result<Style>)
    ensures r == StyleOf(data)
  {
    if |data| < 12 {
      return Err(InsufficientData("Style", 12, |data|));
    }
    var offset: nat := 0;
    var len1: nat := U16(data, offset);
    offset := offset + 2;
    var localName := FaceName.WcharsAt(data, offset, len1, "Style local name");
    if localName.Err? {
      return Err(localName.error);
    }
    offset := localName.value.1;
    if offset + 2 > |data| {
      return Err(InsufficientData("Style English name length", 2, |data| - offset));
    }
    var len2: nat := U16(data, offset);
    offset := offset + 2;
    var englishName := FaceName.WcharsAt(data, offset, len2, "Style English name");
    if englishName.Err? {
      return Err(englishName.error);
    }
    offset := englishName.value.1;
    ghost var p := offset;
    if offset + 1 > |data| {
      return Err(InsufficientData("Style attributes", 1, |data| - offset));
    }
    var attributes := data[offset];
    offset := offset + 1;
    var styleType := StyleTypeOf(attributes);
    if offset + 1 > |data| {
      return Err(InsufficientData("Style next style ID", 1, |data| - offset));
    }
    var nextStyleId := data[offset];
    offset := offset + 1;
    if offset + 2 > |data| {
      return Err(InsufficientData("Style language ID", 2, |data| - offset));
    }
    var langId := I16(data, offset);
    offset := offset + 2;
    if offset + 2 > |data| {
      return Err(InsufficientData("Style paragraph shape ID", 2, |data| - offset));
    }
    var paraShapeIdValue := U16(data, offset);
    offset := offset + 2;
    var paraShapeId := if styleType == Paragraph then Some(paraShapeIdValue) else None;
    if offset + 2 > |data| {
      return Err(InsufficientData("Style character shape ID", 2, |data| - offset));
    }
    var charShapeIdValue := U16(data, offset);
    var charShapeId := if styleType == Character then Some(charShapeIdValue) else None;
    assert offset == p + 6;
    r := Ok(Style(localName.value.0, englishName.value.0, styleType, nextStyleId, langId, paraShapeId, charShapeId));
  }

  // ---------------------------------------------------------------------
  // Writing a style back, and reading it again.

  // A style the parse can produce: names that fit a WORD length and the
  // shape id that matches the style type.
  predicate WellFormedStyle(s: Style)
  {
    FaceName.Short(s.localName) && FaceName.Short(s.englishName) &&
    (s.paraShapeId.Some? <==> s.styleType == Paragraph) &&
    (s.charShapeId.Some? <==> s.styleType == Character)
  }

  function StyleTypeByte(t: StyleType): (b: byte)
    ensures StyleTypeOf(b) == t
  {
    if t == Character then 1 else 0
  }

  function ShapeIdOrZero(v: Option<u16>): u16
  {
    if v.Some? then v.value else 0
  }

  // The eight bytes of fixed fields.
  function EncodeStyleTail(s: Style): (r: seq<byte>)
    ensures |r| == 8
  {
    [StyleTypeByte(s.styleType), s.nextStyleId] + Le16(FromI16(s.langId)) +
    (Le16(ShapeIdOrZero(s.paraShapeId)) + Le16(ShapeIdOrZero(s.charShapeId)))
  }

  function EncodeStyle(s: Style): (r: seq<byte>)
    requires WellFormedStyle(s)
    ensures |r| >= 12
  {
    FaceName.EncodeWchars(s.localName) + (FaceName.EncodeWchars(s.englishName) + EncodeStyleTail(s))
  }

  // The fixed fields read back from offset p.
  lemma StyleTailRead(data: seq<byte>, p: nat, s: Style, rest: seq<byte>)
    requires WellFormedStyle(s)
    requires p <= |data| && data[p..] == EncodeStyleTail(s) + rest
    ensures StyleTailAt(data, p, s.localName, s.englishName) == Ok(s)
  {
    var t := EncodeStyleTail(s);
    SliceAfter(data, p, t, rest);
    var lang := Le16(FromI16(s.langId));
    var para := Le16(ShapeIdOrZero(s.paraShapeId));
    var chr := Le16(ShapeIdOrZero(s.charShapeId));
    assert t[0] == StyleTypeByte(s.styleType) && t[1] == s.nextStyleId;
    assert t[2] == lang[0] && t[3] == lang[1] && t[4] == para[0] && t[5] == para[1] && t[6] == chr[0] && t[7] == chr[1];
    assert data[p..p + 8][0] == data[p] && data[p..p + 8][1] == data[p + 1];
    assert data[p..p + 8][2] == data[p + 2] && data[p..p + 8][3] == data[p + 3];
    assert data[p..p + 8][4] == data[p + 4] && data[p..p + 8][5] == data[p + 5];
    assert data[p..p + 8][6] == data[p + 6] && data[p..p + 8][7] == data[p + 7];
    U16Of(data, p + 2, FromI16(s.langId));
    U16Of(data, p + 4, ShapeIdOrZero(s.paraShapeId));
    U16Of(data, p + 6, ShapeIdOrZero(s.charShapeId));
  }

  // StyleOf once both names are known.
  lemma StyleFields(data: seq<byte>, localName: string, o: nat, englishName: string, p: nat)
    requires |data| >= 12 && FaceName.WcharsAt(data, 2, U16(data, 0), "Style local name") == Ok((localName, o))
    requires o + 2 <= |data|
    requires FaceName.WcharsAt(data, o + 2, U16(data, o), "Style English name") == Ok((englishName, p))
    ensures p <= |data| && StyleOf(data) == StyleTailAt(data, p, localName, englishName)
  {
  }

  // The English name and the fixed fields read back once the local name
  // has been read up to o.
  lemma EnglishNameRead(d: seq<byte>, s: Style, o: nat, rest: seq<byte>)
    requires WellFormedStyle(s)
    requires |d| >= 12 && FaceName.WcharsAt(d, 2, U16(d, 0), "Style local name") == Ok((s.localName, o))
    requires o <= |d| && d[o..] == FaceName.EncodeWchars(s.englishName) + (EncodeStyleTail(s) + rest)
    ensures StyleOf(d) == Ok(s)
  {
    FaceName.WcharsRead(d, o, s.englishName, EncodeStyleTail(s) + rest, "Style English name");
    var p := o + |FaceName.EncodeWchars(s.englishName)|;
    StyleTailRead(d, p, s, rest);
    StyleFields(d, s.localName, o, s.englishName, p);
  }

  // Style::parse reads back what EncodeStyle writes, whatever follows it.
  lemma StyleRoundTrip(s: Style, rest: seq<byte>)
    requires WellFormedStyle(s)
    ensures StyleOf(EncodeStyle(s) + rest) == Ok(s)
  {
    var d := EncodeStyle(s) + rest;
    var eng := FaceName.EncodeWchars(s.englishName) + (EncodeStyleTail(s) + rest);
    assert d[0..] == FaceName.EncodeWchars(s.localName) + eng;
    FaceName.WcharsRead(d, 0, s.localName, eng, "Style local name");
    EnglishNameRead(d, s, |FaceName.EncodeWchars(s.localName)|, rest);
  }
}
