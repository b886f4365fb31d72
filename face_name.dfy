// The face name (font) record of DocInfo (Tables 19-22 of the format,
// crates/hwp-core/src/document/docinfo/face_name.rs): an attribute byte, a
// length-prefixed name, and three optional sections whose presence the
// attribute's bits 7, 6 and 5 announce: an alternative font, ten bytes of
// font type information, and a default font name.

module FaceName {
  import opened Bytes
  import opened Errors
  import opened Text
  import opened Utf16
  import opened BitFlags

  const HasAlternative: nat := 0x80
  const HasTypeInfo: nat := 0x40
  const HasDefault: nat := 0x20

  datatype AlternativeFontType = Unknown | TTF | HFT

  datatype FontTypeInfo = FontTypeInfo(
    fontFamily: byte, serif: byte, bold: byte, proportion: byte, contrast: byte,
    strokeVariation: byte, strokeType: byte, letterType: byte, middleLine: byte, xHeight: byte)

  datatype FaceName = FaceName(
    name: string,
    alternativeFontType: Option<AlternativeFontType>,
    alternativeFontName: Option<string>,
    fontTypeInfo: Option<FontTypeInfo>,
    defaultFontName: Option<string>)

  // AlternativeFontType::from_byte: 1 and 2 are named, anything else is Unknown.
  function AlternativeFontTypeOf(b: byte): (t: AlternativeFontType)
    ensures t == TTF <==> b == 1
    ensures t == HFT <==> b == 2
    ensures t == Unknown <==> b != 1 && b != 2
  {
    match b
    case 1 => TTF
    case 2 => HFT
    case _ => Unknown
  }

  function AlternativeFontTypeByte(t: AlternativeFontType): (b: byte)
    ensures AlternativeFontTypeOf(b) == t
  {
    match t
    case Unknown => 0
    case TTF => 1
    case HFT => 2
  }

  // A WCHAR array of n units at offset off, and the offset past it.
  function WcharsAt(data: seq<byte>, off: nat, n: nat, field: string): (r: Result<(string, nat)>)
    ensures off + 2 * n > |data| ==> r == Err(InsufficientData(AtOffset(field, off), off + 2 * n, |data|))
    ensures off + 2 * n <= |data| && r.Err? ==> r == Err(EncodingError)
    ensures r.Ok? ==> r.value.1 == off + 2 * n <= |data| && DecodeUtf16Le(data[off..off + 2 * n]) == Ok(r.value.0)
  {
    if off + 2 * n > |data| then Err(InsufficientData(AtOffset(field, off), off + 2 * n, |data|))
    else
      match DecodeUtf16Le(data[off..off + 2 * n])
      case Err(e) => Err(e)
      case Ok(s) => Ok((s, off + 2 * n))
  }

  // The alternative-font section: a type byte and a length-prefixed name.
  function AlternativeAt(data: seq<byte>, off: nat): (r: Result<(AlternativeFontType, string, nat)>)
    requires off <= |data|
    ensures off == |data| ==> r == Err(InsufficientData("FaceName alternative font type", 1, 0))
    ensures off < |data| < off + 3 ==> r == Err(InsufficientData("FaceName alternative font name length", 2, |data| - (off + 1)))
    ensures r.Ok? ==> off + 3 <= |data| && r.value.0 == AlternativeFontTypeOf(data[off])
    ensures r.Ok? ==> off + 3 <= |data| &&
                      WcharsAt(data, off + 3, U16(data, off + 1), "FaceName alternative font name") == Ok((r.value.1, r.value.2))
  {
    if off >= |data| then Err(InsufficientData("FaceName alternative font type", 1, 0))
    else if off + 1 + 2 > |data| then Err(InsufficientData("FaceName alternative font name length", 2, |data| - (off + 1)))
    else
      match WcharsAt(data, off + 3, U16(data, off + 1), "FaceName alternative font name")
      case Err(e) => Err(e)
      case Ok((s, next)) => Ok((AlternativeFontTypeOf(data[off]), s, next))
  }

  // The ten font-type bytes.
  function TypeInfoAt(data: seq<byte>, off: nat): (r: Result<FontTypeInfo>)
    requires off <= |data|
    ensures r.Err? <==> off + 10 > |data|
    ensures r.Err? ==> r.error == InsufficientData("FaceName font type info", 10, |data| - off)
    ensures r.Ok? ==> r.value.fontFamily == data[off] && r.value.xHeight == data[off + 9]
  {
    if off + 10 > |data| then Err(InsufficientData("FaceName font type info", 10, |data| - off))
    else
      Ok(FontTypeInfo(data[off], data[off + 1], data[off + 2], data[off + 3], data[off + 4],
        data[off + 5], data[off + 6], data[off + 7], data[off + 8], data[off + 9]))
  }

  // The default-font section: a length-prefixed name.
  function DefaultAt(data: seq<byte>, off: nat): (r: Result<string>)
    requires off <= |data|
    ensures off + 2 > |data| ==> r == Err(InsufficientData("FaceName default font name length", 2, |data| - off))
    ensures r.Ok? ==> off + 2 <= |data|
    ensures r.Ok? ==> WcharsAt(data, off + 2, U16(data, off), "FaceName default font name").Ok?
    ensures r.Ok? ==> WcharsAt(data, off + 2, U16(data, off), "FaceName default font name").value.0 == r.value
  {
    if off + 2 > |data| then Err(InsufficientData("FaceName default font name length", 2, |data| - off))
    else
      match WcharsAt(data, off + 2, U16(data, off), "FaceName default font name")
      case Err(e) => Err(e)
      case Ok((s, _)) => Ok(s)
  }

  // FaceName::parse: the name, then each announced section in order; the
  // first section that does not fit or does not decode is the error.
  function FaceNameOf(data: seq<byte>): (r: Result<FaceName>)
    ensures |data| < 3 ==> r == Err(InsufficientData("FaceName", 3, |data|))
    ensures 3 <= |data| && 3 + 2 * U16(data, 1) > |data| ==>
      r == Err(InsufficientData(AtOffset("FaceName font name", 3), 3 + 2 * U16(data, 1), |data|))
    ensures r.Ok? ==> 3 + 2 * U16(data, 1) <= |data| && DecodeUtf16Le(data[3..3 + 2 * U16(data, 1)]) == Ok(r.value.name)
    ensures r.Ok? ==> (r.value.alternativeFontType.Some? <==> HasMask(data[0], HasAlternative))
    ensures r.Ok? ==> (r.value.alternativeFontName.Some? <==> HasMask(data[0], HasAlternative))
    ensures r.Ok? ==> (r.value.fontTypeInfo.Some? <==> HasMask(data[0], HasTypeInfo))
    ensures r.Ok? ==> (r.value.defaultFontName.Some? <==> HasMask(data[0], HasDefault))
  {
    if |data| < 3 then Err(InsufficientData("FaceName", 3, |data|))
    else
      match WcharsAt(data, 3, U16(data, 1), "FaceName font name")
      case Err(e) => Err(e)
      case Ok((name, off)) => AfterName(data, data[0], name, off)
  }

  // The sections after the name, from offset off.
  function AfterName(data: seq<byte>, attr: byte, name: string, off: nat): (r: Result<FaceName>)
    requires off <= |data|
    ensures r.Ok? ==> r.value.name == name
    ensures r.Ok? ==> (r.value.alternativeFontType.Some? <==> HasMask(attr, HasAlternative))
    ensures r.Ok? ==> (r.value.alternativeFontName.Some? <==> HasMask(attr, HasAlternative))
    ensures r.Ok? ==> (r.value.fontTypeInfo.Some? <==> HasMask(attr, HasTypeInfo))
    ensures r.Ok? ==> (r.value.defaultFontName.Some? <==> HasMask(attr, HasDefault))
  {
    if !HasMask(attr, HasAlternative) then AfterAlternative(data, attr, name, None, None, off)
    else
      match AlternativeAt(data, off)
      case Err(e) => Err(e)
      case Ok((t, s, next)) => AfterAlternative(data, attr, name, Some(t), Some(s), next)
  }

  function AfterAlternative(data: seq<byte>, attr: byte, name: string, t: Option<AlternativeFontType>,
                            alt: Option<string>, off: nat): (r: Result<FaceName>)
    requires off <= |data|
    ensures r.Ok? ==> r.value.name == name && r.value.alternativeFontType == t && r.value.alternativeFontName == alt
    ensures r.Ok? ==> (r.value.fontTypeInfo.Some? <==> HasMask(attr, HasTypeInfo))
    ensures r.Ok? ==> (r.value.defaultFontName.Some? <==> HasMask(attr, HasDefault))
  {
    if !HasMask(attr, HasTypeInfo) then AfterTypeInfo(data, attr, name, t, alt, None, off)
    else
      match TypeInfoAt(data, off)
      case Err(e) => Err(e)
      case Ok(info) => AfterTypeInfo(data, attr, name, t, alt, Some(info), off + 10)
  }

  function AfterTypeInfo(data: seq<byte>, attr: byte, name: string, t: Option<AlternativeFontType>,
                         alt: Option<string>, info: Option<FontTypeInfo>, off: nat): (r: Result<FaceName>)
    requires off <= |data|
    ensures r.Ok? ==> r.value.name == name && r.value.alternativeFontType == t && r.value.alternativeFontName == alt
    ensures r.Ok? ==> r.value.fontTypeInfo == info
    ensures r.Ok? ==> (r.value.defaultFontName.Some? <==> HasMask(attr, HasDefault))
  {
    if !HasMask(attr, HasDefault) then Ok(FaceName(name, t, alt, info, None))
    else
      match DefaultAt(data, off)
      case Err(e) => Err(e)
      case Ok(d) => Ok(FaceName(name, t, alt, info, Some(d)))
  }

  // The stages of FaceNameOf one at a time.
  lemma AlternativeStep(data: seq<byte>, attr: byte, name: string, off: nat)
    requires off <= |data|
    ensures !HasMask(attr, HasAlternative) ==> AfterName(data, attr, name, off) == AfterAlternative(data, attr, name, None, None, off)
    ensures HasMask(attr, HasAlternative) && AlternativeAt(data, off).Err? ==>
      AfterName(data, attr, name, off) == Err(AlternativeAt(data, off).error)
    ensures HasMask(attr, HasAlternative) && AlternativeAt(data, off).Ok? ==>
      AfterName(data, attr, name, off) == AfterAlternative(data, attr, name, Some(AlternativeAt(data, off).value.0),
        Some(AlternativeAt(data, off).value.1), AlternativeAt(data, off).value.2)
  {
  }

  lemma TypeInfoStep(data: seq<byte>, attr: byte, name: string, t: Option<AlternativeFontType>, alt: Option<string>, off: nat)
    requires off <= |data|
    ensures !HasMask(attr, HasTypeInfo) ==> AfterAlternative(data, attr, name, t, alt, off) == AfterTypeInfo(data, attr, name, t, alt, None, off)
    ensures HasMask(attr, HasTypeInfo) && TypeInfoAt(data, off).Err? ==>
      AfterAlternative(data, attr, name, t, alt, off) == Err(TypeInfoAt(data, off).error)
    ensures HasMask(attr, HasTypeInfo) && TypeInfoAt(data, off).Ok? ==>
      AfterAlternative(data, attr, name, t, alt, off) == AfterTypeInfo(data, attr, name, t, alt, Some(TypeInfoAt(data, off).value), off + 10)
  {
  }

  lemma DefaultStep(data: seq<byte>, attr: byte, name: string, t: Option<AlternativeFontType>, alt: Option<string>,
                    info: Option<FontTypeInfo>, off: nat)
    requires off <= |data|
    ensures !HasMask(attr, HasDefault) ==> AfterTypeInfo(data, attr, name, t, alt, info, off) == Ok(FaceName(name, t, alt, info, None))
    ensures HasMask(attr, HasDefault) && DefaultAt(data, off).Err? ==>
      AfterTypeInfo(data, attr, name, t, alt, info, off) == Err(DefaultAt(data, off).error)
    ensures HasMask(attr, HasDefault) && DefaultAt(data, off).Ok? ==>
      AfterTypeInfo(data, attr, name, t, alt, info, off) == Ok(FaceName(name, t, alt, info, Some(DefaultAt(data, off).value)))
  {
  }

  // FaceName::parse with its running offset.
  method ParseFaceName(data: seq<byte>) returns (r: Result<FaceName>)
    ensures r == FaceNameOf(data)
  {
    if |data| < 3 {
      return Err(InsufficientData("FaceName", 3, |data|));
    }
    var offset := 0;
    var attributes := data[offset];
    offset := offset + 1;
    var nameLength: nat := U16(data, offset);
    offset := offset + 2;
    var name := WcharsAt(data, offset, nameLength, "FaceName font name");
    if name.Err? {
      return Err(name.error);
    }
    offset := name.value.1;
    assert FaceNameOf(data) == AfterName(data, attributes, name.value.0, offset);
    AlternativeStep(data, attributes, name.value.0, offset);
    var alternativeFontType: Option<AlternativeFontType> := None;
    var alternativeFontName: Option<string> := None;
    if HasMask(attributes, HasAlternative) {
      var alt := AlternativeAt(data, offset);
      if alt.Err? {
        return Err(alt.error);
      }
      alternativeFontType := Some(alt.value.0);
      alternativeFontName := Some(alt.value.1);
      offset := alt.value.2;
    }
    assert FaceNameOf(data) == AfterAlternative(data, attributes, name.value.0, alternativeFontType,
      alternativeFontName, offset);
    r := ParseFontInfo(data, attributes, name.value.0, alternativeFontType, alternativeFontName, offset);
  }

  // The rest of FaceName::parse: the font type information and the
  // default font, from offset on.
  method ParseFontInfo(data: seq<byte>, attributes: byte, name: string, alternativeFontType: Option<AlternativeFontType>,
                       alternativeFontName: Option<string>, offset0: nat) returns (r: Result<FaceName>)
    requires offset0 <= |data|
    ensures r == AfterAlternative(data, attributes, name, alternativeFontType, alternativeFontName, offset0)
  {
    var offset := offset0;
    TypeInfoStep(data, attributes, name, alternativeFontType, alternativeFontName, offset);
    var fontTypeInfo: Option<FontTypeInfo> := None;
    ghost var next: nat := offset;
    if HasMask(attributes, HasTypeInfo) {
      var info := TypeInfoAt(data, offset);
      if info.Err? {
        return Err(info.error);
      }
      fontTypeInfo := Some(info.value);
      next := offset + 10;
    }
    if fontTypeInfo.Some? {
      offset := offset + 10;
    }
    assert offset == next;
    DefaultStep(data, attributes, name, alternativeFontType, alternativeFontName, fontTypeInfo, offset);
    var defaultFontName: Option<string> := None;
    if HasMask(attributes, HasDefault) {
      var def := DefaultAt(data, offset);
      if def.Err? {
        return Err(def.error);
      }
      defaultFontName := Some(def.value);
    }
    r := Ok(FaceName(name, alternativeFontType, alternativeFontName, fontTypeInfo, defaultFontName));
  }

  // The writer side: names of fewer than 0x10000 UTF-16 units, and an
  // alternative font has both a type and a name.
  predicate Short(s: string)
  {
    |EncodeUnits(s)| < 0x1_0000
  }

  predicate WellFormedFaceName(f: FaceName)
  {
    Short(f.name) &&
    (f.alternativeFontType.Some? <==> f.alternativeFontName.Some?) &&
    (f.alternativeFontName.Some? ==> Short(f.alternativeFontName.value)) &&
    (f.defaultFontName.Some? ==> Short(f.defaultFontName.value))
  }

  function EncodeWchars(s: string): (r: seq<byte>)
    requires Short(s)
    ensures |r| == 2 + 2 * |EncodeUnits(s)|
  {
    Le16(|EncodeUnits(s)|) + EncodeUtf16Le(s)
  }

  function InfoBytes(i: FontTypeInfo): (r: seq<byte>)
    ensures |r| == 10
  {
    [i.fontFamily, i.serif, i.bold, i.proportion, i.contrast, i.strokeVariation, i.strokeType,
     i.letterType, i.middleLine, i.xHeight]
  }

  function FaceNameAttribute(f: FaceName): byte
  {
    (if f.alternativeFontName.Some? then 0x80 else 0) + (if f.fontTypeInfo.Some? then 0x40 else 0) +
    (if f.defaultFontName.Some? then 0x20 else 0)
  }

  function AltPart(f: FaceName): seq<byte>
    requires WellFormedFaceName(f)
  {
    if f.alternativeFontName.Some?
    then [AlternativeFontTypeByte(f.alternativeFontType.value)] + EncodeWchars(f.alternativeFontName.value)
    else []
  }

  function InfoPart(f: FaceName): seq<byte>
  {
    if f.fontTypeInfo.Some? then InfoBytes(f.fontTypeInfo.value) else []
  }

  function DefPart(f: FaceName): seq<byte>
    requires WellFormedFaceName(f)
  {
    if f.defaultFontName.Some? then EncodeWchars(f.defaultFontName.value) else []
  }

  function EncodeFaceName(f: FaceName): seq<byte>
    requires WellFormedFaceName(f)
  {
    [FaceNameAttribute(f)] + (EncodeWchars(f.name) + (AltPart(f) + (InfoPart(f) + DefPart(f))))
  }

  lemma AttributeBits(f: FaceName)
    ensures HasMask(FaceNameAttribute(f), HasAlternative) <==> f.alternativeFontName.Some?
    ensures HasMask(FaceNameAttribute(f), HasTypeInfo) <==> f.fontTypeInfo.Some?
    ensures HasMask(FaceNameAttribute(f), HasDefault) <==> f.defaultFontName.Some?
  {
  }

  // A length-prefixed name at offset off reads back, and the bytes after
  // it are what followed it.
  lemma WcharsRead(d: seq<byte>, off: nat, s: string, rest: seq<byte>, field: string)
    requires Short(s) && off <= |d| && d[off..] == EncodeWchars(s) + rest
    ensures off + 2 <= |d| && U16(d, off) == |EncodeUnits(s)|
    ensures WcharsAt(d, off + 2, |EncodeUnits(s)|, field) == Ok((s, off + |EncodeWchars(s)|))
    ensures d[off + |EncodeWchars(s)|..] == rest
  {
    var e := EncodeUtf16Le(s);
    var n := |EncodeUnits(s)|;
    var t := d[off..];
    assert t == [] + Le16(n) + (e + rest);
    Le16Read([], n, e + rest);
    assert d[off] == t[0] && d[off + 1] == t[1];
    assert d[off + 2..off + 2 + 2 * n] == t[2..2 + 2 * n] == e;
    assert d[off + 2 + 2 * n..] == t[2 + 2 * n..] == rest;
    DecodeEncodeUtf16Le(s);
  }

  lemma AlternativeRead(d: seq<byte>, off: nat, t: AlternativeFontType, s: string, rest: seq<byte>)
    requires Short(s) && off <= |d| && d[off..] == [AlternativeFontTypeByte(t)] + (EncodeWchars(s) + rest)
    ensures AlternativeAt(d, off) == Ok((t, s, off + 1 + |EncodeWchars(s)|))
    ensures d[off + 1 + |EncodeWchars(s)|..] == rest
  {
    assert d[off] == d[off..][0];
    assert d[off + 1..] == d[off..][1..];
    WcharsRead(d, off + 1, s, rest, "FaceName alternative font name");
  }

  lemma TypeInfoRead(d: seq<byte>, off: nat, i: FontTypeInfo, rest: seq<byte>)
    requires off <= |d| && d[off..] == InfoBytes(i) + rest
    ensures TypeInfoAt(d, off) == Ok(i)
    ensures d[off + 10..] == rest
  {
    assert d[off..off + 10] == d[off..][..10] == InfoBytes(i);
    assert d[off + 10..] == d[off..][10..];
  }

  lemma DefaultRead(d: seq<byte>, off: nat, s: string, rest: seq<byte>)
    requires Short(s) && off <= |d| && d[off..] == EncodeWchars(s) + rest
    ensures DefaultAt(d, off) == Ok(s)
  {
    WcharsRead(d, off, s, rest, "FaceName default font name");
  }

  // The attribute bits announce exactly the sections the face name has.
  predicate Announces(attr: byte, f: FaceName)
  {
    (HasMask(attr, HasAlternative) <==> f.alternativeFontName.Some?) &&
    (HasMask(attr, HasTypeInfo) <==> f.fontTypeInfo.Some?) &&
    (HasMask(attr, HasDefault) <==> f.defaultFontName.Some?)
  }

  lemma AfterTypeInfoRead(f: FaceName, attr: byte, d: seq<byte>, off: nat, rest: seq<byte>)
    requires WellFormedFaceName(f) && Announces(attr, f)
    requires off <= |d| && d[off..] == DefPart(f) + rest
    ensures AfterTypeInfo(d, attr, f.name, f.alternativeFontType, f.alternativeFontName, f.fontTypeInfo, off) == Ok(f)
  {
    if f.defaultFontName.Some? {
      DefaultRead(d, off, f.defaultFontName.value, rest);
    }
  }

  lemma AfterAlternativeRead(f: FaceName, attr: byte, d: seq<byte>, off: nat, rest: seq<byte>)
    requires WellFormedFaceName(f) && Announces(attr, f)
    requires off <= |d| && d[off..] == InfoPart(f) + (DefPart(f) + rest)
    ensures AfterAlternative(d, attr, f.name, f.alternativeFontType, f.alternativeFontName, off) == Ok(f)
  {
    if f.fontTypeInfo.Some? {
      TypeInfoRead(d, off, f.fontTypeInfo.value, DefPart(f) + rest);
      AfterTypeInfoRead(f, attr, d, off + 10, rest);
    } else {
      AfterTypeInfoRead(f, attr, d, off, rest);
    }
  }

  lemma AfterNameRead(f: FaceName, attr: byte, d: seq<byte>, off: nat, rest: seq<byte>)
    requires WellFormedFaceName(f) && Announces(attr, f)
    requires off <= |d| && d[off..] == AltPart(f) + (InfoPart(f) + (DefPart(f) + rest))
    ensures AfterName(d, attr, f.name, off) == Ok(f)
  {
    if f.alternativeFontName.Some? {
      var next := AlternativeSectionRead(f, d, off, InfoPart(f) + (DefPart(f) + rest));
      AfterAlternativeRead(f, attr, d, next, rest);
    } else {
      AfterAlternativeRead(f, attr, d, off, rest);
    }
  }

  lemma AlternativeSectionRead(f: FaceName, d: seq<byte>, off: nat, tail: seq<byte>) returns (next: nat)
    requires WellFormedFaceName(f) && f.alternativeFontName.Some?
    requires off <= |d| && d[off..] == AltPart(f) + tail
    ensures AlternativeAt(d, off) == Ok((f.alternativeFontType.value, f.alternativeFontName.value, next))
    ensures next <= |d| && d[next..] == tail
  {
    var t, name := f.alternativeFontType.value, f.alternativeFontName.value;
    assert d[off..] == [AlternativeFontTypeByte(t)] + (EncodeWchars(name) + tail);
    AlternativeRead(d, off, t, name, tail);
    next := off + 1 + |EncodeWchars(name)|;
  }

  lemma Nest(a: seq<byte>, b: seq<byte>, c: seq<byte>, e: seq<byte>, g: seq<byte>, rest: seq<byte>)
    ensures a + (b + (c + (e + g))) + rest == a + (b + (c + (e + (g + rest))))
  {
  }

  // FaceNameOf once the name and the sections after it are known.
  lemma FaceNameFields(d: seq<byte>, f: FaceName, off: nat)
    requires |d| >= 3 && off <= |d|
    requires WcharsAt(d, 3, U16(d, 1), "FaceName font name") == Ok((f.name, off))
    requires AfterName(d, d[0], f.name, off) == Ok(f)
    ensures FaceNameOf(d) == Ok(f)
  {
  }

  // The attribute byte and the name at the front of an encoding.
  lemma HeadRead(f: FaceName, rest: seq<byte>) returns (off: nat)
    requires WellFormedFaceName(f)
    ensures var d := EncodeFaceName(f) + rest;
      |d| >= 3 && off <= |d| && d[0] == FaceNameAttribute(f) &&
      WcharsAt(d, 3, U16(d, 1), "FaceName font name") == Ok((f.name, off)) &&
      d[off..] == AltPart(f) + (InfoPart(f) + (DefPart(f) + rest))
  {
    var tail := AltPart(f) + (InfoPart(f) + (DefPart(f) + rest));
    var d := EncodeFaceName(f) + rest;
    Nest([FaceNameAttribute(f)], EncodeWchars(f.name), AltPart(f), InfoPart(f), DefPart(f), rest);
    assert d == [FaceNameAttribute(f)] + (EncodeWchars(f.name) + tail);
    assert d[1..] == EncodeWchars(f.name) + tail;
    WcharsRead(d, 1, f.name, tail, "FaceName font name");
    off := 1 + |EncodeWchars(f.name)|;
  }

  // Every well-formed face name, followed by anything, reads back as itself.
  lemma FaceNameRoundTrip(f: FaceName, rest: seq<byte>)
    requires WellFormedFaceName(f)
    ensures FaceNameOf(EncodeFaceName(f) + rest) == Ok(f)
  {
    var d := EncodeFaceName(f) + rest;
    var off := HeadRead(f, rest);
    AttributeBits(f);
    AfterNameRead(f, FaceNameAttribute(f), d, off, rest);
    FaceNameFields(d, f, off);
  }
}
