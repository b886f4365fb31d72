// UTF-16 decoding as done by `String::from_utf16` over little-endian code
// units (`decode_utf16le`, crates/hwp-core/src/types.rs), with an encoder
// as its partner.

module Utf16 {
  import opened Bytes
  import opened Errors

  predicate IsHighSurrogate(u: int) { 0xD800 <= u <= 0xDBFF }
  predicate IsLowSurrogate(u: int) { 0xDC00 <= u <= 0xDFFF }
  predicate IsSurrogate(u: int) { 0xD800 <= u <= 0xDFFF }

  // `char::from_u32` restricted to the basic plane: every non-surrogate unit.
  function UnitChar(u: u16): char
    requires !IsSurrogate(u)
  {
    u as char
  }

  function PairChar(hi: u16, lo: u16): (c: char)
    requires IsHighSurrogate(hi) && IsLowSurrogate(lo)
    ensures 0x10000 <= c as int <= 0x10FFFF
  {
    (0x10000 + (hi - 0xD800) * 0x400 + (lo - 0xDC00)) as char
  }

  // Strict decoding: an unpaired surrogate makes the whole decode fail.
  function DecodeUnits(units: seq<u16>): Option<string>
  {
    if |units| == 0 then Some("")
    else if !IsSurrogate(units[0]) then
      match DecodeUnits(units[1..])
      case Some(rest) => Some([UnitChar(units[0])] + rest)
      case None => None
    else if IsHighSurrogate(units[0]) && |units| >= 2 && IsLowSurrogate(units[1]) then
      match DecodeUnits(units[2..])
      case Some(rest) => Some([PairChar(units[0], units[1])] + rest)
      case None => None
    else None
  }

  // The little-endian code units of an even-length byte slice.
  function Units(b: seq<byte>): (r: seq<u16>)
    requires |b| % 2 == 0
    ensures |r| == |b| / 2
    ensures forall k :: 0 <= k < |r| ==> r[k] == U16(b, 2 * k)
  {
    if |b| == 0 then [] else [U16(b, 0)] + Units(b[2..])
  }

  // decode_utf16le: odd length and invalid UTF-16 are both EncodingError.
  function DecodeUtf16Le(b: seq<byte>): (r: Result<string>)
    ensures |b| % 2 != 0 ==> r == Err(EncodingError)
    ensures r.Err? ==> r == Err(EncodingError)
  {
    if |b| % 2 != 0 then Err(EncodingError)
    else match DecodeUnits(Units(b))
      case Some(s) => Ok(s)
      case None => Err(EncodingError)
  }

  // `decode_utf16le(..).unwrap_or_default()`: a failed decode is the empty string.
  function DecodeUtf16LeOrEmpty(b: seq<byte>): (s: string)
    ensures DecodeUtf16Le(b).Ok? ==> s == DecodeUtf16Le(b).value
    ensures DecodeUtf16Le(b).Err? ==> s == ""
  {
    match DecodeUtf16Le(b)
    case Ok(text) => text
    case Err(_) => ""
  }

  // The partner: UTF-16 encoding of a string.
  function EncodeChar(c: char): (r: seq<u16>)
    ensures 1 <= |r| <= 2
  {
    if (c as int) < 0x10000 then [c as int]
    else [0xD800 + (c as int - 0x10000) / 0x400, 0xDC00 + (c as int - 0x10000) % 0x400]
  }

  function EncodeUnits(s: string): (r: seq<u16>)
    ensures |r| >= |s|
  {
    if |s| == 0 then [] else EncodeChar(s[0]) + EncodeUnits(s[1..])
  }

  function UnitBytes(units: seq<u16>): (r: seq<byte>)
    ensures |r| == 2 * |units|
  {
    if |units| == 0 then [] else Le16(units[0]) + UnitBytes(units[1..])
  }

  function EncodeUtf16Le(s: string): (r: seq<byte>)
    ensures |r| % 2 == 0
  {
    UnitBytes(EncodeUnits(s))
  }

  lemma {:induction false} UnitsOfUnitBytes(units: seq<u16>)
    ensures Units(UnitBytes(units)) == units
  {
    if |units| > 0 {
      var b := UnitBytes(units);
      Le16Read([], units[0], UnitBytes(units[1..]));
      assert b[2..] == UnitBytes(units[1..]);
      UnitsOfUnitBytes(units[1..]);
    }
  }

  lemma {:induction false} DecodeEncodeUnits(s: string)
    ensures DecodeUnits(EncodeUnits(s)) == Some(s)
  {
    if |s| > 0 {
      var e := EncodeUnits(s);
      var c := s[0];
      DecodeEncodeUnits(s[1..]);
      if (c as int) < 0x10000 {
        assert !IsSurrogate(c as int);
        assert e[0] == c as int && e[1..] == EncodeUnits(s[1..]);
        assert UnitChar(e[0]) == c;
      } else {
        assert e[2..] == EncodeUnits(s[1..]);
        assert PairChar(e[0], e[1]) == c;
      }
      assert s == [c] + s[1..];
    }
  }

  // Decoding inverts encoding for every string.
  lemma DecodeEncodeUtf16Le(s: string)
    ensures DecodeUtf16Le(EncodeUtf16Le(s)) == Ok(s)
  {
    UnitsOfUnitBytes(EncodeUnits(s));
    DecodeEncodeUnits(s);
  }

  // A surrogate pair encodes back to its two units.
  lemma PairRoundTrip(hi: u16, lo: u16)
    requires IsHighSurrogate(hi) && IsLowSurrogate(lo)
    ensures EncodeChar(PairChar(hi, lo)) == [hi, lo]
  {
    var x := (hi - 0xD800) * 0x400 + (lo - 0xDC00);
    assert PairChar(hi, lo) as int - 0x10000 == x;
    DivUnique(x, 0x400, hi - 0xD800, lo - 0xDC00);
    assert x % 0x400 == lo - 0xDC00;
  }

  // Every successful decode yields a string whose re-encoding is the input.
  lemma {:induction false} EncodeDecodeUnits(units: seq<u16>)
    requires DecodeUnits(units).Some?
    ensures EncodeUnits(DecodeUnits(units).value) == units
  {
    if |units| > 0 {
      var s := DecodeUnits(units).value;
      if !IsSurrogate(units[0]) {
        var rest := DecodeUnits(units[1..]).value;
        EncodeDecodeUnits(units[1..]);
        assert s == [UnitChar(units[0])] + rest;
        assert s[1..] == rest;
        assert EncodeChar(s[0]) == [units[0]];
        assert units == [units[0]] + units[1..];
      } else {
        var rest := DecodeUnits(units[2..]).value;
        EncodeDecodeUnits(units[2..]);
        assert s == [PairChar(units[0], units[1])] + rest;
        assert s[1..] == rest;
        PairRoundTrip(units[0], units[1]);
        assert units == [units[0], units[1]] + units[2..];
      }
    }
  }
}
