// The DefaultJScript stream (Table 9 of the format,
// crates/hwp-core/src/document/scripts/script.rs): four length-prefixed
// UTF-16 strings (the header, the source, the pre-source and the
// post-source), each a DWORD count of WCHARs followed by the characters,
// then an end-flag DWORD. A string that does not fit or does not decode is
// read as empty; a missing length DWORD for the second, third or fourth
// string is an error. Offsets are usize values of a 64-bit target, advanced
// with saturating arithmetic.

module Script {
  import opened Bytes
  import opened Errors
  import opened Utf16

  datatype Script = Script(header: string, source: string, preSource: string, postSource: string)

  // usize::saturating_add, saturating_mul and saturating_sub on a 64-bit
  // target: the exact value, or the nearest bound of 0 .. 2^64 - 1.
  function SaturatingAdd(a: nat, b: nat): (r: nat)
    ensures r <= a + b && r < UsizeModulus
    ensures a + b < UsizeModulus ==> r == a + b
  {
    if a + b < 0x1_0000_0000_0000_0000 then a + b else 0xFFFF_FFFF_FFFF_FFFF
  }

  function SaturatingMul(a: nat, b: nat): (r: nat)
    ensures r <= a * b && r < UsizeModulus
    ensures a * b < UsizeModulus ==> r == a * b
  {
    if a * b < 0x1_0000_0000_0000_0000 then a * b else 0xFFFF_FFFF_FFFF_FFFF
  }

  function SaturatingSub(a: nat, b: nat): (r: nat)
    ensures a >= b ==> r == a - b
    ensures a < b ==> r == 0
  {
    if a < b then 0 else a - b
  }

  // The n WCHARs at offset o, `unwrap_or_default` of the decode: empty when
  // n is 0, when they run past the end or when they do not decode.
  function WcharsAt(data: seq<byte>, o: nat, n: u32): (s: string)
    ensures o + 2 * n > |data| ==> s == ""
    ensures o + 2 * n <= |data| && DecodeUtf16Le(data[o..o + 2 * n]).Err? ==> s == ""
    ensures o + 2 * n <= |data| && DecodeUtf16Le(data[o..o + 2 * n]).Ok? ==>
      s == DecodeUtf16Le(data[o..o + 2 * n]).value
  {
    if n > 0 then
      var size := SaturatingMul(n, 2);
      assert size == 2 * n;
      if o + size <= |data| then DecodeUtf16LeOrEmpty(data[o..o + size]) else ""
    else if o <= |data| then
      DecodeEmpty(data, o);
      ""
    else ""
  }

  // No bytes decode to the empty string.
  lemma DecodeEmpty(data: seq<byte>, o: nat)
    requires o <= |data|
    ensures DecodeUtf16Le(data[o..o]) == Ok("")
  {
    assert data[o..o] == [];
    assert Units([]) == [];
  }

  // The string whose length DWORD is at offset o.
  function TextAt(data: seq<byte>, o: nat): string
    requires o + 4 <= |data|
  {
    WcharsAt(data, o + 4, U32(data, o))
  }

  // The offset after that string, whether or not it fit: the length DWORD
  // and twice the count, saturating. A Rust slice holds at most isize::MAX
  // bytes, so on a real stream the sum never saturates.
  function After(data: seq<byte>, o: nat): (r: nat)
    requires o + 4 <= |data|
    ensures r <= o + 4 + 2 * U32(data, o)
    ensures FitsIsize(data) ==> r == o + 4 + 2 * U32(data, o)
  {
    SaturatingAdd(o + 4, SaturatingMul(U32(data, o), 2))
  }

  // A stream whose length an isize can hold.
  predicate FitsIsize(data: seq<byte>)
  {
    |data| < 0x8000_0000_0000_0000
  }

  // Script::parse. The end flag is read only to warn in debug builds, so it
  // never changes the result.
  function ScriptOf(data: seq<byte>): (r: Result<Script>)
    ensures |data| < 20 ==> r == Err(InsufficientData("Script", 20, |data|))
    ensures |data| >= 20 && After(data, 0) + 4 > |data| ==>
      r == Err(InsufficientData("Script source length", 4, SaturatingSub(|data|, After(data, 0))))
    ensures r.Ok? ==>
      var o1 := After(data, 0);
      o1 + 4 <= |data| && r.value.header == TextAt(data, 0) && r.value.source == TextAt(data, o1)
    ensures r.Ok? ==>
      var o1 := After(data, 0);
      o1 + 4 <= |data| && After(data, o1) + 4 <= |data| &&
      var o2 := After(data, o1);
      r.value.preSource == TextAt(data, o2) && After(data, o2) + 4 <= |data| &&
      r.value.postSource == TextAt(data, After(data, o2))
    ensures r.Err? ==> r.error.InsufficientData?
  {
    if |data| < 20 then Err(InsufficientData("Script", 20, |data|))
    else
      var o1 := After(data, 0);
      if o1 + 4 > |data| then Err(InsufficientData("Script source length", 4, SaturatingSub(|data|, o1)))
      else
        var o2 := After(data, o1);
        if o2 + 4 > |data| then Err(InsufficientData("Script pre source length", 4, SaturatingSub(|data|, o2)))
        else
          var o3 := After(data, o2);
          if o3 + 4 > |data| then Err(InsufficientData("Script post source length", 4, SaturatingSub(|data|, o3)))
          else Ok(Script(TextAt(data, 0), TextAt(data, o1), TextAt(data, o2), TextAt(data, o3)))
  }

  // The error tiers past the first: a missing pre-source or post-source
  // length DWORD, in the order parse checks them.
  lemma ScriptErrors(data: seq<byte>)
    requires |data| >= 20 && After(data, 0) + 4 <= |data|
    ensures var o2 := After(data, After(data, 0));
      o2 + 4 > |data| ==> ScriptOf(data) == Err(InsufficientData("Script pre source length", 4, SaturatingSub(|data|, o2)))
    ensures var o2 := After(data, After(data, 0));
      o2 + 4 <= |data| && After(data, o2) + 4 > |data| ==>
        ScriptOf(data) == Err(InsufficientData("Script post source length", 4, SaturatingSub(|data|, After(data, o2))))
  {
  }

  // One length-prefixed string as the loop of parse reads it.
  method ReadWchars(data: seq<byte>, offset: nat) returns (s: string, next: nat)
    requires offset + 4 <= |data|
    ensures s == TextAt(data, offset) && next == After(data, offset)
  {
    var len: nat := U32(data, offset);
    var start := offset + 4;
    if len > 0 {
      var size := SaturatingMul(len, 2);
      if start + size <= |data| {
        s := DecodeUtf16LeOrEmpty(data[start..start + size]);
      } else {
        s := "";
      }
    } else {
      s := "";
    }
    next := SaturatingAdd(start, SaturatingMul(len, 2));
  }

  // Script::parse with its running offset.
  method ParseScript(data: seq<byte>) returns (r: Result<Script>)
    ensures r == ScriptOf(data)
  {
    if |data| < 20 {
      return Err(InsufficientData("Script", 20, |data|));
    }
    var offset: nat := 0;
    var header;
    header, offset := ReadWchars(data, offset);
    if offset + 4 > |data| {
      return Err(InsufficientData("Script source length", 4, SaturatingSub(|data|, offset)));
    }
    var source;
    source, offset := ReadWchars(data, offset);
    if offset + 4 > |data| {
      return Err(InsufficientData("Script pre source length", 4, SaturatingSub(|data|, offset)));
    }
    var preSource;
    preSource, offset := ReadWchars(data, offset);
    if offset + 4 > |data| {
      return Err(InsufficientData("Script post source length", 4, SaturatingSub(|data|, offset)));
    }
    var postSource;
    postSource, offset := ReadWchars(data, offset);
    r := Ok(Script(header, source, preSource, postSource));
  }

  // ---------------------------------------------------------------------
  // Writing a script back, and reading it again.

  // A string whose WCHAR count fits the length DWORD.
  predicate Fits(s: string)
  {
    |EncodeUnits(s)| < 0x1_0000_0000
  }

  predicate WellFormedScript(sc: Script)
  {
    Fits(sc.header) && Fits(sc.source) && Fits(sc.preSource) && Fits(sc.postSource)
  }

  // The length DWORD, then the UTF-16 units.
  function EncodeCounted(s: string): (r: seq<byte>)
    requires Fits(s)
    ensures |r| == 4 + 2 * |EncodeUnits(s)|
  {
    Le32(|EncodeUnits(s)|) + EncodeUtf16Le(s)
  }

  // The four strings, then the end flag -1.
  function EncodeScript(sc: Script): (r: seq<byte>)
    requires WellFormedScript(sc)
    ensures |r| >= 20
  {
    EncodeCounted(sc.header) + (EncodeCounted(sc.source) + (EncodeCounted(sc.preSource) +
      (EncodeCounted(sc.postSource) + Le32(0xFFFF_FFFF))))
  }

  // A counted string at offset o reads back, and the next field starts
  // right after it.
  lemma CountedRead(d: seq<byte>, o: nat, s: string, rest: seq<byte>)
    requires Fits(s) && FitsIsize(d) && o <= |d| && d[o..] == EncodeCounted(s) + rest
    ensures o + 4 <= |d| && TextAt(d, o) == s
    ensures After(d, o) == o + |EncodeCounted(s)| <= |d| && d[After(d, o)..] == rest
  {
    var e := EncodeUtf16Le(s);
    var n := |EncodeUnits(s)|;
    Associative(Le32(n), e, rest);
    SliceAfter(d, o, Le32(n), e + rest);
    SliceAfter(d, o + 4, e, rest);
    assert d[o..o + 4][0] == d[o] && d[o..o + 4][1] == d[o + 1];
    assert d[o..o + 4][2] == d[o + 2] && d[o..o + 4][3] == d[o + 3];
    U32Of(d, o, n);
    DecodeEncodeUtf16Le(s);
  }

  // ScriptOf once all four length DWORDs are known to fit.
  lemma ScriptFields(data: seq<byte>, o1: nat, o2: nat, o3: nat)
    requires |data| >= 20 && o1 == After(data, 0) && o1 + 4 <= |data|
    requires o2 == After(data, o1) && o2 + 4 <= |data| && o3 == After(data, o2) && o3 + 4 <= |data|
    ensures ScriptOf(data) == Ok(Script(TextAt(data, 0), TextAt(data, o1), TextAt(data, o2), TextAt(data, o3)))
  {
  }

  // Script::parse reads back what EncodeScript writes, whatever follows it.
  lemma ScriptRoundTrip(sc: Script, rest: seq<byte>)
    requires WellFormedScript(sc) && FitsIsize(EncodeScript(sc) + rest)
    ensures ScriptOf(EncodeScript(sc) + rest) == Ok(sc)
  {
    var d := EncodeScript(sc) + rest;
    var h, q, p, t := EncodeCounted(sc.header), EncodeCounted(sc.source), EncodeCounted(sc.preSource),
      EncodeCounted(sc.postSource);
    var f := Le32(0xFFFF_FFFF);
    Associative(h, q + (p + (t + f)), rest);
    Associative(q, p + (t + f), rest);
    Associative(p, t + f, rest);
    Associative(t, f, rest);
    assert d[0..] == d;
    CountedRead(d, 0, sc.header, q + (p + (t + f)) + rest);
    var o1 := After(d, 0);
    CountedRead(d, o1, sc.source, p + (t + f) + rest);
    var o2 := After(d, o1);
    CountedRead(d, o2, sc.preSource, t + f + rest);
    var o3 := After(d, o2);
    CountedRead(d, o3, sc.postSource, f + rest);
    ScriptFields(d, o1, o2, o3);
  }
}
