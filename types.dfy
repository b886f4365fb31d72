// Record headers and colour references (crates/hwp-core/src/types.rs).
// A record header is one little-endian DWORD holding the tag id (bits 0-9),
// the level (bits 10-19) and the size (bits 20-31); a size of 0xFFF means
// the real size follows in a second DWORD.

module HwpTypes {
  import opened Bytes
  import opened Errors

  datatype RecordHeader = RecordHeader(tagId: nat, level: nat, size: u32, hasExtendedSize: bool)

  // RecordHeader::parse: the header and the number of header bytes.
  function ParseRecordHeader(data: seq<byte>): (r: Result<(RecordHeader, nat)>)
    ensures |data| < 4 ==> r == Err(InsufficientData("RecordHeader", 4, |data|))
    ensures r.Err? ==> |data| < 8 && r.error.InsufficientData?
    ensures r.Ok? ==> var (h, n) := r.value;
      h.tagId < 0x400 && h.level < 0x400 && n <= |data| &&
      (h.hasExtendedSize <==> n == 8) && (!h.hasExtendedSize ==> n == 4 && h.size < 0xFFF)
  {
    if |data| < 4 then Err(InsufficientData("RecordHeader", 4, |data|))
    else
      var v := U32(data, 0);
      var tag := v % 0x400;
      var level := (v / 0x400) % 0x400;
      var size := (v / 0x10_0000) % 0x1000;
      if size == 0xFFF then
        if |data| < 8 then Err(InsufficientData("RecordHeader (extended)", 8, |data|))
        else Ok((RecordHeader(tag, level, U32(data, 4), true), 8))
      else Ok((RecordHeader(tag, level, size, false), 4))
  }

  // The headers the writer can produce: 10-bit tag and level, and a short
  // size only below the 0xFFF escape.
  predicate WellFormed(h: RecordHeader)
  {
    h.tagId < 0x400 && h.level < 0x400 && (!h.hasExtendedSize ==> h.size < 0xFFF)
  }

  // The header word with the fields masked to their widths, as a writer
  // packs them.
  function HeaderWord(h: RecordHeader): u32
  {
    h.tagId % 0x400 + 0x400 * (h.level % 0x400) +
    0x10_0000 * (if h.hasExtendedSize then 0xFFF else h.size % 0x1000)
  }

  function EncodeRecordHeader(h: RecordHeader): (r: seq<byte>)
    ensures |r| == if h.hasExtendedSize then 8 else 4
  {
    if h.hasExtendedSize then Le32(HeaderWord(h)) + Le32(h.size) else Le32(HeaderWord(h))
  }

  lemma HeaderWordFields(t: nat, l: nat, s: nat)
    requires t < 0x400 && l < 0x400 && s < 0x1000
    ensures (t + 0x400 * l + 0x10_0000 * s) % 0x400 == t
    ensures ((t + 0x400 * l + 0x10_0000 * s) / 0x400) % 0x400 == l
    ensures ((t + 0x400 * l + 0x10_0000 * s) / 0x10_0000) % 0x1000 == s
  {
  }

  lemma HeaderWordOfFields(v: u32)
    ensures v == v % 0x400 + 0x400 * ((v / 0x400) % 0x400) + 0x10_0000 * ((v / 0x10_0000) % 0x1000)
  {
  }

  // The header DWORD, and the size DWORD of an extended header.
  lemma HeaderBytes(h: RecordHeader, rest: seq<byte>)
    ensures var s := EncodeRecordHeader(h) + rest;
      |s| >= 4 && U32(s, 0) == HeaderWord(h) && (h.hasExtendedSize ==> |s| >= 8 && U32(s, 4) == h.size)
  {
    var s := EncodeRecordHeader(h) + rest;
    var w := HeaderWord(h);
    if h.hasExtendedSize {
      assert s == [] + Le32(w) + (Le32(h.size) + rest);
      Le32Read([], w, Le32(h.size) + rest);
      assert s == Le32(w) + Le32(h.size) + rest;
      Le32Read(Le32(w), h.size, rest);
    } else {
      assert s == [] + Le32(w) + rest;
      Le32Read([], w, rest);
    }
  }

  // The three fields of the header word of a well-formed header.
  lemma HeaderWordOf(h: RecordHeader)
    requires WellFormed(h)
    ensures HeaderWord(h) % 0x400 == h.tagId
    ensures (HeaderWord(h) / 0x400) % 0x400 == h.level
    ensures (HeaderWord(h) / 0x10_0000) % 0x1000 == if h.hasExtendedSize then 0xFFF else h.size
  {
    var s := if h.hasExtendedSize then 0xFFF else h.size;
    assert HeaderWord(h) == h.tagId + 0x400 * h.level + 0x10_0000 * s;
    HeaderWordFields(h.tagId, h.level, s);
  }

  // Parsing an encoded header, followed by anything, gives it back with its length.
  lemma ParseEncodeRecordHeader(h: RecordHeader, rest: seq<byte>)
    requires WellFormed(h)
    ensures ParseRecordHeader(EncodeRecordHeader(h) + rest) == Ok((h, |EncodeRecordHeader(h)|))
  {
    HeaderBytes(h, rest);
    HeaderWordOf(h);
  }

  // The header word of the fields cut from a DWORD is that DWORD.
  lemma ParsedWord(v: u32, h: RecordHeader)
    requires h.tagId == v % 0x400 && h.level == (v / 0x400) % 0x400
    requires h.hasExtendedSize <==> (v / 0x10_0000) % 0x1000 == 0xFFF
    requires !h.hasExtendedSize ==> h.size == (v / 0x10_0000) % 0x1000
    ensures HeaderWord(h) == v
  {
    HeaderWordOfFields(v);
  }

  // Conversely, the header bytes of every successful parse are the encoding
  // of the parsed header.
  lemma EncodeParseRecordHeader(data: seq<byte>)
    requires ParseRecordHeader(data).Ok?
    ensures var (h, n) := ParseRecordHeader(data).value;
      WellFormed(h) && EncodeRecordHeader(h) == data[..n]
  {
    var (h, n) := ParseRecordHeader(data).value;
    var v := U32(data, 0);
    ParsedWord(v, h);
    U32Le32(data, 0);
    if h.hasExtendedSize {
      U32Le32(data, 4);
      assert data[..8] == data[0..4] + data[4..8];
    } else {
      assert data[..4] == data[0..4];
    }
  }

  // COLORREF: 0x00bbggrr.
  function Rgb(r: byte, g: byte, b: byte): (c: u32)
    ensures c < 0x100_0000
  {
    b * 0x1_0000 + g * 0x100 + r
  }

  function Red(c: u32): byte { c % 0x100 }
  function Green(c: u32): byte { (c / 0x100) % 0x100 }
  function Blue(c: u32): byte { (c / 0x1_0000) % 0x100 }

  lemma RgbComponents(r: byte, g: byte, b: byte)
    ensures Red(Rgb(r, g, b)) == r && Green(Rgb(r, g, b)) == g && Blue(Rgb(r, g, b)) == b
  {
  }

  // Every colour whose top byte is clear is the rgb of its components.
  lemma ComponentsRgb(c: u32)
    requires c < 0x100_0000
    ensures Rgb(Red(c), Green(c), Blue(c)) == c
  {
    var q := c / 0x100;
    assert c == 0x100 * q + c % 0x100;
    assert q == 0x100 * (q / 0x100) + q % 0x100;
    assert c == 0x1_0000 * (q / 0x100) + (0x100 * (q % 0x100) + c % 0x100);
    DivUnique(c, 0x1_0000, q / 0x100, 0x100 * (q % 0x100) + c % 0x100);
  }
}
