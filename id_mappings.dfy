// The ID mappings record of DocInfo (Table 15 of the format,
// crates/hwp-core/src/document/docinfo/id_mappings.rs): fifteen INT32
// counts, then up to three optional counts that are present when the
// record is long enough.

module IdMappings {
  import opened Bytes
  import opened Errors

  datatype IdMappings = IdMappings(
    binaryData: i32,
    fontKorean: i32,
    fontEnglish: i32,
    fontChinese: i32,
    fontJapanese: i32,
    fontOther: i32,
    fontSymbol: i32,
    fontUser: i32,
    borderFill: i32,
    charShape: i32,
    tabDef: i32,
    paragraphNumbering: i32,
    bullet: i32,
    paragraphShape: i32,
    style: i32,
    memoShape: Option<i32>,
    trackChange: Option<i32>,
    trackChangeAuthor: Option<i32>)

  // The fifteen mandatory counts in record order.
  function Counts(m: IdMappings): (c: seq<i32>)
    ensures |c| == 15
  {
    [m.binaryData, m.fontKorean, m.fontEnglish, m.fontChinese, m.fontJapanese, m.fontOther,
     m.fontSymbol, m.fontUser, m.borderFill, m.charShape, m.tabDef, m.paragraphNumbering,
     m.bullet, m.paragraphShape, m.style]
  }

  // An optional INT32 at offset o, present when the record has at least
  // `min` bytes.
  function OptionalInt32(data: seq<byte>, min: nat, o: nat): (r: Option<i32>)
    requires o + 4 <= min
    ensures r.Some? <==> |data| >= min
    ensures r.Some? ==> r.value == I32(data, o)
  {
    if |data| >= min then Some(I32(data, o)) else None
  }

  // IdMappings::parse by absolute offsets (the version is not consulted).
  function IdMappingsOf(data: seq<byte>): (r: Result<IdMappings>)
    ensures r.Err? <==> |data| < 60
    ensures r.Err? ==> r.error == InsufficientData("IdMappings", 60, |data|)
    ensures r.Ok? ==> Counts(r.value) == Int32sAt(data, 0, 15)
    ensures r.Ok? ==> r.value.memoShape == OptionalInt32(data, 64, 60)
    ensures r.Ok? ==> r.value.trackChange == OptionalInt32(data, 68, 64)
    ensures r.Ok? ==> r.value.trackChangeAuthor == OptionalInt32(data, 72, 68)
  {
    if |data| < 60 then Err(InsufficientData("IdMappings", 60, |data|))
    else
      var m := IdMappings(I32(data, 0), I32(data, 4), I32(data, 8), I32(data, 12), I32(data, 16), I32(data, 20),
        I32(data, 24), I32(data, 28), I32(data, 32), I32(data, 36), I32(data, 40), I32(data, 44), I32(data, 48),
        I32(data, 52), I32(data, 56), OptionalInt32(data, 64, 60), OptionalInt32(data, 68, 64),
        OptionalInt32(data, 72, 68));
      assert Counts(m) == Int32sAt(data, 0, 15) by {
        var c := Int32sAt(data, 0, 15);
        forall k | 0 <= k < 15
          ensures Counts(m)[k] == c[k]
        {
        }
      }
      Ok(m)
  }

  // Each optional count is present only when the one before it is.
  lemma OptionalChain(data: seq<byte>)
    requires IdMappingsOf(data).Ok?
    ensures var m := IdMappingsOf(data).value;
      (m.trackChange.Some? ==> m.memoShape.Some?) && (m.trackChangeAuthor.Some? ==> m.trackChange.Some?)
  {
  }

  // The `read_int32` closure: the INT32 at the offset, and the offset past it.
  method ReadInt32(data: seq<byte>, offset: nat) returns (v: i32, next: nat)
    requires offset + 4 <= |data|
    ensures v == I32(data, offset) && next == offset + 4
  {
    v := I32(data, offset);
    next := offset + 4;
  }

  // IdMappings::parse with its running offset.
  method ParseIdMappings(data: seq<byte>, version: u32) returns (r: Result<IdMappings>)
    ensures r == IdMappingsOf(data)
  {
    if |data| < 60 {
      return Err(InsufficientData("IdMappings", 60, |data|));
    }
    var offset := 0;
    var binaryData;
    binaryData, offset := ReadInt32(data, offset);
    var fontKorean;
    fontKorean, offset := ReadInt32(data, offset);
    var fontEnglish;
    fontEnglish, offset := ReadInt32(data, offset);
    var fontChinese;
    fontChinese, offset := ReadInt32(data, offset);
    var fontJapanese;
    fontJapanese, offset := ReadInt32(data, offset);
    var fontOther;
    fontOther, offset := ReadInt32(data, offset);
    var fontSymbol;
    fontSymbol, offset := ReadInt32(data, offset);
    var fontUser;
    fontUser, offset := ReadInt32(data, offset);
    var borderFill;
    borderFill, offset := ReadInt32(data, offset);
    var charShape;
    charShape, offset := ReadInt32(data, offset);
    var tabDef;
    tabDef, offset := ReadInt32(data, offset);
    var paragraphNumbering;
    paragraphNumbering, offset := ReadInt32(data, offset);
    var bullet;
    bullet, offset := ReadInt32(data, offset);
    var paragraphShape;
    paragraphShape, offset := ReadInt32(data, offset);
    var style;
    style, offset := ReadInt32(data, offset);
    assert offset == 60;
    var memoShape: Option<i32> := None;
    if |data| >= 64 && offset + 4 <= |data| {
      var v;
      v, offset := ReadInt32(data, offset);
      memoShape := Some(v);
    }
    assert memoShape == OptionalInt32(data, 64, 60) && offset == if |data| >= 64 then 64 else 60;
    var trackChange: Option<i32> := None;
    if |data| >= 68 && offset + 4 <= |data| {
      var v;
      v, offset := ReadInt32(data, offset);
      trackChange := Some(v);
    }
    assert trackChange == OptionalInt32(data, 68, 64);
    assert offset == if |data| >= 68 then 68 else if |data| >= 64 then 64 else 60;
    var trackChangeAuthor: Option<i32> := None;
    if |data| >= 72 && offset + 4 <= |data| {
      var v;
      v, offset := ReadInt32(data, offset);
      trackChangeAuthor := Some(v);
    }
    r := Ok(IdMappings(binaryData, fontKorean, fontEnglish, fontChinese, fontJapanese, fontOther, fontSymbol,
      fontUser, borderFill, charShape, tabDef, paragraphNumbering, bullet, paragraphShape, style,
      memoShape, trackChange, trackChangeAuthor));
  }

  // The writer side: an optional count is written only after the one before it.
  predicate WellFormedIdMappings(m: IdMappings)
  {
    (m.trackChange.Some? ==> m.memoShape.Some?) && (m.trackChangeAuthor.Some? ==> m.trackChange.Some?)
  }

  function Present(o: Option<i32>): seq<i32>
  {
    if o.Some? then [o.value] else []
  }

  function EncodeIdMappings(m: IdMappings): seq<byte>
  {
    Words(IntWords(Counts(m) + Present(m.memoShape) + Present(m.trackChange) + Present(m.trackChangeAuthor)))
  }

  lemma IdMappingsLayout(m: IdMappings, k: nat)
    requires WellFormedIdMappings(m)
    ensures var xs := Counts(m) + Present(m.memoShape) + Present(m.trackChange) + Present(m.trackChangeAuthor);
      k < |xs| ==> I32(EncodeIdMappings(m), 4 * k) == xs[k]
  {
    var xs := Counts(m) + Present(m.memoShape) + Present(m.trackChange) + Present(m.trackChangeAuthor);
    if k < |xs| {
      WordAfter([], IntWords(xs), k);
      assert [] + Words(IntWords(xs)) == EncodeIdMappings(m);
    }
  }

  // An encoded record reads back as itself; its length tells which optional
  // counts are there.
  lemma IdMappingsRoundTrip(m: IdMappings)
    requires WellFormedIdMappings(m)
    ensures IdMappingsOf(EncodeIdMappings(m)) == Ok(m)
  {
    var s := EncodeIdMappings(m);
    var xs := Counts(m) + Present(m.memoShape) + Present(m.trackChange) + Present(m.trackChangeAuthor);
    forall k | 0 <= k < |xs|
      ensures I32(s, 4 * k) == xs[k]
    {
      IdMappingsLayout(m, k);
    }
    assert Int32sAt(s, 0, 15) == Counts(m);
    assert |s| == 4 * |xs|;
    if m.memoShape.Some? {
      assert xs[15] == m.memoShape.value;
    }
    if m.trackChange.Some? {
      assert xs[16] == m.trackChange.value;
    }
    if m.trackChangeAuthor.Some? {
      assert xs[17] == m.trackChangeAuthor.value;
    }
  }
}
