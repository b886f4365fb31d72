// The `\005HwpSummaryInformation` stream
// (crates/hwp-core/src/document/summary_information.rs): an OLE property set
// whose header gives the byte order, the number of property sets and the
// offset of the first one; that set lists (property id, value offset)
// entries, and each known id is decoded from its typed value (VT_I2 for the
// codepage, VT_LPSTR / VT_LPWSTR strings, VT_FILETIME dates, VT_I4 counts).

module SummaryInformation {
  import opened Bytes
  import opened Errors
  import opened Text
  import FileTime
  import Utf16

  datatype SummaryInformation = SummaryInformation(
    title: Option<string>,
    subject: Option<string>,
    author: Option<string>,
    keywords: Option<string>,
    comments: Option<string>,
    lastSavedBy: Option<string>,
    revisionNumber: Option<string>,
    lastPrinted: Option<string>,
    createTime: Option<string>,
    lastSavedTime: Option<string>,
    pageCount: Option<i32>,
    dateString: Option<string>,
    paraCount: Option<i32>)

  const Default: SummaryInformation :=
    SummaryInformation(None, None, None, None, None, None, None, None, None, None, None, None, None)

  // The property ids of the summary-information property set.
  const CodepageId: u32 := 0x01
  const TitleId: u32 := 0x02
  const SubjectId: u32 := 0x03
  const AuthorId: u32 := 0x04
  const KeywordsId: u32 := 0x05
  const CommentsId: u32 := 0x06
  const LastAuthorId: u32 := 0x08
  const RevisionNumberId: u32 := 0x09
  const LastPrintedId: u32 := 0x0B
  const CreateTimeId: u32 := 0x0C
  const LastSaveTimeId: u32 := 0x0D
  const PageCountId: u32 := 0x0E
  const DateStringId: u32 := 0x14
  const ParaCountId: u32 := 0x15

  // The variant types of the values.
  const VtI2: u32 := 0x0002
  const VtI4: u32 := 0x0003
  const VtLpstr: u32 := 0x001E
  const VtLpwstr: u32 := 0x001F
  const VtFileTime: u32 := 0x0040

  // The codepages decode_string_by_codepage tells apart.
  const CpUtf16: u16 := 1200
  const CpUtf16Be: u16 := 1201
  const CpUtf8: u16 := 65001
  const CpMs949: u16 := 949
  const CpWindows1252: u16 := 1252
  const CpNone: u16 := 0xFFFF

  // The byte decoders of the encoding_rs crate and the standard library
  // that the parser calls: strict UTF-8 (`String::from_utf8`), Windows-1252
  // and EUC-KR.
  datatype Codecs = Codecs(
    utf8: seq<byte> -> Option<string>,
    windows1252: seq<byte> -> string,
    eucKr: seq<byte> -> string)

  // DWORDs and WORDs in the stream's byte order.
  function Read32(d: seq<byte>, i: nat, bigEndian: bool): u32
    requires i + 4 <= |d|
  {
    if bigEndian then U32Be(d, i) else U32(d, i)
  }

  function Read16(d: seq<byte>, i: nat, bigEndian: bool): u16
    requires i + 2 <= |d|
  {
    if bigEndian then U16Be(d, i) else U16(d, i)
  }

  // ---------------------------------------------------------------------
  // Typed values.

  // parse_vt_i2: the type DWORD, then a signed WORD.
  function VtI2Of(d: seq<byte>, bigEndian: bool): (r: Result<i16>)
    ensures r.Err? <==> |d| < 6 || Read32(d, 0, bigEndian) != VtI2
    ensures |d| < 6 ==> r == Err(InsufficientData("VT_I2", 6, |d|))
    ensures r.Ok? ==> |d| >= 6 && FromI16(r.value) == Read16(d, 4, bigEndian)
  {
    if |d| < 6 then Err(InsufficientData("VT_I2", 6, |d|))
    else if Read32(d, 0, bigEndian) != VtI2 then Err(UnexpectedValue("VT_I2 type"))
    else Ok(AsI16(Read16(d, 4, bigEndian)))
  }

  // parse_vt_i4: the type DWORD, then a signed DWORD.
  function VtI4Of(d: seq<byte>, bigEndian: bool): (r: Result<i32>)
    ensures r.Err? <==> |d| < 8 || Read32(d, 0, bigEndian) != VtI4
    ensures |d| < 8 ==> r == Err(InsufficientData("VT_I4", 8, |d|))
    ensures r.Ok? ==> |d| >= 8 && FromI32(r.value) == Read32(d, 4, bigEndian)
  {
    if |d| < 8 then Err(InsufficientData("VT_I4", 8, |d|))
    else if Read32(d, 0, bigEndian) != VtI4 then Err(UnexpectedValue("VT_I4 type"))
    else Ok(AsI32(Read32(d, 4, bigEndian)))
  }

  // parse_vt_filetime: the type DWORD, then the low and the high DWORD.
  function VtFileTimeOf(d: seq<byte>, bigEndian: bool): (r: Result<FileTime.FileTime>)
    ensures r.Err? <==> |d| < 12 || Read32(d, 0, bigEndian) != VtFileTime
    ensures |d| < 12 ==> r == Err(InsufficientData("VT_FILETIME", 12, |d|))
    ensures r.Ok? ==> |d| >= 12 && r.value.low == Read32(d, 4, bigEndian) && r.value.high == Read32(d, 8, bigEndian)
  {
    if |d| < 12 then Err(InsufficientData("VT_FILETIME", 12, |d|))
    else if Read32(d, 0, bigEndian) != VtFileTime then Err(UnexpectedValue("VT_FILETIME type"))
    else Ok(FileTime.FileTime(Read32(d, 4, bigEndian), Read32(d, 8, bigEndian)))
  }

  // The characters of the 16-bit code units from byte i on, as the
  // `step_by(2)` loops decode them: a unit that is a surrogate has no
  // `char` and is skipped, a trailing odd byte is ignored, and a NUL unit
  // either ends the string or is dropped.
  function UnitsText(b: seq<byte>, i: nat, bigEndian: bool, stopAtNul: bool): (s: string)
    ensures '\0' !in s
    ensures forall k :: 0 <= k < |s| ==> !Utf16.IsSurrogate(s[k] as int)
    decreases |b| - i
  {
    if i + 1 >= |b| then ""
    else
      var u := Read16(b, i, bigEndian);
      if u == 0 && stopAtNul then ""
      else (if u == 0 || Utf16.IsSurrogate(u) then "" else [u as char]) + UnitsText(b, i + 2, bigEndian, stopAtNul)
  }

  // The `for i in (0..len).step_by(2)` loops of parse_vt_lpwstr and of the
  // UTF-16 codepages.
  method DecodeUnits(b: seq<byte>, bigEndian: bool, stopAtNul: bool) returns (s: string)
    ensures s == UnitsText(b, 0, bigEndian, stopAtNul)
  {
    s := "";
    var i := 0;
    while i < |b|
      invariant UnitsText(b, 0, bigEndian, stopAtNul) == s + UnitsText(b, i, bigEndian, stopAtNul)
      decreases |b| - i
    {
      if i + 1 < |b| {
        var u := Read16(b, i, bigEndian);
        if u == 0 && stopAtNul {
          return;
        }
        if u != 0 && !Utf16.IsSurrogate(u) {
          Associative(s, [u as char], UnitsText(b, i + 2, bigEndian, stopAtNul));
          s := s + [u as char];
        }
      }
      i := i + 2;
    }
  }

  // `result[..pos]` for the first NUL, or the whole string.
  function CutAtNul(s: string): (r: string)
    ensures |r| <= |s| && r == s[..|r|]
    ensures '\0' !in r
    ensures |r| < |s| ==> s[|r|] == '\0'
  {
    if |s| == 0 then ""
    else if s[0] == '\0' then ""
    else [s[0]] + CutAtNul(s[1..])
  }

  // A string that reaches its NUL is cut there; one with no NUL is kept.
  lemma {:induction false} CutAtNulOfTerminated(s: string, rest: string)
    requires '\0' !in s
    ensures CutAtNul(s + ['\0'] + rest) == s
    ensures CutAtNul(s) == s
    decreases |s|
  {
    var t := s + ['\0'] + rest;
    if |s| == 0 {
      assert t[0] == '\0';
    } else {
      assert t[0] == s[0] && t[1..] == s[1..] + ['\0'] + rest;
      assert '\0' !in s[1..] by {
        forall k | 0 <= k < |s[1..]|
          ensures s[1..][k] != '\0'
        {
          assert s[1..][k] == s[k + 1];
        }
      }
      CutAtNulOfTerminated(s[1..], rest);
      assert s == [s[0]] + s[1..];
    }
  }

  // `String::from_utf8(..).unwrap_or_else(|_| WINDOWS_1252.decode(..))`.
  function Utf8Or1252(d: seq<byte>, codecs: Codecs): string
  {
    match codecs.utf8(d)
    case Some(s) => s
    case None => codecs.windows1252(d)
  }

  // decode_string_by_codepage: the empty slice is the empty string; the
  // UTF-16 codepages are decoded unit by unit with NULs dropped; UTF-8 may
  // fail with EncodingError; the other named codepages use their decoder;
  // no codepage or an unknown one tries UTF-8, then Windows-1252. The text
  // is cut at its first NUL.
  function DecodeByCodepage(d: seq<byte>, codepage: u16, codecs: Codecs): (r: Result<string>)
    ensures |d| == 0 ==> r == Ok("")
    ensures r.Err? ==> codepage == CpUtf8 && codecs.utf8(d).None? && r.error == EncodingError
    ensures r.Ok? ==> '\0' !in r.value
    ensures codepage == CpUtf16 ==> r == Ok(UnitsText(d, 0, false, false))
    ensures codepage == CpUtf16Be ==> r == Ok(UnitsText(d, 0, true, false))
  {
    if |d| == 0 then Ok("")
    else
      var decoded: Result<string> :=
        if codepage == CpNone then Ok(Utf8Or1252(d, codecs))
        else if codepage == CpUtf16 then Ok(UnitsText(d, 0, false, false))
        else if codepage == CpUtf16Be then Ok(UnitsText(d, 0, true, false))
        else if codepage == CpUtf8 then (match codecs.utf8(d) case Some(s) => Ok(s) case None => Err(EncodingError))
        else if codepage == CpMs949 then Ok(codecs.eucKr(d))
        else if codepage == CpWindows1252 then Ok(codecs.windows1252(d))
        else Ok(Utf8Or1252(d, codecs));
      match decoded
      case Err(e) => Err(e)
      case Ok(s) =>
        CutAtNulOfTerminated(UnitsText(d, 0, codepage == CpUtf16Be, false), "");
        Ok(CutAtNul(s))
  }

  // decode_string_by_codepage with the UTF-16 loops as a method.
  method DecodeStringByCodepage(d: seq<byte>, codepage: u16, codecs: Codecs) returns (r: Result<string>)
    ensures r == DecodeByCodepage(d, codepage, codecs)
  {
    if |d| == 0 {
      return Ok("");
    }
    var decoded: Result<string>;
    if codepage == CpNone {
      decoded := Ok(Utf8Or1252(d, codecs));
    } else if codepage == CpUtf16 || codepage == CpUtf16Be {
      var s := DecodeUnits(d, codepage == CpUtf16Be, false);
      decoded := Ok(s);
    } else if codepage == CpUtf8 {
      var s := codecs.utf8(d);
      decoded := if s.Some? then Ok(s.value) else Err(EncodingError);
    } else if codepage == CpMs949 {
      decoded := Ok(codecs.eucKr(d));
    } else if codepage == CpWindows1252 {
      decoded := Ok(codecs.windows1252(d));
    } else {
      decoded := Ok(Utf8Or1252(d, codecs));
    }
    if decoded.Err? {
      return Err(decoded.error);
    }
    r := Ok(CutAtNul(decoded.value));
  }

  // parse_vt_lpwstr: the type DWORD, a character count, then that many
  // UTF-16LE units (whatever the stream's byte order), up to the first NUL.
  function VtLpwstrOf(d: seq<byte>, bigEndian: bool): (r: Result<string>)
    ensures |d| < 8 ==> r == Err(InsufficientData("VT_LPWSTR", 8, |d|))
    ensures |d| >= 8 && Read32(d, 0, bigEndian) != VtLpwstr ==> r == Err(UnexpectedValue("VT_LPWSTR type"))
    ensures r.Ok? ==>
      |d| >= 8 && Read32(d, 0, bigEndian) == VtLpwstr && 8 + 2 * Read32(d, 4, bigEndian) <= |d| &&
      r.value == UnitsText(d[8..8 + 2 * Read32(d, 4, bigEndian)], 0, false, true)
    ensures r.Err? && |d| >= 8 && Read32(d, 0, bigEndian) == VtLpwstr ==>
      r == Err(InsufficientData("VT_LPWSTR string", 8 + 2 * Read32(d, 4, bigEndian), |d|))
  {
    if |d| < 8 then Err(InsufficientData("VT_LPWSTR", 8, |d|))
    else if Read32(d, 0, bigEndian) != VtLpwstr then Err(UnexpectedValue("VT_LPWSTR type"))
    else
      var count := Read32(d, 4, bigEndian);
      if count == 0 then Ok("")
      else if |d| < 8 + 2 * count then Err(InsufficientData("VT_LPWSTR string", 8 + 2 * count, |d|))
      else Ok(UnitsText(d[8..8 + 2 * count], 0, false, true))
  }

  method ParseVtLpwstr(d: seq<byte>, bigEndian: bool) returns (r: Result<string>)
    ensures r == VtLpwstrOf(d, bigEndian)
  {
    if |d| < 8 {
      return Err(InsufficientData("VT_LPWSTR", 8, |d|));
    }
    if Read32(d, 0, bigEndian) != VtLpwstr {
      return Err(UnexpectedValue("VT_LPWSTR type"));
    }
    var charCount: nat := Read32(d, 4, bigEndian);
    if charCount == 0 {
      return Ok("");
    }
    var byteCount: nat := charCount * 2;
    if |d| < 8 + byteCount {
      return Err(InsufficientData("VT_LPWSTR string", 8 + byteCount, |d|));
    }
    var s := DecodeUnits(d[8..8 + byteCount], false, true);
    r := Ok(s);
  }

  // parse_vt_lpstr: a VT_LPWSTR value is handed on; a VT_LPSTR value is a
  // byte count and that many bytes in the codepage.
  function VtLpstrOf(d: seq<byte>, bigEndian: bool, codepage: u16, codecs: Codecs): (r: Result<string>)
    ensures |d| < 8 ==> r == Err(InsufficientData("VT_LPSTR/VT_LPWSTR", 8, |d|))
    ensures |d| >= 8 && Read32(d, 0, bigEndian) == VtLpwstr ==> r == VtLpwstrOf(d, bigEndian)
    ensures |d| >= 8 && Read32(d, 0, bigEndian) != VtLpwstr && Read32(d, 0, bigEndian) != VtLpstr ==>
      r == Err(UnexpectedValue("VT_LPSTR/VT_LPWSTR type"))
    ensures |d| >= 8 && Read32(d, 0, bigEndian) == VtLpstr ==>
      r == (if |d| < 8 + Read32(d, 4, bigEndian)
            then Err(InsufficientData("VT_LPSTR string", 8 + Read32(d, 4, bigEndian), |d|))
            else DecodeByCodepage(d[8..8 + Read32(d, 4, bigEndian)], codepage, codecs))
  {
    if |d| < 8 then Err(InsufficientData("VT_LPSTR/VT_LPWSTR", 8, |d|))
    else
      var vtType := Read32(d, 0, bigEndian);
      if vtType == VtLpwstr then VtLpwstrOf(d, bigEndian)
      else if vtType != VtLpstr then Err(UnexpectedValue("VT_LPSTR/VT_LPWSTR type"))
      else
        var size := Read32(d, 4, bigEndian);
        if |d| < 8 + size then Err(InsufficientData("VT_LPSTR string", 8 + size, |d|))
        else DecodeByCodepage(d[8..8 + size], codepage, codecs)
  }

  method ParseVtLpstr(d: seq<byte>, bigEndian: bool, codepage: u16, codecs: Codecs) returns (r: Result<string>)
    ensures r == VtLpstrOf(d, bigEndian, codepage, codecs)
  {
    if |d| < 8 {
      return Err(InsufficientData("VT_LPSTR/VT_LPWSTR", 8, |d|));
    }
    var vtType := Read32(d, 0, bigEndian);
    if vtType == VtLpwstr {
      r := ParseVtLpwstr(d, bigEndian);
      return;
    }
    if vtType != VtLpstr {
      return Err(UnexpectedValue("VT_LPSTR/VT_LPWSTR type"));
    }
    var size: nat := Read32(d, 4, bigEndian);
    if |d| < 8 + size {
      return Err(InsufficientData("VT_LPSTR string", 8 + size, |d|));
    }
    r := DecodeStringByCodepage(d[8..8 + size], codepage, codecs);
  }

  // `.ok()`: a failed value is None.
  function AsOption<T>(r: Result<T>): (o: Option<T>)
    ensures o.Some? <==> r.Ok?
    ensures r.Ok? ==> o.value == r.value
  {
    match r
    case Ok(v) => Some(v)
    case Err(_) => None
  }

  // ---------------------------------------------------------------------
  // The fields of SummaryInformation by property id.

  // The ids stored as strings: the VT_LPSTR texts and the three dates.
  predicate IsTextId(pid: u32)
  {
    pid == TitleId || pid == SubjectId || pid == AuthorId || pid == KeywordsId || pid == CommentsId ||
    pid == LastAuthorId || pid == RevisionNumberId || pid == LastPrintedId || pid == CreateTimeId ||
    pid == LastSaveTimeId || pid == DateStringId
  }

  predicate IsDateId(pid: u32)
  {
    pid == LastPrintedId || pid == CreateTimeId || pid == LastSaveTimeId
  }

  // The ids stored as VT_I4 counts.
  predicate IsCountId(pid: u32)
  {
    pid == PageCountId || pid == ParaCountId
  }

  function TextField(info: SummaryInformation, pid: u32): Option<string>
  {
    if pid == TitleId then info.title
    else if pid == SubjectId then info.subject
    else if pid == AuthorId then info.author
    else if pid == KeywordsId then info.keywords
    else if pid == CommentsId then info.comments
    else if pid == LastAuthorId then info.lastSavedBy
    else if pid == RevisionNumberId then info.revisionNumber
    else if pid == LastPrintedId then info.lastPrinted
    else if pid == CreateTimeId then info.createTime
    else if pid == LastSaveTimeId then info.lastSavedTime
    else if pid == DateStringId then info.dateString
    else None
  }

  function CountField(info: SummaryInformation, pid: u32): Option<i32>
  {
    if pid == PageCountId then info.pageCount
    else if pid == ParaCountId then info.paraCount
    else None
  }

  // The fields named by the ids are the whole structure.
  lemma FieldsDetermine(a: SummaryInformation, b: SummaryInformation)
    requires forall pid :: TextField(a, pid) == TextField(b, pid)
    requires forall pid :: CountField(a, pid) == CountField(b, pid)
    ensures a == b
  {
    assert TextField(a, TitleId) == TextField(b, TitleId);
    assert TextField(a, SubjectId) == TextField(b, SubjectId);
    assert TextField(a, AuthorId) == TextField(b, AuthorId);
    assert TextField(a, KeywordsId) == TextField(b, KeywordsId);
    assert TextField(a, CommentsId) == TextField(b, CommentsId);
    assert TextField(a, LastAuthorId) == TextField(b, LastAuthorId);
    assert TextField(a, RevisionNumberId) == TextField(b, RevisionNumberId);
    assert TextField(a, LastPrintedId) == TextField(b, LastPrintedId);
    assert TextField(a, CreateTimeId) == TextField(b, CreateTimeId);
    assert TextField(a, LastSaveTimeId) == TextField(b, LastSaveTimeId);
    assert TextField(a, DateStringId) == TextField(b, DateStringId);
    assert CountField(a, PageCountId) == CountField(b, PageCountId);
    assert CountField(a, ParaCountId) == CountField(b, ParaCountId);
  }

  // The assignment `result.<field> = v` for a text id.
  function SetText(info: SummaryInformation, pid: u32, v: Option<string>): SummaryInformation
    requires IsTextId(pid)
  {
    if pid == TitleId then info.(title := v)
    else if pid == SubjectId then info.(subject := v)
    else if pid == AuthorId then info.(author := v)
    else if pid == KeywordsId then info.(keywords := v)
    else if pid == CommentsId then info.(comments := v)
    else if pid == LastAuthorId then info.(lastSavedBy := v)
    else if pid == RevisionNumberId then info.(revisionNumber := v)
    else if pid == LastPrintedId then info.(lastPrinted := v)
    else if pid == CreateTimeId then info.(createTime := v)
    else if pid == LastSaveTimeId then info.(lastSavedTime := v)
    else info.(dateString := v)
  }

  // The assignment `result.<field> = v` for a count id.
  function SetCount(info: SummaryInformation, pid: u32, v: Option<i32>): SummaryInformation
    requires IsCountId(pid)
  {
    if pid == PageCountId then info.(pageCount := v) else info.(paraCount := v)
  }

  // Setting a text field changes that field and no other.
  lemma SetTextFields(info: SummaryInformation, pid: u32, v: Option<string>)
    requires IsTextId(pid)
    ensures forall q :: TextField(SetText(info, pid, v), q) == if q == pid then v else TextField(info, q)
    ensures forall q :: CountField(SetText(info, pid, v), q) == CountField(info, q)
  {
  }

  // Setting a count field changes that field and no other.
  lemma SetCountFields(info: SummaryInformation, pid: u32, v: Option<i32>)
    requires IsCountId(pid)
    ensures forall q :: TextField(SetCount(info, pid, v), q) == TextField(info, q)
    ensures forall q :: CountField(SetCount(info, pid, v), q) == if q == pid then v else CountField(info, q)
  {
  }

  // ---------------------------------------------------------------------
  // The property entries.

  // The value a text id takes from the bytes at its offset: a date is a
  // VT_FILETIME as `to_utc9_string` writes it, any other text a VT_LPSTR.
  function TextValue(pid: u32, d: seq<byte>, bigEndian: bool, codepage: u16, codecs: Codecs): Option<string>
  {
    if IsDateId(pid) then
      (match VtFileTimeOf(d, bigEndian)
       case Ok(ft) => Some(FileTime.Utc9String(ft))
       case Err(_) => None)
    else AsOption(VtLpstrOf(d, bigEndian, codepage, codecs))
  }

  function CountValue(d: seq<byte>, bigEndian: bool): Option<i32>
  {
    AsOption(VtI4Of(d, bigEndian))
  }

  // The `match property_id` of the entry loop.
  function StoreValue(info: SummaryInformation, pid: u32, d: seq<byte>, bigEndian: bool, codepage: u16,
                      codecs: Codecs): SummaryInformation
  {
    if IsTextId(pid) then SetText(info, pid, TextValue(pid, d, bigEndian, codepage, codecs))
    else if IsCountId(pid) then SetCount(info, pid, CountValue(d, bigEndian))
    else info
  }

  // Storing a value changes the field of its id, if it names one, and no
  // other field.
  lemma StoreValueFields(info: SummaryInformation, pid: u32, d: seq<byte>, bigEndian: bool, codepage: u16,
                         codecs: Codecs)
    ensures var r := StoreValue(info, pid, d, bigEndian, codepage, codecs);
      forall q ::
        TextField(r, q) == if q == pid && IsTextId(pid) then TextValue(pid, d, bigEndian, codepage, codecs) else TextField(info, q)
    ensures var r := StoreValue(info, pid, d, bigEndian, codepage, codecs);
      forall q ::
        CountField(r, q) == if q == pid && IsCountId(pid) then CountValue(d, bigEndian) else CountField(info, q)
  {
    if IsTextId(pid) {
      SetTextFields(info, pid, TextValue(pid, d, bigEndian, codepage, codecs));
    } else if IsCountId(pid) {
      SetCountFields(info, pid, CountValue(d, bigEndian));
    }
  }

  // What the loop carries from entry to entry.
  datatype State = State(info: SummaryInformation, codepage: u16)

  // The property id and the value offset of entry i.
  function EntryId(data: seq<byte>, start: nat, bigEndian: bool, i: nat): u32
    requires start + 8 + 8 * i + 8 <= |data|
  {
    Read32(data, start + 8 + 8 * i, bigEndian)
  }

  function EntryOffset(data: seq<byte>, start: nat, bigEndian: bool, i: nat): u32
    requires start + 8 + 8 * i + 8 <= |data|
  {
    Read32(data, start + 8 + 8 * i + 4, bigEndian)
  }

  // Entry i has a value inside the stream: the others are skipped.
  predicate InRange(data: seq<byte>, start: nat, bigEndian: bool, i: nat)
    requires start + 8 + 8 * i + 8 <= |data|
  {
    start + EntryOffset(data, start, bigEndian, i) < |data|
  }

  // One turn of the entry loop, once the value bytes d are located: a
  // codepage entry sets the codepage when its VT_I2 parses; any other entry
  // stores its field.
  function ValueStep(pid: u32, d: seq<byte>, bigEndian: bool, codecs: Codecs, st: State): (r: State)
    ensures pid != CodepageId ==> r.codepage == st.codepage
  {
    if pid == CodepageId then
      (match VtI2Of(d, bigEndian)
       case Ok(cp) => st.(codepage := FromI16(cp))
       case Err(_) => st)
    else st.(info := StoreValue(st.info, pid, d, bigEndian, st.codepage, codecs))
  }

  // Entry i: skipped when its value offset falls outside the stream.
  function EntryStep(data: seq<byte>, start: nat, bigEndian: bool, codecs: Codecs, i: nat, st: State): (r: State)
    requires start + 8 + 8 * i + 8 <= |data|
    ensures !InRange(data, start, bigEndian, i) ==> r == st
    ensures EntryId(data, start, bigEndian, i) != CodepageId ==> r.codepage == st.codepage
  {
    var vdo := start + EntryOffset(data, start, bigEndian, i);
    if vdo >= |data| then st
    else ValueStep(EntryId(data, start, bigEndian, i), data[vdo..], bigEndian, codecs, st)
  }

  // The loop body as a value: entry k applied to a state. Entries past
  // the table are never reached, since SummaryOf checks that it fits.
  function Steps(data: seq<byte>, start: nat, bigEndian: bool, codecs: Codecs): (nat, State) -> State
  {
    (k: nat, st: State) =>
      if start + 8 + 8 * k + 8 <= |data| then EntryStep(data, start, bigEndian, codecs, k, st) else st
  }

  // The state after the first n steps, starting from the default structure
  // and no codepage.
  function Fold(step: (nat, State) -> State, n: nat): State
  {
    if n == 0 then State(Default, CpNone) else step(n - 1, Fold(step, n - 1))
  }

  // The state after the first n entries.
  function StateAfter(data: seq<byte>, start: nat, bigEndian: bool, codecs: Codecs, n: nat): State
    requires start + 8 + 8 * n <= |data|
  {
    Fold(Steps(data, start, bigEndian, codecs), n)
  }

  // Entry k would write field pid.
  predicate Writes(data: seq<byte>, start: nat, bigEndian: bool, k: nat, pid: u32)
    requires start + 8 + 8 * k + 8 <= |data|
  {
    InRange(data, start, bigEndian, k) && EntryId(data, start, bigEndian, k) == pid
  }

  // An entry that does not write field pid leaves it as it was.
  lemma StepKeeps(data: seq<byte>, start: nat, bigEndian: bool, codecs: Codecs, k: nat, st: State, pid: u32)
    requires start + 8 + 8 * k + 8 <= |data| && !Writes(data, start, bigEndian, k, pid)
    ensures TextField(EntryStep(data, start, bigEndian, codecs, k, st).info, pid) == TextField(st.info, pid)
    ensures CountField(EntryStep(data, start, bigEndian, codecs, k, st).info, pid) == CountField(st.info, pid)
  {
    if InRange(data, start, bigEndian, k) {
      var id := EntryId(data, start, bigEndian, k);
      var d := data[start + EntryOffset(data, start, bigEndian, k)..];
      assert EntryStep(data, start, bigEndian, codecs, k, st) == ValueStep(id, d, bigEndian, codecs, st);
      if id != CodepageId {
        StoreValueFields(st.info, id, d, bigEndian, st.codepage, codecs);
      }
    }
  }

  // An entry that writes field pid stores the value decoded at its offset.
  lemma StepWrites(data: seq<byte>, start: nat, bigEndian: bool, codecs: Codecs, k: nat, st: State, pid: u32)
    requires start + 8 + 8 * k + 8 <= |data| && Writes(data, start, bigEndian, k, pid) && pid != CodepageId
    ensures var d := data[start + EntryOffset(data, start, bigEndian, k)..];
      var r := EntryStep(data, start, bigEndian, codecs, k, st).info;
      (IsTextId(pid) ==> TextField(r, pid) == TextValue(pid, d, bigEndian, st.codepage, codecs)) &&
      (IsCountId(pid) ==> CountField(r, pid) == CountValue(d, bigEndian))
  {
    var vdo := start + EntryOffset(data, start, bigEndian, k);
    StoreValueFields(st.info, pid, data[vdo..], bigEndian, st.codepage, codecs);
  }

  // Field pid is the same in both states.
  predicate SameField(a: State, b: State, pid: u32)
  {
    TextField(a.info, pid) == TextField(b.info, pid) && CountField(a.info, pid) == CountField(b.info, pid)
  }

  // Steps from j on that each keep field pid keep it over the whole run.
  lemma {:induction false} FoldUntouched(step: (nat, State) -> State, j: nat, n: nat, pid: u32)
    requires j <= n
    requires forall k: nat, st: State :: j <= k < n ==> SameField(step(k, st), st, pid)
    ensures SameField(Fold(step, n), Fold(step, j), pid)
    decreases n
  {
    if j < n {
      FoldUntouched(step, j, n - 1, pid);
    }
  }

  // A field that no entry from j on writes keeps the value it had after
  // entry j.
  lemma Untouched(data: seq<byte>, start: nat, bigEndian: bool, codecs: Codecs, j: nat, n: nat, pid: u32)
    requires j <= n && start + 8 + 8 * n <= |data|
    requires forall k :: j <= k < n ==> !Writes(data, start, bigEndian, k, pid)
    ensures TextField(StateAfter(data, start, bigEndian, codecs, n).info, pid) ==
            TextField(StateAfter(data, start, bigEndian, codecs, j).info, pid)
    ensures CountField(StateAfter(data, start, bigEndian, codecs, n).info, pid) ==
            CountField(StateAfter(data, start, bigEndian, codecs, j).info, pid)
  {
    var step := Steps(data, start, bigEndian, codecs);
    forall k: nat, st: State | j <= k < n
      ensures SameField(step(k, st), st, pid)
    {
      StepKeeps(data, start, bigEndian, codecs, k, st, pid);
    }
    FoldUntouched(step, j, n, pid);
  }

  // The field of an id is decoded from the last in-range entry with that
  // id, in the codepage in force when that entry was reached.
  lemma LastWriterWins(data: seq<byte>, start: nat, bigEndian: bool, codecs: Codecs, j: nat, n: nat, pid: u32)
    requires j < n && start + 8 + 8 * n <= |data|
    requires pid != CodepageId && Writes(data, start, bigEndian, j, pid)
    requires forall k :: j < k < n ==> !Writes(data, start, bigEndian, k, pid)
    ensures var before := StateAfter(data, start, bigEndian, codecs, j);
      var d := data[start + EntryOffset(data, start, bigEndian, j)..];
      var after := StateAfter(data, start, bigEndian, codecs, n).info;
      (IsTextId(pid) ==> TextField(after, pid) == TextValue(pid, d, bigEndian, before.codepage, codecs)) &&
      (IsCountId(pid) ==> CountField(after, pid) == CountValue(d, bigEndian))
  {
    Untouched(data, start, bigEndian, codecs, j + 1, n, pid);
    var before := StateAfter(data, start, bigEndian, codecs, j);
    assert StateAfter(data, start, bigEndian, codecs, j + 1) == EntryStep(data, start, bigEndian, codecs, j, before);
    StepWrites(data, start, bigEndian, codecs, j, before, pid);
  }

  // A field that no entry writes stays None.
  lemma NeverWritten(data: seq<byte>, start: nat, bigEndian: bool, codecs: Codecs, n: nat, pid: u32)
    requires start + 8 + 8 * n <= |data|
    requires forall k :: 0 <= k < n ==> !Writes(data, start, bigEndian, k, pid)
    ensures TextField(StateAfter(data, start, bigEndian, codecs, n).info, pid) == None
    ensures CountField(StateAfter(data, start, bigEndian, codecs, n).info, pid) == None
  {
    Untouched(data, start, bigEndian, codecs, 0, n, pid);
  }

  // ---------------------------------------------------------------------
  // The stream.

  // SummaryInformation::parse: the header checks, then the entry loop over
  // the first property set.
  function SummaryOf(data: seq<byte>, codecs: Codecs): (r: Result<SummaryInformation>)
    ensures |data| == 0 ==> r == Ok(Default)
    ensures 0 < |data| < 24 ==> r == Err(InsufficientData("Property Set header", 24, |data|))
    ensures |data| >= 24 && U16Be(data, 0) != 0xFEFF && U16Be(data, 0) != 0xFFFE ==>
      r == Err(UnexpectedValue("Property Set byte order"))
    ensures r.Ok? && r.value != Default ==>
      |data| >= 48 && (U16Be(data, 0) == 0xFEFF || U16Be(data, 0) == 0xFFFE) &&
      Read32(data, 24, U16Be(data, 0) == 0xFFFE) != 0
  {
    if |data| == 0 then Ok(Default)
    else if |data| < 24 then Err(InsufficientData("Property Set header", 24, |data|))
    else
      var byteOrder := U16Be(data, 0);
      if byteOrder != 0xFEFF && byteOrder != 0xFFFE then Err(UnexpectedValue("Property Set byte order"))
      else
        var bigEndian := byteOrder == 0xFFFE;
        if 28 > |data| then Err(InsufficientData("propsetDescList count", 4, |data| - 24))
        else if Read32(data, 24, bigEndian) == 0 then Ok(Default)
        else if 48 > |data| then Err(InsufficientData("PropertySetDesc", 48, |data|))
        else
          var start: nat := Read32(data, 44, bigEndian);
          if start >= |data| then Err(UnexpectedValue("Property Set offset (start=" + Decimal(start) + ")"))
          else if start + 8 > |data| then Err(InsufficientData("Property Set header", 8, |data| - start))
          else
            var n: nat := Read32(data, start + 4, bigEndian);
            if start + 8 + n * 8 > |data| then Err(InsufficientData("property entries", start + 8 + n * 8, |data|))
            else Ok(StateAfter(data, start, bigEndian, codecs, n).info)
  }

  // The error tiers of the header, in the order parse checks them.
  lemma SummaryErrors(data: seq<byte>, codecs: Codecs)
    requires |data| >= 28 && (U16Be(data, 0) == 0xFEFF || U16Be(data, 0) == 0xFFFE)
    ensures var bigEndian := U16Be(data, 0) == 0xFFFE;
      Read32(data, 24, bigEndian) == 0 ==> SummaryOf(data, codecs) == Ok(Default)
    ensures var bigEndian := U16Be(data, 0) == 0xFFFE;
      Read32(data, 24, bigEndian) != 0 && |data| < 48 ==>
        SummaryOf(data, codecs) == Err(InsufficientData("PropertySetDesc", 48, |data|))
    ensures var bigEndian := U16Be(data, 0) == 0xFFFE;
      Read32(data, 24, bigEndian) != 0 && |data| >= 48 && Read32(data, 44, bigEndian) >= |data| ==>
        SummaryOf(data, codecs).Err? && SummaryOf(data, codecs).error.UnexpectedValue?
    ensures var bigEndian := U16Be(data, 0) == 0xFFFE;
      Read32(data, 24, bigEndian) != 0 && |data| >= 48 && Read32(data, 44, bigEndian) < |data| < Read32(data, 44, bigEndian) + 8 ==>
        SummaryOf(data, codecs) ==
          Err(InsufficientData("Property Set header", 8, |data| - Read32(data, 44, bigEndian)))
  {
  }

  // Past the header checks the structure is the state after all entries.
  lemma SummaryOfEntries(data: seq<byte>, codecs: Codecs, bigEndian: bool, start: nat, n: nat)
    requires |data| >= 48 && (U16Be(data, 0) == 0xFEFF || U16Be(data, 0) == 0xFFFE)
    requires bigEndian == (U16Be(data, 0) == 0xFFFE) && Read32(data, 24, bigEndian) != 0
    requires start == Read32(data, 44, bigEndian) && start + 8 <= |data| && n == Read32(data, start + 4, bigEndian)
    ensures start + 8 + 8 * n > |data| ==>
      SummaryOf(data, codecs) == Err(InsufficientData("property entries", start + 8 + 8 * n, |data|))
    ensures start + 8 + 8 * n <= |data| ==>
      SummaryOf(data, codecs) == Ok(StateAfter(data, start, bigEndian, codecs, n).info)
  {
  }

  // ---------------------------------------------------------------------
  // The parser as written, with its entry loop.

  // One turn of the entry loop.
  method ApplyEntry(data: seq<byte>, start: nat, bigEndian: bool, codecs: Codecs, i: nat, st: State)
    returns (r: State)
    requires start + 8 + 8 * i + 8 <= |data|
    ensures r == EntryStep(data, start, bigEndian, codecs, i, st)
  {
    var entryOffset := start + 8 + 8 * i;
    var propertyId := Read32(data, entryOffset, bigEndian);
    var valueOffset: nat := Read32(data, entryOffset + 4, bigEndian);
    var valueDataOffset := start + valueOffset;
    EntryStepAt(data, start, bigEndian, codecs, i, st, propertyId, valueDataOffset);
    if valueDataOffset >= |data| {
      return st;
    }
    r := ApplyValue(propertyId, data[valueDataOffset..], bigEndian, codecs, st);
  }

  // EntryStep once the entry's id and value position are read.
  lemma EntryStepAt(data: seq<byte>, start: nat, bigEndian: bool, codecs: Codecs, i: nat, st: State, pid: u32, vdo: nat)
    requires start + 8 + 8 * i + 8 <= |data|
    requires pid == Read32(data, start + 8 + 8 * i, bigEndian)
    requires vdo == start + Read32(data, start + 8 + 8 * i + 4, bigEndian) as nat
    ensures vdo >= |data| ==> EntryStep(data, start, bigEndian, codecs, i, st) == st
    ensures vdo < |data| ==> EntryStep(data, start, bigEndian, codecs, i, st) == ValueStep(pid, data[vdo..], bigEndian, codecs, st)
  {
  }

  // The codepage arm, or the field arms.
  method ApplyValue(pid: u32, d: seq<byte>, bigEndian: bool, codecs: Codecs, st: State) returns (r: State)
    ensures r == ValueStep(pid, d, bigEndian, codecs, st)
  {
    if pid == CodepageId {
      var cp := VtI2Of(d, bigEndian);
      r := if cp.Ok? then st.(codepage := FromI16(cp.value)) else st;
      return;
    }
    var info := StoreEntry(st.info, pid, d, bigEndian, st.codepage, codecs);
    r := st.(info := info);
  }

  // The `match property_id` arms.
  method StoreEntry(info: SummaryInformation, pid: u32, d: seq<byte>, bigEndian: bool, codepage: u16, codecs: Codecs)
    returns (r: SummaryInformation)
    ensures r == StoreValue(info, pid, d, bigEndian, codepage, codecs)
  {
    if IsTextId(pid) {
      var v := ReadTextValue(pid, d, bigEndian, codepage, codecs);
      r := SetText(info, pid, v);
    } else if IsCountId(pid) {
      r := SetCount(info, pid, AsOption(VtI4Of(d, bigEndian)));
    } else {
      r := info;
    }
  }

  method ReadTextValue(pid: u32, d: seq<byte>, bigEndian: bool, codepage: u16, codecs: Codecs)
    returns (v: Option<string>)
    ensures v == TextValue(pid, d, bigEndian, codepage, codecs)
  {
    if IsDateId(pid) {
      var ft := VtFileTimeOf(d, bigEndian);
      v := None;
      if ft.Ok? {
        var text := FileTime.ToUtc9String(ft.value);
        v := Some(text);
      }
    } else {
      var text := ParseVtLpstr(d, bigEndian, codepage, codecs);
      v := AsOption(text);
    }
  }

  // SummaryInformation::parse.
  method ParseSummaryInformation(data: seq<byte>, codecs: Codecs) returns (r: Result<SummaryInformation>)
    ensures r == SummaryOf(data, codecs)
  {
    if |data| == 0 {
      return Ok(Default);
    }
    if |data| < 24 {
      return Err(InsufficientData("Property Set header", 24, |data|));
    }
    var byteOrder := U16Be(data, 0);
    var isBigEndian := byteOrder == 0xFFFE;
    if byteOrder != 0xFEFF && byteOrder != 0xFFFE {
      return Err(UnexpectedValue("Property Set byte order"));
    }
    var offset := 24;
    if offset + 4 > |data| {
      return Err(InsufficientData("propsetDescList count", 4, |data| - offset));
    }
    var numPropertySets := Read32(data, offset, isBigEndian);
    offset := offset + 4;
    if numPropertySets == 0 {
      return Ok(Default);
    }
    if offset + 20 > |data| {
      return Err(InsufficientData("PropertySetDesc", offset + 20, |data|));
    }
    offset := offset + 16;
    var propertySetStart: nat := Read32(data, offset, isBigEndian);
    if propertySetStart >= |data| {
      return Err(UnexpectedValue("Property Set offset (start=" + Decimal(propertySetStart) + ")"));
    }
    if propertySetStart + 8 > |data| {
      return Err(InsufficientData("Property Set header", 8, |data| - propertySetStart));
    }
    var numProperties: nat := Read32(data, propertySetStart + 4, isBigEndian);
    var entriesSize := numProperties * 8;
    if propertySetStart + 8 + entriesSize > |data| {
      return Err(InsufficientData("property entries", propertySetStart + 8 + entriesSize, |data|));
    }
    var st := ApplyEntries(data, propertySetStart, isBigEndian, codecs, numProperties);
    r := Ok(st.info);
  }

  // The entry loop, `for i in 0..num_properties`.
  method ApplyEntries(data: seq<byte>, start: nat, bigEndian: bool, codecs: Codecs, n: nat) returns (st: State)
    requires start + 8 + 8 * n <= |data|
    ensures st == StateAfter(data, start, bigEndian, codecs, n)
  {
    st := State(Default, CpNone);
    for i := 0 to n
      invariant st == StateAfter(data, start, bigEndian, codecs, i)
    {
      st := ApplyEntry(data, start, bigEndian, codecs, i, st);
    }
  }

  // ---------------------------------------------------------------------
  // Writing typed values, and reading them back.

  function Be32(v: u32): (r: seq<byte>)
    ensures |r| == 4
  {
    [v / 0x100_0000, (v / 0x1_0000) % 0x100, (v / 0x100) % 0x100, v % 0x100]
  }

  function Be16(v: u16): (r: seq<byte>)
    ensures |r| == 2
  {
    [v / 0x100, v % 0x100]
  }

  // A DWORD or WORD in the stream's byte order.
  function Write32(v: u32, bigEndian: bool): (r: seq<byte>)
    ensures |r| == 4
  {
    if bigEndian then Be32(v) else Le32(v)
  }

  function Write16(v: u16, bigEndian: bool): (r: seq<byte>)
    ensures |r| == 2
  {
    if bigEndian then Be16(v) else Le16(v)
  }

  lemma Write32Read(a: seq<byte>, v: u32, bigEndian: bool, b: seq<byte>)
    ensures |a| + 4 <= |a + Write32(v, bigEndian) + b|
    ensures Read32(a + Write32(v, bigEndian) + b, |a|, bigEndian) == v
  {
    if bigEndian {
      var s := a + Be32(v) + b;
      assert s[|a|] == v / 0x100_0000;
      assert s[|a| + 1] == (v / 0x1_0000) % 0x100;
      assert s[|a| + 2] == (v / 0x100) % 0x100;
      assert s[|a| + 3] == v % 0x100;
      Le32Value(v);
    } else {
      Le32Read(a, v, b);
    }
  }

  lemma Write16Read(a: seq<byte>, v: u16, bigEndian: bool, b: seq<byte>)
    ensures |a| + 2 <= |a + Write16(v, bigEndian) + b|
    ensures Read16(a + Write16(v, bigEndian) + b, |a|, bigEndian) == v
  {
    if bigEndian {
      var s := a + Be16(v) + b;
      assert s[|a|] == v / 0x100 && s[|a| + 1] == v % 0x100;
    } else {
      Le16Read(a, v, b);
    }
  }

  // A type DWORD followed by a value in the same byte order.
  lemma TypedRead(vtType: u32, value: seq<byte>, bigEndian: bool, rest: seq<byte>)
    ensures var d := Write32(vtType, bigEndian) + value + rest;
      |d| >= 4 && Read32(d, 0, bigEndian) == vtType && d[4..] == value + rest
  {
    var d := Write32(vtType, bigEndian) + value + rest;
    assert d == [] + Write32(vtType, bigEndian) + (value + rest);
    Write32Read([], vtType, bigEndian, value + rest);
  }

  function EncodeVtI2(v: i16, bigEndian: bool): (r: seq<byte>)
    ensures |r| == 6
  {
    Write32(VtI2, bigEndian) + Write16(FromI16(v), bigEndian)
  }

  function EncodeVtI4(v: i32, bigEndian: bool): (r: seq<byte>)
    ensures |r| == 8
  {
    Write32(VtI4, bigEndian) + Write32(FromI32(v), bigEndian)
  }

  function EncodeVtFileTime(ft: FileTime.FileTime, bigEndian: bool): (r: seq<byte>)
    ensures |r| == 12
  {
    Write32(VtFileTime, bigEndian) + Write32(ft.low, bigEndian) + Write32(ft.high, bigEndian)
  }

  lemma VtI2RoundTrip(v: i16, bigEndian: bool, rest: seq<byte>)
    ensures VtI2Of(EncodeVtI2(v, bigEndian) + rest, bigEndian) == Ok(v)
  {
    var w := Write32(VtI2, bigEndian);
    TypedRead(VtI2, Write16(FromI16(v), bigEndian), bigEndian, rest);
    Write16Read(w, FromI16(v), bigEndian, rest);
  }

  lemma VtI4RoundTrip(v: i32, bigEndian: bool, rest: seq<byte>)
    ensures VtI4Of(EncodeVtI4(v, bigEndian) + rest, bigEndian) == Ok(v)
  {
    var w := Write32(VtI4, bigEndian);
    TypedRead(VtI4, Write32(FromI32(v), bigEndian), bigEndian, rest);
    Write32Read(w, FromI32(v), bigEndian, rest);
  }

  lemma VtFileTimeRoundTrip(ft: FileTime.FileTime, bigEndian: bool, rest: seq<byte>)
    ensures VtFileTimeOf(EncodeVtFileTime(ft, bigEndian) + rest, bigEndian) == Ok(ft)
  {
    var w := Write32(VtFileTime, bigEndian);
    var lo := Write32(ft.low, bigEndian);
    var hi := Write32(ft.high, bigEndian);
    TypedRead(VtFileTime, lo + hi, bigEndian, rest);
    var d := EncodeVtFileTime(ft, bigEndian) + rest;
    assert d == w + lo + (hi + rest);
    Write32Read(w, ft.low, bigEndian, hi + rest);
    assert d == (w + lo) + hi + rest;
    Write32Read(w + lo, ft.high, bigEndian, rest);
  }

  // ---------------------------------------------------------------------
  // Wide strings.

  // Text of basic-plane characters with no NUL: each is one UTF-16 unit.
  predicate IsWideText(s: string)
  {
    forall k :: 0 <= k < |s| ==> 0 < s[k] as int < 0x1_0000
  }

  function WideUnits(s: string): (us: seq<u16>)
    requires IsWideText(s)
    ensures |us| == |s| && forall k :: 0 <= k < |s| ==> us[k] == s[k] as int
  {
    if |s| == 0 then [] else [s[0] as int as u16] + WideUnits(s[1..])
  }

  // Where UnitsText stops: at the end of the bytes, or at a NUL unit when
  // NUL ends the string.
  predicate StopsAt(b: seq<byte>, j: nat, bigEndian: bool, stopAtNul: bool)
  {
    j + 1 >= |b| || (stopAtNul && Read16(b, j, bigEndian) == 0)
  }

  // The units of s from offset i.
  predicate UnitsAt(b: seq<byte>, i: nat, s: string, bigEndian: bool)
  {
    forall k :: 0 <= k < |s| ==> i + 2 * k + 2 <= |b| && Read16(b, i + 2 * k, bigEndian) == s[k] as int
  }

  lemma UnitsAtRest(b: seq<byte>, i: nat, s: string, bigEndian: bool)
    requires |s| > 0 && UnitsAt(b, i, s, bigEndian)
    ensures i + 2 <= |b| && Read16(b, i, bigEndian) == s[0] as int
    ensures UnitsAt(b, i + 2, s[1..], bigEndian)
  {
    assert i + 2 * 0 + 2 <= |b| && Read16(b, i + 2 * 0, bigEndian) == s[0] as int;
    forall k | 0 <= k < |s[1..]|
      ensures i + 2 + 2 * k + 2 <= |b| && Read16(b, i + 2 + 2 * k, bigEndian) == s[1..][k] as int
    {
      assert i + 2 * (k + 1) == i + 2 + 2 * k;
    }
  }

  // One character unit at offset i.
  lemma UnitsHead(b: seq<byte>, i: nat, c: char, bigEndian: bool, stopAtNul: bool)
    requires i + 2 <= |b| && Read16(b, i, bigEndian) == c as int && 0 < c as int < 0x1_0000
    ensures UnitsText(b, i, bigEndian, stopAtNul) == [c] + UnitsText(b, i + 2, bigEndian, stopAtNul)
  {
    assert !Utf16.IsSurrogate(c as int);
    assert (c as int) as char == c;
  }

  // The units of s from offset i, then a stop, decode to s.
  lemma {:induction false} UnitsRead(b: seq<byte>, i: nat, s: string, bigEndian: bool, stopAtNul: bool)
    requires IsWideText(s) && UnitsAt(b, i, s, bigEndian)
    requires StopsAt(b, i + 2 * |s|, bigEndian, stopAtNul)
    ensures UnitsText(b, i, bigEndian, stopAtNul) == s
    decreases |s|
  {
    if |s| > 0 {
      UnitsAtRest(b, i, s, bigEndian);
      assert i + 2 + 2 * |s[1..]| == i + 2 * |s|;
      assert IsWideText(s[1..]) by {
        forall k | 0 <= k < |s[1..]|
          ensures 0 < s[1..][k] as int < 0x1_0000
        {
          assert s[1..][k] == s[k + 1];
        }
      }
      UnitsRead(b, i + 2, s[1..], bigEndian, stopAtNul);
      assert 0 < s[0] as int < 0x1_0000;
      UnitsHead(b, i, s[0], bigEndian, stopAtNul);
      assert s == [s[0]] + s[1..];
    }
  }

  // The units of a wide text written out, with or without a NUL unit.
  lemma WideBytes(s: string, nul: bool)
    requires IsWideText(s)
    ensures var us := if nul then WideUnits(s) + [0] else WideUnits(s);
      UnitsAt(Halves(us), 0, s, false) && StopsAt(Halves(us), 2 * |s|, false, nul)
  {
    var us := if nul then WideUnits(s) + [0] else WideUnits(s);
    var b := Halves(us);
    assert b + [] == b;
    forall k | 0 <= k < |s|
      ensures 0 + 2 * k + 2 <= |b| && Read16(b, 0 + 2 * k, false) == s[k] as int
    {
      HalfAt(us, k, []);
      assert us[k] == WideUnits(s)[k];
    }
    if nul {
      HalfAt(us, |s|, []);
    }
  }

  // A VT_LPWSTR value: the count includes the terminating NUL, and the
  // units are little-endian whatever the stream's byte order.
  function EncodeVtLpwstr(s: string, bigEndian: bool): (r: seq<byte>)
    requires IsWideText(s) && |s| + 1 < 0x1_0000_0000
  {
    Write32(VtLpwstr, bigEndian) + Write32(|s| + 1, bigEndian) + Halves(WideUnits(s) + [0])
  }

  // The type, the count and the bytes of the units, whatever follows.
  lemma CountedLayout(vtType: u32, count: u32, units: seq<byte>, bigEndian: bool, rest: seq<byte>)
    requires |units| == count || |units| == 2 * count
    ensures var d := Write32(vtType, bigEndian) + Write32(count, bigEndian) + units + rest;
      |d| >= 8 + |units| && Read32(d, 0, bigEndian) == vtType && Read32(d, 4, bigEndian) == count &&
      d[8..8 + |units|] == units
  {
    var w := Write32(vtType, bigEndian);
    var c := Write32(count, bigEndian);
    var d := w + c + units + rest;
    assert d == [] + w + (c + units + rest);
    Write32Read([], vtType, bigEndian, c + units + rest);
    assert d == w + c + (units + rest);
    Write32Read(w, count, bigEndian, units + rest);
    assert d[8..8 + |units|] == units;
  }

  // VtLpwstrOf once its fields are known.
  lemma LpwstrFields(d: seq<byte>, bigEndian: bool, count: nat, units: seq<byte>)
    requires |d| >= 8 && Read32(d, 0, bigEndian) == VtLpwstr && Read32(d, 4, bigEndian) == count && count > 0
    requires 8 + 2 * count <= |d| && d[8..8 + 2 * count] == units
    ensures VtLpwstrOf(d, bigEndian) == Ok(UnitsText(units, 0, false, true))
  {
  }

  lemma VtLpwstrRoundTrip(s: string, bigEndian: bool, rest: seq<byte>)
    requires IsWideText(s) && |s| + 1 < 0x1_0000_0000
    ensures VtLpwstrOf(EncodeVtLpwstr(s, bigEndian) + rest, bigEndian) == Ok(s)
  {
    var units := Halves(WideUnits(s) + [0]);
    CountedLayout(VtLpwstr, |s| + 1, units, bigEndian, rest);
    LpwstrFields(EncodeVtLpwstr(s, bigEndian) + rest, bigEndian, |s| + 1, units);
    WideBytes(s, true);
    UnitsRead(units, 0, s, false, true);
  }

  // A VT_LPSTR value in codepage 1200: the byte count, then the units.
  function EncodeVtLpstrUtf16(s: string, bigEndian: bool): (r: seq<byte>)
    requires IsWideText(s) && 2 * |s| < 0x1_0000_0000
  {
    Write32(VtLpstr, bigEndian) + Write32(2 * |s|, bigEndian) + Halves(WideUnits(s))
  }

  // VtLpstrOf in codepage 1200 once its fields are known.
  lemma LpstrFields(d: seq<byte>, bigEndian: bool, size: nat, units: seq<byte>, codecs: Codecs)
    requires |d| >= 8 && Read32(d, 0, bigEndian) == VtLpstr && Read32(d, 4, bigEndian) == size
    requires 8 + size <= |d| && d[8..8 + size] == units
    ensures VtLpstrOf(d, bigEndian, CpUtf16, codecs) == Ok(UnitsText(units, 0, false, false))
  {
  }

  lemma VtLpstrUtf16RoundTrip(s: string, bigEndian: bool, codecs: Codecs, rest: seq<byte>)
    requires IsWideText(s) && 2 * |s| < 0x1_0000_0000
    ensures VtLpstrOf(EncodeVtLpstrUtf16(s, bigEndian) + rest, bigEndian, CpUtf16, codecs) == Ok(s)
  {
    var units := Halves(WideUnits(s));
    CountedLayout(VtLpstr, 2 * |s|, units, bigEndian, rest);
    LpstrFields(EncodeVtLpstrUtf16(s, bigEndian) + rest, bigEndian, 2 * |s|, units, codecs);
    WideBytes(s, false);
    UnitsRead(units, 0, s, false, false);
  }
}
