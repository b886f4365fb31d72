// Control ids (crates/hwp-core/src/document/bodytext/ctrl_header/ids.rs).
// A control id is four ASCII characters; the record stores it as a
// little-endian DWORD, so the characters appear in the file in reverse
// order.  Ids are modelled as their bytes: the parser's lossy UTF-8
// conversion keeps ASCII unchanged, and it maps no other byte sequence to
// one of these ids.

module CtrlIds {
  import opened Bytes

  const Table: seq<byte> := [0x74, 0x62, 0x6C, 0x20]  // "tbl ", table
  const ShapeObject: seq<byte> := [0x67, 0x73, 0x6F, 0x20]  // "gso ", general shape object
  const SectionDef: seq<byte> := [0x73, 0x65, 0x63, 0x64]  // "secd", section definition
  const ColumnDef: seq<byte> := [0x63, 0x6F, 0x6C, 0x64]  // "cold", column definition
  const Header: seq<byte> := [0x68, 0x65, 0x61, 0x64]  // "head", header
  const Footer: seq<byte> := [0x66, 0x6F, 0x6F, 0x74]  // "foot", footer
  const Footnote: seq<byte> := [0x66, 0x6E, 0x20, 0x20]  // "fn  ", footnote (with spaces)
  const Endnote: seq<byte> := [0x65, 0x6E, 0x20, 0x20]  // "en  ", endnote (with spaces)
  const AutoNumber: seq<byte> := [0x61, 0x75, 0x74, 0x6E]  // "autn", auto numbering
  const AutoNumberAlt: seq<byte> := [0x61, 0x74, 0x6E, 0x6F]  // "atno", auto numbering, alternate id
  const NewNumber: seq<byte> := [0x6E, 0x65, 0x77, 0x6E]  // "newn", new number
  const Hide: seq<byte> := [0x70, 0x67, 0x68, 0x64]  // "pghd", page hiding
  const PageAdjust: seq<byte> := [0x70, 0x67, 0x61, 0x64]  // "pgad", odd/even page adjustment
  const PageNumber: seq<byte> := [0x70, 0x67, 0x6E, 0x6F]  // "pgno", page number position
  const PageNumberPos: seq<byte> := [0x70, 0x67, 0x6E, 0x70]  // "pgnp", page number position (pgnp)
  const BookmarkMarker: seq<byte> := [0x62, 0x6B, 0x6D, 0x6B]  // "bkmk", index marker
  const Overlap: seq<byte> := [0x6F, 0x76, 0x65, 0x72]  // "over", character overlap
  const Comment: seq<byte> := [0x63, 0x6D, 0x74, 0x74]  // "cmtt", comment
  const HiddenDesc: seq<byte> := [0x68, 0x69, 0x64, 0x65]  // "hide", hidden description
  const FieldStart: seq<byte> := [0x25, 0x25, 0x25, 0x25]  // "%%%%", field start

  // The id read at offset o: the four bytes reversed, trailing NULs removed,
  // spaces kept.
  function ReversedId(s: seq<byte>, o: nat): (id: seq<byte>)
    requires o + 4 <= |s|
    ensures |id| <= 4 && id == [s[o + 3], s[o + 2], s[o + 1], s[o]][..|id|]
  {
    TrimTrailingNul([s[o + 3], s[o + 2], s[o + 1], s[o]])
  }

  // The four bytes a writer stores for an id.
  function IdBytes(id: seq<byte>): (b: seq<byte>)
    requires |id| == 4
    ensures |b| == 4
  {
    [id[3], id[2], id[1], id[0]]
  }

  // An id whose last character is not NUL is read back unchanged, whatever
  // surrounds it.
  lemma ReversedIdBytes(before: seq<byte>, id: seq<byte>, after: seq<byte>)
    requires |id| == 4 && id[3] != 0
    ensures ReversedId(before + IdBytes(id) + after, |before|) == id
  {
    var s := before + IdBytes(id) + after;
    var o := |before|;
    assert [s[o + 3], s[o + 2], s[o + 1], s[o]] == id;
  }

  // The DWORD value of an untrimmed id is the id read as a big-endian
  // number: its first character is the most significant byte.
  lemma IdValue(s: seq<byte>, o: nat)
    requires o + 4 <= |s| && |ReversedId(s, o)| == 4
    ensures U32(s, o) == U32Be(ReversedId(s, o), 0)
  {
  }

  // No two control ids coincide.
  predicate Distinct(ids: seq<seq<byte>>)
  {
    forall i, j :: 0 <= i < j < |ids| ==> ids[i] != ids[j]
  }

  lemma IdsDistinct()
    ensures Distinct([Table, ShapeObject, SectionDef, ColumnDef, Header, Footer, Footnote, Endnote, AutoNumber, AutoNumberAlt, NewNumber, Hide, PageAdjust, PageNumber, PageNumberPos, BookmarkMarker, Overlap, Comment, HiddenDesc, FieldStart])
  {
  }
}
