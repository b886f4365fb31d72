// The document properties record of DocInfo (Table 14 of the format,
// crates/hwp-core/src/document/docinfo/document_properties.rs): the section
// count and six start numbers as WORDs, then the caret position as three
// DWORDs, 26 bytes in all. The "start number information" heading of the
// table is not a field of its own: the parser leaves it 0.

module DocumentProperties {
  import opened Bytes
  import opened Errors

  datatype DocumentProperties = DocumentProperties(
    areaCount: u16,
    startNumberInfo: u16,
    pageStartNumber: u16,
    footnoteStartNumber: u16,
    endnoteStartNumber: u16,
    imageStartNumber: u16,
    tableStartNumber: u16,
    formulaStartNumber: u16,
    listId: u32,
    paragraphId: u32,
    characterPosition: u32)

  // The WORD fields in record order.
  function Numbers(p: DocumentProperties): (hs: seq<u16>)
    ensures |hs| == 7
  {
    [p.areaCount, p.pageStartNumber, p.footnoteStartNumber, p.endnoteStartNumber,
     p.imageStartNumber, p.tableStartNumber, p.formulaStartNumber]
  }

  // The DWORD fields in record order.
  function Positions(p: DocumentProperties): (ws: seq<u32>)
    ensures |ws| == 3
  {
    [p.listId, p.paragraphId, p.characterPosition]
  }

  // DocumentProperties::parse: 26 bytes, seven WORDs then three DWORDs.
  function DocumentPropertiesOf(data: seq<byte>): (r: Result<DocumentProperties>)
    ensures r.Err? <==> |data| < 26
    ensures r.Err? ==> r.error == InsufficientData("DocumentProperties", 26, |data|)
    ensures r.Ok? ==> |data| >= 26 && r.value.startNumberInfo == 0
    ensures r.Ok? ==>
      |data| >= 26 && forall k :: 0 <= k < 7 ==> Numbers(r.value)[k] == U16(data, 2 * k)
    ensures r.Ok? ==>
      |data| >= 26 && forall k :: 0 <= k < 3 ==> Positions(r.value)[k] == U32(data, 14 + 4 * k)
  {
    if |data| < 26 then Err(InsufficientData("DocumentProperties", 26, |data|))
    else
      var p := DocumentProperties(U16(data, 0), 0, U16(data, 2), U16(data, 4), U16(data, 6), U16(data, 8),
        U16(data, 10), U16(data, 12), U32(data, 14), U32(data, 18), U32(data, 22));
      assert forall k :: 0 <= k < 7 ==> Numbers(p)[k] == U16(data, 2 * k) by {
        forall k | 0 <= k < 7
          ensures Numbers(p)[k] == U16(data, 2 * k)
        {
          assert k == 0 || k == 1 || k == 2 || k == 3 || k == 4 || k == 5 || k == 6;
        }
      }
      assert forall k :: 0 <= k < 3 ==> Positions(p)[k] == U32(data, 14 + 4 * k) by {
        forall k | 0 <= k < 3
          ensures Positions(p)[k] == U32(data, 14 + 4 * k)
        {
          assert k == 0 || k == 1 || k == 2;
        }
      }
      Ok(p)
  }

  // DocumentProperties::parse with its running offset.
  method ParseDocumentProperties(data: seq<byte>) returns (r: Result<DocumentProperties>)
    ensures r == DocumentPropertiesOf(data)
  {
    if |data| < 26 {
      return Err(InsufficientData("DocumentProperties", 26, |data|));
    }
    var offset := 0;
    var areaCount := U16(data, offset);
    offset := offset + 2;
    var pageStartNumber := U16(data, offset);
    offset := offset + 2;
    var footnoteStartNumber := U16(data, offset);
    offset := offset + 2;
    var endnoteStartNumber := U16(data, offset);
    offset := offset + 2;
    var imageStartNumber := U16(data, offset);
    offset := offset + 2;
    var tableStartNumber := U16(data, offset);
    offset := offset + 2;
    var formulaStartNumber := U16(data, offset);
    offset := offset + 2;
    var listId := U32(data, offset);
    offset := offset + 4;
    var paragraphId := U32(data, offset);
    offset := offset + 4;
    var characterPosition := U32(data, offset);
    r := Ok(DocumentProperties(areaCount, 0, pageStartNumber, footnoteStartNumber, endnoteStartNumber,
      imageStartNumber, tableStartNumber, formulaStartNumber, listId, paragraphId, characterPosition));
  }

  // The writer side: the seven WORDs, then the three DWORDs.
  function EncodeDocumentProperties(p: DocumentProperties): (r: seq<byte>)
    ensures |r| == 26
  {
    Halves(Numbers(p)) + Words(Positions(p))
  }

  // Every field reads back from an encoding followed by anything.
  lemma DocumentPropertiesLayout(p: DocumentProperties, rest: seq<byte>)
    ensures var d := EncodeDocumentProperties(p) + rest;
      |d| >= 26 && (forall k :: 0 <= k < 7 ==> U16(d, 2 * k) == Numbers(p)[k]) &&
      (forall k :: 0 <= k < 3 ==> U32(d, 14 + 4 * k) == Positions(p)[k])
  {
    var hs := Halves(Numbers(p));
    var ws := Words(Positions(p));
    var d := EncodeDocumentProperties(p) + rest;
    assert d == hs + (ws + rest);
    forall k | 0 <= k < 7
      ensures U16(d, 2 * k) == Numbers(p)[k]
    {
      HalfAt(Numbers(p), k, ws + rest);
    }
    forall k | 0 <= k < 3
      ensures U32(d, 14 + 4 * k) == Positions(p)[k]
    {
      WordAfter(hs, Positions(p), k);
      U32Prefix(hs + ws, rest, 14 + 4 * k);
    }
  }

  // DocumentProperties::parse reads back what the writer lays out, as long
  // as the start-number heading is the 0 the parser fills in.
  lemma DocumentPropertiesRoundTrip(p: DocumentProperties, rest: seq<byte>)
    requires p.startNumberInfo == 0
    ensures DocumentPropertiesOf(EncodeDocumentProperties(p) + rest) == Ok(p)
  {
    var d := EncodeDocumentProperties(p) + rest;
    DocumentPropertiesLayout(p, rest);
    var q := DocumentPropertiesOf(d).value;
    assert Numbers(q)[0] == Numbers(p)[0] && Numbers(q)[1] == Numbers(p)[1] && Numbers(q)[2] == Numbers(p)[2];
    assert Numbers(q)[3] == Numbers(p)[3] && Numbers(q)[4] == Numbers(p)[4] && Numbers(q)[5] == Numbers(p)[5];
    assert Numbers(q)[6] == Numbers(p)[6];
    assert Positions(q)[0] == Positions(p)[0] && Positions(q)[1] == Positions(p)[1];
    assert Positions(q)[2] == Positions(p)[2];
  }
}
