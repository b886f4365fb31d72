// The page definition of a section (crates/hwp-core/src/document/bodytext/page_def.rs,
// tables 131 and 132 of the format): nine HWPUNIT sizes and an attribute DWORD.

module PageDef {
  import opened Bytes
  import opened Errors

  datatype PaperDirection = Vertical | Horizontal
  datatype BindingMethod = SinglePage | FacingPages | FlipUp

  datatype PageDefAttributes = PageDefAttributes(paperDirection: PaperDirection, bindingMethod: BindingMethod)

  datatype PageDef = PageDef(
    paperWidth: u32,
    paperHeight: u32,
    leftMargin: u32,
    rightMargin: u32,
    topMargin: u32,
    bottomMargin: u32,
    headerMargin: u32,
    footerMargin: u32,
    bindingMargin: u32,
    attributes: PageDefAttributes)

  // parse_page_def_attributes: bit 0 and bits 1-2 (3 falls back to SinglePage).
  function PageDefAttributesOf(value: u32): (a: PageDefAttributes)
    ensures a.paperDirection == Horizontal <==> value % 2 == 1
    ensures a.bindingMethod == FacingPages <==> (value / 2) % 4 == 1
    ensures a.bindingMethod == FlipUp <==> (value / 2) % 4 == 2
  {
    PageDefAttributes(
      if value % 2 == 0 then Vertical else Horizontal,
      match (value / 2) % 4
      case 1 => FacingPages
      case 2 => FlipUp
      case _ => SinglePage)
  }

  function PageDefAttributesBits(a: PageDefAttributes): (v: u32)
    ensures v < 8
  {
    (if a.paperDirection == Horizontal then 1 else 0) +
    2 * (match a.bindingMethod case SinglePage => 0 case FacingPages => 1 case FlipUp => 2)
  }

  lemma PageDefAttributesRoundTrip(a: PageDefAttributes)
    ensures PageDefAttributesOf(PageDefAttributesBits(a)) == a
  {
  }

  // Only bits 0-2 matter.
  lemma PageDefAttributesLowBits(value: u32)
    ensures PageDefAttributesOf(value) == PageDefAttributesOf(value % 8)
  {
    var q, m := value / 8, value % 8;
    assert value == 8 * q + m;
    assert value / 2 == 4 * q + m / 2;
  }

  // PageDef::parse: ten DWORDs at offsets 0, 4, ..., 36.
  function PageDefOf(data: seq<byte>): (r: Result<PageDef>)
    ensures r.Err? <==> |data| < 40
    ensures r.Err? ==> r.error == InsufficientData("PageDef", 40, |data|)
    ensures r.Ok? ==> r.value.attributes == PageDefAttributesOf(U32(data, 36))
  {
    if |data| < 40 then Err(InsufficientData("PageDef", 40, |data|))
    else
      Ok(PageDef(U32(data, 0), U32(data, 4), U32(data, 8), U32(data, 12), U32(data, 16), U32(data, 20),
        U32(data, 24), U32(data, 28), U32(data, 32), PageDefAttributesOf(U32(data, 36))))
  }

  // PageDef::parse with its running offset.
  method ParsePageDef(data: seq<byte>) returns (r: Result<PageDef>)
    ensures r == PageDefOf(data)
  {
    if |data| < 40 {
      return Err(InsufficientData("PageDef", 40, |data|));
    }
    var offset := 0;
    var paperWidth := U32(data, offset);
    offset := offset + 4;
    var paperHeight := U32(data, offset);
    offset := offset + 4;
    var leftMargin := U32(data, offset);
    offset := offset + 4;
    var rightMargin := U32(data, offset);
    offset := offset + 4;
    var topMargin := U32(data, offset);
    offset := offset + 4;
    var bottomMargin := U32(data, offset);
    offset := offset + 4;
    var headerMargin := U32(data, offset);
    offset := offset + 4;
    var footerMargin := U32(data, offset);
    offset := offset + 4;
    var bindingMargin := U32(data, offset);
    offset := offset + 4;
    var attributeValue := U32(data, offset);
    r := Ok(PageDef(paperWidth, paperHeight, leftMargin, rightMargin, topMargin, bottomMargin,
      headerMargin, footerMargin, bindingMargin, PageDefAttributesOf(attributeValue)));
  }

  // The writer side: the ten DWORDs in order.
  function PageDefWords(p: PageDef): seq<u32>
  {
    [p.paperWidth, p.paperHeight, p.leftMargin, p.rightMargin, p.topMargin, p.bottomMargin,
     p.headerMargin, p.footerMargin, p.bindingMargin, PageDefAttributesBits(p.attributes)]
  }

  function EncodePageDef(p: PageDef): seq<byte>
  {
    Words(PageDefWords(p))
  }

  // Every page definition is read back, with its sizes in order.
  lemma PageDefRoundTrip(p: PageDef, rest: seq<byte>)
    ensures PageDefOf(EncodePageDef(p) + rest) == Ok(p)
  {
    var ws := PageDefWords(p);
    WordAt(ws, 0, rest);
    WordAt(ws, 1, rest);
    WordAt(ws, 2, rest);
    WordAt(ws, 3, rest);
    WordAt(ws, 4, rest);
    WordAt(ws, 5, rest);
    WordAt(ws, 6, rest);
    WordAt(ws, 7, rest);
    WordAt(ws, 8, rest);
    WordAt(ws, 9, rest);
    PageDefAttributesRoundTrip(p.attributes);
  }
}
