// The 256-byte FileHeader stream (crates/hwp-core/src/document/fileheader/mod.rs):
// a 32-byte NUL-padded signature, the version, the two attribute DWORDs,
// the encryption version, the KOGL country byte and 207 reserved bytes.

module FileHeader {
  import opened Bytes
  import opened Errors
  import opened BitFlags
  import opened FileHeaderSerialize

  datatype FileHeader = FileHeader(
    signature: seq<byte>,
    version: u32,
    documentFlags: u32,
    licenseFlags: u32,
    encryptVersion: u32,
    koglCountry: byte,
    reserved: seq<byte>)

  // "HWP Document File" in ASCII.
  const Signature: seq<byte> :=
    [0x48, 0x57, 0x50, 0x20, 0x44, 0x6F, 0x63, 0x75, 0x6D, 0x65, 0x6E, 0x74, 0x20, 0x46, 0x69, 0x6C, 0x65]

  // FileHeader::parse. The signature is compared after its trailing NULs
  // are removed.
  function Parse(data: seq<byte>): (r: Result<FileHeader>)
    ensures |data| < 256 <==> r == Err(InsufficientData("FileHeader", 256, |data|))
    ensures |data| >= 256 ==> (r.Ok? <==> TrimTrailingNul(data[..32]) == Signature)
    ensures |data| >= 256 && r.Err? ==> r == Err(InvalidSignature(TrimTrailingNul(data[..32])))
    ensures r.Ok? ==> r.value.version == U32(data, 32)
    ensures r.Ok? ==> r.value.reserved == data[49..256] && |r.value.reserved| == 207
  {
    if |data| < 256 then Err(InsufficientData("FileHeader", 256, |data|))
    else
      var signature := TrimTrailingNul(data[0..32]);
      if signature != Signature then Err(InvalidSignature(signature))
      else Ok(FileHeader(signature, U32(data, 32), U32(data, 36), U32(data, 40), U32(data, 44),
                         data[48], data[49..256]))
  }

  predicate IsCompressed(h: FileHeader) { HasMask(h.documentFlags, 0x01) }
  predicate IsEncrypted(h: FileHeader) { HasMask(h.documentFlags, 0x02) }
  predicate HasXmlTemplate(h: FileHeader) { HasMask(h.documentFlags, 0x20) }

  // version_string is the same rendering as the serialiser's format_version.
  function VersionString(h: FileHeader): string
  {
    FormatVersion(h.version)
  }

  // The three flag tests agree with the names the serialiser lists for the
  // same bits 0, 1 and 5.
  lemma FlagTestsMatchNames(h: FileHeader, names: seq<string>)
    requires names == Active(DocumentFlags, h.documentFlags)
    ensures IsCompressed(h) <==> "compressed" in names
    ensures IsEncrypted(h) <==> "encrypted" in names
    ensures HasXmlTemplate(h) <==> "xml_template" in names
  {
    DocumentFlagNames(h.documentFlags, 0);
    DocumentFlagNames(h.documentFlags, 1);
    DocumentFlagNames(h.documentFlags, 5);
  }

  // The header as the writer lays it out.
  function Encode(h: FileHeader): (r: seq<byte>)
    requires |h.signature| <= 32
    ensures |r| == 49 + |h.reserved|
  {
    h.signature + Zeros(32 - |h.signature|) + Le32(h.version) + Le32(h.documentFlags) +
    Le32(h.licenseFlags) + Le32(h.encryptVersion) + [h.koglCountry] + h.reserved
  }

  predicate Valid(h: FileHeader)
  {
    h.signature == Signature && |h.reserved| == 207
  }

  // Every header with the right signature and 207 reserved bytes parses
  // back from its encoding, whatever follows it.
  lemma ParseEncode(h: FileHeader, rest: seq<byte>)
    requires Valid(h)
    ensures Parse(Encode(h) + rest) == Ok(h)
  {
    var pad := h.signature + Zeros(15);
    var s := Encode(h) + rest;
    assert s[..32] == pad;
    TrimPadded(h.signature, 15);
    Le32Read(pad, h.version, s[36..]);
    assert s == pad + Le32(h.version) + s[36..];
    Le32Read(s[..36], h.documentFlags, s[40..]);
    assert s == s[..36] + Le32(h.documentFlags) + s[40..];
    Le32Read(s[..40], h.licenseFlags, s[44..]);
    assert s == s[..40] + Le32(h.licenseFlags) + s[44..];
    Le32Read(s[..44], h.encryptVersion, s[48..]);
    assert s == s[..44] + Le32(h.encryptVersion) + s[48..];
    assert s[49..256] == h.reserved;
  }
}
