// JSON rendering helpers of the FileHeader
// (crates/hwp-core/src/document/fileheader/serialize.rs and constants.rs):
// the dotted version string and the lists of names of the set flag bits.

module FileHeaderSerialize {
  import opened Bytes
  import opened Text
  import opened Errors
  import opened BitFlags

  // format_version: 0xMMnnPPrr as "M.n.P.r".
  function FormatVersion(version: u32): string
  {
    Join([Decimal(version / 0x100_0000 % 0x100), Decimal(version / 0x1_0000 % 0x100),
          Decimal(version / 0x100 % 0x100), Decimal(version % 0x100)], ".")
  }

  // The reading back of a dotted version: four decimal parts below 256.
  function ParseVersion(s: string): Option<u32>
  {
    ParseVersionParts(Split(s, '.'))
  }

  function ParseVersionParts(parts: seq<string>): Option<u32>
  {
    if |parts| == 4 && AllDigits(parts[0]) && AllDigits(parts[1]) && AllDigits(parts[2]) && AllDigits(parts[3]) then
      var a, b, c, d := DecimalValue(parts[0]), DecimalValue(parts[1]), DecimalValue(parts[2]), DecimalValue(parts[3]);
      if a < 0x100 && b < 0x100 && c < 0x100 && d < 0x100 then
        Some(a * 0x100_0000 + b * 0x1_0000 + c * 0x100 + d)
      else None
    else None
  }

  lemma BytesOfWord(v: u32)
    ensures v == (v / 0x100_0000 % 0x100) * 0x100_0000 + (v / 0x1_0000 % 0x100) * 0x1_0000 +
      (v / 0x100 % 0x100) * 0x100 + v % 0x100
  {
    var q1, q2, q3 := v / 0x100, v / 0x1_0000, v / 0x100_0000;
    DivDiv(v, 0x100, 0x100);
    DivDiv(v, 0x1_0000, 0x100);
    assert q1 / 0x100 == q2 && q2 / 0x100 == q3 && q3 % 0x100 == q3;
    assert v == q1 * 0x100 + v % 0x100;
    assert q1 == q2 * 0x100 + q1 % 0x100;
    assert q2 == q3 * 0x100 + q2 % 0x100;
  }

  // Four digit strings whose values are bytes read back as their DWORD.
  lemma ParseDigitParts(parts: seq<string>, a: nat, b: nat, c: nat, d: nat)
    requires |parts| == 4 && a < 0x100 && b < 0x100 && c < 0x100 && d < 0x100
    requires AllDigits(parts[0]) && AllDigits(parts[1]) && AllDigits(parts[2]) && AllDigits(parts[3])
    requires DecimalValue(parts[0]) == a && DecimalValue(parts[1]) == b
    requires DecimalValue(parts[2]) == c && DecimalValue(parts[3]) == d
    ensures ParseVersionParts(parts) == Some(a * 0x100_0000 + b * 0x1_0000 + c * 0x100 + d)
  {
  }

  lemma ParseByteParts(a: nat, b: nat, c: nat, d: nat)
    requires a < 0x100 && b < 0x100 && c < 0x100 && d < 0x100
    ensures ParseVersionParts([Decimal(a), Decimal(b), Decimal(c), Decimal(d)]) ==
      Some(a * 0x100_0000 + b * 0x1_0000 + c * 0x100 + d)
  {
    DecimalRoundTrip(a);
    DecimalRoundTrip(b);
    DecimalRoundTrip(c);
    DecimalRoundTrip(d);
    ParseDigitParts([Decimal(a), Decimal(b), Decimal(c), Decimal(d)], a, b, c, d);
  }

  lemma VersionParts(version: u32)
    ensures Split(FormatVersion(version), '.') ==
      [Decimal(version / 0x100_0000 % 0x100), Decimal(version / 0x1_0000 % 0x100),
       Decimal(version / 0x100 % 0x100), Decimal(version % 0x100)]
  {
    var parts := [Decimal(version / 0x100_0000 % 0x100), Decimal(version / 0x1_0000 % 0x100),
                  Decimal(version / 0x100 % 0x100), Decimal(version % 0x100)];
    forall k | 0 <= k < 4
      ensures AllDigits(parts[k])
    {
      DecimalRoundTrip([version / 0x100_0000 % 0x100, version / 0x1_0000 % 0x100, version / 0x100 % 0x100, version % 0x100][k]);
    }
    SplitJoin(parts, '.');
  }

  // The version string holds exactly the four bytes of the DWORD, high to low.
  lemma ParseFormatVersion(version: u32)
    ensures ParseVersion(FormatVersion(version)) == Some(version)
  {
    var a, b, c, d := version / 0x100_0000 % 0x100, version / 0x1_0000 % 0x100, version / 0x100 % 0x100, version % 0x100;
    VersionParts(version);
    ParseByteParts(a, b, c, d);
    BytesOfWord(version);
  }

  // The document flags of the first attribute DWORD, bits 0 to 17.
  const DocumentFlags: seq<Flag<string>> := [
    Flag(0x01, "compressed"), Flag(0x02, "encrypted"), Flag(0x04, "distribution"),
    Flag(0x08, "script"), Flag(0x10, "drm"), Flag(0x20, "xml_template"),
    Flag(0x40, "history"), Flag(0x80, "electronic_signature"),
    Flag(0x100, "certificate_encryption"), Flag(0x200, "signature_preview"),
    Flag(0x400, "certificate_drm"), Flag(0x800, "ccl"), Flag(0x1000, "mobile_optimized"),
    Flag(0x2000, "privacy_security"), Flag(0x4000, "track_change"), Flag(0x8000, "kogl"),
    Flag(0x1_0000, "video_control"), Flag(0x2_0000, "table_of_contents")]

  // The license flags of the second attribute DWORD, bits 0 to 2.
  const LicenseFlags: seq<Flag<string>> := [
    Flag(0x01, "ccl_kogl"), Flag(0x02, "copy_restricted"), Flag(0x04, "copy_allowed_same_condition")]

  method SerializeDocumentFlags(flags: u32) returns (active: seq<string>)
    ensures active == Active(DocumentFlags, flags)
  {
    active := CollectFlags(DocumentFlags, flags);
  }

  method SerializeLicenseFlags(flags: u32) returns (active: seq<string>)
    ensures active == Active(LicenseFlags, flags)
  {
    active := CollectFlags(LicenseFlags, flags);
  }

  // Bits above 17 never contribute a document-flag name.
  lemma DocumentHighBitsIgnored(flags: u32)
    ensures Active(DocumentFlags, flags) == Active(DocumentFlags, flags % 0x4_0000)
  {
    ActiveMod(DocumentFlags, flags, 0x4_0000);
  }

  // Bits above 2 never contribute a license-flag name.
  lemma LicenseHighBitsIgnored(flags: u32)
    ensures Active(LicenseFlags, flags) == Active(LicenseFlags, flags % 0x8)
  {
    ActiveMod(LicenseFlags, flags, 0x8);
  }

  // The name of document-flag bit i is present iff that bit is set.
  lemma DocumentFlagNames(flags: u32, i: nat)
    requires i < |DocumentFlags|
    ensures DocumentFlags[i].item in Active(DocumentFlags, flags) <==> HasMask(flags, DocumentFlags[i].mask)
  {
    DocumentFlagsDistinct();
    ActiveMember(DocumentFlags, flags, i);
  }

  lemma DocumentFlagsDistinct()
    ensures DistinctItems(DocumentFlags)
  {
    forall i, j | 0 <= i < j < |DocumentFlags|
      ensures DocumentFlags[i].item != DocumentFlags[j].item
    {
      var x, y := DocumentFlags[i].item, DocumentFlags[j].item;
      assert |x| != |y| || x[0] != y[0];
    }
  }

  lemma LicenseFlagNames(flags: u32, i: nat)
    requires i < |LicenseFlags|
    ensures LicenseFlags[i].item in Active(LicenseFlags, flags) <==> HasMask(flags, LicenseFlags[i].mask)
  {
    ActiveMember(LicenseFlags, flags, i);
  }
}
