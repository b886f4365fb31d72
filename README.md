# hwp-core in Dafny

A model of the core of hwpjs, a reader for Hancom's HWP 5.0 word-processor
format, with proofs about it. It covers three parts of the repository:

- **The binary decoding of crates/hwp-core.**
  - The record header: a tag, a level and a size packed into one DWORD, with an extended size.
  - The level-driven record tree of a BodyText section and the record loop of the DocInfo stream.
  - The fixed-offset and length-prefixed parsers of the DocInfo and BodyText records.
  - The FileHeader, SummaryInformation and script streams.
  - The bit-field decoders of all of these.
- **The text helpers of the HTML and Markdown viewers.**
  - Outline-number counters and their labels.
  - Roman, alphabetic, Korean and Chinese numbering.
  - The Markdown table grid.
  - Markdown paragraph text, with its breaks and emphasis.
  - The split of a table caption into label, number and body.
- **The signal registry of the iOS bridge.** It maps an id to a delegate and lets delegates be registered, unregistered and called.

There is one Dafny module per source file. The exceptions are a few shared
modules: Bytes, Errors, Utf16, Text, Sorting, BitFlags and Arithmetic.

- **Parsers that step an offset.** Each is written twice. A function over absolute offsets carries the contract. A method with the source's running offset, loops and early returns is proved equal to that function.
- **Encoders.** Every record parser has an encoder. A round-trip lemma says that a well-formed record is read back from its bytes.
- **Bit-field decoders.** Each has an inverse encoder and a round-trip lemma.
- **Panics.** Where the source indexes past the end of a slice or an array, an as-written member returns `IndexOutOfBounds` instead. These are the Errors `Outcome` values. A corrected member stands beside it, and the rest of the model uses the corrected member (see "## Findings").
- **The signal registry.** It is a class whose map field the three operations update in place. The Markdown table grid is an `array2` that its fill loops update in place.

Integers are unbounded in Dafny, so the source's u8, u16, u32, i16, i32 and
usize values are subset types. Each wrap-around, saturating operation and
truncating cast is written out where it matters.

## Model

| member | source | states |
|---|---|---|
| HwpTypes.ParseRecordHeader | crates/hwp-core/src/types.rs:309-350 | fewer than 4 bytes is InsufficientData("RecordHeader", 4, len); any error needs fewer than 8 bytes; on success tag id, level and size are bits 0-9, 10-19 and 20-31 of the little-endian DWORD, a size field of 0xFFF takes the next DWORD with header size 8 and the extended flag, otherwise the size is below 0xFFF and the header size is 4 |
| HwpTypes.EncodeRecordHeader | crates/hwp-core/src/types.rs:309-350 | the writer partner of the parser: 8 bytes for an extended header, 4 otherwise |
| HwpTypes.ParseEncodeRecordHeader | crates/hwp-core/src/types.rs:309-350 | every well-formed header, followed by any bytes, parses back to itself with its own length |
| HwpTypes.EncodeParseRecordHeader | crates/hwp-core/src/types.rs:309-350 | conversely, the bytes a successful parse consumed are exactly the encoding of the header it returned |
| HwpTypes.HeaderWordOf | crates/hwp-core/src/types.rs:315-324 | the three bit fields cut from the header word of a well-formed header are its tag id, level and size (0xFFF when extended) |
| HwpTypes.Rgb | crates/hwp-core/src/types.rs:142-145 | COLORREF::rgb puts b, g and r in bits 16-23, 8-15 and 0-7, so the top byte is clear |
| HwpTypes.RgbComponents | crates/hwp-core/src/types.rs:142-159 | r(), g() and b() of rgb(r, g, b) give back r, g and b |
| HwpTypes.ComponentsRgb | crates/hwp-core/src/types.rs:142-159 | every colour with a clear top byte is the rgb of its three components |
| Utf16.DecodeUtf16Le | crates/hwp-core/src/types.rs:354-369 | an odd byte count is EncodingError, and every failure (an unpaired surrogate) is EncodingError |
| Utf16.Units | crates/hwp-core/src/types.rs:362-365 | the code units of an even-length slice: half as many, unit k is the little-endian WORD at byte 2k |
| Utf16.PairChar | crates/hwp-core/src/types.rs:366 | a high and a low surrogate combine to a supplementary-plane character |
| Utf16.DecodeEncodeUtf16Le | crates/hwp-core/src/types.rs:354-369 | decoding the UTF-16LE encoding of any string gives the string back |
| Utf16.EncodeDecodeUnits | crates/hwp-core/src/types.rs:366 | conversely, every unit sequence that decodes re-encodes to itself |
| Utf16.PairRoundTrip | crates/hwp-core/src/types.rs:366 | a surrogate pair encodes back to its two units |
| Utf16.UnitsOfUnitBytes | crates/hwp-core/src/types.rs:362-365 | reading the code units of the little-endian bytes of units gives the units back |
| Utf16.DecodeUtf16LeOrEmpty | crates/hwp-core/src/document/bodytext/ctrl_header/field.rs:42 | `unwrap_or_default()` of the decode: its text on success, "" on failure |
| Bytes.AsI8 | crates/hwp-core/src/types.rs:261-279 | INT8 read from a BYTE: values below 0x80 keep their value, the others are that value minus 0x100 |
| Bytes.AsI16 | crates/hwp-core/src/types.rs:261-279 | INT16 read from a WORD is congruent to it modulo 2^16 (two's complement) |
| Bytes.AsI32 | crates/hwp-core/src/types.rs:261-279 | INT32 read from a DWORD is congruent to it modulo 2^32 |
| Bytes.AsI64 | crates/hwp-core/src/document/summary_information.rs:70 | `as i64` of a 64-bit word is congruent to it modulo 2^64 |
| Bytes.FromI16 | crates/hwp-core/src/types.rs:261-279 | the WORD written for an INT16 reads back as that INT16 |
| Bytes.FromI32 | crates/hwp-core/src/types.rs:261-279 | the DWORD written for an INT32 reads back as that INT32 |
| Bytes.FromI8 | crates/hwp-core/src/types.rs:261-279 | the BYTE written for an INT8 reads back as that INT8 |
| Bytes.Usize | crates/hwp-core/src/document/docinfo/border_fill.rs:452-458 | `as usize` with release-build wrapping: always below 2^64, and the value itself when it is in range |
| Bytes.Le16Read | crates/hwp-core/src/types.rs:24 | a WORD written little-endian between any bytes reads back at its offset |
| Bytes.Le32Read | crates/hwp-core/src/types.rs:27 | a DWORD written little-endian between any bytes reads back at its offset |
| Bytes.U32Le32 | crates/hwp-core/src/types.rs:27 | conversely, the four bytes at an offset are the little-endian encoding of the DWORD read there |
| Bytes.U16Le16 | crates/hwp-core/src/types.rs:24 | the two bytes at an offset are the little-endian encoding of the WORD read there |
| Bytes.TrimTrailingNul | crates/hwp-core/src/document/fileheader/mod.rs:57-59 | `trim_end_matches('\0')`: a prefix of the field that does not end in NUL, and everything cut off is NUL |
| Bytes.TrimPadded | crates/hwp-core/src/document/fileheader/mod.rs:57-59 | a field padded with NULs trims back to itself when it does not end in NUL |
| Bytes.DwordsAt | crates/hwp-core/src/document/docinfo/border_fill.rs:459-468 | the n DWORDs of a run: element k is the DWORD at start + 4k |
| Bytes.Int32sAt | crates/hwp-core/src/document/docinfo/border_fill.rs:437-446 | the n INT32s of a run: element k is the INT32 at start + 4k |
| Bytes.WordsAt | crates/hwp-core/src/document/docinfo/border_fill.rs:459-468 | every DWORD of a written run reads back at offset 4k, whatever follows |
| RecordTree.Records | crates/hwp-core/src/document/bodytext/record_tree.rs:59-77 | the records read one after another from an offset; each record's data is exactly its header's size |
| RecordTree.RecordsWellSized | crates/hwp-core/src/document/bodytext/record_tree.rs:59-77 | every record of a successful read has a well-formed header and exactly `size` bytes of data |
| RecordTree.RecordsCoverData | crates/hwp-core/src/document/bodytext/record_tree.rs:59-77 | the headers and data of a successful read, written back to back, are exactly the bytes from the offset to the end: nothing skipped, nothing read twice |
| RecordTree.RecordsHead | crates/hwp-core/src/document/bodytext/record_tree.rs:61-77 | a successful read starts with the record whose header parses at the offset and whose data are the next `size` bytes, followed by the read of the rest |
| RecordTree.RecordsOfSerialize | crates/hwp-core/src/document/bodytext/record_tree.rs:59-77 | the partner of reading: any well-sized record sequence written back to back reads back as itself |
| RecordTree.RecordsOfSerializeAt | crates/hwp-core/src/document/bodytext/record_tree.rs:59-77 | the same at any offset whose suffix is the written image |
| RecordTree.LastBelow | crates/hwp-core/src/document/bodytext/record_tree.rs:97-117 | the node index of the last record before record k whose level is below a given level (0, the root, if none); never later than k |
| RecordTree.ParentOf | crates/hwp-core/src/document/bodytext/record_tree.rs:101-118 | the parent node a record gets; never a later node |
| RecordTree.LastBelowIsLastLower | crates/hwp-core/src/document/bodytext/record_tree.rs:97-117 | the chosen node has a lower level than asked, and every record between it and k is at least that deep |
| RecordTree.ParentOfIsLastLower | crates/hwp-core/src/document/bodytext/record_tree.rs:101-118 | a level-0 record hangs off the root; any other hangs off the last earlier record with a lower level, and every record in between is at least as deep as the child |
| RecordTree.ChildIndices | crates/hwp-core/src/document/bodytext/record_tree.rs:120-121 | the child list of a node among the first k records holds only later nodes among those k |
| RecordTree.ChildIndicesMembership | crates/hwp-core/src/document/bodytext/record_tree.rs:120-121 | a node is in the child list of n exactly when n is its parent: every record is the child of exactly one node |
| RecordTree.ChildIndicesIncreasing | crates/hwp-core/src/document/bodytext/record_tree.rs:120-121 | siblings keep their input order |
| RecordTree.ParentHasLevelAbove | crates/hwp-core/src/document/bodytext/record_tree.rs:115-117 | when levels start at 0 and never rise by more than one, a record at level L > 0 hangs off a record at level L - 1 (stack[level - 1]) |
| RecordTree.ChildTable | crates/hwp-core/src/document/bodytext/record_tree.rs:56-57 | one child list per node, the root included |
| RecordTree.ChildTableValid | crates/hwp-core/src/document/bodytext/record_tree.rs:56-57 | every child index in the table names a later node that exists, so building the tree terminates |
| RecordTree.BuildTree | crates/hwp-core/src/document/bodytext/record_tree.rs:133-144 | build_tree: the node has one child subtree per entry of its child list, in order |
| RecordTree.PlaceRecord | crates/hwp-core/src/document/bodytext/record_tree.rs:97-129 | the stack pops to the record's level, pads with the last entry (or the root), takes stack[level - 1] as parent and stores the new node at its level: the parent is ParentOf and the stack invariant (entry i is the last node at a level not above i) is kept |
| RecordTree.ReadRecord | crates/hwp-core/src/document/bodytext/record_tree.rs:61-77 | one loop step: a header error or a size past the end is the error of the whole read; on success the offset advances and the read is this record followed by the read of the rest |
| RecordTree.ParseTree | crates/hwp-core/src/document/bodytext/record_tree.rs:37-147 | parse_tree equals the tree built from the flat record read and the level-derived child table, with the error of the read when it fails |
| RecordTree.ChildIndicesExtend | crates/hwp-core/src/document/bodytext/record_tree.rs:86-87 | pushing the new node's index onto its parent's list and adding an empty list for it keeps the child table equal to the level-derived one |
| RecordTree.NoLaterChildren | crates/hwp-core/src/document/bodytext/record_tree.rs:86-87 | a node that comes after the first k records has no children among them, so a new node starts with an empty list |
| FileHeader.Parse | crates/hwp-core/src/document/fileheader/mod.rs:50-93 | fewer than 256 bytes is exactly InsufficientData("FileHeader", 256, len); otherwise the parse succeeds iff the first 32 bytes with trailing NULs removed spell "HWP Document File", and fails with InvalidSignature carrying them; on success the version is the DWORD at 32 and the reserved part is bytes 49..256 |
| FileHeader.FlagTestsMatchNames | crates/hwp-core/src/document/fileheader/mod.rs:96-109 | is_compressed, is_encrypted and has_xml_template hold exactly when the serialiser lists "compressed", "encrypted" and "xml_template" |
| FileHeader.Encode | crates/hwp-core/src/document/fileheader/mod.rs:55-82 | the writer partner of the parse: signature padded to 32 bytes, four DWORDs, the KOGL byte, then the reserved bytes |
| FileHeader.ParseEncode | crates/hwp-core/src/document/fileheader/mod.rs:50-93 | every header with the signature and 207 reserved bytes parses back from its encoding, whatever follows |
| FileHeaderSerialize.ParseFormatVersion | crates/hwp-core/src/document/fileheader/serialize.rs:16-22 | format_version is injective: its dotted string reads back as the DWORD, so the four parts are the bytes high to low |
| FileHeaderSerialize.VersionParts | crates/hwp-core/src/document/fileheader/serialize.rs:16-22 | the version string splits on '.' into exactly the decimal forms of bits 24-31, 16-23, 8-15 and 0-7 |
| FileHeaderSerialize.SerializeDocumentFlags | crates/hwp-core/src/document/fileheader/serialize.rs:25-92 | the list pushed by the eighteen mask tests is the table-driven list of names of the set bits 0-17 |
| FileHeaderSerialize.SerializeLicenseFlags | crates/hwp-core/src/document/fileheader/serialize.rs:95-118 | the list pushed by the three mask tests is the list of names of the set bits 0-2 |
| FileHeaderSerialize.DocumentHighBitsIgnored | crates/hwp-core/src/document/fileheader/serialize.rs:25-92 | bits above 17 never change the document flag list |
| FileHeaderSerialize.LicenseHighBitsIgnored | crates/hwp-core/src/document/fileheader/serialize.rs:95-118 | bits above 2 never change the license flag list |
| FileHeaderSerialize.DocumentFlagNames | crates/hwp-core/src/document/fileheader/constants.rs:4-40 | the name of document flag i is listed iff its bit is set |
| FileHeaderSerialize.DocumentFlagsDistinct | crates/hwp-core/src/document/fileheader/constants.rs:4-40 | the eighteen document flag names are pairwise distinct |
| FileHeaderSerialize.LicenseFlagNames | crates/hwp-core/src/document/fileheader/constants.rs:46-52 | the name of license flag i is listed iff its bit is set |
| BitFlags.CollectFlags | crates/hwp-core/src/document/fileheader/serialize.rs:30-84 | testing each mask in turn and pushing the item of every set bit gives the table's active list |
| BitFlags.ActiveMember | crates/hwp-core/src/document/fileheader/serialize.rs:30-84 | with distinct items, an item is listed iff its bit is set |
| BitFlags.ActiveExclude | crates/hwp-core/src/document/fileheader/serialize.rs:30-84 | nothing outside the table is ever listed |
| BitFlags.ActiveOrdered | crates/hwp-core/src/document/fileheader/serialize.rs:30-84 | every listed item comes from a set entry, each from a later table entry than the one before (table order, no entry used twice) |
| BitFlags.ActiveMod | crates/hwp-core/src/document/fileheader/serialize.rs:30-84 | bits above the table's highest mask do not change the list |
| ParaHeader.NewControlMask | crates/hwp-core/src/document/bodytext/para_header.rs:125-132 | ControlMask::new keeps the DWORD it wraps |
| ParaHeader.MaskValue | crates/hwp-core/src/document/bodytext/para_header.rs:308-318 | the two From conversions are inverse: the value wrapped again is the same mask |
| ParaHeader.ActiveFlags | crates/hwp-core/src/document/bodytext/para_header.rs:247-306 | active_flags, the chain of has_* tests, is the list of names of the set control bits in bit order |
| ParaHeader.ControlFlagsDistinct | crates/hwp-core/src/document/bodytext/para_header.rs:247-306 | the control flag table has positive masks and pairwise distinct names |
| ParaHeader.ActiveFlagsMatch | crates/hwp-core/src/document/bodytext/para_header.rs:135-306 | for every control character of the mask, its has_* test holds exactly when its name is in active_flags |
| ParaHeader.ColumnDivideFromBits | crates/hwp-core/src/document/bodytext/para_header.rs:335-350 | from_bits lists Section, MultiColumn, Page and Column for the set bits 0-3, in that order |
| ParaHeader.ColumnDivideRoundTrip | crates/hwp-core/src/document/bodytext/para_header.rs:335-350 | the masks of the listed types add up to the low four bits: from_bits keeps exactly those bits and ignores the rest |
| ParaHeader.ParaHeaderOf | crates/hwp-core/src/document/bodytext/para_header.rs:407-491 | an error exactly when the record is shorter than 24 bytes (version 5.0.3.2 and later) or 22 bytes, naming that size; the character count has bit 31 cleared; the merge flag is present exactly for version 5.0.3.2 or later with at least 24 bytes |
| ParaHeader.ParseParaHeader | crates/hwp-core/src/document/bodytext/para_header.rs:407-491 | the field-by-field parse with a running offset computes ParaHeaderOf |
| BinData.StorageTypeOf | crates/hwp-core/src/document/docinfo/bin_data.rs:25-32 | bits 0-3 equal to 1 give Embedding, 2 give Storage, and every other value (0 and the unnamed 3-15) falls back to Link |
| BinData.CompressionOf | crates/hwp-core/src/document/docinfo/bin_data.rs:49-56 | bits 4-5 equal to 1 give Compress, 2 give NoCompress, and 0 or the unnamed 3 give StorageDefault |
| BinData.AccessOf | crates/hwp-core/src/document/docinfo/bin_data.rs:75-82 | bits 8-9 name all four access states |
| BinData.AttributesOf | crates/hwp-core/src/document/docinfo/bin_data.rs:99-105 | the attributes are the three fields decoded from the same WORD |
| BinData.AttributeBits | crates/hwp-core/src/document/docinfo/bin_data.rs:14-82 | the writer's attribute WORD uses only bits 0-9 |
| BinData.AttributesRoundTrip | crates/hwp-core/src/document/docinfo/bin_data.rs:99-105 | every attribute value reads back from the WORD written for it |
| BinData.AttributesIgnoreOtherBits | crates/hwp-core/src/document/docinfo/bin_data.rs:99-105 | bits 6-7 and 10-15 never change the attributes |
| BinData.LinkAt | crates/hwp-core/src/document/docinfo/bin_data.rs:192-251 | the LINK payload: fewer than two bytes after the attributes is the absolute-path-length error; a success is a link record with the attributes and two length-prefixed UTF-16 paths |
| BinData.EmbeddingAt | crates/hwp-core/src/document/docinfo/bin_data.rs:252-298 | the EMBEDDING payload: the id-missing and extension-length-missing errors at the two short lengths; a success carries the storage id at 2 and the extension |
| BinData.BinDataOf | crates/hwp-core/src/document/docinfo/bin_data.rs:173-318 | fewer than 2 bytes is the attributes error; a success has the attributes of the first WORD and the record variant its storage type names; a storage record never fails on encoding |
| BinData.StorageRecordNeedsFourBytes | crates/hwp-core/src/document/docinfo/bin_data.rs:299-316 | a STORAGE record parses exactly when it has four bytes, and its id is the WORD at 2, whatever follows |
| BinData.ParseBinData | crates/hwp-core/src/document/docinfo/bin_data.rs:173-318 | the parse with its running offset computes BinDataOf |
| BinData.ParseLink | crates/hwp-core/src/document/docinfo/bin_data.rs:192-251 | the LINK branch with its running offset computes LinkAt |
| BinData.ParseEmbedding | crates/hwp-core/src/document/docinfo/bin_data.rs:252-298 | the EMBEDDING branch with its running offset computes EmbeddingAt |
| BinData.LinkRoundTrip | crates/hwp-core/src/document/docinfo/bin_data.rs:192-251 | a link record with paths below 2^16 characters reads back from its encoding, whatever follows |
| BinData.EmbeddingRoundTrip | crates/hwp-core/src/document/docinfo/bin_data.rs:252-298 | an embedding record reads back from its encoding |
| BinData.StorageRoundTrip | crates/hwp-core/src/document/docinfo/bin_data.rs:299-316 | a storage record's encoding carries its id at offset 2 |
| BinData.BinDataRoundTrip | crates/hwp-core/src/document/docinfo/bin_data.rs:173-318 | every well-formed record, followed by anything, reads back as itself |
| BorderFill.BorderFillAttributesOf | crates/hwp-core/src/document/docinfo/border_fill.rs:159-173 | the attribute WORD: bits 0 and 1, three-bit shapes at bits 2 and 5, the two-bit broken line at bit 8, and the flags at bits 10-13 |
| BorderFill.AttributeBits | crates/hwp-core/src/document/docinfo/border_fill.rs:159-173 | the writer of the attribute WORD sets nothing above bit 13 |
| BorderFill.AttributesRoundTrip | crates/hwp-core/src/document/docinfo/border_fill.rs:159-173 | every attribute value with in-range fields reads back from the WORD written for it |
| BorderFill.LineScore | crates/hwp-core/src/document/docinfo/border_fill.rs:187-206 | score_borderline is at most 5, and exactly 5 for a width up to 15, a line type up to 32 and a colour other than 0xFFFFFFFF |
| BorderFill.BordersScore | crates/hwp-core/src/document/docinfo/border_fill.rs:208-210 | score_borders is at most 20, and exactly 20 when all four lines are plausible |
| BorderFill.Interleaved | crates/hwp-core/src/document/docinfo/border_fill.rs:212-256 | layout (B): line k is type, width and colour at 2 + 6k |
| BorderFill.SpecLayout | crates/hwp-core/src/document/docinfo/border_fill.rs:258-290 | layout (A): line k takes type k, width k and colour k from the three arrays |
| BorderFill.ChosenBorders | crates/hwp-core/src/document/docinfo/border_fill.rs:292-301 | the kept layout is one of the two, scores at least as high as both, and a tie keeps the interleaved layout |
| BorderFill.FillTypeOf | crates/hwp-core/src/document/docinfo/border_fill.rs:359-369 | the fill kind by bit precedence: bit 0 Solid, else bit 1 Image, else bit 2 Gradient; 0 is no fill |
| BorderFill.ColorBytes | crates/hwp-core/src/document/docinfo/border_fill.rs:430-433 | `4 * color_count as usize`: four times the count when it is not negative, wrapped modulo 2^64 when it is |
| BorderFill.ColorsEnd | crates/hwp-core/src/document/docinfo/border_fill.rs:452 | `offset + 4 * color_count as usize` is the plain sum for a count that is not negative |
| BorderFill.NegativeColorCount | crates/hwp-core/src/document/docinfo/border_fill.rs:452-468 | as written, a negative colour count passes the size check exactly for -4..-1, whose wrapped byte count cancels the offset, and then no colour is read |
| BorderFill.ItemCount | crates/hwp-core/src/document/docinfo/border_fill.rs:460 | `for _ in 0..color_count` runs the count's times when positive and never otherwise |
| BorderFill.SolidOf | crates/hwp-core/src/document/docinfo/border_fill.rs:374-407 | a solid fill fails exactly below 16 bytes, with the 12-byte error; else it is the two colours and the pattern type |
| BorderFill.ImageOf | crates/hwp-core/src/document/docinfo/border_fill.rs:481-511 | an image fill fails exactly below 10 bytes: the type error with nothing after the kind, else the 5-byte info error; a success keeps the type byte and five info bytes |
| BorderFill.ColorsAt | crates/hwp-core/src/document/docinfo/border_fill.rs:452-468 | the colour list succeeds exactly when the wrapped size check passes, with the colours-data error otherwise; a success is the DWORDs the loop reads |
| BorderFill.GradientOf | crates/hwp-core/src/document/docinfo/border_fill.rs:408-480 | below 16 bytes the 12-byte error; a count above 2 without room for its positions the positions error; a success keeps the count, has positions exactly when the count is above 2, with the INT32s after the header, and as many colours as the loop runs |
| BorderFill.FillInfoOf | crates/hwp-core/src/document/docinfo/border_fill.rs:344-513 | parse_fill_info: fewer than 4 bytes or no known bit is no fill; otherwise the branch the fill kind selects |
| BorderFill.BorderFillOf | crates/hwp-core/src/document/docinfo/border_fill.rs:151-341 | below 32 bytes the BorderFill error; otherwise it fails only as the fill fails; a success has the attributes of the first WORD, the chosen layout, the diagonal at 26-31 and the fill of the rest (none when nothing follows) |
| BorderFill.ParseFillInfo | crates/hwp-core/src/document/docinfo/border_fill.rs:344-513 | the running-offset parse computes FillInfoOf |
| BorderFill.ParseGradient | crates/hwp-core/src/document/docinfo/border_fill.rs:408-480 | the gradient branch with its running offset computes GradientOf |
| BorderFill.ReadPositions | crates/hwp-core/src/document/docinfo/border_fill.rs:437-446 | the positions loop reads the INT32s of the run and advances four bytes per item |
| BorderFill.ReadColors | crates/hwp-core/src/document/docinfo/border_fill.rs:459-468 | the colours loop reads the DWORDs of the run and advances four bytes per item it runs |
| BorderFill.ParseBorderFill | crates/hwp-core/src/document/docinfo/border_fill.rs:151-341 | both layouts read with their own offsets and the better-scoring one kept compute BorderFillOf |
| BorderFill.EncodeFill | crates/hwp-core/src/document/docinfo/border_fill.rs:344-513 | the fill writer: no fill and only no fill is written as nothing |
| BorderFill.GradientRoundTrip | crates/hwp-core/src/document/docinfo/border_fill.rs:408-480 | every well-formed gradient reads back from its encoding |
| BorderFill.SolidRoundTrip | crates/hwp-core/src/document/docinfo/border_fill.rs:374-407 | every solid fill reads back from its encoding |
| BorderFill.ImageRoundTrip | crates/hwp-core/src/document/docinfo/border_fill.rs:481-511 | an image fill with five info bytes reads back from its encoding |
| BorderFill.FillRoundTrip | crates/hwp-core/src/document/docinfo/border_fill.rs:344-513 | every well-formed fill reads back as itself |
| BorderFill.LinesRead | crates/hwp-core/src/document/docinfo/border_fill.rs:238-256 | a run of interleaved lines reads back line by line at offsets 6k |
| BorderFill.BorderFillRoundTrip | crates/hwp-core/src/document/docinfo/border_fill.rs:151-341 | every well-formed record with plausible lines written interleaved reads back as itself |
| CtrlCaption.AlignCode | crates/hwp-core/src/document/bodytext/ctrl_header/caption.rs:40-46 | each caption alignment has a two-bit code that the decoder maps back to it |
| CtrlCaption.VAlignCode | crates/hwp-core/src/document/bodytext/ctrl_header/caption.rs:25-30 | each vertical alignment has a code below 3 that the decoder maps back to it (the unused code 3 also reads as Middle) |
| CtrlCaption.CaptionOf | crates/hwp-core/src/document/bodytext/ctrl_header/caption.rs:7-76 | never an error; a caption exactly when the record has at least 22 bytes, and a caption always carries a vertical alignment |
| CtrlCaption.ParseCaptionFromListHeader | crates/hwp-core/src/document/bodytext/ctrl_header/caption.rs:7-76 | the running-offset parse computes CaptionOf |
| CtrlCaption.EncodeCaption | crates/hwp-core/src/document/bodytext/ctrl_header/caption.rs:12-66 | the writer lays out the 22 bytes the reader takes |
| CtrlCaption.CaptionOfFields | crates/hwp-core/src/document/bodytext/ctrl_header/caption.rs:17-66 | bits 5-6 of the list-header property, bits 0-2 of the caption property and the three size fields at 12, 16 and 18 make up the caption |
| CtrlCaption.CaptionRoundTrip | crates/hwp-core/src/document/bodytext/ctrl_header/caption.rs:7-76 | every caption with a vertical alignment reads back from its encoding, whatever the paragraph count, the other list-header bits and what follows |
| CharShape.CharShapeAttributesOf | crates/hwp-core/src/document/docinfo/char_shape.rs:237-254 | the attribute DWORD: italic and bold are bits 0 and 1, the underline type bits 2-3, the strikethrough bits 18-20, and the other fields their own bit ranges |
| CharShape.AttributesRoundTrip | crates/hwp-core/src/document/docinfo/char_shape.rs:237-254 | every attribute value with in-range fields reads back from the DWORD written for it |
| CharShape.CharShapeAt | crates/hwp-core/src/document/docinfo/char_shape.rs:152-330 | the fields at their offsets; the border-fill id is present exactly with 70 bytes and is the WORD at 68, the strikethrough colour exactly with 74 bytes and is the DWORD at 70 |
| CharShape.CharShapeOf | crates/hwp-core/src/document/docinfo/char_shape.rs:147-151 | corrected guard: an error exactly below the 68 bytes always read, naming 68; otherwise the fields at their offsets |
| CharShape.CharShapePastEnd | crates/hwp-core/src/document/docinfo/char_shape.rs:149-151 | as written, 66 zero bytes pass the 66-byte guard and the read of the shadow colour at 64..68 goes out of bounds, where the corrected parser reports InsufficientData |
| CharShape.CharShapeAgree | crates/hwp-core/src/document/docinfo/char_shape.rs:147-330 | wherever the code as written returns a record, the corrected parser returns the same record |
| CharShape.ParseCharShape | crates/hwp-core/src/document/docinfo/char_shape.rs:147-330 | the running-offset parse computes CharShapeOf |
| CharShape.FixedPart | crates/hwp-core/src/document/docinfo/char_shape.rs:152-298 | the writer of the 68 fixed bytes |
| CharShape.FixedFields | crates/hwp-core/src/document/docinfo/char_shape.rs:152-298 | the fixed 68 bytes read back field by field at the reader's offsets |
| CharShape.CharShapeRoundTrip | crates/hwp-core/src/document/docinfo/char_shape.rs:147-330 | every well-formed character shape reads back as itself; the length of its encoding announces the optional fields |
| ColumnDefinition.ColumnAttributeOf | crates/hwp-core/src/document/bodytext/ctrl_header/column_definition.rs:21-45 | the attribute WORD: bits 0-1 type (3 reads as Normal), 2-9 column count with 0 read as one column, 10-11 direction (3 reads as Left), bit 12 equal widths; the count is never 0 |
| ColumnDefinition.ColumnTypeCode | crates/hwp-core/src/document/bodytext/ctrl_header/column_definition.rs:21-26 | each column type has a code below 3 that decodes back to it |
| ColumnDefinition.ColumnDirectionCode | crates/hwp-core/src/document/bodytext/ctrl_header/column_definition.rs:31-36 | each direction has a code below 3 that decodes back to it |
| ColumnDefinition.ColumnAttributeRoundTrip | crates/hwp-core/src/document/bodytext/ctrl_header/column_definition.rs:18-45 | every attribute with at least one column reads back from the WORD written for it |
| ColumnDefinition.WidthCount | crates/hwp-core/src/document/bodytext/ctrl_header/column_definition.rs:50-60 | the widths read: none for equal columns, otherwise one per column, stopping early only when two more bytes are not there; they always fit |
| ColumnDefinition.ColumnDefinitionOf | crates/hwp-core/src/document/bodytext/ctrl_header/column_definition.rs:7-95 | an error exactly below 12 bytes; width k is the INT16 at 4 + 2k; each field after the widths is 0 when it lies past the end |
| ColumnDefinition.ParseColumnDefinition | crates/hwp-core/src/document/bodytext/ctrl_header/column_definition.rs:7-95 | the parse with its widths loop and running offset computes ColumnDefinitionOf |
| ControlChar.RemovableNotConvertible | crates/hwp-core/src/document/bodytext/control_char.rs:62-96 | no code is both removed and converted |
| ControlChar.ToTextIffConvertible | crates/hwp-core/src/document/bodytext/control_char.rs:90-110 | to_text has a text exactly for the convertible codes |
| ControlChar.BreaksAreNewlines | crates/hwp-core/src/document/bodytext/control_char.rs:100-110 | line and paragraph breaks both become "\n" |
| ControlChar.SizeByCodeValues | crates/hwp-core/src/document/bodytext/control_char.rs:117-138 | one unit exactly for 0, 10, 13, 24, 30, 31 and every code above 31, eight otherwise, and every removable code is an eight-unit control |
| CtrlHeader.BodyOf | crates/hwp-core/src/document/bodytext/ctrl_header/mod.rs:46-65 | only the modelled body parsers can fail; "hide" is HiddenDescription; unknown ids are Other; the other known ids keep their body |
| CtrlHeader.CtrlHeaderOf | crates/hwp-core/src/document/bodytext/ctrl_header/mod.rs:30-72 | fewer than 4 bytes is the CtrlHeader error; otherwise the id is the first four bytes reversed with trailing NULs removed, the value is their DWORD, and the result fails exactly when the body parser the id selects fails |
| CtrlHeader.HeaderPrefix | crates/hwp-core/src/document/bodytext/ctrl_header/mod.rs:35-44 | an id written as its DWORD reads back as the id, its value is the id as a big-endian number, and the body is what follows |
| CtrlHeader.UnknownIdIsOther | crates/hwp-core/src/document/bodytext/ctrl_header/mod.rs:64 | a header with an unknown id is always accepted as Other |
| CtrlHeader.ObjectCommonHeaderRoundTrip | crates/hwp-core/src/document/bodytext/ctrl_header/mod.rs:47 | a table or shape object header with a well-formed common-properties body reads back as that control |
| CtrlHeader.FieldHeaderRoundTrip | crates/hwp-core/src/document/bodytext/ctrl_header/mod.rs:54 | a field-start header with a well-formed field body reads back as that field, with id value 0x25252525 |
| CtrlHeader.OverlapHeaderRoundTrip | crates/hwp-core/src/document/bodytext/ctrl_header/mod.rs:61 | an overlap header with a well-formed body reads back as that overlap, with id value 0x6F766572 |
| CtrlIds.ReversedId | crates/hwp-core/src/document/bodytext/ctrl_header/mod.rs:38-42 | the id is a prefix of the four bytes in reverse order |
| CtrlIds.IdBytes | crates/hwp-core/src/document/bodytext/ctrl_header/mod.rs:35-38 | an id's stored form is four bytes |
| CtrlIds.ReversedIdBytes | crates/hwp-core/src/document/bodytext/ctrl_header/mod.rs:38-42 | an id whose last character is not NUL reads back unchanged, wherever it sits |
| CtrlIds.IdValue | crates/hwp-core/src/document/bodytext/ctrl_header/mod.rs:35-42 | the DWORD value of an untrimmed id is the id read as a big-endian number |
| CtrlIds.IdsDistinct | crates/hwp-core/src/document/bodytext/ctrl_header/ids.rs:11-61 | the twenty control ids the header dispatches on are pairwise distinct |
| DocData.ItemTypeOf | crates/hwp-core/src/document/docinfo/doc_data.rs:211-256 | a type code is known exactly when it is 0-9 or 0x8000-0x8002 |
| DocData.ItemTypeCode | crates/hwp-core/src/document/docinfo/doc_data.rs:211-224 | every item type has a code that decodes back to it |
| DocData.ScalarItemOf | crates/hwp-core/src/document/docinfo/doc_data.rs:274-375 | a fixed-size type succeeds exactly when its bytes are there and takes exactly them; a BSTR that succeeds takes its length WORD and two bytes per unit, inside the data |
| DocData.ItemDataOf | crates/hwp-core/src/document/docinfo/doc_data.rs:376-414 | a nested set succeeds exactly with four bytes, an array exactly with two |
| DocData.ArraySets | crates/hwp-core/src/document/docinfo/doc_data.rs:395-411 | the array loop keeps at most the announced number of sets and never moves the offset back |
| DocData.ParameterSetOf | crates/hwp-core/src/document/docinfo/doc_data.rs:133-186 | an error exactly below 4 bytes; the set id and the INT16 item count are the first two WORDs, and no more items are kept than a positive count announces |
| DocData.SetItems | crates/hwp-core/src/document/docinfo/doc_data.rs:152-178 | the item loop keeps at most as many items as it iterates |
| DocData.ParameterItemOf | crates/hwp-core/src/document/docinfo/doc_data.rs:196-263 | below 4 bytes the ParameterItem error; an unknown type code is a Null item of four bytes; a success takes at least its four header bytes and keeps the id |
| DocData.DocDataOf | crates/hwp-core/src/document/docinfo/doc_data.rs:109-122 | empty data is the DocData error naming 1 and 0; otherwise it succeeds exactly with the four bytes of a set header |
| DocData.SetItemsTake | crates/hwp-core/src/document/docinfo/doc_data.rs:157-160 | a decoded item is kept and the loop goes on after its size |
| DocData.SetItemsSkip | crates/hwp-core/src/document/docinfo/doc_data.rs:162-172 | a failed item with four bytes left is skipped by its header |
| DocData.SetItemsStop | crates/hwp-core/src/document/docinfo/doc_data.rs:162-175 | a failed item without four bytes left ends the loop |
| DocData.ParseParameterSet | crates/hwp-core/src/document/docinfo/doc_data.rs:133-186 | the header read and the item loop compute ParameterSetOf |
| DocData.ItemStep | crates/hwp-core/src/document/docinfo/doc_data.rs:153-175 | one pass keeps at most one item, and stops only for a failed item without its four header bytes |
| DocData.ItemStepItems | crates/hwp-core/src/document/docinfo/doc_data.rs:152-178 | the items from an offset are the step's item followed by the items from the next offset, or nothing when the step stops |
| DocData.ParseItemStep | crates/hwp-core/src/document/docinfo/doc_data.rs:153-175 | one pass of the imperative loop computes ItemStep |
| DocData.ParseItems | crates/hwp-core/src/document/docinfo/doc_data.rs:152-178 | the item loop over n iterations computes SetItems |
| DocData.ParseParameterItem | crates/hwp-core/src/document/docinfo/doc_data.rs:196-263 | the header and value parse computes ParameterItemOf |
| DocData.ParseItemData | crates/hwp-core/src/document/docinfo/doc_data.rs:274-428 | parse_parameter_item_data computes ItemDataOf, a nested set through the set parse and an array through its own loop |
| DocData.ArraySetsTake | crates/hwp-core/src/document/docinfo/doc_data.rs:399-404 | a set that parses is kept and the offset advances by 4 + 4 per item, the approximate size |
| DocData.ArraySetsStop | crates/hwp-core/src/document/docinfo/doc_data.rs:406-410 | a set that fails ends the array where it started |
| DocData.ParseArraySets | crates/hwp-core/src/document/docinfo/doc_data.rs:393-413 | the array loop over n sets computes ArraySets from offset 2 |
| DocData.BstrRoundTrip | crates/hwp-core/src/document/docinfo/doc_data.rs:285-307 | a BSTR whose UTF-16 form is below 2^16 units reads back from its length WORD and bytes |
| DocData.ItemDataRoundTrip | crates/hwp-core/src/document/docinfo/doc_data.rs:274-375 | every flat value reads back from its bytes and takes exactly them, whatever follows |
| DocData.ItemRoundTrip | crates/hwp-core/src/document/docinfo/doc_data.rs:196-263 | a flat item reads back and takes exactly its own bytes |
| DocData.ItemsRoundTrip | crates/hwp-core/src/document/docinfo/doc_data.rs:152-178 | the item loop reads back a run of encoded flat items |
| DocData.SetRoundTrip | crates/hwp-core/src/document/docinfo/doc_data.rs:133-186 | a set of flat items whose count is the number of its items reads back as itself |
| DocData.NestedSetSize | crates/hwp-core/src/document/docinfo/doc_data.rs:376-383 | a nested set is credited with four bytes per item: never more than its encoding, so later items are read from inside it |
| DocInfo.StoreRecord | crates/hwp-core/src/document/docinfo/mod.rs:99-173 | an unknown tag is skipped; document properties and ID mappings count only at level 0 and the list records only at level 1, any other level leaving the document unchanged |
| DocInfo.DocInfoStep | crates/hwp-core/src/document/docinfo/mod.rs:78-96 | one turn reads the header, fails with the offset, size and stream length when the data runs past the stream, and otherwise stores exactly `size` bytes and moves on past them |
| DocInfo.DocInfoFromRecords | crates/hwp-core/src/document/docinfo/mod.rs:78-176 | the loop stores, in order, exactly the records of the same flat record sequence the body text tree is built from |
| DocInfo.DocInfoCoversRecords | crates/hwp-core/src/document/docinfo/mod.rs:78-176 | a stream that parses splits into whole records with nothing left over |
| DocInfo.RawRecords | crates/hwp-core/src/document/docinfo/mod.rs:114-167 | the raw list of a tag has at most one entry per record |
| DocInfo.StoreRaw | crates/hwp-core/src/document/docinfo/mod.rs:114-167 | a level-1 record appends its bytes to its own tag's raw list and no other raw list changes |
| DocInfo.StoreAllRaw | crates/hwp-core/src/document/docinfo/mod.rs:114-167 | the bin data, bullet, paragraph shape and style lists are exactly the level-1 records of their tag, byte for byte and in stream order |
| DocInfo.RawListsOfStream | crates/hwp-core/src/document/docinfo/mod.rs:65-176 | for a parsed stream, each raw list is that of the stream's record sequence |
| DocInfo.FaceNameRecords | crates/hwp-core/src/document/docinfo/mod.rs:119-125 | there are at most as many face names as records |
| DocInfo.StoreFaceName | crates/hwp-core/src/document/docinfo/mod.rs:119-125 | a level-1 FACE_NAME record appends its parsed face name and any other record leaves the list alone |
| DocInfo.StoreAllFaceNames | crates/hwp-core/src/document/docinfo/mod.rs:119-125 | the face names of a parsed stream are those of its level-1 FACE_NAME records in order, and every such record parsed |
| DocInfo.Store | crates/hwp-core/src/document/docinfo/mod.rs:99-173 | the match on the tag computes StoreRecord |
| DocInfo.ReadStep | crates/hwp-core/src/document/docinfo/mod.rs:79-173 | one turn either fails as the whole loop does from that offset, or stores one record and gives a later offset from which the loop's result is the same |
| DocInfo.ParseDocInfo | crates/hwp-core/src/document/docinfo/mod.rs:65-176 | the while loop over the offset computes the record-level DocInfo parse |
| DocumentProperties.Numbers | crates/hwp-core/src/document/docinfo/document_properties.rs:55-86 | there are seven WORD fields |
| DocumentProperties.Positions | crates/hwp-core/src/document/docinfo/document_properties.rs:88-112 | there are three DWORD fields |
| DocumentProperties.DocumentPropertiesOf | crates/hwp-core/src/document/docinfo/document_properties.rs:45-127 | an error exactly below 26 bytes, naming 26 and the length; otherwise the seven WORDs at offsets 0-12 and the three DWORDs at 14-22, with the start-number heading left 0 |
| DocumentProperties.ParseDocumentProperties | crates/hwp-core/src/document/docinfo/document_properties.rs:45-127 | the parse with a running offset computes DocumentPropertiesOf |
| DocumentProperties.EncodeDocumentProperties | crates/hwp-core/src/document/docinfo/document_properties.rs:45-127 | the writer side lays out 26 bytes |
| DocumentProperties.DocumentPropertiesLayout | crates/hwp-core/src/document/docinfo/document_properties.rs:55-112 | each field reads back from its encoding, whatever follows |
| DocumentProperties.DocumentPropertiesRoundTrip | crates/hwp-core/src/document/docinfo/document_properties.rs:45-127 | a record whose start-number heading is 0 reads back as itself, whatever follows |
| EqEdit.EqEditOf | crates/hwp-core/src/document/bodytext/eqedit.rs:61-154 | below 16 bytes and below 16 + 6n bytes the errors the source names; success exactly when the bytes are there and all three strings, each of the one script length n, decode; the fields sit at their absolute offsets |
| EqEdit.ParseEqEdit | crates/hwp-core/src/document/bodytext/eqedit.rs:61-154 | the parse with a running offset computes EqEditOf |
| EqEdit.EqEditLayout | crates/hwp-core/src/document/bodytext/eqedit.rs:70-142 | each field of a well-formed record sits where the parser reads it |
| EqEdit.EqEditRoundTrip | crates/hwp-core/src/document/bodytext/eqedit.rs:61-154 | every well-formed record, followed by anything, reads back as itself |
| FaceName.AlternativeFontTypeOf | crates/hwp-core/src/document/docinfo/face_name.rs:33-38 | bytes 1 and 2 are TTF and HFT, every other byte is Unknown |
| FaceName.AlternativeFontTypeByte | crates/hwp-core/src/document/docinfo/face_name.rs:33-38 | every font type has a byte that decodes back to it |
| FaceName.WcharsAt | crates/hwp-core/src/document/docinfo/face_name.rs:106-117 | a name that runs past the data is an error naming its offset, end and the length; one that fits is an encoding error or its UTF-16 decoding, ending 2n bytes on |
| FaceName.AlternativeAt | crates/hwp-core/src/document/docinfo/face_name.rs:124-157 | a missing type byte and a missing length are the errors the source names; a success decodes the type and takes the name after the length |
| FaceName.TypeInfoAt | crates/hwp-core/src/document/docinfo/face_name.rs:168-190 | an error exactly when fewer than ten bytes are left, otherwise the ten bytes in order |
| FaceName.DefaultAt | crates/hwp-core/src/document/docinfo/face_name.rs:196-220 | a missing length is the error the source names; a success is the length-prefixed name |
| FaceName.FaceNameOf | crates/hwp-core/src/document/docinfo/face_name.rs:90-232 | below three bytes, and a name past the data, the errors the source names; a success has the decoded name, and each optional section exactly when its attribute bit (0x80, 0x40, 0x20) is set |
| FaceName.AfterName | crates/hwp-core/src/document/docinfo/face_name.rs:119-232 | the sections after the name keep it and appear exactly as their bits say |
| FaceName.AfterAlternative | crates/hwp-core/src/document/docinfo/face_name.rs:167-232 | the sections after the alternative font keep what was read and appear exactly as their bits say |
| FaceName.AfterTypeInfo | crates/hwp-core/src/document/docinfo/face_name.rs:195-232 | the default font appears exactly as its bit says |
| FaceName.AlternativeStep | crates/hwp-core/src/document/docinfo/face_name.rs:119-165 | without bit 7 the alternative font is None; with it, its error is the record's error and its success moves past it |
| FaceName.TypeInfoStep | crates/hwp-core/src/document/docinfo/face_name.rs:167-193 | without bit 6 the type information is None; with it, its error is the record's and its success moves ten bytes on |
| FaceName.DefaultStep | crates/hwp-core/src/document/docinfo/face_name.rs:195-232 | without bit 5 the default font is None; with it, its error is the record's and its success ends the record |
| FaceName.ParseFaceName | crates/hwp-core/src/document/docinfo/face_name.rs:90-165 | the parse with a running offset computes FaceNameOf |
| FaceName.ParseFontInfo | crates/hwp-core/src/document/docinfo/face_name.rs:167-232 | the rest of the parse computes AfterAlternative |
| FaceName.AttributeBits | crates/hwp-core/src/document/docinfo/face_name.rs:12-16 | the writer's attribute byte announces exactly the sections the face name has |
| FaceName.WcharsRead | crates/hwp-core/src/document/docinfo/face_name.rs:100-117 | a length-prefixed name reads back and leaves what followed it |
| FaceName.FaceNameRoundTrip | crates/hwp-core/src/document/docinfo/face_name.rs:90-232 | every well-formed face name, followed by anything, reads back as itself |
| CtrlField.CommandOf | crates/hwp-core/src/document/bodytext/ctrl_header/field.rs:36-44 | a non-empty command has a positive length and fits in the data, so a zero length or a command past the data gives the empty command |
| CtrlField.FieldOf | crates/hwp-core/src/document/bodytext/ctrl_header/field.rs:8-66 | an error exactly below 15 bytes; the field type is the reversed first four bytes and the command length the WORD at offset 9; a non-zero id needs its four bytes after the command, else it is 0 |
| CtrlField.ParseField | crates/hwp-core/src/document/bodytext/ctrl_header/field.rs:8-66 | the parse with a running offset computes FieldOf |
| CtrlField.FieldRoundTrip | crates/hwp-core/src/document/bodytext/ctrl_header/field.rs:8-66 | every well-formed field reads back from its encoding |
| FileTime.FileTimeOf | crates/hwp-core/src/document/summary_information.rs:69 | the two DWORD halves of a FILETIME give back the 64-bit tick count |
| FileTime.WrapI64 | crates/hwp-core/src/document/summary_information.rs:70 | the i64 subtraction wraps: the result is congruent to the exact difference modulo 2^64 |
| FileTime.WholeSeconds | crates/hwp-core/src/document/summary_information.rs:71 | the division by 10 000 000 rounds toward zero, so the remainder has the dividend's sign |
| FileTime.UnixTimestamp | crates/hwp-core/src/document/summary_information.rs:65-72 | a FILETIME after the Unix epoch gives its whole seconds since the epoch; one before gives a non-positive count rounded toward zero; ticks from 2^63 on reinterpret as negative |
| FileTime.UnixTimestampOfSeconds | crates/hwp-core/src/document/summary_information.rs:65-72 | a FILETIME s seconds and fewer than 10 000 000 ticks after the epoch gives back s |
| FileTime.LeapYearCycle | crates/hwp-core/src/document/summary_information.rs:145-147 | the leap-year rule repeats every 400 years |
| FileTime.MonthLengths | crates/hwp-core/src/document/summary_information.rs:115-128 | the month table has twelve lengths from 28 to 31 |
| FileTime.MonthLengthsTotal | crates/hwp-core/src/document/summary_information.rs:115-128 | the twelve month lengths add up to the days of the year |
| FileTime.YearFromSpec | crates/hwp-core/src/document/summary_information.rs:101-111 | the year loop ends on a year and a day within it that lie the given number of days after its start year |
| FileTime.MonthFromSpec | crates/hwp-core/src/document/summary_information.rs:113-136 | the month loop ends on a month and a day within that month |
| FileTime.CivilFromDaysSpec | crates/hwp-core/src/document/summary_information.rs:93-136 | the calendar walk lands on a valid date exactly that many days after 1970-01-01 |
| FileTime.CivilFromDaysOfDate | crates/hwp-core/src/document/summary_information.rs:93-136 | every valid date from 1970 on is reached from its own day count: the walk and the day count are inverse |
| FileTime.IsoUtc9Read | crates/hwp-core/src/document/summary_information.rs:138-141 | the ISO 8601 string with its zero padding reads back as the six numbers it was made from |
| FileTime.IsoOfSecondsInstant | crates/hwp-core/src/document/summary_information.rs:92-141 | the string names a valid date and a time of day that are together exactly the given seconds after 1970-01-01T00:00:00 |
| FileTime.TimeOfDay | crates/hwp-core/src/document/summary_information.rs:94-97 | hours, minutes and seconds are in range and give back the seconds of the day |
| FileTime.Utc9String | crates/hwp-core/src/document/summary_information.rs:75-81 | a timestamp before the epoch gives the fixed string 1970-01-01T00:00:00+09:00 |
| FileTime.Utc9StringInstant | crates/hwp-core/src/document/summary_information.rs:75-142 | for a timestamp at or after the epoch, the string names a valid date and time exactly nine hours after it |
| FileTime.ToUtc9String | crates/hwp-core/src/document/summary_information.rs:75-142 | the conversion with its year and month loops computes Utc9String |
| FileTime.IsoOfSecondsLoops | crates/hwp-core/src/document/summary_information.rs:92-141 | the two calendar loops compute IsoOfSeconds |
| FootnoteShape.NumberShapeCode | crates/hwp-core/src/document/bodytext/footnote_shape.rs:218-239 | every number shape has a code in the table (0-16, 0x80, 0x81) that decodes back to it |
| FootnoteShape.NumberShapeFallback | crates/hwp-core/src/document/bodytext/footnote_shape.rs:239 | every code outside the table is Arabic |
| FootnoteShape.NumberShapeInjective | crates/hwp-core/src/document/bodytext/footnote_shape.rs:218-238 | distinct codes of the table give distinct shapes |
| FootnoteShape.FootnoteShapeAttributesOf | crates/hwp-core/src/document/bodytext/footnote_shape.rs:216-270 | the shape from bits 0-7, page position and numbering from bits 8-9 and 10-11 with 3 falling back to the first variant, superscript and prefix from bits 12 and 13 |
| FootnoteShape.FootnoteShapeAttributesBits | crates/hwp-core/src/document/bodytext/footnote_shape.rs:216-270 | the writer uses only bits 0-13 |
| FootnoteShape.FootnoteShapeAttributesRoundTrip | crates/hwp-core/src/document/bodytext/footnote_shape.rs:216-270 | every attribute set reads back from its bits |
| FootnoteShape.FootnoteShapeOf | crates/hwp-core/src/document/bodytext/footnote_shape.rs:130-212 | an error exactly below 26 bytes; the attributes decode the first DWORD, the separator type and thickness are bytes 20 and 21, its colour the DWORD at 22 |
| FootnoteShape.ParseFootnoteShape | crates/hwp-core/src/document/bodytext/footnote_shape.rs:130-212 | the parse with a running offset computes FootnoteShapeOf |
| FootnoteShape.EncodeFootnoteShape | crates/hwp-core/src/document/bodytext/footnote_shape.rs:130-212 | the writer lays out 26 bytes |
| FootnoteShape.FootnoteShapeRoundTrip | crates/hwp-core/src/document/bodytext/footnote_shape.rs:130-212 | every footnote shape reads back from its encoding |
| IdMappings.Counts | crates/hwp-core/src/document/docinfo/id_mappings.rs:87-101 | there are fifteen mandatory counts |
| IdMappings.OptionalInt32 | crates/hwp-core/src/document/docinfo/id_mappings.rs:107-128 | an optional count is present exactly when the record has at least its threshold of bytes, and is then the INT32 at its offset |
| IdMappings.IdMappingsOf | crates/hwp-core/src/document/docinfo/id_mappings.rs:66-151 | an error exactly below 60 bytes; the fifteen counts are the INT32s at 0-56, and memo shape, track change and track-change author are present from 64, 68 and 72 bytes on |
| IdMappings.OptionalChain | crates/hwp-core/src/document/docinfo/id_mappings.rs:107-128 | each optional count is present only when the one before it is |
| IdMappings.ReadInt32 | crates/hwp-core/src/document/docinfo/id_mappings.rs:75-85 | the read_int32 closure gives the INT32 at the offset and moves four bytes on |
| IdMappings.ParseIdMappings | crates/hwp-core/src/document/docinfo/id_mappings.rs:66-151 | the parse with its running offset computes IdMappingsOf, whatever the version |
| IdMappings.IdMappingsRoundTrip | crates/hwp-core/src/document/docinfo/id_mappings.rs:66-151 | an encoded record reads back as itself, its length telling which optional counts are there |
| LineSeg.TagFromBitsOfBits | crates/hwp-core/src/document/bodytext/line_seg.rs:32-43 | every tag reads back from its bits |
| LineSeg.TagBitsOfFromBits | crates/hwp-core/src/document/bodytext/line_seg.rs:32-43 | only bits 0, 1 and 16-21 are read; every other bit is ignored |
| LineSeg.LineSegmentInfoOf | crates/hwp-core/src/document/bodytext/line_seg.rs:77-180 | an error exactly below 36 bytes |
| LineSeg.ParseLineSegmentInfo | crates/hwp-core/src/document/bodytext/line_seg.rs:77-180 | the parse with its running offset computes LineSegmentInfoOf |
| LineSeg.ParaLineSegOf | crates/hwp-core/src/document/bodytext/line_seg.rs:198-218 | an error exactly when the length is not a multiple of 36, otherwise one segment per 36 bytes |
| LineSeg.ParseParaLineSeg | crates/hwp-core/src/document/bodytext/line_seg.rs:198-218 | the loop over the 36-byte slices computes ParaLineSegOf |
| LineSeg.EncodeSegment | crates/hwp-core/src/document/bodytext/line_seg.rs:77-180 | the writer lays out each entry in 36 bytes |
| LineSeg.SegmentOfEncode | crates/hwp-core/src/document/bodytext/line_seg.rs:77-180 | every segment reads back from its encoding, whatever follows |
| LineSeg.SegmentChunk | crates/hwp-core/src/document/bodytext/line_seg.rs:210-215 | slice i of an encoded list is segment i's encoding |
| LineSeg.ParaLineSegRoundTrip | crates/hwp-core/src/document/bodytext/line_seg.rs:198-218 | every list of segments reads back, in order, from its encoding |
| ListHeader.ListHeaderAttributeOf | crates/hwp-core/src/document/bodytext/list_header.rs:103-134 | text direction from bits 0-2 is Vertical exactly for 1; line break and vertical alignment from bits 3-4 and 5-6 fall back to their first variant for 3 |
| ListHeader.ListHeaderAttributeBits | crates/hwp-core/src/document/bodytext/list_header.rs:103-134 | the writer uses only bits 0-6 |
| ListHeader.ListHeaderAttributeRoundTrip | crates/hwp-core/src/document/bodytext/list_header.rs:103-134 | every attribute reads back from its bits |
| ListHeader.ListHeaderAttributeLowBits | crates/hwp-core/src/document/bodytext/list_header.rs:103-134 | only bits 0-6 matter |
| ListHeader.ListHeaderOf | crates/hwp-core/src/document/bodytext/list_header.rs:70-100 | an error exactly below 6 bytes; the paragraph count is the first INT16 and the attribute the DWORD at 4 from eight bytes on, at 2 below that |
| ListHeader.ListHeaderRoundTrip | crates/hwp-core/src/document/bodytext/list_header.rs:70-100 | both the six-byte and the eight-byte layout read back, the latter followed by anything |
| MarkdownParaText.StylesNest | crates/hwp-core/src/viewer/markdown/document/bodytext/para_text.rs:191-217 | a styled text is the text unchanged between its marks, strikethrough outermost and italic innermost |
| MarkdownParaText.ConvertBreaks | crates/hwp-core/src/viewer/markdown/document/bodytext/para_text.rs:276-328 | the loop over the controls sorted by position computes the break conversion as written |
| MarkdownParaText.ShapePositionsUpTo | crates/hwp-core/src/viewer/markdown/document/bodytext/para_text.rs:71-76 | exactly the shape positions that do not pass the text's length |
| MarkdownParaText.BoundariesSorted | crates/hwp-core/src/viewer/markdown/document/bodytext/para_text.rs:63-79 | after sort and dedup the cut positions increase strictly from 0 to the length and are exactly 0, the length and the shape positions within it |
| MarkdownParaText.BreaksIn | crates/hwp-core/src/viewer/markdown/document/bodytext/para_text.rs:116-120 | a segment's breaks lie within the segment |
| MarkdownParaText.Segments | crates/hwp-core/src/viewer/markdown/document/bodytext/para_text.rs:82-102 | one segment per pair of neighbouring cuts, each with the shape that starts at its start or else the last one before it |
| MarkdownParaText.BreakPositions | crates/hwp-core/src/viewer/markdown/document/bodytext/para_text.rs:105-110 | exactly the positions of the PARA_BREAK and LINE_BREAK controls |
| MarkdownParaText.EmitSegment | crates/hwp-core/src/viewer/markdown/document/bodytext/para_text.rs:113-169 | the styling of one segment, split at its breaks, computes SegmentText |
| MarkdownParaText.EmitBrokenSegment | crates/hwp-core/src/viewer/markdown/document/bodytext/para_text.rs:141-168 | the pieces between a segment's breaks, with a hard break after every piece but the last, compute SubPieces |
| MarkdownParaText.EmitPiece | crates/hwp-core/src/viewer/markdown/document/bodytext/para_text.rs:145-163 | one piece is the styled characters between two cuts, or nothing when they are blank |
| MarkdownParaText.ConvertTextWithCharShapes | crates/hwp-core/src/viewer/markdown/document/bodytext/para_text.rs:49-179 | the loops of the conversion with character shapes compute WithCharShapes |
| MarkdownParaText.CollectBoundaries | crates/hwp-core/src/viewer/markdown/document/bodytext/para_text.rs:63-79 | the collection of cut positions computes Boundaries |
| MarkdownParaText.CollectSegments | crates/hwp-core/src/viewer/markdown/document/bodytext/para_text.rs:82-102 | the segment loop computes Segments |
| MarkdownParaText.EmitSegments | crates/hwp-core/src/viewer/markdown/document/bodytext/para_text.rs:113-171 | the loop over the segments computes SegmentsText |
| MarkdownParaText.NoBreaks | crates/hwp-core/src/viewer/markdown/document/bodytext/para_text.rs:258-268 | without a break control the paragraph is its trimmed text, or nothing when it is blank |
| MarkdownParaText.TrimmedAtStartOnly | crates/hwp-core/src/viewer/markdown/document/bodytext/para_text.rs:321-328 | with breaks the result exists exactly when the raw text is not blank, and is the raw text with only its leading whitespace removed |
| MarkdownParaText.StartOnly | crates/hwp-core/src/viewer/markdown/document/bodytext/para_text.rs:323-328 | trim_start keeps everything after the leading whitespace and is empty exactly for blank text |
| MarkdownParaText.BreaksInTextSorted | crates/hwp-core/src/viewer/markdown/document/bodytext/para_text.rs:276-277 | sorting the controls by position keeps the number of breaks inside the text |
| MarkdownParaText.BreakCount | crates/hwp-core/src/viewer/markdown/document/bodytext/para_text.rs:279-320 | for text without newlines the raw result holds exactly one hard break per break control inside the text |
| MarkdownParaText.BreakAtEndRepeats | crates/hwp-core/src/viewer/markdown/document/bodytext/para_text.rs:291-319 | as written, "ab" with a line break at position 1 gives "a  \nab": the text after the last break is the whole text again; resuming at the end gives "a  \n" |
| MarkdownParaText.BreakAtLastChar | crates/hwp-core/src/viewer/markdown/document/bodytext/para_text.rs:291-319 | as written, after a break at the last character the whole paragraph is emitted once more; the corrected conversion stops after the break |
| MarkdownParaText.CorrectedSteps | crates/hwp-core/src/viewer/markdown/document/bodytext/para_text.rs:279-309 | over sorted controls, resuming at the end never passes the text, and the output so far is at most the characters before the resume point plus three per break |
| MarkdownParaText.CorrectedNoRepeat | crates/hwp-core/src/viewer/markdown/document/bodytext/para_text.rs:276-320 | the corrected conversion is never longer than the text plus three characters per break: no character is emitted twice |
| MarkdownTable.CellParts | crates/hwp-core/src/viewer/markdown/table.rs:195-240 | a cell's parts are its non-blank texts, trimmed, and its non-empty image markdown, and no part is empty |
| MarkdownTable.CollectCellParts | crates/hwp-core/src/viewer/markdown/table.rs:195-240 | the loops over the cell's paragraphs and records compute CellParts |
| MarkdownTable.EscapeMarks | crates/hwp-core/src/viewer/markdown/table.rs:248 | after the escaping every pipe character follows a backslash, so the text does not start with one |
| MarkdownTable.EscapeRoundTrip | crates/hwp-core/src/viewer/markdown/table.rs:248 | reading the escapes back gives the text |
| MarkdownTable.CellContentEscaped | crates/hwp-core/src/viewer/markdown/table.rs:242-249 | the content is never empty: a blank for no parts, else the parts joined by spaces with every pipe escaped, which unescape back to the join |
| MarkdownTable.Fill | crates/hwp-core/src/viewer/markdown/table.rs:168-278 | filling keeps the grid's shape |
| MarkdownTable.FirstWriterWins | crates/hwp-core/src/viewer/markdown/table.rs:252-253 | a taken position leaves the whole grid unchanged, and no taken position ever changes its text |
| MarkdownTable.SpanFilled | crates/hwp-core/src/viewer/markdown/table.rs:253-277 | a cell on a free position takes it; each position of its span, clipped to the grid, is then taken, by a blank unless already taken; no other position changes |
| MarkdownTable.FillCellContent | crates/hwp-core/src/viewer/markdown/table.rs:168-278 | the method on the grid array computes Fill of the old grid with the cell's content |
| MarkdownTable.FillSpan | crates/hwp-core/src/viewer/markdown/table.rs:258-277 | the span loops give every free position of the span a blank and change nothing else |
| MarkdownTable.FillSpanRow | crates/hwp-core/src/viewer/markdown/table.rs:271-276 | one row below the cell: its free positions from col to the clipped end get a blank |
| MarkdownTable.MinOf | crates/hwp-core/src/viewer/markdown/table.rs:50-60 | the minimum of the addresses, or 1 when there are none |
| MarkdownTable.RowColKeyOrder | crates/hwp-core/src/viewer/markdown/table.rs:71-76 | the sort key orders cells by row address, then by column address |
| MarkdownTable.NextRow | crates/hwp-core/src/viewer/markdown/table.rs:88-97 | a column address not greater than the previous one moves to the next row, never past the last |
| MarkdownTable.SameRowPlacements | crates/hwp-core/src/viewer/markdown/table.rs:80-108 | the same-row walk places no more cells than it has, inside the grid, each at its column relative to the minimum, saturating at 0 |
| MarkdownTable.SameRowStep | crates/hwp-core/src/viewer/markdown/table.rs:86-107 | one step places the first cell on the row NextRow gives when its column fits, and skips it otherwise |
| MarkdownTable.SameRowCells | crates/hwp-core/src/viewer/markdown/table.rs:80-108 | every cell the same-row walk places is one of the table's |
| MarkdownTable.AddressPlacements | crates/hwp-core/src/viewer/markdown/table.rs:114-131 | every table cell whose relative row and column fit is placed there, in the table's order, and nothing else |
| MarkdownTable.Placements | crates/hwp-core/src/viewer/markdown/table.rs:62-132 | the cells fill the grid, as written walking the sorted cells in the same-row branch; each is a table cell inside the grid |
| MarkdownTable.PlacementsCorrected | crates/hwp-core/src/viewer/markdown/table.rs:80-85 | the placements with the same-row branch walking the cells in their original order, as its comment says |
| MarkdownTable.EmptyGrid | crates/hwp-core/src/viewer/markdown/table.rs:44-47 | the grid starts as row_count × col_count free positions |
| MarkdownTable.Layout | crates/hwp-core/src/viewer/markdown/table.rs:80-132 | filling each placement in turn keeps the grid's shape |
| MarkdownTable.LayoutKeeps | crates/hwp-core/src/viewer/markdown/table.rs:252-253 | a position once taken keeps its text through every later placement |
| MarkdownTable.FirstPlacementShows | crates/hwp-core/src/viewer/markdown/table.rs:252-254 | the first placement on a free position shows its content there in the end; one on a taken position is lost |
| MarkdownTable.GridLines | crates/hwp-core/src/viewer/markdown/table.rs:141-160 | one line per row with the separator right after the first |
| MarkdownTable.ConvertTableToMarkdown | crates/hwp-core/src/viewer/markdown/table.rs:12-164 | the conversion with its grid array and loops computes TableMarkdown |
| MarkdownTable.EmptyCellsMarkdown | crates/hwp-core/src/viewer/markdown/table.rs:25-40 | a table without cells prints the blank rows with the separator after the first |
| MarkdownTable.FillSameRow | crates/hwp-core/src/viewer/markdown/table.rs:80-108 | the same-row loop over the sorted cells fills the grid as Layout of SameRowPlacements |
| MarkdownTable.FillByAddress | crates/hwp-core/src/viewer/markdown/table.rs:114-131 | the address loop fills the grid as Layout of AddressPlacements |
| MarkdownTable.AddressStep | crates/hwp-core/src/viewer/markdown/table.rs:117-131 | one step places the first cell at its relative addresses when they fit, and skips it otherwise |
| MarkdownTable.RenderGrid | crates/hwp-core/src/viewer/markdown/table.rs:138-163 | the output lines are the rows in order with the separator after the first, between two empty lines |
| MarkdownTable.RowText | crates/hwp-core/src/viewer/markdown/table.rs:141-150 | one grid row becomes a line of its cells between pipes, a free position showing a blank |
| MarkdownTable.EmptyCellsAsGrid | crates/hwp-core/src/viewer/markdown/table.rs:25-40 | a table without cells prints as a grid where nothing was placed |
| MarkdownTable.CellContentOneLine | crates/hwp-core/src/viewer/markdown/table.rs:242-249 | a cell whose records hold no line break gets a one-line content |
| MarkdownTable.RenderLines | crates/hwp-core/src/viewer/markdown/table.rs:138-163 | without line breaks in the cells the output's lines are the empty line, the first row, the separator, the other rows and the empty line |
| MarkdownTable.TableLinesShape | crates/hwp-core/src/viewer/markdown/table.rs:12-164 | a table with rows and columns whose cells hold no line break prints row_count + 3 lines, empty first and last, the separator third |
| MarkdownTable.SortedSameRowLosesCell | crates/hwp-core/src/viewer/markdown/table.rs:70-108 | four cells in one row address with columns 0, 1, 0, 1 on a 2 × 2 grid: as written the sort puts both column-0 cells first and the top-right position stays empty; in the original order every cell shows |
| MarkdownTable.RowMajorFromPositions | crates/hwp-core/src/viewer/markdown/table.rs:80-108 | in their original order, cells whose columns walk the grid row by row land at the positions of that walk |
| MarkdownTable.DivModPositions | crates/hwp-core/src/viewer/markdown/table.rs:80-108 | the positions (k / n, k mod n) walk an n-column grid row by row |
| NumberFormat.CharOfCode | crates/hwp-core/src/viewer/html/document/bodytext/mod.rs:419 | a code that is a Unicode scalar value is that character; a surrogate or a code past U+10FFFF becomes a space |
| NumberFormat.ToLower | crates/hwp-core/src/viewer/html/document/bodytext/mod.rs:521-524 | lowercasing turns each ASCII capital into its small letter, leaves every other character, and keeps the length |
| NumberFormat.RomanTokens | crates/hwp-core/src/viewer/html/document/bodytext/mod.rs:502-519 | the greedy loop emits only table entries from the current one on |
| NumberFormat.RomanTokensValue | crates/hwp-core/src/viewer/html/document/bodytext/mod.rs:502-519 | the greedy tokens add up to the number, and 0 gives none |
| NumberFormat.RomanTokensOrder | crates/hwp-core/src/viewer/html/document/bodytext/mod.rs:502-519 | the greedy tokens come largest value first |
| NumberFormat.RomanValue | crates/hwp-core/src/viewer/html/document/bodytext/mod.rs:502-519 | the numeral spells tokens whose values add up to the number, from the largest entry down |
| NumberFormat.NumberToRomanUpper | crates/hwp-core/src/viewer/html/document/bodytext/mod.rs:502-519 | the loop over the table with its inner while loop computes RomanUpper |
| NumberFormat.Letter | crates/hwp-core/src/viewer/html/document/bodytext/mod.rs:533 | a letter index gives an uppercase letter |
| NumberFormat.AlphaDigits | crates/hwp-core/src/viewer/html/document/bodytext/mod.rs:526-540 | the letters are never empty and all uppercase |
| NumberFormat.AlphaDigitsValue | crates/hwp-core/src/viewer/html/document/bodytext/mod.rs:526-540 | the letters of m + 1 read back, in bijective base 26, as m + 1 |
| NumberFormat.AlphaValueDigits | crates/hwp-core/src/viewer/html/document/bodytext/mod.rs:526-540 | every non-empty uppercase string is the letters of its own value |
| NumberFormat.AlphaRoundTrip | crates/hwp-core/src/viewer/html/document/bodytext/mod.rs:526-540 | numbers from 1 and non-empty letter strings correspond one to one |
| NumberFormat.AlphaLowerLetters | crates/hwp-core/src/viewer/html/document/bodytext/mod.rs:543-546 | the lowercase letters are the uppercase ones shifted to a-z |
| NumberFormat.ReverseSnoc | crates/hwp-core/src/viewer/html/document/bodytext/mod.rs:539 | reversing puts a last character first |
| NumberFormat.NumberToAlphaUpper | crates/hwp-core/src/viewer/html/document/bodytext/mod.rs:526-540 | the loop pushing the least significant letter first, then the reversal, computes AlphaUpper |
| NumberFormat.CyclicPeriod | crates/hwp-core/src/viewer/html/document/bodytext/mod.rs:548-566 | a cyclic table repeats with its length as period and always gives one of its characters |
| NumberFormat.CyclicDistinct | crates/hwp-core/src/viewer/html/document/bodytext/mod.rs:548-566 | over one period distinct numbers get distinct characters of a table without repeats |
| NumberFormat.TablesDistinct | crates/hwp-core/src/viewer/html/document/bodytext/mod.rs:552-648 | the syllable, jamo, stem and four-character tables have no repeats |
| NumberFormat.Circled | crates/hwp-core/src/viewer/html/document/bodytext/mod.rs:416-423 | 1 to 20 give the circled digits U+2460 to U+2473, every other number its decimal |
| NumberFormat.FourCharRepeat | crates/hwp-core/src/viewer/html/document/bodytext/mod.rs:470-473 | from 1 the four characters cycle; 0 wraps, as in a release build, to the fourth |
| NumberFormat.NumberToNumeralAsWritten | crates/hwp-core/src/viewer/html/document/bodytext/mod.rs:568-632 | the loop of the Korean and Chinese numerals computes NumeralAsWritten, including its panic |
| NumberFormat.NumeralAsWrittenOrder | crates/hwp-core/src/viewer/html/document/bodytext/mod.rs:583-597 | as written 23 gives two, three, ten, with the unit after the digits, and 10000 indexes past the Korean units |
| NumberFormat.IndexOf | crates/hwp-core/src/viewer/html/document/bodytext/mod.rs:572-606 | the first index of a character, or the length when it is missing |
| NumberFormat.HangulSound | crates/hwp-core/src/viewer/html/document/bodytext/mod.rs:572-573 | the Korean digit and unit tables can be read back |
| NumberFormat.ChineseSound | crates/hwp-core/src/viewer/html/document/bodytext/mod.rs:605-606 | the Chinese digit and unit tables can be read back |
| NumberFormat.ReadDigitWords | crates/hwp-core/src/viewer/html/document/bodytext/mod.rs:583-597 | one nonzero place above the units reads back as its digit times its place |
| NumberFormat.NumeralPlaces | crates/hwp-core/src/viewer/html/document/bodytext/mod.rs:568-632 | the intended numeral of 10 to 9999 is spelled place by place from the thousands down |
| NumberFormat.NumeralRoundTrip | crates/hwp-core/src/viewer/html/document/bodytext/mod.rs:568-632 | the intended numeral of every number from 1 to 9999 reads back as the number |
| NumberFormat.NumeralOrder | crates/hwp-core/src/viewer/html/document/bodytext/mod.rs:568-632 | the intended numeral of 23 puts the ten between the two digits |
| NumberFormat.Decoration | crates/hwp-core/src/viewer/html/document/bodytext/mod.rs:486-495 | a decoration code gives one character, none for 0 |
| NumberFormat.AsWrittenAgrees | crates/hwp-core/src/viewer/html/document/bodytext/mod.rs:400-498 | for every shape but the Korean and Chinese numerals the text as written is the intended one |
| NumberFormat.WordsReturn | crates/hwp-core/src/viewer/html/document/bodytext/mod.rs:583-597 | the Chinese loop always returns, and so does the Korean one while the number stays below the bound |
| NumberFormat.WordsPanicHigh | crates/hwp-core/src/viewer/html/document/bodytext/mod.rs:589-591 | past the thousands any nonzero digit indexes past the Korean units |
| NumberFormat.WordsPanic | crates/hwp-core/src/viewer/html/document/bodytext/mod.rs:583-597 | a number at or above the bound of its place reaches that index |
| NumberFormat.NumeralAsWrittenPanics | crates/hwp-core/src/viewer/html/document/bodytext/mod.rs:568-632 | the Korean numeral as written stops exactly from 10000 on; the Chinese one always returns |
| NumberFormat.FormatPanics | crates/hwp-core/src/viewer/html/document/bodytext/mod.rs:400-498 | format_number_by_shape as written stops only for a Korean numeral of 10000 or more, and otherwise returns |
| NumberFormat.Decorated | crates/hwp-core/src/viewer/html/document/bodytext/mod.rs:486-497 | a nonzero decoration puts its character before or after the text, which sits unchanged between them |
| NumberFormat.Undecorated | crates/hwp-core/src/viewer/html/document/bodytext/mod.rs:407-412 | without a footnote shape there is no decoration |
| Numbering.AlignTypeOf | crates/hwp-core/src/document/docinfo/numbering.rs:36-42 | the two low bits give Center for 1, Right for 2 and Left for 0 and 3 |
| Numbering.AlignTypeBits | crates/hwp-core/src/document/docinfo/numbering.rs:36-42 | the writer uses the values 0 to 2 |
| Numbering.NumberingHeaderAttributesOf | crates/hwp-core/src/document/docinfo/numbering.rs:130-139 | the alignment from bits 0-1, instance-like, auto-outdent and the distance type from bits 2, 3 and 4 |
| Numbering.NumberingHeaderAttributesBits | crates/hwp-core/src/document/docinfo/numbering.rs:130-139 | the writer uses only bits 0-4 |
| Numbering.NumberingHeaderAttributesRoundTrip | crates/hwp-core/src/document/docinfo/numbering.rs:130-139 | every attribute value reads back from the bits written for it |
| Numbering.NumberingHeaderAttributesHighBitsIgnored | crates/hwp-core/src/document/docinfo/numbering.rs:130-139 | bits above the fifth change nothing |
| Numbering.FormatAt | crates/hwp-core/src/document/docinfo/numbering.rs:159-179 | without a count the format is (0, "") and nothing is read; a count whose characters do not fit gives (0, "") after the count; one that fits is decoded or an EncodingError |
| Numbering.LevelAt | crates/hwp-core/src/document/docinfo/numbering.rs:120-213 | a level with its twelve fixed bytes fails only when its format does not decode; it never reads past the data, and has a level start number only from version 0x00020500 on |
| Numbering.LevelStartNumbers | crates/hwp-core/src/document/docinfo/numbering.rs:181-202 | the start number is read when two bytes remain after the format, else 0; the level start number when also the version is at least 0x00020500 and four more bytes remain |
| Numbering.Prepend | crates/hwp-core/src/document/docinfo/numbering.rs:212 | putting a level in front keeps success and failure |
| Numbering.LevelsFrom | crates/hwp-core/src/document/docinfo/numbering.rs:118-213 | the level loop keeps at most seven levels and stops early only when fewer than twelve bytes remain |
| Numbering.ExtendedAt | crates/hwp-core/src/document/docinfo/numbering.rs:219-246 | a count whose characters do not fit ends the list after the count; a format that fits is decoded or an EncodingError |
| Numbering.ExtendedFrom | crates/hwp-core/src/document/docinfo/numbering.rs:217-246 | the extended loop keeps at most three formats and never reads past the data |
| Numbering.NumberingOf | crates/hwp-core/src/document/docinfo/numbering.rs:113-252 | never short of data: the only error is an undecodable format; at most seven levels, fewer only when fewer than twelve bytes remain, and at most three extended formats |
| Numbering.ParseFormat | crates/hwp-core/src/document/docinfo/numbering.rs:159-179 | the format read with its running offset computes FormatAt |
| Numbering.ParseLevel | crates/hwp-core/src/document/docinfo/numbering.rs:120-213 | the loop body computes LevelAt |
| Numbering.ParseLevels | crates/hwp-core/src/document/docinfo/numbering.rs:118-213 | the level loop computes LevelsFrom |
| Numbering.ParseExtendedLevel | crates/hwp-core/src/document/docinfo/numbering.rs:219-246 | the extended loop body computes ExtendedAt |
| Numbering.ParseExtendedLevels | crates/hwp-core/src/document/docinfo/numbering.rs:217-246 | the extended loop computes ExtendedFrom |
| Numbering.ParseNumbering | crates/hwp-core/src/document/docinfo/numbering.rs:113-252 | the parse with its running offset and two bounded loops computes NumberingOf |
| Numbering.EncodeLevelHead | crates/hwp-core/src/document/docinfo/numbering.rs:125-157 | the fixed part of a level takes twelve bytes |
| Numbering.LevelHeadLaid | crates/hwp-core/src/document/docinfo/numbering.rs:125-157 | the attribute DWORD, width, distance and character shape id sit where the reader looks |
| Numbering.LevelRoundTrip | crates/hwp-core/src/document/docinfo/numbering.rs:120-213 | a written level, followed by anything, reads back as itself and the reader goes on exactly where its bytes end |
| Numbering.ExtendedRoundTrip | crates/hwp-core/src/document/docinfo/numbering.rs:219-246 | a written extended format, followed by anything, reads back as itself |
| ObjectCommon.VertRelToCode | crates/hwp-core/src/document/bodytext/ctrl_header/object_common.rs:138-143 | each vertical relation has a code below 3 that the decoder maps back to it |
| ObjectCommon.HorzRelToCode | crates/hwp-core/src/document/bodytext/ctrl_header/object_common.rs:150-156 | each horizontal relation has a code below 4 that the decoder maps back to it |
| ObjectCommon.WidthStandardCode | crates/hwp-core/src/document/bodytext/ctrl_header/object_common.rs:162-169 | each width standard has a code below 5 that the decoder maps back to it |
| ObjectCommon.HeightStandardCode | crates/hwp-core/src/document/bodytext/ctrl_header/object_common.rs:171-176 | each height standard has a code below 3 that the decoder maps back to it |
| ObjectCommon.TextOptionCode | crates/hwp-core/src/document/bodytext/ctrl_header/object_common.rs:178-186 | each text-wrap option has a code below 6 that the decoder maps back to it |
| ObjectCommon.TextPositionOptionCode | crates/hwp-core/src/document/bodytext/ctrl_header/object_common.rs:188-194 | each text-position option has a code below 4 that the decoder maps back to it |
| ObjectCommon.CategoryCode | crates/hwp-core/src/document/bodytext/ctrl_header/object_common.rs:196-202 | each object category has a code below 4 that the decoder maps back to it |
| ObjectCommon.BitOf | crates/hwp-core/src/document/bodytext/ctrl_header/object_common.rs:135-136 | a flag is written as one bit |
| ObjectCommon.RelativeBits | crates/hwp-core/src/document/bodytext/ctrl_header/object_common.rs:144 | a relation field is written in three bits |
| ObjectCommon.UnpackAttribute | crates/hwp-core/src/document/bodytext/ctrl_header/object_common.rs:134-222 | fields that fit their widths, packed at bits 0, 2, 3, 5, 8, 10, 13, 14, 15, 18, 20, 21, 24 and 26, are read back by the masks and shifts the decoder uses |
| ObjectCommon.RepackAttribute | crates/hwp-core/src/document/bodytext/ctrl_header/object_common.rs:134-222 | repacking the fields the decoder reads gives the word with only the unused bits 1 and 29-31 cleared |
| ObjectCommon.DecodeFields | crates/hwp-core/src/document/bodytext/ctrl_header/object_common.rs:134-222 | a word whose fields hold the codes of an attribute decodes to that attribute |
| ObjectCommon.RelativeOfCode | crates/hwp-core/src/document/bodytext/ctrl_header/object_common.rs:144 | a relation value below 8 is written unchanged |
| ObjectCommon.ObjectAttributeRoundTrip | crates/hwp-core/src/document/bodytext/ctrl_header/object_common.rs:134-222 | every attribute with three-bit relation fields is decoded back from the word a writer packs |
| ObjectCommon.AttributeCodes | crates/hwp-core/src/document/bodytext/ctrl_header/object_common.rs:138-202 | on a word using only the codes the variants are written with, every decoded field is written back with the code it was read from |
| ObjectCommon.VertRelToCodeOf | crates/hwp-core/src/document/bodytext/ctrl_header/object_common.rs:138-143 | the codes 0 to 2 name three different vertical relations |
| ObjectCommon.HorzRelToCodeOf | crates/hwp-core/src/document/bodytext/ctrl_header/object_common.rs:150-156 | the codes 0 to 3 name four different horizontal relations |
| ObjectCommon.WidthStandardCodeOf | crates/hwp-core/src/document/bodytext/ctrl_header/object_common.rs:162-169 | the codes 0 to 4 name five different width standards |
| ObjectCommon.HeightStandardCodeOf | crates/hwp-core/src/document/bodytext/ctrl_header/object_common.rs:171-176 | the codes 0 to 2 name three different height standards |
| ObjectCommon.TextOptionCodeOf | crates/hwp-core/src/document/bodytext/ctrl_header/object_common.rs:178-186 | the codes 0 to 5 name six different text-wrap options |
| ObjectCommon.TextPositionOptionCodeOf | crates/hwp-core/src/document/bodytext/ctrl_header/object_common.rs:188-194 | the codes 0 to 3 name four different text-position options |
| ObjectCommon.CategoryCodeOf | crates/hwp-core/src/document/bodytext/ctrl_header/object_common.rs:196-202 | the codes 0 to 3 name four different categories |
| ObjectCommon.RelativeCodeOf | crates/hwp-core/src/document/bodytext/ctrl_header/object_common.rs:144 | a three-bit relation field is read back as the same value |
| ObjectCommon.AttributeBitsOfAttribute | crates/hwp-core/src/document/bodytext/ctrl_header/object_common.rs:134-222 | on such a word, decoding and re-encoding loses only the unused bits 1 and 29-31 |
| ObjectCommon.DescriptionOf | crates/hwp-core/src/document/bodytext/ctrl_header/object_common.rs:91-106 | the description is kept exactly when its WORD count is positive, the units fit and they decode to a non-empty string, and it is then that decoded string |
| ObjectCommon.ObjectCommonOf | crates/hwp-core/src/document/bodytext/ctrl_header/object_common.rs:11-132 | an error exactly when fewer than 40 bytes are given, naming the 40 bytes needed; otherwise the caption is unset and the description is the optional block above |
| ObjectCommon.ReadDescription | crates/hwp-core/src/document/bodytext/ctrl_header/object_common.rs:91-106 | the description block read with the running offset is the one defined above |
| ObjectCommon.ParseObjectCommon | crates/hwp-core/src/document/bodytext/ctrl_header/object_common.rs:11-132 | the parse with its running offset agrees with the definition by absolute offsets |
| ObjectCommon.CommonWords | crates/hwp-core/src/document/bodytext/ctrl_header/object_common.rs:22-60 | the writer emits six DWORDs before the margins |
| ObjectCommon.MarginHalves | crates/hwp-core/src/document/bodytext/ctrl_header/object_common.rs:62-69 | the writer emits four WORD margins |
| ObjectCommon.TailWords | crates/hwp-core/src/document/bodytext/ctrl_header/object_common.rs:71-85 | the writer emits the instance id and the page-divide DWORD after the margins |
| ObjectCommon.DescriptionRoundTrip | crates/hwp-core/src/document/bodytext/ctrl_header/object_common.rs:91-106 | a well-formed description, none or a non-empty string, is read back from the bytes after the 40 fixed ones |
| ObjectCommon.ObjectCommonRoundTrip | crates/hwp-core/src/document/bodytext/ctrl_header/object_common.rs:11-132 | every well-formed set of properties is read back from its encoding, margins in the stored bottom, left, right, top order |
| Outline.LevelIndex | crates/hwp-core/src/viewer/core/outline.rs:25 | the index is level minus 1, and 255 for level 0 as the u8 subtraction wraps in a release build |
| Outline.Inc | crates/hwp-core/src/viewer/core/outline.rs:32 | the counter goes up by one, wrapping to 0 after the largest u32 |
| Outline.CountedLevels | crates/hwp-core/src/viewer/core/outline.rs:21-26 | exactly the levels 1 to 7 are counted |
| Outline.OutlineNumberTracker.constructor | crates/hwp-core/src/viewer/core/outline.rs:16-18 | a new tracker holds seven counters at 0 |
| Outline.OutlineNumberTracker.GetAndIncrement | crates/hwp-core/src/viewer/core/outline.rs:21-43 | the counters become those of one use of the level and the number returned is the level's new counter, 0 for an uncounted level |
| Outline.Uncounted | crates/hwp-core/src/viewer/core/outline.rs:22-24 | level 0 or a level from 8 up leaves the counters unchanged and is numbered 0 |
| Outline.RestartAfterShallower | crates/hwp-core/src/viewer/core/outline.rs:29-37 | after any use of a level, the next use of a deeper level is numbered 1 |
| Outline.DeeperKeeps | crates/hwp-core/src/viewer/core/outline.rs:29-37 | a use of a deeper level keeps every shallower counter |
| Outline.Siblings | crates/hwp-core/src/viewer/core/outline.rs:27-38 | k uses of one level from a fresh tracker leave its counter at k and the shallower counters at 0 |
| Outline.SiblingNumbers | crates/hwp-core/src/viewer/core/outline.rs:27-39 | the uses of one level from a fresh tracker are numbered 1, 2, 3 and so on |
| Outline.DecimalLabel | crates/hwp-core/src/viewer/core/outline.rs:54-65 | at the decimal levels the digits between the marks read back as the number and the label ends with the level's closing mark |
| Outline.HangulLabel | crates/hwp-core/src/viewer/core/outline.rs:54-76 | at the Hangul levels a number from 1 on is framed as one syllable of the 14, and numbers 14 apart share a label |
| Outline.IsFormatStringEmptyOrNull | crates/hwp-core/src/viewer/core/outline.rs:86-98 | true exactly for a non-empty string made only of NUL characters, so the empty string is not |
| Outline.AllNulMeans | crates/hwp-core/src/viewer/core/outline.rs:90 | the recursive all-NUL test holds exactly when every character is NUL |
| CtrlOverlap.ByteOr0 | crates/hwp-core/src/document/bodytext/ctrl_header/overlap.rs:32-45 | the byte at the offset, or 0 past the end |
| CtrlOverlap.CharShapeIdsOf | crates/hwp-core/src/document/bodytext/ctrl_header/overlap.rs:47-54 | either no ids or all of the counted ones, the latter only when they fit; id k is the DWORD at the start plus 4k |
| CtrlOverlap.OverlapOf | crates/hwp-core/src/document/bodytext/ctrl_header/overlap.rs:8-64 | an error exactly when fewer than 10 bytes are given; otherwise the control id is the first four bytes reversed, a text is present only when its counted units fit, the border type and spread are the bytes after the text or 0 past the end, and the ids are none or as many as the count byte says |
| CtrlOverlap.ParseOverlap | crates/hwp-core/src/document/bodytext/ctrl_header/overlap.rs:8-64 | the parse with its running offset agrees with the definition by absolute offsets |
| CtrlOverlap.ReadCharShapeIds | crates/hwp-core/src/document/bodytext/ctrl_header/overlap.rs:47-54 | the id loop pushes exactly the ids defined above |
| CtrlOverlap.SettingsBytes | crates/hwp-core/src/document/bodytext/ctrl_header/overlap.rs:32-45 | the writer emits four settings bytes |
| CtrlOverlap.SettingsRead | crates/hwp-core/src/document/bodytext/ctrl_header/overlap.rs:32-45 | the settings bytes of an overlap are read back as its border type, text size, spread and id count |
| CtrlOverlap.SettingsAndIds | crates/hwp-core/src/document/bodytext/ctrl_header/overlap.rs:32-54 | the settings and the ids after the text are read back |
| CtrlOverlap.OverlapFields | crates/hwp-core/src/document/bodytext/ctrl_header/overlap.rs:8-64 | bytes whose fields read as those of an overlap decode to that overlap |
| CtrlOverlap.OverlapRoundTrip | crates/hwp-core/src/document/bodytext/ctrl_header/overlap.rs:8-64 | every well-formed overlap is read back from its encoding |
| PageBorderFill.PageBorderFillAttributesOf | crates/hwp-core/src/document/bodytext/page_border_fill.rs:119-152 | position reference Paper exactly when bit 0 is set, header and footer inclusion from bits 1 and 2, and fill area Paper for the two-bit field at bit 3 being 0 or the unused 3 |
| PageBorderFill.PageBorderFillAttributesBits | crates/hwp-core/src/document/bodytext/page_border_fill.rs:119-152 | the writer uses only bits 0-4 |
| PageBorderFill.PageBorderFillAttributesRoundTrip | crates/hwp-core/src/document/bodytext/page_border_fill.rs:119-152 | every attribute set is decoded back from the word a writer packs |
| PageBorderFill.PageBorderFillAttributesLowBits | crates/hwp-core/src/document/bodytext/page_border_fill.rs:119-152 | bits above bit 4 do not change the attributes |
| PageBorderFill.PageBorderFillOf | crates/hwp-core/src/document/bodytext/page_border_fill.rs:68-115 | with the guard corrected to the fourteen bytes read: an error exactly when fewer are given; otherwise the attributes of the first DWORD and the border-fill id of the last WORD |
| PageBorderFill.PageBorderFillPastEnd | crates/hwp-core/src/document/bodytext/page_border_fill.rs:69-105 | twelve bytes pass the guard as written and the read of the id runs past the end, where the corrected parse reports the fourteen bytes needed |
| PageBorderFill.PageBorderFillAgree | crates/hwp-core/src/document/bodytext/page_border_fill.rs:68-115 | wherever the code as written returns a value the corrected parse returns the same one |
| PageBorderFill.ParsePageBorderFill | crates/hwp-core/src/document/bodytext/page_border_fill.rs:68-115 | the parse with its running offset agrees with the corrected definition |
| PageBorderFill.EncodePageBorderFill | crates/hwp-core/src/document/bodytext/page_border_fill.rs:68-115 | a record is written in fourteen bytes |
| PageBorderFill.PageBorderFillRoundTrip | crates/hwp-core/src/document/bodytext/page_border_fill.rs:68-115 | every page border and fill is read back from its encoding |
| PageDef.PageDefAttributesOf | crates/hwp-core/src/document/bodytext/page_def.rs:187-212 | Horizontal exactly when bit 0 is set; FacingPages and FlipUp exactly for the codes 1 and 2 of bits 1-2 |
| PageDef.PageDefAttributesBits | crates/hwp-core/src/document/bodytext/page_def.rs:187-212 | the writer uses only bits 0-2 |
| PageDef.PageDefAttributesRoundTrip | crates/hwp-core/src/document/bodytext/page_def.rs:187-212 | every attribute set is decoded back from the word a writer packs |
| PageDef.PageDefAttributesLowBits | crates/hwp-core/src/document/bodytext/page_def.rs:187-212 | bits above bit 2 do not change the attributes |
| PageDef.PageDefOf | crates/hwp-core/src/document/bodytext/page_def.rs:72-184 | an error exactly when fewer than 40 bytes are given, naming the 40 needed; otherwise the attributes come from the tenth DWORD |
| PageDef.ParsePageDef | crates/hwp-core/src/document/bodytext/page_def.rs:72-184 | the parse with its running offset agrees with the definition by absolute offsets |
| PageDef.PageDefRoundTrip | crates/hwp-core/src/document/bodytext/page_def.rs:72-184 | every page definition is read back with its nine sizes in order, whatever follows it |
| ParaCharShape.CharShapeInfoOf | crates/hwp-core/src/document/bodytext/char_shape.rs:26-38 | an error exactly when fewer than 8 bytes are given, naming the 8 needed |
| ParaCharShape.ParaCharShapeOf | crates/hwp-core/src/document/bodytext/char_shape.rs:56-76 | an error exactly when the length is not a multiple of 8; otherwise one pair per 8 bytes |
| ParaCharShape.ParseParaCharShape | crates/hwp-core/src/document/bodytext/char_shape.rs:56-76 | the loop over 8-byte slices gives the pairs defined above |
| ParaCharShape.EncodeCharShapeInfo | crates/hwp-core/src/document/bodytext/char_shape.rs:26-38 | a pair is written in 8 bytes |
| ParaCharShape.CharShapeInfoOfEncode | crates/hwp-core/src/document/bodytext/char_shape.rs:26-38 | every position and shape id is read back from its 8 bytes |
| ParaCharShape.ParaCharShapeRoundTrip | crates/hwp-core/src/document/bodytext/char_shape.rs:56-76 | every list of runs is read back in order from its encoding |
| RangeTag.RangeTagInfoOf | crates/hwp-core/src/document/bodytext/range_tag.rs:30-53 | an error exactly when fewer than 12 bytes are given; the tag data keeps only the low 24 bits |
| RangeTag.TagSplitJoin | crates/hwp-core/src/document/bodytext/range_tag.rs:30-53 | the tag kind in the top 8 bits and the data in the low 24 put together give the tag DWORD back |
| RangeTag.ParaRangeTagOf | crates/hwp-core/src/document/bodytext/range_tag.rs:71-91 | an error exactly when the length is not a multiple of 12; otherwise one entry per 12 bytes |
| RangeTag.ParseParaRangeTag | crates/hwp-core/src/document/bodytext/range_tag.rs:71-91 | the loop over 12-byte slices gives the entries defined above |
| RangeTag.EncodeRangeTagInfo | crates/hwp-core/src/document/bodytext/range_tag.rs:30-53 | an entry is written in 12 bytes |
| RangeTag.RangeTagInfoOfEncode | crates/hwp-core/src/document/bodytext/range_tag.rs:30-53 | every entry whose data fits 24 bits is read back from its encoding |
| RangeTag.ParaRangeTagRoundTrip | crates/hwp-core/src/document/bodytext/range_tag.rs:71-91 | every list of such entries is read back in order from its encoding |
| ParaShape.LineSpacingTypeOldOf | crates/hwp-core/src/document/docinfo/para_shape.rs:61-68 | Fixed exactly for code 1 and MarginOnly exactly for code 2, every other code giving ByCharacter |
| ParaShape.LineSpacingTypeOldCode | crates/hwp-core/src/document/docinfo/para_shape.rs:61-68 | each old line spacing type has a code below 3 that decodes back to it |
| ParaShape.ParagraphAlignmentOf | crates/hwp-core/src/document/docinfo/para_shape.rs:90-99 | Left, Right, Center, Distribute and Divide exactly for the codes 1 to 5, Justify for 0 and every code above 5 |
| ParaShape.ParagraphAlignmentCode | crates/hwp-core/src/document/docinfo/para_shape.rs:90-99 | each alignment has a code below 6 that decodes back to it |
| ParaShape.LineDivideUnitOf | crates/hwp-core/src/document/docinfo/para_shape.rs:115-121 | Hyphen exactly for code 1 and Character exactly for code 2, every other code giving Word |
| ParaShape.LineDivideUnitCode | crates/hwp-core/src/document/docinfo/para_shape.rs:115-121 | each break unit has a code below 3 that decodes back to it |
| ParaShape.LineDivideKoOf | crates/hwp-core/src/document/docinfo/para_shape.rs:123-129 | the Korean break unit is never Hyphen and is Character exactly when the bit is set |
| ParaShape.VerticalAlignmentOf | crates/hwp-core/src/document/docinfo/para_shape.rs:147-154 | Top, Center and Bottom exactly for the codes 1 to 3, Baseline for 0 |
| ParaShape.VerticalAlignmentCode | crates/hwp-core/src/document/docinfo/para_shape.rs:147-154 | each vertical alignment has a code below 4 that decodes back to it |
| ParaShape.HeaderShapeTypeOf | crates/hwp-core/src/document/docinfo/para_shape.rs:172-179 | Outline, Number and Bullet exactly for the codes 1 to 3, None for 0 |
| ParaShape.HeaderShapeTypeCode | crates/hwp-core/src/document/docinfo/para_shape.rs:172-179 | each header shape type has a code below 4 that decodes back to it |
| ParaShape.LineSpacingTypeOf | crates/hwp-core/src/document/docinfo/para_shape.rs:208-215 | Fixed, MarginOnly and Minimum exactly for the codes 1 to 3, ByCharacter for every other code |
| ParaShape.LineSpacingTypeCode | crates/hwp-core/src/document/docinfo/para_shape.rs:208-215 | each line spacing type has a code below 4 that decodes back to it |
| ParaShape.ParaShapeAttributes1Of | crates/hwp-core/src/document/docinfo/para_shape.rs:291-309 | the alignment is read from bits 2-4, the minimum blank from bits 9-15 and the paragraph level from bits 25-27 |
| ParaShape.ParaShapeAttributes2Of | crates/hwp-core/src/document/docinfo/para_shape.rs:415-419 | the single-line input is the two low bits |
| ParaShape.Attributes1RoundTrip | crates/hwp-core/src/document/docinfo/para_shape.rs:291-309 | every first attribute set a writer can produce, with a Korean break unit that fits its bit, reads back as itself |
| ParaShape.Attributes2RoundTrip | crates/hwp-core/src/document/docinfo/para_shape.rs:404-420 | every second attribute set with a two-bit single-line input reads back as itself |
| ParaShape.Attributes3RoundTrip | crates/hwp-core/src/document/docinfo/para_shape.rs:422-436 | every line spacing type reads back from the third attribute word |
| ParaShape.TrailingFields | crates/hwp-core/src/document/docinfo/para_shape.rs:404-450 | the second attributes are present exactly from version 0x00010107 with 50 bytes, the third attributes and the line spacing exactly from version 0x00020500 with 54 and 58 bytes, each read at its offset |
| ParaShape.ParaShapeOf | crates/hwp-core/src/document/docinfo/para_shape.rs:275-471 | an error exactly when fewer than 46 bytes are given; otherwise the fixed fields are read at their offsets and the trailing fields as above |
| ParaShape.ParseParaShape | crates/hwp-core/src/document/docinfo/para_shape.rs:275-471 | the parse with its running offset agrees with the definition by absolute offsets |
| ParaShape.MarginWords | crates/hwp-core/src/document/docinfo/para_shape.rs:311-373 | the writer emits seven margin and spacing DWORDs |
| ParaShape.IdHalves | crates/hwp-core/src/document/docinfo/para_shape.rs:374-402 | the writer emits three ids and four border spacings as seven WORDs |
| ParaShape.TrailingRoundTrip | crates/hwp-core/src/document/docinfo/para_shape.rs:404-450 | the trailing fields a writer puts for a version are read back under that version |
| ParaShape.FixedRead | crates/hwp-core/src/document/docinfo/para_shape.rs:275-402 | the fifteen fixed fields are read back from the 46 bytes a writer puts |
| ParaShape.ParaShapeRoundTrip | crates/hwp-core/src/document/docinfo/para_shape.rs:275-471 | every record a writer for a version produces reads back as itself under that version |
| Script.SaturatingAdd | crates/hwp-core/src/document/scripts/script.rs:80 | the exact sum, or the largest 64-bit usize when the sum does not fit |
| Script.SaturatingMul | crates/hwp-core/src/document/scripts/script.rs:70 | the exact product, or the largest 64-bit usize when the product does not fit |
| Script.SaturatingSub | crates/hwp-core/src/document/scripts/script.rs:87 | the exact difference, or 0 when it would be negative |
| Script.WcharsAt | crates/hwp-core/src/document/scripts/script.rs:66-78 | empty when the counted units run past the end or do not decode, otherwise the decoded string |
| Script.DecodeEmpty | crates/hwp-core/src/document/scripts/script.rs:66-78 | a zero count gives the empty string |
| Script.After | crates/hwp-core/src/document/scripts/script.rs:80 | the offset after a counted string is at most the length DWORD plus twice the count, and exactly that on any stream an isize can index |
| Script.ScriptOf | crates/hwp-core/src/document/scripts/script.rs:51-196 | fewer than 20 bytes, or a missing source length DWORD, is the matching error with the bytes left; on success the four strings are read from where each previous one ends; every error is a shortage |
| Script.ScriptErrors | crates/hwp-core/src/document/scripts/script.rs:112-150 | a missing pre-source or post-source length DWORD gives its own error with the bytes left, checked in that order |
| Script.ReadWchars | crates/hwp-core/src/document/scripts/script.rs:60-80 | one counted string read with the running offset is the one defined above, and the offset moves past it |
| Script.ParseScript | crates/hwp-core/src/document/scripts/script.rs:51-196 | the parse with its running offset agrees with the definition |
| Script.EncodeCounted | crates/hwp-core/src/document/scripts/script.rs:60-80 | a string is written as its length DWORD and two bytes per unit |
| Script.EncodeScript | crates/hwp-core/src/document/scripts/script.rs:51-196 | a script is written in at least 20 bytes |
| Script.CountedRead | crates/hwp-core/src/document/scripts/script.rs:60-80 | a counted string reads back and the next field starts right after it |
| Script.ScriptFields | crates/hwp-core/src/document/scripts/script.rs:51-196 | once all four length DWORDs fit, the result is the four strings at their offsets |
| Script.ScriptRoundTrip | crates/hwp-core/src/document/scripts/script.rs:51-196 | a script is read back from what the writer puts, whatever follows it |
| ShapeContainer.ContainerOf | crates/hwp-core/src/document/bodytext/shape_component_container.rs:50-92 | fewer than 2 bytes, or fewer than the count's DWORDs, is the matching error naming the bytes needed; otherwise the count and exactly that many control ids, id k at offset 2 + 4k |
| ShapeContainer.ParseContainer | crates/hwp-core/src/document/bodytext/shape_component_container.rs:50-92 | the loop with its running offset gives the container defined above |
| ShapeContainer.EmptyContainer | crates/hwp-core/src/document/bodytext/shape_component_container.rs:50-92 | a zero object count gives an empty list whatever follows |
| ShapeContainer.EncodeContainer | crates/hwp-core/src/document/bodytext/shape_component_container.rs:50-92 | a container is written in 2 bytes plus 4 per object |
| ShapeContainer.ContainerRoundTrip | crates/hwp-core/src/document/bodytext/shape_component_container.rs:50-92 | a well-formed container, followed by anything, is read back as itself |
| ShapeCurve.CurveOf | crates/hwp-core/src/document/bodytext/shape_component/curve.rs:55-132 | fewer than 2 bytes, a point count not above 0, or fewer than 2 + 8n + n - 1 bytes is the matching error; otherwise n x coordinates, then n y coordinates, then n - 1 segment-type bytes at their offsets |
| ShapeCurve.CurvePointsAsPolygon | crates/hwp-core/src/document/bodytext/shape_component/curve.rs:93-117 | a curve's points are read exactly as a polygon's from the same bytes |
| ShapeCurve.ParseCurve | crates/hwp-core/src/document/bodytext/shape_component/curve.rs:55-132 | the three loops with the running offset give the curve defined above |
| ShapeCurve.CurveRoundTrip | crates/hwp-core/src/document/bodytext/shape_component/curve.rs:55-132 | a well-formed curve, followed by anything, is read back as itself |
| ShapePolygon.PolygonOf | crates/hwp-core/src/document/bodytext/shape_component_polygon.rs:52-117 | fewer than 2 bytes, a point count not above 0, or fewer than 2 + 8n bytes is the matching error; otherwise all n x coordinates, then all n y coordinates, at their offsets |
| ShapePolygon.ReadInt32s | crates/hwp-core/src/document/bodytext/shape_component_polygon.rs:88-110 | one coordinate loop reads the n INT32s from its offset |
| ShapePolygon.ParsePolygon | crates/hwp-core/src/document/bodytext/shape_component_polygon.rs:52-117 | the two loops with the running offset give the polygon defined above |
| ShapePolygon.EncodePolygon | crates/hwp-core/src/document/bodytext/shape_component_polygon.rs:52-117 | a polygon is written in 2 bytes plus 4 per coordinate |
| ShapePolygon.PolygonCoordinates | crates/hwp-core/src/document/bodytext/shape_component_polygon.rs:88-110 | point k of an encoding is read back at offsets 2 + 4k and 2 + 4n + 4k |
| ShapePolygon.PolygonCount | crates/hwp-core/src/document/bodytext/shape_component_polygon.rs:60-61 | the point count is read back from the front of an encoding, and the coordinates fit behind it |
| ShapePolygon.PolygonRoundTrip | crates/hwp-core/src/document/bodytext/shape_component_polygon.rs:52-117 | a well-formed polygon, followed by anything, is read back as itself |
| Signals.Register | packages/hwpjs/ios/include/CrabySignals.h:31-34 | the id is registered with the given delegate and every other id keeps its delegate |
| Signals.Unregister | packages/hwpjs/ios/include/CrabySignals.h:36-39 | the id is no longer registered and every other id keeps its delegate |
| Signals.Target | packages/hwpjs/ios/include/CrabySignals.h:25-26 | a delegate is found exactly when the id is registered, and it is that id's delegate |
| Signals.EmitCalls | packages/hwpjs/ios/include/CrabySignals.h:23-29 | an emit calls the id's delegate once with the signal name when the id is registered, and nothing otherwise |
| Signals.SignalManager.constructor | packages/hwpjs/ios/include/CrabySignals.h:42-44 | a new manager holds no delegate and has called none |
| Signals.SignalManager.Emit | packages/hwpjs/ios/include/CrabySignals.h:23-29 | the map is unchanged and the calls made are those defined above |
| Signals.SignalManager.RegisterDelegate | packages/hwpjs/ios/include/CrabySignals.h:31-34 | the map becomes the insert-or-assign of the delegate and no delegate is called |
| Signals.SignalManager.UnregisterDelegate | packages/hwpjs/ios/include/CrabySignals.h:36-39 | the map becomes the erase of the id and no delegate is called |
| Signals.RegisterReplaces | packages/hwpjs/ios/include/CrabySignals.h:31-34 | a second registration of an id replaces the first: the next emit calls the new delegate and the earlier one is forgotten |
| Signals.UnregisterSilences | packages/hwpjs/ios/include/CrabySignals.h:36-39 | after unregistering an emit calls nothing; erasing an absent id changes nothing; registering then unregistering an id leaves it as unregistering alone would |
| Signals.OtherIdsKeep | packages/hwpjs/ios/include/CrabySignals.h:23-39 | registering or unregistering one id never changes what an emit does for another id |
| Signals.EmitTwice | packages/hwpjs/ios/include/CrabySignals.h:23-29 | emitting does not change the registry, so two emits call the same delegate twice |
| Style.StyleTypeOf | crates/hwp-core/src/document/docinfo/style.rs:21-26 | a character style exactly when bits 0-2 equal 1, a paragraph style otherwise |
| Style.StyleTailAt | crates/hwp-core/src/document/docinfo/style.rs:108-183 | each of the five fixed fields that does not fit gives its own error with the bytes left, in order; otherwise the type, next style id and language id at their offsets, and only the shape id that matches the style type |
| Style.StyleOf | crates/hwp-core/src/document/docinfo/style.rs:56-183 | fewer than 12 bytes is an error; on success both names are the decoded counted strings at their offsets, and the paragraph shape id is kept exactly for a paragraph style and the character shape id exactly for a character style |
| Style.ParseStyle | crates/hwp-core/src/document/docinfo/style.rs:56-183 | the parse with its running offset agrees with the definition |
| Style.StyleTypeByte | crates/hwp-core/src/document/docinfo/style.rs:21-26 | each style type has an attribute byte that decodes back to it |
| Style.EncodeStyleTail | crates/hwp-core/src/document/docinfo/style.rs:108-170 | the fixed fields are written in 8 bytes |
| Style.EncodeStyle | crates/hwp-core/src/document/docinfo/style.rs:56-183 | a style is written in at least 12 bytes |
| Style.StyleTailRead | crates/hwp-core/src/document/docinfo/style.rs:108-183 | the fixed fields of a well-formed style are read back from where the writer puts them |
| Style.StyleFields | crates/hwp-core/src/document/docinfo/style.rs:56-183 | once both names are read, the result is the fixed fields after them |
| Style.EnglishNameRead | crates/hwp-core/src/document/docinfo/style.rs:82-183 | the English name and the fixed fields read back once the local name has been read |
| Style.StyleRoundTrip | crates/hwp-core/src/document/docinfo/style.rs:56-183 | every well-formed style is read back from its encoding, whatever follows it |
| TabDef.TabTypeOf | crates/hwp-core/src/document/docinfo/tab_def.rs:26-33 | Right, Center and Decimal exactly for the bytes 1 to 3, Left for 0 and every byte above 3 |
| TabDef.TabTypeByte | crates/hwp-core/src/document/docinfo/tab_def.rs:26-33 | each tab type has a byte that decodes back to it |
| TabDef.TabDefAttributesOf | crates/hwp-core/src/document/docinfo/tab_def.rs:91-94 | the left and right auto-tab flags are bits 0 and 1 |
| TabDef.TabDefAttributesBits | crates/hwp-core/src/document/docinfo/tab_def.rs:91-94 | the writer uses only bits 0 and 1 |
| TabDef.TabDefAttributesRoundTrip | crates/hwp-core/src/document/docinfo/tab_def.rs:91-94 | both flags are read back from the word a writer packs |
| TabDef.ItemCount | crates/hwp-core/src/document/docinfo/tab_def.rs:103 | the loop over a signed count visits no item for a count not above 0 and count items otherwise |
| TabDef.TabsAt | crates/hwp-core/src/document/docinfo/tab_def.rs:103-136 | n items, item k read at start plus 8k |
| TabDef.TabDefOf | crates/hwp-core/src/document/docinfo/tab_def.rs:75-144 | fewer than 6 bytes is an error; otherwise success exactly when all the counted items fit, the error naming the offset of the first item that does not; on success the attributes, the count and the items at their offsets |
| TabDef.ParseTabDef | crates/hwp-core/src/document/docinfo/tab_def.rs:75-144 | the item loop with its running offset agrees with the definition |
| TabDef.EncodeTabItem | crates/hwp-core/src/document/docinfo/tab_def.rs:113-132 | an item is written in 8 bytes, its reserved WORD as zero |
| TabDef.EncodeTabs | crates/hwp-core/src/document/docinfo/tab_def.rs:103-136 | the items take 8 bytes each |
| TabDef.TabItemRead | crates/hwp-core/src/document/docinfo/tab_def.rs:113-132 | an item is read back from its 8 bytes |
| TabDef.TabAfter | crates/hwp-core/src/document/docinfo/tab_def.rs:103-136 | item k of an encoded run is read back at its offset |
| TabDef.TabDefRoundTrip | crates/hwp-core/src/document/docinfo/tab_def.rs:75-144 | every well-formed definition, followed by anything, reads back as itself |
| SummaryInformation.VtI2Of | crates/hwp-core/src/document/summary_information.rs:525-552 | an error exactly when fewer than six bytes remain or the type DWORD is not VT_I2 (too short names VT_I2 with six needed); otherwise the WORD after the type read as a signed 16-bit value |
| SummaryInformation.VtI4Of | crates/hwp-core/src/document/summary_information.rs:796-823 | an error exactly when fewer than eight bytes remain or the type DWORD is not VT_I4; otherwise the DWORD after the type as a signed 32-bit value |
| SummaryInformation.VtFileTimeOf | crates/hwp-core/src/document/summary_information.rs:619-651 | an error exactly when fewer than twelve bytes remain or the type is not VT_FILETIME; otherwise the low and high DWORDs in the stream's byte order |
| SummaryInformation.UnitsText | crates/hwp-core/src/document/summary_information.rs:703-713 | the text decoded from 16-bit units never holds a NUL or a surrogate code point |
| SummaryInformation.DecodeUnits | crates/hwp-core/src/document/summary_information.rs:703-713 | the step-by-two loop over the units gives the decoded text |
| SummaryInformation.CutAtNul | crates/hwp-core/src/document/summary_information.rs:783-791 | the result is the prefix before the first NUL, holds no NUL, and is followed by a NUL whenever it is shorter than the input |
| SummaryInformation.CutAtNulOfTerminated | crates/hwp-core/src/document/summary_information.rs:783-791 | a NUL-free text followed by a NUL and anything is cut back to that text; a NUL-free text is kept whole |
| SummaryInformation.DecodeByCodepage | crates/hwp-core/src/document/summary_information.rs:720-792 | empty bytes give the empty string; the only error is UTF-8 bytes that do not decode; a decoded text holds no NUL; codepages 1200 and 1201 decode little- and big-endian units |
| SummaryInformation.DecodeStringByCodepage | crates/hwp-core/src/document/summary_information.rs:720-792 | the decoder with its unit loops agrees with the definition |
| SummaryInformation.VtLpwstrOf | crates/hwp-core/src/document/summary_information.rs:656-716 | fewer than eight bytes and a wrong type give their errors; on success the text is the count's little-endian units up to the first NUL, whatever the stream's byte order; a count too large for the data is an error naming the bytes needed |
| SummaryInformation.ParseVtLpwstr | crates/hwp-core/src/document/summary_information.rs:656-716 | the parse agrees with the definition |
| SummaryInformation.VtLpstrOf | crates/hwp-core/src/document/summary_information.rs:557-615 | fewer than eight bytes is an error; a VT_LPWSTR type is decoded as VT_LPWSTR; any type other than the two string types is an error; a VT_LPSTR is its counted bytes decoded in the codepage, or an error when they do not fit |
| SummaryInformation.ParseVtLpstr | crates/hwp-core/src/document/summary_information.rs:557-615 | the parse agrees with the definition |
| SummaryInformation.AsOption | crates/hwp-core/src/document/summary_information.rs:448-451 | a present value exactly for a successful parse, and that value |
| SummaryInformation.FieldsDetermine | crates/hwp-core/src/document/summary_information.rs:21-51 | two structures whose fields agree for every text and count property id are equal |
| SummaryInformation.SetTextFields | crates/hwp-core/src/document/summary_information.rs:447-518 | storing a text property changes the field of that id and no other field |
| SummaryInformation.SetCountFields | crates/hwp-core/src/document/summary_information.rs:501-518 | storing a count property changes the field of that id and no other field |
| SummaryInformation.StoreValueFields | crates/hwp-core/src/document/summary_information.rs:447-518 | a known text id takes its date or string value, a count id its VT_I4, and every other field and every unknown id leave the structure unchanged |
| SummaryInformation.ValueStep | crates/hwp-core/src/document/summary_information.rs:438-444 | only a codepage entry can change the codepage |
| SummaryInformation.EntryStep | crates/hwp-core/src/document/summary_information.rs:433-436 | an entry whose value offset lies past the end changes nothing; only a codepage entry changes the codepage |
| SummaryInformation.EntryStepAt | crates/hwp-core/src/document/summary_information.rs:396-519 | an entry with its offset out of range is skipped; otherwise it is the step on the bytes from its value offset |
| SummaryInformation.StepKeeps | crates/hwp-core/src/document/summary_information.rs:396-519 | an entry that does not write a field leaves that field as it was |
| SummaryInformation.StepWrites | crates/hwp-core/src/document/summary_information.rs:447-518 | an entry that writes a field stores the value decoded at its offset, in the codepage then in force |
| SummaryInformation.FoldUntouched | crates/hwp-core/src/document/summary_information.rs:396-519 | a run of steps that each keep a field keeps it over the run |
| SummaryInformation.Untouched | crates/hwp-core/src/document/summary_information.rs:396-519 | a field no later entry writes keeps the value it had |
| SummaryInformation.LastWriterWins | crates/hwp-core/src/document/summary_information.rs:396-519 | each field is decoded from the last in-range entry with its id, in the codepage in force when that entry was reached |
| SummaryInformation.NeverWritten | crates/hwp-core/src/document/summary_information.rs:396-519 | a field no entry writes stays absent |
| SummaryInformation.SummaryOf | crates/hwp-core/src/document/summary_information.rs:187-521 | an empty stream gives the default; a short header and a bad byte-order mark give their errors; a non-default result needs at least 48 bytes, a valid mark and a non-zero set count |
| SummaryInformation.SummaryErrors | crates/hwp-core/src/document/summary_information.rs:252-343 | a zero set count gives the default; then a short descriptor, a set offset past the end and a short set header each give their own error, in that order |
| SummaryInformation.SummaryOfEntries | crates/hwp-core/src/document/summary_information.rs:364-521 | past the header checks, an entry table that does not fit is an error; otherwise the result is the state after all entries |
| SummaryInformation.ApplyEntry | crates/hwp-core/src/document/summary_information.rs:396-519 | one turn of the loop agrees with the step function |
| SummaryInformation.ApplyValue | crates/hwp-core/src/document/summary_information.rs:438-518 | the codepage arm or the field arms agree with the step on the value bytes |
| SummaryInformation.StoreEntry | crates/hwp-core/src/document/summary_information.rs:447-518 | the match over property ids agrees with the store function |
| SummaryInformation.ReadTextValue | crates/hwp-core/src/document/summary_information.rs:448-509 | a text id's value is read as a date or a string, as the definition says |
| SummaryInformation.ParseSummaryInformation | crates/hwp-core/src/document/summary_information.rs:187-521 | the parse agrees with the definition |
| SummaryInformation.ApplyEntries | crates/hwp-core/src/document/summary_information.rs:396-519 | the entry loop yields the state after all entries |
| SummaryInformation.VtI2RoundTrip | crates/hwp-core/src/document/summary_information.rs:525-552 | a written VT_I2 reads back as the same value in either byte order, whatever follows |
| SummaryInformation.VtI4RoundTrip | crates/hwp-core/src/document/summary_information.rs:796-823 | a written VT_I4 reads back as the same value in either byte order |
| SummaryInformation.VtFileTimeRoundTrip | crates/hwp-core/src/document/summary_information.rs:619-651 | a written VT_FILETIME reads back as the same time in either byte order |
| SummaryInformation.UnitsRead | crates/hwp-core/src/document/summary_information.rs:703-713 | the units of a text, followed by a stop, decode back to that text |
| SummaryInformation.LpwstrFields | crates/hwp-core/src/document/summary_information.rs:656-716 | a VT_LPWSTR with a non-zero count decodes its units up to the first NUL |
| SummaryInformation.VtLpwstrRoundTrip | crates/hwp-core/src/document/summary_information.rs:656-716 | a NUL-terminated VT_LPWSTR written little-endian reads back as the text, whatever the stream's byte order |
| SummaryInformation.LpstrFields | crates/hwp-core/src/document/summary_information.rs:557-615 | a VT_LPSTR in codepage 1200 decodes its counted bytes as little-endian units |
| SummaryInformation.VtLpstrUtf16RoundTrip | crates/hwp-core/src/document/summary_information.rs:720-768 | a text written as a VT_LPSTR in codepage 1200 reads back as that text |
| Table.TableAttributeOf | crates/hwp-core/src/document/bodytext/table.rs:301-317 | bits 0-1 equal to 1 give break-by-cell and equal to 2 give the other no-break mode, every other value no break; bit 2 is the header-row repeat flag |
| Table.TableAttributeRoundTrip | crates/hwp-core/src/document/bodytext/table.rs:301-317 | every table attribute is decoded back from its bits |
| Table.TableAttributeLowBits | crates/hwp-core/src/document/bodytext/table.rs:301-317 | only bits 0-2 of the attribute word matter |
| Table.RowSizesAt | crates/hwp-core/src/document/bodytext/table.rs:223-230 | n row sizes, each the signed WORD at its place after the fixed fields |
| Table.RowsRead | crates/hwp-core/src/document/bodytext/table.rs:223-230 | the row loop reads as many sizes as are announced or stops at the first one that no longer fits |
| Table.ZonesOf | crates/hwp-core/src/document/bodytext/table.rs:244-273 | an error exactly when the announced zones do not fit, naming the bytes left at the first zone that does not fit; otherwise every zone at its place |
| Table.TableAttributesOf | crates/hwp-core/src/document/bodytext/table.rs:170-298 | fewer than 22 bytes is an error; on success the row and column counts are the WORDs at 4 and 6, every row size is present and read at its place, the border-fill id follows the row sizes, and the zone list is empty before version 5010 and has the zone size divided by ten entries from then on |
| Table.TableOf | crates/hwp-core/src/document/bodytext/table.rs:137-167 | empty data is an error; on success the cell list is empty and the attributes are those parsed |
| Table.TableBorderFillPastEnd | crates/hwp-core/src/document/bodytext/table.rs:239-241 | 22 bytes announcing two rows make the code as written read the border-fill id past the end, where the corrected parser reports insufficient data |
| Table.TableAttributesAgree | crates/hwp-core/src/document/bodytext/table.rs:170-298 | wherever the code as written returns, the corrected parser returns the same result |
| Table.TableAttributesRoundTrip | crates/hwp-core/src/document/bodytext/table.rs:170-298 | every well-formed table record is read back by the corrected parser |
| Table.ReadRowSizes | crates/hwp-core/src/document/bodytext/table.rs:223-237 | the row loop ends at the offset after the sizes it read; a full read is the row sizes at their places, and a short one fewer sizes than announced |
| Table.ReadZones | crates/hwp-core/src/document/bodytext/table.rs:244-273 | the zone loop agrees with the definition |
| Table.ParseTableAttributes | crates/hwp-core/src/document/bodytext/table.rs:170-298 | the parse with its running offset agrees with the corrected definition |
| Table.ParseTable | crates/hwp-core/src/document/bodytext/table.rs:137-167 | the parse agrees with the definition |
| VideoData.VideoDataOf | crates/hwp-core/src/document/bodytext/video_data.rs:70-154 | short data, a short local video, a short web video, an empty web tag and an unknown video type each give their own error; a local video is its two BinData ids; a web video's tag is the UTF-16 text up to two bytes before the end and its thumbnail id the last WORD; the type is kept and selects the variant |
| VideoData.SaturatingSub | crates/hwp-core/src/document/bodytext/video_data.rs:120 | the difference when it is not negative, else zero |
| VideoData.ParseVideoData | crates/hwp-core/src/document/bodytext/video_data.rs:70-154 | the parse with its running offset agrees with the definition |
| VideoData.LocalVideoRoundTrip | crates/hwp-core/src/document/bodytext/video_data.rs:89-106 | a written local video is read back, whatever follows it |
| VideoData.WebVideoRoundTrip | crates/hwp-core/src/document/bodytext/video_data.rs:107-140 | a written web video is read back when nothing follows it |
| TableCaption.AutoNumberPosition | crates/hwp-core/src/viewer/html/ctrl_header/table/process.rs:30-33 | absent exactly when no control is an AUTO_NUMBER; otherwise the position of the first AUTO_NUMBER control |
| TableCaption.NumberEnd | crates/hwp-core/src/viewer/html/ctrl_header/table/process.rs:72-76 | the length of the leading run of ASCII digits and whitespace: every character before it is in the run and the one at it is not |
| TableCaption.AutoNumberSplit | crates/hwp-core/src/viewer/html/ctrl_header/table/process.rs:35-62 | with an AUTO_NUMBER the label is never empty, being the trimmed text before the control or the word for table, the body is the trimmed text after the control, and the number is the display text, else the table number, else empty |
| TableCaption.AutoNumberRoundTrip | crates/hwp-core/src/viewer/html/ctrl_header/table/process.rs:35-62 | a trimmed non-empty label and a trimmed body around the AUTO_NUMBER's placeholder come back unchanged, with the display text as the number |
| TableCaption.LabelledRoundTrip | crates/hwp-core/src/viewer/html/ctrl_header/table/process.rs:63-96 | without an AUTO_NUMBER, the word for table, a space, digits, a space and a body that starts with neither a digit nor a space give back the label, the digits and the body |
| TableCaption.NumberThenBody | crates/hwp-core/src/viewer/html/ctrl_header/table/process.rs:72-88 | after the label the digit run ends after the digits and their space, it trims to the digits, and the rest trims to the body |
| TableCaption.DigitRun | crates/hwp-core/src/viewer/html/ctrl_header/table/process.rs:72-76 | the scan stops exactly at the end of a run of digits and whitespace |
| TableCaption.PlainBody | crates/hwp-core/src/viewer/html/ctrl_header/table/process.rs:96-106 | a caption that does not start with the word for table is all body, with no label and the display or table number |
| TableCaption.UnspacedLabel | crates/hwp-core/src/viewer/html/ctrl_header/table/process.rs:66-96 | a caption that starts with the word for table but not with it and a space keeps its whole trimmed text as the body and takes the table number |
| TableCaption.TrimIdempotent | crates/hwp-core/src/viewer/html/ctrl_header/table/process.rs:64 | trimming a trimmed text changes nothing |
| Text.DecimalRoundTrip | crates/hwp-core/src/viewer/html/ctrl_header/table/process.rs:57-58 | the decimal text of a number is all digits, reads back as that number, and has no leading zero unless the number is zero |
| Text.DecimalInjective | crates/hwp-core/src/viewer/html/ctrl_header/table/process.rs:57-58 | different numbers have different decimal texts |
| Text.ZeroPad | crates/hwp-core/src/document/summary_information.rs:138-141 | the padded text is as long as the width or the text, whichever is longer, ends with the text, and is zeros before it |
| Text.ZeroPadValue | crates/hwp-core/src/document/summary_information.rs:138-141 | zero padding keeps the value of a digit string |
| Text.TrimStart | crates/hwp-core/src/viewer/markdown/document/bodytext/para_text.rs:297 | the result is a suffix that does not start with whitespace, and everything removed is whitespace |
| Text.TrimEnd | crates/hwp-core/src/viewer/markdown/document/bodytext/para_text.rs:297 | the result is a prefix that does not end with whitespace, and everything removed is whitespace |
| Text.TrimEmptyIffBlank | crates/hwp-core/src/viewer/markdown/document/bodytext/para_text.rs:27 | trimming gives the empty string exactly for the all-whitespace texts, and a non-empty trimmed text neither starts nor ends with whitespace |
| Text.TrimUntouched | crates/hwp-core/src/viewer/markdown/document/bodytext/para_text.rs:173 | a text that neither starts nor ends with whitespace is its own trim |
| Text.SplitJoin | crates/hwp-core/src/document/fileheader/serialize.rs:21 | splitting a join on a separator no part contains gives the parts back |
| Text.ReplaceChar | crates/hwp-core/src/viewer/markdown/table.rs:248 | when the replacement does not contain the replaced character, the result does not contain it either |
| Sorting.InsertPermutes | crates/hwp-core/src/viewer/markdown/document/bodytext/para_text.rs:64 | inserting adds the element and loses nothing |
| Sorting.SortByKey | crates/hwp-core/src/viewer/markdown/document/bodytext/para_text.rs:64 | the sorted sequence has the input's length and elements |
| Sorting.InsertSorted | crates/hwp-core/src/viewer/markdown/document/bodytext/para_text.rs:64 | inserting into a sorted sequence keeps it sorted by the key |
| Sorting.SortSorted | crates/hwp-core/src/viewer/markdown/document/bodytext/para_text.rs:64 | the result is sorted by the key and is a permutation of the input |
| Sorting.Sort | crates/hwp-core/src/viewer/markdown/document/bodytext/para_text.rs:78 | sorting numbers keeps their length and elements |
| Sorting.SortAscending | crates/hwp-core/src/viewer/markdown/document/bodytext/para_text.rs:78 | sorted numbers are ascending and a permutation of the input |
| Sorting.Dedup | crates/hwp-core/src/viewer/markdown/document/bodytext/para_text.rs:79 | removing repeats never lengthens the sequence |
| Sorting.DedupIncreasing | crates/hwp-core/src/viewer/markdown/document/bodytext/para_text.rs:78-79 | on a sorted sequence the dedup is strictly increasing, keeps every value and no other, and keeps the first and the last |
| Sorting.SortFour | crates/hwp-core/src/viewer/markdown/table.rs:71-76 | the sort is stable: with keys 0, 1, 0, 1 the two key-0 elements come first and each pair keeps its input order |

## Left out

- I/O and foreign libraries are not part of this model: the compound-file container, the deflate decompression of the DocInfo and BodyText streams, base64 and the file system. DocInfo and BodyText are modelled from their decompressed bytes.
- The whole-document HTML and Markdown assembly, float layout and geometry, SVG and PDF output are not part of this model.
- These parsers follow the same pattern as the modelled ones and are not part of this model: the control bodies of footnote and endnote, header and footer, page number and its position, section definition, auto number, new number, hide, page adjust, bookmark marker and comment; the shape components ellipse, arc, line, rectangle, OLE and picture; control data; the script version.
- Records that only wrap a raw byte blob are not part of this model, for example memo shape, form object, chart data and track change. They have no logic.
- CtrlHeader.BodyOf: the controls whose body parsers are outside this model keep their body as `NotModelled` bytes and always succeed. ctrl_header/mod.rs:49-62 propagates those sub-parsers' errors with `?`, so the model accepts bodies that the source would reject.
- Control ids and the FileHeader signature are kept as byte sequences, not as `String::from_utf8_lossy` strings (ctrl_header/mod.rs:38-42, fileheader/mod.rs:56-64). The known ids and the signature are ASCII, and for them the comparisons agree. A byte that is not valid UTF-8 would become U+FFFD in the source's string; that string is not modelled.
- Errors.HwpError: error messages are not modelled. An error keeps its variant, the field it names and, for InsufficientData, the counts it reports. UnexpectedValue drops its expected and found strings, EncodingError its reason, and InvalidSignature keeps the signature bytes.
- SummaryInformation.DecodeByCodepage: the encoding_rs decoders are a `Codecs` parameter, for UTF-8, Windows-1252 and EUC-KR. Codepages 1200 and 1201 are decoded by the model itself.
- SummaryInformation.Steps: the entry step also checks that the entry lies inside the table. SummaryOf tests this before the loop, so the extra guard never rejects an entry on the path the source takes.
- Outline.LevelIndex: for level 0, `level - 1` on a u8 panics in a debug build. The model takes the release-build wrap to 255, which the index check then turns away as an unused level (outline.rs:25).
- Outline.Inc: a counter increment wraps at 2^32, as in a release build.
- NumberFormat.FourCharRepeat: for number 0, `number - 1` on a u32 takes the release-build wrap, which gives the fourth character (viewer/html/document/bodytext/mod.rs:471-474). A debug build panics.
- BorderFill.ColorBytes: a negative gradient `color_count` takes the release-build wrap of `4 * color_count as usize` (border_fill.rs:452). NegativeColorCount states what the guard then lets through.
- FileTime.WrapI64: the i64 subtraction of `to_unix_timestamp` wraps as in a release build (summary_information.rs:70).
- PageBorderFill.ParsePageBorderFill, CharShape.ParseCharShape and Table.ParseTableAttributes use the corrected guards. The source panics at those points instead. The as-written behaviour is kept in the members named under "## Findings".
- DocInfo.StoreRecord dispatches on the tag values 0x10 to 0x1A from docinfo/constants.rs. docinfo/mod.rs:100-167 matches on `HWPTAG_*` names that no file in this snapshot declares. The model assumes that they stand for those values.
- Numbering.NumberingOf: the round trip is proved for each level and each extended format separately, not for the whole record.
- Script.ScriptOf: the end-flag DWORD is read only for a debug-build warning. It never changes the result, and the model does not read it.
- NumberFormat.ToLower: only ASCII letters are lowered. The texts it is applied to are roman and Latin-alphabetic numerals, so this is the same as Rust's `to_lowercase` there.
- Version thresholds (5010 in table.rs, 0x00020500 and 0x00010107 in docinfo) are compared with the version DWORD exactly as the source writes them.
- FileHeader.VersionString is `format_version` of the version DWORD. Its properties are stated on FileHeaderSerialize.FormatVersion.
- TableCaption.ParseCaptionText has no contract of its own. The lemmas AutoNumberSplit, AutoNumberRoundTrip, LabelledRoundTrip, PlainBody and UnspacedLabel characterise it.
- MarkdownParaText.ShapeFor: `get_char_shape` and the document's character shapes are a lookup function parameter.
- MarkdownParaText: text is a sequence of characters and positions count characters. The source's conversions from character index to byte index are modelled as those same positions.
- MarkdownTable.RecordPart: the Markdown of a picture is an input of the cell record. `format_image_markdown` and the lookup of the binary item are not modelled; a missing item gives `None`. The records of a cell's paragraphs are flattened into one list, in order. The `has_image` scan of `fill_cell_content` is computed but never used in the source, and it is not modelled.
- Sorting.SortByKey: the standard library's stable sort is modelled as an insertion sort. It has the same result, since a stable sort's output is unique.
- Signals.SignalManager: the mutex and the process-wide singleton are not modelled. A delegate is an opaque value, and an emission is recorded as the (delegate, name) call; what a delegate then does is outside the registry.
- table.rs `parse_cell_list` and caption.rs `parse_caption` and `parse_caption_12bytes` are marked dead code and never called, so they are not modelled.
- outline.rs `compute_outline_number` (lines 102-181) reads styles out of the document. It is not part of this model; the tracker, the labels and the NUL test around it are.

## Findings

| source | as written | input that shows it | evidently intended | confidence | as-written member | corrected member |
|---|---|---|---|---|---|---|
| crates/hwp-core/src/document/bodytext/table.rs:239 | the border-fill id is read after the row-size loop with no bounds check, so the read panics when the data ends inside the row sizes or right after them | 22 bytes with a row count of 2 (the row sizes fill bytes 18-21) | report InsufficientData for the border-fill id, as the zone fields after it do | not executed | Table.TableBorderFillPastEnd | Table.TableAttributesOf |
| crates/hwp-core/src/document/bodytext/page_border_fill.rs:69 | the guard admits 12 bytes, but the fixed fields are read through byte 14 | twelve zero bytes | require 14 bytes | not executed | PageBorderFill.PageBorderFillPastEnd | PageBorderFill.PageBorderFillOf |
| crates/hwp-core/src/document/docinfo/char_shape.rs:149 | the guard admits 66 bytes, but the fixed fields are read through byte 68 | 66 zero bytes | require 68 bytes | not executed | CharShape.CharShapePastEnd | CharShape.CharShapeOf |
| crates/hwp-core/src/viewer/html/document/bodytext/mod.rs:568-632 | digits are inserted at the front and the units at the end, so digit and unit order is lost; the Korean unit table has four entries, so a nonzero digit past the thousands indexes past it | 23 as a Korean numeral gives 이삼십 and as a Chinese numeral 二三十; 10000 as a Korean numeral panics | 이십삼 and 二十三, each place's digit followed by its unit | not executed | NumberFormat.NumeralAsWrittenOrder | NumberFormat.NumeralOrder |
| crates/hwp-core/src/viewer/markdown/document/bodytext/para_text.rs:312-319 | after a break at the last character, the index after it has no byte index, `unwrap_or(0)` restarts at the start of the text, and the whole text is emitted again | "ab" with a line break at position 1 gives "a  \nab" | resume at the end of the text, giving "a  \n" | not executed | MarkdownParaText.BreakAtEndRepeats | MarkdownParaText.CorrectedNoRepeat |
| crates/hwp-core/src/viewer/markdown/table.rs:71-108 | when all cells share one row address, the branch meant to walk the cells in their original order walks them sorted by column, so rows are split wrongly and a cell is lost | a 2 × 2 table whose four cells all have row address 0 and columns 0, 1, 0, 1 | walk the cells in their original order, starting a new row whenever the column does not increase | not executed | MarkdownTable.SortedSameRowLosesCell | MarkdownTable.RowMajorFromPositions |
