# Range Series converter — a Dafny model

`rs.c` converts CODAR SeaSonde Range Series files between binary and text.

A Range Series file is a tree of RIFF-style blocks. Each block is a four-byte
key and a four-byte size, both big-endian, followed by the payload.
- The four *superblocks* 'AQFT', 'HEAD', 'BODY' and 'END ' hold other blocks.
- Every other known key ('sign', 'mcda', 'dbrf', 'cnst', 'hasi', 'swep',
  'fbin', 'rtag', 'gps1', 'indx', 'scal', 'afft', 'ifft') holds a fixed C
  struct ('scal' is two doubles), a run of raw bytes ('hasi'), or a run of
  I/Q float samples ('afft', 'ifft').

The program has two modes:
- `rsdump` decodes the binary file into a flat node list and byte-swaps each
  leaf's fields into host order. It then prints every node as a block name,
  one `label:value` line per field (or one line per sample) and a blank line.
- `rsgen` reads that text back. It makes one node per block name, recomputes
  the 'AQFT', 'HEAD' and 'BODY' sizes, and writes the binary file again.

The model is a set of pure functions over immutable values.

| module | what it models |
|---|---|
| `Wrappers` | `Option` and `Result` |
| `ByteOrder` | bytes, 32-bit words, `swapcopy`/`endian_fixup`, big-endian and host-order readings |
| `Registry` | the key constants, the function dictionary, `superblock`, and each struct's field layout and label names |
| `Blocks` | the list node: key, size, data |
| `LeafFixup` | the per-block `fixup_data_*` functions, as one field-by-field byte swap over the struct layout |
| `Decoder` | `parse_block`, `check_header`, `parse_file`; a tree of blocks and its serialisation, used as the decoder's reference |
| `Sizes` | `calculate_head_size`, `calculate_body_size`, `set_block_size`, `fixup_sizes` with 32-bit wrap-around |
| `Encoder` | the `gen_block_*` functions and `rs_write` |
| `TextStream` | `fgets` with its buffer limit, and `chomp`, over a file given as lines |
| `Numerals` | decimal and hex numerals, `strtol`-style parsing, 32-bit narrowing |
| `Scan` | `sscanf` with one literal label and one conversion (`%Nc`, `%4s`, `%d`, `%u`, `%x`, `%lf`) |
| `Parameters` | `read_parameter` |
| `FieldText` | how each field kind is printed by a `dump_block_*` and stored by a `make_node_*` |
| `Dump` | the `dump_block_*` functions, `hexdump`, `dump_list`, `rsdump` |
| `Make` | the `make_node_*` functions, `count_iqdata_lines`, `read_iqdata_samples` |
| `RsGen` | the `rsgen` loop and driver |
| `RoundTrip` | text round trips of the fixed-struct blocks and of 'hasi' |
| `SampleTrip` | text round trips of the sample blocks |
| `SizeTrip` | `fixup_sizes` on the node list `make` builds for an acquisition file, against the sizes of the wire image |

Host byte order is a parameter `little` throughout; it stands for the global
endianness flag. The C library routines that print or read floating-point
numbers, and `ctime`, are fields of a `Libc` value passed in. Floats and
doubles are carried as their IEEE bit patterns.

## Model

| member | source | states |
|---|---|---|
| ByteOrder.SwapCopy | rs.c:603-643 | for sizes 2, 4 and 8 the destination holds the source bytes reversed; any other size leaves the destination unchanged |
| ByteOrder.EndianFixup | rs.c:593-601 | on a little-endian host a 2-, 4- or 8-byte value is reversed in place; otherwise it is unchanged |
| ByteOrder.EndianFixupInvolution | rs.c:593-601 | fixing a value up twice restores it, so the same fixup serves reading and writing |
| ByteOrder.FixupReadsBigEndian | rs.c:593-601 | after the fixup, the host reads the big-endian value of the file bytes, whatever its byte order |
| ByteOrder.FixupWritesBigEndian | rs.c:593-601 | fixing up the host bytes of a number gives that number's big-endian bytes |
| ByteOrder.FixupWritesHostValue | rs.c:593-601 | the big-endian reading of fixed-up host bytes is the value the host held |
| ByteOrder.WordBytesOfWord | rs.c:503-507 | a header word read from four bytes and written back gives the same four bytes |
| Registry.KeyIsName | rs.c:44-60 | each key constant is the big-endian reading of its four-character block name |
| Registry.FindBlockFunctions | rs.c:537-573 | the lookup finds a block type exactly when some type has that key, and the type found has that key |
| Registry.FindKeyOf | rs.c:537-573 | every block type is found by its own key, so the dictionary keys are distinct |
| Registry.SuperblockIsContainer | rs.c:645-653 | `superblock` holds exactly for the dictionary entries that contain other blocks |
| Registry.SignSize | rs.c:890-899 | the packed 'sign' struct is 208 bytes |
| Registry.CnstSize | rs.c:1135-1141 | the packed 'cnst' struct is 16 bytes |
| Registry.SwepSize | rs.c:1340-1347 | the packed 'swep' struct is 32 bytes |
| Registry.Gps1Size | rs.c:1621-1627 | the packed 'gps1' struct is 28 bytes |
| Registry.MinSizeIsStructSize | rs.c:901-914 | the length below which a block counts as truncated is its struct's size |
| Registry.SampleFieldsWidth | rs.c:1861-1865 | `count` I/Q samples occupy 8·`count` bytes |
| LeafFixup.ApplyFieldsInvolution | rs.c:901-914 | byte-swapping a struct's fields twice restores the struct |
| LeafFixup.ApplyFieldsKeepsTail | rs.c:901-914 | bytes past the end of the struct are not touched |
| LeafFixup.ApplyFieldsBigEndianHost | rs.c:593-601 | on a big-endian host the fixup changes nothing |
| LeafFixup.ApplyFieldsAt | rs.c:901-914 | each field's bytes are fixed up in place at the field's offset, independently of the others |
| LeafFixup.FieldReadsWireValue | rs.c:901-914 | after the fixup, every swapped field reads on the host as its big-endian value in the file |
| LeafFixup.FixupData | rs.c:901-914 | fixing a block's data fails exactly when the data is shorter than the struct, and keeps its length |
| LeafFixup.FixupBlock | rs.c:575-591 | `fixup_block` fails exactly for an unknown key or a truncated block, and keeps key, size and length |
| LeafFixup.FixupDataInvolution | rs.c:575-591 | a successful fixup applied twice returns the original data |
| LeafFixup.FixupDataOfFixedLeaf | rs.c:901-914 | for a fixed struct, `fixup_data_*` is the field-by-field swap over that struct's layout |
| Decoder.Clamp | rs.c:510-514 | a declared size larger than the bytes left is cut to the bytes left; otherwise it is kept |
| Decoder.LeafNode | rs.c:515-525 | a leaf node keeps its key and size; when its fixup fails it keeps the file bytes unchanged |
| Decoder.ParseBlock | rs.c:490-535 | every node's size matches its data and fits in the buffer, and a non-empty buffer gives at least one node |
| Decoder.ParseNode | rs.c:515-525 | a block's own node comes first, with its key and size; a leaf decodes to that node alone |
| Decoder.ParseStated | rs.c:503-532 | a header whose size word equals the length of the payload after it decodes to that payload's nodes, then the decoding of exactly the bytes that follow |
| Decoder.ParseFront | rs.c:503-532 | a block whose header states its true length decodes to its own nodes, then the decoding of exactly the bytes after its payload |
| Decoder.ParseClamped | rs.c:508-515 | a header that declares more bytes than remain is cut to the rest of the buffer, and that block is the last at its level |
| Decoder.CheckHeader | rs.c:464-477 | the header check passes exactly when the first key is 'AQFT', and otherwise reports that key |
| Decoder.ParseFile | rs.c:448-488 | a file longer than a header that does not start with 'AQFT' is refused; every other file is parsed as a run of blocks |
| Decoder.ParseSerialize | rs.c:490-535 | decoding the bytes of a well-formed list of block trees gives the trees' nodes in pre-order, each leaf fixed up |
| Decoder.ParseSerializeTree | rs.c:490-535 | the same for one tree followed by any further bytes, which parse independently |
| Decoder.ShortHeaderWraps | rs.c:508-514 | as written, fewer than 8 bytes left makes the unsigned remaining length wrap to more than any declared size |
| Decoder.ShortHeaderRefused | rs.c:490-514 | a buffer of 1 to 7 bytes is refused with a short-header error |
| Sizes.CalculateHeadSize | rs.c:734-751 | the result is the sum of size+8 over the nodes after 'HEAD' and before 'BODY' or 'END ', modulo 2^32 |
| Sizes.CalculateBodySize | rs.c:717-732 | the result is the sum of size+8 over the nodes after 'BODY' and before 'END ', modulo 2^32 |
| Sizes.ScanIsRegionSum | rs.c:717-751 | the flag-driven loop equals the sum over the open region, computed independently |
| Sizes.FirstWithKey | rs.c:753-765 | finds the first node with the key, or reports that none has it |
| Sizes.SetBlockSize | rs.c:753-765 | fails exactly when no node has the key; otherwise only the first such node's size changes |
| Sizes.AqftSize | rs.c:710 | the 'AQFT' size is head + body + 16, wrapped to 32 bits |
| Sizes.FixupSizes | rs.c:704-715 | keys, data and order of the nodes are kept |
| Sizes.FixupSizesSucceeds | rs.c:704-715 | succeeds exactly when both region sums are non-zero and 'AQFT', 'HEAD' and 'BODY' all occur |
| Sizes.FixupSizesSets | rs.c:704-715 | on success the first 'AQFT', 'HEAD' and 'BODY' carry their computed sizes and every other node keeps its own |
| Sizes.FixupSizesFailsEarly | rs.c:706-709 | a zero region sum, or no 'AQFT', stops before any size is set |
| Encoder.GenPayload | rs.c:970-989 | superblocks write no payload; 'hasi' writes its `size` bytes; others write their struct; it fails exactly when the data is too short |
| Encoder.GenBlock | rs.c:387-410 | an unknown key cannot be written; otherwise the output starts with the key and size in big-endian order |
| Encoder.GenHeaderOnly | rs.c:842-850 | a superblock is written as its 8-byte header alone |
| Encoder.WriteAllSucceeds | rs.c:387-410 | writing a list succeeds exactly when every node can be written |
| Encoder.RsWriteSucceeds | rs.c:387-410 | `rs_write` reports no error exactly when every node's `gen` succeeds |
| Encoder.WriteAllAppend | rs.c:387-410 | once the first list is written without error, writing the concatenation gives the two byte streams in order and the second list's error |
| Encoder.GenPayloadOfMakeLayout | rs.c:970-989 | writing the host layout of a payload gives back the file bytes of that payload |
| Encoder.FieldsOfMakeLayout | rs.c:970-989 | the write-side swap undoes the host layout field by field |
| Encoder.FieldWrittenBigEndian | rs.c:970-989 | every field the writer swaps reaches the file as the big-endian form of its host value |
| Encoder.RsWriteMadeList | rs.c:387-410 | writing the host-order nodes of a writable block-tree list reproduces that list's bytes exactly, which inverts `ParseSerialize` |
| Encoder.RsWriteMadeTree | rs.c:387-410 | the same for a single block tree |
| Encoder.GenSignLayout | rs.c:970-989 | the corrected 'sign' writer outputs header, then the struct with every swapped field swapped |
| Encoder.SignUserflagsWritten | rs.c:983-984 | the corrected 'sign' writer puts the host value of `userflags` in the file big-endian |
| Encoder.GenSignAsWritten | rs.c:970-989 | as written, 'sign' is written as a raw copy of the host struct; it fails only when the data is short |
| Encoder.SignUserflagsAsWritten | rs.c:983-984 | as written, `userflags` of 1 on a little-endian host reaches the file as 0x01000000 |
| TextStream.Fgets | rs.c:425 | at end of file there is no line; otherwise it returns 1 to n-1 characters and moves forward |
| TextStream.CLength | rs.c:412-417 | the text after `chomp` ends at the first NUL or newline |
| TextStream.ReadLine | rs.c:425-427 | `fgets` then `chomp`: no line exactly at end of file, and the cursor always moves forward |
| TextStream.ChompPlain | rs.c:412-417 | `chomp` removes a terminating newline and keeps the text before it |
| TextStream.ReadWholeLine | rs.c:425-427 | a line of at most 254 plain characters is read whole, and the cursor moves to the next line |
| TextStream.PhantomEmptyLine | rs.c:425-433 | a line of exactly 255 characters is read in two parts, the second an empty line |
| Numerals.DigitChar | rs.c:1167-1170 | the digit printed for a value reads back as that value |
| Numerals.ValueOfNumeral | rs.c:1167-1170 | a printed numeral reads back as the number printed |
| Numerals.DigitRunOfNumeral | rs.c:1167-1170 | the digits of a printed numeral end where the numeral ends |
| Numerals.ParseNumeral | rs.c:437 | parsing a printed numeral, followed by text that does not continue it, gives the number |
| Numerals.Signed | rs.c:1167 | a 32-bit word read as `int` lies in the two's-complement range |
| Numerals.Long | rs.c:437 | the parsed value lies in the 64-bit signed range, and is exact inside it |
| Numerals.ULong | rs.c:437 | the parsed value lies in the 64-bit unsigned range, and is exact inside it |
| Numerals.SignedRoundTrip | rs.c:1158-1201 | a field printed with `%d` and read back with `%d` gives the same 32-bit word |
| Numerals.UnsignedRoundTrip | rs.c:1571-1608 | a value printed with `%u` or `%x` and read back gives the same value, and its low 32 bits when narrowed |
| Numerals.FormatByte | rs.c:1258 | `%02x` prints a byte as two hex digits |
| Numerals.SkipSpace | rs.c:437 | drops exactly the leading white space |
| Scan.MatchLiteral | rs.c:437 | the label matches exactly when the line starts with it, and conversion continues after it |
| Scan.WordRun | rs.c:1468-1500 | the run of non-blank characters at the start of the text |
| Scan.ConvertChars | rs.c:959-966 | `%Nc` fails only on empty input and takes `N` characters, or fewer if the text is shorter |
| Scan.ConvertStr | rs.c:1468-1500 | `%4s` fails on blank input and stores 1 to 5 bytes, NUL-terminated |
| Scan.ConvertReal | rs.c:1118 | `%lf` fails on blank input and stores an 8-byte double |
| Scan.ConvertInteger | rs.c:959 | `%d`, `%u` and `%x` fail on blank input and store a 4-byte word |
| Scan.IntegerConverts | rs.c:437 | an integer conversion stores the host bytes of the parsed number narrowed to 32 bits |
| Scan.Sscanf | rs.c:437 | after a matching label, the result is that of the conversion on the rest of the line |
| Scan.OtherLabel | rs.c:437-443 | a line carrying one field's label does not match another field's label |
| Scan.ScanOtherLabel | rs.c:437-443 | reading one field never accepts the line of a different field |
| Parameters.ReadParameterStep | rs.c:419-446 | a skipped line passes the search to the next line; any other line decides it |
| Parameters.ReadParameterStops | rs.c:419-446 | the outcome is decided by the first line of the record that is blank or matches |
| Parameters.ReadParameterRunsOut | rs.c:419-446 | when end of file comes with no blank or matching line, the search succeeds and stores nothing |
| Parameters.TextsOfShortLines | rs.c:425-427 | a file of short plain lines is read as exactly those lines |
| FieldText.NulLength | rs.c:916-934 | `%.*s` prints up to the first NUL |
| FieldText.ByteChars | rs.c:916-934 | bytes printed as characters convert back to the same bytes |
| FieldText.DumpValue | rs.c:1009-1028 | a field always has a printed value, except a zero timestamp, which has no line |
| FieldText.FieldLines | rs.c:916-934 | a field prints at most one line, and that line starts with its label and a colon |
| FieldText.HostOfWire | rs.c:901-914 | after the read fixup, a field's host value is its big-endian value in the file |
| FieldText.WireOfHost | rs.c:970-989 | the write fixup of a field's host bytes gives its file bytes |
| FieldText.FieldRoundTrip | rs.c:916-968 | every printable field's printed line is read back by its label and restores its file bytes |
| FieldText.ValueRoundTrip | rs.c:916-968 | every printable field's printed value converts back to its file bytes |
| FieldText.SignedFieldRoundTrip | rs.c:1158-1201 | a `%d` field prints and reads back to the same file bytes |
| FieldText.UnsignedFieldRoundTrip | rs.c:1571-1608 | a `%u` or `%x` field prints and reads back to the same file bytes |
| FieldText.EpochRoundTrip | rs.c:1022 | moving a timestamp to the 1970 epoch and back restores it, modulo 2^32 |
| FieldText.TimestampStored | rs.c:1050 | the timestamp read back is stored as the original Mac timestamp |
| FieldText.TimestampRoundTrip | rs.c:1009-1053 | a non-zero timestamp prints and reads back to the same file bytes |
| FieldText.RealRoundTrip | rs.c:1084-1121 | a double prints and reads back to the same file bytes when the library reads back what it printed |
| FieldText.CharsRoundTrip | rs.c:916-968 | a NUL-padded character field prints and reads back to the same file bytes |
| FieldText.StrRoundTrip | rs.c:1451-1500 | a NUL-padded four-character code read with `%4s` gives back the same file bytes |
| FieldText.OverlayString | rs.c:1468-1500 | storing the characters before the NUL, and the NUL, over a zeroed field rebuilds the padded field |
| Dump.FixedFieldsHoldNoSamples | rs.c:890-1858 | no fixed struct has a float field, so every field of one has a text line |
| Dump.DumpFields | rs.c:916-934 | prints at most one line per field, each with a colon |
| Dump.DumpFieldsFirst | rs.c:916-934 | the first field's line comes first, followed by the lines of the rest of the struct |
| Dump.HexDump | rs.c:1252-1261 | the hex line is "data:" followed by three characters per byte |
| Dump.SampleLines | rs.c:1884-1912 | one line per sample, formatted from the sample's index and its I and Q floats in host order |
| Dump.FbinConfig | rs.c:1451-1466 | the format and type kept for later blocks are the first two host words of 'fbin' |
| Dump.DumpFixed | rs.c:916-934 | the block name, field lines with colons, then an empty line; only 'fbin' changes the configuration |
| Dump.Framed | rs.c:916-934 | a record is its name line, its body lines in order, and an empty line |
| Dump.DumpSamples | rs.c:1884-1912 | the name, one line per whole 8-byte sample, and an empty line |
| Dump.DumpHasi | rs.c:1238-1250 | the name, the hex line, and an empty line |
| Dump.DumpNode | rs.c:819-2154 | fails exactly on a truncated block, or a sample block under a format other than 'cviq'/'flt4', and reports which |
| Dump.DumpNodeLines | rs.c:819-825 | every dump starts with the block name; only 'END ' prints nothing more |
| Dump.DumpNodeConfig | rs.c:1459-1460 | only 'fbin' changes the configuration |
| Dump.DumpBlock | rs.c:785-790 | an unknown key cannot be dumped; a known key is dumped by its type |
| Dump.HeaderOnlyIsPrefixDump | rs.c:792 | the header-only dump equals the full dump of the nodes before the first 'BODY' |
| Dump.WalkAppend | rs.c:778-803 | once the first list dumps without error (and, for a header-only dump, holds no 'BODY'), dumping the concatenation gives both line sequences in order, with the configuration carried from the first to the second |
| Dump.WalkErrorStops | rs.c:793-798 | after a node fails to dump, no later node is printed |
| Dump.DumpKeepsLastFbin | rs.c:1459-1460 | after a dump without error the configuration is that of the last 'fbin' dumped |
| Dump.BadHeaderExitsZero | rs.c:328-339 | as written, a file that does not start with 'AQFT' prints nothing and exits with status 0 |
| Dump.Rsdump | rs.c:313-340 | corrected: status 0 exactly when the file decodes and dumps without error |
| Dump.RsdumpAgrees | rs.c:313-340 | the corrected `rsdump` and the one as written differ only on files that do not decode |
| Make.MakeFields | rs.c:936-968 | reading a struct fails exactly when a field's search meets the blank line (in the corrected reader, a field other than a timestamp), and otherwise fills the whole struct |
| Make.FieldMade | rs.c:425-442 | a field is refused exactly when its search meets the blank line, except, in the corrected reader, a timestamp, which is then 0; a found field stores its converted value |
| Make.MakeFixed | rs.c:936-968 | a fixed block fails exactly when a field is refused as missing; it has the struct's size and does not move the file position |
| Make.TokensAreWords | rs.c:1283-1291 | every token split off a line is non-empty and blank-free |
| Make.HexBytesOf | rs.c:1307-1312 | one byte per token, each from the token's hex value |
| Make.ArgCount | rs.c:1283-1296 | the tokens after "data:" are counted, stopping at 256 |
| Make.DataLine | rs.c:1278-1284 | no data line exactly at end of file; otherwise the cursor moves forward |
| Make.HasiBytes | rs.c:1286-1312 | a 'hasi' line fails exactly when it has no byte tokens or 256 or more; otherwise the node holds one byte per token |
| Make.MakeHasi | rs.c:1266-1321 | 'hasi' fails at end of file, or when the line has no bytes or too many, and otherwise holds the line's bytes |
| Make.CountSampleLinesRun | rs.c:1959-1973 | the count is the number of non-empty lines before the first empty line or end of file |
| Make.FloatBytes | rs.c:2001-2002 | a float's host bytes hold its bit pattern |
| Make.ReadSamples | rs.c:1975-2009 | success fills 8 bytes per sample; a failure names a sample in the range asked for |
| Make.MakeSamples | rs.c:1916-1957 | succeeds exactly when there are sample lines, a multiple of 3, under 'cviq'/'flt4', and all convert |
| Make.MakeNode | rs.c:537-557 | a made node has the type's key; superblocks are empty and always succeed; only 'fbin' changes the configuration |
| Make.MakeLeaf | rs.c:537-557 | a made leaf has the type's key and leaves the cursor valid and not before where it started; only 'fbin' changes the configuration |
| Make.MakeNodeFixed | rs.c:936-968 | for a fixed struct, `make` reads its fields |
| Make.MakeNodeHasi | rs.c:1266-1321 | for 'hasi', `make` reads one data line |
| Make.MakeNodeSamples | rs.c:1916-1957 | for a sample block, `make` reads the sample lines |
| RsGen.LineType | rs.c:356-359 | a line names a block by its first four characters read big-endian |
| RsGen.Gather | rs.c:350-377 | every call counts at least one more line unless it is at end of file, where it stops cleanly; an error names a line already counted |
| RsGen.Rsgen | rs.c:342-385 | a loop error exits with status 1 and writes nothing |
| RsGen.RsgenSucceeds | rs.c:342-410 | status 0 exactly when the loop succeeds and every node can be written after size fixup, and then the written bytes are the nodes in order |
| RoundTrip.FieldNamesDistinct | rs.c:916-1858 | no two fields of one struct share a label |
| RoundTrip.DumpedFieldsReadBack | rs.c:916-934 | every field of a printable struct prints a line that reads back to the field's file bytes |
| RoundTrip.MakeFieldsReadBack | rs.c:936-968 | reading a struct from its printed lines gives back the file bytes, with other records' lines before it |
| RoundTrip.FixedLeafDump | rs.c:916-934 | a decoded fixed struct prints as its name, its field lines, and an empty line |
| RoundTrip.FixedLeafMake | rs.c:936-968 | `make` on a struct's printed lines rebuilds the host struct |
| RoundTrip.FixedLeafRoundTrip | rs.c:901-989 | for every fixed struct whose fields are printable, `make` on the `dump` of a decoded block rebuilds the host struct, so `gen` writes the same file bytes |
| RoundTrip.ZeroTimestampDump | rs.c:1009-1026 | an 'mcda' whose timestamp is zero dumps as its name and the blank line, with no timestamp line |
| RoundTrip.ZeroTimestampRefused | rs.c:1029-1052 | as written, `make_node_mcda` on that record fails with the timestamp missing, so `rsgen` stops with status 1 |
| RoundTrip.ZeroTimestampRoundTrip | rs.c:1009-1052 | the corrected `make` reads the missing timestamp as zero and rebuilds the 'mcda' node that writes back as its file bytes |
| RoundTrip.HexBytesOfFormat | rs.c:1258 | hex bytes printed with `%02x` read back as the same bytes |
| RoundTrip.TokensOfHexDump | rs.c:1252-1291 | splitting the hex line at blanks gives "data:" and one two-digit token per byte |
| RoundTrip.HasiRoundTrip | rs.c:1238-1321 | 'hasi' of 4 to 255 bytes dumps and reads back to the same bytes, with a data line buffer that fits |
| RoundTrip.HasiAsWrittenLosesLastByte | rs.c:1263-1279 | as written, 255 'hasi' bytes read back as 254, and the rest of the line then stops `rsgen` |
| SampleTrip.Pairs | rs.c:1861-1865 | the host I/Q words of each 8-byte sample in order |
| SampleTrip.PairBytesOfPairs | rs.c:1861-1865 | writing back the I/Q words of a sample block gives the block's bytes |
| SampleTrip.ReadSamplesFrom | rs.c:1975-2009 | reading sample lines that the library converts to known pairs gives those pairs' bytes, one line per sample |
| SampleTrip.CountToBlank | rs.c:1959-1973 | the count stops at the record's empty line |
| SampleTrip.SampleRecordRead | rs.c:1959-2009 | a sample record is counted and read back as the samples it was printed from |
| SampleTrip.MakeSamplesBack | rs.c:1916-1957 | `make` on a record of 3k sample lines rebuilds the sample block |
| SampleTrip.SampleDump | rs.c:1884-1912 | a sample block prints its name, one line per sample, and an empty line |
| SampleTrip.SampleRoundTrip | rs.c:1867-2030 | a decoded sample block of 3k samples dumps, reads back to its host layout, and so writes back the same file bytes |
| SampleTrip.SampleNodeRoundTrip | rs.c:1884-1957 | `make` on the `dump` of a sample node gives back the same node |
| SampleTrip.SampleCountNotTriple | rs.c:1933-1937 | a sample record whose line count is not a multiple of 3 cannot be read back |
| SampleTrip.PairsOfWhole | rs.c:1861-1865 | the pairs of a sample run ignore the bytes after its last whole pair |
| SampleTrip.SampleTailDropped | rs.c:1884-1957 | a sample block of 8n+1 to 8n+7 bytes dumps n lines, and `make` reads them back as a node of 8n bytes, smaller than the block |
| SizeTrip.MadeAcquisition | rs.c:826-840 | the node list for 'AQFT' holding 'HEAD' and 'BODY', then 'END ', puts each container before its children, and the size each container should get is the wire length of its children |
| SizeTrip.MadeEndInside | rs.c:826-840 | the same layout when 'END ' is the last child of 'AQFT', whose size then counts the 'END ' header |
| SizeTrip.UnsizedLayout | rs.c:826-840 | the list as `make` leaves it, every container at size 0, is that layout with all container sizes 0 |
| SizeTrip.LayoutHeadSize | rs.c:734-751 | in such a layout, `calculate_head_size` sums size+8 over exactly the 'HEAD' children |
| SizeTrip.LayoutBodySize | rs.c:717-732 | in such a layout, `calculate_body_size` sums size+8 over exactly the 'BODY' children |
| SizeTrip.FixupSingleContainers | rs.c:704-715 | on a list with one 'AQFT' first, one 'HEAD' second and one 'BODY', `fixup_sizes` succeeds and sets exactly those three sizes |
| SizeTrip.LayoutFixup | rs.c:704-765 | on a layout with non-empty 'HEAD' and 'BODY' regions, `fixup_sizes` sets 'HEAD' and 'BODY' to their children's wire length and 'AQFT' to their sum plus 16 |
| SizeTrip.FixupRestoresSizes | rs.c:704-715 | for an acquisition file with 'END ' after 'AQFT', `fixup_sizes` on the list `make` builds restores every container size, so `rs_write` (rs.c:387-410) writes the file's exact bytes |
| SizeTrip.LayoutUndercount | rs.c:704-715 | on a layout with 'END ' inside 'AQFT', `fixup_sizes` gives 'AQFT' 8 bytes less than its wire size and every other node its wire size |
| SizeTrip.EndInsideUndercounts | rs.c:704-715 | for an acquisition file with 'END ' as the last child of 'AQFT', `fixup_sizes` undercounts 'AQFT' by the 8-byte 'END ' header and gets every other size right |

## Left out

- Files and memory are not modelled. `fopen`, `fseek`/`ftell` sizing, `fread`/`fwrite`, `malloc` failure and command-line handling (`main`, `check_little_endian`, the usage texts) are left out. The binary input is a byte sequence, the text input is a sequence of lines, and the outputs are values.
- Floating-point printing and reading (`%lf`, `% .20lf`, the `(float)` narrowing) and `ctime` are parameters in a `Libc` value. A double or float comes back only when the library reads back exactly what it printed; `FieldText.Printable`, `FieldText.RealRoundTrip` and the `SampleTrip` lemmas take that as a precondition. Some fields are printed with too few digits for that to hold in general: 'dbrf' `rxloss` with `%.4lf` (rs.c:1093) and 'gps1' `lat`, `lon` and `alt` with `%.6lf` (rs.c:1655-1657). Such a field loses precision on the trip through `rsdump` and `rsgen`, and the round-trip lemmas do not cover it.
- The `scal` scalars and the `indx` index in the configuration are stored by the source but never read, so `Config` keeps only the binary format and type.
- Parse errors and `fixup_block` messages on standard error, the "Read N lines" message, `show_list`, `debugdump` and the `Debug` traces are output only and are left out.
- `free_all_nodes` and `free_all_nodes_and_data` are left out.
- Undefined behaviour is left out:
  - the `argv` overflow of `make_node_hasi` with more than 256 tokens (the model stops counting at 256);
  - the NUL that `%4s` writes one byte past the 'fbin' field;
  - the uninitialised node address that `parse_file` returns for an empty file, modelled as the empty list.
- A container's node data is the raw slice of the file. The source never reads it, and the in-place changes that children make to the C buffer are not modelled.
- `read_parameter` goes back to the start of the record after every field. Fields are therefore found in any order, and a label may appear anywhere before the record's empty line. The model follows this code behaviour, not a fixed field order.
- The text file is a sequence of lines each ending in a newline. A last line without a newline, and a NUL inside a line, are not distinguished.
- RoundTrip.FixedLeafRoundTrip: the round trip is proved only for structs whose fields all satisfy `FieldText.Printable`, and whose dumped lines are at most 254 characters with no NUL or newline in them. These are the cases it leaves out:
  - a char array or code with a non-zero byte after its first NUL: it is printed only up to the NUL (rs.c:916-934), and `make` fills the rest with zeros;
  - a char array or code holding a newline byte, which splits its line;
  - an 'fbin' code holding white space, where `%4s` stops;
  - a double whose printed text does not read back as the same double: 'dbrf' `rxloss` (`%.4lf`), 'gps1' `lat`, `lon` and `alt` (`%.6lf`), and the `%.20lf` doubles of 'swep' and 'scal' for values too small for 20 decimals;
  - a zero timestamp in 'mcda' or 'gps1', which is not printed (rs.c:1020-1024, rs.c:1658-1662). The source's `rsgen` then refuses the record, as in the zero-timestamp finding below. The corrected reader reads it back as 0, which `RoundTrip.ZeroTimestampRoundTrip` proves for 'mcda'.
- SampleTrip.SampleRoundTrip: the `% .20lf` / `% .16lf` sample floats come back only when the library reads each printed pair back as the same floats, which is a precondition.
- Make.HasiBytes: models the `argc` counting as the number of tokens after "data:", stopping at 256. The source's write to `argv[256]` is not modelled.
- Make.MakeHasi: the 'hasi' line buffer is a parameter. `MakeNode` uses the corrected size `HASI_LINE`; the finding below uses the source's `MAX_LINE`.
- Make.MakeNode, Make.MakeNodeFixed, RsGen.Gather, RsGen.Rsgen: these read a fixed struct with the corrected `MakeFixed`, which stores 0 for a timestamp whose line is missing where the source's `read_parameter` fails (rs.c:428-433, rs.c:1049, rs.c:1691); see the zero-timestamp finding below.
- Make.MakeNode, Make.MakeNodeHasi, RsGen.Gather, RsGen.Rsgen: these use the corrected `HASI_LINE`, so they accept a 255-byte 'hasi' record, where the source's `rsgen` reads only 767 characters of it (rs.c:1263-1279) and then stops with status 1 on the rest of the line (rs.c:363-367).
- Encoder.GenPayload: the write-side swap of each leaf is modelled as the field-by-field swap of the struct layout. This is identical to the source for every leaf except 'sign', whose omitted `userflags` swap is the finding below.
- RsGen.Rsgen: the status of a failed `fixup_sizes` is ignored, as in the source. The contract states only the loop-error case; `RsGen.RsgenSucceeds` states the rest.

## Findings

| source | as written | input that shows it | evidently intended | confidence | as-written member | corrected member |
|---|---|---|---|---|---|---|
| rs.c:508 | `length -= 8` on an `unsigned long` with fewer than 8 bytes left wraps to about 2^64; the size check then passes and the header read runs past the buffer | a file, or a superblock payload, ending in 1 to 7 stray bytes | refuse a block whose header does not fit | not executed | Decoder.ShortHeaderWraps | Decoder.ShortHeaderRefused |
| rs.c:983-984 | `gen_block_sign` writes `userflags` without the byte swap that `fixup_data_sign` applied on reading | `userflags` 1 on a little-endian host is written as 0x01000000 | write `userflags` big-endian, as it was read | not executed | Encoder.SignUserflagsAsWritten | Encoder.SignUserflagsWritten |
| rs.c:328-339 | `rsdump` returns 0 when `read_binary_file` or `parse_file` fails | a file whose first key is not 'AQFT' | a failed decode exits with status 1 | not executed | Dump.BadHeaderExitsZero | Dump.Rsdump |
| rs.c:1020-1024 | `dump_block_mcda` prints no timestamp line for a zero timestamp, but `make_node_mcda` requires one: `read_parameter` meets the blank line and returns 1 (rs.c:428-433, rs.c:1049), and `rsgen` exits 1 (rs.c:371-375); 'gps1' is the same (rs.c:1658-1662, rs.c:1691) | an 'mcda' block of four zero bytes | `rsgen` accepts what `rsdump` prints, reading a missing timestamp as 0 | not executed | RoundTrip.ZeroTimestampRefused | RoundTrip.ZeroTimestampRoundTrip |
| rs.c:1263-1279 | the 'hasi' line buffer is `MAX_LINE` = 769 and `fgets` is given 768, so at most 767 characters are read; a dump of 255 bytes is 770 characters | a 'hasi' block of 255 bytes | read the whole line, so any block the reader accepts (under 256 bytes) comes back | not executed | RoundTrip.HasiAsWrittenLosesLastByte | RoundTrip.HasiRoundTrip |
