# CardOS 5 codec: a verified model

This project models the byte-level codec of OpenSC's CardOS 5 driver
(`src/libopensc/card-cardos5.c`) in Dafny and proves properties of it. The codec has four
parts:

- **The `buf_t` writer.** `Buffer.Buf` is a byte array filled front to back by
  `asn1_put_tag`, `asn1_put_tag0` and `asn1_put_tag1`, which write short-form records, and by
  `bertlv_put_tag`, which writes records with BER length octets (section 8.1.3 of ITU-T X.690).
- **The Access Rule List (ARL) codec.** `add_acl_tag` encodes one access rule. `parse_ef_arl`,
  `parse_df_arl` and `parse_arl` decode an ARL back into ACL entries, through the `ef_acl` and
  `df_acl` tables.
- **The File Control Parameter (FCP) builders.** `construct_ef_fcp`, `construct_df_fcp` and
  `construct_fcp` build the template CREATE FILE sends.
- **The EC signature re-encoder.** `extract_coordinate`, `get_point` and `encode_ec_sig` rewrite
  the card's raw `r || s` as the ECDSA-Sig-Value of section 2.2.3 of RFC 3279.

The form follows the C code. Each function that fills a buffer is a method on `Buf`, or a
method that takes one. Each such method is proved against a pure function that describes the
bytes it appends: `AclTag`, `RowsArl`, `EfArl`, `DfArl`, `EfFcp`, `DfFcp`, `FcpTemplate`,
`BerTlv` or `EcSig`. The decoding loops are methods proved against the recursive function
`Records`. Lemmas then relate these functions to one another:

- the decoders read back what the builders write;
- the length forms are minimal;
- the builders fail exactly when the card's rules could not be encoded or would not fit.

Modules and files:

| file | module | contents |
|---|---|---|
| types.dfy | Types | bytes, status codes, `Result`, `Option`, big-endian values |
| tlv.dfy | Tlv | short-form and BER records, their parsers, round trips |
| buffer.dfy | Buffer | `buf_t` and its writers |
| defs.dfy | Defs | tag constants, operations, methods, the two access-mode tables |
| acl.dfy | AclEncode | `add_acl_tag` |
| arl_decode.dfy | ArlDecode | `parse_ef_arl`, `parse_df_arl`, `parse_arl` |
| fcp.dfy | Fcp | `construct_ef_fcp`, `construct_df_fcp`, `construct_fcp` |
| round_trip.dfy | RoundTrip | the decoders read back the builders' rules |
| fcp_props.dfy | FcpProps | when the builders succeed, and how long the rules are |
| readback.dfy | Readback | whole FCP templates read back; the root directory's pattern |
| ec_sig.dfy | EcSig | `extract_coordinate`, `get_point`, `encode_ec_sig` |

`card-cardos5.h` is not part of this model. The tag constants in `Defs` use the ISO/IEC 7816-4
values their names stand for. The access-mode bytes and command headers are stand-ins. The
proofs depend only on these facts:

- the tags the decoder compares are distinct;
- each table's access-mode bytes are distinct and not 0xFF. This is `Defs.WellFormedTable`,
  which `Defs.TablesWellFormed` proves for both tables. No proof depends on the particular
  values;
- the lengths are 0 for the always, never and dummy records, 1 for the access-mode byte, PIN
  reference and qualifier, and 6 for the user-authentication template. Six is what
  `add_acl_tag` writes into its `crt` buffer.

Two details of the code that the model follows:

- On CardOS 5.0 the 4 extra bytes of a raw signature are 2 bytes after each coordinate
  (`extract_coordinate`, lines 943-948).
- The command-record skip in `parse_df_arl` is bounds-checked (`len < skip + 8`, line 318).
  `ArlDecode.Records` models that check.

## Model

| member | source | states |
|---|---|---|
| Buffer.Buf.Init | src/libopensc/card-cardos5.c:98-104 | buf_init: a cursor at the start of the array, nothing written, room for the whole array. |
| Buffer.Buf.PutTag | src/libopensc/card-cardos5.c:106-120 | asn1_put_tag succeeds exactly when the content is under 0x80 bytes and tag, length byte and content fit. It then appends exactly that record and advances `bytes_used` by content + 2. On failure the buffer and cursor are untouched. |
| Buffer.Buf.PutTag0 | src/libopensc/card-cardos5.c:122-126 | asn1_put_tag0 appends `tag 00` exactly when two bytes are free. |
| Buffer.Buf.PutTag1 | src/libopensc/card-cardos5.c:128-134 | asn1_put_tag1 appends `tag 01 value` exactly when three bytes are free. |
| Buffer.Buf.PutBerTlv | src/libopensc/card-cardos5.c:171-208 | bertlv_put_tag refuses content over 0xFFFF bytes without writing anything. Otherwise it succeeds exactly when the whole BER record fits, and then appends tag, minimal length octets and content. On failure it leaves the tag, or the tag and length octets, whatever fitted before the failing test. Bytes past the cursor are never touched. |
| Buffer.Buf.PutBerHeader | src/libopensc/card-cardos5.c:174-198 | The tag and one of the three length forms, each with its own room test. It succeeds exactly when the header fits, and then appends `BerHeader`. |
| Buffer.ContentCheckAsWrittenIneffective | src/libopensc/card-cardos5.c:200-201 | The content test as written (`bytes_used - size < length` on 64-bit size_t) never refuses while room is left. |
| Buffer.ContentCheckAsWrittenOverflow | src/libopensc/card-cardos5.c:200-205 | Concrete case: 2 bytes used of 64 and 70 content bytes pass the test as written, although only 62 bytes are free. |
| Tlv.BerLengthRoundTrip | src/libopensc/card-cardos5.c:179-197 | The length octets read back, under X.690 section 8.1.3, as the length they encode, whatever follows them. |
| Tlv.BerLengthMinimal | src/libopensc/card-cardos5.c:179-197 | No definite-form encoding of a length is shorter than the one the corrected writer uses. |
| Tlv.BerLengthAsWrittenNotMinimal | src/libopensc/card-cardos5.c:185 | With the test `length < 0xFF` as written, 0xFF becomes `82 00 FF`. That is decodable but one byte longer than `81 FF`. Every other length is unaffected. |
| Tlv.BerTlvRoundTrip | src/libopensc/card-cardos5.c:171-208 | A record bertlv_put_tag writes parses back as its tag and content, leaving what follows. |
| Tlv.EncodeFieldsRoundTrip | src/libopensc/card-cardos5.c:106-120 | Short-form records written one after another parse back as the fields they were written from. |
| Tlv.EncodeFieldsAppend | src/libopensc/card-cardos5.c:106-120 | Writing two lists of records one after the other is writing their concatenation. |
| Defs.TablesWellFormed | src/libopensc/card-cardos5.c:31-55 | In each table the access-mode bytes are distinct and none is 0xFF. |
| AclEncode.KeyRefEncodableIff | src/libopensc/card-cardos5.c:155 | The template's test on the key reference (no backtrack bit, at most 0xFF) accepts exactly the references below 0x80. |
| AclEncode.AclTagDefined | src/libopensc/card-cardos5.c:137-169 | add_acl_tag can encode a rule exactly when the method is NONE or NEVER, or CHV, TERM or AUT with a reference below the backtrack bit. |
| AclEncode.AclTagShape | src/libopensc/card-cardos5.c:142-164 | The access-mode-byte record comes first exactly when the byte is not 0xFF. NONE gives a zero-length always record and NEVER a zero-length never record. CHV, TERM and AUT all give the same template, PIN reference then qualifier, USER_AUTH_LEN bytes long. |
| AclEncode.AddAclTag | src/libopensc/card-cardos5.c:137-169 | add_acl_tag succeeds exactly when the rule can be encoded and fits, and then appends it. On failure only the access-mode-byte record may stay behind, and only when it fitted. |
| AclEncode.PutCondition | src/libopensc/card-cardos5.c:146-167 | The `switch (ac)`: the condition record is written whole or not at all. |
| AclEncode.UserAuthContent | src/libopensc/card-cardos5.c:157-162 | The content built in `crt` is 6 bytes: PIN reference, then the user-authentication qualifier. |
| ArlDecode.RowOf | src/libopensc/card-cardos5.c:332-336 | The table search finds the first row with the record's access-mode byte, or reports that none has it. |
| ArlDecode.ParseRecords | src/libopensc/card-cardos5.c:311-386 | The record loop returns the status `Records` gives. On success it returns the entries passed to sc_file_add_acl_entry. |
| ArlDecode.ParseEfArl | src/libopensc/card-cardos5.c:389-457 | parse_ef_arl: the record loop over `ef_acl`, without command records. |
| ArlDecode.ParseDfArl | src/libopensc/card-cardos5.c:283-387 | parse_df_arl: for the root directory's 9-byte pattern, NONE for each mapped `df_acl` row in table order; otherwise the record loop with command records. |
| ArlDecode.ParseArl | src/libopensc/card-cardos5.c:459-471 | parse_arl dispatches on the file type. Any other type is INVALID_ARGUMENTS. |
| ArlDecode.RecordsAppend | src/libopensc/card-cardos5.c:311-386 | Records decode one after the other: a well-formed list followed by more bytes gives its entries followed by the decoding of the rest. |
| ArlDecode.TrailingBytesRejected | src/libopensc/card-cardos5.c:383-384 | One to four bytes after well-formed records make the whole ARL WRONG_LENGTH. |
| ArlDecode.UnknownAccessModeRejected | src/libopensc/card-cardos5.c:332-336 | A record whose access-mode byte is in no table row is NO_CARD_SUPPORT. |
| ArlDecode.UserAuthRecordMasked | src/libopensc/card-cardos5.c:355-370 | A user-authentication record is 11 bytes and decodes to CHV, with the reference's backtrack bit cleared, for every reference byte. |
| ArlDecode.RecordsDecoded | src/libopensc/card-cardos5.c:338-373 | Every decoded condition is NONE, NEVER or CHV with a reference below 0x80, in the form the encoder accepts. |
| ArlDecode.RecordsOps | src/libopensc/card-cardos5.c:375-380 | Every decoded entry's operation is the operation of some mapped table row. |
| Fcp.RowsArlPrefix | src/libopensc/card-cardos5.c:636-653 | The rules of a prefix of the rows are a prefix of the rules of all rows. |
| Fcp.RowsArlStepFails | src/libopensc/card-cardos5.c:648-652 | One rule that cannot be encoded, or does not fit, makes the whole list fail. |
| Fcp.AddRows | src/libopensc/card-cardos5.c:636-653 | The "Populate ARL" loop. It succeeds exactly when every row's rule (the file's entry, or NEVER) can be encoded and all of them fit, and then appends `RowsArl`. On failure, for some row k, the rules of the rows before k stay, followed by row k's access-mode record when it fitted. |
| Fcp.PutCommandAlways | src/libopensc/card-cardos5.c:655-689 | A command record followed by a zero-length always record, appended exactly when both fit. On failure either nothing or only the command record was appended. |
| Fcp.PutPutDataRule | src/libopensc/card-cardos5.c:623-634 | The PUT DATA command record and its condition, written only when the DF has an UPDATE entry. On failure either nothing or only the command record was appended. |
| Fcp.PutDfTrailer | src/libopensc/card-cardos5.c:655-689 | The three fixed rules (phase control, accumulate new, accumulate append), appended in that order, whatever the ACL. On failure what stays is a prefix of them. |
| Fcp.PutDfArl | src/libopensc/card-cardos5.c:619-689 | The ARL part of construct_df_fcp appends `DfArl` exactly when it exists and fits. On failure nothing earlier is removed. |
| Fcp.EfFcpShape | src/libopensc/card-cardos5.c:707-753 | Past its argument checks, construct_ef_fcp fails only with BUFFER_TOO_SMALL, and otherwise writes header and rules (11 + rules bytes). |
| Fcp.DfFcpShape | src/libopensc/card-cardos5.c:601-694 | Past the size check, construct_df_fcp fails only with BUFFER_TOO_SMALL, and otherwise writes header and rules. |
| Fcp.PutEfHeader | src/libopensc/card-cardos5.c:717-725 | The 9-byte EF header is appended exactly when it fits. On failure what was appended is a prefix of the header. |
| Fcp.PutDfHeader | src/libopensc/card-cardos5.c:606-619 | The DF header is appended exactly when the name is under 0x80 bytes and the header fits. Earlier contents are never removed, and for a name under 0x80 bytes what was appended is a prefix of the header. |
| Fcp.ConstructEfFcp | src/libopensc/card-cardos5.c:699-755 | construct_ef_fcp returns NOT_SUPPORTED for a non-transparent EF, and INVALID_ARGUMENTS for a size over 0xFFFF, both before writing anything. Otherwise it returns BUFFER_TOO_SMALL, having appended at most a prefix of the 9-byte header (the rules are built in a separate buffer), or appends `EfFcp`. |
| Fcp.ConstructDfFcp | src/libopensc/card-cardos5.c:591-697 | construct_df_fcp returns INVALID_ARGUMENTS for a size over 0xFFFF before writing anything. Otherwise it returns BUFFER_TOO_SMALL or appends `DfFcp`. Earlier contents are never removed, and on BUFFER_TOO_SMALL with a name under 0x80 bytes what was appended is a prefix of the header (the rules are built in a separate buffer). |
| Fcp.ConstructFcp | src/libopensc/card-cardos5.c:757-803 | construct_fcp returns NOT_SUPPORTED for other file types. Otherwise it returns the builder's error, or INVALID_ARGUMENTS for an id outside 0..0xFFFF, or BUFFER_TOO_SMALL, or appends `FcpTemplate`. The caller's buffer changes only on success. |
| FcpProps.RowsArlDefined | src/libopensc/card-cardos5.c:636-653 | The rows' rules exist exactly when every row's condition can be encoded. |
| FcpProps.RowsArlLength | src/libopensc/card-cardos5.c:636-653 | The rules are 5 bytes per NONE/NEVER row and 11 per PIN row, and at most `MaxRulesLength`. |
| FcpProps.RulesLengthAllPins | src/libopensc/card-cardos5.c:636-653 | With every mapped row guarded by a PIN, the rules reach their longest. |
| FcpProps.EfMaxRulesLength | src/libopensc/card-cardos5.c:31-41 | The EF rules are at most 81 bytes. |
| FcpProps.DfMaxRulesLength | src/libopensc/card-cardos5.c:43-55 | The DF rows' rules are at most 103 bytes. |
| FcpProps.EfArlDefined | src/libopensc/card-cardos5.c:729-747 | An EF's rules exist exactly when each of its entries, other than CREATE, can be encoded. |
| FcpProps.DfArlDefined | src/libopensc/card-cardos5.c:621-653 | A DF's rules exist exactly when each of its entries, other than WRITE and READ, can be encoded. |
| FcpProps.EfArlFits | src/libopensc/card-cardos5.c:703 | An EF's rules always fit the 96-byte `arl_buf`. |
| FcpProps.EfFcpDefined | src/libopensc/card-cardos5.c:699-803 | For a working EF, construct_fcp's template exists exactly when the EF is transparent, size and id fit 16 bits and the entries can be encoded. Its errors are NOT_SUPPORTED, INVALID_ARGUMENTS or BUFFER_TOO_SMALL, and the template is at most 98 bytes. |
| FcpProps.EfConstructSucceeds | src/libopensc/card-cardos5.c:757-803 | For a working EF, construct_fcp's status (`Outcome` of the template and the caller's free room, as `ConstructFcp` ensures) is success only under those conditions. With at least 98 bytes free it is success exactly under them; with less it can also be BUFFER_TOO_SMALL (lines 797-799). |
| FcpProps.DfArlLength | src/libopensc/card-cardos5.c:621-689 | A DF's rules are the PUT DATA rule, the rows' rules and 24 bytes of fixed rules, 141 bytes at most. |
| FcpProps.DfAllPinsTooLong | src/libopensc/card-cardos5.c:691-694 | A DF with every operation guarded by a PIN has 141 bytes of rules, too long for a short-form record, so construct_df_fcp fails with BUFFER_TOO_SMALL. |
| FcpProps.RowsArlTruncated | src/libopensc/card-cardos5.c:739 | Truncating key references to 8 bits changes no rule that could be encoded without the truncation. |
| FcpProps.EfArlAsWrittenAgrees | src/libopensc/card-cardos5.c:739 | The EF rules with the cast as written equal the corrected rules whenever the corrected ones exist. |
| RoundTrip.PlainRuleRecord | src/libopensc/card-cardos5.c:146-150 | A NONE or NEVER rule is one 5-byte record for its row. |
| RoundTrip.PinRuleRecord | src/libopensc/card-cardos5.c:151-164 | A CHV, TERM or AUT rule is one 11-byte record for its row. |
| RoundTrip.RuleDecodes | src/libopensc/card-cardos5.c:328-380 | One rule decodes to its row's entry in decoded form, whatever follows it. |
| RoundTrip.CommandRuleSkipped | src/libopensc/card-cardos5.c:313-325 | The PUT DATA command record and its condition add no entry when decoded. |
| RoundTrip.CommandAlwaysSkipped | src/libopensc/card-cardos5.c:313-325 | An always-allowed command record adds no entry when decoded. |
| RoundTrip.RowsDecode | src/libopensc/card-cardos5.c:636-653 | The rules of the first k rows decode to those rows' entries, whatever follows. |
| RoundTrip.EfRoundTrip | src/libopensc/card-cardos5.c:729-747 | Whatever the builder writes for an EF, parse_ef_arl reads back as each mapped row's entry in decoded form. |
| RoundTrip.DfRoundTrip | src/libopensc/card-cardos5.c:621-689 | Whatever the builder writes for a DF, parse_df_arl reads back as each mapped row's entry in decoded form. The command records add nothing. |
| RoundTrip.ExpectedEf | src/libopensc/card-cardos5.c:31-41 | An EF's rules decode to DELETE, REHABILITATE, INVALIDATE, WRITE, UPDATE and READ in table order, each with the file's entry (TERM and AUT read back as CHV) or NEVER. |
| RoundTrip.ExpectedDf | src/libopensc/card-cardos5.c:43-55 | A DF's rules decode to DELETE, REHABILITATE, INVALIDATE, CREATE three times, UPDATE, then CREATE again, in table order, each with the file's entry or NEVER. |
| Readback.AllowAllIsExpected | src/libopensc/card-cardos5.c:299-309 | The root directory's entries are what a DF open to everyone decodes to. |
| Readback.RootSentinelAllowsAll | src/libopensc/card-cardos5.c:297-309 | The root directory's pattern decodes like the rules of a DF open to everyone: NONE for each operation in table order, whatever bytes 0 to 4 are. |
| Readback.EfKeyRefTruncated | src/libopensc/card-cardos5.c:739 | READ guarded by reference 0x101 is refused by the corrected builder. With the cast as written it is encoded as READ guarded by PIN 1, and read back that way. |
| Readback.FcpTemplateReadsBack | src/libopensc/card-cardos5.c:792-800 | construct_fcp's output parses as one FCP template holding the body, then the file identifier. |
| Readback.EfFcpReadsBack | src/libopensc/card-cardos5.c:699-803 | An EF's template parses as binary-EF descriptor, size, empty short file identifier, rules and file id. Size and id read back as the file's, and the rules decode to its entries. |
| Readback.DfFcpReadsBack | src/libopensc/card-cardos5.c:591-803 | A DF's template parses as DF descriptor, size, the name when there is one, rules and file id. Size, name and id are the file's, and the rules decode to its entries. |
| EcSig.IntegerContentCorrect | src/libopensc/card-cardos5.c:913-938 | The corrected INTEGER is DER-minimal and non-negative, and has the coordinate's unsigned value (X.690 sections 8.3.2 and 8.3.3). |
| EcSig.CoordinateAsWrittenValue | src/libopensc/card-cardos5.c:913-938 | The INTEGER as written has the right length byte and value and is non-negative. |
| EcSig.CoordinateAsWrittenNotMinimal | src/libopensc/card-cardos5.c:913-938 | As written, the coordinate `00 01` becomes `02 02 00 01`, which is not DER. The corrected encoding is `02 01 01`. |
| EcSig.EcSigReadsBack | src/libopensc/card-cardos5.c:953-978 | The output parses as one SEQUENCE of two INTEGERs, each DER-minimal and equal to its coordinate. |
| EcSig.EcSigFits | src/libopensc/card-cardos5.c:980-1043 | A buffer ten bytes longer than the raw signature always holds the encoding. |
| EcSig.EcSigTooSmallExample | src/libopensc/card-cardos5.c:1028-1031 | A 64-byte CardOS 5.3 signature with both top bits set needs 72 bytes, so it is BUFFER_TOO_SMALL in a 64-byte buffer. The content test as written would let those 70 content bytes through. |
| EcSig.SkipZeros | src/libopensc/card-cardos5.c:913-938 | The first significant byte of a coordinate: what lies between it and the end is the coordinate without its leading zeros. |
| EcSig.ExtractCoordinate | src/libopensc/card-cardos5.c:906-951 | BUFFER_TOO_SMALL when the input runs out or raw_len is 127 or more, and on CardOS 5.0 when the 2 bytes after the coordinate are missing. Otherwise it returns the coordinate's DER INTEGER and advances the cursor past the coordinate and its gap. On failure the cursor stays, except when only the CardOS 5.0 gap was missing: then it has moved past the coordinate. |
| EcSig.ExtractCoordinates | src/libopensc/card-cardos5.c:1022-1026 | X then Y: X from the start, Y after X and its gap. Both succeed exactly when raw_len is below 127. |
| EcSig.GetPoint | src/libopensc/card-cardos5.c:953-978 | INVALID_ARGUMENTS exactly when the point exceeds 0xFFFF bytes, and then nothing is written. Otherwise bertlv_put_tag's outcome, with BUFFER_TOO_SMALL and the partial header when it does not fit. |
| EcSig.CopyAndClear | src/libopensc/card-cardos5.c:1012-1013 | A fresh copy of the raw signature is taken, then the whole buffer is zeroed. |
| EcSig.WritePoint | src/libopensc/card-cardos5.c:1028-1035 | Over the zeroed buffer: the sequence from the start, or what fitted of its header, then zeros. The byte count is returned. |
| EcSig.ReadPoint | src/libopensc/card-cardos5.c:1012-1026 | The buffer is zeroed, and the two INTEGERs are those of the raw signature. |
| EcSig.Reencode | src/libopensc/card-cardos5.c:1005-1043 | After the argument checks: the result is `EcSig`, and on failure the buffer holds `Leftover`. |
| EcSig.EncodeEcSig | src/libopensc/card-cardos5.c:980-1043 | encode_ec_sig returns INVALID_ARGUMENTS for siglen under 4, odd, over the buffer, or an unknown card, and leaves the buffer alone. Each coordinate is (siglen-4)/2 bytes on CardOS 5.0 and siglen/2 on 5.3. On success the buffer holds the DER signature, zeros follow, and the count written is returned. On BUFFER_TOO_SMALL it holds zeros behind what fitted of the header. |

## Left out

- Card transport: APDUs, file selection and creation, key generation, signing and PIN
  commands. These are I/O against the card.
- Driver registration, ATR matching, `cardos5_process_fci`, logging and the `cse_algorithm`
  state. These are library dispatch or code that is not shown.
- `card-cardos5.h` is not part of this model. Its constants are stand-ins, as described above.
- `sc_asn1_put_tag` is not part of this model. It is taken to write tag, one length byte and
  content, and to fail, writing nothing, when the content is 0x80 bytes or more or the record
  does not fit.
- `sc_file_get_acl_entry` and `sc_file_add_acl_entry` are not part of this model. The builders
  read the file's ACL as a map from operation to condition. The decoders return the list of
  entries they add. A failure of `sc_file_add_acl_entry` is not modelled.
- OUT_OF_MEMORY from `calloc`, and `free`: allocation cannot fail in Dafny and memory is not
  managed. So "every allocation is freed on every path" is not stated.
- `size_t` and `int` are unbounded `nat` and `int`. Size checks that matter (16-bit sizes and
  ids, one-byte references, the 64-bit wrap of the content test) are written out.
- EcSig.ExtractCoordinate: decides on the padding byte from the first significant byte of the
  coordinate. The C code decides from `ptr[0]`, which for a zero-length coordinate is the byte
  after it. The model never reads that byte; the as-written choice is `EcSig.CoordinateAsWritten`.
- ArlDecode.ParseRecords: on an error the model returns the status and the entries added so
  far. The file with those entries is freed by the only caller.
- Fcp.PutDfArl: on failure it states only that the earlier contents stay, not which prefix of
  the rules was written. Its only caller writes into its own 128-byte buffer and drops it on
  failure (`Fcp.ConstructDfFcp` states what the caller's buffer then holds).

## Findings

| source | as written | input that shows it | evidently intended | confidence | as-written member | corrected member |
|---|---|---|---|---|---|---|
| src/libopensc/card-cardos5.c:200-201 | `bytes_used - size < length` on size_t wraps, so the test never refuses while room is left | 2 bytes used of a 64-byte buffer, 70 content bytes: the memcpy writes 8 bytes past the end (a 64-byte CardOS 5.3 signature with both top bits set) | refuse when `size - bytes_used < length` | high, not executed | Buffer.ContentCheckAsWritten (Buffer.ContentCheckAsWrittenIneffective, Buffer.ContentCheckAsWrittenOverflow) | Buffer.Buf.PutBerTlv (EcSig.EcSigTooSmallExample) |
| src/libopensc/card-cardos5.c:185 | `length < 0xFF` sends 0xFF to the three-octet form | length 0xFF is written `82 00 FF` | `length <= 0xFF`, giving `81 FF`, the minimal form | medium, not executed | Tlv.BerLengthAsWritten (Tlv.BerLengthAsWrittenNotMinimal) | Tlv.BerLength (Tlv.BerLengthMinimal) |
| src/libopensc/card-cardos5.c:739 | `(uint8_t)e->key_ref` truncates the EF key reference before add_acl_tag's range check | READ guarded by CHV 0x101 is written as READ guarded by PIN 1 | pass the reference unchanged, as construct_df_fcp does at line 645, so that add_acl_tag refuses it | medium, not executed | Fcp.EfArlAsWritten (Readback.EfKeyRefTruncated) | Fcp.EfArl (FcpProps.EfArlAsWrittenAgrees, RoundTrip.EfRoundTrip) |
| src/libopensc/card-cardos5.c:913-938 | leading zero bytes of a coordinate are kept | coordinate `00 01` becomes `02 02 00 01`, which DER (X.690 section 8.3.2) forbids | strip leading zeros before the sign test | medium, not executed | EcSig.CoordinateAsWritten (EcSig.CoordinateAsWrittenNotMinimal) | EcSig.ExtractCoordinate (EcSig.IntegerContentCorrect, EcSig.EcSigReadsBack) |
