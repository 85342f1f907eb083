# a2xx shader disassembler and program-dump helpers, in Dafny

This project models the core of the freedreno `util` disassembler for Adreno
a2xx shader microcode (`util/disasm.c`) and the section and byte helpers of the
program dumper (`util/pgmdump.c`).

A compiled a2xx shader begins with a control-flow (CF) program of 96-bit
groups. Each group holds two clauses. The number of groups is max(1, N),
where N is the first group's clause-A address, or its clause-B address when
that is zero; later groups' addresses do not count. After the CF program
come the 96-bit instruction slots, each an ALU or a FETCH instruction. `disasm` parses the clauses into a 64-entry table
(`parse_cf`). It then prints a header for each clause (`print_cf`). For clauses
whose opcode executes instructions (EXEC, EXEC_END) it decodes `cnt` slots from
address `addr` on. Two bits of the clause's sequence field per slot pick FETCH
or ALU, and the sync mark `(S)`.

The modules follow the source:

- `Base`: words, bytes, `Option`/`Result`, and the shift and field arithmetic.
- `Numerals`: the decimal and hexadecimal digits of `%u`/`%d`/`%x`, and reading them back.
- `Layout`: the `levels` indentation table and the sync marker.
- `OpTables`: `vector_instructions`, `scalar_instructions`, `fetch_instructions`, `fetch_types` and `cf_instructions`.
- `Operands`: `print_srcreg`, `print_dstreg`, `print_export_comment`.
- `Alu`: `disasm_alu`, over the already-extracted fields of a slot.
- `Fetch`: `disasm_fetch`, including its bit extraction.
- `ControlFlow`: `parse_cf` (an imperative loop over an `array` clause table) and `print_cf`.
- `Dispatch`: `disasm`, as the stream of events (clause headers and decoded slots) it produces, plus the text those events render to.
- `PgmDump`:
  - `find_sect_end` and `next_sect` (a `SectionCursor` class holding the fields `buf`/`sz` of `struct state`);
  - `clean_ascii` (in place on an `array`), `dump_ascii` and `is_ok_ascii`;
  - `valid_type`, `is_uniform_v2` and `check_extension`, with the input classification that uses it.

Printed lines are modelled as strings without their trailing newline. A
`Result` error stands for every path on which the source would read out of
bounds: a vector opcode without a name, fetch opcode 0x1f, CF opcode 0xff, a
CF program longer than the buffer or than 64 clauses, a slot past the end of
the buffer. The model reports one error per listing. A parse error, or a CF
opcode past the table in any clause, is reported before any slot or decoder
error. Among slot and decoder errors, the first in event order is reported.

### Behaviour of the code worth knowing

- A clause header is `levels[level]` followed by the format text. There is no `CF:` prefix.
- `levels` has 15 entries: one to nine tabs, then `"x"` for levels 9 to 14 (util/disasm.c:37-53). The indent is therefore at least one tab, even at level 0.
- ALU and FETCH lines carry three spaces, then `(S)` or three more spaces, after the indent.
- A source swizzle of 0 prints nothing. A non-zero 8-bit swizzle never prints `.xyzw`, because channel `i` adds `i` to its two bits (proved: `Operands.NoIdentitySwizzle`).
- The destination mask is compared with 0xf as a whole value, so a mask with bits above bit 3 still prints its low four channels.
- Fetch opcodes other than VERTEX (0) and SAMPLE (1) print `OP(n)`, except 0x1f. That one indexes one past the 0x1f-entry `fetch_instructions`; the model makes it an error.
- A VERTEX fetch prints one source channel. The layout comment at util/disasm.c:295-309 shows three.
- The decoders are partial: each path on which the source reads out of bounds is an error.
- The fetch opcodes VERTEX = 0 and SAMPLE = 1 come from `enum fetch_opc` (util/disasm.c:372-375).

## Model

| member | source | states |
|---|---|---|
| Numerals.ValueOfDigits | util/disasm.c:77 | the digits printed for a number, in any base from 2 to 16, read back to that number |
| Numerals.DigitsInjective | util/disasm.c:77 | different numbers print different digit strings |
| Numerals.DigitRoundTrip | util/disasm.c:77 | every digit character reads back to its value |
| OpTables.Lookup | util/disasm.c:127-214 | the entry found is that of the last initializer under the key, and a missing key means no initializer has it |
| OpTables.LookupDistinct | util/disasm.c:127-214 | with distinct enumerator values, every initializer is the one read back |
| OpTables.VectorArities | util/disasm.c:127-161 | every vector operation takes one to three sources, and exactly MULADDv and DOT2ADDv take three |
| OpTables.FetchOpName | util/disasm.c:377-384 | only opcodes VERTEX and SAMPLE have a name in `fetch_instructions` |
| OpTables.CfOp | util/disasm.c:486-497 | every CF format has at most two `%x` conversions, so `addr` and `cnt` suffice |
| OpTables.ExecOps | util/disasm.c:486-497 | exactly EXEC (0x10) and EXEC_END (0x20) execute instruction slots |
| Operands.PrintSwizzle | util/disasm.c:78-85 | the swizzle loop prints `chan_names[((swiz >> 2i) + i) & 3]` for channels 0 to 3 |
| Operands.PrintSrcReg | util/disasm.c:70-88 | prints the source operand text: sign, abs bars, bank letter, register, swizzle when non-zero |
| Operands.SrcTextShape | util/disasm.c:70-88 | the operand text starts with `-` exactly when negated and ends with a bar exactly when abs is set; the bank letter follows the modifiers; the text holds a `.` exactly when the swizzle is non-zero |
| Operands.SwizzleRecovers | util/disasm.c:78-85 | the four printed channels determine the low eight bits of the swizzle |
| Operands.NoIdentitySwizzle | util/disasm.c:78-85 | no 8-bit swizzle prints as `xyzw` |
| Operands.PrintDstReg | util/disasm.c:90-101 | prints `export`/`R`, the register, and the mask channels unless the mask is 0xf |
| Operands.MaskRecovers | util/disasm.c:93-100 | the printed mask channels determine the low four bits of the mask |
| Operands.DstSuffix | util/disasm.c:90-101 | the destination text has a `.` channel suffix exactly when the mask is not 0xf |
| Operands.ExportComment | util/disasm.c:103-125 | a comment appears only for vertex registers 62/63 and fragment register 0, and it is `\t; gl_Position`, `\t; gl_PointSize` or `\t; gl_FragColor` respectively |
| Alu.Condition | util/disasm.c:229-234 | a condition suffix appears exactly when bit 1 of pred_select is set, and it is EQ exactly when bit 0 is set |
| Alu.DecodeAlu | util/disasm.c:216-282 | decoding fails exactly for an unnamed vector opcode; the vector mnemonic is the table's, and a scalar operation is present exactly when the scalar mask is non-zero or the vector mask is zero |
| Alu.DecodeAluOperands | util/disasm.c:240-253 | the vector operation prints as many sources as its arity; src3 comes first only for three sources and src2 comes last when there is more than one; the scalar operation reads src3 |
| Alu.ScalarFallbackRecovers | util/disasm.c:265-269 | an unnamed scalar opcode prints `OP(n)`, from which `n` reads back |
| Alu.ScalarMnemonicRegistered | util/disasm.c:162-214 | with distinct opcode values, every named scalar opcode prints its own name |
| Alu.DisasmAlu | util/disasm.c:216-282 | the slot fails exactly for an unnamed vector opcode, and otherwise prints two lines when it has a scalar operation and one when it does not |
| Alu.AddvExample | util/disasm.c:216-258 | an ADDv slot with full write mask, sources C0 and R1 and no scalar half prints exactly `\t      ALU:\tADDv\tR0 = C0, R1` |
| Alu.AluLineHeads | util/disasm.c:220-270 | the first line opens with indent, sync mark, `ALU:` and the table's vector mnemonic; the second opens with the indent and the scalar mnemonic |
| Fetch.DecodeFetch | util/disasm.c:409-449 | every decoded field lies within its width, and the VERTEX fields are present exactly for the VERTEX opcode |
| Fetch.DecodeEncodeFetch | util/disasm.c:409-449 | decoding the words of any well-formed fetch gives that fetch back |
| Fetch.PrintDstSwizzle | util/disasm.c:428-432 | the destination loop prints `chan_names[(dst_swiz >> 3i) & 7]` for channels 0 to 3 |
| Fetch.DstSwizzleRecovers | util/disasm.c:428-432 | the printed destination channels determine the twelve-bit swizzle |
| Fetch.PrintSampleSwizzle | util/disasm.c:449-454 | the SAMPLE loop prints three channels of two bits each |
| Fetch.FetchLine | util/disasm.c:407-460 | the line fails exactly for opcode 0x1f, and otherwise ends with ` CONST(<const index in decimal>)` |
| Fetch.DisasmFetch | util/disasm.c:407-460 | the imperative decoder prints the line of the decoded fields |
| Fetch.FetchMnemonics | util/disasm.c:422-426 | VERTEX and SAMPLE print their names; every other opcode below 0x1f prints `OP(n)`, from which `n` reads back |
| Fetch.FormatFallbackRecovers | util/disasm.c:441-445 | an unnamed format prints `TYPE(0x..)`, from which the format reads back |
| Fetch.VertexFetchExample | util/disasm.c:407-460 | the VERTEX fetch of R0.x into R2.xyz1, FMT_32_32_32_FLOAT, signed, stride 12, constant 4 prints exactly that line |
| ControlFlow.ClauseA | util/disasm.c:538-541 | the first clause of a group has its fields within their widths |
| ControlFlow.ClauseB | util/disasm.c:542-545 | the second clause of a group has its fields within their widths |
| ControlFlow.GroupCount | util/disasm.c:547-548 | the do-while reads at least one group and fewer than 0x1000 |
| ControlFlow.StoreGroup | util/disasm.c:550-562 | the two stores of a group fill entries idx and idx+1 and nothing else |
| ControlFlow.ParseCf | util/disasm.c:531-569 | the loop fills the table with the clauses of max(1, N) groups, where N is the first group's clause-A address, or its clause-B address when that is zero,, two per group in order, and returns their number; a truncated buffer or an overflowing table is an error that writes nothing |
| ControlFlow.ParsedCount | util/disasm.c:547-566 | a successful parse has two clauses per announced group, within the buffer and the table |
| ControlFlow.ClausesAt | util/disasm.c:550-562 | clauses 2k and 2k+1 come from the words of group k |
| ControlFlow.ClausesIgnoreTail | util/disasm.c:531-569 | words after the CF program do not change the parsed clauses |
| ControlFlow.CountFromFirstGroup | util/disasm.c:547-548 | only the first group's words decide the count |
| ControlFlow.ThreeGroupFixture | util/disasm.c:531-569 | a buffer whose first address is 3 parses as six clauses |
| ControlFlow.DecodeGroup | util/disasm.c:538-545 | the parser reads both clauses of an encoded group back |
| ControlFlow.ParseEncodedProgram | util/disasm.c:531-569 | parsing an encoded CF program whose first group announces its length gives back its clauses, whatever follows |
| ControlFlow.CfText | util/disasm.c:512-529 | the header fails exactly for opcode 0xff, past the 0xff-entry table |
| ControlFlow.TableHeaders | util/disasm.c:491-495 | at every level, NOP, EXEC, EXEC_END and the two ALLOC formats print the indent and the literal text with addr and cnt in hex |
| ControlFlow.FallbackInjective | util/disasm.c:525-526 | the `CF(0x..) ADDR(0x..) CNT(0x..)` fallback determines opcode, address and count |
| Dispatch.ClauseSlots | util/disasm.c:594-602 | the slot loop emits slot i at word 3(addr + i), FETCH when sequence bit 2i is set, sync from bit 2i+1 |
| Dispatch.SlotEvents | util/disasm.c:594-602 | a clause's first n slots are n events, each the slot its index selects |
| Dispatch.Disasm | util/disasm.c:578-607 | the dispatcher produces the event stream of the parsed clauses, or the parse or table error |
| Dispatch.HeadersInOrder | util/disasm.c:586-591 | every parsed clause gets exactly one header, in clause order |
| Dispatch.NonExecClause | util/disasm.c:593 | a clause whose opcode is not EXEC or EXEC_END prints its header and nothing else |
| Dispatch.DispatchReplaysSlots | util/disasm.c:594-602 | a clause whose sequence packs a list of (FETCH?, sync?) pairs dispatches exactly that list |
| Dispatch.ExecExample | util/disasm.c:594-602 | an EXEC clause of two slots with sequence 0b0100 yields an ALU slot, then a FETCH slot, neither synced |
| Dispatch.EventsInTable | util/disasm.c:591 | no event of the dispatcher carries a CF opcode past the table |
| Dispatch.SlotLines | util/disasm.c:595-600 | a slot inside the buffer fails exactly for FETCH opcode 0x1f or an unnamed vector opcode, and otherwise prints the `disasm_fetch` line of the decoded FETCH slot or the `disasm_alu` lines of the ALU slot: two lines with a scalar operation, one otherwise |
| Dispatch.EventLines | util/disasm.c:591-600 | an event fails exactly when `EventFails` holds (header past the table, slot past the buffer, or a slot its decoder rejects); a header prints the `print_cf` line; every event prints one or two lines |
| Dispatch.ListingFirstError | util/disasm.c:586-602 | an incomplete listing reports the error of its first event that cannot be printed |
| Dispatch.Listing | util/disasm.c:586-604 | a run of events prints completely exactly when no event fails, and then prints between one and two lines per event |
| Dispatch.ListingSplit | util/disasm.c:586-604 | a complete listing of two runs is the lines of the first followed by those of the second |
| Dispatch.ListingPrefix | util/disasm.c:586-604 | in a complete listing, the lines of events before `i` come first, followed directly by the lines of event `i` |
| Dispatch.HeaderLine | util/disasm.c:587-591 | the header of event `i` is the `print_cf` line, placed right after the lines of the events before it |
| Dispatch.LinesBeforeGrow | util/disasm.c:586-604 | later events start at later lines, so headers appear in event order |
| Dispatch.DisasmListing | util/disasm.c:578-607 | the listing fails in dispatch exactly when the dispatcher does, with its error; after a successful dispatch it fails exactly when some slot runs past the buffer or its decoder rejects it; a complete listing has between one and two lines per event |
| Dispatch.DisasmHeaderLine | util/disasm.c:586-591 | in the listing of a buffer, the header of clause event `i` is its `print_cf` line, right after the lines of the events before it |
| Dispatch.ListingInRange | util/disasm.c:595-600 | a complete listing decoded only slots inside the buffer |
| PgmDump.Le32Bytes | util/pgmdump.c:165-170 | the little-endian word gives back its four bytes |
| PgmDump.MarkerIsBytes | util/pgmdump.c:165-173 | a marker word is exactly the bytes 11 ba 5e ba |
| PgmDump.FindSectEnd | util/pgmdump.c:159-178 | returns the first offset where a marker starts, and nothing exactly when no marker starts anywhere |
| PgmDump.FirstMarkerEndsSection | util/pgmdump.c:159-178 | a section without a 0x11 byte, followed by the marker, ends exactly at the marker |
| PgmDump.SectionCursor.constructor | util/pgmdump.c:143-145 | a cursor starts at the first byte with the whole file remaining |
| PgmDump.SectionCursor.NextSect | util/pgmdump.c:333-347 | the section is the bytes before the first marker; the cursor moves past the marker and `sz` drops by the section size plus 4 |
| PgmDump.CleanAscii | util/pgmdump.c:256-263 | complements the `sz` bytes from `start` in place and leaves the rest of the buffer alone |
| PgmDump.CleanTwice | util/pgmdump.c:256-263 | cleaning a range twice restores it |
| PgmDump.CleanChangesRange | util/pgmdump.c:256-263 | cleaning changes exactly the bytes of its range |
| PgmDump.FlipIsXor | util/pgmdump.c:261 | the byte complement inverts each of the eight bits, as `^= 0xff` does |
| PgmDump.DumpAscii | util/pgmdump.c:265-283 | prints a tab, one glyph per byte after undoing the complement, and a newline |
| PgmDump.GlyphsPrintable | util/pgmdump.c:253-254 | whatever the bytes, the dump holds no control character except newline and tab |
| PgmDump.PlainNameDumps | util/pgmdump.c:270-280 | a stored name of ok-ASCII characters dumps as its own characters |
| PgmDump.BreakGlyphs | util/pgmdump.c:272-279 | a stored newline, a NUL, a control character, DEL, a non-ASCII byte and a tab print as a line break, the separator line, `?` three times, and a tab |
| PgmDump.ValidTypeByte | util/pgmdump.c:350-358 | a section's type word is valid exactly when its second byte is 0x8b or 0x14 |
| PgmDump.ExtensionIsSuffix | util/pgmdump.c:863-866 | the extension check holds exactly when the path is some stem followed by the extension |
| PgmDump.ClassifyInput | util/pgmdump.c:923-946 | an accepted input has the extension of the table entry it picks; an unknown extension matches no entry |
| PgmDump.ExtensionsExclusive | util/pgmdump.c:923-940 | a path has at most one of the extensions, so the order of the tests does not matter |
| PgmDump.ClassifyByExtension | util/pgmdump.c:923-942 | `<stem><ext>`, for any stem including the empty one, is read as ext says: .rd a capture, .vo/.fo a2xx vertex/fragment, .vo3/.fo3/.co3 a3xx vertex/fragment/compute |
| PgmDump.UniformV2Bytes | util/pgmdump.c:367-373 | a uniform record has the second layout exactly when the four bytes at offset 40 are zero |

## Left out

- Output order on failure: the source prints a line piece by piece, meets its undefined reads in clause order and carries on past them. The model returns a single error and no partial text. A CF opcode past the table in a later clause is reported ahead of a slot error in an earlier clause, although the source reaches the slot first.
- `PRINT_RAW` debug output (raw words before each line): a debug mode that does not change the listing.
- `printf(name)` with a mnemonic as the format string: no mnemonic contains `%`, so it prints the name.
- The 32-bit layout of `instr_alu_t` (in `fdre/asm/instr.h`, which is not part of this model): `disasm_alu` is modelled from the extracted fields, and the listing takes the layout as a function parameter.
- The numeric values of the vector, scalar and format enumerators (from headers that are not part of this model): `OpTables.Encoding` supplies them. The CF opcodes are literal values in the source.
- `sizedwords`: `parse_cf` ignores it. The word sequence carries its own length.
- The whole-program orchestration of the dumper (`main`, the `dump_*` functions, the `while (!valid_type(...)) next_sect(...)` loop, the offsets at which `clean_ascii` is called, `dump_hex`, float values): not part of this model.
- File reading and `read`/`calloc` in `main`: I/O. `PgmDump.ClassifyInput` covers only the extension tests.
- `malloc(ALIGN(sect_size, 4))` and `memcpy` in `next_sect`: the copy is a fresh sequence, so alignment and freeing do not arise.
- PgmDump.FindSectEnd: the source assembles the word with `ptr[3] << 24` on an `int`, which overflows for bytes of 0x80 and above. The model uses the mathematical value, which is what the comparison with 0xba5eba11 intends.
- PgmDump.SectionCursor.NextSect: requires a marker in the remaining bytes. The source never checks for one, and without one it would subtract a null pointer.
- PgmDump.CheckExtension: requires the path to be at least as long as the extension. The source reads before the path otherwise, and `ClassifyInput` returns `PathShorterThan` in that case.
- `strcmp` stopping at an embedded NUL in the path is not modelled: paths are sequences of characters.
- `iscntrl` and `isascii` are taken in the C locale.
