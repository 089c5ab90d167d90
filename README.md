# bunny_oxide boot-code analyser, modelled in Dafny

bunny_oxide reads the boot header of a Nintendo 64 ROM image. It identifies the boot ROM (IPL3/CIC) by a
checksum and corrects the header's entrypoint for it. It then disassembles the boot code: a small MIPS
decoder plus a register-tracking pass recover where the game jumps to, where its BSS lies and how large it
is, and the initial stack pointer.

This project models that core and proves properties of it. Each module follows one source file.

- `Mips` (`mips.dfy`) models src/mips/mod.rs. It has the register numbers, the opcode and function-code
  tables and the tagged `Instruction` type with its name/branch/jump table. `Disassemble` is
  `disassemble_word`. `MipsProofs` (`mips_proofs.dfy`) characterises the decoder field by field, which
  words are `unknown` or `invalid`, and the round trip with the standard MIPS encoding (`Encode`, the
  reference the decoder is checked against).
- `N64Header` (`n64header.dfy`) models src/n64header/mod.rs. It covers byte-order detection, the fixed
  0x40-byte big-endian header as a parse of a byte sequence (`HeaderAt`), and its inverse `EncodeHeader`.
  The `Reader` class stands for the `io::Read` cursor that `read_header` advances. It also has the
  accessors and the media-format and country-code tables.
- `Ipl3` (`ipl3.dfy`) models src/n64header/ipl3.rs: the six-entry CIC table, `name` and
  `correct_entrypoint`.
- `Entrypoint` (`entrypoint.dfy`) models src/n64header/entrypoint.rs.
  - `BytesToReendWord` reads one chunk in the image's byte order.
  - `Scan`/`Finish`/`Analyse` state what `parse` computes.
  - `Parse` is the loop itself, with the register file in an array, proved equal to `Analyse`.
  - `EntrypointProofs` (`entrypoint_proofs.dfy`) proves:
    - byte-order independence;
    - where the scan stops;
    - that the last writer wins for each recorded register;
    - the `addi` balance and register frames;
    - how the tracker's arithmetic relates to what the instructions compute on a MIPS processor.
- `Prototype` (`prototype.dfy`) models src/main.rs. This is the earlier standalone decoder and loop, and
  its fifteen-word `DATA` fixture, which is analysed end to end. `PrototypeProofs`
  (`prototype_proofs.dfy`) proves that on every word the prototype decodes without panicking, it agrees
  with the main decoder and with the tracking of `parse`.
- `Wrappers` holds `Option`/`Result`. `Uint` holds the `u32` range and its wrap-around (`Wrap`).

## How the code's behaviour is modelled

- Words are `bv32`, bytes `bv8`, and registers `bv5`, so the decoder's shifts and masks are the source's
  own. Tracked register values are `Uint.U32` (an integer range). Their `u32` `+`/`-` wrap modulo 2^32,
  as in a release build.
- Panics:
  - A decoder result `Err(invalid)` makes `parse` panic. In the model this is an `Err(word)` result of
    `Scan`/`Analyse`/`Parse`.
  - An unknown checksum in `get_from_crc` is `None`.
  - `get_endian` on a short or unknown prefix is a precondition. So is `media_format` on a value that is
    not a character.
  - The prototype decoder's `unwrap`s and `assert`s are the `Decodable` precondition, and for the loop
    `Runnable`.
  - A `read_exact` that runs out of input is `Err(UnexpectedEof)`, and the cursor ends at the end of the
    input.
- Quirks of the code kept as written:
  - The function code is `word & 0x1F`, so function 0x28 also reads as `jr`.
  - The `jr` "rd" check reads bits 14..10, so bit 15 and bits 9..5 go unchecked (`EncodeDecode`,
    `JrSpecimens`).
  - `beq` is named "bne" and `beqz` is named "bnez".
  - The tracker's `addiu` adds `(imm & 0x8000) << 1`, that is 0x10000 more when bit 15 is set, where
    MIPS sign-extends (`AddiuQuirk`).
  - `ori` is tracked as `+` (`OriIsOrOnClearLowHalf` shows when that equals OR).
- Running the prototype's loop over `DATA` gives jump 0x80025CC0, BSS start 0x8005E940,
  BSS size 0x5D50 and sp 0x8005F330 (`Prototype.DataResult`).

## Model

| member | source | states |
|---|---|---|
| Mips.GprFromIndex | src/mips/mod.rs:42-79 | a raw number is a register exactly when it is below 32, and the register's number is that value |
| Mips.RegisterField | src/mips/mod.rs:351-353 | a masked 5-bit field always converts to a register, the field's value |
| Mips.RegisterName | src/mips/mod.rs:92-135 | only register 0 is named "zero"; every other register has a two-letter name |
| Mips.ClobberedByFunc | src/mips/mod.rs:137-139 | a called function keeps `zero`, `s0`..`s7`, `k0`, `k1`, `gp` and `ra` and may change every other register, `sp` and `fp` included as the table marks them |
| Mips.OpFromCode | src/mips/mod.rs:157-172 | conversion of a raw opcode is the inverse of the opcode table: it finds the one opcode with that value, if any |
| Mips.FormatOf | src/mips/mod.rs:175-189 | `special` and `regimm` select their own formats, exactly `j` and `jal` the jump format, and every other opcode the immediate format |
| Mips.FuncFromCode | src/mips/mod.rs:192-197 | only function code 8 converts, to `jr` |
| Mips.Info | src/mips/mod.rs:274-299 | no instruction is flagged both as a branch and as a jump |
| Mips.Name | src/mips/mod.rs:301-303 | the name "bne" is reported exactly for `beq` and `bne`, "bnez" exactly for `beqz` and `bnez`, and "nop" exactly for `nop` |
| Mips.IsBranch | src/mips/mod.rs:305-307 | `is_branch` holds exactly for beq, bne, b, beqz and bnez, and never for a jump |
| Mips.IsJump | src/mips/mod.rs:309-311 | `is_jump` holds exactly for j, jal and jr |
| Mips.HasDelaySlot | src/mips/mod.rs:273-315 | `has_delay_slot` (branch or jump in the info table) holds exactly for j, jal, jr, beq, bne, b, beqz and bnez |
| Mips.Disassemble | src/mips/mod.rs:332-440 | the zero word is `nop`; errors are `invalid` with the word's opcode and the word; every `Ok` result has its fields in range (16-bit immediates, aligned 28-bit jump targets), `unknown` carries the word's opcode and the word, and every other result is in canonical branch form |
| Mips.DisassembleSpecial | src/mips/mod.rs:348-373 | the register-format arm keeps the decoder's promise (`DecodedFrom`) |
| Mips.DisassembleImmediate | src/mips/mod.rs:374-424 | the immediate-format arm keeps the decoder's promise |
| Mips.DisassembleJump | src/mips/mod.rs:425-437 | the jump-format arm keeps the decoder's promise |
| MipsProofs.DecodeEncode | src/mips/mod.rs:332-440 | decoding the MIPS encoding of any instruction the decoder can produce gives that instruction back |
| MipsProofs.EncodeDecode | src/mips/mod.rs:332-440 | encoding a decoded, non-unknown instruction gives the word back, except the bits `jr` does not check (mask 0xFFFF7C1F) |
| MipsProofs.UnknownOpcodes | src/mips/mod.rs:333-338 | opcodes outside the table, and `regimm`, decode to `unknown` with the opcode and the word |
| MipsProofs.UnknownExactly | src/mips/mod.rs:160-172 | a word is `Ok(unknown)` exactly when its opcode is not one of the eleven, or is `regimm`, or is a non-zero special word whose low five bits are not 8 |
| MipsProofs.InvalidExactly | src/mips/mod.rs:359-401 | a word is an error exactly when it is a `jr` with bits 20..16 or 14..10 set, or a `lui` with bits 25..21 set |
| MipsProofs.DecodeJr | src/mips/mod.rs:348-367 | function code 8 gives `jr` of bits 25..21 when bits 20..16 and 14..10 are clear, and `invalid` otherwise |
| MipsProofs.DecodeLui | src/mips/mod.rs:394-401 | `lui` keeps the unshifted immediate and needs a zero rs field, otherwise `invalid` |
| MipsProofs.DecodeBeq | src/mips/mod.rs:402-413 | `beq` becomes `b` when both registers are zero, `beqz` when only rt is, and stays `beq` otherwise |
| MipsProofs.DecodeBne | src/mips/mod.rs:414-421 | `bne` becomes `bnez` whenever rt is zero, even when rs is zero too |
| MipsProofs.SpecimenLui | src/mips/mod.rs:394-397 | 0x3C088004 decodes to `lui t0, 0x8004` |
| MipsProofs.SpecimenAdds | src/mips/mod.rs:381-386 | 0x2508E940 and 0x2129FFF8 decode to `addiu`/`addi` with unextended immediates |
| MipsProofs.SpecimenBnez | src/mips/mod.rs:414-417 | 0x1520FFFC decodes to `bnez t1` |
| MipsProofs.JrSpecimens | src/mips/mod.rs:348-367 | `jr t2` decodes with bit 15 set and fails with bit 10 set |
| MipsProofs.BeqNamedBne | src/mips/mod.rs:280-291 | `beq` is reported under the name "bne" and `beqz` under "bnez" |
| N64Header.GetEndian | src/n64header/mod.rs:18-25 | the byte order found is the one whose magic the first four bytes are |
| N64Header.GetEndianOfMagic | src/n64header/mod.rs:18-25 | each magic pattern identifies its own byte order, whatever follows it |
| N64Header.WordBytesRoundTrip | src/n64header/mod.rs:153-157 | reading four bytes big-endian and writing a word big-endian are inverses |
| N64Header.HeaderAt | src/n64header/mod.rs:149-186 | parsing succeeds exactly when 0x40 bytes are there, and gives fields of the fixed sizes |
| N64Header.HeaderRoundTrip | src/n64header/mod.rs:149-186 | parsing the stored form of any header gives it back, whatever follows it |
| N64Header.HeaderBytesRoundTrip | src/n64header/mod.rs:149-186 | storing a parsed header gives back exactly the 0x40 bytes it was read from |
| N64Header.Reader.ReadExact | src/n64header/mod.rs:151 | a read succeeds exactly when `n` bytes remain, gives them and advances by `n`; otherwise it fails with end-of-file and consumes the rest |
| N64Header.Reader.ReadU32 | src/n64header/mod.rs:153 | a big-endian word read succeeds exactly when four bytes remain and gives their big-endian value |
| N64Header.Reader.ReadU8 | src/n64header/mod.rs:168 | a byte read succeeds exactly when a byte remains and gives it |
| N64Header.ReadLeading | src/n64header/mod.rs:150-157 | the first six fields are the bytes and big-endian words at offsets 0x00..0x18 |
| N64Header.ReadTrailing | src/n64header/mod.rs:158-169 | the last seven fields are the bytes and big-endian word at offsets 0x18..0x40 |
| N64Header.ReadHeader | src/n64header/mod.rs:149-186 | `read_header` yields `HeaderAt` of the remaining input, consuming exactly 0x40 bytes on success and all input on failure |
| N64Header.AccessorsAt | src/n64header/mod.rs:77-108 | `entrypoint()` is the big-endian word at 0x08, `checksum()` the words at 0x10 and 0x14, and the libultra version is byte 0x0F |
| N64Header.Entrypoint | src/n64header/mod.rs:77-79 | `entrypoint()` is the word whose big-endian bytes the header stores at 0x08 |
| N64Header.Checksum | src/n64header/mod.rs:106-108 | `checksum()` is the pair of words whose big-endian bytes the header stores at 0x10 and 0x14 |
| N64Header.MediaFormat | src/n64header/mod.rs:92-95 | `media_format()` is the character with the stored value; the source's panic on a non-character is the precondition |
| N64Header.CharFromU32 | src/n64header/mod.rs:81-83 | `char::from_u32` succeeds exactly on Unicode scalar values, keeping the value |
| N64Header.LibultraVersion | src/n64header/mod.rs:81-83 | the libultra version is always present and is the low byte of the revision |
| N64Header.CountryCode | src/n64header/mod.rs:101-104 | the country code is the character with the byte's value (never fails) |
| N64Header.MediaFormatDescription | src/n64header/mod.rs:110-119 | a description exists exactly for N, D, C, E and Z; otherwise the fixed error |
| N64Header.CountryCodeDescription | src/n64header/mod.rs:121-146 | a description exists exactly for the 21 listed codes, '\0' among them; otherwise the fixed error |
| Ipl3.GetFromCrc | src/n64header/ipl3.rs:27-37 | a found entry has the checksum asked for and is in the table; nothing is found exactly for a checksum not in the table |
| Ipl3.ChecksumsDistinct | src/n64header/ipl3.rs:28-34 | the six checksums are pairwise distinct |
| Ipl3.GetFromCrcFindsEntry | src/n64header/ipl3.rs:27-37 | looking up any entry's checksum finds that entry |
| Ipl3.Name | src/n64header/ipl3.rs:39-48 | the PAL name when there is no NTSC name, the NTSC name when there is no PAL name, else "ntsc / pal" |
| Ipl3.KnownNames | src/n64header/ipl3.rs:29-34 | the names the six chips are reported under |
| Ipl3.CorrectEntrypoint | src/n64header/ipl3.rs:55-62 | an offset with bit 31 set is the result itself; otherwise result plus offset is the header entrypoint modulo 2^32, and is their difference when there is no underflow |
| Ipl3.CorrectionByChip | src/n64header/ipl3.rs:29-34 | only the 0xDAB442CD entry takes the absolute branch (0x80000480); exactly the three offset-0 entries keep the header entrypoint |
| Entrypoint.StoredOrder | src/n64header/entrypoint.rs:8-10 | the stored order of a 4-byte word is again four bytes |
| Entrypoint.BytesToReendWord | src/n64header/entrypoint.rs:5-11 | the word read is the one whose big-endian bytes are the chunk put back in native order (as is, reversed, or pair-swapped) |
| Entrypoint.Words | src/n64header/entrypoint.rs:30-31 | one word per complete 4-byte chunk, in order, each read in the image's byte order; a partial chunk is ignored |
| Entrypoint.Scan | src/n64header/entrypoint.rs:30-84 | an aborted scan names a word of the input that decodes to an error; conversely the first such word reached before a double zero aborts it (`EntrypointProofs.ScanAbortsAtFirstInvalid`) |
| Entrypoint.Track | src/n64header/entrypoint.rs:53-80 | one tracking step; what it does is stated by `EntrypointProofs.TrackFrame`, `TrackKeepsRegisters`, `FoldRecords`, `FoldBalance`, `LuiLoadsUpperHalf`, `AddiuQuirk` and `OriIsOrOnClearLowHalf` |
| Entrypoint.Analyse | src/n64header/entrypoint.rs:14-105 | `parse` fails only with a word of the image that decodes to an error, and it does fail with the first such word reached before a double zero (`EntrypointProofs.AnalyseOfAbortedRun`) |
| Entrypoint.Finish | src/n64header/entrypoint.rs:88-104 | jump and size are the recorded registers' values; start is the pointer register's value, moved down by the size (modulo 2^32) when the balance is negative; sp is `sp`'s value |
| Entrypoint.SetRegister | src/n64header/entrypoint.rs:55 | one register of the array is set and the others are unchanged |
| Entrypoint.TrackStep | src/n64header/entrypoint.rs:53-80 | the in-place update of the register array and the returned counters are one `Track` step |
| Entrypoint.Parse | src/n64header/entrypoint.rs:14-105 | the loop over the chunks computes `Analyse`: the results of the scan, or the first word that decodes to an error |
| EntrypointProofs.StoredOrderInvolution | src/n64header/entrypoint.rs:8-10 | reordering a word's bytes twice gives them back |
| EntrypointProofs.ReendReadsStoredWord | src/n64header/entrypoint.rs:5-11 | a word stored in any byte order is read back as that word |
| EntrypointProofs.ReendAgreesWithGood | src/n64header/entrypoint.rs:8-10 | reversed bytes read as Bad, or pair-swapped bytes read as Ugly, give the word the original bytes give as Good |
| EntrypointProofs.MagicReadsAsNativeWord | src/n64header/entrypoint.rs:5-11 | each byte order's magic reads, in that order, as 0x80371240 |
| EntrypointProofs.WordsOfBigEndian | src/n64header/entrypoint.rs:30-31 | the words of an image are the big-endian words of its native-order conversion |
| EntrypointProofs.AnalyseAnyByteOrder | src/n64header/entrypoint.rs:14-31 | the analysis of an image equals that of its native-order conversion read as Good |
| EntrypointProofs.StopsAtSecondZero | src/n64header/entrypoint.rs:35-39 | nothing after two consecutive zero words affects the scan |
| EntrypointProofs.DoubleZeroStops | src/n64header/entrypoint.rs:35-39 | two zero words end the scan with the state unchanged |
| EntrypointProofs.LoneZeroIsNop | src/n64header/entrypoint.rs:35-39 | a lone zero word changes nothing but the zero count |
| EntrypointProofs.UnknownIsSkipped | src/n64header/entrypoint.rs:47 | an `unknown` word is skipped and resets the zero count |
| EntrypointProofs.InvalidAborts | src/n64header/entrypoint.rs:47 | an `invalid` word aborts with that word |
| EntrypointProofs.ScanIsFold | src/n64header/entrypoint.rs:30-84 | a scan that neither stops nor aborts tracks every decoded instruction in order |
| EntrypointProofs.FoldRecords | src/n64header/entrypoint.rs:70-78 | last writer wins: the jump, branch and pointer registers are those of the last `jr`, `bne`/`bnez` and `sw`, or their start values |
| EntrypointProofs.FoldBalance | src/n64header/entrypoint.rs:63-69 | the balance is the start plus the non-negative `addi` immediates minus the negative ones |
| EntrypointProofs.TrackKeepsRegisters | src/n64header/entrypoint.rs:63-79 | an instruction that writes no register (none but `lui`, `addiu` and `ori` write one) leaves the register file unchanged |
| EntrypointProofs.TrackFrame | src/n64header/entrypoint.rs:53-62 | an instruction changes no register except the one it writes |
| EntrypointProofs.FoldFrame | src/n64header/entrypoint.rs:53-62 | a register that no instruction writes keeps its value through the whole scan |
| EntrypointProofs.FinishOfFold | src/n64header/entrypoint.rs:84-104 | after tracking any instructions from the start, the results are the values of the last `jr` source, last `bne`/`bnez` operand and last `sw` base (each `zero` if none) and of `sp`; the BSS start is the pointer's value when negative `addi` immediates do not outnumber the others, and start plus size is that value when they do |
| EntrypointProofs.AnalyseOfRun | src/n64header/entrypoint.rs:14-105 | for boot code that ends without an invalid word or a double zero, `parse` gives those results over all its decoded words |
| EntrypointProofs.DropSecondZero | src/n64header/entrypoint.rs:35-39 | after words that run, a second zero word ends the scan in the state the first one left |
| EntrypointProofs.AnalyseOfStoppedRun | src/n64header/entrypoint.rs:14-105 | for boot code that reaches a double zero without an invalid word, `parse` gives those results over the decoded words up to the first zero, whatever follows |
| EntrypointProofs.ScanAbortsAtFirstInvalid | src/n64header/entrypoint.rs:30-47 | after words that run, the first word that decodes to an error aborts the scan with that word |
| EntrypointProofs.AnalyseOfAbortedRun | src/n64header/entrypoint.rs:14-47 | when the image's words run up to one that decodes to an error, `parse` fails with that word, whatever follows |
| EntrypointProofs.LuiLoadsUpperHalf | src/n64header/entrypoint.rs:54-56 | `lui` puts the immediate in the upper half and clears the lower half |
| EntrypointProofs.AddiuQuirk | src/n64header/entrypoint.rs:57-59 | the tracked `addiu` equals MIPS `addiu` when bit 15 is clear and is 0x20000 higher (modulo 2^32) when it is set |
| EntrypointProofs.OriIsOrOnClearLowHalf | src/n64header/entrypoint.rs:60-62 | the tracked `ori` (`+`) gives the source's upper half and the immediate as lower half when the source's lower half is clear |
| Prototype.ProtoOpFromCode | src/main.rs:63-78 | conversion of a raw opcode is the inverse of the prototype's opcode table |
| Prototype.ProtoDisassemble | src/main.rs:160-237 | the zero word is `Special{nop, zero, zero, zero}`; every result is a well-formed form (no error form, `jr` with zero rt/rd, aligned 28-bit jump targets, 16-bit immediates, `lui` with zero rs) |
| Prototype.ProtoIsBranch | src/main.rs:240-254 | `is_branch` holds exactly for jump forms, `bne` and `jr` (`PrototypeProofs.BranchLift` ties it to `has_delay_slot`) |
| Prototype.ProtoTrack | src/main.rs:304-329 | only `lui` and `addiu` change the register file, and only their target register |
| Prototype.ProtoScan | src/main.rs:289-330 | the loop moves the `addi` balance by at most one per word; what it computes is `parse`'s scan (`PrototypeProofs.ProtoScanAgrees`) |
| Prototype.ProtoTrackStep | src/main.rs:304-329 | the in-place update of the register array and the returned counters are one `ProtoTrack` step |
| Prototype.RunPrototype | src/main.rs:277-342 | the loop of `main` with the results computed as in `parse` equals `Finish` of `ProtoScan` |
| Prototype.DataDecoded | src/main.rs:257-273 | each of the thirteen leading words of `DATA` is non-zero, decodable, and decodes to the listed form |
| Prototype.DataStep | src/main.rs:304-329 | each word of `DATA` takes the tracked state from one listed state to the next |
| Prototype.StopsAtTwoZeros | src/main.rs:292-296 | two zero words end the loop with the state unchanged |
| Prototype.DataScanFrom | src/main.rs:289-330 | from any word `k` of `DATA` the loop runs without panicking and reaches the final listed state |
| Prototype.DataResult | src/main.rs:257-342 | `main` gets through `DATA` and computes jump 0x80025CC0, BSS start 0x8005E940, size 0x5D50, sp 0x8005F330 |
| Prototype.AnalyseData | src/main.rs:277-342 | running the loop on `DATA` returns those four values |
| PrototypeProofs.FiveBitFunctionCode | src/main.rs:171-181 | 0x01400028 decodes as `jr t2`, like 0x01400008 |
| PrototypeProofs.PanicsExactly | src/main.rs:160-237 | the decoder panics exactly on opcodes outside the eight, special words other than zero without function 8 and clear bits 20..6, and `lui` with rs set |
| PrototypeProofs.SpecialAgrees | src/main.rs:164-181 | on a special word, both decoders give `nop` or `jr` of the same register |
| PrototypeProofs.JumpAgrees | src/main.rs:188-194 | on `j`/`jal`, both decoders give the same byte address |
| PrototypeProofs.BneAgrees | src/main.rs:195-205 | on `bne`, both decoders give the same fields, `bnez` when rt is zero |
| PrototypeProofs.LuiAgrees | src/main.rs:207-215 | on `lui`, both decoders give the same register and immediate |
| PrototypeProofs.AddiAgrees | src/main.rs:216-223 | on `addi`, both decoders give the same fields |
| PrototypeProofs.AddiuAgrees | src/main.rs:216-223 | on `addiu`, both decoders give the same fields |
| PrototypeProofs.SwAgrees | src/main.rs:224-231 | on `sw`, both decoders give the same fields |
| PrototypeProofs.DecodersAgree | src/main.rs:160-237 | every word the prototype decodes, the main decoder decodes without error to the same instruction |
| PrototypeProofs.BranchLift | src/main.rs:240-254 | a form is a branch for the prototype exactly when its instruction has a delay slot |
| PrototypeProofs.BranchAgrees | src/main.rs:240-254 | the prototype's `is_branch` is the main decoder's `has_delay_slot` on every decodable word |
| PrototypeProofs.TrackLift | src/main.rs:304-329 | the prototype's tracking of a form is `parse`'s tracking of its instruction |
| PrototypeProofs.TrackAgrees | src/main.rs:304-329 | on every decodable word, the prototype tracks as `parse` does |
| PrototypeProofs.ProtoScanAgrees | src/main.rs:289-330 | on words the prototype gets through, its loop computes what the scan of `parse` does |
| PrototypeProofs.DataThroughParse | src/main.rs:257-273 | `parse` on `DATA` stored big-endian gives the same four values |

## Left out

- Display and formatting are not modelled: `fmt` impls, `PrintFormat`, `ReallySigned` and the `print!`/`println!` trace. They only produce text.
- The global `CONFIG`/`MipsABI` is not modelled. It only sets the print width.
- The CRC-32 computation in `identify` and its 0xFC0-byte read are not modelled. They call into the `crc` crate, so `GetFromCrc` takes the checksum as an input.
- The Shift-JIS decoding of `image_name` and the lossy UTF-8 of `cartridge_id` are not modelled. They are foreign text codecs, so the header keeps those fields as raw bytes.
- `Reader` models `io::Read` over an in-memory byte sequence. Other sources and their I/O errors are not modelled.
- `parse`'s address parameter, its RAM/ROM address counters and `prev_has_delay_slot` are not modelled. They only feed the printed trace.
- The prototype's `nop`/`error` opcode markers and its `MipsCPUFunc::error` marker are not modelled. They do not fit in six bits and no word produces them.
- The prototype decoder's two arms that build the error form are not modelled. Each follows an `unwrap` that has already panicked on the same inputs.
- Entrypoint.Track: `u32` overflow wraps modulo 2^32 (release-build semantics). A debug build would panic instead on the `+` of `addiu`/`ori` and on the `-` of the BSS start.
- Entrypoint.Finish: the BSS-start subtraction wraps modulo 2^32 rather than panicking on underflow in a debug build.
- Ipl3.CorrectEntrypoint: `header_entrypoint - offset` wraps modulo 2^32 rather than panicking on underflow in a debug build.
- Prototype.ProtoTrack: like `Track`, the `addiu` sum wraps modulo 2^32.
- Entrypoint.Scan: `bss_sign` is an `i32` in the source and an unbounded integer here. It could only overflow after 2^31 `addi` instructions.
- N64Header.GetEndian: `get_endian` panics on a short or unknown prefix; here that is a precondition requiring four bytes of a known magic.
- N64Header.MediaFormat: `media_format` panics when the stored value is not a character; here that is a precondition requiring a valid character.
- N64Header.MediaFormatDescription: inherits the precondition of `N64Header.MediaFormat`, which `media_format_description` calls.
- Prototype.ProtoDisassemble: the source's panics are the `Decodable` precondition, and `RunPrototype`'s are `Runnable`. `PanicsExactly` characterises them.
- Entrypoint.BytesToReendWord: the source's `try_into` for Good and Bad needs exactly four bytes. That is a precondition here, and `chunks_exact(4)` always meets it.
