# tinyTPU host control path

This project models the host side of tinyTPU, a 14-wide systolic matrix engine. The model has three layers, each in Dafny and each with proved properties.

1. **The wire codec and the bounds-checked buffer accesses** of `tinyTPU_access.h` / `tinyTPU_access.c`, together with the hand-rolled packing in `helloworld.c`.
   - A 14-byte vector travels as four little-endian 32-bit words.
   - A 10-byte instruction is an op code, a 4-byte calculation length and a 5-byte address field. The address field is either one 40-bit weight address or a 16-bit accumulator address followed by a 24-bit buffer address.
   - The instruction is issued as a lower word, a middle word and a 16-bit upper word.
   - Vector index n lives at byte offset `n << 4` of its region: the weight buffer (32768 vectors) or the unified buffer (4096 vectors).
   - Out-of-range indices are refused with `EFAULT` and cause no bus access.
2. **The command-stream interpreter** of `sd_main.c` (lines read from `weights.txt`-style files on the SD card) and of `rpc_main.c` (words read from the console).
   - It is a fold over a sequence of lines, driving an immutable machine state. The state holds:
     - the section;
     - the two vector counters;
     - the pending instruction batch;
     - the two buffers, as maps from vector index to transfer words;
     - the events on the instruction region (issued instructions, the completion wait, the cycle-counter read);
     - the result file with its write position;
     - three of the diagnostics it prints: "Vector to small!", "Bad address!" and "Out of bounds!";
     - the unified buffers the engine leaves at its coming completions, which are inputs to the model.
   - Headers and `]` match by exact equality.
   - Vector lines are split on `[`, `]` and `,`, and each number is converted with `atoi` modulo 256.
   - Instruction lines are converted with 32-bit `strtoul`. The address variant is chosen by the **token count**, not by the op code.
   - A results line `[address,length,append]` writes one CSV record per readable unified vector. It rewinds the file first when `append` is 0, and the file is truncated at `]`.
3. **The Python generators** `transfer_weights.py`, `transfer_input.py`, `transfer_instructions.py` and `transfer_complete_model.py`.
   - Their integer tiling arithmetic: zero padding to multiples of W, and column-block-major emission of W-wide vectors.
   - The five instructions per column block, and the batching of input rows into W-row groups with an append flag.
   - The text they print.

The top-level results connect the layers:
- Running the interpreter on generated text stores exactly the generated vectors (`Pipeline.WeightsFileStores`, `Pipeline.InputsFileStores`).
- It issues exactly the generated instructions, followed by one wait (`Pipeline.CommandsFileIssues`).
- Every load-weights pair of a column block reads the tile the weight emitter put there (`Pipeline.LoadsReadTheirTile`).
- A whole `complete.txt` leaves in the result file exactly the records of every batch, in batch order (`Pipeline.CompleteRun`).
- The register-window view and the map view of the buffers agree after every vector line (`Simulation.VectorLineSimulates`).

Files and modules, in dependency order:
- `little_endian.dfy` (`LittleEndian`): little-endian byte strings as values, with the round trip between them.
- `layout.dfy` (`Layout`): the constants of `tinyTPU_access.h`.
- `vector_codec.dfy` (`VectorCodec`) and `instruction_codec.dfy` (`InstructionCodec`): the two overlay unions.
- `access.dfy` (`Access`): the five access functions as pure functions that return a status and the list of bus accesses they make.
- `text.dfy` (`Text`): line normalisation, `strtok`, `atoi`, `strtoul`, and Python's decimal printing.
- `interpreter.dfy` (`Interpreter`): the reader itself.
- `sections.dfy` (`Sections`): what a whole section does.
- `simulation.dfy` (`Simulation`): the map view against the register window.
- `tiling.dfy` (`Tiling`) and `generators.dfy` (`Generators`): the scripts.
- `pipeline.dfy` (`Pipeline`): generated text read by the interpreter.

Integers are unbounded in Dafny. The C widths are written out:
- Bytes, 16/24/32/40-bit fields and counters are subset types.
- `atoi` and `strtoul` saturate as on the 32-bit ARM target (`long` and `unsigned long` are 32 bits).
- `weight_addr++` wraps at 2^32.
- Stores into `uint8_t`, `uint16_t` and 24-bit fields truncate modulo 2^8, 2^16 and 2^24.

Little-endian packing is the sum of `b_k * 256^k` over `int`s. It is not bit-vector shifts and ORs; `LittleEndian.LeValue4` and `VectorCodec.HelloWorldWordIsTransferWord` show that the two agree.

Three behaviours of the C code are worth stating plainly, and the model follows them:
- Section headers match by whole-line equality, not by prefix: `strncmp` with `sizeof` compares the terminator too.
- Vector lines need not hold exactly 14 numbers. Fewer only print "Vector to small!" and the line is still written; more overrun the byte array.
- A full batch of instructions is not followed by a wait of its own. There is exactly one wait per instructions section, after `]`.

## Model

| member | source | states |
|---|---|---|
| LittleEndian.LeValueOfLeBytes | src/C/tinyTPU_access.h:64-83 | A value below 256^n, cut into n little-endian bytes and read back, is the same value |
| LittleEndian.LeBytesOfLeValue | src/C/tinyTPU_access.h:64-83 | Any byte string, read as a little-endian value and cut back into as many bytes, is the same string |
| LittleEndian.LeValueConcat | src/C/tinyTPU_access.h:77-82 | The value of a concatenation is the low part plus 256^(length of low part) times the high part, so a field that straddles words splits by position |
| LittleEndian.LeValueInjective | src/C/tinyTPU_access.h:56-59 | Equal-length byte strings with the same little-endian value are equal |
| LittleEndian.LeValue4 | src/C/helloworld.c:107-119 | A 4-byte little-endian value is b0 + b1<<8 + b2<<16 + b3<<24, the shift-and-OR packing of the hand-rolled loop |
| LittleEndian.LeValueLowHigh | src/C/tinyTPU_access.h:77-82 | The first n bytes hold the value modulo 256^n and the rest hold the quotient |
| VectorCodec.WordView | src/C/tinyTPU_access.h:56-59 | Reading any 16 bytes of the union through the word member and back through the byte member gives the same 16 bytes |
| VectorCodec.EncodeVector | src/C/tinyTPU_access.h:43-59 | The byte view of a vector's transfer words is its 14 bytes followed by two zero pad bytes |
| VectorCodec.WordIsLittleEndian | src/C/tinyTPU_access.h:56-59 | Transfer word k is the little-endian value of bytes 4k..4k+3 |
| VectorCodec.ByteViewInjective | src/C/tinyTPU_access.h:56-59 | Two transfer vectors with the same 16 bytes are the same words, so the overlay loses nothing |
| VectorCodec.VectorRoundTrip | src/C/tinyTPU_access.h:56-59 | Decoding the four transfer words of any 14-byte vector gives the vector back |
| VectorCodec.PaddingIsIgnored | src/C/tinyTPU_access.h:43-45 | Whatever the two pad bytes hold, the decoded vector is the 14 bytes before them |
| VectorCodec.TransferRoundTrip | src/C/tinyTPU_access.h:56-59 | Transfer words whose pad bytes are zero are the encoding of their own decoded vector |
| VectorCodec.HelloWorldWordIsTransferWord | src/C/helloworld.c:107-119 | The word helloworld.c packs for byte group j (bytes past 13 counting as 0) is transfer word j/4 of the union |
| VectorCodec.CountingVectorWords | src/C/type_test.c:38-51 | The vector 0,1,...,13 travels as 0x03020100, 0x07060504, 0x0B0A0908, 0x00000D0C |
| InstructionCodec.EncodeInstruction | src/C/tinyTPU_access.h:64-76 | An instruction is 10 bytes: byte 0 the op code, bytes 1-4 the calculation length least significant first, bytes 5-9 the address field |
| InstructionCodec.DecodeAddress | src/C/tinyTPU_access.h:69-75 | Reading a 5-byte address field gives the weight variant exactly when the weight reading is asked for |
| InstructionCodec.AccessView | src/C/tinyTPU_access.h:77-83 | The lower, middle and upper words of any 10 bytes, laid back into storage, are those 10 bytes |
| InstructionCodec.AccessViewOfStorage | src/C/tinyTPU_access.h:77-83 | The word view of the storage of three words is those three words |
| InstructionCodec.AddressRoundTrip | src/C/tinyTPU_access.h:69-75 | Writing either address variant into 5 bytes and reading it back under the same variant gives the address back |
| InstructionCodec.InstructionRoundTrip | src/C/tinyTPU_access.h:64-83 | The three issued words of any instruction decode, under its own address variant, to the same op code, length and address |
| InstructionCodec.BytesRoundTrip | src/C/tinyTPU_access.h:64-76 | Any 10 bytes read as an instruction under either variant encode back to the same 10 bytes |
| InstructionCodec.AddressVariantsShareStorage | src/C/tinyTPU_access.h:69-75 | Both readings of an address field rewrite the same 5 bytes, and the weight address equals acc + 2^16 * buf |
| InstructionCodec.WeightOverlaysAccBuf | src/C/tinyTPU_access.h:69-75 | A weight address occupies the same bytes as the accumulator address w mod 2^16 followed by the buffer address w div 2^16 |
| InstructionCodec.WordFields | src/C/tinyTPU_access.h:77-82 | The lower word is op + (length mod 2^24)<<8; the middle word is length div 2^24 + (address mod 2^24)<<8; the upper word is address div 2^24 |
| InstructionCodec.HelloWorldInstructions | src/C/helloworld.c:159-204 | Load-weights 0b00001000 and multiply 0b00100000 with length 14 and a zero address, activation 0b10001001 with byte 7 = 14, and synchronize 0xFF with nine zero bytes encode to the bytes helloworld.c fills in |
| InstructionCodec.SmallInstructionBytes | src/C/helloworld.c:159-204 | An instruction whose fields fit in one byte each encodes to op, length, three zeros, the low address byte, a zero, the buffer byte and two zeros |
| InstructionCodec.TypeTestInstructionWords | src/C/type_test.c:38-51 | op 0xAB, length 0x0D, acc 2, buf 0xFF00 issue as the words 0x00000DAB, 0x00000200, 0x00FF |
| Access.CeilLog2 | src/C/tinyTPU_access.c:36 | The result is the least r with 2^r >= n |
| Access.VectorShiftIsFour | src/C/tinyTPU_access.c:36 | ceil(log2 14) is 4, and 2^4 is the 16-byte vector stride |
| Access.Shl32NoOverflow | src/C/tinyTPU_access.c:36 | A 32-bit left shift that does not overflow is multiplication by 2^s |
| Access.VectorOffset | src/C/tinyTPU_access.c:36 | For every index that fits, the byte offset index << 4 is 16 * index |
| Access.WriteLoopUnrolled | src/C/tinyTPU_access.c:38-40 | The loop i = 0, 4, 8, 12 while i < 14 makes exactly the four word writes at offsets +0, +4, +8, +12 in that order |
| Access.ReadLoopUnrolled | src/C/tinyTPU_access.c:62-64 | The read loop makes exactly four word reads at +0, +4, +8, +12 and collects them in order |
| Access.WriteWeightVector | src/C/tinyTPU_access.c:33-43 | An index >= 32768 returns EFAULT with no access; otherwise the call returns 0 after writing transfer words 0..3 at weight base + 16n + 0/4/8/12 |
| Access.WriteInputVector | src/C/tinyTPU_access.c:45-55 | An index >= 4096 returns EFAULT with no access; otherwise the call returns 0 after writing words 0..3 at unified base + 16n + 0/4/8/12 |
| Access.ReadOutputVector | src/C/tinyTPU_access.c:57-67 | An index >= 4096 returns EFAULT, reads nothing and leaves the vector as it was; otherwise four reads at +0..+12, returning the words stored there |
| Access.WriteInstruction | src/C/tinyTPU_access.c:69-75 | Always returns 0 after exactly three writes: 32 bits to +4, 32 bits to +8, 16 bits to +0xC, whose bytes in order are the 10 packed instruction bytes |
| Access.RuntimeSurvivesVectorWrites | src/C/tinyTPU_access.c:77-81 | The counter word read_runtime reads lies outside both buffers: a weight or unified vector write, at any index, leaves what read_runtime returns unchanged |
| Access.RuntimeSurvivesInstructionWrite | src/C/tinyTPU_access.c:69-81 | The three instruction words sit after the counter word: issuing an instruction leaves what read_runtime returns unchanged |
| Access.WeightWriteStaysInRegion | src/C/tinyTPU_access.c:33-36 | Every access of an in-range weight write lies between the weight base and the unified base (32768 * 16 = 0x80000) |
| Access.UnifiedWriteStaysInRegion | src/C/tinyTPU_access.c:45-48 | Every access of an in-range input write lies between the unified base and the instruction base (4096 * 16 = 0x10000) |
| Access.ApplyVectorWrites | src/C/tinyTPU_access.c:38-40 | After a vector write, its 16 bytes hold the four words and every other address is unchanged |
| Access.SlotAfterStore | src/C/tinyTPU_access.c:33-55 | After storing at index n, index n holds the stored words and every other index of the region holds what it held |
| Access.ReadAfterWrite | src/C/tinyTPU_access.c:45-67 | Writing a vector to unified index n and reading n back succeeds and returns that vector |
| Access.WriteLeavesOtherIndices | src/C/tinyTPU_access.c:45-67 | Writing unified index n leaves the read of every other index unchanged |
| Access.HelloWorldOffsetIsVectorOffset | src/C/helloworld.c:120-122 | The address i*4*4 + j that helloworld.c writes is index << 4 plus j |
| Simulation.InitialMirrors | src/C/tinyTPU_access.c:33-67 | Before anything is written, the empty register window agrees with the empty buffer maps |
| Simulation.WeightStoreKeepsUnified | src/C/tinyTPU_access.c:33-43 | A weight write changes no unified vector |
| Simulation.UnifiedStoreKeepsWeights | src/C/tinyTPU_access.c:45-55 | An input write changes no weight vector |
| Simulation.WeightWriteSimulates | src/C/tinyTPU_access.c:33-43 | write_weight_vector on the window keeps the window in step with the buffer maps, whatever the index |
| Simulation.InputWriteSimulates | src/C/tinyTPU_access.c:45-55 | write_input_vector on the window keeps the window in step with the buffer maps, whatever the index |
| Simulation.VectorLineSimulates | src/C/sd_main.c:116-131 | A vector line's bounds-checked write keeps the window and the interpreter's buffer maps in step |
| Simulation.ReadSimulates | src/C/tinyTPU_access.c:57-67 | A unified read succeeds exactly below 4096, and then returns what the interpreter's map holds |
| Simulation.IssuedCarriesInstruction | src/C/tinyTPU_access.c:69-75 | Each issued instruction is a 32-, a 32- and a 16-bit write whose words decode to that very instruction |
| Text.NormalizeCutsAtLineEnd | src/C/sd_main.c:101-102 | The normalised line is a prefix with no line end, cut exactly at the first \n or \r |
| Text.NormalizeClean | src/C/sd_main.c:101-102 | A line without \n or \r is left as it is |
| Text.NormalizeTerminated | src/C/sd_main.c:101-102 | A line followed by a line end and anything after it normalises to the line |
| Text.Split | src/C/sd_main.c:117-125 | strtok yields only non-empty tokens that contain no delimiter |
| Text.SplitJoin | src/C/sd_main.c:117-125 | Splitting comma-joined delimiter-free tokens, plus trailing delimiters, gives back exactly those tokens |
| Text.TokensOfListText | src/C/sd_main.c:117-125 | A printed list "[t0,...,tn]" splits on "[,]" into exactly t0..tn |
| Text.SkipSpace | src/C/sd_main.c:122 | The result is a suffix that starts with no white space, and all it drops is white space |
| Text.Atoi | src/C/sd_main.c:122 | atoi's value always lies within the 32-bit long range |
| Text.AtoiOfText | src/C/sd_main.c:122 | atoi of spaces, an optional sign, decimal digits and any text not starting with a digit is the digits' value, negated after a minus sign, saturated to the 32-bit long range |
| Text.AtoiWithoutDigits | src/C/sd_main.c:122 | atoi of spaces and an optional sign not followed by a digit is 0 |
| Text.NatText | src/python/transfer_weights.py:82 | str(n) for n >= 0 is a non-empty digit string whose decimal value is n, with no leading zero |
| Text.DecListLine | src/python/transfer_weights.py:82 | A printed list followed by its line feed normalises to the list, and the list splits back into the printed numbers |
| Text.AtoiOfDec | src/C/sd_main.c:122 | atoi of the decimal text of any 32-bit signed value is that value |
| Text.StrtoulOfDec | src/C/sd_main.c:312-322 | strtoul of str(n) is n for 0 <= n < 2^32, 2^32 + n for -2^32 < n < 0, and ULONG_MAX otherwise |
| Text.StrtoulOfNat | src/C/sd_main.c:312-322 | strtoul reads back every printed value below 2^32 |
| Interpreter.MarkersAreClean | src/C/sd_main.c:41-45 | Each of the five markers is a line that normalises to itself |
| Interpreter.FeedVector | src/C/sd_main.c:113-135 | A vector line faults exactly when it has more than 14 numbers; otherwise the section, events and file are unchanged |
| Interpreter.IssueAt | src/C/sd_main.c:353-355 | The i-th event of issuing a batch is the issue of its i-th instruction |
| Interpreter.IssueConcat | src/C/sd_main.c:353-355 | Issuing two batches one after the other issues their concatenation |
| Interpreter.AddToBatch | src/C/sd_main.c:280-355 | Adding an instruction keeps the batch below 512 and loses or duplicates nothing: issued events plus the pending batch are the old ones plus the new instruction |
| Interpreter.FeedInstruction | src/C/sd_main.c:296-350 | An instruction line changes no buffer or file, and extends the issued-plus-pending sequence by exactly its decoded instruction |
| Interpreter.EmitRefused | src/C/sd_main.c:242-245 | A request for a unified index >= 4096 writes nothing, logs "Bad address!" and moves on to the next index |
| Interpreter.EmitWritten | src/C/sd_main.c:242-257 | A readable index writes its record at the write position and advances the position by the record's length |
| Interpreter.EmitWritesRecords | src/C/sd_main.c:242-262 | After a request, the file up to the new position is the old prefix followed by the records of the readable indices, in increasing order |
| Interpreter.FeedResult | src/C/sd_main.c:207-262 | After a results line, the file up to the position is the records appended to the old prefix, or to nothing if append mod 256 is 0 |
| Interpreter.Feed | src/C/sd_main.c:96-373 | A line keeps the machine valid and the batch below 512, and the console reader never enters a results section |
| Interpreter.RunLines | src/C/sd_main.c:96-373 | Running any lines keeps the write position within the file |
| Sections.RunLinesConcat | src/C/sd_main.c:96-373 | Running a + b is running a, then running b from where a left off, with a fault in a stopping everything |
| Sections.HeadersMatchExactly | src/C/sd_main.c:106-113 | From idle, a line opens weights, inputs or instructions exactly when it equals that header. It opens results exactly when it equals the results header and the reader is the file reader. Any other line changes nothing |
| Sections.Bracketed | src/C/sd_main.c:106-143 | A header, body lines and a close run as the header, then the body from the state it opens, then the close |
| Sections.FeedVectorEffect | src/C/sd_main.c:107-131 | A vector line of at most 14 numbers stores its transfer words at the counter if it is in range, leaves the buffer as it was otherwise, and advances the counter modulo 2^32 in both cases |
| Sections.VectorLineStores | src/C/sd_main.c:131 | After a vector line, index k holds the line's vector when k is the in-range counter, and its old content otherwise |
| Sections.VectorLinesFrame | src/C/sd_main.c:113-135 | n vector lines advance the counter by n and touch neither the other buffer, the events nor the file |
| Sections.VectorLinesStore | src/C/sd_main.c:113-135 | After n vector lines, every in-range index from the counter on holds the vector of its line, and every other index is unchanged |
| Sections.CloseVectorSection | src/C/sd_main.c:113 | "]" closes a vector section and changes nothing else |
| Sections.VectorSection | src/C/sd_main.c:106-143 | A weights or inputs section starts its counter at 0, ends idle with the counter equal to the number of lines, and leaves the other buffer, the events and the file alone |
| Sections.VectorRunSlots | src/C/sd_main.c:107-131 | From counter 0, line k's vector lands at index k when k is below the capacity, and nothing else changes |
| Sections.WeightsSectionStores | src/C/sd_main.c:106-143 | A weights section puts line k's vector at weight index k for k < 32768 and keeps every other weight index |
| Sections.InputsSectionStores | src/C/sd_main.c:145-181 | An inputs section puts line k's vector at unified index k for k < 4096 and keeps every other unified index |
| Sections.InstructionsOf | src/C/sd_main.c:296-350 | The decoded instructions of a body are one per line, each the decoding of its line |
| Sections.InstructionLinesQueue | src/C/sd_main.c:282-356 | Instruction lines change no buffer or file; the issued events plus the pending batch grow by exactly the lines' instructions, in order |
| Sections.CloseQueue | src/C/sd_main.c:353-366 | When everything issued plus pending is the section's instructions, closing gives those instructions issued in order, then the wait and the cycle read |
| Sections.CloseInstructionSection | src/C/sd_main.c:291-366 | "]" issues the pending batch, waits once for completion, reads the cycle counter, and leaves the unified buffer as the engine leaves it |
| Sections.OpenInstructionSection | src/C/sd_main.c:279-280 | The instructions header opens the section with an empty batch |
| Sections.InstructionSectionIssuesAll | src/C/sd_main.c:279-367 | An instructions section issues every line's instruction exactly once, in input order, followed by exactly one wait and one cycle read; the unified buffer is then what the engine leaves, and the weight buffer and the file are unchanged |
| Sections.CompleteEventsOrder | src/C/sd_main.c:353-366 | The closing events are the batch's issues in order, and the single wait comes right after the last of them |
| Sections.BracketedAsWritten | src/C/sd_main.c:279-367 | The as-written reader also runs a bracketed section as header, body, close |
| Sections.InstructionLinesAsWrittenFit | src/C/sd_main.c:282-351 | As written, up to 512 instructions are queued in order and nothing is issued before "]" |
| Sections.InstructionLinesAsWrittenOverrun | src/C/sd_main.c:280-284 | As written, instruction lines that take the batch past 512 overrun the array |
| Sections.AsWrittenBatchBound | src/C/sd_main.c:280-356 | As written, a section with more than 512 instructions overruns; with at most 512 it issues exactly what the corrected reader issues |
| Sections.AsWrittenOverrunsOn513Instructions | src/C/sd_main.c:280-284 | The as-written reader overruns on a section of 513 synchronize lines |
| Sections.CorrectedIssues513Instructions | src/C/sd_main.c:280-356 | The corrected reader issues all 513 instructions of that section in order, then waits once |
| Sections.OpenResultsSection | src/C/sd_main.c:183-205 | The results header opens the file with the write position at its end |
| Sections.ResultLineStep | src/C/sd_main.c:207-268 | One results line leaves, up to the position, the old prefix (or nothing if it rewinds) followed by its records |
| Sections.ResultLinesTranscript | src/C/sd_main.c:207-268 | Result lines leave, up to the position, the transcript of their records in order, and touch neither buffer nor events |
| Sections.CloseResultsSection | src/C/sd_main.c:271 | "]" truncates the file at the write position |
| Sections.ResultsSectionWrites | src/C/sd_main.c:183-277 | A results section leaves the file holding exactly the transcript: the old content, cut at the last rewind, followed by every record written since |
| Sections.SessionEndsInSection | src/C/sd_main.c:96-142 | A stream that closed every section runs to its end; with one more header it leaves a section open, on which the file reader faults and at which the console reader stops |
| Tiling.PaddingIsLeastMultiple | src/python/transfer_weights.py:55-61 | Padding (W - n mod W) mod W is below W, and n plus it is the least multiple of W that is at least n |
| Tiling.BlocksCover | src/python/transfer_instructions.py:63-69 | The block count times W is the padded size, and the last block starts inside the matrix |
| Tiling.RowBlocksAt | src/python/transfer_weights.py:69-72 | The row-block loops emit, at position i, padded row mr + i of the column block |
| Tiling.ColumnBlocksLength | src/python/transfer_weights.py:67-72 | The nested loops emit one vector per padded row per column block |
| Tiling.ColumnBlocksAt | src/python/transfer_weights.py:67-80 | The vector at position cb * R + r is padded row r of column block cb |
| Tiling.LayerVectorCount | src/python/transfer_weights.py:67-83 | One layer emits exactly (padded columns / W) * padded rows vectors |
| Tiling.LayerVectorAt | src/python/transfer_weights.py:67-80 | Within a layer, the vector of column block cb and padded row r sits at cb * R + r and holds that zero-padded row |
| Tiling.WeightVectors | src/python/transfer_weights.py:49-83 | Every vector of weights.txt has exactly W entries |
| Tiling.WeightVectorsAt | src/python/transfer_weights.py:49-83 | Layers are emitted back to back: vector k of layer l is at the sum of the earlier layers' counts plus k |
| Tiling.TileAt | src/python/transfer_weights.py:49-83 | Row r of column block cb of layer l sits in weights.txt at the earlier layers' count + cb * R + r |
| Tiling.InputVectorCount | src/python/transfer_input.py:39-49 | A block of W rows gives ceil(cols / W) * W vectors |
| Tiling.InputVectorAt | src/python/transfer_input.py:39-46 | The vector of column chunk q and row j sits at q * W + j and holds that row's columns from q * W on, zero past the last |
| Tiling.BatchRowsShape | src/python/transfer_complete_model.py:43-48 | A full batch is the next W rows. A tail batch keeps the remaining rows and adds zero rows of the input's width up to exactly W |
| Tiling.SelectRowsInBatch | src/python/transfer_input.py:33-36 | The block transfer_input.py selects from a row is a prefix of the padded batch block transfer_complete_model.py builds from that row, and all of it exactly when W rows remain |
| Generators.InputsTextFails | src/python/transfer_input.py:33-46 | transfer_input.py raises IndexError exactly when no row is left at the offset, or when fewer than W rows are left of a matrix with columns |
| Generators.FlattenAt | src/python/transfer_instructions.py:76-87 | Instruction t of column block b is at position 5b + t, and the column blocks' commands come in order |
| Generators.FromGrows | src/python/transfer_instructions.py:73-89 | Each layer adds its block count, its padded rows and blocks * R weight vectors to the running counters |
| Generators.WeightsFromBase | src/python/transfer_instructions.py:89 | The weight_count before a layer equals the number of vectors transfer_weights.py emits for the earlier layers |
| Generators.ProgramLength | src/python/transfer_instructions.py:57-89 | The layers give one column program per column block |
| Generators.ProgramAt | src/python/transfer_instructions.py:57-89 | The program of block c of layer l uses weight_count = the earlier layers' vectors, input_base = the earlier rows and input_count = input_base + R |
| Generators.InstructionAt | src/python/transfer_instructions.py:52-93 | The file has 5 * (total column blocks) + 1 instructions, the last is the synchronize, and instruction 5 * (blocks before) + t is command t of that block |
| Generators.LoadPair | src/python/transfer_instructions.py:79-83 | The two loads of block c are [9,14,c*R+wc] and [9,R-14,c*R+14+wc] |
| Generators.TileVector | src/python/transfer_weights.py:67-80 | weights.txt vector number weight_count + c * R + r is padded row r of column block c of layer l |
| Generators.WeightsBeforeBase | src/python/transfer_instructions.py:89 | The weight counter before layer l is the number of vectors of layers 0..l-1 in weights.txt |
| Generators.PaddedRowsCoverWidth | src/python/transfer_instructions.py:68 | A padded row count is at least 14, so R - 14 is never negative |
| Generators.LoadsFetchTheirTile | src/python/transfer_instructions.py:76-89 | The first load of a column block addresses exactly the weights.txt vector of that block's first padded row. Its 14 rows and the next load's R - 14 rows cover the block's R rows |
| Generators.ActivationsFeedNextLayer | src/python/transfer_instructions.py:73-87 | Block c of layer l activates into input_count + 14c, and the next layer's first multiply reads from that input_count |
| Generators.MultiplesInOrder | src/python/transfer_complete_model.py:41 | Two multiples of W that are less than W apart are in order |
| Generators.BatchRowsLength | src/python/transfer_complete_model.py:43-48 | A batch has W rows, except one past the end of the input, which has W - n mod W zero rows |
| Generators.BatchStep | src/python/transfer_complete_model.py:41-48 | A later batch runs into a short padded block exactly when the input length is not a multiple of W and the padded length is below INPUT_NUMBER |
| Generators.BatchesFail | src/python/transfer_complete_model.py:41-71 | The batches from i on raise IndexError exactly when batch i's vectors do or a later batch does |
| Generators.BatchesIndexError | src/python/transfer_complete_model.py:41-62 | complete.txt cannot be generated exactly when the input has columns, its length is not a multiple of W and INPUT_NUMBER exceeds the padded length |
| Pipeline.MarkerLine | src/python/transfer_weights.py:47-86 | Each marker the scripts write, with its line feed, reads as that marker |
| Pipeline.BytesKeepEntries | src/C/sd_main.c:122 | atoi mod 256 of a printed int8 is its two's-complement byte, which reads back as the same int8; bytes past the entries are 0 |
| Pipeline.GeneratedVectorLine | src/python/transfer_weights.py:82 | A printed vector line is a valid vector line and the interpreter reads exactly its entries from it |
| Pipeline.DecimalVector | src/python/transfer_weights.py:82 | The bytes read from the printed numbers of a vector are the vector's bytes |
| Pipeline.PrintedLine | src/python/transfer_instructions.py:79-93 | A printed list line is never "]" and its tokens are the printed numbers |
| Pipeline.PrintedToken | src/C/sd_main.c:312-322 | strtoul of a printed number is that number reduced as the 32-bit reader reduces it |
| Pipeline.GeneratedInstructionLine | src/python/transfer_instructions.py:79-87 | A printed command line is an instruction line and decodes to the command's instruction |
| Pipeline.WeightCommandLine | src/python/transfer_instructions.py:79-83 | A three-number line decodes with the weight-address variant holding the third number |
| Pipeline.BufferCommandLine | src/python/transfer_instructions.py:81-87 | A four-number line decodes with the accumulator/buffer variant, the numbers reduced to 16 and 24 bits |
| Pipeline.FittingCommandDecoded | src/python/transfer_instructions.py:76-91 | A command whose numbers fit their fields decodes to exactly those numbers, and three numbers mean the weight variant |
| Pipeline.GeneratedResultLine | src/python/transfer_complete_model.py:70 | The results line the script prints requests exactly OUTPUT_NUMBER records from OUTPUT_OFFSET, and rewinds exactly when APPEND is 0 |
| Pipeline.CommandLinesDecode | src/python/transfer_instructions.py:76-91 | Every printed command line is an instruction line, and together they decode to the commands' instructions |
| Pipeline.ListLinesStore | src/python/transfer_weights.py:82 | Every printed vector line is a vector line and reads as the vector's bytes |
| Pipeline.WeightsFileStores | src/python/transfer_weights.py:47-86 | Reading weights.txt puts generated vector k at weight index k (k < 32768) and leaves everything else alone |
| Pipeline.InputsFileStores | src/python/transfer_input.py:30-51 | Reading an inputs section puts vector k at unified index k (k < 4096) and leaves everything else alone |
| Pipeline.CommandsFileIssues | src/python/transfer_instructions.py:52-93 | Reading instructions.txt issues the decoded commands in order, then one wait and one cycle read; the unified buffer is then what the engine leaves, and the weight buffer and the file are unchanged |
| Pipeline.CommandsFileIssuesAsWritten | src/C/sd_main.c:279-367 | With the collection loop as written, an instructions section of at most 512 commands issues the same events as the corrected loop, and one of more commands faults |
| Pipeline.ProgramAsWritten | src/python/transfer_instructions.py:52-93 | With the collection loop as written, instructions.txt of a network of at most 102 column blocks (511 commands) is issued as by the corrected loop; from 103 blocks on the reader faults |
| Pipeline.ResultsFileWrites | src/python/transfer_complete_model.py:70 | Reading a results section leaves the file as the records requested, after the old content only when APPEND is nonzero |
| Pipeline.DecodedLoads | src/python/transfer_instructions.py:79-83 | The two load commands of a block, addressed inside the weight buffer, decode to weight-address loads of 14 and R - 14 rows |
| Pipeline.TileRows | src/python/transfer_instructions.py:79-89 | The first load's address c*R + weight_count is where row 0 of the block sits in weights.txt, and the block's R rows all lie inside the file |
| Pipeline.WeightsThenCommands | src/python/transfer_complete_model.py:33-35 | Weights then instructions: the weights are stored and the instructions issued, followed by one wait |
| Pipeline.LoadEvents | src/python/transfer_instructions.py:79-83 | The issued loads of a block are recognised in the trace as loading R vectors from the block's address |
| Pipeline.ProgramLoadPair | src/python/transfer_instructions.py:79-89 | When the block fits the weight buffer, its loads are the pair for c*R + weight_count and R rows |
| Pipeline.TileProgram | src/python/transfer_instructions.py:76-89 | Block c of layer l loads, from weights.txt position a, R rows whose row r is padded row r of that column block |
| Pipeline.LoadsReadTheirTile | src/python/transfer_instructions.py:76-89 | After weights.txt and instructions.txt are read, the pair of loads of block c loads R vectors from a, and weight index a + r holds row r of that block |
| Pipeline.LoadedVector | src/python/transfer_weights.py:67-83 | When a load pair sits at command j, after reading both files the trace shows that load and the loaded index holds its generated vector |
| Pipeline.RecordsAgree | src/C/sd_main.c:242-262 | Records depend only on the buffer's contents, index by index |
| Pipeline.BatchRun | src/python/transfer_complete_model.py:42-70 | One batch stores its inputs, issues the program followed by one wait, and leaves in the file, after the old content only when appending, the records read from the unified buffer the engine leaves |
| Pipeline.BatchVectors | src/python/transfer_complete_model.py:52-62 | Every vector of a batch has 14 entries |
| Pipeline.BatchVectorsBound | src/python/transfer_complete_model.py:52-62 | A batch has fewer vectors than its width plus 14, so the counter never wraps |
| Pipeline.BatchesProduced | src/python/transfer_complete_model.py:41-71 | The batch text from i on exists exactly when every batch from i on can be laid out |
| Pipeline.Repeated | src/python/transfer_complete_model.py:64-69 | n copies of a program's events have n times its length |
| Pipeline.BatchesTextStep | src/python/transfer_complete_model.py:41-71 | The batches from i on are batch i's inputs, the program and its results section, followed by the batches from i + W on with APPEND = 1 |
| Pipeline.TranscriptsStep | src/python/transfer_complete_model.py:41-71 | The records of the batches from i on are batch i's records followed by those of the later batches |
| Pipeline.BatchesRun | src/python/transfer_complete_model.py:39-71 | Running the batches from i on issues the program once per batch, each followed by one wait, and the file holds all their records in batch order, each read from the buffer the engine leaves for that batch |
| Pipeline.CompleteRun | src/python/transfer_complete_model.py:27-71 | Reading complete.txt stores weights.txt in the weight buffer, issues the program once per batch, and leaves the result file holding exactly all batches' records in order, each read from the buffer the engine leaves for that batch, with the old content dropped |

## Left out

- Interrupt set-up and the synchronize interrupt handler are Xilinx driver calls. Completion is the `AwaitCompletion` event; the busy-wait's liveness is not modelled.
- Volatile MMIO and memory ordering are not modelled. A region is a map from byte address to word, and the interpreter keeps a map from vector index to transfer words; `Simulation` proves the two agree.
- What the engine computes is not modelled. The unified buffer it leaves at each completion is taken from a list that is part of the machine (`outputs`, an input of `Interpreter.Initial`), so any buffer at all may stand there; records are read from it. Once that list is used up, a completion is taken to leave the buffer as it was. The engine's cycle counter is likewise whatever the window holds (`Access.ReadRuntime`).
- FatFS (`f_mount`, `f_open`, `f_stat`, `f_lseek`, `f_truncate`, `f_close`), `scanf` and `printf` are not modelled as calls. The stream is a sequence of lines and the result file is a string with a write position. A failing file operation is not modelled.
- Only three prints are kept, as a list of diagnostics. "Message was: …", "Error reading line!", "Vector out of bounds!", "Wrote to …", "Added instruction …", "Calculations finished." and the cycle-count line are not modelled; "Vector out of bounds!" precedes the overrun that is a fault here.
- `f_gets` reads at most 1023 characters per call; longer lines, which would be split, are not modelled.
- The console reader takes one `scanf("%s")` word per step. Its words are given to the model as the lines, so splitting console input at white space is not modelled.
- Floating point: `ceil(log2(14))` is the integer function `Access.CeilLog2` and is proved to be 4. The nanosecond print of the cycle count is left out.
- Interpreter.VectorOfTokens: bytes after the last number of a short vector line are indeterminate in C (uninitialised stack bytes); the model gives them 0. The two pad bytes of the union are likewise 0.
- Interpreter.FeedVector: a vector line with more than 14 numbers writes past the 14-byte array, which is undefined behaviour; the model stops with a fault there.
- Interpreter.Feed: an instruction or results line with fewer than three numbers uses uninitialised locals; the model stops with a fault there.
- Interpreter.Feed: the reader issues a full 512-entry batch and keeps collecting, which is the corrected loop of the finding below; the `Pipeline` results are about it. For the loop as written they hold when an instructions section has at most 512 instructions, that is a network of at most 102 column blocks (`Pipeline.CommandsFileIssuesAsWritten`, `Pipeline.ProgramAsWritten`); with more the model faults.
- Interpreter.Session: at end of file inside a section `f_gets` returns NULL with an empty line, which the C reader keeps handling as a section line, so it loops forever; the model reports a fault instead.
- The batch-overrun path of the loop as written (an instruction stored at entry 512 or later) is undefined behaviour and is a fault in `Interpreter.AddToBatchAsWritten`.
- The broken result printing of helloworld.c (lines 219-228) is not modelled; only the address arithmetic of its read loop is.
- The test drivers `type_test.c`, `access_test.c` and `simple_tpu_test.c` are not part of this model. Their concrete values appear only as lemma instances.
- Python: file discovery and ordering (`os.listdir`, regular expressions, `sort`), `os.system`, `copyfile` and `np.loadtxt` are not modelled. Matrices are sequences of int8 rows with at least one row, as the scripts' `len(weights[0])` requires. `np.loadtxt` turns a single-row or a single-column file into a one-dimensional array, on which `len(weights[0])` raises TypeError; the model accepts such matrices as one row or as rows of one entry and does not model that error.
- Printing of numpy integers follows `str` of a Python int, as older numpy prints list elements. The `np.int8(…)` form of numpy 2 is not modelled.
- A partially written file before an IndexError is not modelled: the generator result is either all the text or IndexError.
- Pipeline.LoadsReadTheirTile: assumes weights.txt holds at most 32768 vectors, so every load addresses the weight buffer. Beyond that the C write is refused and the statement would not hold.
- Pipeline.CompleteRun: assumes weights.txt has fewer than 2^32 vectors and the input is narrower than 2^32 - 14 columns, so the 32-bit vector counters never wrap.
- Sections.VectorLinesStore: requires the counter plus the number of lines to stay below 2^32. The wrapping counter itself is modelled in `Sections.FeedVectorEffect`.
- The ML and quantisation scripts (TensorFlow, h5py, float quantisation) lie outside the host control path and are not part of this model.

## Findings

| source | as written | input that shows it | evidently intended | confidence | as-written member | corrected member |
|---|---|---|---|---|---|---|
| src/C/sd_main.c:280-284 (same loop at src/C/rpc_main.c:137-138) | The batch loop runs while `i < sizeof(instructions)`, which is 512 * 10 = 5120 bytes, not 512 entries; instruction 513 is stored past the end of the 512-entry array | An `instructions:[` section with 513 instruction lines, e.g. 513 copies of `[255,0,0]`, then `]` | Stop at 512 entries, issue the full batch and continue collecting: `i < sizeof(instructions)/sizeof(instructions[0])` | not executed | Sections.AsWrittenOverrunsOn513Instructions | Sections.CorrectedIssues513Instructions |
