/** The generators and the interpreter together: what each line the Python scripts
    write becomes on the board, and what whole generated files do to the machine. The
    scripts print Python integers in decimal; the interpreter reads them back with atoi
    (vector lines) and strtoul (instruction and result lines) on a 32-bit target. */
module Pipeline {
  import opened LittleEndian
  import opened Layout
  import opened VectorCodec
  import opened InstructionCodec
  import opened Text
  import opened Interpreter
  import opened Sections
  import opened Tiling
  import opened Generators

  // ---------------------------------------------------------------- single lines

  /** A section marker written with its line feed reads as the marker. */
  lemma MarkerLine(s: String)
    requires s == WeightsHeader || s == InputsHeader || s == InstructionsHeader || s == ResultsHeader || s == EndMarker
    ensures Normalize(s + "\n") == s
  {
    MarkerIsClean(s);
    NormalizeTerminated(s, '\n', []);
    assert s + ['\n'] + [] == s + "\n";
  }

  /** The bytes the board stores for a printed vector of signed entries: each entry in
      two's complement, zero past the last entry. */
  function Bytes(v: Vec): Vector
    requires |v| <= VectorSize
  {
    seq(VectorSize, k requires 0 <= k < VectorSize => if k < |v| then (v[k] as int) % 0x100 else 0)
  }

  /** A byte read back as a signed 8-bit value. */
  function AsSigned(b: byte): int8
  {
    if b < 0x80 then b else b - 0x100
  }

  /** The stored bytes lose nothing: read as signed bytes they are the entries again,
      and the bytes past the entries are zero. */
  lemma BytesKeepEntries(v: Vec)
    requires |v| <= VectorSize
    ensures forall k :: 0 <= k < |v| ==> AsSigned(Bytes(v)[k]) == v[k]
    ensures forall k :: |v| <= k < VectorSize ==> Bytes(v)[k] == 0
  {
  }

  /** A generated vector line of at most 14 entries is a vector line, and the vector the
      interpreter stores for it is the entries' two's-complement bytes. */
  lemma GeneratedVectorLine(v: Vec)
    requires |v| <= VectorSize
    ensures IsVectorLine(ListLine(v)) && VectorOfLine(ListLine(v)) == Bytes(v)
  {
    DecListLine(v);
    var toks := DecList(v);
    assert Normalize(ListLine(v)) == ListText(toks);
    assert |EndMarker| == 1;
    DecimalVector(v);
  }

  /** atoi reads the decimal texts of signed bytes back as the bytes, so the vector of
      those texts is the bytes' two's complement. */
  lemma DecimalVector(v: Vec)
    requires |v| <= VectorSize
    ensures VectorOfTokens(DecList(v)) == Bytes(v)
  {
    var toks := DecList(v);
    forall k | 0 <= k < |v|
      ensures Atoi(toks[k]) == v[k]
    {
      AtoiOfDec(v[k]);
    }
  }

  /** What strtoul makes of the decimal text of an integer on a 32-bit target: the value
      itself when it fits, 2^32 + n for a small negative n, and ULONG_MAX otherwise. */
  function Ulong(n: int): uint32
  {
    if 0 <= n < 0x1_0000_0000 then n
    else if -0x1_0000_0000 < n < 0 then 0x1_0000_0000 + n
    else ULongMax
  }

  /** The instruction the interpreter builds from a command line. */
  function Decoded(cmd: Command): Instruction
  {
    match cmd
    case WeightCommand(op, length, weight) =>
      Instruction(Ulong(op) % 0x100, Ulong(length), WeightAddress(Ulong(weight)))
    case BufferCommand(op, length, acc, buffer) =>
      Instruction(Ulong(op) % 0x100, Ulong(length), AccBufAddress(Ulong(acc) % 0x1_0000, Ulong(buffer) % 0x100_0000))
  }

  /** A printed list of numbers read back: not the closing "]", and its tokens are the
      numbers' decimal texts. */
  lemma PrintedLine(vs: seq<int>)
    ensures Normalize(ListLine(vs)) != EndMarker
    ensures Tokens(Normalize(ListLine(vs))) == DecList(vs)
  {
    DecListLine(vs);
    assert |EndMarker| == 1;
  }

  /** strtoul reads token k of a printed list as Ulong of number k. */
  lemma PrintedToken(vs: seq<int>, k: nat)
    requires k < |vs|
    ensures Strtoul(DecList(vs)[k]) == Ulong(vs[k])
  {
    StrtoulOfDec(vs[k]);
  }

  /** A generated command line is an instruction line, read back as the decoded command:
      three numbers give a weight address, four an accumulator and a buffer address. */
  lemma GeneratedInstructionLine(cmd: Command)
    ensures IsInstructionLine(ListLine(Values(cmd)))
    ensures InstructionOfLine(ListLine(Values(cmd))) == Decoded(cmd)
  {
    match cmd
    case WeightCommand(op, length, weight) => WeightCommandLine(op, length, weight);
    case BufferCommand(op, length, acc, buffer) => BufferCommandLine(op, length, acc, buffer);
  }

  lemma WeightCommandLine(op: int, length: int, weight: int)
    ensures var line := ListLine([op, length, weight]);
      && IsInstructionLine(line)
      && InstructionOfLine(line) == Instruction(Ulong(op) % 0x100, Ulong(length), WeightAddress(Ulong(weight)))
  {
    var vs := [op, length, weight];
    PrintedLine(vs);
    PrintedToken(vs, 0);
    PrintedToken(vs, 1);
    PrintedToken(vs, 2);
  }

  lemma BufferCommandLine(op: int, length: int, acc: int, buffer: int)
    ensures var line := ListLine([op, length, acc, buffer]);
      && IsInstructionLine(line)
      && InstructionOfLine(line)
         == Instruction(Ulong(op) % 0x100, Ulong(length), AccBufAddress(Ulong(acc) % 0x1_0000, Ulong(buffer) % 0x100_0000))
  {
    var vs := [op, length, acc, buffer];
    PrintedLine(vs);
    PrintedToken(vs, 0);
    PrintedToken(vs, 1);
    PrintedToken(vs, 2);
    PrintedToken(vs, 3);
  }

  /** A command whose numbers fit the fields of the instruction it becomes. */
  predicate Fits(cmd: Command)
  {
    && 0 <= cmd.op < 0x100 && 0 <= cmd.length < 0x1_0000_0000
    && match cmd
       case WeightCommand(_, _, weight) => 0 <= weight < 0x1_0000_0000
       case BufferCommand(_, _, acc, buffer) => 0 <= acc < 0x1_0000 && 0 <= buffer < 0x100_0000
  }

  /** A command that fits is carried exactly: the instruction has the command's op code,
      length and address, with the same address variant. */
  lemma FittingCommandDecoded(cmd: Command)
    requires Fits(cmd)
    ensures var ins := Decoded(cmd);
      && ins.opCode == cmd.op && ins.calcLength == cmd.length
      && (cmd.WeightCommand? <==> ins.address.WeightAddress?)
      && (cmd.WeightCommand? ==> ins.address.weight == cmd.weight)
      && (cmd.BufferCommand? ==> ins.address.acc == cmd.acc && ins.address.buf == cmd.buffer)
  {
  }

  /** A result line printed by the generators is a result line asking for the records of
      Ulong(offset) on, Ulong(number) of them, rewinding the file when the append flag
      reads as a multiple of 256. */
  lemma GeneratedResultLine(offset: int, number: int, append: int)
    ensures var line := ListLine([offset, number, append]);
      && IsResultLine(line)
      && (forall unified: Slots :: RequestedRecords(unified, line) == Records(unified, Ulong(offset), Ulong(number), 0))
      && (Rewinds(line) <==> Ulong(append) % 0x100 == 0)
  {
    var vs := [offset, number, append];
    PrintedLine(vs);
    PrintedToken(vs, 0);
    PrintedToken(vs, 1);
    PrintedToken(vs, 2);
  }

  // ---------------------------------------------------------------- whole sections

  /** The instructions the interpreter builds from a run of command lines. */
  function DecodedAll(cmds: seq<Command>): (inss: seq<Instruction>)
    ensures |inss| == |cmds|
  {
    seq(|cmds|, i requires 0 <= i < |cmds| => Decoded(cmds[i]))
  }

  /** Command lines are instruction lines, and together they describe the decoded commands. */
  lemma CommandLinesDecode(cmds: seq<Command>)
    ensures forall i :: 0 <= i < |cmds| ==> IsInstructionLine(CommandLines(cmds)[i])
    ensures InstructionsOf(CommandLines(cmds)) == DecodedAll(cmds)
  {
    var lines := CommandLines(cmds);
    forall i | 0 <= i < |cmds|
      ensures IsInstructionLine(lines[i]) && InstructionOfLine(lines[i]) == Decoded(cmds[i])
    {
      GeneratedInstructionLine(cmds[i]);
    }
  }

  /** Vector lines printed from vectors of at most 14 entries are vector lines storing
      the vectors' bytes. */
  lemma ListLinesStore(vs: seq<Vec>)
    requires forall i :: 0 <= i < |vs| ==> |vs[i]| <= VectorSize
    ensures forall i :: 0 <= i < |vs| ==> IsVectorLine(ListLines(vs)[i])
    ensures forall i :: 0 <= i < |vs| ==> VectorOfLine(ListLines(vs)[i]) == Bytes(vs[i])
  {
    forall i | 0 <= i < |vs|
      ensures IsVectorLine(ListLines(vs)[i]) && VectorOfLine(ListLines(vs)[i]) == Bytes(vs[i])
    {
      GeneratedVectorLine(vs[i]);
    }
  }

  /** weights.txt, read by the interpreter from the idle state: weight vector k of the
      file is stored, as bytes, at weight-buffer index k for every k below the buffer's
      32768 vectors, every other index keeps what it held, and nothing else changes. */
  lemma WeightsFileStores(d: Dialect, m: Machine, layers: seq<Loaded>) returns (r: Machine)
    requires Valid(m) && m.section == Idle
    requires |WeightVectors(layers, TpuWidth)| < 0x1_0000_0000
    ensures RunLines(d, m, WeightsText(layers, TpuWidth)) == Running(r)
    ensures r.section == Idle && r.weightAddr == |WeightVectors(layers, TpuWidth)|
    ensures r.unified == m.unified && r.outputs == m.outputs && r.trace == m.trace && r.batch == m.batch && r.file == m.file
    ensures var wv := WeightVectors(layers, TpuWidth);
      forall k: uint32 :: (SlotAt(r.weights, k)
        == if k < |wv| && k < WeightBufferSize then EncodeVector(Bytes(wv[k])) else SlotAt(m.weights, k))
  {
    var wv := WeightVectors(layers, TpuWidth);
    var lines := ListLines(wv);
    ListLinesStore(wv);
    MarkerLine(WeightsHeader);
    MarkerLine(EndMarker);
    r := WeightsSectionStores(d, m, WeightsHeader + "\n", lines, EndMarker + "\n");
  }

  /** An inputs section printed from vectors of at most 14 entries, read from the idle
      state: vector k is stored, as bytes, at unified-buffer index k for every k below
      the buffer's 4096 vectors, every other index keeps what it held, and nothing else
      changes. */
  lemma InputsFileStores(d: Dialect, m: Machine, vs: seq<Vec>) returns (r: Machine)
    requires Valid(m) && m.section == Idle
    requires forall i :: 0 <= i < |vs| ==> |vs[i]| <= VectorSize
    requires |vs| < 0x1_0000_0000
    ensures RunLines(d, m, InputsSection(vs)) == Running(r)
    ensures r.section == Idle && r.inputAddr == |vs|
    ensures r.weights == m.weights && r.outputs == m.outputs && r.trace == m.trace && r.batch == m.batch && r.file == m.file
    ensures forall k: uint32 :: (SlotAt(r.unified, k)
      == if k < |vs| && k < UnifiedBufferSize then EncodeVector(Bytes(vs[k])) else SlotAt(m.unified, k))
  {
    ListLinesStore(vs);
    MarkerLine(InputsHeader);
    MarkerLine(EndMarker);
    r := InputsSectionStores(d, m, InputsHeader + "\n", ListLines(vs), EndMarker + "\n");
  }

  /** An instruction section printed from commands, read from the idle state, issues the
      decoded commands in order, then waits for completion and reads the cycle counter;
      the buffers and the result file are untouched. */
  lemma CommandsFileIssues(d: Dialect, m: Machine, cmds: seq<Command>)
    requires Valid(m) && m.section == Idle
    ensures RunLines(d, m, Framed(InstructionsHeader, CommandLines(cmds))).Running?
    ensures var r := RunLines(d, m, Framed(InstructionsHeader, CommandLines(cmds))).m;
      && r.section == Idle && r.batch == [] && r.weights == m.weights && r.unified == AfterEngine(m.unified, m.outputs)
      && r.outputs == LaterOutputs(m.outputs)
      && r.file == m.file && r.trace == m.trace + CompleteEvents(DecodedAll(cmds))
  {
    CommandLinesDecode(cmds);
    MarkerLine(InstructionsHeader);
    MarkerLine(EndMarker);
    InstructionSectionIssuesAll(d, m, InstructionsHeader + "\n", CommandLines(cmds), EndMarker + "\n");
  }

  /** The same instruction section read with the collection loop as written: with at
      most 512 commands it issues the same events, and with more it faults on the 513th. */
  lemma CommandsFileIssuesAsWritten(d: Dialect, m: Machine, cmds: seq<Command>)
    requires Valid(m) && m.section == Idle
    ensures |cmds| <= BatchCapacity ==>
      && RunLinesAsWritten(d, m, Framed(InstructionsHeader, CommandLines(cmds))).Running?
      && RunLinesAsWritten(d, m, Framed(InstructionsHeader, CommandLines(cmds))).m.trace
         == m.trace + CompleteEvents(DecodedAll(cmds))
    ensures |cmds| > BatchCapacity ==>
      RunLinesAsWritten(d, m, Framed(InstructionsHeader, CommandLines(cmds))) == Faulted(BatchOverrun)
  {
    CommandLinesDecode(cmds);
    MarkerLine(InstructionsHeader);
    MarkerLine(EndMarker);
    CommandsFileIssues(d, m, cmds);
    AsWrittenBatchBound(d, m, InstructionsHeader + "\n", CommandLines(cmds), EndMarker + "\n");
  }

  /** instructions.txt read with the collection loop as written: the program of a network
      of at most 102 column blocks (5 * 102 + 1 = 511 commands) is issued as the corrected
      loop issues it; from 103 blocks on the program has more than 512 commands and the
      reader faults. */
  lemma ProgramAsWritten(d: Dialect, m: Machine, layers: seq<Loaded>)
    requires Valid(m) && m.section == Idle
    ensures BlocksFrom(Shapes(layers), 0, |layers|) <= 102 ==>
      && RunLinesAsWritten(d, m, InstructionsText(layers)).Running?
      && RunLinesAsWritten(d, m, InstructionsText(layers)).m.trace
         == m.trace + CompleteEvents(DecodedAll(Instructions(Shapes(layers))))
    ensures BlocksFrom(Shapes(layers), 0, |layers|) > 102 ==>
      RunLinesAsWritten(d, m, InstructionsText(layers)) == Faulted(BatchOverrun)
  {
    var shapes := Shapes(layers);
    ProgramLength(shapes, 0, 0, 0);
    FlattenLength(Program(shapes, 0, 0, 0));
    assert |Instructions(shapes)| == 5 * BlocksFrom(shapes, 0, |layers|) + 1;
    CommandsFileIssuesAsWritten(d, m, Instructions(shapes));
  }

  /** A results section printed by the generators, read from the idle state, leaves the
      file holding the records of the requested indices, after the old content unless
      the append flag reads as a multiple of 256; nothing else changes. */
  lemma ResultsFileWrites(m: Machine, offset: int, number: int, append: int)
    requires Valid(m) && m.section == Idle
    ensures RunLines(Script, m, ResultsSection(offset, number, append)).Running?
    ensures var r := RunLines(Script, m, ResultsSection(offset, number, append)).m;
      && r.section == Idle && r.weights == m.weights && r.unified == m.unified && r.outputs == m.outputs
      && r.trace == m.trace && r.batch == m.batch
      && r.file.content == (if Ulong(append) % 0x100 == 0 then [] else m.file.content)
                           + Records(m.unified, Ulong(offset), Ulong(number), 0)
  {
    var line := ListLine([offset, number, append]);
    GeneratedResultLine(offset, number, append);
    MarkerLine(ResultsHeader);
    MarkerLine(EndMarker);
    ResultsSectionWrites(m, ResultsHeader + "\n", [line], EndMarker + "\n");
    var start := if Rewinds(line) then [] else m.file.content;
    assert Transcript(m.unified, [line], m.file.content) == Transcript(m.unified, [], start + RequestedRecords(m.unified, line));
  }

  // ---------------------------------------------------------------- weights and instructions together

  /** What events i and i + 2 of a trace load, if they are a pair of weight loads: the
      first loads 14 vectors from some index, the second the next vectors after them.
      The pair covers the vectors from that index on, as many as both lengths together. */
  datatype Loads = NoLoads | Loads(base: nat, rows: nat)

  function LoadsAt(trace: seq<Event>, i: nat): Loads
  {
    if i + 2 < |trace| && trace[i].Issued? && trace[i + 2].Issued? then
      var first, rest := trace[i].ins, trace[i + 2].ins;
      if && first.opCode == LoadWeightsSigned && first.calcLength == TpuWidth && first.address.WeightAddress?
         && rest.opCode == LoadWeightsSigned && rest.address.WeightAddress?
         && rest.address.weight == first.address.weight + TpuWidth
      then Loads(first.address.weight, TpuWidth + rest.calcLength)
      else NoLoads
    else NoLoads
  }

  /** Two load commands that fit decode to the instructions they print. */
  lemma DecodedLoads(p: seq<Command>, j: nat, a: nat, rows: nat)
    requires j + 2 < |p| && rows >= TpuWidth && a + rows <= WeightBufferSize
    requires p[j] == WeightCommand(LoadWeightsSigned as int, TpuWidth, a)
    requires p[j + 2] == WeightCommand(LoadWeightsSigned as int, rows - TpuWidth, a + TpuWidth)
    ensures DecodedAll(p)[j] == Instruction(LoadWeightsSigned, TpuWidth, WeightAddress(a))
    ensures DecodedAll(p)[j + 2] == Instruction(LoadWeightsSigned, rows - TpuWidth, WeightAddress(a + TpuWidth))
  {
    FittingCommandDecoded(p[j]);
    FittingCommandDecoded(p[j + 2]);
  }

  /** Where the tile of column block c of layer l sits in weights.txt: its R vectors
      start at a, and vector a + r is padded row r of the layer, columns 14c .. 14c + 13. */
  lemma TileRows(layers: seq<Loaded>, l: nat, c: nat, r: nat) returns (a: nat)
    requires l < |layers| && c < ColumnBlocksOf(layers[l]) && r < PaddedRows(layers[l])
    ensures Shapes(layers)[l] == Shape(PaddedRows(layers[l]), ColumnBlocksOf(layers[l]))
    ensures a == c * Shapes(layers)[l].rows + WeightsFrom(Shapes(layers), 0, l)
    ensures a + PaddedRows(layers[l]) <= |WeightVectors(layers, TpuWidth)|
    ensures WeightVectors(layers, TpuWidth)[a + r] == Row(layers[l], Width(layers[l]), TpuWidth, r, c * TpuWidth)
  {
    var rows, before := PaddedRows(layers[l]), WeightsFrom(Shapes(layers), 0, l);
    MulMonotone(0, c, rows);
    PaddedRowsCoverWidth(layers[l]);
    var k := c * rows + r;
    a := c * rows + before;
    TileVector(layers, l, c, r, k);
    assert a + r == before + k;
    TileVector(layers, l, c, rows - 1, c * rows + (rows - 1));
  }

  /** A weights section then an instruction section, read from the idle state: the
      weight buffer holds the section's vectors, as bytes, and the events are the decoded
      commands', issued in order and completed. */
  lemma WeightsThenCommands(d: Dialect, m: Machine, wv: seq<Vec>, cmds: seq<Command>) returns (out: Machine)
    requires Valid(m) && m.section == Idle
    requires (forall i :: 0 <= i < |wv| ==> |wv[i]| <= VectorSize) && |wv| <= WeightBufferSize
    ensures RunLines(d, m, Framed(WeightsHeader, ListLines(wv)) + Framed(InstructionsHeader, CommandLines(cmds)))
         == Running(out)
    ensures out.trace == m.trace + CompleteEvents(DecodedAll(cmds))
    ensures forall k: uint32 :: k < |wv| ==> SlotAt(out.weights, k) == EncodeVector(Bytes(wv[k]))
  {
    ListLinesStore(wv);
    MarkerLine(WeightsHeader);
    MarkerLine(EndMarker);
    var m1 := WeightsSectionStores(d, m, WeightsHeader + "\n", ListLines(wv), EndMarker + "\n");
    CommandsFileIssues(d, m1, cmds);
    var weights, program := Framed(WeightsHeader, ListLines(wv)), Framed(InstructionsHeader, CommandLines(cmds));
    RunLinesConcat(d, m, weights, program);
    out := RunLines(d, m1, program).m;
  }

  /** Commands j and j + 2 of an instruction section load R vectors of the weight buffer
      from index a: the first 14, then the R - 14 after them. */
  predicate LoadPairAt(cmds: seq<Command>, j: nat, a: nat, rows: nat)
  {
    && j + 2 < |cmds| && rows >= TpuWidth && a + rows <= WeightBufferSize
    && cmds[j] == WeightCommand(LoadWeightsSigned as int, TpuWidth, a)
    && cmds[j + 2] == WeightCommand(LoadWeightsSigned as int, rows - TpuWidth, a + TpuWidth)
  }

  /** The events of an instruction section whose commands j and j + 2 decode to a pair
      of loads: events j and j + 2 after the earlier ones are that pair. */
  lemma LoadEvents(trace: seq<Event>, cmds: seq<Command>, j: nat, a: nat, rows: nat)
    requires LoadPairAt(cmds, j, a, rows)
    ensures LoadsAt(trace + CompleteEvents(DecodedAll(cmds)), |trace| + j) == Loads(a, rows)
  {
    DecodedLoads(cmds, j, a, rows);
    var inss := DecodedAll(cmds);
    var all := trace + CompleteEvents(inss);
    CompleteEventsOrder(inss);
    assert all[|trace| + j] == Issued(inss[j]);
    assert all[|trace| + j + 2] == Issued(inss[j + 2]);
  }

  /** Instructions 5b and 5b + 2 of a program (b the position of column block c of layer
      l) load the block's R vectors from the block's first weight index, when they lie
      inside the weight buffer. */
  lemma ProgramLoadPair(shapes: seq<Shape>, l: nat, c: nat) returns (a: nat)
    requires l < |shapes| && c < shapes[l].blocks && shapes[l].rows >= TpuWidth
    ensures a == c * shapes[l].rows + WeightsFrom(shapes, 0, l)
    ensures a + shapes[l].rows <= WeightBufferSize
         ==> LoadPairAt(Instructions(shapes), 5 * (BlocksFrom(shapes, 0, l) + c), a, shapes[l].rows)
  {
    LoadPair(shapes, l, c);
    a := c * shapes[l].rows + WeightsFrom(shapes, 0, l);
  }

  /** Column block c of layer l in the network: weights.txt puts its tile at some index
      a, vector a + r being padded row r of the layer, columns 14c .. 14c + 13, and the
      program's commands 5b and 5b + 2 (b the position of the block) load the tile's R
      vectors from a. */
  lemma TileProgram(layers: seq<Loaded>, l: nat, c: nat, r: nat) returns (a: nat)
    requires l < |layers| && c < ColumnBlocksOf(layers[l]) && r < PaddedRows(layers[l])
    requires |WeightVectors(layers, TpuWidth)| <= WeightBufferSize
    ensures a + r < |WeightVectors(layers, TpuWidth)| && a + PaddedRows(layers[l]) <= WeightBufferSize
    ensures WeightVectors(layers, TpuWidth)[a + r] == Row(layers[l], Width(layers[l]), TpuWidth, r, c * TpuWidth)
    ensures LoadPairAt(Instructions(Shapes(layers)), 5 * (BlocksFrom(Shapes(layers), 0, l) + c), a, PaddedRows(layers[l]))
  {
    a := TileRows(layers, l, c, r);
    PaddedRowsCoverWidth(layers[l]);
    var first := ProgramLoadPair(Shapes(layers), l, c);
  }

  /** weights.txt then instructions.txt, read from the idle state: events i and i + 2,
      5b and 5b + 2 into the instruction section (b the position of column block c of
      layer l in the program), load the block's R padded rows from some weight index a,
      inside the weight buffer, and the vector stored at a + r, for every r below R, is padded row r
      of the layer, columns 14c .. 14c + 13, as bytes. So every load reads the tile it
      is meant to read. */
  lemma LoadsReadTheirTile(d: Dialect, m: Machine, layers: seq<Loaded>, l: nat, c: nat, r: nat)
      returns (out: Machine, i: nat, a: nat)
    requires Valid(m) && m.section == Idle
    requires l < |layers| && c < ColumnBlocksOf(layers[l]) && r < PaddedRows(layers[l])
    requires |WeightVectors(layers, TpuWidth)| <= WeightBufferSize
    ensures i == |m.trace| + 5 * (BlocksFrom(Shapes(layers), 0, l) + c)
    ensures LoadsAt(out.trace, i) == Loads(a, PaddedRows(layers[l]))
    ensures a + PaddedRows(layers[l]) <= WeightBufferSize
    ensures SlotAt(out.weights, a + r) == EncodeVector(Bytes(Row(layers[l], Width(layers[l]), TpuWidth, r, c * TpuWidth)))
    ensures RunLines(d, m, WeightsText(layers, TpuWidth) + InstructionsText(layers)) == Running(out)
  {
    var j := 5 * (BlocksFrom(Shapes(layers), 0, l) + c);
    a := TileProgram(layers, l, c, r);
    i := |m.trace| + j;
    out := LoadedVector(d, m, WeightVectors(layers, TpuWidth), Instructions(Shapes(layers)), j, i, a,
                        PaddedRows(layers[l]), r);
  }

  /** A weights section then an instruction section whose commands j and j + 2 load R
      vectors from index a: after both are read, events j and j + 2 of the section are that pair of loads,
      and the vector stored at a + r is the section's vector a + r, as bytes. */
  lemma LoadedVector(d: Dialect, m: Machine, wv: seq<Vec>, cmds: seq<Command>, j: nat, i: nat, a: nat, rows: nat, r: nat)
      returns (out: Machine)
    requires Valid(m) && m.section == Idle
    requires (forall i :: 0 <= i < |wv| ==> |wv[i]| <= VectorSize) && |wv| <= WeightBufferSize
    requires LoadPairAt(cmds, j, a, rows) && a + r < |wv| && i == |m.trace| + j
    ensures RunLines(d, m, Framed(WeightsHeader, ListLines(wv)) + Framed(InstructionsHeader, CommandLines(cmds)))
         == Running(out)
    ensures LoadsAt(out.trace, i) == Loads(a, rows)
    ensures SlotAt(out.weights, a + r) == EncodeVector(Bytes(wv[a + r]))
  {
    LoadEvents(m.trace, cmds, j, a, rows);
    out := WeightsThenCommands(d, m, wv, cmds);
  }

  // ---------------------------------------------------------------- complete.txt

  /** A buffer after a block of vectors is stored from index 0: each index below both the
      block's length and the buffer's capacity holds its vector's bytes, every other index
      what it held. */
  function Overlay(u: Slots, vs: seq<Vec>): (o: Slots)
    requires forall i :: 0 <= i < |vs| ==> |vs[i]| <= VectorSize
    ensures forall k: uint32 :: (SlotAt(o, k)
      == if k < |vs| && k < UnifiedBufferSize then EncodeVector(Bytes(vs[k])) else SlotAt(u, k))
  {
    map k: uint32 | k in u || (k < |vs| && k < UnifiedBufferSize)
      :: if k < |vs| && k < UnifiedBufferSize then EncodeVector(Bytes(vs[k])) else u[k]
  }

  /** The records of a request depend on the buffer only through what each index holds. */
  lemma {:induction false} RecordsAgree(u: Slots, v: Slots, address: uint32, length: nat, j: nat)
    requires forall k: uint32 :: SlotAt(u, k) == SlotAt(v, k)
    ensures Records(u, address, length, j) == Records(v, address, length, j)
    decreases length - j
  {
    if j < length {
      RecordsAgree(u, v, address, length, j + 1);
    }
  }

  /** One batch of complete.txt, read from the idle state: the inputs section stores the
      batch's vectors from unified index 0, the instruction section issues the decoded
      program and completes, leaving the unified buffer as the engine leaves it, and the
      results section writes the records of the requested indices, read from that buffer,
      after the old content unless the append flag reads as a multiple of 256. */
  lemma BatchRun(m: Machine, vs: seq<Vec>, cmds: seq<Command>, offset: int, number: int, append: int)
      returns (r: Machine)
    requires Valid(m) && m.section == Idle
    requires forall i :: 0 <= i < |vs| ==> |vs[i]| <= VectorSize
    requires |vs| < 0x1_0000_0000
    ensures RunLines(Script, m, InputsSection(vs) + Framed(InstructionsHeader, CommandLines(cmds))
                                + ResultsSection(offset, number, append)) == Running(r)
    ensures r.section == Idle && r.weights == m.weights && r.outputs == LaterOutputs(m.outputs)
    ensures forall k: uint32 :: SlotAt(r.unified, k) == SlotAt(AfterEngine(Overlay(m.unified, vs), m.outputs), k)
    ensures r.trace == m.trace + CompleteEvents(DecodedAll(cmds))
    ensures r.file.content == (if Ulong(append) % 0x100 == 0 then [] else m.file.content)
                              + Records(r.unified, Ulong(offset), Ulong(number), 0)
  {
    var inputs, program, results :=
      InputsSection(vs), Framed(InstructionsHeader, CommandLines(cmds)), ResultsSection(offset, number, append);
    var m1 := InputsFileStores(Script, m, vs);
    CommandsFileIssues(Script, m1, cmds);
    var m2 := RunLines(Script, m1, program).m;
    EngineAgrees(m1.unified, Overlay(m.unified, vs), m.outputs);
    ResultsFileWrites(m2, offset, number, append);
    r := RunLines(Script, m2, results).m;
    RunLinesConcat(Script, m, inputs, program);
    RunLinesConcat(Script, m, inputs + program, results);
  }

  /** The vectors of the batch starting at input row i, as transfer_complete_model.py prints them. */
  function BatchVectors(x: Loaded, i: nat): (vs: seq<Vec>)
    requires InputVectors(BatchRows(x, i, TpuWidth), TpuWidth).Produced?
    ensures forall k :: 0 <= k < |vs| ==> |vs[k]| == VectorSize
  {
    InputVectors(BatchRows(x, i, TpuWidth), TpuWidth).value
  }

  /** A batch starting at a multiple of 14 has fewer vectors than the input has columns
      plus 14: 14 per started chunk of 14 columns, or none for an input without columns. */
  lemma BatchVectorsBound(x: Loaded, i: nat)
    requires i % TpuWidth == 0
    requires InputVectors(BatchRows(x, i, TpuWidth), TpuWidth).Produced?
    ensures |BatchVectors(x, i)| < Width(x) + TpuWidth
  {
    var rows := BatchRows(x, i, TpuWidth);
    BatchRowsShape(x, i, TpuWidth);
    BatchRowsLength(x, i, TpuWidth);
    if |rows| == TpuWidth {
      InputVectorCount(rows, TpuWidth);
      PaddingIsLeastMultiple(Width(x), TpuWidth, 0);
    } else {
      assert |rows[0]| == 0;
    }
  }

  /** What the results sections of the batches from row i on print, in order, when the
      unified buffer starts as u and the engine leaves the buffers listed in outputs: each
      batch's vectors are stored over the buffer from index 0, the engine runs, and the
      requested indices are read from the buffer it leaves. */
  function Transcripts(x: Loaded, inputNumber: int, offset: int, number: int, i: nat, u: Slots,
                       outputs: seq<Slots>): String
    requires Batchable(x, inputNumber, i)
    decreases inputNumber - i
  {
    if i >= inputNumber then []
    else
      var u' := AfterEngine(Overlay(u, BatchVectors(x, i)), outputs);
      Records(u', Ulong(offset), Ulong(number), 0)
        + Transcripts(x, inputNumber, offset, number, i + TpuWidth, u', LaterOutputs(outputs))
  }

  /** Every batch from row i on gets its vectors without IndexError. */
  predicate Batchable(x: Loaded, inputNumber: int, i: nat)
    decreases inputNumber - i
  {
    i >= inputNumber
    || (InputVectors(BatchRows(x, i, TpuWidth), TpuWidth).Produced? && Batchable(x, inputNumber, i + TpuWidth))
  }

  /** The batches text is produced exactly when every batch gets its vectors. */
  lemma {:induction false} BatchesProduced(x: Loaded, inputNumber: int, offset: int, number: int,
                                           program: seq<String>, i: nat, append: int)
    ensures BatchesText(x, inputNumber, offset, number, TpuWidth, program, i, append).Produced?
        <==> Batchable(x, inputNumber, i)
    decreases inputNumber - i
  {
    if i < inputNumber {
      BatchesFail(x, inputNumber, offset, number, TpuWidth, program, i, append);
      BatchesProduced(x, inputNumber, offset, number, program, i + TpuWidth, 1);
    }
  }

  /** The number of batches from row i on: the length of range(i, INPUT_NUMBER, 14). */
  function Batches(inputNumber: int, i: nat): nat
    decreases inputNumber - i
  {
    if i >= inputNumber then 0 else 1 + Batches(inputNumber, i + TpuWidth)
  }

  /** What is appended after an append. */
  lemma Appended<T>(before: seq<T>, first: seq<T>, rest: seq<T>, middle: seq<T>, after: seq<T>)
    requires middle == before + first && after == middle + rest
    ensures after == before + (first + rest)
  {
  }

  /** The flag the later batches carry appends. */
  lemma AppendFlagSet()
    ensures Ulong(1) % 0x100 == 1
  {
  }

  /** k + 1 copies are one copy followed by k. */
  lemma RepeatedStep(es: seq<Event>, n: nat, k: nat)
    requires n == k + 1
    ensures Repeated(es, n) == es + Repeated(es, k)
  {
  }

  /** n copies of a run of events. */
  function Repeated(es: seq<Event>, n: nat): (r: seq<Event>)
    ensures |r| == n * |es|
  {
    if n == 0 then [] else es + Repeated(es, n - 1)
  }

  /** The batches text from a row below INPUT_NUMBER is the first batch's inputs section,
      the program and the results section, followed by the batches from the next batch on;
      whether the text is produced does not depend on the program or the append flag. */
  lemma BatchesTextStep(x: Loaded, inputNumber: int, offset: int, number: int, program: seq<String>,
                        i: nat, append: int) returns (vs: seq<Vec>, rest: seq<String>)
    requires i % TpuWidth == 0 && i < inputNumber
    requires BatchesText(x, inputNumber, offset, number, TpuWidth, program, i, append).Produced?
    ensures InputVectors(BatchRows(x, i, TpuWidth), TpuWidth).Produced? && vs == BatchVectors(x, i)
    ensures BatchesText(x, inputNumber, offset, number, TpuWidth, program, i + TpuWidth, 1) == Produced(rest)
    ensures BatchesText(x, inputNumber, offset, number, TpuWidth, program, i, append).value
         == InputsSection(vs) + program + ResultsSection(offset, number, append) + rest
  {
    BatchRowsShape(x, i, TpuWidth);
    vs := BatchVectors(x, i);
    rest := BatchesText(x, inputNumber, offset, number, TpuWidth, program, i + TpuWidth, 1).value;
  }

  /** From a row below INPUT_NUMBER, when every batch gets its vectors, so does the first
      and so does every batch from the next one on, which starts at a multiple of 14 too. */
  lemma BatchableStep(x: Loaded, inputNumber: int, i: nat)
    requires i < inputNumber && Batchable(x, inputNumber, i) && i % TpuWidth == 0
    ensures (i + TpuWidth) % TpuWidth == 0
    ensures InputVectors(BatchRows(x, i, TpuWidth), TpuWidth).Produced? && Batchable(x, inputNumber, i + TpuWidth)
  {
  }

  /** From a row below INPUT_NUMBER there is one batch more than from the next batch on. */
  lemma BatchesCountStep(inputNumber: int, i: nat)
    requires i < inputNumber
    ensures Batches(inputNumber, i) == 1 + Batches(inputNumber, i + TpuWidth)
  {
  }

  /** From a row below INPUT_NUMBER the transcripts are the first batch's records followed
      by the rest's, read after the first batch's vectors are stored and the engine runs. */
  lemma TranscriptsStep(x: Loaded, inputNumber: int, offset: int, number: int, i: nat, u: Slots,
                        outputs: seq<Slots>)
    requires i < inputNumber
    requires InputVectors(BatchRows(x, i, TpuWidth), TpuWidth).Produced? && Batchable(x, inputNumber, i + TpuWidth)
    ensures Batchable(x, inputNumber, i)
    ensures var u' := AfterEngine(Overlay(u, BatchVectors(x, i)), outputs);
      Transcripts(x, inputNumber, offset, number, i, u, outputs)
         == Records(u', Ulong(offset), Ulong(number), 0)
            + Transcripts(x, inputNumber, offset, number, i + TpuWidth, u', LaterOutputs(outputs))
  {
  }

  /** Running the batches from row i on, from the idle state, with a unified buffer that
      holds what u holds at every index: each batch issues the program and completes, the
      weights stay, and the results file holds the transcripts of the batches, over the
      buffers the engine leaves, after the old content, which the first batch discards when
      the append flag reads as a multiple of 256. */
  lemma {:induction false} BatchesRun(m: Machine, u: Slots, x: Loaded, inputNumber: int, offset: int, number: int,
                                      cmds: seq<Command>, i: nat, append: int) returns (r: Machine)
    requires Valid(m) && m.section == Idle && i % TpuWidth == 0
    requires forall k: uint32 :: SlotAt(m.unified, k) == SlotAt(u, k)
    requires Width(x) + TpuWidth <= 0x1_0000_0000
    requires Batchable(x, inputNumber, i)
    ensures BatchesText(x, inputNumber, offset, number, TpuWidth, Framed(InstructionsHeader, CommandLines(cmds)), i, append).Produced?
    ensures RunLines(Script, m, BatchesText(x, inputNumber, offset, number, TpuWidth,
                                             Framed(InstructionsHeader, CommandLines(cmds)), i, append).value)
         == Running(r)
    ensures r.section == Idle && r.weights == m.weights
    ensures r.trace == m.trace + Repeated(CompleteEvents(DecodedAll(cmds)), Batches(inputNumber, i))
    ensures r.file.content == (if i < inputNumber && Ulong(append) % 0x100 == 0 then [] else m.file.content)
                              + Transcripts(x, inputNumber, offset, number, i, u, m.outputs)
    decreases inputNumber - i
  {
    var program := Framed(InstructionsHeader, CommandLines(cmds));
    BatchesProduced(x, inputNumber, offset, number, program, i, append);
    if i >= inputNumber {
      r := m;
      assert BatchesText(x, inputNumber, offset, number, TpuWidth, program, i, append).value == [];
      assert Batches(inputNumber, i) == 0 && Transcripts(x, inputNumber, offset, number, i, u, m.outputs) == [];
      assert m.trace + Repeated(CompleteEvents(DecodedAll(cmds)), 0) == m.trace;
    } else {
      BatchableStep(x, inputNumber, i);
      BatchesCountStep(inputNumber, i);
      TranscriptsStep(x, inputNumber, offset, number, i, u, m.outputs);
      RepeatedStep(CompleteEvents(DecodedAll(cmds)), Batches(inputNumber, i), Batches(inputNumber, i + TpuWidth));
      AppendFlagSet();
      BatchVectorsBound(x, i);
      var vs, rest := BatchesTextStep(x, inputNumber, offset, number, program, i, append);
      var u' := AfterEngine(Overlay(u, vs), m.outputs);
      var r1 := BatchRun(m, vs, cmds, offset, number, append);
      OverlayAgrees(m.unified, r1.unified, u, vs, m.outputs);
      RecordsAgree(r1.unified, u', Ulong(offset), Ulong(number), 0);
      r := BatchesRun(r1, u', x, inputNumber, offset, number, cmds, i + TpuWidth, 1);
      Appended(if Ulong(append) % 0x100 == 0 then [] else m.file.content, Records(u', Ulong(offset), Ulong(number), 0),
               Transcripts(x, inputNumber, offset, number, i + TpuWidth, u', LaterOutputs(m.outputs)),
               r1.file.content, r.file.content);
      Appended(m.trace, CompleteEvents(DecodedAll(cmds)), Repeated(CompleteEvents(DecodedAll(cmds)), Batches(inputNumber, i + TpuWidth)),
               r1.trace, r.trace);
      RunLinesConcat(Script, m, InputsSection(vs) + program + ResultsSection(offset, number, append), rest);
    }
  }

  /** Storing the same vectors over two buffers that agree at every index, and letting the
      engine run, gives buffers that agree at every index. */
  lemma OverlayAgrees(a: Slots, b: Slots, u: Slots, vs: seq<Vec>, outputs: seq<Slots>)
    requires forall i :: 0 <= i < |vs| ==> |vs[i]| <= VectorSize
    requires forall k: uint32 :: SlotAt(a, k) == SlotAt(u, k)
    requires forall k: uint32 :: SlotAt(b, k) == SlotAt(AfterEngine(Overlay(a, vs), outputs), k)
    ensures forall k: uint32 :: SlotAt(b, k) == SlotAt(AfterEngine(Overlay(u, vs), outputs), k)
  {
    EngineAgrees(Overlay(a, vs), Overlay(u, vs), outputs);
  }

  /** Two buffers that agree at every index still agree once the engine has run. */
  lemma EngineAgrees(a: Slots, b: Slots, outputs: seq<Slots>)
    requires forall k: uint32 :: SlotAt(a, k) == SlotAt(b, k)
    ensures forall k: uint32 :: SlotAt(AfterEngine(a, outputs), k) == SlotAt(AfterEngine(b, outputs), k)
  {
  }

  /** complete.txt, read from the idle state: the weights are stored from index 0, every
      batch issues the network's program and completes, and the results file holds, batch
      by batch, the records of the requested unified indices in the buffer the engine
      leaves after that batch's vectors are stored; the first batch rewinds the file, so
      nothing of its old content survives once there is a batch. */
  lemma CompleteRun(m: Machine, layers: seq<Loaded>, x: Loaded, inputNumber: int, offset: int, number: int)
      returns (r: Machine)
    requires Valid(m) && m.section == Idle
    requires |WeightVectors(layers, TpuWidth)| < 0x1_0000_0000
    requires Width(x) + TpuWidth <= 0x1_0000_0000
    requires CompleteText(layers, x, inputNumber, offset, number, TpuWidth).Produced?
    ensures Batchable(x, inputNumber, 0)
    ensures RunLines(Script, m, CompleteText(layers, x, inputNumber, offset, number, TpuWidth).value) == Running(r)
    ensures r.section == Idle
    ensures var wv := WeightVectors(layers, TpuWidth);
      forall k: uint32 :: (SlotAt(r.weights, k)
        == if k < |wv| && k < WeightBufferSize then EncodeVector(Bytes(wv[k])) else SlotAt(m.weights, k))
    ensures r.trace == m.trace + Repeated(CompleteEvents(DecodedAll(Instructions(Shapes(layers)))), Batches(inputNumber, 0))
    ensures r.file.content == (if inputNumber > 0 then [] else m.file.content)
                              + Transcripts(x, inputNumber, offset, number, 0, m.unified, m.outputs)
  {
    var program := InstructionsText(layers);
    BatchesProduced(x, inputNumber, offset, number, program, 0, 0);
    AppendFlagClear();
    var weights := WeightsText(layers, TpuWidth);
    var batches := BatchesText(x, inputNumber, offset, number, TpuWidth, program, 0, 0).value;
    var m1 := WeightsFileStores(Script, m, layers);
    r := BatchesRun(m1, m.unified, x, inputNumber, offset, number, Instructions(Shapes(layers)), 0, 0);
    RunLinesConcat(Script, m, weights, batches);
  }

  /** The first batch's flag rewinds. */
  lemma AppendFlagClear()
    ensures Ulong(0) % 0x100 == 0
  {
  }
}
