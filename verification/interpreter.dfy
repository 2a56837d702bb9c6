/** The command-stream interpreter of sd_main.c (lines read from a file) and
    rpc_main.c (words read from the console). A stream is a sequence of lines;
    a header line opens a section, "]" closes it, and each line inside a section
    is one vector, one instruction or one result request. The machine keeps the
    two vector counters, the pending instruction batch, the contents of the two
    buffers as the host wrote them, the events on the instruction region, the
    result file and the diagnostics printed. */
module Interpreter {
  import opened LittleEndian
  import opened Layout
  import opened VectorCodec
  import opened InstructionCodec
  import opened Access
  import opened Text

  /** The file reader of sd_main.c knows a results section and must see every
      section closed; the console reader of rpc_main.c has no results section
      and simply waits for more words. */
  datatype Dialect = Script | Console

  const WeightsHeader: String := "weights:["
  const InputsHeader: String := "inputs:["
  const InstructionsHeader: String := "instructions:["
  const ResultsHeader: String := "results:["
  const EndMarker: String := "]"

  /** The section markers hold no line end, so a line that is exactly a marker reads as it. */
  lemma MarkersAreClean()
    ensures Normalize(WeightsHeader) == WeightsHeader && Normalize(InputsHeader) == InputsHeader
    ensures Normalize(InstructionsHeader) == InstructionsHeader && Normalize(ResultsHeader) == ResultsHeader
    ensures Normalize(EndMarker) == EndMarker
  {
    MarkerIsClean(WeightsHeader);
    MarkerIsClean(InputsHeader);
    MarkerIsClean(InstructionsHeader);
    MarkerIsClean(ResultsHeader);
    MarkerIsClean(EndMarker);
  }

  lemma MarkerIsClean(s: String)
    requires s == WeightsHeader || s == InputsHeader || s == InstructionsHeader || s == ResultsHeader || s == EndMarker
    ensures Clean(s) && Normalize(s) == s
  {
    NormalizeClean(s);
  }

  /** Instructions are collected in an array of 512 before they are issued. */
  const BatchCapacity: nat := 512

  datatype Section = Idle | InWeights | InInputs | InInstructions | InResults

  /** The messages printed for recoverable conditions. */
  datatype Diagnostic =
    | VectorTooSmall     // "Vector to small!"
    | BadAddress         // "Bad address!"
    | TokenOutOfBounds   // "Out of bounds!"

  /** Conditions after which the C program has undefined behaviour or never
      returns; the model stops there. */
  datatype Fault =
    | VectorOverrun        // a vector line with more than 14 numbers writes past the byte array
    | Uninitialised        // an instruction or result line with fewer than three numbers uses unset fields
    | BatchOverrun         // an instruction is stored past the end of the 512-entry batch
    | EndOfInputInSection  // the file ends inside a section: the reader loops on empty lines forever

  /** What the host does on the instruction region: issue an instruction (the three
      word writes of WriteInstruction), wait for the synchronize interrupt, or read
      the cycle counter (read_runtime). */
  datatype Event = Issued(ins: Instruction) | AwaitCompletion | CyclesRead

  /** The bus accesses an event performs. */
  function EventOps(e: Event): seq<BusOp>
  {
    match e
    case Issued(ins) => WriteInstruction(ins).ops
    case AwaitCompletion => []
    case CyclesRead => ReadRuntime(map[]).ops
  }

  /** The vectors the host has stored in a buffer, by vector index. */
  type Slots = map<uint32, TransferVector>

  /** The words of a vector index; an index the host never stored reads as zero words here. */
  function SlotAt(s: Slots, n: uint32): TransferVector
  {
    if n in s then s[n] else Unset
  }

  /** The output words of a unified-buffer index before anything is known of them. */
  const Unset: TransferVector := [0, 0, 0, 0]

  /** The result file and the position the next record is written at. */
  datatype ResultFile = ResultFile(content: String, pos: nat)

  datatype Machine = Machine(
    section: Section,
    weightAddr: uint32,
    inputAddr: uint32,
    batch: seq<Instruction>,
    weights: Slots,
    unified: Slots,
    outputs: seq<Slots>,   // the unified buffer the engine leaves at each coming completion
    trace: seq<Event>,
    file: ResultFile,
    log: seq<Diagnostic>)

  datatype Outcome = Running(m: Machine) | Faulted(fault: Fault)

  /** The write position never lies past the end of the result file. */
  predicate Valid(m: Machine)
  {
    m.file.pos <= |m.file.content|
  }

  /** The machine at the start of a stream, given the result file already on the card and
      the unified buffers the engine will leave at its completions. */
  function Initial(content: String, outputs: seq<Slots>): (m: Machine)
    ensures Valid(m) && m.section == Idle && m.batch == [] && m.trace == []
  {
    Machine(Idle, 0, 0, [], map[], map[], outputs, [], ResultFile(content, |content|), [])
  }

  /** The unified buffer once the engine has run a program: the next buffer the engine
      leaves, or the buffer as it was once the list of them is used up. What the engine
      computes is not modelled; any buffer may stand here. */
  function AfterEngine(u: Slots, outputs: seq<Slots>): Slots
  {
    if |outputs| > 0 then outputs[0] else u
  }

  /** The buffers the engine leaves at the completions after the next one. */
  function LaterOutputs(outputs: seq<Slots>): seq<Slots>
  {
    if |outputs| > 0 then outputs[1..] else []
  }

  /** The 32-bit increment of a counter, (x + 1) mod 2^32. */
  function Inc32(x: uint32): uint32
  {
    if x == 0xFFFF_FFFF then 0 else x + 1
  }

  function Repeat(d: Diagnostic, n: int): (ds: seq<Diagnostic>)
    ensures |ds| == if n > 0 then n else 0
    ensures forall i :: 0 <= i < |ds| ==> ds[i] == d
    decreases n
  {
    if n <= 0 then [] else [d] + Repeat(d, n - 1)
  }

  // ---------------------------------------------------------------- headers

  /** A header line outside a section: open the section it names; any other line is ignored. */
  function Open(d: Dialect, m: Machine, msg: String): Machine
  {
    if msg == WeightsHeader then m.(section := InWeights, weightAddr := 0)
    else if msg == InputsHeader then m.(section := InInputs, inputAddr := 0)
    else if msg == ResultsHeader && d == Script then
      m.(section := InResults, file := ResultFile(m.file.content, |m.file.content|))
    else if msg == InstructionsHeader then m.(section := InInstructions, batch := [])
    else m
  }

  // ---------------------------------------------------------------- vectors

  /** The vector a line of at most 14 numbers stores: atoi of each token, truncated
      to a byte; bytes the line does not reach are zero here. */
  function VectorOfTokens(toks: seq<String>): (v: Vector)
    requires |toks| <= VectorSize
    ensures forall k :: 0 <= k < |toks| ==> v[k] == Atoi(toks[k]) % 0x100
    ensures forall k :: |toks| <= k < VectorSize ==> v[k] == 0
  {
    seq(VectorSize, k requires 0 <= k < VectorSize => if k < |toks| then Atoi(toks[k]) % 0x100 else 0)
  }

  /** A buffer after a bounds-checked write of t at index n: the slot is set when the
      write was accepted and the buffer is unchanged when it was refused. */
  function Store(s: Slots, a: Access, n: uint32, t: TransferVector): Slots
  {
    if a.status == 0 then s[n := t] else s
  }

  /** A vector line inside a weights or inputs section: store the vector at the
      section's counter and advance the counter, even when the store is refused.
      A weight line of fewer than 14 numbers, or an input line of fewer than 13,
      is reported as too small. */
  function FeedVector(m: Machine, msg: String): (r: Outcome)
    requires m.section == InWeights || m.section == InInputs
    ensures |Tokens(msg)| > VectorSize <==> r == Faulted(VectorOverrun)
    ensures r.Running? ==> r.m.section == m.section && r.m.trace == m.trace && r.m.file == m.file
  {
    var toks := Tokens(msg);
    if |toks| > VectorSize then Faulted(VectorOverrun)
    else
      var t := EncodeVector(VectorOfTokens(toks));
      if m.section == InWeights then
        var a := WriteWeightVector(t, m.weightAddr);
        Running(m.(weights := Store(m.weights, a, m.weightAddr, t), weightAddr := Inc32(m.weightAddr),
                   log := m.log + (if |toks| < VectorSize then [VectorTooSmall] else [])
                                + (if a.status != 0 then [BadAddress] else [])))
      else
        var a := WriteInputVector(t, m.inputAddr);
        Running(m.(unified := Store(m.unified, a, m.inputAddr, t), inputAddr := Inc32(m.inputAddr),
                   log := m.log + (if |toks| < VectorSize - 1 then [VectorTooSmall] else [])
                                + (if a.status != 0 then [BadAddress] else [])))
  }

  // ---------------------------------------------------------------- instructions

  /** The instruction a line of at least three numbers describes: op code and
      lengths through strtoul, truncated to the field widths; three numbers give
      a weight address, four or more an accumulator and a buffer address. */
  function InstructionOfTokens(toks: seq<String>): (ins: Instruction)
    requires |toks| >= 3
    ensures ins.opCode == Strtoul(toks[0]) % 0x100 && ins.calcLength == Strtoul(toks[1])
    ensures |toks| == 3 <==> ins.address.WeightAddress?
    ensures |toks| == 3 ==> ins.address.weight == Strtoul(toks[2])
    ensures |toks| >= 4 ==>
      ins.address == AccBufAddress(Strtoul(toks[2]) % 0x1_0000, Strtoul(toks[3]) % 0x100_0000)
  {
    var address :=
      if |toks| == 3 then WeightAddress(Strtoul(toks[2]))
      else AccBufAddress(Strtoul(toks[2]) % 0x1_0000, Strtoul(toks[3]) % 0x100_0000);
    Instruction(Strtoul(toks[0]) % 0x100, Strtoul(toks[1]), address)
  }

  /** The instruction-region events that issue a batch, in order. */
  function Issue(batch: seq<Instruction>): (es: seq<Event>)
    ensures |es| == |batch|
  {
    if |batch| == 0 then [] else [Issued(batch[0])] + Issue(batch[1..])
  }

  /** Event i of an issued batch issues instruction i of the batch. */
  lemma {:induction false} IssueAt(batch: seq<Instruction>, i: nat)
    requires i < |batch|
    ensures Issue(batch)[i] == Issued(batch[i])
    decreases i
  {
    if i > 0 {
      IssueAt(batch[1..], i - 1);
    }
  }

  /** Issuing two batches one after the other is issuing their concatenation. */
  lemma {:induction false} IssueConcat(a: seq<Instruction>, b: seq<Instruction>)
    ensures Issue(a + b) == Issue(a) + Issue(b)
    decreases |a|
  {
    if |a| == 0 {
      assert a + b == b;
    } else {
      assert (a + b)[1..] == a[1..] + b;
      IssueConcat(a[1..], b);
    }
  }

  /** Adding an instruction to the batch; a full batch of 512 is issued at once and emptied. */
  function AddToBatch(m: Machine, ins: Instruction): (r: Machine)
    ensures |m.batch| < BatchCapacity ==> |r.batch| < BatchCapacity
    ensures r.trace + Issue(r.batch) == m.trace + Issue(m.batch + [ins])
    ensures r.section == m.section && r.file == m.file && r.log == m.log
    ensures r.weights == m.weights && r.unified == m.unified && r.outputs == m.outputs
  {
    var b := m.batch + [ins];
    if |b| >= BatchCapacity then
      IssueConcat(b, []);
      assert b + [] == b;
      m.(trace := m.trace + Issue(b), batch := [])
    else m.(batch := b)
  }

  /** The collection loop as written runs while i < sizeof(instructions), which is
      512 * 10 = 5120 bytes rather than 512 entries, so it goes on storing past
      the end of the 512-entry array. */
  const AsWrittenLoopBound: nat := BatchCapacity * InstructionSize

  /** Adding an instruction as written: nothing is issued before "]", and the
      instruction that would be entry 512 or later (still below the loop bound)
      lands outside the array. */
  function AddToBatchAsWritten(m: Machine, ins: Instruction): (r: Outcome)
    ensures |m.batch| < BatchCapacity ==> r == Running(m.(batch := m.batch + [ins]))
    ensures BatchCapacity <= |m.batch| < AsWrittenLoopBound ==> r == Faulted(BatchOverrun)
  {
    if |m.batch| < BatchCapacity then Running(m.(batch := m.batch + [ins]))
    else Faulted(BatchOverrun)
  }

  /** The events that end an instruction section: the rest of the batch, the wait
      for the synchronize interrupt and the read of the cycle counter (whose value
      is only printed). */
  function CompleteEvents(batch: seq<Instruction>): seq<Event>
  {
    Issue(batch) + [AwaitCompletion, CyclesRead]
  }

  /** An instruction line inside an instruction section. */
  function FeedInstruction(m: Machine, toks: seq<String>): (r: Machine)
    requires |toks| >= 3
    ensures |m.batch| < BatchCapacity ==> |r.batch| < BatchCapacity
    ensures r.section == m.section && r.file == m.file && r.weights == m.weights && r.unified == m.unified && r.outputs == m.outputs
    ensures r.trace + Issue(r.batch) == m.trace + Issue(m.batch + [InstructionOfTokens(toks)])
  {
    AddToBatch(m.(log := m.log + Repeat(TokenOutOfBounds, |toks| - 4)), InstructionOfTokens(toks))
  }

  // ---------------------------------------------------------------- results

  /** The line f_printf writes for a vector: its 14 bytes in decimal, comma separated. */
  function Record(v: Vector): String
  {
    JoinComma(seq(VectorSize, k requires 0 <= k < VectorSize => Dec(v[k]))) + "\n"
  }

  /** Writing text at a position of a file, overwriting what is there and extending it if needed. */
  function Overwrite(content: String, pos: nat, text: String): (r: String)
    requires pos <= |content|
    ensures |r| == if pos + |text| < |content| then |content| else pos + |text|
    ensures r[..pos + |text|] == content[..pos] + text
    ensures r[pos + |text|..] == if pos + |text| < |content| then content[pos + |text|..] else []
  {
    content[..pos] + text + (if pos + |text| < |content| then content[pos + |text|..] else [])
  }

  /** The records of indices address + j .. address + length - 1 (modulo 2^32) that
      lie inside the unified buffer, in order. */
  function Records(unified: Slots, address: uint32, length: nat, j: nat): String
    decreases length - j
  {
    if j >= length then []
    else
      var n := (address + j) % 0x1_0000_0000;
      (if n < UnifiedBufferSize then Record(DecodeVector(SlotAt(unified, n))) else [])
      + Records(unified, address, length, j + 1)
  }

  /** The read-and-print loop of a result line, from index j on: each readable vector is
      written as a record at the file position; each refused index prints "Bad address!". */
  function Emit(unified: Slots, address: uint32, length: nat, j: nat, f: ResultFile, log: seq<Diagnostic>)
    : (out: (ResultFile, seq<Diagnostic>))
    requires f.pos <= |f.content|
    ensures out.0.pos <= |out.0.content|
    decreases length - j
  {
    if j >= length then (f, log)
    else
      var n := (address + j) % 0x1_0000_0000;
      if n >= UnifiedBufferSize then Emit(unified, address, length, j + 1, f, log + [BadAddress])
      else
        var rec := Record(DecodeVector(SlotAt(unified, n)));
        Emit(unified, address, length, j + 1, ResultFile(Overwrite(f.content, f.pos, rec), f.pos + |rec|), log)
  }

  /** One step of the loop at a refused index: nothing is written. */
  lemma EmitRefused(unified: Slots, address: uint32, length: nat, j: nat, f: ResultFile, log: seq<Diagnostic>)
    requires f.pos <= |f.content| && j < length
    requires (address + j) % 0x1_0000_0000 >= UnifiedBufferSize
    ensures Emit(unified, address, length, j, f, log) == Emit(unified, address, length, j + 1, f, log + [BadAddress])
    ensures Records(unified, address, length, j) == Records(unified, address, length, j + 1)
  {
  }

  /** One step of the loop at a readable index: its record is written at the position. */
  lemma EmitWritten(unified: Slots, address: uint32, length: nat, j: nat, f: ResultFile, log: seq<Diagnostic>)
    returns (rec: String, f': ResultFile)
    requires f.pos <= |f.content| && j < length
    requires (address + j) % 0x1_0000_0000 < UnifiedBufferSize
    ensures f' == ResultFile(Overwrite(f.content, f.pos, rec), f.pos + |rec|)
    ensures Emit(unified, address, length, j, f, log) == Emit(unified, address, length, j + 1, f', log)
    ensures Records(unified, address, length, j) == rec + Records(unified, address, length, j + 1)
  {
    rec := Record(DecodeVector(SlotAt(unified, (address + j) % 0x1_0000_0000)));
    f' := ResultFile(Overwrite(f.content, f.pos, rec), f.pos + |rec|);
  }

  /** The loop leaves the file, up to its final position, as it was up to the starting
      position followed by the records of the readable indices. */
  lemma {:induction false} EmitWritesRecords(unified: Slots, address: uint32, length: nat, j: nat,
                                             f: ResultFile, log: seq<Diagnostic>)
    requires f.pos <= |f.content|
    ensures var out := Emit(unified, address, length, j, f, log);
      && out.0.pos == f.pos + |Records(unified, address, length, j)|
      && out.0.content[..out.0.pos] == f.content[..f.pos] + Records(unified, address, length, j)
    decreases length - j, 1
  {
    if j < length {
      if (address + j) % 0x1_0000_0000 >= UnifiedBufferSize {
        EmitRefused(unified, address, length, j, f, log);
        EmitWritesRecords(unified, address, length, j + 1, f, log + [BadAddress]);
      } else {
        EmitWrittenRecords(unified, address, length, j, f, log);
      }
    }
  }

  /** The step of EmitWritesRecords at a readable index. */
  lemma {:induction false} EmitWrittenRecords(unified: Slots, address: uint32, length: nat, j: nat,
                                              f: ResultFile, log: seq<Diagnostic>)
    requires f.pos <= |f.content| && j < length
    requires (address + j) % 0x1_0000_0000 < UnifiedBufferSize
    ensures var out := Emit(unified, address, length, j, f, log);
      && out.0.pos == f.pos + |Records(unified, address, length, j)|
      && out.0.content[..out.0.pos] == f.content[..f.pos] + Records(unified, address, length, j)
    decreases length - j, 0
  {
    var rest := Records(unified, address, length, j + 1);
    var rec, f' := EmitWritten(unified, address, length, j, f, log);
    EmitWritesRecords(unified, address, length, j + 1, f', log);
    var out := Emit(unified, address, length, j + 1, f', log);
    WriteThenAppend(f.content, f.pos, rec, rest, out.0.content, out.0.pos);
  }

  /** Writing a record at the position and then text after it leaves, up to the end,
      the old prefix, the record and the text. */
  lemma WriteThenAppend(content: String, pos: nat, rec: String, rest: String, final: String, end: nat)
    requires pos <= |content|
    requires end <= |final|
    requires final[..end] == Overwrite(content, pos, rec)[..pos + |rec|] + rest
    ensures end == pos + |rec| + |rest|
    ensures final[..end] == content[..pos] + (rec + rest)
  {
  }

  /** A result line [address, length, append]: append (a char) equal to zero rewinds the
      file to its start first; then the vectors are read and printed. */
  function FeedResult(m: Machine, toks: seq<String>): (r: Machine)
    requires |toks| >= 3 && Valid(m)
    ensures Valid(r) && r.section == m.section && r.trace == m.trace && r.batch == m.batch
    ensures var start := if Strtoul(toks[2]) % 0x100 == 0 then 0 else m.file.pos;
      r.file.content[..r.file.pos]
      == m.file.content[..start] + Records(m.unified, Strtoul(toks[0]), Strtoul(toks[1]), 0)
  {
    var address, length, append := Strtoul(toks[0]), Strtoul(toks[1]), Strtoul(toks[2]) % 0x100;
    var f := if append == 0 then ResultFile(m.file.content, 0) else m.file;
    var out := Emit(m.unified, address, length, 0, f, m.log + Repeat(TokenOutOfBounds, |toks| - 3));
    EmitWritesRecords(m.unified, address, length, 0, f, m.log + Repeat(TokenOutOfBounds, |toks| - 3));
    m.(file := out.0, log := out.1)
  }

  // ---------------------------------------------------------------- the reader

  /** One line of the stream. The line is cut at its line end; a header opens a
      section, "]" closes the open one, and any other line inside a section is
      handled by that section. */
  function Feed(d: Dialect, m: Machine, line: String): (r: Outcome)
    requires Valid(m)
    ensures r.Running? ==> Valid(r.m)
    ensures r.Running? && |m.batch| < BatchCapacity ==> |r.m.batch| < BatchCapacity
    ensures r.Running? && d == Console ==> r.m.section != InResults || m.section == InResults
  {
    var msg := Normalize(line);
    match m.section
    case Idle => Running(Open(d, m, msg))
    case InWeights =>
      if msg == EndMarker then Running(m.(section := Idle)) else FeedVector(m, msg)
    case InInputs =>
      if msg == EndMarker then Running(m.(section := Idle)) else FeedVector(m, msg)
    case InInstructions =>
      if msg == EndMarker then
        Running(m.(section := Idle, trace := m.trace + CompleteEvents(m.batch), batch := [],
                   unified := AfterEngine(m.unified, m.outputs), outputs := LaterOutputs(m.outputs)))
      else
        var toks := Tokens(msg);
        if |toks| < 3 then Faulted(Uninitialised) else Running(FeedInstruction(m, toks))
    case InResults =>
      if msg == EndMarker then
        Running(m.(section := Idle, file := ResultFile(m.file.content[..m.file.pos], m.file.pos)))
      else
        var toks := Tokens(msg);
        if |toks| < 3 then Faulted(Uninitialised) else Running(FeedResult(m, toks))
  }

  /** The same reader with the instruction loop as written. */
  function FeedAsWritten(d: Dialect, m: Machine, line: String): (r: Outcome)
    requires Valid(m)
    ensures r.Running? ==> Valid(r.m)
  {
    if m.section != InInstructions then Feed(d, m, line)
    else
      var msg := Normalize(line);
      var toks := Tokens(msg);
      if msg != EndMarker && |toks| >= 3 then
        AddToBatchAsWritten(m.(log := m.log + Repeat(TokenOutOfBounds, |toks| - 4)), InstructionOfTokens(toks))
      else Feed(d, m, line)
  }

  /** A sequence of lines, stopping at the first fault. */
  function RunLines(d: Dialect, m: Machine, lines: seq<String>): (r: Outcome)
    requires Valid(m)
    ensures r.Running? ==> Valid(r.m)
    decreases |lines|
  {
    if |lines| == 0 then Running(m)
    else
      match Feed(d, m, lines[0])
      case Faulted(f) => Faulted(f)
      case Running(m') => RunLines(d, m', lines[1..])
  }

  /** The same, with the instruction loop as written. */
  function RunLinesAsWritten(d: Dialect, m: Machine, lines: seq<String>): (r: Outcome)
    requires Valid(m)
    ensures r.Running? ==> Valid(r.m)
    decreases |lines|
  {
    if |lines| == 0 then Running(m)
    else
      match FeedAsWritten(d, m, lines[0])
      case Faulted(f) => Faulted(f)
      case Running(m') => RunLinesAsWritten(d, m', lines[1..])
  }

  /** A whole stream from the initial machine. The file reader faults when the file
      ends inside a section; the console reader just stops where the words stop. */
  function Session(d: Dialect, content: String, outputs: seq<Slots>, lines: seq<String>): (r: Outcome)
    ensures r.Running? && d == Script ==> r.m.section == Idle
  {
    match RunLines(d, Initial(content, outputs), lines)
    case Faulted(f) => Faulted(f)
    case Running(m) =>
      if d == Script && m.section != Idle then Faulted(EndOfInputInSection) else Running(m)
  }
}
