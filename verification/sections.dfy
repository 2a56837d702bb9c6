/** What whole sections of a command stream do: which lines open a section,
    where the vectors of a weights or inputs section end up, which bus events an
    instruction section issues, and what a results section leaves in the file. */
module Sections {
  import opened LittleEndian
  import opened Layout
  import opened VectorCodec
  import opened InstructionCodec
  import opened Access
  import opened Text
  import opened Interpreter

  /** Running two pieces of a stream one after the other. */
  lemma {:induction false} RunLinesConcat(d: Dialect, m: Machine, a: seq<String>, b: seq<String>)
    requires Valid(m)
    ensures RunLines(d, m, a + b) ==
      match RunLines(d, m, a)
      case Faulted(f) => Faulted(f)
      case Running(m') => RunLines(d, m', b)
    decreases |a|
  {
    if |a| == 0 {
      assert a + b == b;
    } else {
      assert (a + b)[0] == a[0] && (a + b)[1..] == a[1..] + b;
      match Feed(d, m, a[0])
      case Faulted(f) =>
      case Running(m') => RunLinesConcat(d, m', a[1..], b);
    }
  }

  lemma {:induction false} RunLinesAsWrittenConcat(d: Dialect, m: Machine, a: seq<String>, b: seq<String>)
    requires Valid(m)
    ensures RunLinesAsWritten(d, m, a + b) ==
      match RunLinesAsWritten(d, m, a)
      case Faulted(f) => Faulted(f)
      case Running(m') => RunLinesAsWritten(d, m', b)
    decreases |a|
  {
    if |a| == 0 {
      assert a + b == b;
    } else {
      assert (a + b)[0] == a[0] && (a + b)[1..] == a[1..] + b;
      match FeedAsWritten(d, m, a[0])
      case Faulted(f) =>
      case Running(m') => RunLinesAsWrittenConcat(d, m', a[1..], b);
    }
  }

  // ---------------------------------------------------------------- headers

  /** Outside a section, a line opens a section exactly when, cut at its line end, it
      equals that section's header; the console reader has no results section; any
      other line leaves the machine as it was. */
  lemma HeadersMatchExactly(d: Dialect, m: Machine, line: String)
    requires Valid(m) && m.section == Idle
    ensures Feed(d, m, line).Running?
    ensures var r := Feed(d, m, line).m;
      && (r.section == InWeights <==> Normalize(line) == WeightsHeader)
      && (r.section == InInputs <==> Normalize(line) == InputsHeader)
      && (r.section == InInstructions <==> Normalize(line) == InstructionsHeader)
      && (r.section == InResults <==> d == Script && Normalize(line) == ResultsHeader)
      && (r.section == Idle ==> r == m)
  {
  }

  /** Running a header line, a body and a closing line: the header's effect, then the
      body, then the close. */
  lemma Bracketed(d: Dialect, m: Machine, header: String, lines: seq<String>, close: String)
    requires Valid(m) && Feed(d, m, header).Running?
    ensures var body := RunLines(d, Feed(d, m, header).m, lines);
      RunLines(d, m, [header] + lines + [close]) == if body.Faulted? then body else Feed(d, body.m, close)
  {
    RunLinesConcat(d, m, [header], lines + [close]);
    assert [header] + lines + [close] == [header] + (lines + [close]);
    RunLinesConcat(d, Feed(d, m, header).m, lines, [close]);
  }

  // ---------------------------------------------------------------- vector sections

  /** A line inside a vector section that stores a vector: not "]", at most 14 numbers. */
  predicate IsVectorLine(line: String)
  {
    Normalize(line) != EndMarker && |Tokens(Normalize(line))| <= VectorSize
  }

  function VectorOfLine(line: String): Vector
    requires IsVectorLine(line)
  {
    VectorOfTokens(Tokens(Normalize(line)))
  }

  /** The counter and the buffer of the vector section a machine is in, and that buffer's capacity. */
  function Counter(m: Machine): uint32
  {
    if m.section == InWeights then m.weightAddr else m.inputAddr
  }

  function Region(m: Machine): Slots
  {
    if m.section == InWeights then m.weights else m.unified
  }

  function Capacity(s: Section): nat
  {
    if s == InWeights then WeightBufferSize else UnifiedBufferSize
  }

  /** Inside a vector section, a line that is not "]" goes to FeedVector. */
  lemma FeedVectorLine(d: Dialect, m: Machine, line: String)
    requires Valid(m) && (m.section == InWeights || m.section == InInputs) && IsVectorLine(line)
    ensures Feed(d, m, line) == FeedVector(m, Normalize(line))
  {
  }

  /** What a vector line of at most 14 numbers changes: the buffer of the section, which
      gains the vector at the counter exactly when the counter is in range, and the
      counter, which advances either way. */
  lemma FeedVectorEffect(m: Machine, msg: String)
    requires (m.section == InWeights || m.section == InInputs) && |Tokens(msg)| <= VectorSize
    ensures FeedVector(m, msg).Running?
    ensures var r := FeedVector(m, msg).m;
      var t := EncodeVector(VectorOfTokens(Tokens(msg)));
      && r.section == m.section && r.trace == m.trace && r.file == m.file && r.batch == m.batch
      && Counter(r) == Inc32(Counter(m))
      && Region(r) == (if Counter(m) < Capacity(m.section) then Region(m)[Counter(m) := t] else Region(m))
      && (m.section == InWeights ==> r.unified == m.unified)
      && r.outputs == m.outputs
      && (m.section == InInputs ==> r.weights == m.weights)
  {
  }

  /** One vector line of at most 14 numbers, seen from index k: the index holds the new
      vector when it is the counter and the counter is in range, and is unchanged otherwise. */
  lemma VectorLineStores(m: Machine, msg: String, k: uint32)
    requires (m.section == InWeights || m.section == InInputs) && |Tokens(msg)| <= VectorSize
    ensures FeedVector(m, msg).Running?
    ensures SlotAt(Region(FeedVector(m, msg).m), k)
         == if k == Counter(m) && Counter(m) < Capacity(m.section)
            then EncodeVector(VectorOfTokens(Tokens(msg)))
            else SlotAt(Region(m), k)
  {
    FeedVectorEffect(m, msg);
  }

  /** The first line of a run of vector lines, as one step: the rest of the run starts
      from the machine FeedVector leaves. */
  lemma VectorLinesStep(d: Dialect, m: Machine, lines: seq<String>)
    requires Valid(m) && (m.section == InWeights || m.section == InInputs)
    requires |lines| > 0 && IsVectorLine(lines[0])
    ensures FeedVector(m, Normalize(lines[0])).Running?
    ensures var m' := FeedVector(m, Normalize(lines[0])).m;
      && Valid(m') && m'.section == m.section && Counter(m') == Inc32(Counter(m))
      && RunLines(d, m, lines) == RunLines(d, m', lines[1..])
  {
    FeedVectorLine(d, m, lines[0]);
    FeedVectorEffect(m, Normalize(lines[0]));
  }

  /** A run of vector lines inside a section, starting at counter c with no wrap-around,
      changes only the section's buffer and counter: the counter ends |lines| further on. */
  lemma {:induction false} VectorLinesFrame(d: Dialect, m: Machine, lines: seq<String>)
    requires Valid(m) && (m.section == InWeights || m.section == InInputs)
    requires forall i :: 0 <= i < |lines| ==> IsVectorLine(lines[i])
    requires Counter(m) + |lines| < 0x1_0000_0000
    ensures RunLines(d, m, lines).Running?
    ensures var r := RunLines(d, m, lines).m;
      && r.section == m.section && r.trace == m.trace && r.file == m.file && r.batch == m.batch
      && Counter(r) == Counter(m) + |lines|
      && (m.section == InWeights ==> r.unified == m.unified)
      && r.outputs == m.outputs
      && (m.section == InInputs ==> r.weights == m.weights)
    decreases |lines|
  {
    if |lines| > 0 {
      VectorLinesStep(d, m, lines);
      FeedVectorEffect(m, Normalize(lines[0]));
      VectorLinesFrame(d, FeedVector(m, Normalize(lines[0])).m, lines[1..]);
    }
  }

  /** The same run seen from index n: line n - c is stored there when n is one of the
      indices the run reaches and lies in range; every other index keeps its vector. */
  lemma {:induction false} VectorLinesStore(d: Dialect, m: Machine, lines: seq<String>, n: uint32)
    requires Valid(m) && (m.section == InWeights || m.section == InInputs)
    requires forall i :: 0 <= i < |lines| ==> IsVectorLine(lines[i])
    requires Counter(m) + |lines| < 0x1_0000_0000
    ensures RunLines(d, m, lines).Running?
    ensures SlotAt(Region(RunLines(d, m, lines).m), n)
         == if Counter(m) <= n < Counter(m) + |lines| && n < Capacity(m.section)
            then EncodeVector(VectorOfLine(lines[n - Counter(m)]))
            else SlotAt(Region(m), n)
    decreases |lines|
  {
    VectorLinesFrame(d, m, lines);
    if |lines| > 0 {
      var m' := FeedVector(m, Normalize(lines[0])).m;
      VectorLinesStep(d, m, lines);
      VectorLineStores(m, Normalize(lines[0]), n);
      VectorLinesStore(d, m', lines[1..], n);
      if Counter(m) < n < Counter(m) + |lines| {
        assert lines[1..][n - Counter(m')] == lines[n - Counter(m)];
      }
    }
  }

  /** A closing line inside a vector section just closes it. */
  lemma CloseVectorSection(d: Dialect, m: Machine, close: String)
    requires Valid(m) && (m.section == InWeights || m.section == InInputs) && Normalize(close) == EndMarker
    ensures Feed(d, m, close) == Running(m.(section := Idle))
  {
  }

  /** A whole vector section from the idle state: the machine after the header, the
      machine at the closing line and the machine after it. */
  lemma VectorSection(d: Dialect, m: Machine, header: String, lines: seq<String>, close: String)
      returns (m1: Machine, m2: Machine)
    requires Valid(m) && m.section == Idle
    requires Normalize(header) == WeightsHeader || Normalize(header) == InputsHeader
    requires forall i :: 0 <= i < |lines| ==> IsVectorLine(lines[i])
    requires |lines| < 0x1_0000_0000 && Normalize(close) == EndMarker
    ensures m1 == (if Normalize(header) == WeightsHeader then m.(section := InWeights, weightAddr := 0)
                   else m.(section := InInputs, inputAddr := 0))
    ensures Valid(m1) && RunLines(d, m1, lines) == Running(m2)
    ensures RunLines(d, m, [header] + lines + [close]) == Running(m2.(section := Idle))
    ensures m2.section == m1.section && Counter(m2) == |lines|
    ensures m2.trace == m.trace && m2.batch == m.batch && m2.file == m.file
    ensures Normalize(header) == WeightsHeader ==> m2.unified == m.unified
    ensures m2.outputs == m.outputs
    ensures Normalize(header) == InputsHeader ==> m2.weights == m.weights
  {
    m1 := if Normalize(header) == WeightsHeader then m.(section := InWeights, weightAddr := 0)
          else m.(section := InInputs, inputAddr := 0);
    assert Feed(d, m, header) == Running(m1);
    Bracketed(d, m, header, lines, close);
    VectorLinesFrame(d, m1, lines);
    m2 := RunLines(d, m1, lines).m;
    CloseVectorSection(d, m2, close);
  }

  /** The buffer a run of vector lines leaves, index by index, when the run starts at
      counter zero. */
  lemma VectorRunSlots(d: Dialect, m1: Machine, lines: seq<String>, m2: Machine)
    requires Valid(m1) && (m1.section == InWeights || m1.section == InInputs) && Counter(m1) == 0
    requires forall i :: 0 <= i < |lines| ==> IsVectorLine(lines[i])
    requires |lines| < 0x1_0000_0000 && RunLines(d, m1, lines) == Running(m2)
    ensures forall k: uint32 :: (SlotAt(Region(m2), k)
      == if k < |lines| && k < Capacity(m1.section) then EncodeVector(VectorOfLine(lines[k])) else SlotAt(Region(m1), k))
  {
    forall k: uint32
      ensures SlotAt(Region(m2), k)
           == if k < |lines| && k < Capacity(m1.section) then EncodeVector(VectorOfLine(lines[k]))
              else SlotAt(Region(m1), k)
    {
      VectorLinesStore(d, m1, lines, k);
    }
  }

  /** A whole weights section from the idle state: vector line k ends up at weight index
      k for every k below the buffer's 32768 vectors, every other index keeps its vector,
      and the counter equals the number of lines, whether or not every store was accepted. */
  lemma WeightsSectionStores(d: Dialect, m: Machine, header: String, lines: seq<String>, close: String)
      returns (r: Machine)
    requires Valid(m) && m.section == Idle && Normalize(header) == WeightsHeader
    requires forall i :: 0 <= i < |lines| ==> IsVectorLine(lines[i])
    requires |lines| < 0x1_0000_0000 && Normalize(close) == EndMarker
    ensures RunLines(d, m, [header] + lines + [close]) == Running(r)
    ensures r.section == Idle && r.weightAddr == |lines|
    ensures r.unified == m.unified && r.outputs == m.outputs && r.trace == m.trace && r.batch == m.batch && r.file == m.file
    ensures forall k: uint32 :: (SlotAt(r.weights, k)
      == if k < |lines| && k < WeightBufferSize then EncodeVector(VectorOfLine(lines[k])) else SlotAt(m.weights, k))
  {
    var m1, m2 := VectorSection(d, m, header, lines, close);
    VectorRunSlots(d, m1, lines, m2);
    r := m2.(section := Idle);
  }

  /** A whole inputs section from the idle state: vector line k ends up at unified-buffer
      index k for every k below the buffer's 4096 vectors; every other index keeps its vector. */
  lemma InputsSectionStores(d: Dialect, m: Machine, header: String, lines: seq<String>, close: String)
      returns (r: Machine)
    requires Valid(m) && m.section == Idle && Normalize(header) == InputsHeader
    requires forall i :: 0 <= i < |lines| ==> IsVectorLine(lines[i])
    requires |lines| < 0x1_0000_0000 && Normalize(close) == EndMarker
    ensures RunLines(d, m, [header] + lines + [close]) == Running(r)
    ensures r.section == Idle && r.inputAddr == |lines|
    ensures r.weights == m.weights && r.outputs == m.outputs && r.trace == m.trace && r.batch == m.batch && r.file == m.file
    ensures forall k: uint32 :: (SlotAt(r.unified, k)
      == if k < |lines| && k < UnifiedBufferSize then EncodeVector(VectorOfLine(lines[k])) else SlotAt(m.unified, k))
  {
    var m1, m2 := VectorSection(d, m, header, lines, close);
    VectorRunSlots(d, m1, lines, m2);
    r := m2.(section := Idle);
  }

  // ---------------------------------------------------------------- instruction sections

  /** A line inside an instruction section that describes an instruction: not "]", at
      least three numbers. */
  predicate IsInstructionLine(line: String)
  {
    Normalize(line) != EndMarker && |Tokens(Normalize(line))| >= 3
  }

  function InstructionOfLine(line: String): Instruction
    requires IsInstructionLine(line)
  {
    InstructionOfTokens(Tokens(Normalize(line)))
  }

  /** The instructions a run of instruction lines describes, in order. */
  function InstructionsOf(lines: seq<String>): (inss: seq<Instruction>)
    requires forall i :: 0 <= i < |lines| ==> IsInstructionLine(lines[i])
    ensures |inss| == |lines|
    ensures forall i :: 0 <= i < |lines| ==> inss[i] == InstructionOfLine(lines[i])
  {
    if |lines| == 0 then [] else [InstructionOfLine(lines[0])] + InstructionsOf(lines[1..])
  }

  lemma InstructionsOfCons(lines: seq<String>)
    requires forall i :: 0 <= i < |lines| ==> IsInstructionLine(lines[i])
    requires |lines| > 0
    ensures InstructionsOf(lines) == [InstructionOfLine(lines[0])] + InstructionsOf(lines[1..])
  {
  }

  /** The first line of a run of instruction lines, as one step: the instruction joins the
      queue of what has been issued and what is pending. */
  lemma InstructionLinesStep(d: Dialect, m: Machine, lines: seq<String>) returns (m': Machine)
    requires Valid(m) && m.section == InInstructions
    requires |lines| > 0 && IsInstructionLine(lines[0])
    ensures Valid(m') && RunLines(d, m, lines) == RunLines(d, m', lines[1..])
    ensures m'.section == InInstructions && m'.file == m.file && m'.weights == m.weights && m'.unified == m.unified && m'.outputs == m.outputs
    ensures |m.batch| < BatchCapacity ==> |m'.batch| < BatchCapacity
    ensures m'.trace + Issue(m'.batch) == m.trace + Issue(m.batch + [InstructionOfLine(lines[0])])
  {
    m' := FeedInstruction(m, Tokens(Normalize(lines[0])));
  }

  /** Inside an instruction section, instruction lines only queue up: what has been
      issued followed by what is still pending is everything seen, in order. */
  lemma {:induction false} InstructionLinesQueue(d: Dialect, m: Machine, lines: seq<String>)
    requires Valid(m) && m.section == InInstructions
    requires forall i :: 0 <= i < |lines| ==> IsInstructionLine(lines[i])
    ensures RunLines(d, m, lines).Running?
    ensures var r := RunLines(d, m, lines).m;
      && r.section == InInstructions && r.file == m.file
      && r.weights == m.weights && r.unified == m.unified && r.outputs == m.outputs
      && (|m.batch| < BatchCapacity ==> |r.batch| < BatchCapacity)
      && r.trace + Issue(r.batch) == m.trace + Issue(m.batch + InstructionsOf(lines))
    decreases |lines|
  {
    if |lines| == 0 {
      assert m.batch + InstructionsOf(lines) == m.batch;
    } else {
      var ins := InstructionOfLine(lines[0]);
      var m' := InstructionLinesStep(d, m, lines);
      InstructionLinesQueue(d, m', lines[1..]);
      InstructionsOfCons(lines);
      QueueStep(m.trace, m.batch, m'.trace, m'.batch, ins, InstructionsOf(lines[1..]), InstructionsOf(lines));
    }
  }

  /** The bookkeeping of one queued instruction, apart from the machine. */
  lemma QueueStep(trace: seq<Event>, batch: seq<Instruction>, trace': seq<Event>, batch': seq<Instruction>,
                  ins: Instruction, rest: seq<Instruction>, all: seq<Instruction>)
    requires trace' + Issue(batch') == trace + Issue(batch + [ins])
    requires all == [ins] + rest
    ensures trace' + Issue(batch' + rest) == trace + Issue(batch + all)
  {
    AppendAssoc(batch, [ins], rest);
    IssueConcat(batch', rest);
    IssueConcat(batch + [ins], rest);
    AppendAssoc(trace', Issue(batch'), Issue(rest));
    AppendAssoc(trace, Issue(batch + [ins]), Issue(rest));
  }

  lemma AppendAssoc<T>(a: seq<T>, b: seq<T>, c: seq<T>)
    ensures a + (b + c) == (a + b) + c
  {
  }

  /** Appending an instruction and then the rest is appending the whole run. */
  lemma AppendCons(batch: seq<Instruction>, ins: Instruction, rest: seq<Instruction>, all: seq<Instruction>)
    requires all == [ins] + rest
    ensures batch + [ins] + rest == batch + all
  {
  }

  /** Closing a queue that holds a whole run: the run is issued, then the wait and the read. */
  lemma CloseQueue(trace: seq<Event>, trace': seq<Event>, batch': seq<Instruction>, all: seq<Instruction>)
    requires trace' + Issue(batch') == trace + Issue([] + all)
    ensures trace' + CompleteEvents(batch') == trace + CompleteEvents(all)
  {
    assert [] + all == all;
    AppendAssoc(trace', Issue(batch'), [AwaitCompletion, CyclesRead]);
    AppendAssoc(trace, Issue(all), [AwaitCompletion, CyclesRead]);
  }

  /** A closing line inside an instruction section issues what is pending, waits and reads
      the counter. */
  lemma CloseInstructionSection(d: Dialect, m: Machine, close: String)
    requires Valid(m) && m.section == InInstructions && Normalize(close) == EndMarker
    ensures Feed(d, m, close) == Running(m.(section := Idle, trace := m.trace + CompleteEvents(m.batch), batch := [],
                                             unified := AfterEngine(m.unified, m.outputs), outputs := LaterOutputs(m.outputs)))
    ensures FeedAsWritten(d, m, close) == Feed(d, m, close)
  {
  }

  /** A header line of an instruction section opens it with an empty batch. */
  lemma OpenInstructionSection(d: Dialect, m: Machine, header: String)
    requires Valid(m) && m.section == Idle && Normalize(header) == InstructionsHeader
    ensures Feed(d, m, header) == Running(m.(section := InInstructions, batch := []))
    ensures FeedAsWritten(d, m, header) == Feed(d, m, header)
  {
  }

  /** A whole instruction section from the idle state issues every instruction of the
      section, in order, then waits for completion and reads the cycle counter; nothing is
      left pending and the buffers and the result file are untouched. */
  lemma InstructionSectionIssuesAll(d: Dialect, m: Machine, header: String, lines: seq<String>, close: String)
    requires Valid(m) && m.section == Idle && Normalize(header) == InstructionsHeader
    requires forall i :: 0 <= i < |lines| ==> IsInstructionLine(lines[i])
    requires Normalize(close) == EndMarker
    ensures RunLines(d, m, [header] + lines + [close]).Running?
    ensures var r := RunLines(d, m, [header] + lines + [close]).m;
      && r.section == Idle && r.batch == [] && r.weights == m.weights && r.unified == AfterEngine(m.unified, m.outputs)
      && r.outputs == LaterOutputs(m.outputs)
      && r.file == m.file && r.trace == m.trace + CompleteEvents(InstructionsOf(lines))
  {
    OpenInstructionSection(d, m, header);
    var m1 := m.(section := InInstructions, batch := []);
    Bracketed(d, m, header, lines, close);
    InstructionLinesQueue(d, m1, lines);
    var m2 := RunLines(d, m1, lines).m;
    CloseInstructionSection(d, m2, close);
    CloseQueue(m.trace, m2.trace, m2.batch, InstructionsOf(lines));
  }

  /** The events an instruction section adds: instruction i of the section is issued as
      event i, and the one wait for completion comes after all of them, just before the
      read of the cycle counter. */
  lemma CompleteEventsOrder(inss: seq<Instruction>)
    ensures var es := CompleteEvents(inss);
      && (forall i :: 0 <= i < |inss| ==> es[i] == Issued(inss[i]))
      && (forall i :: 0 <= i < |es| ==> (es[i] == AwaitCompletion <==> i == |inss|))
  {
    var es := CompleteEvents(inss);
    forall i | 0 <= i < |inss|
      ensures es[i] == Issued(inss[i])
    {
      IssueAt(inss, i);
      assert es[i] == es[..|inss|][i];
    }
  }

  // ---------------------------------------------------------------- the batch bound as written

  lemma BracketedAsWritten(d: Dialect, m: Machine, header: String, lines: seq<String>, close: String)
    requires Valid(m) && FeedAsWritten(d, m, header).Running?
    ensures var body := RunLinesAsWritten(d, FeedAsWritten(d, m, header).m, lines);
      RunLinesAsWritten(d, m, [header] + lines + [close])
      == if body.Faulted? then body else FeedAsWritten(d, body.m, close)
  {
    RunLinesAsWrittenConcat(d, m, [header], lines + [close]);
    assert [header] + lines + [close] == [header] + (lines + [close]);
    RunLinesAsWrittenConcat(d, FeedAsWritten(d, m, header).m, lines, [close]);
  }

  /** The machine after an instruction line joins the batch as written. */
  function Queued(m: Machine, line: String): Machine
    requires IsInstructionLine(line)
  {
    m.(log := m.log + Repeat(TokenOutOfBounds, |Tokens(Normalize(line))| - 4),
       batch := m.batch + [InstructionOfLine(line)])
  }

  /** The first instruction line of a run, with the loop as written: the instruction
      joins the batch, or the batch is full and the store overruns it. */
  lemma InstructionLinesAsWrittenStep(d: Dialect, m: Machine, lines: seq<String>)
    requires Valid(m) && m.section == InInstructions
    requires |lines| > 0 && IsInstructionLine(lines[0])
    ensures Valid(Queued(m, lines[0]))
    ensures RunLinesAsWritten(d, m, lines) ==
      if |m.batch| < BatchCapacity then RunLinesAsWritten(d, Queued(m, lines[0]), lines[1..])
      else Faulted(BatchOverrun)
  {
    assert FeedAsWritten(d, m, lines[0]) ==
      if |m.batch| < BatchCapacity then Running(Queued(m, lines[0])) else Faulted(BatchOverrun);
  }

  /** With the loop as written, instruction lines only accumulate while they fit in the
      512 entries of the batch. */
  lemma {:induction false} InstructionLinesAsWrittenFit(d: Dialect, m: Machine, lines: seq<String>)
    requires Valid(m) && m.section == InInstructions && |m.batch| + |lines| <= BatchCapacity
    requires forall i :: 0 <= i < |lines| ==> IsInstructionLine(lines[i])
    ensures RunLinesAsWritten(d, m, lines).Running?
    ensures var r := RunLinesAsWritten(d, m, lines).m;
      r.section == InInstructions && r.trace == m.trace && r.batch == m.batch + InstructionsOf(lines)
    decreases |lines|
  {
    if |lines| == 0 {
      assert m.batch + InstructionsOf(lines) == m.batch;
    } else {
      InstructionLinesAsWrittenStep(d, m, lines);
      var m' := Queued(m, lines[0]);
      InstructionLinesAsWrittenFit(d, m', lines[1..]);
      InstructionsOfCons(lines);
      AppendCons(m.batch, InstructionOfLine(lines[0]), InstructionsOf(lines[1..]), InstructionsOf(lines));
    }
  }

  /** With the loop as written, the instruction line that would be entry 513 of the batch
      faults. */
  lemma {:induction false} InstructionLinesAsWrittenOverrun(d: Dialect, m: Machine, lines: seq<String>)
    requires Valid(m) && m.section == InInstructions && |m.batch| <= BatchCapacity < |m.batch| + |lines|
    requires forall i :: 0 <= i < |lines| ==> IsInstructionLine(lines[i])
    ensures RunLinesAsWritten(d, m, lines) == Faulted(BatchOverrun)
    decreases |lines|
  {
    InstructionLinesAsWrittenStep(d, m, lines);
    if |m.batch| < BatchCapacity {
      InstructionLinesAsWrittenOverrun(d, Queued(m, lines[0]), lines[1..]);
    }
  }

  /** The batch bound as written: an instruction section of more than 512 instructions
      faults, whereas the corrected loop issues them all (InstructionSectionIssuesAll);
      with at most 512 instructions both issue the same events. */
  lemma AsWrittenBatchBound(d: Dialect, m: Machine, header: String, lines: seq<String>, close: String)
    requires Valid(m) && m.section == Idle && Normalize(header) == InstructionsHeader
    requires forall i :: 0 <= i < |lines| ==> IsInstructionLine(lines[i])
    requires Normalize(close) == EndMarker
    ensures |lines| > BatchCapacity ==>
      RunLinesAsWritten(d, m, [header] + lines + [close]) == Faulted(BatchOverrun)
    ensures |lines| <= BatchCapacity ==>
      && RunLinesAsWritten(d, m, [header] + lines + [close]).Running?
      && RunLines(d, m, [header] + lines + [close]).Running?
      && RunLinesAsWritten(d, m, [header] + lines + [close]).m.trace
         == RunLines(d, m, [header] + lines + [close]).m.trace
  {
    InstructionSectionIssuesAll(d, m, header, lines, close);
    OpenInstructionSection(d, m, header);
    var m1 := m.(section := InInstructions, batch := []);
    BracketedAsWritten(d, m, header, lines, close);
    if |lines| <= BatchCapacity {
      InstructionLinesAsWrittenFit(d, m1, lines);
      assert m1.batch + InstructionsOf(lines) == InstructionsOf(lines);
      CloseInstructionSection(d, RunLinesAsWritten(d, m1, lines).m, close);
    } else {
      InstructionLinesAsWrittenOverrun(d, m1, lines);
    }
  }

  /** The synchronize instruction line "[255,0,0]". */
  const SynchronizeText: String := ListText(DecList([SynchronizeOpCode as int, 0, 0])) + "\n"

  /** 513 synchronize instruction lines, one more than a batch holds. */
  function SynchronizeLines(): seq<String>
  {
    seq(BatchCapacity + 1, i => SynchronizeText)
  }

  lemma SynchronizeLinesAreInstructions()
    ensures |SynchronizeLines()| == BatchCapacity + 1
    ensures forall i :: 0 <= i < |SynchronizeLines()| ==> IsInstructionLine(SynchronizeLines()[i])
  {
    SynchronizeLine();
  }

  /** A concrete stream the bound lets through: with the loop as written, an instruction
      section of 513 synchronize instructions overruns the batch. */
  lemma AsWrittenOverrunsOn513Instructions(m: Machine)
    requires Valid(m) && m.section == Idle
    ensures RunLinesAsWritten(Script, m, [InstructionsHeader] + SynchronizeLines() + [EndMarker])
         == Faulted(BatchOverrun)
  {
    SynchronizeLinesAreInstructions();
    MarkersAreClean();
    AsWrittenBatchBound(Script, m, InstructionsHeader, SynchronizeLines(), EndMarker);
  }

  /** The same stream with the corrected loop issues all 513 instructions. */
  lemma CorrectedIssues513Instructions(m: Machine)
    requires Valid(m) && m.section == Idle
    ensures forall i :: 0 <= i < |SynchronizeLines()| ==> IsInstructionLine(SynchronizeLines()[i])
    ensures RunLines(Script, m, [InstructionsHeader] + SynchronizeLines() + [EndMarker]).Running?
    ensures RunLines(Script, m, [InstructionsHeader] + SynchronizeLines() + [EndMarker]).m.trace
         == m.trace + CompleteEvents(InstructionsOf(SynchronizeLines()))
  {
    SynchronizeLinesAreInstructions();
    MarkersAreClean();
    InstructionSectionIssuesAll(Script, m, InstructionsHeader, SynchronizeLines(), EndMarker);
  }

  /** The synchronize line is an instruction line. */
  lemma SynchronizeLine()
    ensures IsInstructionLine(SynchronizeText)
  {
    DecListLine([SynchronizeOpCode as int, 0, 0]);
  }

  // ---------------------------------------------------------------- results sections

  /** A line inside a results section that requests records: not "]", at least three numbers. */
  predicate IsResultLine(line: String)
  {
    Normalize(line) != EndMarker && |Tokens(Normalize(line))| >= 3
  }

  /** The records a result line asks for. */
  function RequestedRecords(unified: Slots, line: String): String
    requires IsResultLine(line)
  {
    var toks := Tokens(Normalize(line));
    Records(unified, Strtoul(toks[0]), Strtoul(toks[1]), 0)
  }

  /** Whether a result line rewinds the file first: its third number, as a char, is zero. */
  predicate Rewinds(line: String)
    requires IsResultLine(line)
  {
    Strtoul(Tokens(Normalize(line))[2]) % 0x100 == 0
  }

  /** A header line of a results section opens it with the position at the end of the file. */
  lemma OpenResultsSection(m: Machine, header: String)
    requires Valid(m) && m.section == Idle && Normalize(header) == ResultsHeader
    ensures Feed(Script, m, header)
         == Running(m.(section := InResults, file := ResultFile(m.file.content, |m.file.content|)))
  {
  }

  /** One result line: the file up to the position is the old content up to the position
      (or nothing, when the line rewinds) followed by the requested records. */
  lemma ResultLineStep(m: Machine, lines: seq<String>) returns (m': Machine)
    requires Valid(m) && m.section == InResults && |lines| > 0 && IsResultLine(lines[0])
    ensures Valid(m') && RunLines(Script, m, lines) == RunLines(Script, m', lines[1..])
    ensures m'.section == InResults && m'.weights == m.weights && m'.unified == m.unified && m'.outputs == m.outputs
    ensures m'.trace == m.trace && m'.batch == m.batch
    ensures m'.file.content[..m'.file.pos]
         == (if Rewinds(lines[0]) then [] else m.file.content[..m.file.pos])
            + RequestedRecords(m.unified, lines[0])
  {
    m' := FeedResult(m, Tokens(Normalize(lines[0])));
  }

  /** The records of a run of result lines, from the last one that rewinds on. */
  function Transcript(unified: Slots, lines: seq<String>, before: String): String
    requires forall i :: 0 <= i < |lines| ==> IsResultLine(lines[i])
    decreases |lines|
  {
    if |lines| == 0 then before
    else
      var start := if Rewinds(lines[0]) then [] else before;
      Transcript(unified, lines[1..], start + RequestedRecords(unified, lines[0]))
  }

  /** Inside a results section, result lines leave the file, up to the position, holding
      the transcript: records accumulate after the old content and a rewinding line starts
      over. The buffers and the events are untouched. */
  lemma {:induction false} ResultLinesTranscript(m: Machine, lines: seq<String>)
    requires Valid(m) && m.section == InResults
    requires forall i :: 0 <= i < |lines| ==> IsResultLine(lines[i])
    ensures RunLines(Script, m, lines).Running?
    ensures var r := RunLines(Script, m, lines).m;
      && r.section == InResults && r.weights == m.weights && r.unified == m.unified && r.outputs == m.outputs
      && r.trace == m.trace && r.batch == m.batch
      && r.file.content[..r.file.pos] == Transcript(m.unified, lines, m.file.content[..m.file.pos])
    decreases |lines|
  {
    if |lines| > 0 {
      var m' := ResultLineStep(m, lines);
      ResultLinesTranscript(m', lines[1..]);
    }
  }

  /** A closing line inside a results section cuts the file at the position. */
  lemma CloseResultsSection(m: Machine, close: String)
    requires Valid(m) && m.section == InResults && Normalize(close) == EndMarker
    ensures Feed(Script, m, close)
         == Running(m.(section := Idle, file := ResultFile(m.file.content[..m.file.pos], m.file.pos)))
  {
  }

  /** A whole results section from the idle state leaves the file holding exactly the
      transcript of its lines, starting from the old content; the buffers and the events
      are untouched. */
  lemma ResultsSectionWrites(m: Machine, header: String, lines: seq<String>, close: String)
    requires Valid(m) && m.section == Idle && Normalize(header) == ResultsHeader
    requires forall i :: 0 <= i < |lines| ==> IsResultLine(lines[i])
    requires Normalize(close) == EndMarker
    ensures RunLines(Script, m, [header] + lines + [close]).Running?
    ensures var r := RunLines(Script, m, [header] + lines + [close]).m;
      && r.section == Idle && r.weights == m.weights && r.unified == m.unified && r.outputs == m.outputs
      && r.trace == m.trace && r.batch == m.batch
      && r.file.content == Transcript(m.unified, lines, m.file.content)
  {
    OpenResultsSection(m, header);
    var m1 := m.(section := InResults, file := ResultFile(m.file.content, |m.file.content|));
    assert m1.file.content[..m1.file.pos] == m.file.content;
    Bracketed(Script, m, header, lines, close);
    ResultLinesTranscript(m1, lines);
    CloseResultsSection(RunLines(Script, m1, lines).m, close);
  }

  // ---------------------------------------------------------------- sessions

  /** A stream that has closed every section it opened runs to its end; the same stream
      with one more header opens a section it never closes, on which the file reader
      faults and at which the console reader stops, the section still open. */
  lemma SessionEndsInSection(d: Dialect, content: String, outputs: seq<Slots>, lines: seq<String>, header: String)
    requires RunLines(d, Initial(content, outputs), lines).Running?
    requires RunLines(d, Initial(content, outputs), lines).m.section == Idle
    requires Normalize(header) == WeightsHeader || Normalize(header) == InputsHeader
          || Normalize(header) == InstructionsHeader
    ensures Session(d, content, outputs, lines) == RunLines(d, Initial(content, outputs), lines)
    ensures d == Script ==> Session(d, content, outputs, lines + [header]) == Faulted(EndOfInputInSection)
    ensures d == Console ==>
      && Session(d, content, outputs, lines + [header]).Running?
      && Session(d, content, outputs, lines + [header]).m.section != Idle
  {
    var m := RunLines(d, Initial(content, outputs), lines).m;
    RunLinesConcat(d, Initial(content, outputs), lines, [header]);
    assert RunLines(d, m, [header]) == Running(Open(d, m, Normalize(header)));
  }
}
