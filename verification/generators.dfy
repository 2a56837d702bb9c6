/** The text the Python generators write: weights.txt (transfer_weights.py),
    inputs.txt (transfer_input.py), instructions.txt (transfer_instructions.py) and
    complete.txt (transfer_complete_model.py). A file is the sequence of its lines,
    each with its line feed, which is how the stream readers see it. */
module Generators {
  import opened LittleEndian
  import opened Layout
  import opened InstructionCodec
  import opened Text
  import opened Interpreter
  import opened Tiling

  /** One printed list: str() of a Python list with the spaces (and, in the input
      scripts, the quotes around stringified entries) removed, then a line feed. */
  function ListLine(vs: seq<int>): String
  {
    ListText(DecList(vs)) + "\n"
  }

  function ListLines(vss: seq<seq<int>>): (ls: seq<String>)
    ensures |ls| == |vss|
  {
    seq(|vss|, i requires 0 <= i < |vss| => ListLine(vss[i]))
  }

  /** A section of a file: its header line, the body and the closing "]". */
  function Framed(header: String, body: seq<String>): seq<String>
  {
    [header + "\n"] + body + [EndMarker + "\n"]
  }

  // ---------------------------------------------------------------- weights.txt and inputs.txt

  /** weights.txt for the weight matrices of the model, in file-name order. */
  function WeightsText(layers: seq<Loaded>, w: nat): seq<String>
    requires w > 0
  {
    Framed(WeightsHeader, ListLines(WeightVectors(layers, w)))
  }

  /** The inputs section of one block of input rows. */
  function InputsSection(vs: seq<Vec>): seq<String>
  {
    Framed(InputsHeader, ListLines(vs))
  }

  /** inputs.txt for the W rows of the input matrix from row s on. */
  function InputsText(x: Loaded, s: nat, w: nat): Generated<seq<String>>
    requires w > 0
  {
    var sel := SelectRows(x, s, w);
    assert |sel| > 0 ==> Shaped(sel, |sel[0]|) by {
      if |sel| > 0 {
        assert sel[0] == x[s];
      }
    }
    match InputVectors(sel, w)
    case IndexError => IndexError
    case Produced(vs) => Produced(InputsSection(vs))
  }

  /** transfer_input.py raises IndexError exactly when no row is left at the offset, or
      when fewer than W rows are left of a matrix with columns. */
  lemma InputsTextFails(x: Loaded, s: nat, w: nat)
    requires w > 0
    ensures InputsText(x, s, w).IndexError? <==> |x| <= s || (Width(x) > 0 && |x| - s < w)
  {
  }

  // ---------------------------------------------------------------- instructions.txt

  /** The op codes transfer_instructions.py writes. */
  const LoadWeightsSigned: byte := 0x09                 // 0b00001001
  const MultiplySigned: byte := 0x21                    // 0b00100001
  const MultiplySignedAccumulate: byte := 0x23          // 0b00100011
  const SigmoidActivationSigned: byte := 0x99           // 0b10011001

  /** The padded row count R and the number of 14-column blocks of a weight matrix. */
  function PaddedRows(a: Matrix): nat
  {
    Padded(|a|, TpuWidth)
  }

  function ColumnBlocksOf(a: Loaded): nat
  {
    Blocks(Width(a), TpuWidth)
  }

  /** One line of instructions.txt: three numbers for an instruction with a weight
      address, four for one with an accumulator and a buffer address. */
  datatype Command =
    | WeightCommand(op: int, length: int, weight: int)
    | BufferCommand(op: int, length: int, acc: int, buffer: int)

  /** The numbers a command line prints, in order. */
  function Values(cmd: Command): (vs: seq<int>)
  {
    match cmd
    case WeightCommand(op, length, weight) => [op, length, weight]
    case BufferCommand(op, length, acc, buffer) => [op, length, acc, buffer]
  }

  /** The five instructions of column block c of a layer with R padded rows, whose weights
      start at wc, whose inputs start at ib and whose activations go from ic on: load the
      first 14 weight rows, multiply, load the remaining R - 14 rows, multiply and
      accumulate, and the sigmoid activation into the unified buffer. */
  datatype ColumnCode = ColumnCode(load: Command, multiply: Command, loadRest: Command, accumulate: Command,
                                   activate: Command)

  function ColumnProgram(rows: nat, c: nat, wc: nat, ib: nat, ic: nat): ColumnCode
  {
    ColumnCode(WeightCommand(LoadWeightsSigned as int, TpuWidth, c * rows + wc),
               BufferCommand(MultiplySigned as int, TpuWidth, c * TpuWidth, ib),
               WeightCommand(LoadWeightsSigned as int, rows - TpuWidth, c * rows + TpuWidth + wc),
               BufferCommand(MultiplySignedAccumulate as int, rows - TpuWidth, c * TpuWidth, ib + TpuWidth),
               BufferCommand(SigmoidActivationSigned as int, TpuWidth, c * TpuWidth, ic + c * TpuWidth))
  }

  /** The lines a column block writes, in order. */
  function Commands(code: ColumnCode): (cmds: seq<Command>)
    ensures |cmds| == 5
  {
    [code.load, code.multiply, code.loadRest, code.accumulate, code.activate]
  }

  /** The instructions of a run of column blocks, block after block. */
  function Flatten(codes: seq<ColumnCode>): (cmds: seq<Command>)
  {
    if |codes| == 0 then [] else Commands(codes[0]) + Flatten(codes[1..])
  }

  /** Five instructions per block, and instruction t of block b is instruction t of the
      block's code. */
  lemma {:induction false} FlattenAt(codes: seq<ColumnCode>, b: nat, t: nat)
    requires b < |codes| && t < 5
    ensures |Flatten(codes)| == 5 * |codes|
    ensures Flatten(codes)[5 * b + t] == Commands(codes[b])[t]
    decreases b
  {
    var head, tail := Commands(codes[0]), Flatten(codes[1..]);
    if b > 0 {
      assert codes[1..][b - 1] == codes[b];
      FlattenAt(codes[1..], b - 1, t);
      assert (head + tail)[5 * b + t] == tail[5 * (b - 1) + t];
    } else {
      FlattenLength(codes[1..]);
      assert (head + tail)[t] == head[t];
    }
  }

  lemma {:induction false} FlattenLength(codes: seq<ColumnCode>)
    ensures |Flatten(codes)| == 5 * |codes|
    decreases |codes|
  {
    if |codes| > 0 {
      FlattenLength(codes[1..]);
    }
  }

  /** for matrix_column in range(c, column_length): the column blocks of one layer. */
  function LayerProgram(rows: nat, nc: nat, wc: nat, ib: nat, ic: nat, c: nat): seq<ColumnCode>
    decreases nc - c
  {
    if c >= nc then [] else [ColumnProgram(rows, c, wc, ib, ic)] + LayerProgram(rows, nc, wc, ib, ic, c + 1)
  }

  /** All the instruction generator needs of a weight matrix: its padded row count R and
      its number of column blocks. */
  datatype Shape = Shape(rows: nat, blocks: nat)

  function Shapes(layers: seq<Loaded>): (ss: seq<Shape>)
    ensures |ss| == |layers|
  {
    seq(|layers|, l requires 0 <= l < |layers| => Shape(PaddedRows(layers[l]), ColumnBlocksOf(layers[l])))
  }

  /** The column blocks for layers l onwards, given weight_count and input_count so far.
      input_count grows by R before the layer, and input_base is its value before that. */
  function Program(shapes: seq<Shape>, l: nat, wc: nat, ic: nat): seq<ColumnCode>
    requires l <= |shapes|
    decreases |shapes| - l
  {
    if l == |shapes| then []
    else
      var rows, nc := shapes[l].rows, shapes[l].blocks;
      LayerProgram(rows, nc, wc, ic, ic + rows, 0) + Program(shapes, l + 1, wc + nc * rows, ic + rows)
  }

  /** The synchronize instruction that ends the program. */
  const Synchronize: Command := WeightCommand(SynchronizeOpCode as int, 0, 0)

  /** The instructions transfer_instructions.py writes: every column block of every layer,
      then the synchronize instruction. */
  function Instructions(shapes: seq<Shape>): seq<Command>
  {
    Flatten(Program(shapes, 0, 0, 0)) + [Synchronize]
  }

  /** The lines of a sequence of commands. */
  function CommandLines(cmds: seq<Command>): (ls: seq<String>)
    ensures |ls| == |cmds|
  {
    seq(|cmds|, i requires 0 <= i < |cmds| => ListLine(Values(cmds[i])))
  }

  /** instructions.txt for the weight matrices of the model. */
  function InstructionsText(layers: seq<Loaded>): seq<String>
  {
    Framed(InstructionsHeader, CommandLines(Instructions(Shapes(layers))))
  }

  /** The column blocks, padded rows and weight vectors of layers j .. l - 1. */
  function BlocksFrom(shapes: seq<Shape>, j: nat, l: nat): nat
    requires l <= |shapes|
    decreases l - j
  {
    if j >= l then 0 else shapes[j].blocks + BlocksFrom(shapes, j + 1, l)
  }

  function RowsFrom(shapes: seq<Shape>, j: nat, l: nat): nat
    requires l <= |shapes|
    decreases l - j
  {
    if j >= l then 0 else shapes[j].rows + RowsFrom(shapes, j + 1, l)
  }

  function WeightsFrom(shapes: seq<Shape>, j: nat, l: nat): nat
    requires l <= |shapes|
    decreases l - j
  {
    if j >= l then 0 else shapes[j].blocks * shapes[j].rows + WeightsFrom(shapes, j + 1, l)
  }

  /** Taking one more layer adds that layer's blocks, rows and weight vectors. */
  lemma {:induction false} FromGrows(shapes: seq<Shape>, j: nat, l: nat)
    requires j <= l < |shapes|
    ensures BlocksFrom(shapes, j, l + 1) == BlocksFrom(shapes, j, l) + shapes[l].blocks
    ensures RowsFrom(shapes, j, l + 1) == RowsFrom(shapes, j, l) + shapes[l].rows
    ensures WeightsFrom(shapes, j, l + 1) == WeightsFrom(shapes, j, l) + shapes[l].blocks * shapes[l].rows
    decreases l - j
  {
    if j < l {
      FromGrows(shapes, j + 1, l);
    }
  }

  /** The weight vectors counted for layers j .. l - 1 are the vectors those layers
      contribute to weights.txt. */
  lemma {:induction false} WeightsFromBase(layers: seq<Loaded>, j: nat, l: nat)
    requires j <= l <= |layers|
    ensures WeightsFrom(Shapes(layers), j, l) == WeightBase(layers[j..], TpuWidth, l - j)
    decreases l - j
  {
    if j < l {
      var shapes, a := Shapes(layers), layers[j];
      var n, rest := |LayerVectors(a, TpuWidth)|, WeightBase(layers[j + 1..], TpuWidth, l - j - 1);
      LayerVectorCount(a, TpuWidth);
      assert shapes[j].blocks * shapes[j].rows == n;
      WeightsFromBase(layers, j + 1, l);
      assert WeightsFrom(shapes, j, l) == n + rest;
      assert layers[j..][0] == a && layers[j..][1..] == layers[j + 1..];
      assert WeightBase(layers[j..], TpuWidth, l - j) == n + rest;
    }
  }

  /** A layer program has one block per column block, and block b is the column program
      of column block c + b. */
  lemma {:induction false} LayerProgramAt(rows: nat, nc: nat, wc: nat, ib: nat, ic: nat, c: nat, b: nat)
    requires c <= nc && c + b < nc
    ensures |LayerProgram(rows, nc, wc, ib, ic, c)| == nc - c
    ensures LayerProgram(rows, nc, wc, ib, ic, c)[b] == ColumnProgram(rows, c + b, wc, ib, ic)
    decreases nc - c
  {
    var head, tail := [ColumnProgram(rows, c, wc, ib, ic)], LayerProgram(rows, nc, wc, ib, ic, c + 1);
    if b > 0 {
      LayerProgramAt(rows, nc, wc, ib, ic, c + 1, b - 1);
      assert (head + tail)[b] == tail[b - 1];
    } else {
      LayerProgramLength(rows, nc, wc, ib, ic, c + 1);
    }
  }

  /** The length of a layer program. */
  lemma {:induction false} LayerProgramLength(rows: nat, nc: nat, wc: nat, ib: nat, ic: nat, c: nat)
    requires c <= nc
    ensures |LayerProgram(rows, nc, wc, ib, ic, c)| == nc - c
    decreases nc - c
  {
    if c < nc {
      LayerProgramLength(rows, nc, wc, ib, ic, c + 1);
    }
  }

  /** The program has one block per column block of every layer. */
  lemma {:induction false} ProgramLength(shapes: seq<Shape>, l: nat, wc: nat, ic: nat)
    requires l <= |shapes|
    ensures |Program(shapes, l, wc, ic)| == BlocksFrom(shapes, l, |shapes|)
    decreases |shapes| - l
  {
    if l < |shapes| {
      var rows, nc := shapes[l].rows, shapes[l].blocks;
      LayerProgramLength(rows, nc, wc, ic, ic + rows, 0);
      ProgramLength(shapes, l + 1, wc + nc * rows, ic + rows);
    }
  }

  /** Column block c of layer l is block (blocks before l) + c of the program, with the
      weights of layer l starting after the weight vectors of the earlier layers,
      input_base the padded rows of the earlier layers, and input_count that plus R. */
  lemma {:induction false} ProgramAt(shapes: seq<Shape>, j: nat, wc: nat, ic: nat, l: nat, c: nat)
    requires j <= l < |shapes| && c < shapes[l].blocks
    ensures BlocksFrom(shapes, j, l) + c < |Program(shapes, j, wc, ic)|
    ensures Program(shapes, j, wc, ic)[BlocksFrom(shapes, j, l) + c]
         == ColumnProgram(shapes[l].rows, c, wc + WeightsFrom(shapes, j, l),
                          ic + RowsFrom(shapes, j, l), ic + RowsFrom(shapes, j, l) + shapes[l].rows)
    decreases l - j
  {
    var rows, nc := shapes[j].rows, shapes[j].blocks;
    var head, tail := LayerProgram(rows, nc, wc, ic, ic + rows, 0), Program(shapes, j + 1, wc + nc * rows, ic + rows);
    LayerProgramLength(rows, nc, wc, ic, ic + rows, 0);
    if l == j {
      LayerProgramAt(rows, nc, wc, ic, ic + rows, 0, c);
      assert (head + tail)[c] == head[c];
    } else {
      ProgramAt(shapes, j + 1, wc + nc * rows, ic + rows, l, c);
      var k := BlocksFrom(shapes, j + 1, l) + c;
      assert (head + tail)[nc + k] == tail[k];
    }
  }

  /** The instructions: five per column block, the block's code in order, and the
      synchronize instruction last. */
  lemma InstructionAt(shapes: seq<Shape>, l: nat, c: nat, t: nat)
    requires l < |shapes| && c < shapes[l].blocks && t < 5
    ensures var ins, i := Instructions(shapes), 5 * (BlocksFrom(shapes, 0, l) + c) + t;
      && |ins| == 5 * BlocksFrom(shapes, 0, |shapes|) + 1 && ins[|ins| - 1] == Synchronize
      && i < |ins| - 1
      && ins[i] == Commands(ColumnProgram(shapes[l].rows, c, WeightsFrom(shapes, 0, l),
                                          RowsFrom(shapes, 0, l), RowsFrom(shapes, 0, l) + shapes[l].rows))[t]
  {
    var p := Program(shapes, 0, 0, 0);
    ProgramAt(shapes, 0, 0, 0, l, c);
    ProgramLength(shapes, 0, 0, 0);
    FlattenAt(p, BlocksFrom(shapes, 0, l) + c, t);
    var i := 5 * (BlocksFrom(shapes, 0, l) + c) + t;
    assert (Flatten(p) + [Synchronize])[i] == Flatten(p)[i];
  }

  /** The two weight loads of column block c of layer l: 14 vectors from the block's first
      weight vector, then the R - 14 vectors after them. */
  lemma LoadPair(shapes: seq<Shape>, l: nat, c: nat)
    requires l < |shapes| && c < shapes[l].blocks
    ensures var p, i := Instructions(shapes), 5 * (BlocksFrom(shapes, 0, l) + c);
      var first := c * shapes[l].rows + WeightsFrom(shapes, 0, l);
      && i + 2 < |p|
      && p[i] == WeightCommand(LoadWeightsSigned as int, TpuWidth, first)
      && p[i + 2] == WeightCommand(LoadWeightsSigned as int, shapes[l].rows - TpuWidth, first + TpuWidth)
  {
    InstructionAt(shapes, l, c, 0);
    InstructionAt(shapes, l, c, 2);
  }

  /** Weight vector r of column block c of layer l sits c * R + r vectors after the
      vectors of the earlier layers, and holds padded row r of the layer, columns
      14c .. 14c + 13. */
  lemma TileVector(layers: seq<Loaded>, l: nat, c: nat, r: nat, k: nat)
    requires l < |layers| && c < ColumnBlocksOf(layers[l]) && r < PaddedRows(layers[l])
    requires k == c * PaddedRows(layers[l]) + r
    ensures WeightsFrom(Shapes(layers), 0, l) + k < |WeightVectors(layers, TpuWidth)|
    ensures WeightVectors(layers, TpuWidth)[WeightsFrom(Shapes(layers), 0, l) + k]
         == Row(layers[l], Width(layers[l]), TpuWidth, r, c * TpuWidth)
  {
    WeightsBeforeBase(layers, l);
    TileAt(layers, TpuWidth, l, c, r, k);
  }

  /** The weight vectors counted before layer l are those the earlier layers put in
      weights.txt. */
  lemma WeightsBeforeBase(layers: seq<Loaded>, l: nat)
    requires l <= |layers|
    ensures WeightsFrom(Shapes(layers), 0, l) == WeightBase(layers, TpuWidth, l)
  {
    var all := layers[0..];
    assert all == layers;
    WeightsFromBase(layers, 0, l);
    assert WeightBase(all, TpuWidth, l) == WeightBase(layers, TpuWidth, l);
  }

  /** A padded row count is at least 14: a weight matrix has a row. */
  lemma PaddedRowsCoverWidth(a: Loaded)
    ensures PaddedRows(a) >= TpuWidth
  {
    var rows := PaddedRows(a);
    PaddingIsLeastMultiple(|a|, TpuWidth, 0);
    if rows < TpuWidth {
      DivModUnique(rows, TpuWidth, 0, rows);
    }
  }

  /** The two weight loads of column block c of layer l fetch the 14 and then R - 14 weight
      vectors starting at the block's first vector in weights.txt, and together they reach
      exactly the R vectors of that block: vector r of the load range is padded row r of the
      layer, columns 14c .. 14c + 13. */
  lemma LoadsFetchTheirTile(layers: seq<Loaded>, l: nat, c: nat, r: nat)
    requires l < |layers| && c < ColumnBlocksOf(layers[l]) && r < PaddedRows(layers[l])
    ensures var p := Instructions(Shapes(layers));
      var i := 5 * (BlocksFrom(Shapes(layers), 0, l) + c);
      && i + 2 < |p| && p[i].WeightCommand? && p[i + 2].WeightCommand?
      && p[i].op == p[i + 2].op == LoadWeightsSigned as int
      && p[i].length == TpuWidth && p[i + 2].length >= 0 && p[i].length + p[i + 2].length == PaddedRows(layers[l])
      && p[i + 2].weight == p[i].weight + p[i].length
      && p[i].weight >= 0 && p[i].weight + r < |WeightVectors(layers, TpuWidth)|
      && WeightVectors(layers, TpuWidth)[p[i].weight + r] == Row(layers[l], Width(layers[l]), TpuWidth, r, c * TpuWidth)
  {
    var shapes, rows := Shapes(layers), PaddedRows(layers[l]);
    assert shapes[l] == Shape(rows, ColumnBlocksOf(layers[l]));
    LoadPair(shapes, l, c);
    MulMonotone(0, c, rows);
    TileVector(layers, l, c, r, c * rows + r);
    PaddedRowsCoverWidth(layers[l]);
  }

  /** The activations of column block c of layer l go to input_count + 14c, and layer l + 1
      reads its inputs from its input_base, which is that same input_count: each layer
      reads where the previous one wrote. */
  lemma ActivationsFeedNextLayer(shapes: seq<Shape>, l: nat, c: nat, c': nat)
    requires l + 1 < |shapes| && c < shapes[l].blocks && c' < shapes[l + 1].blocks
    ensures var p := Instructions(shapes);
      var i, j := 5 * (BlocksFrom(shapes, 0, l) + c) + 4, 5 * (BlocksFrom(shapes, 0, l + 1) + c') + 1;
      && j < |p| && i < j && p[i].BufferCommand? && p[j].BufferCommand?
      && p[i].op == SigmoidActivationSigned as int && p[j].op == MultiplySigned as int
      && p[i].buffer == RowsFrom(shapes, 0, l + 1) + c * TpuWidth
      && p[j].buffer == RowsFrom(shapes, 0, l + 1)
  {
    InstructionAt(shapes, l, c, 4);
    InstructionAt(shapes, l + 1, c', 1);
    FromGrows(shapes, 0, l);
  }

  // ---------------------------------------------------------------- complete.txt

  /** The results section of a batch: OUTPUT_OFFSET, OUTPUT_NUMBER and the append flag. */
  function ResultsSection(offset: int, number: int, append: int): seq<String>
  {
    Framed(ResultsHeader, [ListLine([offset, number, append])])
  }

  /** The batches from input row i on, for i in range(i, INPUT_NUMBER, W): each is the
      inputs section of the batch's rows, the instruction text, and the results section,
      appending from the second batch on. */
  function BatchesText(x: Loaded, inputNumber: int, offset: int, number: int, w: nat, program: seq<String>,
                       i: nat, append: int): Generated<seq<String>>
    requires w > 0
    decreases inputNumber - i
  {
    if i >= inputNumber then Produced([])
    else
      var rows := BatchRows(x, i, w);
      BatchRowsShape(x, i, w);
      match InputVectors(rows, w)
      case IndexError => IndexError
      case Produced(vs) =>
        match BatchesText(x, inputNumber, offset, number, w, program, i + w, 1)
        case IndexError => IndexError
        case Produced(rest) => Produced(InputsSection(vs) + program + ResultsSection(offset, number, append) + rest)
  }

  /** complete.txt: weights.txt, then one batch per W input rows below INPUT_NUMBER. */
  function CompleteText(layers: seq<Loaded>, x: Loaded, inputNumber: int, offset: int, number: int, w: nat)
    : Generated<seq<String>>
    requires w > 0
  {
    match BatchesText(x, inputNumber, offset, number, w, InstructionsText(layers), 0, 0)
    case IndexError => IndexError
    case Produced(batches) => Produced(WeightsText(layers, w) + batches)
  }

  /** Two multiples of W less than W apart are in order. */
  lemma MultiplesInOrder(a: nat, b: nat, w: nat)
    requires w > 0 && a % w == 0 && b % w == 0 && a < b + w
    ensures a <= b
  {
    var qa, qb := a / w, b / w;
    DivModUnique(a, w, qa, 0);
    DivModUnique(b, w, qb, 0);
    if qa > qb {
      MulMonotone(qb + 1, qa, w);
      MulSucc(w, qb);
    }
  }

  /** A batch starting at a multiple of W has W rows, except past the last input row,
      where it has only the W - n % W zero rows. */
  lemma BatchRowsLength(x: Loaded, i: nat, w: nat)
    requires w > 0 && i % w == 0
    ensures |BatchRows(x, i, w)| == if |x| <= i then w - |x| % w else w
  {
    BatchRowsShape(x, i, w);
  }

  /** The condition for IndexError from batch i on holds exactly when batch i is short or
      the condition holds from the next batch on. */
  lemma BatchStep(n: nat, w: nat, i: nat, limit: int)
    requires w > 0 && i % w == 0 && i < limit
    ensures (i + w) % w == 0
    ensures (n % w != 0 && Padded(n, w) < limit)
        <==> (n % w != 0 && n <= i) || (n % w != 0 && i + w < limit && Padded(n, w) < limit)
  {
    var q := i / w;
    DivModUnique(i, w, q, 0);
    MulSucc(w, q);
    DivModUnique(i + w, w, q + 1, 0);
    PaddingIsLeastMultiple(n, w, i);
    if n % w != 0 && Padded(n, w) < limit && i + w >= limit {
      MultiplesInOrder(Padded(n, w), i, w);
    }
  }

  /** A run of batches fails when its first batch does or the rest does. */
  lemma BatchesFail(x: Loaded, inputNumber: int, offset: int, number: int, w: nat, program: seq<String>,
                    i: nat, append: int)
    requires w > 0 && i < inputNumber
    ensures Shaped(BatchRows(x, i, w), Width(x))
    ensures BatchesText(x, inputNumber, offset, number, w, program, i, append).IndexError?
        <==> InputVectors(BatchRows(x, i, w), w).IndexError?
             || BatchesText(x, inputNumber, offset, number, w, program, i + w, 1).IndexError?
  {
    BatchRowsShape(x, i, w);
  }

  /** The generator stops with IndexError exactly when the input rows have columns, their
      count is not a multiple of W, and INPUT_NUMBER reaches past the padded row count: the
      batch starting there gets only W - n % W zero rows. */
  lemma {:induction false} BatchesIndexError(x: Loaded, inputNumber: int, offset: int, number: int, w: nat,
                                             program: seq<String>, i: nat, append: int)
    requires w > 0 && i % w == 0
    ensures BatchesText(x, inputNumber, offset, number, w, program, i, append).IndexError?
        <==> Width(x) > 0 && |x| % w != 0 && i < inputNumber && Padded(|x|, w) < inputNumber
    decreases inputNumber - i
  {
    if i < inputNumber {
      var rows := BatchRows(x, i, w);
      BatchesFail(x, inputNumber, offset, number, w, program, i, append);
      BatchRowsLength(x, i, w);
      BatchStep(|x|, w, i, inputNumber);
      BatchesIndexError(x, inputNumber, offset, number, w, program, i + w, 1);
      assert InputVectors(rows, w).IndexError? <==> Width(x) > 0 && |x| % w != 0 && |x| <= i;
    }
  }
}
