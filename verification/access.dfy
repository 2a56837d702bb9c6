/** The register access layer of tinyTPU_access.c: bounds-checked vector
    writes and reads on the weight and unified buffers, and the three-word
    instruction issue. Each call is modelled by its status code and the bus
    accesses it performs, in order; a buffer region is a map from absolute
    byte address to the 32-bit word stored there. */
module Access {
  import opened LittleEndian
  import opened Layout
  import opened VectorCodec
  import opened InstructionCodec

  /** The errno value the vector functions return for an out-of-range index. */
  const EFAULT: int := 14

  /** One access on the register window, at an absolute address. */
  datatype BusOp =
    | Write32(addr: int, value: uint32)
    | Write16(addr: int, half: uint16)
    | Read32(addr: int)

  /** The status a call returns and the accesses it performs. */
  datatype Access = Access(status: int, ops: seq<BusOp>)

  /** The result of a vector read: status, the transfer words left in the
      caller's union, and the accesses performed. */
  datatype VectorRead = VectorRead(status: int, vector: TransferVector, ops: seq<BusOp>)

  /** A buffer region: absolute byte address to stored word. A word the model
      never stored reads as 0. */
  type Memory = map<int, uint32>

  function Load(mem: Memory, addr: int): uint32
  {
    if addr in mem then mem[addr] else 0
  }

  /** The four words of vector index n of a region starting at byte address base. */
  function Slot(mem: Memory, base: int, n: int): TransferVector
  {
    var at := base + VectorPadding * n;
    [Load(mem, at), Load(mem, at + 4), Load(mem, at + 8), Load(mem, at + 12)]
  }

  /** The region contents after a sequence of accesses. */
  function Apply(mem: Memory, ops: seq<BusOp>): Memory
    decreases |ops|
  {
    if |ops| == 0 then mem
    else
      var mem' := match ops[0]
        case Write32(a, v) => mem[a := v]
        case Write16(a, h) => mem[a := h]
        case Read32(_) => mem;
      Apply(mem', ops[1..])
  }

  /** 2^s, which outgrows s, so the upward search of CeilLog2From ends. */
  function Pow2(s: nat): (r: nat)
    ensures r >= 1 && r > s
  {
    if s == 0 then 1 else 2 * Pow2(s - 1)
  }

  /** ceil(log2 n) on integers: the least s with 2^s >= n, searching upwards from s. */
  function CeilLog2From(n: nat, s: nat): (r: nat)
    requires s == 0 || Pow2(s - 1) < n
    ensures Pow2(r) >= n
    ensures r == 0 || Pow2(r - 1) < n
    decreases n - Pow2(s)
  {
    if Pow2(s) >= n then s else CeilLog2From(n, s + 1)
  }

  function CeilLog2(n: nat): (r: nat)
    ensures Pow2(r) >= n
    ensures r == 0 || Pow2(r - 1) < n
  {
    CeilLog2From(n, 0)
  }

  /** The vector index shift, ceil(log2 14), is 4: a vector slot is 16 bytes. */
  lemma VectorShiftIsFour()
    ensures CeilLog2(VectorSize) == 4 && Pow2(4) == VectorPadding
  {
    assert Pow2(3) == 8 && Pow2(4) == 16;
  }

  /** Doubling a 32-bit unsigned value, dropping the bit shifted out: (2 * x) mod 2^32. */
  function Double32(x: uint32): uint32
  {
    if 2 * x < 0x1_0000_0000 then 2 * x else 2 * x - 0x1_0000_0000
  }

  /** Logical shift left of a 32-bit unsigned value, one bit at a time. */
  function Shl32(x: uint32, s: nat): uint32
    decreases s
  {
    if s == 0 then x else Shl32(Double32(x), s - 1)
  }

  /** A shift that drops no bit multiplies by the power of two. */
  lemma {:induction false} Shl32NoOverflow(x: uint32, s: nat)
    requires x * Pow2(s) < 0x1_0000_0000
    ensures Shl32(x, s) == x * Pow2(s)
    decreases s
  {
    if s > 0 {
      var p := Pow2(s - 1);
      DoubleFactor(x, p);
      assert Double32(x) == 2 * x;
      Shl32NoOverflow(2 * x, s - 1);
    }
  }

  /** x * 2p == 2x * p, and that product is at least 2x. */
  lemma DoubleFactor(x: nat, p: nat)
    requires p >= 1
    ensures x * (2 * p) == (2 * x) * p >= 2 * x
  {
  }

  /** Byte offset of a vector index inside its region: index << ceil(log2 14). */
  function VectorOffset(index: uint32): (off: uint32)
    ensures index < 0x1000_0000 ==> off == VectorPadding * index
  {
    VectorShiftIsFour();
    if index < 0x1000_0000 then Shl32NoOverflow(index, 4); Shl32(index, CeilLog2(VectorSize))
    else Shl32(index, CeilLog2(VectorSize))
  }

  /** The four word writes that store a transfer vector at byte address `at`,
      in increasing address order. */
  function VectorWrites(at: int, t: TransferVector): (ops: seq<BusOp>)
    ensures |ops| == TransferWords
  {
    [Write32(at, t[0]), Write32(at + 4, t[1]), Write32(at + 8, t[2]), Write32(at + 12, t[3])]
  }

  /** The copy loop of the write functions: for i = 0, 4, 8, ... while i < 14,
      write transfer word i/4 at byte address at + i. */
  function WriteLoop(at: int, t: TransferVector, i: nat): seq<BusOp>
    requires i % WordBytes == 0
    decreases VectorSize - i
  {
    if i < VectorSize then [Write32(at + i, t[i / WordBytes])] + WriteLoop(at, t, i + WordBytes)
    else []
  }

  /** The copy loop of the read function: the words at byte address at + i for i = 0, 4, 8, ... while i < 14. */
  function ReadLoop(mem: Memory, at: int, i: nat): (ws: seq<uint32>)
    requires i % WordBytes == 0
    ensures |ws| == (if i < VectorSize then (VectorSize - i + WordBytes - 1) / WordBytes else 0)
    decreases VectorSize - i
  {
    if i < VectorSize then [Load(mem, at + i)] + ReadLoop(mem, at, i + WordBytes) else []
  }

  /** The read accesses the copy loop of the read function performs. */
  function ReadOps(at: int, i: nat): seq<BusOp>
    requires i % WordBytes == 0
    decreases VectorSize - i
  {
    if i < VectorSize then [Read32(at + i)] + ReadOps(at, i + WordBytes) else []
  }

  /** The write loop visits i = 0, 4, 8, 12: exactly the four word writes, in order. */
  lemma {:induction false} WriteLoopUnrolled(at: int, t: TransferVector)
    ensures WriteLoop(at, t, 0) == VectorWrites(at, t)
  {
    assert WriteLoop(at, t, 16) == [];
    assert WriteLoop(at, t, 12) == [Write32(at + 12, t[3])];
    assert WriteLoop(at, t, 8) == [Write32(at + 8, t[2]), Write32(at + 12, t[3])];
    assert WriteLoop(at, t, 4) == [Write32(at + 4, t[1]), Write32(at + 8, t[2]), Write32(at + 12, t[3])];
  }

  /** The read loop visits i = 0, 4, 8, 12: the four words at increasing addresses. */
  lemma {:induction false} ReadLoopUnrolled(mem: Memory, at: int)
    ensures ReadLoop(mem, at, 0) == [Load(mem, at), Load(mem, at + 4), Load(mem, at + 8), Load(mem, at + 12)]
    ensures ReadOps(at, 0) == [Read32(at), Read32(at + 4), Read32(at + 8), Read32(at + 12)]
  {
    assert ReadLoop(mem, at, 16) == [] && ReadOps(at, 16) == [];
    assert ReadLoop(mem, at, 12) == [Load(mem, at + 12)];
    assert ReadLoop(mem, at, 8) == [Load(mem, at + 8), Load(mem, at + 12)];
    assert ReadLoop(mem, at, 4) == [Load(mem, at + 4), Load(mem, at + 8), Load(mem, at + 12)];
    assert ReadOps(at, 12) == [Read32(at + 12)];
    assert ReadOps(at, 8) == [Read32(at + 8), Read32(at + 12)];
    assert ReadOps(at, 4) == [Read32(at + 4), Read32(at + 8), Read32(at + 12)];
  }

  /** write_weight_vector: EFAULT and no access for an index at or past the
      weight buffer's capacity, otherwise the four transfer words at
      16*index + 0, 4, 8, 12 in that order and status 0. */
  function WriteWeightVector(t: TransferVector, index: uint32): (r: Access)
    ensures index >= WeightBufferSize ==> r == Access(EFAULT, [])
    ensures index < WeightBufferSize ==> r == Access(0, VectorWrites(WeightBufferBase + VectorPadding * index, t))
  {
    if index >= WeightBufferSize then Access(EFAULT, [])
    else
      var at := WeightBufferBase + VectorOffset(index);
      WriteLoopUnrolled(at, t);
      Access(0, WriteLoop(at, t, 0))
  }

  /** write_input_vector: the same, on the unified buffer. */
  function WriteInputVector(t: TransferVector, index: uint32): (r: Access)
    ensures index >= UnifiedBufferSize ==> r == Access(EFAULT, [])
    ensures index < UnifiedBufferSize ==> r == Access(0, VectorWrites(UnifiedBufferBase + VectorPadding * index, t))
  {
    if index >= UnifiedBufferSize then Access(EFAULT, [])
    else
      var at := UnifiedBufferBase + VectorOffset(index);
      WriteLoopUnrolled(at, t);
      Access(0, WriteLoop(at, t, 0))
  }

  /** read_output_vector: EFAULT, no access and the caller's union untouched for an
      out-of-range index, otherwise the four words at 16*index + 0, 4, 8, 12. */
  function ReadOutputVector(mem: Memory, prior: TransferVector, index: uint32): (r: VectorRead)
    ensures index >= UnifiedBufferSize ==> r == VectorRead(EFAULT, prior, [])
    ensures index < UnifiedBufferSize ==>
      var at := UnifiedBufferBase + VectorPadding * index;
      && r.status == 0
      && r.ops == [Read32(at), Read32(at + 4), Read32(at + 8), Read32(at + 12)]
      && r.vector == Slot(mem, UnifiedBufferBase, index)
  {
    if index >= UnifiedBufferSize then VectorRead(EFAULT, prior, [])
    else
      var at := UnifiedBufferBase + VectorOffset(index);
      ReadLoopUnrolled(mem, at);
      VectorRead(0, ReadLoop(mem, at, 0), ReadOps(at, 0))
  }

  /** write_instruction: the lower word to +0x4, the middle word to +0x8 and the
      16-bit upper word to +0xC, in that order; together they carry exactly the
      ten packed bytes of the instruction. Always status 0. */
  function WriteInstruction(ins: Instruction): (r: Access)
    ensures r.status == 0 && |r.ops| == 3
    ensures r.ops[0].Write32? && r.ops[0].addr == InstructionBase + LowerWordOffset
    ensures r.ops[1].Write32? && r.ops[1].addr == InstructionBase + MiddleWordOffset
    ensures r.ops[2].Write16? && r.ops[2].addr == InstructionBase + UpperWordOffset
    ensures LeBytes(r.ops[0].value, 4) + LeBytes(r.ops[1].value, 4) + LeBytes(r.ops[2].half, 2)
         == EncodeInstruction(ins)
  {
    var w := EncodeWords(ins);
    Access(0, [Write32(InstructionBase + LowerWordOffset, w.lower),
               Write32(InstructionBase + MiddleWordOffset, w.middle),
               Write16(InstructionBase + UpperWordOffset, w.upper)])
  }

  /** The result of read_runtime: status, the cycle count stored for the caller, and the accesses performed. */
  datatype RuntimeRead = RuntimeRead(status: int, cycles: uint32, ops: seq<BusOp>)

  /** read_runtime: one read at the instruction base, which is all it does to the window,
      returning the word stored there, the engine's cycle counter; always status 0. */
  function ReadRuntime(mem: Memory): (r: RuntimeRead)
    ensures r.status == 0 && r.ops == [Read32(InstructionBase + RuntimeOffset)]
    ensures Apply(mem, r.ops) == mem && r.cycles == Load(mem, r.ops[0].addr)
  {
    RuntimeRead(0, Load(mem, InstructionBase + RuntimeOffset), [Read32(InstructionBase + RuntimeOffset)])
  }

  /** The counter word lies outside both buffers: a vector write to either buffer, at any
      index, leaves what read_runtime returns as it was. */
  lemma RuntimeSurvivesVectorWrites(mem: Memory, t: TransferVector, index: uint32)
    ensures ReadRuntime(Apply(mem, WriteWeightVector(t, index).ops)) == ReadRuntime(mem)
    ensures ReadRuntime(Apply(mem, WriteInputVector(t, index).ops)) == ReadRuntime(mem)
  {
    if index < WeightBufferSize {
      ApplyVectorWrites(mem, WeightBufferBase + VectorPadding * index, t);
    }
    if index < UnifiedBufferSize {
      ApplyVectorWrites(mem, UnifiedBufferBase + VectorPadding * index, t);
    }
  }

  /** The three instruction words sit after the counter word: issuing an instruction
      leaves what read_runtime returns as it was. */
  lemma RuntimeSurvivesInstructionWrite(mem: Memory, ins: Instruction)
    ensures ReadRuntime(Apply(mem, WriteInstruction(ins).ops)) == ReadRuntime(mem)
  {
    var ops := WriteInstruction(ins).ops;
    var m1 := mem[ops[0].addr := ops[0].value];
    var m2 := m1[ops[1].addr := ops[1].value];
    var m3 := m2[ops[2].addr := ops[2].half];
    assert ops[1..][1..][1..] == [];
    assert Apply(m2, ops[1..][1..]) == m3;
    assert Apply(m1, ops[1..]) == m3;
    assert Apply(mem, ops) == m3;
  }

  /** Every access of an in-range weight write stays inside the weight region,
      which ends where the unified region begins (32768 * 16 = 0x80000). */
  lemma WeightWriteStaysInRegion(t: TransferVector, index: uint32)
    requires index < WeightBufferSize
    ensures forall op :: op in WriteWeightVector(t, index).ops ==>
      WeightBufferBase <= op.addr && op.addr + WordBytes <= UnifiedBufferBase
  {
    var at := WeightBufferBase + VectorPadding * index;
    assert VectorPadding * index <= VectorPadding * (WeightBufferSize - 1);
    assert WriteWeightVector(t, index).ops == VectorWrites(at, t);
  }

  /** Every access of an in-range unified write stays inside the unified region,
      which ends where the instruction region begins (4096 * 16 = 0x10000). */
  lemma UnifiedWriteStaysInRegion(t: TransferVector, index: uint32)
    requires index < UnifiedBufferSize
    ensures forall op :: op in WriteInputVector(t, index).ops ==>
      UnifiedBufferBase <= op.addr && op.addr + WordBytes <= InstructionBase
  {
    var at := UnifiedBufferBase + VectorPadding * index;
    assert VectorPadding * index <= VectorPadding * (UnifiedBufferSize - 1);
    assert WriteInputVector(t, index).ops == VectorWrites(at, t);
  }

  /** Applying the four writes of a vector stores its words at the four addresses
      and leaves every other address as it was. */
  lemma {:induction false} ApplyVectorWrites(mem: Memory, at: int, t: TransferVector)
    ensures var mem' := Apply(mem, VectorWrites(at, t));
      && Load(mem', at) == t[0] && Load(mem', at + 4) == t[1]
      && Load(mem', at + 8) == t[2] && Load(mem', at + 12) == t[3]
      && (forall a :: (a < at || at + VectorPadding <= a) ==> Load(mem', a) == Load(mem, a))
  {
    var ops := VectorWrites(at, t);
    var m1 := mem[at := t[0]];
    var m2 := m1[at + 4 := t[1]];
    var m3 := m2[at + 8 := t[2]];
    var m4 := m3[at + 12 := t[3]];
    assert ops[1..][1..][1..][1..] == [];
    assert Apply(m4, ops[1..][1..][1..][1..]) == m4;
    assert Apply(m3, ops[1..][1..][1..]) == m4;
    assert Apply(m2, ops[1..][1..]) == m4;
    assert Apply(m1, ops[1..]) == m4;
    assert Apply(mem, ops) == m4;
  }

  /** Storing a vector at index n of a region sets that index and leaves every other
      index as it was: distinct indices occupy disjoint 16-byte slots. */
  lemma SlotAfterStore(mem: Memory, base: int, n: int, t: TransferVector, k: int)
    ensures Slot(Apply(mem, VectorWrites(base + VectorPadding * n, t)), base, k)
         == if k == n then t else Slot(mem, base, k)
  {
    var at, at' := base + VectorPadding * n, base + VectorPadding * k;
    ApplyVectorWrites(mem, at, t);
    if k < n {
      assert at' + VectorPadding <= at;
    } else if k > n {
      assert at + VectorPadding <= at';
    }
  }

  /** Writing vector t to unified index n and then reading index n returns t. */
  lemma ReadAfterWrite(mem: Memory, t: TransferVector, prior: TransferVector, n: uint32)
    requires n < UnifiedBufferSize
    ensures var w := WriteInputVector(t, n);
      w.status == 0 && ReadOutputVector(Apply(mem, w.ops), prior, n) == VectorRead(0, t, ReadOutputVector(mem, prior, n).ops)
  {
    SlotAfterStore(mem, UnifiedBufferBase, n, t, n);
  }

  /** Distinct unified indices occupy disjoint bytes: writing index n leaves what
      every other index reads unchanged. */
  lemma WriteLeavesOtherIndices(mem: Memory, t: TransferVector, prior: TransferVector, n: uint32, m: uint32)
    requires n < UnifiedBufferSize && m != n
    ensures ReadOutputVector(Apply(mem, WriteInputVector(t, n).ops), prior, m)
         == ReadOutputVector(mem, prior, m)
  {
    SlotAfterStore(mem, UnifiedBufferBase, n, t, m);
  }

  /** The byte offset helloworld.c computes for row i, byte group j (i*4*4 + j)
      is the vector offset of index i plus j. */
  lemma HelloWorldOffsetIsVectorOffset(i: uint32, j: nat)
    requires i < UnifiedBufferSize
    ensures i * 4 * 4 + j == VectorOffset(i) + j
  {
  }
}
