/** The interpreter keeps each buffer as a map from vector index to the four
    transfer words the host stored there. This module ties that view to the
    register window the accesses of tinyTPU_access.c actually touch: when the
    window agrees with both maps before a vector line, it agrees with them after
    the line's bounds-checked write, and what a vector read returns is what the
    map holds. An issued instruction carries exactly the packed instruction. */
module Simulation {
  import opened LittleEndian
  import opened Layout
  import opened VectorCodec
  import opened InstructionCodec
  import opened Access
  import opened Text
  import opened Interpreter

  /** Every index of a region below its capacity holds, in the window, the words the
      map records for it. */
  predicate Agrees(mem: Memory, slots: Slots, base: int, capacity: nat)
  {
    forall k: uint32 :: k < capacity ==> Slot(mem, base, k) == SlotAt(slots, k)
  }

  /** The window agrees with both buffers of a machine. */
  predicate Mirrors(mem: Memory, m: Machine)
  {
    Agrees(mem, m.weights, WeightBufferBase, WeightBufferSize)
    && Agrees(mem, m.unified, UnifiedBufferBase, UnifiedBufferSize)
  }

  /** Before anything is stored, an empty window agrees with empty buffers. */
  lemma InitialMirrors(content: String, outputs: seq<Slots>)
    ensures Mirrors(map[], Initial(content, outputs))
  {
    forall k: uint32
      ensures Slot(map[], WeightBufferBase, k) == Unset && Slot(map[], UnifiedBufferBase, k) == Unset
    {
    }
  }

  /** A vector written anywhere in the weight region leaves every unified index as it was. */
  lemma WeightStoreKeepsUnified(mem: Memory, t: TransferVector, n: uint32, k: uint32)
    requires n < WeightBufferSize && k < UnifiedBufferSize
    ensures Slot(Apply(mem, VectorWrites(WeightBufferBase + VectorPadding * n, t)), UnifiedBufferBase, k)
         == Slot(mem, UnifiedBufferBase, k)
  {
    var at := WeightBufferBase + VectorPadding * n;
    ApplyVectorWrites(mem, at, t);
    assert at + VectorPadding <= UnifiedBufferBase;
  }

  /** A vector written anywhere in the unified region leaves every weight index as it was. */
  lemma UnifiedStoreKeepsWeights(mem: Memory, t: TransferVector, n: uint32, k: uint32)
    requires n < UnifiedBufferSize && k < WeightBufferSize
    ensures Slot(Apply(mem, VectorWrites(UnifiedBufferBase + VectorPadding * n, t)), WeightBufferBase, k)
         == Slot(mem, WeightBufferBase, k)
  {
    var at := UnifiedBufferBase + VectorPadding * n;
    ApplyVectorWrites(mem, at, t);
    assert WeightBufferBase + VectorPadding * k + VectorPadding <= at;
  }

  /** write_weight_vector on the window does what Store does on the weight map, and
      the unified region is untouched. */
  lemma WeightWriteSimulates(mem: Memory, m: Machine, t: TransferVector, n: uint32)
    requires Mirrors(mem, m)
    ensures var a := WriteWeightVector(t, n);
      Mirrors(Apply(mem, a.ops), m.(weights := Store(m.weights, a, n, t)))
  {
    var a := WriteWeightVector(t, n);
    var mem' := Apply(mem, a.ops);
    if n < WeightBufferSize {
      forall k: uint32 | k < WeightBufferSize
        ensures Slot(mem', WeightBufferBase, k) == SlotAt(Store(m.weights, a, n, t), k)
      {
        SlotAfterStore(mem, WeightBufferBase, n, t, k);
      }
      forall k: uint32 | k < UnifiedBufferSize
        ensures Slot(mem', UnifiedBufferBase, k) == SlotAt(m.unified, k)
      {
        WeightStoreKeepsUnified(mem, t, n, k);
      }
    }
  }

  /** write_input_vector on the window does what Store does on the unified map, and
      the weight region is untouched. */
  lemma InputWriteSimulates(mem: Memory, m: Machine, t: TransferVector, n: uint32)
    requires Mirrors(mem, m)
    ensures var a := WriteInputVector(t, n);
      Mirrors(Apply(mem, a.ops), m.(unified := Store(m.unified, a, n, t)))
  {
    var a := WriteInputVector(t, n);
    var mem' := Apply(mem, a.ops);
    if n < UnifiedBufferSize {
      forall k: uint32 | k < UnifiedBufferSize
        ensures Slot(mem', UnifiedBufferBase, k) == SlotAt(Store(m.unified, a, n, t), k)
      {
        SlotAfterStore(mem, UnifiedBufferBase, n, t, k);
      }
      forall k: uint32 | k < WeightBufferSize
        ensures Slot(mem', WeightBufferBase, k) == SlotAt(m.weights, k)
      {
        UnifiedStoreKeepsWeights(mem, t, n, k);
      }
    }
  }

  /** The accesses a vector line of at most 14 numbers makes: the bounds-checked write of
      its transfer words at the section's counter. */
  function VectorLineOps(m: Machine, msg: String): seq<BusOp>
    requires |Tokens(msg)| <= VectorSize
  {
    var t := EncodeVector(VectorOfTokens(Tokens(msg)));
    if m.section == InWeights then WriteWeightVector(t, m.weightAddr).ops else WriteInputVector(t, m.inputAddr).ops
  }

  /** A vector line keeps the window and the buffers in step: after the line's accesses
      the window agrees with the buffers of the machine the line leaves. */
  lemma VectorLineSimulates(mem: Memory, m: Machine, msg: String)
    requires (m.section == InWeights || m.section == InInputs) && |Tokens(msg)| <= VectorSize
    requires Mirrors(mem, m)
    ensures FeedVector(m, msg).Running?
    ensures Mirrors(Apply(mem, VectorLineOps(m, msg)), FeedVector(m, msg).m)
  {
    var t := EncodeVector(VectorOfTokens(Tokens(msg)));
    var r := FeedVector(m, msg).m;
    if m.section == InWeights {
      var a := WriteWeightVector(t, m.weightAddr);
      WeightWriteSimulates(mem, m, t, m.weightAddr);
      assert r.weights == Store(m.weights, a, m.weightAddr, t) && r.unified == m.unified;
    } else {
      var a := WriteInputVector(t, m.inputAddr);
      InputWriteSimulates(mem, m, t, m.inputAddr);
      assert r.unified == Store(m.unified, a, m.inputAddr, t) && r.weights == m.weights;
    }
  }

  /** Reading a unified index through the window: refused past the buffer, and otherwise
      the words the map holds, so the record Emit prints is the record of what was read. */
  lemma ReadSimulates(mem: Memory, m: Machine, prior: TransferVector, n: uint32)
    requires Mirrors(mem, m)
    ensures var rd := ReadOutputVector(mem, prior, n);
      && (rd.status == 0 <==> n < UnifiedBufferSize)
      && (n < UnifiedBufferSize ==> rd.vector == SlotAt(m.unified, n))
  {
  }

  /** The three words an issued instruction writes hold its ten packed bytes, and read
      back under the instruction's address variant they give the instruction itself. */
  lemma IssuedCarriesInstruction(ins: Instruction)
    ensures var ops := EventOps(Issued(ins));
      && |ops| == 3 && ops[0].Write32? && ops[1].Write32? && ops[2].Write16?
      && DecodeWords(AccessWords(ops[0].value, ops[1].value, ops[2].half), ins.address.WeightAddress?) == ins
  {
    InstructionRoundTrip(ins);
  }
}
