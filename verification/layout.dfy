/** The register window of the engine as the host sees it: where the three
    regions sit, how big a vector is, how many vectors each buffer holds and
    where the three words of an instruction go. */
module Layout {
  import opened LittleEndian

  const TpuBase: int := 0x43C0_0000
  const WeightBufferBase: int := TpuBase
  const UnifiedBufferBase: int := TpuBase + 0x8_0000
  const InstructionBase: int := TpuBase + 0x9_0000

  /** Sub-offsets of the instruction FIFO words; offset 0 is the run-time counter. */
  const LowerWordOffset: int := 0x4
  const MiddleWordOffset: int := 0x8
  const UpperWordOffset: int := 0xC
  const RuntimeOffset: int := 0x0

  /** A vector is 14 bytes; its transfer form is padded to 16 bytes = 4 words. */
  const VectorSize: nat := 14
  const VectorPadding: nat := VectorSize + 2
  const WordBytes: nat := 4
  const TransferWords: nat := VectorPadding / WordBytes

  /** Capacities of the two buffers, counted in vectors. */
  const WeightBufferSize: nat := 32768
  const UnifiedBufferSize: nat := 4096

  /** The engine's vector width, which every generator and instruction assumes. */
  const TpuWidth: nat := VectorSize

  type Vector = v: seq<byte> | |v| == VectorSize
    witness [0, 0, 0, 0, 0, 0, 0, 0, 0, 0, 0, 0, 0, 0]

  type TransferVector = t: seq<uint32> | |t| == TransferWords
    witness [0, 0, 0, 0]
}
