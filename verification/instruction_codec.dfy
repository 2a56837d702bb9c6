/** The packed instruction union `instruction_t`: ten bytes holding an op code,
    a 32-bit calculation length and a 40-bit address field, overlaid on a
    32-bit lower word, a 32-bit middle word and a 16-bit upper word. The
    address field is one 40-bit weight address, or a 16-bit accumulator
    address followed by a 24-bit unified-buffer address; both readings share
    the same five bytes. */
module InstructionCodec {
  import opened LittleEndian

  const InstructionSize: nat := 10
  const AddressFieldSize: nat := 5

  /** The two readings of the address field, as a tagged variant. */
  datatype AddressField =
    | WeightAddress(weight: uint40)
    | AccBufAddress(acc: uint16, buf: uint24)

  datatype Instruction = Instruction(opCode: byte, calcLength: uint32, address: AddressField)

  /** The word view of the union. */
  datatype AccessWords = AccessWords(lower: uint32, middle: uint32, upper: uint16)

  /** Bytes 5..9 of the packed instruction: the weight address, or the
      accumulator address followed by the buffer address, each least significant first. */
  function AddressBytes(a: AddressField): (bs: seq<byte>)
    ensures |bs| == AddressFieldSize
  {
    match a
    case WeightAddress(w) => LeBytes(w, 5)
    case AccBufAddress(acc, buf) => LeBytes(acc, 2) + LeBytes(buf, 3)
  }

  /** The ten packed bytes: op code at byte 0, calc_length at bytes 1..4, address field at 5..9. */
  function EncodeInstruction(ins: Instruction): (bs: seq<byte>)
    ensures |bs| == InstructionSize
    ensures bs[0] == ins.opCode
    ensures LeValue(bs[1..5]) == ins.calcLength
    ensures bs[5..] == AddressBytes(ins.address)
  {
    var bs := [ins.opCode] + LeBytes(ins.calcLength, 4) + AddressBytes(ins.address);
    assert bs[1..5] == LeBytes(ins.calcLength, 4);
    LeValueOfLeBytes(ins.calcLength, 4);
    bs
  }

  /** The address field read as the variant the caller selects; the bytes themselves
      do not say which variant they hold. */
  function DecodeAddress(bs: seq<byte>, weightVariant: bool): (a: AddressField)
    requires |bs| == AddressFieldSize
    ensures a.WeightAddress? <==> weightVariant
  {
    if weightVariant then WeightAddress(LeValue(bs))
    else AccBufAddress(LeValue(bs[..2]), LeValue(bs[2..]))
  }

  /** The instruction ten packed bytes hold, under the selected address variant. */
  function DecodeInstruction(bs: seq<byte>, weightVariant: bool): Instruction
    requires |bs| == InstructionSize
  {
    Pow256Values();
    Instruction(bs[0], LeValue(bs[1..5]), DecodeAddress(bs[5..], weightVariant))
  }

  /** The ten bytes of storage the three access words occupy, in address order. */
  function StorageOf(w: AccessWords): (bs: seq<byte>)
    ensures |bs| == InstructionSize
  {
    LeBytes(w.lower, 4) + LeBytes(w.middle, 4) + LeBytes(w.upper, 2)
  }

  /** The three access words that ten bytes of storage read as. */
  function AccessView(bs: seq<byte>): (w: AccessWords)
    requires |bs| == InstructionSize
    ensures StorageOf(w) == bs
  {
    LeBytesOfLeValue(bs[0..4]);
    LeBytesOfLeValue(bs[4..8]);
    LeBytesOfLeValue(bs[8..10]);
    assert bs == bs[0..4] + bs[4..8] + bs[8..10];
    AccessWords(LeValue(bs[0..4]), LeValue(bs[4..8]), LeValue(bs[8..10]))
  }

  /** The words an instruction is issued as. */
  function EncodeWords(ins: Instruction): AccessWords
  {
    AccessView(EncodeInstruction(ins))
  }

  /** The instruction three access words carry, under the selected address variant. */
  function DecodeWords(w: AccessWords, weightVariant: bool): Instruction
  {
    DecodeInstruction(StorageOf(w), weightVariant)
  }

  /** Storage and word view are inverse: the words read back from their own storage. */
  lemma {:induction false} AccessViewOfStorage(w: AccessWords)
    ensures AccessView(StorageOf(w)) == w
  {
    var bs := StorageOf(w);
    assert bs[0..4] == LeBytes(w.lower, 4);
    assert bs[4..8] == LeBytes(w.middle, 4);
    assert bs[8..10] == LeBytes(w.upper, 2);
    LeValueOfLeBytes(w.lower, 4);
    LeValueOfLeBytes(w.middle, 4);
    LeValueOfLeBytes(w.upper, 2);
  }

  /** Decoding the address bytes of a field as its own variant gives the field back. */
  lemma {:induction false} AddressRoundTrip(a: AddressField)
    ensures DecodeAddress(AddressBytes(a), a.WeightAddress?) == a
  {
    match a
    case WeightAddress(w) =>
      LeValueOfLeBytes(w, 5);
    case AccBufAddress(acc, buf) =>
      var bs := AddressBytes(a);
      assert bs[..2] == LeBytes(acc, 2) && bs[2..] == LeBytes(buf, 3);
      LeValueOfLeBytes(acc, 2);
      LeValueOfLeBytes(buf, 3);
  }

  /** The three words decode back to the same op code, calc_length and address field. */
  lemma {:induction false} InstructionRoundTrip(ins: Instruction)
    ensures DecodeWords(EncodeWords(ins), ins.address.WeightAddress?) == ins
  {
    AddressRoundTrip(ins.address);
  }

  /** Any ten bytes are the encoding of what they decode to, under either variant. */
  lemma {:induction false} BytesRoundTrip(bs: seq<byte>, weightVariant: bool)
    requires |bs| == InstructionSize
    ensures EncodeInstruction(DecodeInstruction(bs, weightVariant)) == bs
  {
    var a := bs[5..];
    LeBytesOfLeValue(bs[1..5]);
    if weightVariant {
      LeBytesOfLeValue(a);
    } else {
      LeBytesOfLeValue(a[..2]);
      LeBytesOfLeValue(a[2..]);
      assert a == a[..2] + a[2..];
    }
    assert bs == [bs[0]] + bs[1..5] + a;
  }

  /** Both readings of five address bytes re-encode to those bytes, and the weight
      address is the accumulator address plus 2^16 times the buffer address: weight
      byte k is the same storage as byte k of acc followed by buf. */
  lemma {:induction false} AddressVariantsShareStorage(bs: seq<byte>)
    requires |bs| == AddressFieldSize
    ensures AddressBytes(DecodeAddress(bs, true)) == bs
    ensures AddressBytes(DecodeAddress(bs, false)) == bs
    ensures DecodeAddress(bs, true).weight
         == DecodeAddress(bs, false).acc + 0x1_0000 * DecodeAddress(bs, false).buf
  {
    LeBytesOfLeValue(bs);
    LeBytesOfLeValue(bs[..2]);
    LeBytesOfLeValue(bs[2..]);
    assert bs == bs[..2] + bs[2..];
    LeValueConcat(bs[..2], bs[2..]);
  }

  /** A weight address occupies the same bytes as the accumulator/buffer pair made of
      its low 16 and high 24 bits. */
  lemma {:induction false} WeightOverlaysAccBuf(w: uint40)
    ensures AddressBytes(WeightAddress(w)) == AddressBytes(AccBufAddress(w % 0x1_0000, w / 0x1_0000))
  {
    var bs := LeBytes(w, 5);
    LeValueOfLeBytes(w, 5);
    AddressVariantsShareStorage(bs);
    var acc, buf := LeValue(bs[..2]), LeValue(bs[2..]);
    assert acc < 0x1_0000;
    assert acc == w % 0x1_0000 && buf == w / 0x1_0000;
  }

  /** The word view field by field: lower = op | calc[0..2] << 8, middle =
      calc[3] | address[0..2] << 8, upper = address[3] | address[4] << 8, where
      calc and address are the little-endian values of those fields. */
  lemma {:induction false} WordFields(ins: Instruction)
    ensures var w := EncodeWords(ins);
            var a := LeValue(AddressBytes(ins.address));
            && w.lower == ins.opCode as int + 0x100 * (ins.calcLength % 0x100_0000)
            && w.middle == ins.calcLength / 0x100_0000 + 0x100 * (a % 0x100_0000)
            && w.upper == a / 0x100_0000
  {
    var bs := EncodeInstruction(ins);
    var c := bs[1..5];
    var ab := bs[5..];
    Pow256Values();
    LeValueLowHigh(c, 3);
    LeValueLowHigh(ab, 3);
    // each word is the value of its slice of storage
    assert bs[0..4] == [ins.opCode] + c[..3];
    LeValueConcat([ins.opCode], c[..3]);
    assert bs[4..8] == c[3..] + ab[..3];
    LeValueConcat(c[3..], ab[..3]);
    assert LeValue(c[3..]) < 0x100;
    assert bs[8..10] == ab[3..];
  }

  /** Op codes of the instruction families used by the host programs. */
  const LoadWeightsOpCode: byte := 0x08          // 0b00001000, load weights unsigned
  const MatrixMultiplyOpCode: byte := 0x20       // 0b00100000, matrix multiply unsigned
  const SigmoidActivationOpCode: byte := 0x89    // 0b10001001, unsigned sigmoid activation
  const SynchronizeOpCode: byte := 0xFF

  /** The four raw instructions helloworld.c issues, as packed bytes. */
  lemma HelloWorldInstructions()
    ensures EncodeInstruction(Instruction(LoadWeightsOpCode, 14, WeightAddress(0)))
         == [0x08, 14, 0, 0, 0, 0, 0, 0, 0, 0]
    ensures EncodeInstruction(Instruction(MatrixMultiplyOpCode, 14, AccBufAddress(0, 0)))
         == [0x20, 14, 0, 0, 0, 0, 0, 0, 0, 0]
    ensures EncodeInstruction(Instruction(SigmoidActivationOpCode, 14, AccBufAddress(0, 14)))
         == [0x89, 14, 0, 0, 0, 0, 0, 0x0E, 0, 0]
    ensures EncodeInstruction(Instruction(SynchronizeOpCode, 0, WeightAddress(0)))
         == [0xFF, 0, 0, 0, 0, 0, 0, 0, 0, 0]
  {
    SmallInstructionBytes(LoadWeightsOpCode, 14, WeightAddress(0), 0, 0);
    SmallInstructionBytes(MatrixMultiplyOpCode, 14, AccBufAddress(0, 0), 0, 0);
    SmallInstructionBytes(SigmoidActivationOpCode, 14, AccBufAddress(0, 14), 0, 14);
    SmallInstructionBytes(SynchronizeOpCode, 0, WeightAddress(0), 0, 0);
  }

  /** An instruction whose length and address parts each fit in their lowest byte packs as
      the op code, the length byte, three zeros, and the address bytes. */
  lemma SmallInstructionBytes(op: byte, len: byte, a: AddressField, low: byte, high: byte)
    requires a == WeightAddress(low) || a == AccBufAddress(low, high)
    requires a.WeightAddress? ==> high == 0
    ensures EncodeInstruction(Instruction(op, len, a)) == [op, len, 0, 0, 0, low, 0, high, 0, 0]
  {
    LeBytesOfByte(len, 4);
    if a.WeightAddress? {
      LeBytesOfByte(low, 5);
    } else {
      LeBytesOfByte(low, 2);
      LeBytesOfByte(high, 3);
    }
  }

  /** The instruction of type_test.c (op 0xAB, length 13, acc 2, buf 0xFF00) reads
      as words 0x00000DAB, 0x00000200 and 0x00FF. */
  lemma TypeTestInstructionWords()
    ensures EncodeWords(Instruction(0xAB, 0x0D, AccBufAddress(2, 0xFF00)))
         == AccessWords(0x0000_0DAB, 0x0000_0200, 0x00FF)
  {
    var ins := Instruction(0xAB, 0x0D, AccBufAddress(2, 0xFF00));
    var bs := EncodeInstruction(ins);
    assert bs == [0xAB, 0x0D, 0, 0, 0, 2, 0, 0, 0xFF, 0];
    LeValue4(bs[0..4]);
    LeValue4(bs[4..8]);
    LeValue2(bs[8..10]);
  }
}
