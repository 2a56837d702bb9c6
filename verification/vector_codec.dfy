/** The vector union `tpu_vector_t`: 14 semantic bytes overlaid on four 32-bit
    transfer words. Word k holds bytes 4k..4k+3, least significant first; bytes
    14 and 15 are storage the vector does not use. */
module VectorCodec {
  import opened LittleEndian
  import opened Layout

  /** The 16 bytes of storage that four transfer words occupy, in address order. */
  function ByteView(t: TransferVector): (bs: seq<byte>)
    ensures |bs| == VectorPadding
  {
    LeBytes(t[0], 4) + LeBytes(t[1], 4) + LeBytes(t[2], 4) + LeBytes(t[3], 4)
  }

  /** The four transfer words that 16 bytes of storage read as. */
  function WordView(storage: seq<byte>): (t: TransferVector)
    requires |storage| == VectorPadding
    ensures ByteView(t) == storage
  {
    var w0, w1, w2, w3 := storage[0..4], storage[4..8], storage[8..12], storage[12..16];
    LeBytesOfLeValue(w0);
    LeBytesOfLeValue(w1);
    LeBytesOfLeValue(w2);
    LeBytesOfLeValue(w3);
    JoinQuarters(storage);
    [LeValue(w0), LeValue(w1), LeValue(w2), LeValue(w3)]
  }

  /** The transfer form of a vector, with the two padding bytes zero. */
  function EncodeVector(v: Vector): (t: TransferVector)
    ensures ByteView(t) == v + [0, 0]
  {
    WordView(v + [0, 0])
  }

  /** The vector a transfer form carries: the first 14 bytes of its storage. */
  function DecodeVector(t: TransferVector): Vector
  {
    ByteView(t)[..VectorSize]
  }

  /** Sixteen bytes are their four 4-byte pieces, joined. */
  lemma JoinQuarters(s: seq<byte>)
    requires |s| == 16
    ensures s == s[0..4] + s[4..8] + s[8..12] + s[12..16]
  {
  }

  /** The four 4-byte pieces of a 16-byte concatenation. */
  lemma Quarters(a: seq<byte>, b: seq<byte>, c: seq<byte>, d: seq<byte>)
    requires |a| == 4 && |b| == 4 && |c| == 4 && |d| == 4
    ensures var s := a + b + c + d;
      s[0..4] == a && s[4..8] == b && s[8..12] == c && s[12..16] == d
  {
  }

  /** Word k of a transfer form is the little-endian value of storage bytes 4k..4k+3. */
  lemma WordIsLittleEndian(t: TransferVector, k: nat)
    requires k < TransferWords
    ensures t[k] == LeValue(ByteView(t)[4 * k .. 4 * k + 4])
  {
    Quarters(LeBytes(t[0], 4), LeBytes(t[1], 4), LeBytes(t[2], 4), LeBytes(t[3], 4));
    assert ByteView(t)[4 * k .. 4 * k + 4] == LeBytes(t[k], 4);
    LeValueOfLeBytes(t[k], 4);
  }

  /** Two transfer forms with the same storage are the same words. */
  lemma {:induction false} ByteViewInjective(t: TransferVector, u: TransferVector)
    requires ByteView(t) == ByteView(u)
    ensures t == u
  {
    forall k | 0 <= k < TransferWords
      ensures t[k] == u[k]
    {
      WordIsLittleEndian(t, k);
      WordIsLittleEndian(u, k);
    }
  }

  /** Decoding the transfer form of a vector gives the vector back. */
  lemma VectorRoundTrip(v: Vector)
    ensures DecodeVector(EncodeVector(v)) == v
  {
  }

  /** Whatever the two padding bytes of the union hold, the byte view is the vector. */
  lemma PaddingIsIgnored(v: Vector, p0: byte, p1: byte)
    ensures DecodeVector(WordView(v + [p0, p1])) == v
  {
  }

  /** A transfer form whose padding bytes are zero is the encoding of what it decodes to. */
  lemma {:induction false} TransferRoundTrip(t: TransferVector)
    requires ByteView(t)[VectorSize..] == [0, 0]
    ensures EncodeVector(DecodeVector(t)) == t
  {
    var e := EncodeVector(DecodeVector(t));
    assert ByteView(t) == ByteView(t)[..VectorSize] + ByteView(t)[VectorSize..];
    ByteViewInjective(e, t);
  }

  /** The word helloworld.c assembles by shifting and OR-ing the bytes of byte group j
      of a row; a byte index at or past the vector size contributes nothing. */
  function HelloWorldWord(row: Vector, j: nat): nat
    requires j < VectorSize && j % WordBytes == 0
  {
    row[j] as int
    + (if j + 1 < VectorSize then row[j + 1] as int * 0x100 else 0)
    + (if j + 2 < VectorSize then row[j + 2] as int * 0x1_0000 else 0)
    + (if j + 3 < VectorSize then row[j + 3] as int * 0x100_0000 else 0)
  }

  /** The hand-rolled packing of helloworld.c produces exactly the transfer words. */
  lemma {:induction false} HelloWorldWordIsTransferWord(row: Vector, j: nat)
    requires j < VectorSize && j % WordBytes == 0
    ensures EncodeVector(row)[j / WordBytes] == HelloWorldWord(row, j)
  {
    var t := EncodeVector(row);
    var k := j / WordBytes;
    WordIsLittleEndian(t, k);
    var bs := ByteView(t)[4 * k .. 4 * k + 4];
    assert bs == (row + [0, 0])[j .. j + 4];
    LeValue4(bs);
  }

  /** The byte pattern 0, 1, ..., 13 of type_test.c reads as these four words. */
  lemma CountingVectorWords()
    ensures EncodeVector([0, 1, 2, 3, 4, 5, 6, 7, 8, 9, 10, 11, 12, 13])
         == [0x0302_0100, 0x0706_0504, 0x0B0A_0908, 0x0000_0D0C]
  {
    var v: Vector := [0, 1, 2, 3, 4, 5, 6, 7, 8, 9, 10, 11, 12, 13];
    HelloWorldWordIsTransferWord(v, 0);
    HelloWorldWordIsTransferWord(v, 4);
    HelloWorldWordIsTransferWord(v, 8);
    HelloWorldWordIsTransferWord(v, 12);
  }
}
