/** Little-endian byte strings: the storage order of every multi-byte field the
    host hands to the engine (vector words, instruction words, instruction fields).
    Values are plain integers; a C store into a narrower field is modelled by
    taking the low-order bytes. */
module LittleEndian {

  type byte = x: int | 0 <= x < 0x100
  type uint16 = x: int | 0 <= x < 0x1_0000
  type uint24 = x: int | 0 <= x < 0x100_0000
  type uint32 = x: int | 0 <= x < 0x1_0000_0000
  type uint40 = x: int | 0 <= x < 0x100_0000_0000

  /** 256^n: the number of distinct values n bytes can hold. */
  function Pow256(n: nat): (r: nat)
    ensures r > 0
    ensures n > 0 ==> r >= 256
  {
    if n == 0 then 1 else 256 * Pow256(n - 1)
  }

  /** The n low-order bytes of x, least significant first. */
  function LeBytes(x: nat, n: nat): (bs: seq<byte>)
    ensures |bs| == n
    ensures n > 0 ==> bs[0] == x % 256
  {
    if n == 0 then [] else [x % 256] + LeBytes(x / 256, n - 1)
  }

  /** The unsigned value of a little-endian byte string. */
  function LeValue(bs: seq<byte>): (x: nat)
    ensures x < Pow256(|bs|)
  {
    if |bs| == 0 then 0 else bs[0] + 256 * LeValue(bs[1..])
  }

  /** Decoding the n bytes of a value that fits in n bytes gives the value back. */
  lemma {:induction false} LeValueOfLeBytes(x: nat, n: nat)
    requires x < Pow256(n)
    ensures LeValue(LeBytes(x, n)) == x
  {
    if n > 0 {
      assert x / 256 < Pow256(n - 1);
      LeValueOfLeBytes(x / 256, n - 1);
      assert LeBytes(x, n)[1..] == LeBytes(x / 256, n - 1);
    }
  }

  /** Encoding the value of a byte string in as many bytes gives the string back. */
  lemma {:induction false} LeBytesOfLeValue(bs: seq<byte>)
    ensures LeBytes(LeValue(bs), |bs|) == bs
  {
    if |bs| > 0 {
      var v := LeValue(bs);
      assert v % 256 == bs[0] && v / 256 == LeValue(bs[1..]);
      LeBytesOfLeValue(bs[1..]);
    }
  }

  /** The value of a concatenation: the second string holds the high-order part. */
  lemma {:induction false} LeValueConcat(a: seq<byte>, b: seq<byte>)
    ensures LeValue(a + b) == LeValue(a) + Pow256(|a|) * LeValue(b)
  {
    if |a| == 0 {
      assert a + b == b;
    } else {
      var p, v, rest, a0 := Pow256(|a| - 1), LeValue(b), LeValue(a[1..]), a[0] as int;
      assert (a + b)[1..] == a[1..] + b;
      var tail := LeValue(a[1..] + b);
      assert LeValue(a + b) == a0 + 256 * tail;
      LeValueConcat(a[1..], b);
      ShiftDistributes(a0, tail, rest, p, v);
      assert Pow256(|a|) == 256 * p;
    }
  }

  /** The ring identity behind LeValueConcat, kept apart from the sequence reasoning. */
  lemma ShiftDistributes(a0: int, tail: int, rest: int, p: int, v: int)
    requires tail == rest + p * v
    ensures a0 + 256 * tail == (a0 + 256 * rest) + (256 * p) * v
  {
  }

  /** Two byte strings of the same length with the same value are equal. */
  lemma LeValueInjective(a: seq<byte>, b: seq<byte>)
    requires |a| == |b| && LeValue(a) == LeValue(b)
    ensures a == b
  {
    LeBytesOfLeValue(a);
    LeBytesOfLeValue(b);
  }

  /** A value below 256 in n bytes: the value, then zeros. */
  lemma {:induction false} LeBytesOfByte(x: nat, n: nat)
    requires x < 0x100 && n > 0
    ensures LeBytes(x, n) == [x] + seq(n - 1, _ => 0)
    decreases n
  {
    if n > 1 {
      LeBytesOfByte(0, n - 1);
      assert [0] + seq(n - 2, _ => 0) == seq(n - 1, _ => 0);
    }
  }

  /** The value of a four-byte string, spelled out. */
  lemma LeValue4(bs: seq<byte>)
    requires |bs| == 4
    ensures LeValue(bs) == bs[0] as int + 0x100 * bs[1] as int + 0x1_0000 * bs[2] as int + 0x100_0000 * bs[3] as int
  {
    var b1, b2, b3 := bs[1..], bs[2..], bs[3..];
    assert b1[1..] == b2 && b2[1..] == b3 && b3[1..] == [];
    assert LeValue(b3) == bs[3] as int;
    assert LeValue(b2) == bs[2] as int + 0x100 * bs[3] as int;
  }

  /** The value of a two-byte string, spelled out. */
  lemma LeValue2(bs: seq<byte>)
    requires |bs| == 2
    ensures LeValue(bs) == bs[0] as int + 0x100 * bs[1] as int
  {
    assert bs[1..][1..] == [];
  }

  /** The powers of 256 the field widths use. */
  lemma Pow256Values()
    ensures Pow256(2) == 0x1_0000 && Pow256(3) == 0x100_0000
    ensures Pow256(4) == 0x1_0000_0000 && Pow256(5) == 0x100_0000_0000
  {
  }

  /** A nonzero multiple of d is at least d away from zero. */
  lemma {:induction false} MultipleAwayFromZero(k: int, d: int)
    requires d > 0 && k != 0
    ensures k * d >= d || k * d <= -d
    decreases if k < 0 then -k else k
  {
    if k > 1 {
      MultipleAwayFromZero(k - 1, d);
      assert k * d == (k - 1) * d + d;
    } else if k < -1 {
      MultipleAwayFromZero(k + 1, d);
      assert k * d == (k + 1) * d - d;
    }
  }

  /** Quotient and remainder are determined by any decomposition x = q*d + r with 0 <= r < d. */
  lemma DivModUnique(x: int, d: int, q: int, r: int)
    requires d > 0 && 0 <= r < d && x == r + d * q
    ensures x / d == q && x % d == r
  {
    var q', r' := x / d, x % d;
    assert d * q == q * d;
    assert (q' - q) * d == q' * d - q * d;
    assert (q' - q) * d == r - r';
    if q' != q {
      MultipleAwayFromZero(q' - q, d);
    }
  }

  /** Cutting a byte string after n bytes splits its value into remainder and quotient by 256^n. */
  lemma {:induction false} LeValueLowHigh(bs: seq<byte>, n: nat)
    requires n <= |bs|
    ensures LeValue(bs[..n]) == LeValue(bs) % Pow256(n)
    ensures LeValue(bs[n..]) == LeValue(bs) / Pow256(n)
  {
    var a, b := bs[..n], bs[n..];
    assert a + b == bs;
    LeValueConcat(a, b);
    var lo, hi, p, x := LeValue(a), LeValue(b), Pow256(n), LeValue(bs);
    assert |a| == n;
    assert LeValue(a + b) == x;
    DivModUnique(x, p, hi, lo);
  }
}
