/**
 * Java integer widths and the big-endian byte order of java.nio.ByteBuffer.
 * A Java `int` or `long` is an integer of the matching range; its bit pattern
 * is obtained with U32 / U64 and turned back into a signed value with S32 / S64,
 * so shifts, masks and truncating casts can be written as arithmetic.
 */
module Buffers {

  const TWO_31: int := 0x8000_0000
  const TWO_32: int := 0x1_0000_0000
  const TWO_63: int := 0x8000_0000_0000_0000
  const TWO_64: int := 0x1_0000_0000_0000_0000

  type byte = x: int | 0 <= x < 0x100
  type int32 = x: int | -0x8000_0000 <= x < 0x8000_0000
  type int64 = x: int | -0x8000_0000_0000_0000 <= x < 0x8000_0000_0000_0000

  /** The Java exceptions the modelled code can raise. */
  datatype Fault = IndexOutOfBounds | NegativeArraySize | NullPointer

  /** The 32 bits of a Java int, read as unsigned. */
  function U32(x: int32): (u: nat)
    ensures u < TWO_32
    ensures x >= 0 ==> u == x
  {
    x % TWO_32
  }

  /** The Java int whose bits are `u`. */
  function S32(u: nat): (x: int32)
    requires u < TWO_32
    ensures x % TWO_32 == u
  {
    if u < TWO_31 then u else u - TWO_32
  }

  /** The 64 bits of a Java long, read as unsigned. */
  function U64(x: int64): (u: nat)
    ensures u < TWO_64
  {
    x % TWO_64
  }

  /** The Java long whose bits are `u`. */
  function S64(u: nat): (x: int64)
    requires u < TWO_64
    ensures x % TWO_64 == u
  {
    if u < TWO_63 then u else u - TWO_64
  }

  /** The value of a Java int expression whose exact result is `x` (wrap-around). */
  function Wrap32(x: int): (r: int32)
    ensures -0x8000_0000 <= x < 0x8000_0000 ==> r == x
  {
    S32(x % TWO_32)
  }

  function Pow256(n: nat): (r: nat)
    ensures r > 0
  {
    if n == 0 then 1 else 256 * Pow256(n - 1)
  }

  lemma Pow256Widths()
    ensures Pow256(4) == TWO_32 && Pow256(8) == TWO_64
  {
  }

  /** The unsigned number whose big-endian bytes are `bs`. */
  function FromBigEndian(bs: seq<byte>): (r: nat)
    ensures r < Pow256(|bs|)
  {
    if bs == [] then 0 else FromBigEndian(bs[..|bs| - 1]) * 256 + bs[|bs| - 1]
  }

  /** The `n` big-endian bytes of `x`. */
  function ToBigEndian(x: nat, n: nat): (bs: seq<byte>)
    requires x < Pow256(n)
    ensures |bs| == n
  {
    if n == 0 then [] else ToBigEndian(x / 256, n - 1) + [x % 256]
  }

  lemma {:induction false} FromToBigEndian(x: nat, n: nat)
    requires x < Pow256(n)
    ensures FromBigEndian(ToBigEndian(x, n)) == x
  {
    if n > 0 {
      var bs := ToBigEndian(x, n);
      assert bs[..n - 1] == ToBigEndian(x / 256, n - 1);
      FromToBigEndian(x / 256, n - 1);
    }
  }

  /** ByteBuffer.putInt: the four big-endian bytes of a Java int. */
  function IntBytes(x: int32): (bs: seq<byte>)
    ensures |bs| == 4
  {
    Pow256Widths();
    ToBigEndian(U32(x), 4)
  }

  /** ByteBuffer.putLong: the eight big-endian bytes of a Java long. */
  function LongBytes(x: int64): (bs: seq<byte>)
    ensures |bs| == 8
  {
    Pow256Widths();
    ToBigEndian(U64(x), 8)
  }

  /** ByteBuffer.getInt on four bytes. */
  function ReadInt(bs: seq<byte>): int32
    requires |bs| == 4
  {
    Pow256Widths();
    S32(FromBigEndian(bs))
  }

  /** ByteBuffer.getLong on eight bytes. */
  function ReadLong(bs: seq<byte>): int64
    requires |bs| == 8
  {
    Pow256Widths();
    S64(FromBigEndian(bs))
  }

  /** getInt reads back what putInt wrote. */
  lemma ReadIntBytes(x: int32)
    ensures ReadInt(IntBytes(x)) == x
  {
    Pow256Widths();
    FromToBigEndian(U32(x), 4);
  }

  /** getLong reads back what putLong wrote. */
  lemma ReadLongBytes(x: int64)
    ensures ReadLong(LongBytes(x)) == x
  {
    Pow256Widths();
    FromToBigEndian(U64(x), 8);
  }

  /**
   * java.util.Objects.checkFromIndexSize(from, size, length): the test every
   * absolute ByteBuffer access and every slice makes before touching memory.
   */
  predicate InRange(from: int, size: int, length: int)
  {
    0 <= from && 0 <= size && size <= length - from
  }

  /** A slice of a slice view is a slice of the backing bytes. */
  lemma SliceOfSlice(x: seq<byte>, a: nat, b: nat, i: nat, j: nat)
    requires a <= b <= |x| && i <= j <= b - a
    ensures x[a..b][i..j] == x[a + i..a + j]
  {
    forall k | 0 <= k < j - i ensures x[a..b][i..j][k] == x[a + i..a + j][k] {
      assert x[a..b][i + k] == x[a + i + k];
    }
  }

  /** ByteBuffer.put(index, src): the bytes of `x` with `bs` written over them from `at` on. */
  function Splice(x: seq<byte>, at: nat, bs: seq<byte>): (y: seq<byte>)
    requires at + |bs| <= |x|
    ensures |y| == |x|
  {
    x[..at] + bs + x[at + |bs|..]
  }

  /** A write leaves every range it does not overlap as it was. */
  lemma SpliceOutside(x: seq<byte>, at: nat, bs: seq<byte>, p: nat, q: nat)
    requires at + |bs| <= |x| && p <= q <= |x|
    requires q <= at || at + |bs| <= p
    ensures Splice(x, at, bs)[p..q] == x[p..q]
  {
    var y := Splice(x, at, bs);
    forall j | p <= j < q ensures y[j] == x[j] {
      if j < at {
        assert y[j] == (x[..at] + bs)[j];
      }
    }
  }

  /** A write that starts where a range ends extends that range by the written bytes. */
  lemma SpliceAppends(x: seq<byte>, at: nat, bs: seq<byte>, p: nat)
    requires p <= at && at + |bs| <= |x|
    ensures Splice(x, at, bs)[p..at + |bs|] == x[p..at] + bs
  {
    var y := Splice(x, at, bs);
    forall j | p <= j < at + |bs| ensures y[j] == (x[p..at] + bs)[j - p] {
      assert y[j] == (x[..at] + bs)[j];
    }
  }

  /** Two writes back to back are one write of their concatenation. */
  lemma SpliceTwice(x: seq<byte>, at: nat, a: seq<byte>, b: seq<byte>)
    requires at + |a| + |b| <= |x|
    ensures Splice(Splice(x, at, a), at + |a|, b) == Splice(x, at, a + b)
  {
    var y := Splice(x, at, a);
    var z := Splice(y, at + |a|, b);
    var w := Splice(x, at, a + b);
    forall j | 0 <= j < |x| ensures z[j] == w[j] {
      if j < at + |a| {
        assert z[j] == (y[..at + |a|] + b)[j] == y[j];
        assert y[j] == (x[..at] + a)[j];
        assert w[j] == (x[..at] + (a + b))[j];
      } else if j < at + |a| + |b| {
        assert z[j] == (y[..at + |a|] + b)[j] == b[j - at - |a|];
        assert w[j] == (x[..at] + (a + b))[j];
      }
    }
  }
}
