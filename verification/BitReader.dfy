/** The bit reader of gb28181/mpegps/bitstream.go: a cursor of whole bytes and
    bits over a byte slice. Its position is 8 * bytesOffset + bitsOffset, and what it
    reads is the bit view `BitsVal` at that position.

    Reading out of range panics in the program, so staying in range is what it
    demands of its callers. The results are at most 64 bits wide, so that the
    shifts of an unsigned 64-bit result lose nothing.
 */
module BitReader {
  import opened Bytes

  /** Go's division and remainder, which truncate toward zero. */
  function GoDiv(a: int, b: int): int
    requires b > 0
  {
    if a >= 0 then a / b else -((-a) / b)
  }

  function GoRem(a: int, b: int): int
    requires b > 0
  {
    a - b * GoDiv(a, b)
  }

  /** The remainder of a truncating division has the sign of the dividend. */
  lemma GoRemSign(a: int)
    ensures a == 8 * GoDiv(a, 8) + GoRem(a, 8) && -8 < GoRem(a, 8) < 8
    ensures a >= 0 ==> GoRem(a, 8) == a % 8
    ensures a <= 0 ==> GoRem(a, 8) == -((-a) % 8)
  {}

  /** Skipping n bits from bit k of a byte leaves a bit offset that is not negative. */
  predicate SkipLands(k: nat, n: int) {
    n >= 0 || k >= (-n) % 8
  }

  class BitStream {
    const bits: seq<byte>
    var bytesOffset: int
    var bitsOffset: int
    var bitsmark: int
    var bytemark: int

    constructor (buf: seq<byte>)
      ensures bits == buf && bytesOffset == 0 && bitsOffset == 0 && bitsmark == 0 && bytemark == 0
    {
      bits := buf;
      bytesOffset, bitsOffset, bitsmark, bytemark := 0, 0, 0, 0;
    }

    ghost predicate Valid()
      reads this
    {
      0 <= bytesOffset && 0 <= bitsOffset < 8
    }

    ghost function Pos(): int
      reads this
    {
      8 * bytesOffset + bitsOffset
    }

    ghost function Mark(): int
      reads this
    {
      8 * bytemark + bitsmark
    }

    /** The cursor stands on a byte boundary inside the buffer. */
    ghost predicate Aligned()
      reads this
    {
      0 <= bytesOffset <= |bits| && bitsOffset == 0
    }

    method GetBits(n: nat) returns (ret: nat)
      requires Valid() && 1 <= n <= 64 && Pos() + n <= 8 * |bits|
      modifies this
      ensures Mark() == old(Mark())
      ensures Valid() && Pos() == old(Pos()) + n
      ensures ret == BitsVal(bits, old(Pos()), n)
    {
      hide BitsVal, Pow2;
      var n := n;
      ghost var pos, w := Pos(), n;
      if 8 - bitsOffset >= n {
        BitsInByte(bits, bytesOffset, bitsOffset, n);
        ret := (bits[bytesOffset] / Pow2(8 - bitsOffset - n)) % Pow2(n);
        bitsOffset := bitsOffset + n;
        if bitsOffset == 8 {
          bytesOffset := bytesOffset + 1;
          bitsOffset := 0;
        }
      } else {
        LastBits(bits, bytesOffset, bitsOffset);
        ret := bits[bytesOffset] % Pow2(8 - bitsOffset);
        bytesOffset := bytesOffset + 1;
        n := n - (8 - bitsOffset);
        bitsOffset := 0;
        while n > 0
          invariant 0 <= n < w && Valid() && Mark() == old(Mark())
          invariant bitsOffset == 0 && Pos() == pos + (w - n)
          invariant ret == BitsVal(bits, pos, w - n)
        {
          if n >= 8 {
            AppendByte(bits, pos, w - n, bytesOffset);
            ret := ret * 256 + bits[bytesOffset];
            bytesOffset := bytesOffset + 1;
            n := n - 8;
          } else {
            AppendBits(bits, pos, w - n, bytesOffset, n);
            ret := ret * Pow2(n) + (bits[bytesOffset] / Pow2(8 - n)) % Pow2(n);
            bitsOffset := n;
            break;
          }
        }
      }
    }

    method GetBit() returns (ret: nat)
      requires Valid() && Pos() < 8 * |bits|
      modifies this
      ensures Mark() == old(Mark())
      ensures Valid() && Pos() == old(Pos()) + 1
      ensures ret == BitsVal(bits, old(Pos()), 1)
    {
      BitsInByte(bits, bytesOffset, bitsOffset, 1);
      assert Pow2(1) == 2;
      ret := (bits[bytesOffset] / Pow2(7 - bitsOffset)) % 2;
      bitsOffset := bitsOffset + 1;
      if bitsOffset >= 8 {
        bytesOffset := bytesOffset + 1;
        bitsOffset := 0;
      }
    }

    /** The position always moves by exactly n, but for a negative n the cursor is
        left with a negative bit offset when the boundary of a byte is crossed. */
    method SkipBits(n: int)
      requires 0 <= bitsOffset < 8
      modifies this
      ensures Mark() == old(Mark())
      ensures Pos() == old(Pos()) + n && bitsOffset < 8
      ensures bitsOffset >= 0 <==> SkipLands(old(bitsOffset), n)
    {
      GoRemSign(n);
      var bytecount := GoDiv(n, 8);
      var bitscount := GoRem(n, 8);
      bytesOffset := bytesOffset + bytecount;
      if bitsOffset + bitscount < 8 {
        bitsOffset := bitsOffset + bitscount;
      } else {
        bytesOffset := bytesOffset + 1;
        bitsOffset := bitsOffset + (bitscount - 8);
      }
    }

    method Markdot()
      modifies this
      ensures Mark() == Pos() == old(Pos()) && bytesOffset == old(bytesOffset)
    {
      bitsmark := bitsOffset;
      bytemark := bytesOffset;
    }

    method DistanceFromMarkDot() returns (d: int)
      ensures d == Pos() - Mark()
    {
      var bytecount := bytesOffset - bytemark - 1;
      var bitscount := bitsOffset + (8 - bitsmark);
      d := bytecount * 8 + bitscount;
    }

    /** The whole bytes behind the cursor. */
    method RemainBytes() returns (r: int)
      requires Valid()
      ensures 8 * r <= 8 * |bits| - Pos() < 8 * (r + 1)
    {
      if bitsOffset > 0 {
        r := |bits| - bytesOffset - 1;
      } else {
        r := |bits| - bytesOffset;
      }
    }

    method RemainBits() returns (r: int)
      requires Valid()
      ensures r == 8 * |bits| - Pos()
    {
      var b := RemainBytes();
      if bitsOffset > 0 {
        r := b * 8 + 8 - bitsOffset;
      } else {
        r := b * 8;
      }
    }

    method RemainData() returns (d: seq<byte>)
      requires Valid() && bytesOffset <= |bits|
      ensures d == bits[bytesOffset..]
    {
      d := bits[bytesOffset..];
    }

    method EOS() returns (b: bool)
      requires Valid()
      ensures b <==> Pos() == 8 * |bits|
    {
      b := bytesOffset == |bits| && bitsOffset == 0;
    }

    /** The cursor moves back by exactly n bits unless it is unaligned and a whole number of
        bytes lies between its byte and the target: then the bit offset is not cleared,
        and the cursor ends up that many bits too far on. */
    method UnRead(n: nat)
      requires 0 <= bitsOffset < 8
      modifies this
      ensures Mark() == old(Mark())
      ensures 0 <= bitsOffset < 8
      ensures old(bitsOffset) == 0 && n % 8 == 0 ==> bitsOffset == 0
      ensures var k := old(bitsOffset);
        Pos() == old(Pos()) - n + (if k < n && (n - k) % 8 == 0 then k else 0)
    {
      if n - bitsOffset <= 0 {
        bitsOffset := bitsOffset - n;
      } else {
        var least := n - bitsOffset;
        ghost var from := bytesOffset;
        while least >= 8
          modifies this`bytesOffset
          invariant 0 <= least <= n - bitsOffset
          invariant (n - bitsOffset - least) % 8 == 0
          invariant 8 * (from - bytesOffset) == n - bitsOffset - least
        {
          bytesOffset := bytesOffset - 1;
          least := least - 8;
        }
        if least > 0 {
          bytesOffset := bytesOffset - 1;
          bitsOffset := 8 - least;
        }
      }
    }

    /** Peeking gives the next n bits and restores the cursor, except that from an aligned cursor a peek of more than
        eight bits that are not whole bytes leaves the bit offset of its end. */
    method NextBits(n: nat) returns (r: nat)
      requires Valid() && 1 <= n <= 64 && Pos() + n <= 8 * |bits|
      modifies this
      ensures Mark() == old(Mark())
      ensures Valid() && bytesOffset == old(bytesOffset)
      ensures bitsOffset == if old(bitsOffset) == 0 && n > 8 then n % 8 else old(bitsOffset)
      ensures r == BitsVal(bits, old(Pos()), n)
    {
      hide BitsVal, Pow2;
      r := GetBits(n);
      ghost var b, k := bytesOffset, bitsOffset;
      UnRead(n);
      PeekBack(b, k, bytesOffset, bitsOffset, old(bytesOffset), old(bitsOffset), n);
    }

    /** Unsigned Exp-Golomb code: z zero bits, then the z + 1 bits of the value plus one. */
    method ReadUE() returns (v: nat)
      requires Valid() && HasUE(bits, Pos())
      modifies this
      ensures Mark() == old(Mark())
      ensures Valid() && Pos() == old(Pos()) + 2 * LeadingZeros(bits, old(Pos())) + 1
      ensures v == UE(bits, old(Pos()))
    {
      hide BitsVal, Pow2, BitAt;
      ghost var pos := Pos();
      ghost var z := LeadingZeros(bits, pos);
      var leadingZeroBits := 0;
      var b := GetBit();
      while b == 0
        invariant 0 <= leadingZeroBits <= z && Valid() && Mark() == old(Mark())
        invariant Pos() == pos + leadingZeroBits + 1
        invariant LeadingZeros(bits, pos + leadingZeroBits) == z - leadingZeroBits
        invariant b == BitsVal(bits, pos + leadingZeroBits, 1)
        decreases z - leadingZeroBits
      {
        OneBit(bits, pos + leadingZeroBits);
        leadingZeroBits := leadingZeroBits + 1;
        b := GetBit();
      }
      OneBit(bits, pos + leadingZeroBits);
      UECode(bits, pos);
      if leadingZeroBits == 0 {
        return 0;
      }
      var info := GetBits(leadingZeroBits);
      v := Pow2(leadingZeroBits) - 1 + info;
    }

    /** Signed Exp-Golomb code: 0, 1, -1, 2, -2, ... in the order of the unsigned code. */
    method ReadSE() returns (r: int)
      requires Valid() && HasUE(bits, Pos())
      modifies this
      ensures Mark() == old(Mark())
      ensures Valid() && Pos() == old(Pos()) + 2 * LeadingZeros(bits, old(Pos())) + 1
      ensures UE(bits, old(Pos())) == if r > 0 then 2 * r - 1 else -2 * r
    {
      hide HasUE, UE, LeadingZeros, BitsVal, Pow2;
      var v: int := ReadUE();
      if v % 2 == 0 {
        r := -1 * (v / 2);
      } else {
        r := (v + 1) / 2;
      }
    }
  }

  lemma LastBits(s: seq<byte>, i: nat, k: nat)
    requires i < |s| && k < 8
    ensures BitsVal(s, 8 * i + k, 8 - k) == s[i] % Pow2(8 - k)
  {
    BitsInByte(s, i, k, 8 - k);
    assert s[i] / Pow2(0) == s[i];
  }

  lemma AppendBits(s: seq<byte>, pos: nat, w: nat, i: nat, n: nat)
    requires pos + w == 8 * i && i < |s| && n <= 8
    ensures BitsVal(s, pos, w + n) == BitsVal(s, pos, w) * Pow2(n) + (s[i] / Pow2(8 - n)) % Pow2(n)
  {
    BitsConcat(s, pos, w, n);
    BitsInByte(s, i, 0, n);
  }

  /** From (b0, k0) n bits on to (b, k), and back by the rule of UnRead to (b1, k1). */
  lemma PeekBack(b: int, k: int, b1: int, k1: int, b0: int, k0: int, n: nat)
    requires 8 * b + k == 8 * b0 + k0 + n && 0 <= k < 8 && 0 <= k0 < 8 && 0 <= k1 < 8 && n >= 1
    requires 8 * b1 + k1 == 8 * b + k - n + if k < n && (n - k) % 8 == 0 then k else 0
    ensures b1 == b0 && k1 == if k0 == 0 && n > 8 then n % 8 else k0
  {}

  ghost function LeadingZeros(s: seq<byte>, pos: nat): nat
    decreases 8 * |s| - pos
  {
    if pos < 8 * |s| && BitAt(s, pos) == 0 then 1 + LeadingZeros(s, pos + 1) else 0
  }

  /** A complete Exp-Golomb code of at most 63 leading zeros stands at pos. */
  ghost predicate HasUE(s: seq<byte>, pos: nat) {
    var z := LeadingZeros(s, pos);
    z <= 63 && pos + 2 * z + 1 <= 8 * |s|
  }

  /** The value of the Exp-Golomb code at pos: the code read as one number, less one. */
  ghost function UE(s: seq<byte>, pos: nat): int
    requires HasUE(s, pos)
  {
    BitsVal(s, pos, 2 * LeadingZeros(s, pos) + 1) - 1
  }

  /** Leading zeros add nothing to the value; the first one bit is worth 2^z. */
  lemma UECode(s: seq<byte>, pos: nat)
    requires HasUE(s, pos)
    ensures var z := LeadingZeros(s, pos);
      UE(s, pos) == Pow2(z) - 1 + BitsVal(s, pos + z + 1, z)
  {
    hide BitsVal, Pow2;
    var z := LeadingZeros(s, pos);
    ZerosThenOne(s, pos);
    BitsConcat(s, pos, z + 1, z);
    assert 2 * z + 1 == z + 1 + z;
  }

  lemma {:induction false} ZerosThenOne(s: seq<byte>, pos: nat)
    requires pos + LeadingZeros(s, pos) < 8 * |s|
    ensures BitsVal(s, pos, LeadingZeros(s, pos) + 1) == 1
    decreases LeadingZeros(s, pos)
  {
    var z := LeadingZeros(s, pos);
    if z == 0 {
      OneBit(s, pos);
    } else {
      ZerosThenOne(s, pos + 1);
      BitsConcat(s, pos, 1, z);
      OneBit(s, pos);
    }
  }

  lemma OneBit(s: seq<byte>, pos: nat)
    requires pos < 8 * |s|
    ensures BitsVal(s, pos, 1) == BitAt(s, pos)
  {}
}
