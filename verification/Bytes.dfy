/** Bytes, powers of two and the bit view of a byte sequence.

    Shifts and masks of the program are written as division and remainder by
    powers of two: `x >> k` is `x / Pow2(k)` and `x & BitMask[n-1]` is
    `x % Pow2(n)`. `BitOr` is the bitwise or of two non-negative numbers.
 */
module Bytes {

  type byte = x: int | 0 <= x < 256

  function Pow2(n: nat): (p: nat)
    ensures p > 0
  {
    if n == 0 then 1 else 2 * Pow2(n - 1)
  }

  function BitOr(a: nat, b: nat): nat {
    if a == 0 then b
    else 2 * BitOr(a / 2, b / 2) + (if a % 2 == 1 || b % 2 == 1 then 1 else 0)
  }

  /** Bit k of a byte, bit 0 being the most significant one. */
  function ByteBit(x: byte, k: nat): (b: nat)
    requires k < 8
    ensures b <= 1
  {
    (x / Pow2(7 - k)) % 2
  }

  /** The bit at position i, the most significant bit of each byte first. */
  function BitAt(s: seq<byte>, i: nat): (b: nat)
    requires i < 8 * |s|
    ensures b <= 1
  {
    ByteBit(s[i / 8], i % 8)
  }

  /** The number that the n bits from position pos on spell, most significant bit first. */
  function BitsVal(s: seq<byte>, pos: nat, n: nat): (v: nat)
    requires pos + n <= 8 * |s|
    ensures v < Pow2(n)
  {
    if n == 0 then 0 else 2 * BitsVal(s, pos, n - 1) + BitAt(s, pos + n - 1)
  }

  lemma {:induction false} Pow2Add(m: nat, n: nat)
    ensures Pow2(m + n) == Pow2(m) * Pow2(n)
  {
    if n == 0 {
    } else {
      Pow2Add(m, n - 1);
    }
  }

  lemma {:induction false} BitsConcat(s: seq<byte>, pos: nat, m: nat, n: nat)
    requires pos + m + n <= 8 * |s|
    ensures BitsVal(s, pos, m + n) == BitsVal(s, pos, m) * Pow2(n) + BitsVal(s, pos + m, n)
  {
    hide BitsVal, BitAt;
    if n == 0 {
      NoBits(s, pos + m);
    } else {
      BitsConcat(s, pos, m, n - 1);
      DoubleProduct(BitsVal(s, pos, m), Pow2(n - 1));
      LastBit(s, pos, m + n);
      LastBit(s, pos + m, n);
    }
  }

  lemma DoubleProduct(a: int, p: int)
    ensures 2 * (a * p) == a * (2 * p)
  {}

  /** Splitting off the lowest bit commutes with taking a remainder. */
  lemma ModLowBit(y: nat, n: nat)
    requires n > 0
    ensures y % Pow2(n) == 2 * ((y / 2) % Pow2(n - 1)) + y % 2
  {
    var p := Pow2(n - 1);
    var h, q := y / 2, (y / 2) / p;
    assert h == q * p + h % p;
    assert y == 2 * (q * p + h % p) + y % 2;
    assert y == q * (2 * p) + (2 * (h % p) + y % 2);
    DivModUnique(y, 2 * p, q, 2 * (h % p) + y % 2);
  }

  lemma DivModUnique(a: int, b: int, q: int, r: int)
    requires 0 <= r < b
    requires a == q * b + r
    ensures a / b == q && a % b == r
  {
    var q', r' := a / b, a % b;
    var k := q - q';
    assert k * b == r' - r by {
      assert a == q' * b + r';
      assert k * b == q * b - q' * b;
    }
    if k >= 1 {
      MulAtLeast(k, b);
    } else if k <= -1 {
      MulAtLeast(-k, b);
    }
  }

  lemma MulAtLeast(k: int, b: int)
    requires k >= 1 && b >= 0
    ensures k * b >= b
  {}

  /** The bits k .. k+n of one byte are a shift and a mask of it. */
  lemma {:induction false} BitsInByte(s: seq<byte>, i: nat, k: nat, n: nat)
    requires i < |s| && k + n <= 8
    ensures BitsVal(s, 8 * i + k, n) == (s[i] / Pow2(8 - k - n)) % Pow2(n)
  {
    if n == 0 {
    } else {
      BitsInByte(s, i, k, n - 1);
      BitAtByte(s, i, k + n - 1);
      ByteStep(s[i], k, n);
      assert 8 * i + k + n - 1 == 8 * i + (k + n - 1);
    }
  }

  /** One more bit of a byte: shifting one position less and masking one bit more. */
  lemma ByteStep(x: byte, k: nat, n: nat)
    requires n > 0 && k + n <= 8
    ensures 2 * ((x / Pow2(8 - k - (n - 1))) % Pow2(n - 1)) + ByteBit(x, k + n - 1)
         == (x / Pow2(8 - k - n)) % Pow2(n)
  {
    HalfShift(x, 8 - k - n);
    ModLowBit(x / Pow2(8 - k - n), n);
  }

  lemma BitAtByte(s: seq<byte>, i: nat, k: nat)
    requires i < |s| && k < 8
    ensures BitAt(s, 8 * i + k) == ByteBit(s[i], k)
  {
    DivModUnique(8 * i + k, 8, i, k);
  }

  lemma HalfShift(x: nat, k: nat)
    ensures x / Pow2(k + 1) == (x / Pow2(k)) / 2
  {
    DivDiv(x, Pow2(k), 2);
    assert Pow2(k + 1) == Pow2(k) * 2;
  }

  lemma DivDiv(a: nat, b: nat, c: nat)
    requires b > 0 && c > 0
    ensures b * c > 0 && a / (b * c) == (a / b) / c
  {
    Digits(a, b, c, a / b, a % b, (a / b) / c, (a / b) % c);
  }

  /** Quotient and remainder by a product, from those by its factors. */
  lemma Digits(a: nat, b: nat, c: nat, q: nat, r: nat, h: nat, m: nat)
    requires a == q * b + r && r < b && q == h * c + m && m < c
    ensures b * c > 0 && a / (b * c) == h && a % (b * c) == m * b + r
  {
    MulExpand(h, c, m, b);
    MulCommutes(c, b);
    Below(m, c, r, b);
    DivModUnique(a, b * c, h, m * b + r);
  }

  lemma MulCommutes(a: int, b: int)
    ensures a * b == b * a
  {}

  lemma Below(m: nat, c: nat, r: nat, b: nat)
    requires m < c && r < b
    ensures 0 <= m * b && m * b + r < b * c
  {
    MulMono(m + 1, c, b);
    assert (m + 1) * b == m * b + b;
    assert m * b >= 0;
  }

  /** The bit view of a stretch of bytes depends on those bytes only. */
  lemma {:induction false} BitsLocal(s: seq<byte>, a: nat, t: seq<byte>, b: nat, len: nat, pos: nat, n: nat)
    requires a + len <= |s| && b + len <= |t|
    requires s[a..a + len] == t[b..b + len]
    requires pos + n <= 8 * len
    ensures BitsVal(s, 8 * a + pos, n) == BitsVal(t, 8 * b + pos, n)
  {
    hide BitsVal, BitAt, Pow2;
    if n == 0 {
      NoBits(s, 8 * a + pos);
      NoBits(t, 8 * b + pos);
    } else {
      BitsLocal(s, a, t, b, len, pos, n - 1);
      BitLocal(s, a, t, b, len, pos + n - 1);
      LastBit(s, 8 * a + pos, n);
      LastBit(t, 8 * b + pos, n);
    }
  }

  lemma NoBits(s: seq<byte>, pos: nat)
    requires pos <= 8 * |s|
    ensures BitsVal(s, pos, 0) == 0
  {}

  lemma LastBit(s: seq<byte>, pos: nat, n: nat)
    requires n > 0 && pos + n <= 8 * |s|
    ensures BitsVal(s, pos, n) == 2 * BitsVal(s, pos, n - 1) + BitAt(s, pos + n - 1)
  {}

  lemma BitLocal(s: seq<byte>, a: nat, t: seq<byte>, b: nat, len: nat, j: nat)
    requires a + len <= |s| && b + len <= |t|
    requires s[a..a + len] == t[b..b + len]
    requires j < 8 * len
    ensures BitAt(s, 8 * a + j) == BitAt(t, 8 * b + j)
  {
    hide BitAt, ByteBit;
    var i, k := j / 8, j % 8;
    BitAtByte(s, a + i, k);
    BitAtByte(t, b + i, k);
    assert s[a + i] == s[a..a + len][i] == t[b..b + len][i] == t[b + i];
    assert 8 * a + j == 8 * (a + i) + k && 8 * b + j == 8 * (b + i) + k;
  }

  /** Reading from the middle of s is reading from the start of the rest. */
  lemma BitsShift(s: seq<byte>, k: nat)
    requires k <= |s|
    ensures forall pos: nat, n: nat {:trigger BitsVal(s[k..], pos, n)} ::
      pos + n <= 8 * |s[k..]| ==> BitsVal(s, 8 * k + pos, n) == BitsVal(s[k..], pos, n)
  {
    var t := s[k..];
    forall pos: nat, n: nat | pos + n <= 8 * |t|
      ensures BitsVal(s, 8 * k + pos, n) == BitsVal(t, pos, n)
    {
      BitsLocal(s, k, t, 0, |t|, pos, n);
    }
  }

  /** More bytes behind a sequence do not change what is read from it. */
  lemma BitsExtend(x: seq<byte>, d: seq<byte>)
    requires x <= d
    ensures forall pos: nat, n: nat {:trigger BitsVal(x, pos, n)} ::
      pos + n <= 8 * |x| ==> BitsVal(x, pos, n) == BitsVal(d, pos, n)
  {
    forall pos: nat, n: nat | pos + n <= 8 * |x|
      ensures BitsVal(x, pos, n) == BitsVal(d, pos, n)
    {
      BitsLocal(x, 0, d, 0, |x|, pos, n);
    }
  }

  lemma BitsByte(s: seq<byte>, i: nat)
    requires i < |s|
    ensures BitsVal(s, 8 * i, 8) == s[i]
  {
    hide BitsVal, Pow2;
    BitsInByte(s, i, 0, 8);
    assert Pow2(0) == 1 && Pow2(8) == 256 by { Pow2Values(); }
  }

  lemma AppendByte(s: seq<byte>, pos: nat, w: nat, i: nat)
    requires pos + w == 8 * i && i < |s|
    ensures BitsVal(s, pos, w + 8) == BitsVal(s, pos, w) * 256 + s[i]
  {
    hide BitsVal, Pow2;
    BitsConcat(s, pos, w, 8);
    BitsByte(s, i);
    assert Pow2(8) == 256 by { Pow2Values(); }
  }

  lemma Pow2Values()
    ensures Pow2(0) == 1 && Pow2(1) == 2 && Pow2(2) == 4 && Pow2(3) == 8 && Pow2(4) == 16
    ensures Pow2(5) == 32 && Pow2(6) == 64 && Pow2(7) == 128 && Pow2(8) == 256
    ensures Pow2(15) == 0x8000 && Pow2(16) == 0x1_0000
  {}

  /** Adding to a number whose low k bits are clear a number of at most k bits is their bitwise or. */
  lemma {:induction false} OrDisjoint(a: nat, b: nat, k: nat)
    requires a % Pow2(k) == 0 && b < Pow2(k)
    ensures BitOr(a, b) == a + b
  {
    if a == 0 || k == 0 {
      assert k == 0 ==> b == 0;
      OrZero(a);
    } else {
      ModLowBit(a, k);
      OrDisjoint(a / 2, b / 2, k - 1);
    }
  }

  lemma OrZero(a: nat)
    ensures BitOr(a, 0) == a
  {
    if a > 0 {
      OrZero(a / 2);
    }
  }

  /** A remainder by 2^(m+k) is its high part, shifted, plus the remainder by 2^k. */
  lemma ModSplit(u: nat, m: nat, k: nat)
    ensures u % Pow2(m + k) == ((u / Pow2(k)) % Pow2(m)) * Pow2(k) + u % Pow2(k)
  {
    hide Pow2;
    var p, q := Pow2(m), Pow2(k);
    Pow2Add(m, k);
    var h := u / q;
    assert u == h * q + u % q && h == (h / p) * p + h % p;
    Digits(u, q, p, h, u % q, h / p, h % p);
    MulCommutes(p, q);
  }

  lemma MulExpand(a: int, p: int, r: int, q: int)
    ensures (a * p + r) * q == a * (p * q) + r * q
  {
    assert (a * p + r) * q == (a * p) * q + r * q;
    assert (a * p) * q == a * (p * q);
  }

  lemma MulMono(a: int, b: int, q: int)
    requires a <= b && q >= 0
    ensures a * q <= b * q
  {
    assert (b - a) * q >= 0;
  }

  lemma SmallMod(v: nat, m: nat)
    requires v < m
    ensures v % m == v
  {}

  /** Truncating to a byte first does not change the low k <= 8 bits. */
  lemma ModMod(u: nat, k: nat)
    requires k <= 8
    ensures (u % 256) % Pow2(k) == u % Pow2(k)
  {
    ModSplit(u, 8 - k, k);
    ModSplit(u % 256, 8 - k, k);
    assert Pow2(8) == 256 && 8 - k + k == 8;
    var a, b, q := (u / Pow2(k)) % Pow2(8 - k), u % Pow2(k), Pow2(k);
    assert u % 256 == a * q + b;
    DivModUnique(u % 256, q, a, b);
  }

  function Flatten(chunks: seq<seq<byte>>): seq<byte> {
    if chunks == [] then [] else chunks[0] + Flatten(chunks[1..])
  }

  lemma Associate<T>(a: seq<T>, b: seq<T>, c: seq<T>)
    ensures a + (b + c) == (a + b) + c && a + [] == a && [] + c == c
  {}

  lemma {:induction false} FlattenAppend(a: seq<seq<byte>>, b: seq<seq<byte>>)
    ensures Flatten(a + b) == Flatten(a) + Flatten(b)
    decreases |a|
  {
    if a == [] {
      assert a + b == b;
    } else {
      FlattenAppend(a[1..], b);
      assert (a + b)[1..] == a[1..] + b;
    }
  }

  /** The big-endian 16-bit number in bytes i and i + 1. */
  function U16(s: seq<byte>, i: nat): (v: nat)
    requires i + 2 <= |s|
    ensures v < 0x1_0000
  {
    var hi: int := s[i];
    var lo: int := s[i + 1];
    256 * hi + lo
  }

  lemma Word(s: seq<byte>, i: nat)
    requires i + 2 <= |s|
    ensures BitsVal(s, 8 * i, 16) == U16(s, i)
  {
    hide BitsVal, Pow2;
    BitsConcat(s, 8 * i, 8, 8);
    BitsByte(s, i);
    BitsByte(s, i + 1);
    assert Pow2(8) == 256 by { Pow2Values(); }
  }

  /** The big-endian 32-bit number in bytes i to i + 3. */
  function U32(s: seq<byte>, i: nat): (v: nat)
    requires i + 4 <= |s|
  {
    U16(s, i) * 0x1_0000 + U16(s, i + 2)
  }

  lemma Quad(s: seq<byte>, i: nat)
    requires i + 4 <= |s|
    ensures BitsVal(s, 8 * i, 32) == U32(s, i)
  {
    hide BitsVal, Pow2;
    BitsConcat(s, 8 * i, 16, 16);
    Word(s, i);
    Word(s, i + 2);
    assert Pow2(16) == 0x1_0000 by { Pow2Values(); }
  }

  /** A cursor of b bytes and r bits that stands at the bit position 8 * k. */
  lemma OnBoundary(b: int, r: int, k: int)
    requires 8 * b + r == 8 * k && 0 <= r < 8
    ensures b == k && r == 0
  {}
}
