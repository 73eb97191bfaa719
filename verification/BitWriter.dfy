/** The bit writer of gb28181/mpegps/bitstream.go: a growable zeroed buffer and a
    cursor of whole bytes and bits. Fields are or-ed in at the cursor, so everything
    behind the cursor has to be zero; `Valid` keeps that through growth and `Reset`.
 */
module BitWriter {
  import opened Bytes

  /** Every bit field between the positions a and b reads the same in c1 as in c0. */
  ghost predicate Same(c0: seq<byte>, c1: seq<byte>, a: nat, b: nat)
  {
    && b <= 8 * |c0| && b <= 8 * |c1|
    && forall p: nat, m: nat {:trigger BitsVal(c1, p, m)} ::
         a <= p && p + m <= b ==> BitsVal(c1, p, m) == BitsVal(c0, p, m)
  }

  /** Every bit field in front of position pos reads the same in c1 as in c0. */
  ghost predicate Keeps(c0: seq<byte>, c1: seq<byte>, pos: nat)
  {
    Same(c0, c1, 0, pos)
  }

  lemma KeepsTrans(c0: seq<byte>, c1: seq<byte>, c2: seq<byte>, pos: nat, pos': nat)
    requires Keeps(c0, c1, pos) && Keeps(c1, c2, pos') && pos <= pos'
    ensures Keeps(c0, c2, pos)
  {
    forall p: nat, m: nat | p + m <= pos
      ensures BitsVal(c2, p, m) == BitsVal(c0, p, m)
    {
      assert BitsVal(c2, p, m) == BitsVal(c1, p, m);
    }
  }

  lemma SameLength(c0: seq<byte>, c1: seq<byte>, a: nat, b: nat)
    requires Same(c0, c1, a, b)
    ensures b <= 8 * |c1|
  {}

  /** Equal bytes in front, and an equal top of byte i, keep all fields up to bit k of byte i. */
  lemma KeepsTop(c0: seq<byte>, c1: seq<byte>, i: nat, k: nat)
    requires k <= 8 && i <= |c0| && i <= |c1| && c0[..i] == c1[..i]
    requires k > 0 ==> i < |c0| && i < |c1| && c0[i] / Pow2(8 - k) == c1[i] / Pow2(8 - k)
    ensures Keeps(c0, c1, 8 * i + k)
  {
    forall p: nat, m: nat | p + m <= 8 * i + k
      ensures BitsVal(c1, p, m) == BitsVal(c0, p, m)
    {
      KeepsTopField(c0, c1, i, k, p, m);
    }
  }

  lemma {:induction false} KeepsTopField(c0: seq<byte>, c1: seq<byte>, i: nat, k: nat, p: nat, m: nat)
    requires k <= 8 && i <= |c0| && i <= |c1| && c0[..i] == c1[..i]
    requires k > 0 ==> i < |c0| && i < |c1| && c0[i] / Pow2(8 - k) == c1[i] / Pow2(8 - k)
    requires p + m <= 8 * i + k
    ensures p + m <= 8 * |c0| && p + m <= 8 * |c1| && BitsVal(c1, p, m) == BitsVal(c0, p, m)
  {
    hide Pow2, BitAt;
    if m > 0 {
      KeepsTopField(c0, c1, i, k, p, m - 1);
      KeepsTopBit(c0, c1, i, k, p + m - 1);
    }
  }

  lemma KeepsTopBit(c0: seq<byte>, c1: seq<byte>, i: nat, k: nat, q: nat)
    requires k <= 8 && i <= |c0| && i <= |c1| && c0[..i] == c1[..i]
    requires k > 0 ==> i < |c0| && i < |c1| && c0[i] / Pow2(8 - k) == c1[i] / Pow2(8 - k)
    requires q < 8 * i + k
    ensures q < 8 * |c0| && q < 8 * |c1| && BitAt(c1, q) == BitAt(c0, q)
  {
    hide Pow2, ByteBit;
    var j, t := q / 8, q % 8;
    if j < i {
      assert c0[..i][j] == c1[..i][j];
    } else {
      TopBit(c0[i], k, t);
      TopBit(c1[i], k, t);
    }
  }

  lemma TopBit(x: byte, k: nat, t: nat)
    requires t < k <= 8
    ensures ByteBit(x, t) == ((x / Pow2(8 - k)) / Pow2(k - 1 - t)) % 2
  {
    hide Pow2;
    Pow2Add(8 - k, k - 1 - t);
    DivDiv(x, Pow2(8 - k), Pow2(k - 1 - t));
    assert 8 - k + (k - 1 - t) == 7 - t;
  }

  /** Or-ing an n-bit number behind the first k bits of a byte whose rest is zero. */
  lemma ByteRoom(x: byte, k: nat, n: nat, w: nat)
    requires k + n <= 8 && x % Pow2(8 - k) == 0 && w < Pow2(n)
    ensures var r := 8 - k - n; var y := x + w * Pow2(r);
      && BitOr(x, w * Pow2(r)) == y < 256
      && y % Pow2(r) == 0
      && (y / Pow2(r)) % Pow2(n) == w
      && y / Pow2(8 - k) == x / Pow2(8 - k)
  {
    hide Pow2;
    var r := 8 - k - n;
    var p, q := Pow2(r), Pow2(n);
    Pow2Add(n, r);
    Pow2Add(k, 8 - k);
    assert n + r == 8 - k;
    assert Pow2(8) == 256 by { Pow2Values(); }
    ByteRoomNumbers(x, p, q, Pow2(k), w);
    OrDisjoint(x, w * p, 8 - k);
  }

  /** The arithmetic of ByteRoom: x = a * (q * p) with a < t, and w < q. */
  lemma ByteRoomNumbers(x: nat, p: nat, q: nat, t: nat, w: nat)
    requires p > 0 && q > 0 && w < q && q * p > 0 && x % (q * p) == 0 && x < t * (q * p)
    ensures var y := x + w * p;
      && w * p < q * p && y < t * (q * p) && y % p == 0
      && (y / p) % q == w && y / (q * p) == x / (q * p)
  {
    var m := q * p;
    var a := x / m;
    if a >= t {
      MulMono(t, a, m);
    }
    RoomSplit(a, p, q, w, m);
    Below(a, t, w * p, m);
    MulCommutes(t, m);
    assert x == a * m;
  }

  lemma RoomSplit(a: nat, p: nat, q: nat, w: nat, m: nat)
    requires p > 0 && w < q && m == q * p
    ensures var y := a * m + w * p; 0 <= w * p < m && y % p == 0 && (y / p) % q == w && y / m == a
  {
    Below(w, q, 0, p);
    MulCommutes(p, q);
    DivModUnique(a * m + w * p, m, a, w * p);
    MulExpand(a, q, w, p);
    DivModUnique(a * m + w * p, p, a * q + w, 0);
    DivModUnique(a * q + w, q, a, w);
  }

  /** The effect of or-ing a field into one byte, on the bit view. */
  lemma PutInByte(c0: seq<byte>, c1: seq<byte>, i: nat, k: nat, n: nat, w: nat)
    requires k + n <= 8 && w < Pow2(n) && i < |c0|
    requires c0[i] % Pow2(8 - k) == 0
    requires var y := c0[i] + w * Pow2(8 - k - n); y < 256 && c1 == c0[i := y]
    ensures BitsVal(c1, 8 * i + k, n) == w
    ensures Keeps(c0, c1, 8 * i + k)
  {
    hide Pow2, BitsVal;
    ByteRoom(c0[i], k, n, w);
    BitsInByte(c1, i, k, n);
    KeepsTop(c0, c1, i, k);
  }

  class BitStreamWriter {
    var bits: seq<byte>
    var byteoffset: nat
    var bitsoffset: nat
    var bitsmark: nat
    var bytemark: nat

    /** The cursor lies in the buffer and every bit from the cursor on is zero. */
    ghost predicate Valid()
      reads this
    {
      && byteoffset <= |bits| && bitsoffset < 8
      && (bitsoffset > 0 ==> byteoffset < |bits|)
      && (byteoffset < |bits| ==> bits[byteoffset] % Pow2(8 - bitsoffset) == 0)
      && (forall j :: byteoffset < j < |bits| ==> bits[j] == 0)
    }

    ghost function Pos(): (p: nat)
      reads this
    {
      8 * byteoffset + bitsoffset
    }

    ghost function Mark(): int
      reads this
    {
      8 * bytemark + bitsmark
    }

    constructor (n: nat)
      ensures Valid() && |bits| == n && Pos() == 0
      ensures forall j :: 0 <= j < n ==> bits[j] == 0
    {
      hide Pow2;
      bits := seq(n, _ => 0);
      byteoffset, bitsoffset, bitsmark, bytemark := 0, 0, 0, 0;
      ZeroMod(Pow2(8));
    }

    /** Makes room for n more bits; what was written stays and the rest is zero. */
    method ExpandSpace(n: nat)
      requires Valid()
      modifies this`bits
      ensures Valid()
      ensures 8 * |bits| - Pos() >= n
      ensures old(bits) <= bits
    {
      hide Pow2;
      if (|bits| - byteoffset - 1) * 8 + 8 - bitsoffset < n {
        var newlen := 0;
        if |bits| * 8 < n {
          newlen := |bits| + n / 8 + 1;
        } else {
          newlen := |bits| * 2;
        }
        ghost var from := bits;
        bits := bits + seq(newlen - |bits|, _ => 0);
        if byteoffset == |from| { ZeroMod(Pow2(8)); }
      }
    }

    method Markdot()
      modifies this
      ensures Mark() == Pos() == old(Pos()) && bitsoffset == old(bitsoffset)
      ensures bits == old(bits) && (old(Valid()) ==> Valid())
    {
      bitsmark := bitsoffset;
      bytemark := byteoffset;
    }

    method DistanceFromMarkDot() returns (d: int)
      ensures d == Pos() - Mark()
    {
      var bytecount := byteoffset - bytemark - 1;
      var bitscount := bitsoffset + (8 - bitsmark);
      d := bytecount * 8 + bitscount;
    }

    /** Appends the low n bits of v. */
    method PutUint64(v: nat, n: nat)
      requires Valid() && n >= 1
      modifies this
      ensures Mark() == old(Mark())
      ensures Valid()
      ensures Pos() == old(Pos()) + n
      ensures BitsVal(bits, old(Pos()), n) == v % Pow2(n)
      ensures Keeps(old(bits), bits, old(Pos()))
    {
      hide BitsVal, Pow2, BitOr, Keeps;
      ghost var pos, from := Pos(), bits;
      ExpandSpace(n);
      ghost var c0 := bits;
      KeepsPrefix(from, c0, pos);
      if 8 - bitsoffset >= n {
        PutPart(c0, byteoffset, bitsoffset, n, v);
        bits := bits[byteoffset := BitOr(bits[byteoffset], ((v % 256) % Pow2(n)) * Pow2(8 - bitsoffset - n))];
        bitsoffset := bitsoffset + n;
        if bitsoffset == 8 {
          bitsoffset := 0;
          byteoffset := byteoffset + 1;
          assert byteoffset < |bits| ==> bits[byteoffset] % Pow2(8) == 0 by { ZeroMod(Pow2(8)); }
        }
      } else {
        PutAcrossBytes(v, n);
      }
      KeepsTrans(from, c0, bits, pos, pos);
    }

    /** The branch of PutUint64 for a field that does not fit into the byte at the cursor. */
    method PutAcrossBytes(v: nat, n: nat)
      requires Valid() && 8 - bitsoffset < n && Pos() + n <= 8 * |bits|
      modifies this
      ensures Mark() == old(Mark())
      ensures Valid() && Pos() == old(Pos()) + n
      ensures BitsVal(bits, old(Pos()), n) == v % Pow2(n)
      ensures Keeps(old(bits), bits, old(Pos()))
    {
      hide BitsVal, Pow2, BitOr, Keeps;
      ghost var pos, w, from := Pos(), n, bits;
      PutFirstBits(v, n);
      var n := n - (8 - bitsoffset);
      while n - 8 >= 0
        invariant Mark() == old(Mark())
        invariant 0 <= n < w && 8 * byteoffset == pos + (w - n) && pos + w <= 8 * |bits|
        invariant forall j :: byteoffset <= j < |bits| ==> bits[j] == 0
        invariant Keeps(from, bits, pos)
        invariant BitsVal(bits, pos, w - n) == (v / Pow2(n)) % Pow2(w - n)
      {
        ghost var c := bits;
        bits := bits[byteoffset := (v / Pow2(n - 8)) % 256];
        PutNextByte(c, bits, byteoffset, pos, w - n, n - 8, v);
        KeepsTrans(from, c, bits, pos, 8 * byteoffset);
        byteoffset := byteoffset + 1;
        n := n - 8;
      }
      ghost var c, end := bits, byteoffset;
      PutEnd(v, n);
      PutLastBits(c, bits, end, pos, w - n, n, v);
      KeepsTrans(from, c, bits, pos, 8 * end);
    }

    /** Fills up the byte at the cursor with the first of n bits. */
    method PutFirstBits(v: nat, n: nat)
      requires Valid() && 8 - bitsoffset < n && Pos() + n <= 8 * |bits|
      modifies this`bits, this`byteoffset
      ensures byteoffset == old(byteoffset) + 1 && |bits| == old(|bits|)
      ensures forall j :: byteoffset <= j < |bits| ==> bits[j] == 0
      ensures Keeps(old(bits), bits, old(Pos()))
      ensures var k := 8 - bitsoffset; BitsVal(bits, old(Pos()), k) == (v / Pow2(n - k)) % Pow2(k)
    {
      hide BitsVal, Pow2, BitOr, Keeps;
      PutTail(bits, byteoffset, bitsoffset, v / Pow2(n - (8 - bitsoffset)));
      var first := (v / Pow2(n - (8 - bitsoffset))) % 256;
      bits := bits[byteoffset := BitOr(bits[byteoffset], first % Pow2(8 - bitsoffset))];
      byteoffset := byteoffset + 1;
    }

    /** The last, incomplete byte of a field. */
    method PutEnd(v: nat, n: nat)
      requires n < 8 && 8 * byteoffset + n <= 8 * |bits|
      requires forall j :: byteoffset <= j < |bits| ==> bits[j] == 0
      modifies this
      ensures Mark() == old(Mark())
      ensures Valid() && Pos() == 8 * old(byteoffset) + n && |bits| == old(|bits|)
      ensures BitsVal(bits, 8 * old(byteoffset), n) == v % Pow2(n)
      ensures Keeps(old(bits), bits, 8 * old(byteoffset))
    {
      hide BitsVal, Pow2, BitOr, Keeps;
      ZeroMod(Pow2(8));
      bitsoffset := n;
      if n > 0 {
        PutPart(bits, byteoffset, 0, n, v);
        bits := bits[byteoffset := BitOr(bits[byteoffset], ((v % 256) % Pow2(n)) * Pow2(8 - n))];
      } else {
        NothingPut(bits, 8 * byteoffset, v);
      }
    }

    /** Appends a byte; only right, and only used, on a byte boundary. */
    method PutByte(v: byte)
      requires Valid() && bitsoffset == 0
      modifies this
      ensures Mark() == old(Mark()) && bitsoffset == 0
      ensures Valid()
      ensures Pos() == old(Pos()) + 8
      ensures bits[old(byteoffset)] == v && BitsVal(bits, old(Pos()), 8) == v
      ensures Keeps(old(bits), bits, old(Pos()))
    {
      hide BitsVal, Pow2;
      ghost var from := bits;
      ExpandSpace(8);
      bits := bits[byteoffset := v];
      assert from[..byteoffset] == bits[..byteoffset];
      KeepsTop(from, bits, byteoffset, 0);
      BitsByte(bits, byteoffset);
      byteoffset := byteoffset + 1;
      assert byteoffset < |bits| ==> bits[byteoffset] % Pow2(8) == 0 by { ZeroMod(Pow2(8)); }
    }

    method PutBytes(v: seq<byte>)
      requires Valid() && bitsoffset == 0
      modifies this
      ensures Mark() == old(Mark()) && bitsoffset == 0
      ensures Valid()
      ensures Pos() == old(Pos()) + 8 * |v|
      ensures bits[old(byteoffset)..byteoffset] == v
      ensures Keeps(old(bits), bits, old(Pos()))
    {
      hide BitsVal, Pow2;
      ghost var from := bits;
      ExpandSpace(8 * |v|);
      ghost var grown := bits;
      bits := bits[..byteoffset] + v + bits[byteoffset + |v|..];
      assert from[..byteoffset] == grown[..byteoffset] == bits[..byteoffset];
      KeepsTop(from, bits, byteoffset, 0);
      byteoffset := byteoffset + |v|;
      assert byteoffset < |bits| ==> bits[byteoffset] % Pow2(8) == 0 by {
        ZeroMod(Pow2(8));
        if 0 < |v| && byteoffset < |bits| { assert bits[byteoffset] == grown[byteoffset]; }
      }
    }

    method PutRepetValue(v: byte, n: nat)
      requires Valid() && bitsoffset == 0
      modifies this
      ensures Mark() == old(Mark()) && bitsoffset == 0
      ensures Valid()
      ensures Pos() == old(Pos()) + 8 * n
      ensures forall j :: old(byteoffset) <= j < byteoffset ==> bits[j] == v
      ensures Keeps(old(bits), bits, old(Pos()))
    {
      hide BitsVal, Pow2;
      ghost var from, start := bits, byteoffset;
      ExpandSpace(8 * n);
      ghost var grown := bits;
      for i := 0 to n
        invariant |bits| == |grown| && bitsoffset == 0 && Mark() == old(Mark())
        invariant byteoffset == start + i && start + n <= |bits|
        invariant forall j :: start <= j < byteoffset ==> bits[j] == v
        invariant forall j :: byteoffset <= j < |bits| ==> bits[j] == grown[j]
        invariant bits[..start] == from[..start]
      {
        bits := bits[byteoffset := v];
        byteoffset := byteoffset + 1;
      }
      assert from[..start] == bits[..start];
      KeepsTop(from, bits, start, 0);
      assert byteoffset < |bits| ==> bits[byteoffset] % Pow2(8) == 0 by {
        ZeroMod(Pow2(8));
        if 0 < n && byteoffset < |bits| { assert bits[byteoffset] == grown[byteoffset]; }
      }
    }

    /** Overwrites two bytes in place, big-endian; patching behind the cursor keeps the writer valid. */
    method SetUint16(v: nat, where: nat)
      requires where + 2 <= |bits| && v < 0x1_0000
      modifies this`bits
      ensures bits == old(bits)[where := v / 256][where + 1 := v % 256]
      ensures old(Valid()) && where + 2 <= byteoffset ==> Valid()
    {
      bits := bits[where := v / 256][where + 1 := v % 256];
    }

    /** The bytes written so far, the last one padded with zero bits. */
    method Bits() returns (b: seq<byte>)
      requires Valid()
      ensures |b| == (Pos() + 7) / 8 && b == bits[..|b|]
    {
      if byteoffset == |bits| {
        b := bits;
      } else if bitsoffset > 0 {
        b := bits[0..byteoffset + 1];
      } else {
        b := bits[0..byteoffset];
      }
    }

    method Reset()
      modifies this
      ensures Valid() && Pos() == 0
      ensures forall j :: 0 <= j < |bits| ==> bits[j] == 0
    {
      hide Pow2;
      for i := 0 to |bits|
        invariant |bits| == |old(bits)|
        invariant forall j :: 0 <= j < i ==> bits[j] == 0
      {
        bits := bits[i := 0];
      }
      bitsmark, bytemark, bitsoffset, byteoffset := 0, 0, 0, 0;
      ZeroMod(Pow2(8));
    }
  }

  lemma ZeroMod(p: nat)
    requires p > 0
    ensures 0 % p == 0
  {}

  lemma NothingPut(c: seq<byte>, pos: nat, v: nat)
    requires pos <= 8 * |c|
    ensures BitsVal(c, pos, 0) == v % Pow2(0) && Keeps(c, c, pos)
  {}

  lemma DivPow0(v: nat)
    ensures v / Pow2(0) == v && v * Pow2(0) == v
  {
    assert Pow2(0) == 1;
  }

  lemma KeepsPrefix(c0: seq<byte>, c1: seq<byte>, pos: nat)
    requires c0 <= c1 && pos <= 8 * |c0|
    ensures Keeps(c0, c1, pos)
  {
    forall p: nat, m: nat | p + m <= pos
      ensures BitsVal(c1, p, m) == BitsVal(c0, p, m)
    {
      BitsLocal(c0, 0, c1, 0, |c0|, p, m);
    }
  }

  /** Or-ing the low n bits of v behind the first k bits of byte i. */
  lemma PutPart(c0: seq<byte>, i: nat, k: nat, n: nat, v: nat)
    requires k + n <= 8 && i < |c0| && c0[i] % Pow2(8 - k) == 0
    ensures var y := BitOr(c0[i], ((v % 256) % Pow2(n)) * Pow2(8 - k - n));
      && y < 256 && y % Pow2(8 - k - n) == 0
      && BitsVal(c0[i := y], 8 * i + k, n) == v % Pow2(n)
      && Keeps(c0, c0[i := y], 8 * i + k)
  {
    hide BitsVal, Pow2, BitOr;
    ModMod(v, n);
    ByteRoom(c0[i], k, n, v % Pow2(n));
    var y := c0[i] + (v % Pow2(n)) * Pow2(8 - k - n);
    PutInByte(c0, c0[i := y], i, k, n, v % Pow2(n));
  }

  /** Or-ing the low 8 - k bits of v into the end of byte i. */
  lemma PutTail(c0: seq<byte>, i: nat, k: nat, v: nat)
    requires k <= 8 && i < |c0| && c0[i] % Pow2(8 - k) == 0
    ensures var y := BitOr(c0[i], (v % 256) % Pow2(8 - k));
      && y < 256
      && BitsVal(c0[i := y], 8 * i + k, 8 - k) == v % Pow2(8 - k)
      && Keeps(c0, c0[i := y], 8 * i + k)
  {
    hide BitsVal, Pow2, BitOr, Keeps;
    DivPow0((v % 256) % Pow2(8 - k));
    PutPart(c0, i, k, 8 - k, v);
  }

  /** Writing byte i whole continues a field whose first w bits are already there. */
  lemma PutNextByte(c0: seq<byte>, c1: seq<byte>, i: nat, pos: nat, w: nat, rest: nat, v: nat)
    requires i < |c0| && pos + w == 8 * i
    requires c1 == c0[i := (v / Pow2(rest)) % 256]
    requires BitsVal(c0, pos, w) == (v / Pow2(rest + 8)) % Pow2(w)
    ensures Keeps(c0, c1, 8 * i)
    ensures BitsVal(c1, pos, w + 8) == (v / Pow2(rest)) % Pow2(w + 8)
  {
    hide BitsVal, Pow2;
    KeepsTop(c0, c1, i, 0);
    AppendByte(c1, pos, w, i);
    assert BitsVal(c1, pos, w) == BitsVal(c0, pos, w);
    NextByteValue(v, rest, w);
  }

  lemma NextByteValue(v: nat, rest: nat, w: nat)
    ensures (v / Pow2(rest)) % Pow2(w + 8) == ((v / Pow2(rest + 8)) % Pow2(w)) * 256 + (v / Pow2(rest)) % 256
  {
    assert Pow2(8) == 256 by { Pow2Values(); }
    hide Pow2;
    ModSplit(v / Pow2(rest), w, 8);
    Pow2Add(rest, 8);
    DivDiv(v, Pow2(rest), Pow2(8));
  }

  lemma PutLastBits(c0: seq<byte>, c1: seq<byte>, i: nat, pos: nat, w: nat, n: nat, v: nat)
    requires n <= 8 && 8 * i + n <= 8 * |c0| && |c1| == |c0| && pos + w == 8 * i
    requires Keeps(c0, c1, 8 * i) && BitsVal(c1, 8 * i, n) == v % Pow2(n)
    requires BitsVal(c0, pos, w) == (v / Pow2(n)) % Pow2(w)
    ensures BitsVal(c1, pos, w + n) == v % Pow2(w + n)
  {
    hide BitsVal, Pow2;
    BitsConcat(c1, pos, w, n);
    assert BitsVal(c1, pos, w) == BitsVal(c0, pos, w);
    ModSplit(v, w, n);
  }

  /** Kept fields include the whole bytes. */
  lemma KeepsBytes(c0: seq<byte>, c1: seq<byte>, pos: nat, i: nat)
    requires Keeps(c0, c1, pos) && 8 * i + 8 <= pos
    ensures c0[i] == c1[i]
  {
    hide BitsVal;
    BitsByte(c0, i);
    BitsByte(c1, i);
    assert BitsVal(c1, 8 * i, 8) == BitsVal(c0, 8 * i, 8);
  }

  /** Patching two bytes sets that 16-bit field and leaves all fields beside it alone. */
  lemma Patched(c0: seq<byte>, c1: seq<byte>, where: nat, v: nat)
    requires where + 2 <= |c0| && v < 0x1_0000
    requires c1 == c0[where := v / 256][where + 1 := v % 256]
    ensures BitsVal(c1, 8 * where, 16) == v
    ensures Keeps(c0, c1, 8 * where)
    ensures Same(c0, c1, 8 * where + 16, 8 * |c0|)
  {
    hide BitsVal, Pow2;
    Word(c1, where);
    assert c0[..where] == c1[..where];
    KeepsTop(c0, c1, where, 0);
    forall p: nat, m: nat | 8 * where + 16 <= p && p + m <= 8 * |c0|
      ensures BitsVal(c1, p, m) == BitsVal(c0, p, m)
    {
      PatchedBehind(c0, c1, where + 2, p, m);
    }
  }

  lemma PatchedBehind(c0: seq<byte>, c1: seq<byte>, k: nat, p: nat, m: nat)
    requires |c0| == |c1| && k <= |c0| && c0[k..] == c1[k..] && 8 * k <= p && p + m <= 8 * |c0|
    ensures BitsVal(c1, p, m) == BitsVal(c0, p, m)
  {
    hide BitsVal, Pow2;
    assert c0[k..k + (|c0| - k)] == c0[k..] && c1[k..k + (|c0| - k)] == c1[k..];
    BitsLocal(c0, k, c1, k, |c0| - k, p - 8 * k, m);
    assert 8 * k + (p - 8 * k) == p;
  }

  lemma BytesKept(c0: seq<byte>, c1: seq<byte>, pos: nat, i: nat, j: nat)
    requires Keeps(c0, c1, pos) && i <= j && 8 * j <= pos
    ensures c0[i..j] == c1[i..j]
  {
    forall k | i <= k < j
      ensures c0[k] == c1[k]
    {
      KeepsBytes(c0, c1, pos, k);
    }
  }
}
