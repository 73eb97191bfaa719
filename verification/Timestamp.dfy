/** The 33-bit time stamps of pack and PES headers: 3, 15 and 15 bits, each
    followed by a marker bit (sections 2.4.3.7 and 2.5.3.3 of ISO/IEC 13818-1).
    The shift-and-or of disjoint parts is written as multiply-and-add.
 */
module Timestamp {
  import opened Bytes
  import opened BitReader
  import opened BitWriter

  /** The three parts of v and their marker bits stand at bit position q. */
  ghost predicate StampLaid(c: seq<byte>, q: nat, v: nat) {
    && q + 36 <= 8 * |c|
    && BitsVal(c, q, 3) == (v / Pow2(30)) % Pow2(3)
    && BitsVal(c, q + 3, 1) == 1 % Pow2(1)
    && BitsVal(c, q + 4, 15) == (v / Pow2(15)) % Pow2(15)
    && BitsVal(c, q + 19, 1) == 1 % Pow2(1)
    && BitsVal(c, q + 20, 15) == v % Pow2(15)
    && BitsVal(c, q + 35, 1) == 1 % Pow2(1)
  }

  /** The number the three parts at q spell, whatever the marker bits are. */
  function StampAt(c: seq<byte>, q: nat): (v: nat)
    requires q + 36 <= 8 * |c|
  {
    (BitsVal(c, q, 3) * 0x8000 + BitsVal(c, q + 4, 15)) * 0x8000 + BitsVal(c, q + 20, 15)
  }

  method PutStamp(bsw: BitStreamWriter, v: nat)
    requires bsw.Valid()
    modifies bsw
    ensures bsw.Valid() && bsw.Mark() == old(bsw.Mark())
    ensures bsw.Pos() == old(bsw.Pos()) + 36
    ensures StampLaid(bsw.bits, old(bsw.Pos()), v)
    ensures Keeps(old(bsw.bits), bsw.bits, old(bsw.Pos()))
  {
    hide BitsVal, Pow2;
    bsw.PutUint64(v / Pow2(30), 3);
    bsw.PutUint64(1, 1);
    bsw.PutUint64(v / Pow2(15), 15);
    bsw.PutUint64(1, 1);
    bsw.PutUint64(v, 15);
    bsw.PutUint64(1, 1);
  }

  method GetStamp(bs: BitStream) returns (v: nat)
    requires bs.Valid() && bs.Pos() + 36 <= 8 * |bs.bits|
    modifies bs
    ensures bs.Valid() && bs.Pos() == old(bs.Pos()) + 36 && bs.Mark() == old(bs.Mark())
    ensures v == StampAt(bs.bits, old(bs.Pos()))
  {
    hide BitsVal, Pow2;
    v := bs.GetBits(3);
    bs.SkipBits(1);
    var mid := bs.GetBits(15);
    v := v * 0x8000 + mid;
    bs.SkipBits(1);
    var low := bs.GetBits(15);
    v := v * 0x8000 + low;
    bs.SkipBits(1);
  }

  /** What is read back is the stamp cut to 33 bits. */
  lemma StampRoundTrip(c: seq<byte>, q: nat, v: nat)
    requires StampLaid(c, q, v)
    ensures StampAt(c, q) == v % Pow2(33)
    ensures v < Pow2(33) ==> StampAt(c, q) == v
  {
    hide BitsVal, Pow2;
    StampParts(v);
    if v < Pow2(33) {
      SmallMod(v, Pow2(33));
    }
  }

  lemma StampParts(v: nat)
    ensures (((v / Pow2(30)) % Pow2(3)) * 0x8000 + (v / Pow2(15)) % Pow2(15)) * 0x8000 + v % Pow2(15) == v % Pow2(33)
  {
    hide Pow2;
    var h, m, l := (v / Pow2(30)) % Pow2(3), (v / Pow2(15)) % Pow2(15), v % Pow2(15);
    assert Pow2(15) == 0x8000 by { Pow2Values(); }
    assert (v / Pow2(15)) % Pow2(18) == h * 0x8000 + m by {
      ModSplit(v / Pow2(15), 3, 15);
      DivDiv(v, Pow2(15), Pow2(15));
      Pow2Add(15, 15);
    }
    ModSplit(v, 18, 15);
  }

  lemma StampLocal(s: seq<byte>, t: seq<byte>, q: nat)
    requires s <= t && q + 36 <= 8 * |s|
    ensures StampAt(s, q) == StampAt(t, q)
  {
    hide BitsVal;
    BitsExtend(s, t);
  }

  lemma StampShift(s: seq<byte>, k: nat, q: nat)
    requires k <= |s| && q + 36 <= 8 * |s[k..]|
    ensures StampAt(s, 8 * k + q) == StampAt(s[k..], q)
  {
    hide BitsVal;
    BitsShift(s, k);
    assert 8 * k + q + 4 == 8 * k + (q + 4) && 8 * k + q + 20 == 8 * k + (q + 20);
  }
}
