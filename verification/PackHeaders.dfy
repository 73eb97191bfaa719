/** Pack headers: gb28181/mpegps/ps_proto.go. */
module PackHeaders {
  import opened Bytes
  import opened BitReader
  import opened BitWriter
  import opened Timestamp
  import opened PsFormat

  datatype Status = Fine | Short | Refused

  class PsPackHeader {
    var isMpeg1: bool
    var systemClockReferenceBase: nat
    var systemClockReferenceExtension: nat
    var programMuxRate: nat
    var packStuffingLength: nat

    constructor ()
      ensures !isMpeg1 && systemClockReferenceBase == systemClockReferenceExtension == 0
      ensures programMuxRate == packStuffingLength == 0
    {
      isMpeg1 := false;
      systemClockReferenceBase, systemClockReferenceExtension, programMuxRate, packStuffingLength := 0, 0, 0, 0;
    }

    /** The fields as they are after decoding; a stuffing length is kept from an earlier header by an MPEG-1 one. */
    ghost predicate Holds(p: Pack)
      reads this
    {
      && systemClockReferenceBase == p.base && systemClockReferenceExtension == p.extension
      && programMuxRate == p.muxRate && (!p.mpeg1 ==> packStuffingLength == p.stuffing)
    }

    method Decode(bs: BitStream) returns (err: Status)
      requires bs.Aligned()
      modifies this, bs
      ensures var d := bs.bits[old(bs.bytesOffset)..];
        match ParsePack(d)
        case NeedMore(k) => err == Short && isMpeg1 == old(isMpeg1)
                            && bs.Aligned() && bs.bytesOffset == old(bs.bytesOffset) + k
        case Done(n, p) => err == Fine && Holds(p) && isMpeg1 == (old(isMpeg1) || p.mpeg1)
                           && bs.Aligned() && bs.bytesOffset == old(bs.bytesOffset) + n
        case _ => err == Refused && isMpeg1 == old(isMpeg1)
    {
      hide BitsVal, Pow2, StampAt;
      ghost var off := bs.bytesOffset;
      ghost var d := bs.bits[off..];
      BitsShift(bs.bits, off);
      var remain := bs.RemainBytes();
      if remain < 5 {
        return Short;
      }
      Quad(d, 0);
      assert BitsVal(d, 0, 32) == BitsVal(bs.bits, bs.Pos(), 32);
      var code := bs.GetBits(32);
      OnBoundary(bs.bytesOffset, bs.bitsOffset, off + 4);
      if code != 0x1BA {
        return Refused;
      }
      err := DecodeKind(bs);
    }

    /** Behind the start code the first bits tell the two versions apart. */
    method DecodeKind(bs: BitStream) returns (err: Status)
      requires bs.Aligned() && 4 <= bs.bytesOffset < |bs.bits| && U32(bs.bits[bs.bytesOffset - 4..], 0) == 0x1BA
      modifies this, bs
      ensures var d := bs.bits[old(bs.bytesOffset) - 4..];
        match ParsePack(d)
        case NeedMore(k) => err == Short && isMpeg1 == old(isMpeg1)
                            && bs.Aligned() && bs.bytesOffset == old(bs.bytesOffset) - 4 + k
        case Done(n, p) => err == Fine && Holds(p) && isMpeg1 == (old(isMpeg1) || p.mpeg1)
                           && bs.Aligned() && bs.bytesOffset == old(bs.bytesOffset) - 4 + n
        case _ => err == Refused && isMpeg1 == old(isMpeg1)
    {
      hide BitsVal, Pow2, StampAt, U32;
      ghost var d := bs.bits[bs.bytesOffset - 4..];
      BitsShift(bs.bits, bs.bytesOffset - 4);
      assert BitsVal(d, 32, 2) == BitsVal(bs.bits, bs.Pos(), 2) && BitsVal(d, 32, 4) == BitsVal(bs.bits, bs.Pos(), 4);
      var remain;
      var two := bs.NextBits(2);
      if two == 1 {
        remain := bs.RemainBytes();
        if remain < 10 {
          return Short;
        }
        err := DecodeMpeg2(bs);
      } else {
        var four := bs.NextBits(4);
        if four == 2 {
          remain := bs.RemainBytes();
          if remain < 8 {
            return Short;
          }
          isMpeg1 := true;
          err := DecodeMpeg1(bs);
        } else {
          return Refused;
        }
      }
    }

    method DecodeMpeg2(bs: BitStream) returns (err: Status)
      requires bs.Aligned() && bs.bytesOffset >= 4 && bs.bytesOffset + 10 <= |bs.bits|
      modifies this`systemClockReferenceBase, this`systemClockReferenceExtension, this`programMuxRate,
               this`packStuffingLength, bs
      ensures bs.Aligned()
      ensures var d := bs.bits[old(bs.bytesOffset) - 4..];
        var s := BitsVal(d, 109, 3);
        if |d| - 14 < s then err == Short && bs.bytesOffset == old(bs.bytesOffset)
        else
          && err == Fine && bs.bytesOffset == old(bs.bytesOffset) + 10 + s
          && Holds(Pack(false, StampAt(d, 34), BitsVal(d, 70, 9), BitsVal(d, 80, 22), s))
    {
      hide BitsVal, Pow2, StampAt;
      ghost var off := bs.bytesOffset - 4;
      BitsShift(bs.bits, off);
      StampShift(bs.bits, off, 34);
      ReadFields(bs);
      assert packStuffingLength == BitsVal(bs.bits[off..], 109, 3);
      var remain := bs.RemainBytes();
      if remain < packStuffingLength {
        bs.UnRead(10 * 8);
        OnBoundary(bs.bytesOffset, bs.bitsOffset, off + 4);
        return Short;
      }
      bs.SkipBits(packStuffingLength * 8);
      OnBoundary(bs.bytesOffset, bs.bitsOffset, off + 14 + packStuffingLength);
      return Fine;
    }

    /** The ten bytes of fields behind the start code of an MPEG-2 pack header. */
    method ReadFields(bs: BitStream)
      requires bs.Aligned() && bs.bytesOffset >= 4 && bs.bytesOffset + 10 <= |bs.bits|
      modifies this`systemClockReferenceBase, this`systemClockReferenceExtension, this`programMuxRate,
               this`packStuffingLength, bs
      ensures bs.Aligned() && bs.bytesOffset == old(bs.bytesOffset) + 10
      ensures var c, q := bs.bits, old(bs.Pos()) - 32;
        Holds(Pack(false, StampAt(c, q + 34), BitsVal(c, q + 70, 9), BitsVal(c, q + 80, 22), BitsVal(c, q + 109, 3)))
    {
      hide BitsVal, Pow2, StampAt, BitAt, ByteBit;
      ghost var off := bs.bytesOffset - 4;
      bs.SkipBits(2);
      var base := GetStamp(bs);
      var ext := bs.GetBits(9);
      bs.SkipBits(1);
      var rate := bs.GetBits(22);
      bs.SkipBits(1);
      bs.SkipBits(1);
      bs.SkipBits(5);
      var stuff := bs.GetBits(3);
      OnBoundary(bs.bytesOffset, bs.bitsOffset, off + 14);
      systemClockReferenceBase := base;
      systemClockReferenceExtension, programMuxRate, packStuffingLength := ext, rate, stuff;
    }

    method DecodeMpeg1(bs: BitStream) returns (err: Status)
      requires bs.Aligned() && bs.bytesOffset >= 4 && bs.bytesOffset + 8 <= |bs.bits|
      modifies this`systemClockReferenceBase, this`systemClockReferenceExtension, this`programMuxRate,
               bs
      ensures var d := bs.bits[old(bs.bytesOffset) - 4..];
        && err == Fine && bs.Aligned() && bs.bytesOffset == old(bs.bytesOffset) + 8
        && Holds(Pack(true, StampAt(d, 36), 1, BitsVal(d, 72, 7) * 0x8000 + BitsVal(d, 80, 15), 0))
    {
      hide BitsVal, Pow2;
      ghost var off := bs.bytesOffset - 4;
      ghost var d := bs.bits[off..];
      BitsShift(bs.bits, off);
      bs.SkipBits(4);
      StampShift(bs.bits, off, 36);
      systemClockReferenceBase := GetStamp(bs);
      systemClockReferenceExtension := 1;
      var high := bs.GetBits(7);
      assert high == BitsVal(d, 72, 7);
      bs.SkipBits(1);
      var low := bs.GetBits(15);
      assert low == BitsVal(d, 80, 15);
      programMuxRate := high * 0x8000 + low;
      bs.SkipBits(1);
      OnBoundary(bs.bytesOffset, bs.bitsOffset, off + 12);
      return Fine;
    }

    /** The encoder demands an aligned writer (it panics otherwise). */
    method Encode(bsw: BitStreamWriter)
      requires bsw.Valid() && bsw.bitsoffset == 0
      modifies bsw
      ensures bsw.Valid() && bsw.bitsoffset == 0 && bsw.byteoffset == old(bsw.byteoffset) + 14 + packStuffingLength
      ensures PackLaid(bsw.bits, old(bsw.Pos()), Fields())
      ensures Keeps(old(bsw.bits), bsw.bits, old(bsw.Pos()))
    {
      hide BitsVal, Pow2, PackClock, PackRates, StampLaid;
      ghost var p, from := bsw.Pos(), bsw.bits;
      PutClock(bsw);
      ghost var c := bsw.bits;
      PutRates(bsw);
      PackClockKept(c, bsw.bits, p, Fields());
      KeepsTrans(from, c, bsw.bits, p, p + 70);
    }

    ghost function Fields(): Pack
      reads this
    {
      Pack(false, systemClockReferenceBase, systemClockReferenceExtension, programMuxRate, packStuffingLength)
    }

    /** The start code and the clock reference base. */
    method PutClock(bsw: BitStreamWriter)
      requires bsw.Valid() && bsw.bitsoffset == 0
      modifies bsw
      ensures bsw.Valid() && bsw.Pos() == old(bsw.Pos()) + 70
      ensures PackClock(bsw.bits, old(bsw.Pos()), Fields())
      ensures Keeps(old(bsw.bits), bsw.bits, old(bsw.Pos()))
    {
      hide BitsVal, Pow2, StampLaid;
      bsw.PutBytes([0x00, 0x00, 0x01, 0xBA]);
      CodeLaid(bsw.bits, bsw.byteoffset - 4, 0xBA);
      bsw.PutUint64(1, 2);
      PutStamp(bsw, systemClockReferenceBase);
    }

    /** Everything behind the clock reference base. */
    method PutRates(bsw: BitStreamWriter)
      requires bsw.Valid() && bsw.bitsoffset == 6
      modifies bsw
      ensures bsw.Valid() && bsw.bitsoffset == 0
      ensures bsw.byteoffset == old(bsw.byteoffset) + 6 + packStuffingLength
      ensures PackRates(bsw.bits, old(bsw.Pos()), Fields())
      ensures Keeps(old(bsw.bits), bsw.bits, old(bsw.Pos()))
    {
      hide BitsVal, Pow2, PackTail;
      ghost var b := bsw.byteoffset;
      bsw.PutUint64(systemClockReferenceExtension, 9);
      bsw.PutUint64(1, 1);
      bsw.PutUint64(programMuxRate, 22);
      SixBits(bsw.byteoffset, bsw.bitsoffset, b + 4);
      PutStuffing(bsw);
    }

    lemma SixBits(b: int, r: int, k: int)
      requires 8 * b + r == 8 * k + 6 && 0 <= r < 8
      ensures b == k && r == 6
    {}

    method PutStuffing(bsw: BitStreamWriter)
      requires bsw.Valid() && bsw.bitsoffset == 6
      modifies bsw
      ensures bsw.Valid() && bsw.bitsoffset == 0
      ensures bsw.byteoffset == old(bsw.byteoffset) + 2 + packStuffingLength
      ensures PackTail(bsw.bits, old(bsw.Pos()), Fields())
      ensures Keeps(old(bsw.bits), bsw.bits, old(bsw.Pos()))
    {
      hide BitsVal, Pow2;
      ghost var b := bsw.byteoffset;
      bsw.PutUint64(1, 1);
      bsw.PutUint64(1, 1);
      bsw.PutUint64(0x1F, 5);
      bsw.PutUint64(packStuffingLength, 3);
      OnBoundary(bsw.byteoffset, bsw.bitsoffset, b + 2);
      bsw.PutRepetValue(0xFF, packStuffingLength);
    }
  }

  /** A pack header with these fields, marker and reserved bits set, stands at bit position p. */
  ghost predicate PackLaid(c: seq<byte>, p: nat, h: Pack) {
    PackClock(c, p, h) && PackRates(c, p + 70, h)
  }

  ghost predicate PackClock(c: seq<byte>, p: nat, h: Pack) {
    && p + 70 <= 8 * |c|
    && BitsVal(c, p, 32) == 0x1BA
    && BitsVal(c, p + 32, 2) == 1 % Pow2(2)
    && StampLaid(c, p + 34, h.base)
  }

  ghost predicate PackRates(c: seq<byte>, p: nat, h: Pack) {
    && p + 42 <= 8 * |c|
    && BitsVal(c, p, 9) == h.extension % Pow2(9)
    && BitsVal(c, p + 9, 1) == 1 % Pow2(1)
    && BitsVal(c, p + 10, 22) == h.muxRate % Pow2(22)
    && PackTail(c, p + 32, h)
  }

  ghost predicate PackTail(c: seq<byte>, p: nat, h: Pack) {
    && p + 10 + 8 * h.stuffing <= 8 * |c|
    && BitsVal(c, p, 1) == 1 % Pow2(1)
    && BitsVal(c, p + 1, 1) == 1 % Pow2(1)
    && BitsVal(c, p + 2, 5) == 0x1F % Pow2(5)
    && BitsVal(c, p + 7, 3) == h.stuffing % Pow2(3)
    && (forall j :: p + 10 <= 8 * j < p + 10 + 8 * h.stuffing ==> c[j] == 0xFF)
  }

  lemma PackClockKept(c0: seq<byte>, c1: seq<byte>, p: nat, h: Pack)
    requires PackClock(c0, p, h) && Keeps(c0, c1, p + 70)
    ensures PackClock(c1, p, h)
  {
    hide BitsVal, Pow2;
  }

  /** Four bytes 00 00 01 xx are the 32-bit start code. */
  lemma CodeLaid(c: seq<byte>, o: nat, id: byte)
    requires o + 4 <= |c| && c[o..o + 4] == [0x00, 0x00, 0x01, id]
    ensures BitsVal(c, 8 * o, 32) == 0x100 + id
  {
    hide BitsVal;
    Quad(c, o);
    assert c[o..o + 4][0] == 0 && c[o..o + 4][1] == 0 && c[o..o + 4][2] == 1 && c[o..o + 4][3] == id;
  }

  /** What the fields are cut to by their widths. */
  function PackCut(h: Pack): Pack {
    Pack(false, h.base % Pow2(33), h.extension % Pow2(9), h.muxRate % Pow2(22), h.stuffing)
  }

  /** Decoding an encoded pack header gives its fields back and stops right behind its last byte. */
  lemma PackRoundTrip(c: seq<byte>, off: nat, h: Pack)
    requires off <= |c| && PackLaid(c, 8 * off, h) && h.stuffing < 8
    ensures |c[off..]| >= 14 && U32(c[off..], 0) == 0x1BA
    ensures ParsePack(c[off..]) == Done(14 + h.stuffing, PackCut(h))
    ensures !h.mpeg1 && h.base < Pow2(33) && h.extension < Pow2(9) && h.muxRate < Pow2(22) ==> PackCut(h) == h
  {
    hide BitsVal, Pow2, StampAt, StampLaid;
    var d := c[off..];
    BitsShift(c, off);
    StampShift(c, off, 34);
    StampRoundTrip(c, 8 * off + 34, h.base);
    Quad(d, 0);
    assert BitsVal(d, 0, 32) == BitsVal(c, 8 * off + 0, 32);
    assert BitsVal(d, 32, 2) == BitsVal(c, 8 * off + 32, 2) == 1 by { Pow2Values(); }
    assert BitsVal(d, 70, 9) == BitsVal(c, 8 * off + 70, 9);
    assert BitsVal(d, 80, 22) == BitsVal(c, 8 * off + 80, 22);
    assert BitsVal(d, 109, 3) == BitsVal(c, 8 * off + 109, 3) == h.stuffing by { Pow2Values(); }
    if !h.mpeg1 && h.base < Pow2(33) && h.extension < Pow2(9) && h.muxRate < Pow2(22) {
      SmallMod(h.base, Pow2(33));
      SmallMod(h.extension, Pow2(9));
      SmallMod(h.muxRate, Pow2(22));
    }
  }
}
