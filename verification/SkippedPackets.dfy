/** The packets of gb28181/mpegps/ps_proto.go that are skipped by their length field. */
module SkippedPackets {
  import opened Bytes
  import opened BitReader
  import opened PsFormat
  import opened PackHeaders

  class ProgramStreamDirectory {
    var pesPacketLength: nat

    constructor () { pesPacketLength := 0; }

    method Decode(bs: BitStream) returns (err: Status)
      requires bs.Aligned()
      modifies this, bs
      ensures var d := bs.bits[old(bs.bytesOffset)..];
        if |d| >= 6 && U32(d, 0) != 0x1FF then err == Refused
        else match ParseSkipped(d)
          case NeedMore(k) => err == Short && bs.Aligned() && bs.bytesOffset == old(bs.bytesOffset) + k
          case Done(n, _) => err == Fine && bs.Aligned() && bs.bytesOffset == old(bs.bytesOffset) + n
                             && pesPacketLength == U16(d, 4)
          case _ => false
    {
      hide BitsVal, Pow2;
      ghost var off := bs.bytesOffset;
      ghost var d := bs.bits[off..];
      BitsShift(bs.bits, off);
      var remain := bs.RemainBytes();
      if remain < 6 {
        return Short;
      }
      Quad(d, 0);
      assert BitsVal(d, 0, 32) == BitsVal(bs.bits, bs.Pos(), 32);
      var code := bs.GetBits(32);
      if code != 0x1FF {
        return Refused;
      }
      Word(d, 4);
      assert BitsVal(d, 32, 16) == BitsVal(bs.bits, bs.Pos(), 16);
      pesPacketLength := bs.GetBits(16);
      OnBoundary(bs.bytesOffset, bs.bitsOffset, off + 6);
      remain := bs.RemainBytes();
      if remain < pesPacketLength {
        bs.UnRead(6 * 8);
        OnBoundary(bs.bytesOffset, bs.bitsOffset, off);
        return Short;
      }
      bs.SkipBits(pesPacketLength * 8);
      OnBoundary(bs.bytesOffset, bs.bitsOffset, off + 6 + pesPacketLength);
      return Fine;
    }
  }

  class CommonPesPacket {
    var streamId: nat
    var pesPacketLength: nat

    constructor () { streamId, pesPacketLength := 0, 0; }

    method Decode(bs: BitStream) returns (err: Status)
      requires bs.Aligned()
      modifies this, bs
      ensures var d := bs.bits[old(bs.bytesOffset)..];
        match ParseSkipped(d)
        case NeedMore(k) => err == Short && bs.Aligned() && bs.bytesOffset == old(bs.bytesOffset) + k
        case Done(n, _) => err == Fine && bs.Aligned() && bs.bytesOffset == old(bs.bytesOffset) + n
                           && streamId == d[3] && pesPacketLength == U16(d, 4)
        case _ => false
    {
      hide BitsVal, Pow2;
      ghost var off := bs.bytesOffset;
      ghost var d := bs.bits[off..];
      BitsShift(bs.bits, off);
      var remain := bs.RemainBytes();
      if remain < 6 {
        return Short;
      }
      bs.SkipBits(24);
      BitsByte(d, 3);
      assert BitsVal(d, 24, 8) == BitsVal(bs.bits, bs.Pos(), 8);
      streamId := bs.GetBits(8);
      Word(d, 4);
      assert BitsVal(d, 32, 16) == BitsVal(bs.bits, bs.Pos(), 16);
      pesPacketLength := bs.GetBits(16);
      OnBoundary(bs.bytesOffset, bs.bitsOffset, off + 6);
      remain := bs.RemainBytes();
      if remain < pesPacketLength {
        bs.UnRead(6 * 8);
        OnBoundary(bs.bytesOffset, bs.bitsOffset, off);
        return Short;
      }
      bs.SkipBits(pesPacketLength * 8);
      OnBoundary(bs.bytesOffset, bs.bitsOffset, off + 6 + pesPacketLength);
      return Fine;
    }
  }
}
