/** The PES packet of gb28181/mpegps/pes_proto.go (MPEG-2 form). */
module PesPackets {
  import opened Bytes
  import opened BitReader
  import opened BitWriter
  import opened Timestamp
  import opened PsFormat
  import opened PackHeaders

  class PesPacket {
    var streamId: nat
    var pesPacketLength: nat
    var pesScramblingControl: nat
    var pesPriority: nat
    var dataAlignmentIndicator: nat
    var copyright: nat
    var originalOrCopy: nat
    var ptsDtsFlags: nat
    var escrFlag: nat
    var esRateFlag: nat
    var dsmTrickModeFlag: nat
    var additionalCopyInfoFlag: nat
    var pesCrcFlag: nat
    var pesExtensionFlag: nat
    var pesHeaderDataLength: nat
    var pts: nat
    var dts: nat
    var escrBase: nat
    var escrExtension: nat
    var esRate: nat
    var trickModeControl: nat
    var trickValue: nat
    var additionalCopyInfo: nat
    var previousPesPacketCrc: nat
    var pesPayload: seq<byte>

    constructor ()
      ensures pts == 0 && dts == 0 && pesPayload == []
      ensures pesScramblingControl == pesPriority == dataAlignmentIndicator == copyright == originalOrCopy == 0
      ensures escrFlag == esRateFlag == dsmTrickModeFlag == 0
      ensures additionalCopyInfoFlag == pesCrcFlag == pesExtensionFlag == 0
    {
      streamId, pesPacketLength, pesScramblingControl, pesPriority, dataAlignmentIndicator := 0, 0, 0, 0, 0;
      copyright, originalOrCopy, ptsDtsFlags, escrFlag, esRateFlag, dsmTrickModeFlag := 0, 0, 0, 0, 0, 0;
      additionalCopyInfoFlag, pesCrcFlag, pesExtensionFlag, pesHeaderDataLength := 0, 0, 0, 0;
      pts, dts, escrBase, escrExtension, esRate, trickModeControl := 0, 0, 0, 0, 0, 0;
      trickValue, additionalCopyInfo, previousPesPacketCrc, pesPayload := 0, 0, 0, [];
    }

    /** A packet without a time stamp keeps the one of the packet decoded before it; without a decoding time
        stamp the presentation time stamp counts. An attempt that needs more bytes may already have taken
        over the time stamps. */
    method Decode(bs: BitStream) returns (err: Status)
      requires bs.Aligned() && ParsePes(bs.bits[bs.bytesOffset..]) != Crash
      modifies this, bs
      ensures var d := bs.bits[old(bs.bytesOffset)..];
        match ParsePes(d)
        case NeedMore(k) => err == Short && bs.Aligned() && bs.bytesOffset == old(bs.bytesOffset) + k
                            && pts == Later(PesTouch(d), old(pts))
        case Done(n, v) => err == Fine && bs.Aligned() && bs.bytesOffset == old(bs.bytesOffset) + n
                           && streamId == v.id && pesPayload == v.payload
                           && pts == Later(v.pts, old(pts)) && dts == Later(v.dts, pts)
                           && HeaderIs(d)
                           && OptionsAre(bs.bits, 8 * (old(bs.bytesOffset) + 9 + StampBytes(ptsDtsFlags)))
        case _ => false
    {
      hide BitsVal, Pow2, StampAt, OptionalBits, PesPts, PesDts, StartIs, FlagsAre, OptionsAre, ParsePes, PesTouch, U16;
      ghost var off := bs.bytesOffset;
      ghost var d := bs.bits[off..];
      ParsePesStep(d);
      var remain := bs.RemainBytes();
      if remain < 9 {
        return Short;
      }
      DecodeHeader(bs);
      remain := bs.RemainBytes();
      if remain < pesHeaderDataLength {
        bs.UnRead(9 * 8);
        OnBoundary(bs.bytesOffset, bs.bitsOffset, off);
        return Short;
      }
      err := DecodeBody(bs, d);
    }

    /** The optional fields and the payload behind the nine bytes. */
    method DecodeBody(bs: BitStream, ghost d: seq<byte>) returns (err: Status)
      requires bs.Aligned() && bs.bytesOffset >= 9 && d == bs.bits[bs.bytesOffset - 9..]
      requires HeaderIs(d) && |d| - 9 >= pesHeaderDataLength && ParsePes(d) != Crash
      modifies this`pts, this`dts, this`escrBase, this`escrExtension, this`esRate, this`trickModeControl,
               this`trickValue, this`additionalCopyInfo, this`previousPesPacketCrc, this`pesPayload, bs
      ensures match ParsePes(d)
        case NeedMore(k) => err == Short && bs.Aligned() && bs.bytesOffset == old(bs.bytesOffset) - 9 + k
                            && pts == Later(PesTouch(d), old(pts))
        case Done(n, v) => err == Fine && bs.Aligned() && bs.bytesOffset == old(bs.bytesOffset) - 9 + n
                           && streamId == v.id && pesPayload == v.payload
                           && pts == Later(v.pts, old(pts)) && dts == Later(v.dts, pts)
                           && OptionsAre(bs.bits, 8 * (old(bs.bytesOffset) + StampBytes(ptsDtsFlags)))
        case _ => false
    {
      hide BitsVal, Pow2, StampAt, OptionalBits, PesPts, PesDts, StartIs, FlagsAre, OptionsAre, ParsePes, PesTouch, U16;
      ParsePesStep(d);
      DecodeFields(bs, d);
      assert d[9 + pesHeaderDataLength..] == bs.bits[bs.bytesOffset..];
      err := DecodePayload(bs);
    }

    /** The nine bytes up to the header length. */
    method DecodeHeader(bs: BitStream)
      requires bs.Aligned() && bs.bytesOffset + 9 <= |bs.bits|
      modifies this, bs
      ensures bs.Aligned() && bs.bytesOffset == old(bs.bytesOffset) + 9
      ensures HeaderIs(bs.bits[old(bs.bytesOffset)..]) && pts == old(pts)
    {
      hide BitsVal, Pow2;
      ghost var off := bs.bytesOffset;
      HeaderShift(bs.bits, off);
      DecodeStart(bs);
      DecodeFlags(bs);
      pesHeaderDataLength := bs.GetBits(8);
      OnBoundary(bs.bytesOffset, bs.bitsOffset, off + 9);
    }

    method DecodeStart(bs: BitStream)
      requires bs.Aligned() && bs.bytesOffset + 7 <= |bs.bits|
      modifies this`streamId, this`pesPacketLength, this`pesScramblingControl, this`pesPriority,
               this`dataAlignmentIndicator, this`copyright, this`originalOrCopy, bs
      ensures bs.Aligned() && bs.bytesOffset == old(bs.bytesOffset) + 7
      ensures streamId == BitsVal(bs.bits, old(bs.Pos()) + 24, 8)
      ensures pesPacketLength == BitsVal(bs.bits, old(bs.Pos()) + 32, 16)
      ensures StartIs(bs.bits, old(bs.Pos()))
    {
      hide BitsVal, Pow2, StartIs;
      ghost var off := bs.bytesOffset;
      bs.SkipBits(24); // packet_start_code_prefix
      streamId := bs.GetBits(8);
      pesPacketLength := bs.GetBits(16);
      OnBoundary(bs.bytesOffset, bs.bitsOffset, off + 6);
      DecodeMarks(bs);
    }

    method DecodeMarks(bs: BitStream)
      requires bs.Aligned() && 6 <= bs.bytesOffset < |bs.bits|
      modifies this`pesScramblingControl, this`pesPriority, this`dataAlignmentIndicator, this`copyright,
               this`originalOrCopy, bs
      ensures bs.Aligned() && bs.bytesOffset == old(bs.bytesOffset) + 1
      ensures StartIs(bs.bits, old(bs.Pos()) - 48)
    {
      hide BitsVal, Pow2;
      ghost var off := bs.bytesOffset;
      bs.SkipBits(2); // '10'
      var scrambling := bs.GetBits(2);
      var priority := bs.GetBits(1);
      var alignment := bs.GetBits(1);
      var copy := bs.GetBits(1);
      var original := bs.GetBits(1);
      pesScramblingControl, pesPriority := scrambling, priority;
      dataAlignmentIndicator, copyright, originalOrCopy := alignment, copy, original;
      OnBoundary(bs.bytesOffset, bs.bitsOffset, off + 1);
    }

    method DecodeFlags(bs: BitStream)
      requires bs.Aligned() && bs.bytesOffset + 1 <= |bs.bits|
      modifies this`ptsDtsFlags, this`escrFlag, this`esRateFlag, this`dsmTrickModeFlag, this`additionalCopyInfoFlag,
               this`pesCrcFlag, this`pesExtensionFlag, bs
      ensures bs.Aligned() && bs.bytesOffset == old(bs.bytesOffset) + 1
      ensures FlagsAre(bs.bits, old(bs.Pos()))
    {
      hide BitsVal, Pow2;
      ghost var off := bs.bytesOffset;
      var stamps := bs.GetBits(2);
      var escr := bs.GetBits(1);
      var rate := bs.GetBits(1);
      var trick := bs.GetBits(1);
      var info := bs.GetBits(1);
      var crc := bs.GetBits(1);
      var extension := bs.GetBits(1);
      pesExtensionFlag := extension;
      ptsDtsFlags, escrFlag, esRateFlag := stamps, escr, rate;
      dsmTrickModeFlag, additionalCopyInfoFlag, pesCrcFlag := trick, info, crc;
      OnBoundary(bs.bytesOffset, bs.bitsOffset, off + 1);
    }

    ghost predicate StartIs(c: seq<byte>, q: nat)
      reads this`pesScramblingControl, this`pesPriority, this`dataAlignmentIndicator, this`copyright,
            this`originalOrCopy
      requires q + 56 <= 8 * |c|
    {
      && pesScramblingControl == BitsVal(c, q + 50, 2) && pesPriority == BitsVal(c, q + 52, 1)
      && dataAlignmentIndicator == BitsVal(c, q + 53, 1) && copyright == BitsVal(c, q + 54, 1)
      && originalOrCopy == BitsVal(c, q + 55, 1)
    }

    ghost predicate FlagsAre(c: seq<byte>, q: nat)
      reads this`ptsDtsFlags, this`escrFlag, this`esRateFlag, this`dsmTrickModeFlag, this`additionalCopyInfoFlag,
            this`pesCrcFlag, this`pesExtensionFlag
      requires q + 8 <= 8 * |c|
    {
      && ptsDtsFlags == BitsVal(c, q, 2) && escrFlag == BitsVal(c, q + 2, 1) && esRateFlag == BitsVal(c, q + 3, 1)
      && dsmTrickModeFlag == BitsVal(c, q + 4, 1) && additionalCopyInfoFlag == BitsVal(c, q + 5, 1)
      && pesCrcFlag == BitsVal(c, q + 6, 1) && pesExtensionFlag == BitsVal(c, q + 7, 1)
    }

    /** The fields are those of the header at the start of d. */
    ghost predicate HeaderIs(d: seq<byte>)
      reads this`streamId, this`pesPacketLength, this`pesScramblingControl, this`pesPriority,
            this`dataAlignmentIndicator, this`copyright, this`originalOrCopy, this`ptsDtsFlags, this`escrFlag,
            this`esRateFlag, this`dsmTrickModeFlag, this`additionalCopyInfoFlag, this`pesCrcFlag,
            this`pesExtensionFlag, this`pesHeaderDataLength
    {
      && |d| >= 9 && streamId == d[3] && pesPacketLength == U16(d, 4) && pesHeaderDataLength == d[8]
      && StartIs(d, 0) && FlagsAre(d, 56) && ptsDtsFlags < 4
    }

    /** The optional fields that are announced stand one behind the other from q on. Of the clock reference base only
        the last part is kept, behind the presentation time stamp. */
    ghost predicate OptionsAre(c: seq<byte>, q: nat)
      reads this`pts, this`escrFlag, this`escrBase, this`escrExtension, this`esRateFlag, this`esRate,
            this`dsmTrickModeFlag, this`trickModeControl, this`trickValue, this`additionalCopyInfoFlag,
            this`additionalCopyInfo, this`pesCrcFlag, this`previousPesPacketCrc
    {
      FirstOptionsAre(c, q) && LastOptionsAre(c, q + FirstBits())
    }

    ghost predicate FirstOptionsAre(c: seq<byte>, q: nat)
      reads this`pts, this`escrFlag, this`escrBase, this`escrExtension, this`esRateFlag, this`esRate,
            this`dsmTrickModeFlag, this`trickModeControl, this`trickValue
    {
      var q1 := q + if escrFlag == 1 then 48 else 0;
      var q2 := q1 + if esRateFlag == 1 then 24 else 0;
      && q + FirstBits() <= 8 * |c|
      && (escrFlag == 1 ==> EscrIs(c, q))
      && (esRateFlag == 1 ==> esRate == BitsVal(c, q1 + 1, 22))
      && (dsmTrickModeFlag == 1 ==> trickModeControl == BitsVal(c, q2, 3) && trickValue == BitsVal(c, q2 + 3, 5))
    }

    ghost predicate LastOptionsAre(c: seq<byte>, q: nat)
      reads this`additionalCopyInfoFlag, this`additionalCopyInfo, this`pesCrcFlag, this`previousPesPacketCrc
    {
      var q1 := q + if additionalCopyInfoFlag == 1 then 7 else 0;
      && q + LastBits() <= 8 * |c|
      && (additionalCopyInfoFlag == 1 ==> additionalCopyInfo == BitsVal(c, q, 7))
      && (pesCrcFlag == 1 ==> previousPesPacketCrc == BitsVal(c, q1, 16))
    }

    ghost predicate EscrIs(c: seq<byte>, q: nat)
      reads this`pts, this`escrBase, this`escrExtension
    {
      q + 48 <= 8 * |c| && escrBase == pts * 0x8000 + BitsVal(c, q + 22, 15) && escrExtension == BitsVal(c, q + 38, 9)
    }

    /** The optional fields and what else there is of the header. */
    method DecodeFields(bs: BitStream, ghost d: seq<byte>)
      requires bs.Aligned() && bs.bytesOffset >= 9 && d == bs.bits[bs.bytesOffset - 9..]
      requires HeaderIs(d) && 72 + OptionalBits(d) <= 8 * |d|
      modifies this`pts, this`dts, this`escrBase, this`escrExtension, this`esRate, this`trickModeControl,
               this`trickValue, this`additionalCopyInfo, this`previousPesPacketCrc, bs
      ensures bs.Valid() && bs.bitsOffset == 0 && bs.bytesOffset == old(bs.bytesOffset) + pesHeaderDataLength
      ensures pts == Later(PesPts(d), old(pts)) && dts == Later(PesDts(d), pts)
      ensures OptionsAre(bs.bits, 8 * (old(bs.bytesOffset) + StampBytes(ptsDtsFlags)))
    {
      hide BitsVal, Pow2, StampAt, OptionalBits, PesPts, PesDts, OptionsBits, OptionsAre;
      bs.Markdot();
      ghost var start := bs.bytesOffset;
      OptionalIs(d);
      DecodeStamps(bs, d);
      DecodeOptional(bs);
      SkipHeader(bs, start);
    }

    lemma OptionalIs(d: seq<byte>)
      requires HeaderIs(d)
      ensures OptionalBits(d) == 8 * StampBytes(ptsDtsFlags) + OptionsBits()
    {
      hide BitsVal, Pow2;
    }

    method DecodeStamps(bs: BitStream, ghost d: seq<byte>)
      requires bs.Aligned() && bs.bytesOffset >= 9 && d == bs.bits[bs.bytesOffset - 9..]
      requires HeaderIs(d) && 72 + OptionalBits(d) <= 8 * |d|
      modifies this`pts, this`dts, bs
      ensures bs.Aligned() && bs.Mark() == old(bs.Mark())
      ensures bs.bytesOffset == old(bs.bytesOffset) + StampBytes(ptsDtsFlags)
      ensures pts == Later(PesPts(d), old(pts)) && dts == Later(PesDts(d), pts)
    {
      hide BitsVal, Pow2, StampAt;
      ghost var off := bs.bytesOffset - 9;
      if ptsDtsFlags / 2 == 1 {
        bs.SkipBits(4);
        pts := GetStamp(bs);
        OnBoundary(bs.bytesOffset, bs.bitsOffset, off + 14);
        StampShift(bs.bits, off, 76);
      }
      if ptsDtsFlags == 3 {
        bs.SkipBits(4);
        dts := GetStamp(bs);
        OnBoundary(bs.bytesOffset, bs.bitsOffset, off + 19);
        StampShift(bs.bits, off, 116);
      } else {
        dts := pts;
      }
    }

    /** The other optional fields. */
    method DecodeOptional(bs: BitStream)
      requires bs.Aligned() && bs.Pos() + OptionsBits() <= 8 * |bs.bits|
      modifies this`escrBase, this`escrExtension, this`esRate, this`trickModeControl, this`trickValue,
               this`additionalCopyInfo, this`previousPesPacketCrc, bs
      ensures bs.Valid() && bs.Mark() == old(bs.Mark()) && bs.Pos() == old(bs.Pos()) + OptionsBits()
      ensures OptionsAre(bs.bits, old(bs.Pos()))
    {
      hide BitsVal, Pow2, FirstOptionsAre, LastOptionsAre, FirstBits, LastBits;
      DecodeFirst(bs);
      DecodeLast(bs);
    }

    method DecodeFirst(bs: BitStream)
      requires bs.Valid() && bs.Pos() + FirstBits() <= 8 * |bs.bits|
      modifies this`escrBase, this`escrExtension, this`esRate, this`trickModeControl, this`trickValue, bs
      ensures bs.Valid() && bs.Mark() == old(bs.Mark()) && bs.Pos() == old(bs.Pos()) + FirstBits()
      ensures FirstOptionsAre(bs.bits, old(bs.Pos()))
    {
      hide BitsVal, Pow2, EscrIs;
      if escrFlag == 1 {
        DecodeEscr(bs);
      }
      if esRateFlag == 1 {
        DecodeRate(bs);
      }
      if dsmTrickModeFlag == 1 {
        DecodeTrick(bs);
      }
    }

    method DecodeLast(bs: BitStream)
      requires bs.Valid() && bs.Pos() + LastBits() <= 8 * |bs.bits|
      modifies this`additionalCopyInfo, this`previousPesPacketCrc, bs
      ensures bs.Valid() && bs.Mark() == old(bs.Mark()) && bs.Pos() == old(bs.Pos()) + LastBits()
      ensures LastOptionsAre(bs.bits, old(bs.Pos()))
    {
      hide BitsVal, Pow2;
      if additionalCopyInfoFlag == 1 {
        additionalCopyInfo := bs.GetBits(7);
      }
      if pesCrcFlag == 1 {
        previousPesPacketCrc := bs.GetBits(16);
      }
    }

    method DecodeEscr(bs: BitStream)
      requires bs.Valid() && bs.Pos() + 48 <= 8 * |bs.bits|
      modifies this`escrBase, this`escrExtension, bs
      ensures bs.Valid() && bs.Mark() == old(bs.Mark()) && bs.Pos() == old(bs.Pos()) + 48
      ensures EscrIs(bs.bits, old(bs.Pos()))
    {
      hide BitsVal, Pow2;
      bs.SkipBits(2);
      escrBase := bs.GetBits(3);
      bs.SkipBits(1);
      var low := bs.GetBits(15);
      escrBase := pts * 0x8000 + low;
      bs.SkipBits(1);
      low := bs.GetBits(15);
      escrBase := pts * 0x8000 + low;
      bs.SkipBits(1);
      escrExtension := bs.GetBits(9);
      bs.SkipBits(1);
    }

    method DecodeRate(bs: BitStream)
      requires bs.Valid() && bs.Pos() + 24 <= 8 * |bs.bits|
      modifies this`esRate, bs
      ensures bs.Valid() && bs.Mark() == old(bs.Mark()) && bs.Pos() == old(bs.Pos()) + 24
      ensures esRate == BitsVal(bs.bits, old(bs.Pos()) + 1, 22)
    {
      hide BitsVal, Pow2;
      bs.SkipBits(1);
      esRate := bs.GetBits(22);
      bs.SkipBits(1);
    }

    method DecodeTrick(bs: BitStream)
      requires bs.Valid() && bs.Pos() + 8 <= 8 * |bs.bits|
      modifies this`trickModeControl, this`trickValue, bs
      ensures bs.Valid() && bs.Mark() == old(bs.Mark()) && bs.Pos() == old(bs.Pos()) + 8
      ensures trickModeControl == BitsVal(bs.bits, old(bs.Pos()), 3)
      ensures trickValue == BitsVal(bs.bits, old(bs.Pos()) + 3, 5)
    {
      hide BitsVal, Pow2;
      trickModeControl := bs.GetBits(3);
      trickValue := bs.GetBits(5);
    }

    /** Goes to the end of the header as its length field gives it, forward or back: a step back over
        the boundary of a byte cannot happen, because it ends on one. */
    method SkipHeader(bs: BitStream, ghost start: nat)
      requires bs.Valid() && bs.Mark() == 8 * start && bs.Pos() >= 8 * start
      modifies bs
      ensures bs.Valid() && bs.bitsOffset == 0 && bs.bytesOffset == start + pesHeaderDataLength
    {
      var loc := bs.DistanceFromMarkDot();
      SkipToBoundary(bs.bitsOffset, bs.bytesOffset - start, pesHeaderDataLength);
      bs.SkipBits(pesHeaderDataLength * 8 - loc); // skip remaining header
      OnBoundary(bs.bytesOffset, bs.bitsOffset, start + pesHeaderDataLength);
    }

    ghost function FirstBits(): nat
      reads this`escrFlag, this`esRateFlag, this`dsmTrickModeFlag
    {
      (if escrFlag == 1 then 48 else 0) + (if esRateFlag == 1 then 24 else 0) + (if dsmTrickModeFlag == 1 then 8 else 0)
    }

    ghost function LastBits(): nat
      reads this`additionalCopyInfoFlag, this`pesCrcFlag
    {
      (if additionalCopyInfoFlag == 1 then 7 else 0) + (if pesCrcFlag == 1 then 16 else 0)
    }

    ghost function OptionsBits(): nat
      reads this`escrFlag, this`esRateFlag, this`dsmTrickModeFlag, this`additionalCopyInfoFlag, this`pesCrcFlag
    {
      FirstBits() + LastBits()
    }

    method DecodePayload(bs: BitStream) returns (err: Status)
      requires bs.Aligned() && bs.bytesOffset >= 9 + pesHeaderDataLength
      modifies this`pesPayload, bs
      ensures bs.Aligned()
      ensures var d := bs.bits[old(bs.bytesOffset)..];
        var n := (pesPacketLength - 3 - pesHeaderDataLength) % 0x1_0000;
        if |d| < n then err == Short && bs.bytesOffset == old(bs.bytesOffset) - 9 - pesHeaderDataLength
        else
          var end := if pesPacketLength == 0 then |d| else n;
          err == Fine && bs.bytesOffset == old(bs.bytesOffset) + end && pesPayload == d[..end]
    {
      ghost var off := bs.bytesOffset;
      var dataLen := (pesPacketLength - 3 - pesHeaderDataLength) % 0x1_0000;
      var remain := bs.RemainBytes();
      if remain < dataLen {
        pesPayload := bs.RemainData();
        bs.UnRead((9 + pesHeaderDataLength) * 8);
        OnBoundary(bs.bytesOffset, bs.bitsOffset, off - 9 - pesHeaderDataLength);
        return Short;
      }
      var rest := bs.RemainData();
      if pesPacketLength == 0 || remain <= dataLen {
        pesPayload := rest;
        var bitsLeft := bs.RemainBits();
        bs.SkipBits(bitsLeft);
        OnBoundary(bs.bytesOffset, bs.bitsOffset, |bs.bits|);
      } else {
        pesPayload := rest[..dataLen];
        bs.SkipBits(dataLen * 8);
        OnBoundary(bs.bytesOffset, bs.bitsOffset, off + dataLen);
      }
      return Fine;
    }

    ghost function Head(): PesHead
      reads this
    {
      PesHead(streamId, pesPacketLength, pesScramblingControl, pesPriority, dataAlignmentIndicator, copyright,
              originalOrCopy,
              ptsDtsFlags, esRateFlag, dsmTrickModeFlag, additionalCopyInfoFlag, pesCrcFlag, pesExtensionFlag,
              pesHeaderDataLength, pts, dts, pesPayload)
    }

    /** Demands an aligned writer, byte-sized fields where bytes are written, and no clock reference field,
        behind which the payload would not start on a byte boundary (the writer panics). */
    method Encode(bsw: BitStreamWriter)
      requires bsw.Valid() && bsw.bitsoffset == 0 && streamId < 256 && pesHeaderDataLength < 256 && escrFlag == 0
      modifies bsw
      ensures bsw.Valid() && bsw.bitsoffset == 0
      ensures bsw.byteoffset == old(bsw.byteoffset) + 9 + EncodedStamps(ptsDtsFlags) + |pesPayload|
      ensures PesLaid(bsw.bits, old(bsw.byteoffset), Head())
      ensures Keeps(old(bsw.bits), bsw.bits, old(bsw.Pos()))
    {
      hide BitsVal, Pow2, StartLaid, MiddleLaid, StampsLaid, Same;
      ghost var b, p, h, from := bsw.byteoffset, bsw.Pos(), Head(), bsw.bits;
      EncodeStart(bsw);
      ghost var c1 := bsw.bits;
      EncodeMiddle(bsw);
      KeepsTrans(from, c1, bsw.bits, p, p + 56);
      StartKept(c1, bsw.bits, p, h, p + 56);
      ghost var c2 := bsw.bits;
      EncodeStamps(bsw);
      KeepsTrans(from, c2, bsw.bits, p, p + 72);
      StartKept(c2, bsw.bits, p, h, p + 72);
      MiddleKept(c2, bsw.bits, p + 56, h, p + 72);
      ghost var c3 := bsw.bits;
      var end := 9 + EncodedStamps(ptsDtsFlags);
      OnBoundary(bsw.byteoffset, bsw.bitsoffset, b + end);
      bsw.PutBytes(pesPayload);
      KeepsTrans(from, c3, bsw.bits, p, p + 8 * end);
      StartKept(c3, bsw.bits, p, h, p + 8 * end);
      MiddleKept(c3, bsw.bits, p + 56, h, p + 8 * end);
      StampsKept(c3, bsw.bits, p + 72, h, p + 8 * end);
    }

    method EncodeStart(bsw: BitStreamWriter)
      requires bsw.Valid() && bsw.bitsoffset == 0 && streamId < 256
      modifies bsw
      ensures bsw.Valid() && bsw.bitsoffset == 0 && bsw.Pos() == old(bsw.Pos()) + 56
      ensures StartLaid(bsw.bits, old(bsw.Pos()), Head())
      ensures Keeps(old(bsw.bits), bsw.bits, old(bsw.Pos()))
    {
      hide BitsVal, Pow2;
      ghost var b := bsw.byteoffset;
      bsw.PutBytes([0x00, 0x00, 0x01]);
      PrefixLaid(bsw.bits, b);
      bsw.PutByte(streamId);
      bsw.PutUint64(pesPacketLength, 16);
      bsw.PutUint64(0x02, 2);
      bsw.PutUint64(pesScramblingControl, 2);
      bsw.PutUint64(pesPriority, 1);
      bsw.PutUint64(dataAlignmentIndicator, 1);
      bsw.PutUint64(copyright, 1);
      bsw.PutUint64(originalOrCopy, 1);
      OnBoundary(bsw.byteoffset, bsw.bitsoffset, b + 7);
    }

    method EncodeMiddle(bsw: BitStreamWriter)
      requires bsw.Valid() && bsw.bitsoffset == 0 && pesHeaderDataLength < 256 && escrFlag == 0
      modifies bsw
      ensures bsw.Valid() && bsw.bitsoffset == 0 && bsw.Pos() == old(bsw.Pos()) + 16
      ensures MiddleLaid(bsw.bits, old(bsw.Pos()), Head())
      ensures Keeps(old(bsw.bits), bsw.bits, old(bsw.Pos()))
    {
      hide BitsVal, Pow2;
      ghost var b := bsw.byteoffset;
      bsw.PutUint64(ptsDtsFlags, 2);
      bsw.PutUint64(escrFlag, 1);
      bsw.PutUint64(esRateFlag, 1);
      bsw.PutUint64(dsmTrickModeFlag, 1);
      bsw.PutUint64(additionalCopyInfoFlag, 1);
      bsw.PutUint64(pesCrcFlag, 1);
      bsw.PutUint64(pesExtensionFlag, 1);
      OnBoundary(bsw.byteoffset, bsw.bitsoffset, b + 1);
      bsw.PutByte(pesHeaderDataLength);
    }

    method EncodeStamps(bsw: BitStreamWriter)
      requires bsw.Valid()
      modifies bsw
      ensures bsw.Valid() && bsw.Pos() == old(bsw.Pos()) + 8 * EncodedStamps(ptsDtsFlags)
      ensures StampsLaid(bsw.bits, old(bsw.Pos()), Head())
      ensures Keeps(old(bsw.bits), bsw.bits, old(bsw.Pos()))
    {
      hide BitsVal, Pow2, StampLaid, Same, MarkedStamp;
      ghost var p, from := bsw.Pos(), bsw.bits;
      KeepsPrefix(from, from, p);
      if ptsDtsFlags == 2 {
        PutMarkedStamp(bsw, 2, pts);
      }
      if ptsDtsFlags == 3 {
        PutMarkedStamp(bsw, 3, pts);
        ghost var c := bsw.bits;
        PutMarkedStamp(bsw, 1, dts);
        KeepsTrans(from, c, bsw.bits, p, p + 40);
        MarkedKept(c, bsw.bits, p, 3, pts, p + 40);
      }
    }

    method PutMarkedStamp(bsw: BitStreamWriter, prefix: nat, v: nat)
      requires bsw.Valid()
      modifies bsw
      ensures bsw.Valid() && bsw.Pos() == old(bsw.Pos()) + 40
      ensures MarkedStamp(bsw.bits, old(bsw.Pos()), prefix, v)
      ensures Keeps(old(bsw.bits), bsw.bits, old(bsw.Pos()))
    {
      hide BitsVal, Pow2, StampLaid;
      bsw.PutUint64(prefix, 4);
      PutStamp(bsw, v);
    }
  }

  datatype PesHead = PesHead(
    id: nat, length: nat, scrambling: nat, priority: nat, alignment: nat, copyright: nat, original: nat,
    stamps: nat, rate: nat, trick: nat, info: nat, crc: nat, extension: nat,
    headerLength: nat, pts: nat, dts: nat, payload: seq<byte>)

  /** The bytes of time stamps that Encode writes. */
  function EncodedStamps(flags: nat): nat {
    if flags == 3 then 10 else if flags == 2 then 5 else 0
  }

  /** A PES packet with these fields stands at byte b. */
  ghost predicate PesLaid(c: seq<byte>, b: nat, h: PesHead) {
    var start := b + 9 + EncodedStamps(h.stamps);
    && start + |h.payload| <= |c|
    && StartLaid(c, 8 * b, h) && MiddleLaid(c, 8 * b + 56, h) && StampsLaid(c, 8 * b + 72, h)
    && c[start..start + |h.payload|] == h.payload
  }

  ghost predicate StartLaid(c: seq<byte>, p: nat, h: PesHead) {
    && p + 56 <= 8 * |c|
    && BitsVal(c, p, 24) == 1
    && BitsVal(c, p + 24, 8) == h.id
    && BitsVal(c, p + 32, 16) == h.length % Pow2(16)
    && BitsVal(c, p + 48, 2) == 2 % Pow2(2)
    && BitsVal(c, p + 50, 2) == h.scrambling % Pow2(2)
    && BitsVal(c, p + 52, 1) == h.priority % Pow2(1)
    && BitsVal(c, p + 53, 1) == h.alignment % Pow2(1)
    && BitsVal(c, p + 54, 1) == h.copyright % Pow2(1)
    && BitsVal(c, p + 55, 1) == h.original % Pow2(1)
  }

  ghost predicate MiddleLaid(c: seq<byte>, q: nat, h: PesHead) {
    && q + 16 <= 8 * |c|
    && BitsVal(c, q, 2) == h.stamps % Pow2(2)
    && BitsVal(c, q + 2, 1) == 0 % Pow2(1)
    && BitsVal(c, q + 3, 1) == h.rate % Pow2(1)
    && BitsVal(c, q + 4, 1) == h.trick % Pow2(1)
    && BitsVal(c, q + 5, 1) == h.info % Pow2(1)
    && BitsVal(c, q + 6, 1) == h.crc % Pow2(1)
    && BitsVal(c, q + 7, 1) == h.extension % Pow2(1)
    && BitsVal(c, q + 8, 8) == h.headerLength
  }

  ghost predicate StampsLaid(c: seq<byte>, q: nat, h: PesHead) {
    && q + 8 * EncodedStamps(h.stamps) <= 8 * |c|
    && (h.stamps == 2 ==> MarkedStamp(c, q, 2, h.pts))
    && (h.stamps == 3 ==> MarkedStamp(c, q, 3, h.pts) && MarkedStamp(c, q + 40, 1, h.dts))
  }

  /** A time stamp behind the four bits that say which one it is. */
  ghost predicate MarkedStamp(c: seq<byte>, q: nat, prefix: nat, v: nat) {
    q + 40 <= 8 * |c| && BitsVal(c, q, 4) == prefix % Pow2(4) && StampLaid(c, q + 4, v)
  }

  lemma MarkedKept(c0: seq<byte>, c1: seq<byte>, q: nat, prefix: nat, v: nat, b: nat)
    requires MarkedStamp(c0, q, prefix, v) && Keeps(c0, c1, b) && q + 40 <= b
    ensures MarkedStamp(c1, q, prefix, v)
  {
    hide BitsVal, Pow2;
  }

  lemma StartKept(c0: seq<byte>, c1: seq<byte>, p: nat, h: PesHead, b: nat)
    requires StartLaid(c0, p, h) && Keeps(c0, c1, b) && p + 56 <= b
    ensures StartLaid(c1, p, h)
  {
    hide BitsVal, Pow2;
  }

  lemma MiddleKept(c0: seq<byte>, c1: seq<byte>, q: nat, h: PesHead, b: nat)
    requires MiddleLaid(c0, q, h) && Keeps(c0, c1, b) && q + 16 <= b
    ensures MiddleLaid(c1, q, h)
  {
    hide BitsVal, Pow2;
  }

  lemma StampsKept(c0: seq<byte>, c1: seq<byte>, q: nat, h: PesHead, b: nat)
    requires StampsLaid(c0, q, h) && Keeps(c0, c1, b) && q + 8 * EncodedStamps(h.stamps) <= b
    ensures StampsLaid(c1, q, h)
  {
    hide BitsVal, Pow2;
  }

  lemma PrefixLaid(c: seq<byte>, o: nat)
    requires o + 3 <= |c| && c[o..o + 3] == [0x00, 0x00, 0x01]
    ensures BitsVal(c, 8 * o, 24) == 1
  {
    hide BitsVal, Pow2;
    BitsConcat(c, 8 * o, 16, 8);
    Word(c, o);
    BitsByte(c, o + 2);
    assert c[o..o + 3][0] == 0 && c[o..o + 3][1] == 0 && c[o..o + 3][2] == 1;
  }

  lemma SkipToBoundary(k: nat, b: nat, h: nat)
    requires k < 8
    ensures SkipLands(k, h * 8 - (8 * b + k))
  {
    var n := h * 8 - (8 * b + k);
    if n < 0 {
      assert -n == 8 * (b - h) + k;
    }
  }

  function StampBytes(flags: nat): nat {
    if flags == 3 then 10 else if flags / 2 == 1 then 5 else 0
  }

  lemma HeaderShift(c: seq<byte>, off: nat)
    requires off + 9 <= |c|
    ensures var d := c[off..];
      && BitsVal(c, 8 * off + 24, 8) == d[3] && BitsVal(c, 8 * off + 32, 16) == U16(d, 4)
      && BitsVal(c, 8 * off + 64, 8) == d[8]
      && BitsVal(c, 8 * off + 56, 2) == BitsVal(d, 56, 2) < 4
      && BitsVal(c, 8 * off + 58, 1) == BitsVal(d, 58, 1) && BitsVal(c, 8 * off + 59, 1) == BitsVal(d, 59, 1)
      && BitsVal(c, 8 * off + 60, 1) == BitsVal(d, 60, 1) && BitsVal(c, 8 * off + 61, 1) == BitsVal(d, 61, 1)
      && BitsVal(c, 8 * off + 62, 1) == BitsVal(d, 62, 1) && BitsVal(c, 8 * off + 63, 1) == BitsVal(d, 63, 1)
      && BitsVal(c, 8 * off + 50, 2) == BitsVal(d, 50, 2) && BitsVal(c, 8 * off + 52, 1) == BitsVal(d, 52, 1)
      && BitsVal(c, 8 * off + 53, 1) == BitsVal(d, 53, 1) && BitsVal(c, 8 * off + 54, 1) == BitsVal(d, 54, 1)
      && BitsVal(c, 8 * off + 55, 1) == BitsVal(d, 55, 1)
  {
    hide BitsVal, Pow2;
    var d := c[off..];
    BitsShift(c, off);
    BitsByte(d, 3);
    BitsByte(d, 8);
    Word(d, 4);
    assert BitsVal(d, 24, 8) == BitsVal(c, 8 * off + 24, 8) && BitsVal(d, 64, 8) == BitsVal(c, 8 * off + 64, 8);
    assert BitsVal(d, 32, 16) == BitsVal(c, 8 * off + 32, 16);
    assert Pow2(2) == 4 by { Pow2Values(); }
  }

  /** The two length fields are those of the stamps and the payload that are written. */
  predicate Consistent(h: PesHead) {
    && (h.stamps == 2 || h.stamps == 3)
    && h.rate % Pow2(1) == 0 && h.trick % Pow2(1) == 0 && h.info % Pow2(1) == 0 && h.crc % Pow2(1) == 0
    && h.headerLength == EncodedStamps(h.stamps)
    && h.length == 3 + h.headerLength + |h.payload| < 0x1_0000
  }

  /** The flags in the bytes d are those of h, each cut to its width. */
  ghost predicate FlagsRead(d: seq<byte>, h: PesHead)
    requires |d| >= 9
  {
    && BitsVal(d, 50, 2) == h.scrambling % Pow2(2) && BitsVal(d, 52, 1) == h.priority % Pow2(1)
    && BitsVal(d, 53, 1) == h.alignment % Pow2(1) && BitsVal(d, 54, 1) == h.copyright % Pow2(1)
    && BitsVal(d, 55, 1) == h.original % Pow2(1) && BitsVal(d, 63, 1) == h.extension % Pow2(1)
  }

  /** Decoding an encoded packet gives stream id, time stamps and payload back and stops right behind the payload;
      the flags come back too. */
  lemma PesRoundTrip(c: seq<byte>, off: nat, h: PesHead)
    requires PesLaid(c, off, h) && Consistent(h)
    ensures |c[off..]| >= 9 && U32(c[off..], 0) == 0x100 + h.id
    ensures c[off..][8] == h.headerLength && U16(c[off..], 4) == h.length
    ensures OptionalBits(c[off..]) == 8 * h.headerLength
    ensures ParsePes(c[off..])
         == Done(9 + h.headerLength + |h.payload|,
                 Pes(h.id, Stamp(h.pts % Pow2(33)), if h.stamps == 3 then Stamp(h.dts % Pow2(33)) else NoStamp,
                     h.payload))
    ensures FlagsRead(c[off..], h)
  {
    hide BitsVal, Pow2, StampAt, StampLaid, StampsLaid, MiddleLaid, PesPts, PesDts, OptionalBits, ParsePes, U16, U32,
      FlagsRead;
    var d := c[off..];
    CodeOf(c, off);
    HeaderRead(c, off, h);
    StampsRead(c, off, h);
    SmallMod(|h.payload|, 0x1_0000);
    ParsePesStep(d);
    var start := 9 + h.headerLength;
    assert d[start..][..|h.payload|] == c[off + start..off + start + |h.payload|];
  }

  lemma HeaderRead(c: seq<byte>, off: nat, h: PesHead)
    requires PesLaid(c, off, h) && Consistent(h)
    ensures var d := c[off..];
      && |d| >= 9 && d[3] == h.id && d[8] == h.headerLength && U16(d, 4) == h.length
      && OptionalBits(d) == 8 * h.headerLength && BitsVal(d, 56, 2) == h.stamps && FlagsRead(d, h)
  {
    hide BitsVal, U16;
    assert Pow2(1) == 2 && Pow2(2) == 4 && Pow2(16) == 0x1_0000 by { Pow2Values(); }
    hide Pow2, StampsLaid;
    HeaderShift(c, off);
  }

  lemma StampsRead(c: seq<byte>, off: nat, h: PesHead)
    requires PesLaid(c, off, h) && Consistent(h)
    requires var d := c[off..]; |d| >= 9 && OptionalBits(d) == 8 * h.headerLength && BitsVal(d, 56, 2) == h.stamps
    ensures var d := c[off..];
      && 72 + OptionalBits(d) <= 8 * |d| && PesPts(d) == Stamp(h.pts % Pow2(33))
      && PesDts(d) == if h.stamps == 3 then Stamp(h.dts % Pow2(33)) else NoStamp
  {
    hide BitsVal, Pow2, StampAt, StampLaid, OptionalBits;
    StampShift(c, off, 76);
    StampRoundTrip(c, 8 * off + 76, h.pts);
    if h.stamps == 3 {
      StampShift(c, off, 116);
      StampRoundTrip(c, 8 * off + 116, h.dts);
    }
  }

  lemma CodeOf(c: seq<byte>, off: nat)
    requires off + 4 <= |c|
    ensures U32(c[off..], 0) == BitsVal(c, 8 * off, 24) * 256 + BitsVal(c, 8 * off + 24, 8)
  {
    hide BitsVal, Pow2;
    var d := c[off..];
    BitsShift(c, off);
    Quad(d, 0);
    BitsConcat(d, 0, 24, 8);
    assert BitsVal(d, 0, 24) == BitsVal(c, 8 * off + 0, 24) && BitsVal(d, 24, 8) == BitsVal(c, 8 * off + 24, 8);
    assert Pow2(8) == 256 by { Pow2Values(); }
  }
}
