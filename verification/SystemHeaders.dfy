/** The system header of gb28181/mpegps/ps_proto.go. */
module SystemHeaders {
  import opened Bytes
  import opened BitReader
  import opened BitWriter
  import opened PsFormat
  import opened PackHeaders

  class SystemHeader {
    var headerLength: nat
    var rateBound: nat
    var audioBound: nat
    var fixedFlag: nat
    var cspsFlag: nat
    var systemAudioLockFlag: nat
    var systemVideoLockFlag: nat
    var videoBound: nat
    var packetRateRestrictionFlag: nat
    var streams: seq<StreamBound>

    constructor ()
      ensures Fields() == System(0, 0, 0, 0, 0, 0, 0, 0, [])
    {
      headerLength, rateBound, audioBound, fixedFlag, cspsFlag := 0, 0, 0, 0, 0;
      systemAudioLockFlag, systemVideoLockFlag, videoBound, packetRateRestrictionFlag, streams := 0, 0, 0, 0, [];
    }

    ghost function Fields(): System
      reads this
    {
      System(rateBound, audioBound, fixedFlag, cspsFlag, systemAudioLockFlag, systemVideoLockFlag,
             videoBound, packetRateRestrictionFlag, streams)
    }

    method Decode(bs: BitStream) returns (err: Status)
      requires bs.Aligned()
      modifies this, bs
      ensures var d := bs.bits[old(bs.bytesOffset)..];
        match ParseSystem(d)
        case NeedMore(k) => err == Short && bs.Aligned() && bs.bytesOffset == old(bs.bytesOffset) + k
        case Done(n, v) => err == Fine && Fields() == v && bs.Aligned() && bs.bytesOffset == old(bs.bytesOffset) + n
        case _ => err == Refused
    {
      hide BitsVal, Pow2, StreamBounds;
      ghost var off := bs.bytesOffset;
      ghost var d := bs.bits[off..];
      BitsShift(bs.bits, off);
      var remain := bs.RemainBytes();
      if remain < 12 {
        return Short;
      }
      Quad(d, 0);
      assert BitsVal(d, 0, 32) == BitsVal(bs.bits, bs.Pos(), 32);
      var code := bs.GetBits(32);
      if code != 0x1BB {
        return Refused;
      }
      Word(d, 4);
      assert BitsVal(d, 32, 16) == BitsVal(bs.bits, bs.Pos(), 16);
      headerLength := bs.GetBits(16);
      OnBoundary(bs.bytesOffset, bs.bitsOffset, off + 6);
      remain := bs.RemainBytes();
      if remain < headerLength {
        bs.UnRead(6 * 8);
        OnBoundary(bs.bytesOffset, bs.bitsOffset, off);
        return Short;
      }
      if headerLength < 6 || (headerLength - 6) % 3 != 0 {
        return Refused;
      }
      DecodeBounds(bs);
      err := DecodeStreams(bs);
    }

    /** The six bytes of fields in front of the stream list. */
    method DecodeBounds(bs: BitStream)
      requires bs.Aligned() && bs.bytesOffset >= 6 && bs.bytesOffset + 6 <= |bs.bits|
      modifies this, bs
      ensures bs.Aligned() && bs.bytesOffset == old(bs.bytesOffset) + 6 && headerLength == old(headerLength)
      ensures SystemAt(bs.bits[old(bs.bytesOffset) - 6..], streams) == Fields()
    {
      hide BitsVal, Pow2;
      ghost var off := bs.bytesOffset - 6;
      ghost var q := 8 * off;
      bs.SkipBits(1);
      rateBound := bs.GetBits(22);
      bs.SkipBits(1);
      audioBound := bs.GetBits(6);
      DecodeFlags(bs);
      OnBoundary(bs.bytesOffset, bs.bitsOffset, off + 12);
      BitsShift(bs.bits, off);
    }

    method DecodeFlags(bs: BitStream)
      requires bs.Valid() && bs.Pos() + 18 <= 8 * |bs.bits|
      modifies this, bs
      ensures bs.Valid() && bs.Pos() == old(bs.Pos()) + 18 && headerLength == old(headerLength)
      ensures var c, q := bs.bits, old(bs.Pos());
        Fields() == System(old(rateBound), old(audioBound), BitsVal(c, q, 1), BitsVal(c, q + 1, 1), BitsVal(c, q + 2,
                           1),
                           BitsVal(c, q + 3, 1), BitsVal(c, q + 5, 5), BitsVal(c, q + 10, 1), old(streams))
    {
      hide BitsVal, Pow2;
      var fixedRate := bs.GetBits(1);
      var csps := bs.GetBits(1);
      var audioLock := bs.GetBits(1);
      var videoLock := bs.GetBits(1);
      bs.SkipBits(1);
      var video := bs.GetBits(5);
      var restriction := bs.GetBits(1);
      bs.SkipBits(7);
      fixedFlag, cspsFlag, systemAudioLockFlag, systemVideoLockFlag := fixedRate, csps, audioLock, videoLock;
      videoBound, packetRateRestrictionFlag := video, restriction;
    }

    /** The list of stream bounds: three bytes each, while the first bit is one. */
    method DecodeStreams(bs: BitStream) returns (err: Status)
      requires bs.Aligned() && headerLength >= 6 && (headerLength - 6) % 3 == 0
      requires bs.bytesOffset >= 12 && bs.bytesOffset + (headerLength - 6) <= |bs.bits|
      modifies this`streams, bs
      ensures var d := bs.bits[old(bs.bytesOffset) - 12..];
        match StreamBounds(d, 12, headerLength - 6)
        case Done(n, v) => err == Fine && streams == v && bs.Aligned() && bs.bytesOffset == old(bs.bytesOffset) - 12 + n
        case _ => err == Refused
    {
      hide BitsVal, Pow2;
      ghost var off := bs.bytesOffset - 12;
      ghost var d := bs.bits[off..];
      streams := [];
      var least: nat := headerLength - 6;
      ghost var whole := StreamBounds(d, 12, least);
      ghost var o: nat := 12;
      ResumesStart(whole);
      while least > 0
        invariant least % 3 == 0 && o + least == 6 + headerLength && o >= 12
        invariant bs.Aligned() && bs.bytesOffset == off + o
        invariant Resumes(whole, streams, StreamBounds(d, o, least))
        decreases least
      {
        BitsShift(bs.bits, off);
        assert BitsVal(d, 8 * o, 1) == BitsVal(bs.bits, bs.Pos(), 1);
        var b := bs.NextBits(1);
        if b != 1 {
          break;
        }
        var e := DecodeStream(bs, off, o);
        ResumesStep(whole, streams, e, StreamBounds(d, o, least), StreamBounds(d, o + 3, least - 3));
        streams := streams + [e];
        least := least - 3;
        o := o + 3;
      }
      if least > 0 {
        return Refused;
      }
      return Fine;
    }

    method DecodeStream(bs: BitStream, ghost off: nat, ghost o: nat) returns (e: StreamBound)
      requires bs.Aligned() && bs.bytesOffset == off + o && bs.bytesOffset + 3 <= |bs.bits|
      modifies bs
      ensures bs.Aligned() && bs.bytesOffset == old(bs.bytesOffset) + 3
      ensures e == StreamBoundAt(bs.bits[off..], o)
    {
      hide BitsVal, Pow2, StreamBoundAt;
      BoundShift(bs.bits, off, o);
      var id := bs.GetBits(8);
      bs.SkipBits(2);
      var scale := bs.GetBit();
      var bound := bs.GetBits(13);
      OnBoundary(bs.bytesOffset, bs.bitsOffset, off + o + 3);
      e := StreamBound(id, scale, bound);
    }

    /** The length field is left open, and filled in when the length is known. */
    method Encode(bsw: BitStreamWriter)
      requires bsw.Valid() && bsw.bitsoffset == 0
      modifies bsw
      ensures bsw.Valid() && bsw.bitsoffset == 0 && bsw.byteoffset == old(bsw.byteoffset) + 12 + 3 * |streams|
      ensures SystemLaid(bsw.bits, old(bsw.Pos()), Fields())
      ensures Keeps(old(bsw.bits), bsw.bits, old(bsw.Pos()))
    {
      hide BitsVal, Pow2, BodyLaid;
      ghost var p, b, h := bsw.Pos(), bsw.byteoffset, Fields();
      bsw.PutBytes([0x00, 0x00, 0x01, 0xBB]);
      CodeLaid(bsw.bits, b, 0xBB);
      var loc := bsw.byteoffset;
      bsw.PutUint64(0, 16);
      OnBoundary(bsw.byteoffset, bsw.bitsoffset, b + 6);
      bsw.Markdot();
      EncodeBody(bsw);
      var distance := bsw.DistanceFromMarkDot();
      OnBoundary(bsw.byteoffset, bsw.bitsoffset, b + 12 + 3 * |streams|);
      var length := distance / 8;
      ghost var c := bsw.bits;
      assert BitsVal(c, p, 32) == 0x1BB;
      bsw.SetUint16(length % 0x1_0000, loc);
      Patched(c, bsw.bits, loc, length % 0x1_0000);
      BodyKept(c, bsw.bits, p + 48, h, p + 48, 8 * |c|);
    }

    /** Everything behind the length field. */
    method EncodeBody(bsw: BitStreamWriter)
      requires bsw.Valid() && bsw.bitsoffset == 0
      modifies bsw
      ensures bsw.Valid() && bsw.Mark() == old(bsw.Mark()) && bsw.Pos() == old(bsw.Pos()) + 48 + 24 * |streams|
      ensures BodyLaid(bsw.bits, old(bsw.Pos()), Fields())
      ensures Keeps(old(bsw.bits), bsw.bits, old(bsw.Pos()))
    {
      hide BitsVal, Pow2, BoundsLaid, BoundLaid, Same;
      ghost var q, h, from := bsw.Pos(), Fields(), bsw.bits;
      EncodeBounds(bsw);
      for i := 0 to |streams|
        invariant bsw.Valid() && bsw.Mark() == old(bsw.Mark()) && bsw.Pos() == q + 48 + 24 * i
        invariant Keeps(from, bsw.bits, q)
        invariant BoundsLaid(bsw.bits, q, h)
        invariant forall k :: 0 <= k < i ==> BoundLaid(bsw.bits, q + 48 + 24 * k, streams[k])
      {
        ghost var c := bsw.bits;
        EncodeStream(bsw, streams[i]);
        KeepsTrans(from, c, bsw.bits, q, q + 48 + 24 * i);
        BoundsKept(c, bsw.bits, q, h, 0, q + 48 + 24 * i);
        forall k | 0 <= k < i
          ensures BoundLaid(bsw.bits, q + 48 + 24 * k, streams[k])
        {
          BoundKept(c, bsw.bits, q + 48 + 24 * k, streams[k], 0, q + 48 + 24 * i);
        }
      }
    }

    method EncodeBounds(bsw: BitStreamWriter)
      requires bsw.Valid()
      modifies bsw
      ensures bsw.Valid() && bsw.Mark() == old(bsw.Mark()) && bsw.Pos() == old(bsw.Pos()) + 48
      ensures BoundsLaid(bsw.bits, old(bsw.Pos()), Fields())
      ensures Keeps(old(bsw.bits), bsw.bits, old(bsw.Pos()))
    {
      hide BitsVal, Pow2, RatesLaid, FlagsLaid, Same;
      ghost var q, h, from := bsw.Pos(), Fields(), bsw.bits;
      EncodeRates(bsw);
      ghost var c := bsw.bits;
      EncodeFlags(bsw);
      KeepsTrans(from, c, bsw.bits, q, q + 30);
      RatesKept(c, bsw.bits, q, h, 0, q + 30) ;
    }

    method EncodeRates(bsw: BitStreamWriter)
      requires bsw.Valid()
      modifies bsw
      ensures bsw.Valid() && bsw.Mark() == old(bsw.Mark()) && bsw.Pos() == old(bsw.Pos()) + 30
      ensures RatesLaid(bsw.bits, old(bsw.Pos()), Fields())
      ensures Keeps(old(bsw.bits), bsw.bits, old(bsw.Pos()))
    {
      hide BitsVal, Pow2;
      bsw.PutUint64(1, 1);
      bsw.PutUint64(rateBound, 22);
      bsw.PutUint64(1, 1);
      bsw.PutUint64(audioBound, 6);
    }

    method EncodeFlags(bsw: BitStreamWriter)
      requires bsw.Valid()
      modifies bsw
      ensures bsw.Valid() && bsw.Mark() == old(bsw.Mark()) && bsw.Pos() == old(bsw.Pos()) + 18
      ensures FlagsLaid(bsw.bits, old(bsw.Pos()), Fields())
      ensures Keeps(old(bsw.bits), bsw.bits, old(bsw.Pos()))
    {
      hide BitsVal, Pow2, VideoLaid;
      bsw.PutUint64(fixedFlag, 1);
      bsw.PutUint64(cspsFlag, 1);
      bsw.PutUint64(systemAudioLockFlag, 1);
      EncodeVideoFlags(bsw);
    }

    method EncodeVideoFlags(bsw: BitStreamWriter)
      requires bsw.Valid()
      modifies bsw
      ensures bsw.Valid() && bsw.Mark() == old(bsw.Mark()) && bsw.Pos() == old(bsw.Pos()) + 15
      ensures VideoLaid(bsw.bits, old(bsw.Pos()), Fields())
      ensures Keeps(old(bsw.bits), bsw.bits, old(bsw.Pos()))
    {
      hide BitsVal, Pow2;
      bsw.PutUint64(systemVideoLockFlag, 1);
      bsw.PutUint64(1, 1);
      bsw.PutUint64(videoBound, 5);
      bsw.PutUint64(packetRateRestrictionFlag, 1);
      bsw.PutUint64(0x7F, 7);
    }

    method EncodeStream(bsw: BitStreamWriter, s: StreamBound)
      requires bsw.Valid()
      modifies bsw
      ensures bsw.Valid() && bsw.Mark() == old(bsw.Mark()) && bsw.Pos() == old(bsw.Pos()) + 24
      ensures BoundLaid(bsw.bits, old(bsw.Pos()), s)
      ensures Keeps(old(bsw.bits), bsw.bits, old(bsw.Pos()))
    {
      hide BitsVal, Pow2;
      bsw.PutUint64(s.id, 8);
      bsw.PutUint64(3, 2);
      bsw.PutUint64(s.scale, 1);
      bsw.PutUint64(s.bound, 13);
    }
  }

  /** A system header with these fields stands at bit position p, its length field being the real length. */
  ghost predicate SystemLaid(c: seq<byte>, p: nat, h: System) {
    && p + 96 + 24 * |h.streams| <= 8 * |c|
    && BitsVal(c, p, 32) == 0x1BB
    && BitsVal(c, p + 32, 16) == (6 + 3 * |h.streams|) % 0x1_0000
    && BodyLaid(c, p + 48, h)
  }

  ghost predicate BodyLaid(c: seq<byte>, q: nat, h: System) {
    && q + 48 + 24 * |h.streams| <= 8 * |c|
    && BoundsLaid(c, q, h)
    && forall k :: 0 <= k < |h.streams| ==> BoundLaid(c, q + 48 + 24 * k, h.streams[k])
  }

  ghost predicate BoundsLaid(c: seq<byte>, q: nat, h: System) {
    RatesLaid(c, q, h) && FlagsLaid(c, q + 30, h)
  }

  ghost predicate RatesLaid(c: seq<byte>, q: nat, h: System) {
    && q + 30 <= 8 * |c|
    && BitsVal(c, q, 1) == 1 % Pow2(1)
    && BitsVal(c, q + 1, 22) == h.rateBound % Pow2(22)
    && BitsVal(c, q + 23, 1) == 1 % Pow2(1)
    && BitsVal(c, q + 24, 6) == h.audioBound % Pow2(6)
  }

  ghost predicate FlagsLaid(c: seq<byte>, q: nat, h: System) {
    && q + 18 <= 8 * |c|
    && BitsVal(c, q, 1) == h.fixedFlag % Pow2(1)
    && BitsVal(c, q + 1, 1) == h.cspsFlag % Pow2(1)
    && BitsVal(c, q + 2, 1) == h.audioLock % Pow2(1)
    && VideoLaid(c, q + 3, h)
  }

  ghost predicate VideoLaid(c: seq<byte>, q: nat, h: System) {
    && q + 15 <= 8 * |c|
    && BitsVal(c, q, 1) == h.videoLock % Pow2(1)
    && BitsVal(c, q + 1, 1) == 1 % Pow2(1)
    && BitsVal(c, q + 2, 5) == h.videoBound % Pow2(5)
    && BitsVal(c, q + 7, 1) == h.restriction % Pow2(1)
    && BitsVal(c, q + 8, 7) == 0x7F % Pow2(7)
  }

  lemma BoundShift(s: seq<byte>, off: nat, o: nat)
    requires off + o + 3 <= |s|
    ensures var q := 8 * (off + o);
      StreamBoundAt(s[off..], o) == StreamBound(BitsVal(s, q, 8), BitsVal(s, q + 10, 1), BitsVal(s, q + 11, 13))
  {
    hide BitsVal, Pow2;
    BitsShift(s, off);
  }

  ghost predicate BoundLaid(c: seq<byte>, q: nat, s: StreamBound) {
    && q + 24 <= 8 * |c|
    && BitsVal(c, q, 8) == s.id % Pow2(8)
    && BitsVal(c, q + 8, 2) == 3 % Pow2(2)
    && BitsVal(c, q + 10, 1) == s.scale % Pow2(1)
    && BitsVal(c, q + 11, 13) == s.bound % Pow2(13)
  }

  lemma RatesKept(c0: seq<byte>, c1: seq<byte>, q: nat, h: System, a: nat, b: nat)
    requires RatesLaid(c0, q, h) && Same(c0, c1, a, b) && a <= q && q + 30 <= b
    ensures RatesLaid(c1, q, h)
  {
    hide BitsVal, Pow2;
  }

  lemma BoundsKept(c0: seq<byte>, c1: seq<byte>, q: nat, h: System, a: nat, b: nat)
    requires BoundsLaid(c0, q, h) && Same(c0, c1, a, b) && a <= q && q + 48 <= b
    ensures BoundsLaid(c1, q, h)
  {
    hide BitsVal, Pow2;
  }

  lemma BoundKept(c0: seq<byte>, c1: seq<byte>, q: nat, s: StreamBound, a: nat, b: nat)
    requires BoundLaid(c0, q, s) && Same(c0, c1, a, b) && a <= q && q + 24 <= b
    ensures BoundLaid(c1, q, s)
  {
    hide BitsVal, Pow2;
  }

  lemma BodyKept(c0: seq<byte>, c1: seq<byte>, q: nat, h: System, a: nat, b: nat)
    requires BodyLaid(c0, q, h) && Same(c0, c1, a, b) && a <= q && q + 48 + 24 * |h.streams| <= b
    ensures BodyLaid(c1, q, h)
  {
    hide BoundsLaid, BoundLaid, Same;
    SameLength(c0, c1, a, b);
    BoundsKept(c0, c1, q, h, a, b);
    forall k | 0 <= k < |h.streams|
      ensures BoundLaid(c1, q + 48 + 24 * k, h.streams[k])
    {
      BoundKept(c0, c1, q + 48 + 24 * k, h.streams[k], a, b);
    }
  }

  function BoundCut(s: StreamBound): StreamBound {
    StreamBound(s.id % Pow2(8), s.scale % Pow2(1), s.bound % Pow2(13))
  }

  function Cuts(ss: seq<StreamBound>): (r: seq<StreamBound>)
    ensures |r| == |ss| && forall i :: 0 <= i < |ss| ==> r[i] == BoundCut(ss[i])
  {
    seq(|ss|, i requires 0 <= i < |ss| => BoundCut(ss[i]))
  }

  /** What the fields are cut to by their widths. */
  function SystemCut(h: System): System {
    System(h.rateBound % Pow2(22), h.audioBound % Pow2(6), h.fixedFlag % Pow2(1), h.cspsFlag % Pow2(1),
           h.audioLock % Pow2(1), h.videoLock % Pow2(1), h.videoBound % Pow2(5), h.restriction % Pow2(1),
           Cuts(h.streams))
  }

  /** The list is read to its end when every stream id has its first bit set. */
  lemma {:induction false} BoundsRead(c: seq<byte>, off: nat, o: nat, ss: seq<StreamBound>)
    requires off + o + 3 * |ss| <= |c|
    requires forall k :: 0 <= k < |ss| ==> BoundLaid(c, 8 * (off + o) + 24 * k, ss[k]) && ss[k].id % Pow2(8) >= 0x80
    ensures StreamBounds(c[off..], o, 3 * |ss|) == Done(o + 3 * |ss|, Cuts(ss))
    decreases |ss|
  {
    hide BitsVal, Pow2, BoundLaid;
    if ss == [] {
    } else {
      BoundRead(c, off, o, ss[0]);
      forall k | 0 <= k < |ss[1..]|
        ensures BoundLaid(c, 8 * (off + (o + 3)) + 24 * k, ss[1..][k]) && ss[1..][k].id % Pow2(8) >= 0x80
      {
        assert BoundLaid(c, 8 * (off + o) + 24 * (k + 1), ss[k + 1]);
      }
      BoundsRead(c, off, o + 3, ss[1..]);
      assert Cuts(ss) == [BoundCut(ss[0])] + Cuts(ss[1..]);
    }
  }

  lemma BoundRead(c: seq<byte>, off: nat, o: nat, s: StreamBound)
    requires off + o + 3 <= |c| && BoundLaid(c, 8 * (off + o), s) && s.id % Pow2(8) >= 0x80
    ensures BitsVal(c[off..], 8 * o, 1) == 1 && StreamBoundAt(c[off..], o) == BoundCut(s)
  {
    hide BitsVal, Pow2;
    var d := c[off..];
    BitsShift(c, off);
    var q := 8 * (off + o);
    assert BitsVal(d, 8 * o, 8) == BitsVal(c, 8 * off + 8 * o, 8) == s.id % Pow2(8);
    assert BitsVal(d, 8 * o + 10, 1) == BitsVal(c, 8 * off + (8 * o + 10), 1);
    assert BitsVal(d, 8 * o + 11, 13) == BitsVal(c, 8 * off + (8 * o + 11), 13);
    TopBit(d, o);
  }

  lemma TopBit(d: seq<byte>, o: nat)
    requires o < |d| && BitsVal(d, 8 * o, 8) >= 0x80
    ensures BitsVal(d, 8 * o, 1) == 1
  {
    hide BitsVal;
    BitsByte(d, o);
    BitsInByte(d, o, 0, 1);
    assert Pow2(1) == 2 && Pow2(7) == 128 by { Pow2Values(); }
  }

  /** Decoding an encoded system header gives its fields back and stops right behind its last byte. */
  lemma SystemRoundTrip(c: seq<byte>, off: nat, h: System)
    requires off <= |c| && SystemLaid(c, 8 * off, h)
    requires 6 + 3 * |h.streams| < 0x1_0000
    requires forall k :: 0 <= k < |h.streams| ==> h.streams[k].id % Pow2(8) >= 0x80
    ensures |c[off..]| >= 12 && U32(c[off..], 0) == 0x1BB
    ensures ParseSystem(c[off..]) == Done(12 + 3 * |h.streams|, SystemCut(h))
  {
    hide BitsVal, Pow2, BoundLaid, StreamBounds, U32, U16, SystemAt, SystemCut;
    SystemStart(c, off, h);
    BoundsRead(c, off, 12, h.streams);
    SystemFieldsRead(c, off, h);
    SmallMod(6 + 3 * |h.streams|, 0x1_0000);
    Threefold(|h.streams|);
  }

  lemma Threefold(n: nat)
    ensures 3 * n % 3 == 0
  {}

  /** Start code and length field. */
  lemma SystemStart(c: seq<byte>, off: nat, h: System)
    requires off <= |c| && SystemLaid(c, 8 * off, h)
    ensures |c[off..]| >= 12 + 3 * |h.streams| && U32(c[off..], 0) == 0x1BB
    ensures U16(c[off..], 4) == (6 + 3 * |h.streams|) % 0x1_0000
  {
    hide BitsVal, Pow2, BodyLaid;
    var d := c[off..];
    BitsShift(c, off);
    Quad(d, 0);
    Word(d, 4);
    assert BitsVal(d, 0, 32) == BitsVal(c, 8 * off + 0, 32) && BitsVal(d, 32, 16) == BitsVal(c, 8 * off + 32, 16);
  }

  lemma SystemFieldsRead(c: seq<byte>, off: nat, h: System)
    requires off + 12 <= |c| && BoundsLaid(c, 8 * off + 48, h)
    ensures SystemAt(c[off..], Cuts(h.streams)) == SystemCut(h)
  {
    hide BitsVal, Pow2, Cuts;
    BitsShift(c, off);
    var d, q := c[off..], 8 * off;
    assert BitsVal(d, 49, 22) == BitsVal(c, q + 49, 22) && BitsVal(d, 72, 6) == BitsVal(c, q + 72, 6);
    assert BitsVal(d, 78, 1) == BitsVal(c, q + 78, 1) && BitsVal(d, 79, 1) == BitsVal(c, q + 79, 1);
    assert BitsVal(d, 80, 1) == BitsVal(c, q + 80, 1) && BitsVal(d, 81, 1) == BitsVal(c, q + 81, 1);
    assert BitsVal(d, 83, 5) == BitsVal(c, q + 83, 5) && BitsVal(d, 88, 1) == BitsVal(c, q + 88, 1);
  }
}
