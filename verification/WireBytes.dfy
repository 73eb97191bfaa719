/** The headers that the encoders of gb28181/mpegps write, byte by byte as ISO/IEC 13818-1 lays them out: pack header
    2.5.3.3, system header 2.5.3.5, program stream map 2.5.4, PES packet 2.4.3.7.
 */
module WireBytes {
  import opened Bytes
  import opened Timestamp
  import opened PsFormat
  import opened PackHeaders
  import opened SystemHeaders
  import opened StreamMaps
  import opened PesPackets
  import opened MuxSpec

  // ----- bytes and fields -----

  /** A byte made of two fields. */
  lemma TwoFields(c: seq<byte>, o: nat, m: nat)
    requires o < |c| && m <= 8
    ensures c[o] as int == BitsVal(c, 8 * o, m) * Pow2(8 - m) + BitsVal(c, 8 * o + m, 8 - m)
  {
    hide BitsVal, Pow2;
    BitsConcat(c, 8 * o, m, 8 - m);
    BitsByte(c, o);
  }

  /** A field cut in two. */
  lemma CutField(c: seq<byte>, q: nat, m: nat, n: nat)
    requires q + m + n <= 8 * |c|
    ensures BitsVal(c, q, m) == BitsVal(c, q, m + n) / Pow2(n)
    ensures BitsVal(c, q + m, n) == BitsVal(c, q, m + n) % Pow2(n)
  {
    hide BitsVal, Pow2;
    BitsConcat(c, q, m, n);
    DivModUnique(BitsVal(c, q, m + n), Pow2(n), BitsVal(c, q, m), BitsVal(c, q + m, n));
  }

  /** The parts of a number cut to m + n bits. */
  lemma Part(v: nat, m: nat, n: nat)
    ensures v % Pow2(m + n) / Pow2(n) == v / Pow2(n) % Pow2(m) && v % Pow2(m + n) % Pow2(n) == v % Pow2(n)
  {
    hide Pow2;
    ModSplit(v, m, n);
    DivModUnique(v % Pow2(m + n), Pow2(n), v / Pow2(n) % Pow2(m), v % Pow2(n));
  }

  lemma MorePowers()
    ensures Pow2(7) == 128 && Pow2(9) == 512 && Pow2(10) == 1024 && Pow2(13) == 8192 && Pow2(14) == 0x4000
    ensures Pow2(22) == 0x40_0000 && Pow2(28) == 0x1000_0000 && Pow2(30) == 0x4000_0000
  {
    Pow2Add(14, 14);
    Pow2Add(15, 15);
    Pow2Add(11, 11);
  }

  // ----- time stamps -----

  /** A time stamp in a PES header: the prefix, and 3, 15 and 15 bits of it, each part with a marker bit behind. */
  lemma StampBytesAre(c: seq<byte>, o: nat, prefix: nat, v: nat)
    requires MarkedStamp(c, 8 * o, prefix, v) && prefix < 16
    ensures StampBytes(c, o, prefix * 16, v)
  {
    hide BitsVal, Pow2;
    var q := 8 * o;
    Pow2Values();
    MorePowers();
    TwoFields(c, o, 4);
    CutField(c, q + 4, 3, 1);
    BitsConcat(c, q + 4, 3, 1);
    BitsByte(c, o + 1);
    CutField(c, q + 8, 8, 7);
    TwoFields(c, o + 2, 7);
    BitsByte(c, o + 3);
    CutField(c, q + 24, 8, 7);
    TwoFields(c, o + 4, 7);
    StampNumbers(v);
  }

  lemma StampNumbers(v: nat)
    ensures v / 0x8000 % 0x8000 / 128 == v / 0x40_0000 % 256 && v / 0x8000 % 0x8000 % 128 == v / 0x8000 % 128
    ensures v % 0x8000 / 128 == v / 128 % 256 && v % 0x8000 % 128 == v % 128
  {
    SevenBits(v);
    SevenBits(v / 0x8000);
    assert v / 0x8000 / 128 == v / 0x40_0000;
  }

  lemma SevenBits(v: nat)
    ensures v % 0x8000 / 128 == v / 128 % 256 && v % 0x8000 % 128 == v % 128
  {
    hide Pow2;
    Pow2Values();
    MorePowers();
    Part(v, 8, 7);
  }

  // ----- pack header -----

  /** The bytes of a pack header without stuffing. */
  lemma PackBytesAre(c: seq<byte>, o: nat, h: Pack)
    requires PackLaid(c, 8 * o, h)
    ensures o + 14 <= |c| && c[o] == 0 && c[o + 1] == 0 && c[o + 2] == 1 && c[o + 3] == 0xBA
    ensures c[o + 4] as int == 0x44 + h.base / 0x4000_0000 % 8 * 8 + h.base / 0x1000_0000 % 4
    ensures c[o + 5] as int == h.base / 0x10_0000 % 256
    ensures c[o + 6] as int == h.base / 0x8000 % 32 * 8 + 4 + h.base / 0x2000 % 4
    ensures c[o + 7] as int == h.base / 32 % 256
    ensures c[o + 8] as int == h.base % 32 * 8 + 4 + h.extension / 128 % 4
    ensures c[o + 9] as int == h.extension % 128 * 2 + 1
    ensures c[o + 10] as int == h.muxRate / 0x4000 % 256 && c[o + 11] as int == h.muxRate / 64 % 256
    ensures c[o + 12] as int == h.muxRate % 64 * 4 + 3 && c[o + 13] as int == 0xF8 + h.stuffing % 8
  {
    hide BitsVal, Pow2, StampLaid, PackRates;
    PackRoom(c, 8 * o + 70, h);
    Quad(c, o);
    FourthByte(c, o, 0xBA);
    ClockBytes(c, o, h);
    RateBytes(c, o, h);
  }

  /** The bytes of a start code. */
  lemma FourthByte(c: seq<byte>, o: nat, b: nat)
    requires o + 4 <= |c| && U32(c, o) == 0x100 + b && b < 256
    ensures c[o] == 0 && c[o + 1] == 0 && c[o + 2] == 1 && c[o + 3] as int == b
  {}

  lemma PackRoom(c: seq<byte>, p: nat, h: Pack)
    requires PackRates(c, p, h)
    ensures p + 42 <= 8 * |c|
  {}

  lemma ClockBytes(c: seq<byte>, o: nat, h: Pack)
    requires PackClock(c, 8 * o, h) && 8 * o + 112 <= 8 * |c|
    ensures c[o + 4] as int == 0x44 + h.base / 0x4000_0000 % 8 * 8 + h.base / 0x1000_0000 % 4
    ensures c[o + 5] as int == h.base / 0x10_0000 % 256
    ensures c[o + 6] as int == h.base / 0x8000 % 32 * 8 + 4 + h.base / 0x2000 % 4
    ensures c[o + 7] as int == h.base / 32 % 256
    ensures BitsVal(c, 8 * o + 64, 5) == h.base % 32 && BitsVal(c, 8 * o + 69, 1) == 1
  {
    hide BitsVal, Pow2;
    var q := 8 * o;
    Pow2Values();
    MorePowers();
    TwoFields(c, o + 4, 2);
    BitsConcat(c, q + 34, 3, 3);
    BitsConcat(c, q + 37, 1, 2);
    CutField(c, q + 38, 2, 13);
    BitsByte(c, o + 5);
    CutField(c, q + 40, 8, 5);
    TwoFields(c, o + 6, 5);
    BitsConcat(c, q + 53, 1, 2);
    CutField(c, q + 54, 2, 13);
    BitsByte(c, o + 7);
    CutField(c, q + 56, 8, 5);
    ClockNumbers(h.base);
  }

  lemma ClockNumbers(v: nat)
    ensures v / 0x8000 % 0x8000 / 0x2000 == v / 0x1000_0000 % 4
    ensures v / 0x8000 % 0x8000 % 0x2000 / 32 == v / 0x10_0000 % 256
    ensures v / 0x8000 % 0x8000 % 0x2000 % 32 == v / 0x8000 % 32
    ensures v % 0x8000 / 0x2000 == v / 0x2000 % 4
    ensures v % 0x8000 % 0x2000 / 32 == v / 32 % 256 && v % 0x8000 % 0x2000 % 32 == v % 32
  {
    FiveBits(v);
    FiveBits(v / 0x8000);
    assert v / 0x8000 / 0x2000 == v / 0x1000_0000 && v / 0x8000 / 32 == v / 0x10_0000;
  }

  lemma FiveBits(v: nat)
    ensures v % 0x8000 / 0x2000 == v / 0x2000 % 4
    ensures v % 0x8000 % 0x2000 / 32 == v / 32 % 256 && v % 0x8000 % 0x2000 % 32 == v % 32
  {
    hide Pow2;
    Pow2Values();
    MorePowers();
    Part(v, 2, 13);
    Part(v, 8, 5);
  }

  lemma RateBytes(c: seq<byte>, o: nat, h: Pack)
    requires PackRates(c, 8 * o + 70, h) && o + 14 <= |c|
    requires BitsVal(c, 8 * o + 64, 5) == h.base % 32 && BitsVal(c, 8 * o + 69, 1) == 1
    ensures c[o + 8] as int == h.base % 32 * 8 + 4 + h.extension / 128 % 4
    ensures c[o + 9] as int == h.extension % 128 * 2 + 1
    ensures c[o + 10] as int == h.muxRate / 0x4000 % 256 && c[o + 11] as int == h.muxRate / 64 % 256
    ensures c[o + 12] as int == h.muxRate % 64 * 4 + 3 && c[o + 13] as int == 0xF8 + h.stuffing % 8
  {
    hide BitsVal, Pow2;
    var q := 8 * o;
    Pow2Values();
    MorePowers();
    TwoFields(c, o + 8, 5);
    BitsConcat(c, q + 69, 1, 2);
    CutField(c, q + 70, 2, 7);
    TwoFields(c, o + 9, 7);
    BitsByte(c, o + 10);
    CutField(c, q + 80, 8, 14);
    BitsByte(c, o + 11);
    CutField(c, q + 88, 8, 6);
    TwoFields(c, o + 12, 6);
    BitsConcat(c, q + 102, 1, 1);
    TwoFields(c, o + 13, 5);
    RateNumbers(h.extension, h.muxRate);
  }

  lemma RateNumbers(e: nat, v: nat)
    ensures e % 512 / 128 == e / 128 % 4 && e % 512 % 128 == e % 128
    ensures v % 0x40_0000 / 0x4000 == v / 0x4000 % 256
    ensures v % 0x40_0000 % 0x4000 / 64 == v / 64 % 256 && v % 0x40_0000 % 0x4000 % 64 == v % 64
  {
    hide Pow2;
    Pow2Values();
    MorePowers();
    Part(e, 2, 7);
    Part(v, 8, 14);
    Part(v, 8, 6);
  }

  // ----- system header -----

  /** The bytes of a system header: 12, and 3 for each stream. */
  lemma SystemBytesAre(c: seq<byte>, o: nat, h: System)
    requires SystemLaid(c, 8 * o, h)
    ensures o + 12 + 3 * |h.streams| <= |c|
    ensures c[o] == 0 && c[o + 1] == 0 && c[o + 2] == 1 && c[o + 3] == 0xBB
    ensures U16(c, o + 4) == (6 + 3 * |h.streams|) % 0x1_0000
    ensures c[o + 6] as int == 0x80 + h.rateBound / 0x8000 % 128 && c[o + 7] as int == h.rateBound / 128 % 256
    ensures c[o + 8] as int == h.rateBound % 128 * 2 + 1
    ensures c[o + 9] as int == h.audioBound % 64 * 4 + h.fixedFlag % 2 * 2 + h.cspsFlag % 2
    ensures c[o + 10] as int == h.audioLock % 2 * 128 + h.videoLock % 2 * 64 + 32 + h.videoBound % 32
    ensures c[o + 11] as int == h.restriction % 2 * 128 + 127
    ensures forall k :: 0 <= k < |h.streams| ==>
      && c[o + 12 + 3 * k] as int == h.streams[k].id % 256
      && c[o + 13 + 3 * k] as int == 0xC0 + h.streams[k].scale % 2 * 32 + h.streams[k].bound / 256 % 32
      && c[o + 14 + 3 * k] as int == h.streams[k].bound % 256
  {
    hide BitsVal, Pow2, RatesLaid, FlagsLaid, BoundLaid;
    Quad(c, o);
    FourthByte(c, o, 0xBB);
    Word(c, o + 4);
    RatesBytes(c, o, h);
    FlagsBytes(c, o, h);
    forall k | 0 <= k < |h.streams|
      ensures c[o + 12 + 3 * k] as int == h.streams[k].id % 256
      ensures c[o + 13 + 3 * k] as int == 0xC0 + h.streams[k].scale % 2 * 32 + h.streams[k].bound / 256 % 32
      ensures c[o + 14 + 3 * k] as int == h.streams[k].bound % 256
    {
      assert 8 * o + 48 + 48 + 24 * k == 8 * (o + 12 + 3 * k);
      BoundBytes(c, o + 12 + 3 * k, h.streams[k]);
    }
  }

  lemma RatesBytes(c: seq<byte>, o: nat, h: System)
    requires RatesLaid(c, 8 * o + 48, h) && FlagsLaid(c, 8 * o + 78, h)
    ensures o + 12 <= |c|
    ensures c[o + 6] as int == 0x80 + h.rateBound / 0x8000 % 128 && c[o + 7] as int == h.rateBound / 128 % 256
    ensures c[o + 8] as int == h.rateBound % 128 * 2 + 1
    ensures c[o + 9] as int == h.audioBound % 64 * 4 + h.fixedFlag % 2 * 2 + h.cspsFlag % 2
  {
    hide BitsVal, Pow2, VideoLaid;
    var q := 8 * o + 48;
    Pow2Values();
    MorePowers();
    TwoFields(c, o + 6, 1);
    CutField(c, q + 1, 7, 15);
    BitsByte(c, o + 7);
    CutField(c, q + 8, 8, 7);
    TwoFields(c, o + 8, 7);
    TwoFields(c, o + 9, 6);
    BitsConcat(c, q + 30, 1, 1);
    RateBoundNumbers(h.rateBound);
  }

  lemma RateBoundNumbers(v: nat)
    ensures v % 0x40_0000 / 0x8000 == v / 0x8000 % 128
    ensures v % 0x40_0000 % 0x8000 / 128 == v / 128 % 256 && v % 0x40_0000 % 0x8000 % 128 == v % 128
  {
    hide Pow2;
    Pow2Values();
    MorePowers();
    Part(v, 7, 15);
    Part(v, 8, 7);
  }

  lemma FlagsBytes(c: seq<byte>, o: nat, h: System)
    requires FlagsLaid(c, 8 * o + 78, h)
    ensures o + 12 <= |c|
    ensures c[o + 10] as int == h.audioLock % 2 * 128 + h.videoLock % 2 * 64 + 32 + h.videoBound % 32
    ensures c[o + 11] as int == h.restriction % 2 * 128 + 127
  {
    hide BitsVal, Pow2;
    var q := 8 * o + 80;
    Pow2Values();
    MorePowers();
    TwoFields(c, o + 10, 1);
    BitsConcat(c, q + 1, 1, 6);
    BitsConcat(c, q + 2, 1, 5);
    TwoFields(c, o + 11, 1);
  }

  lemma BoundBytes(c: seq<byte>, o: nat, e: StreamBound)
    requires BoundLaid(c, 8 * o, e)
    ensures o + 3 <= |c| && c[o] as int == e.id % 256
    ensures c[o + 1] as int == 0xC0 + e.scale % 2 * 32 + e.bound / 256 % 32 && c[o + 2] as int == e.bound % 256
  {
    hide BitsVal, Pow2;
    var q := 8 * o;
    Pow2Values();
    MorePowers();
    BitsByte(c, o);
    TwoFields(c, o + 1, 2);
    BitsConcat(c, q + 10, 1, 5);
    CutField(c, q + 11, 5, 8);
    BitsByte(c, o + 2);
    BoundNumbers(e.bound);
  }

  lemma BoundNumbers(v: nat)
    ensures v % 8192 / 256 == v / 256 % 32 && v % 8192 % 256 == v % 256
  {
    hide Pow2;
    Pow2Values();
    MorePowers();
    Part(v, 5, 8);
  }

  // ----- program stream map -----

  /** The bytes of a stream map in front of its checksum: 12, and 4 for each entry. */
  lemma MapBytesAre(c: seq<byte>, o: nat, h: PsFormat.StreamMap)
    requires MapLaid(c, 8 * o, h)
    ensures o + 16 + 4 * |h.entries| <= |c|
    ensures c[o] == 0 && c[o + 1] == 0 && c[o + 2] == 1 && c[o + 3] == 0xBC
    ensures U16(c, o + 4) == (10 + 4 * |h.entries|) % 0x1_0000
    ensures c[o + 6] as int == h.current % 2 * 128 + 96 + h.version % 32 && c[o + 7] == 0xFF
    ensures c[o + 8] == 0 && c[o + 9] == 0 && U16(c, o + 10) == 4 * |h.entries| % 0x1_0000
    ensures forall k :: 0 <= k < |h.entries| ==>
      && c[o + 12 + 4 * k] as int == h.entries[k].kind % 256 && c[o + 13 + 4 * k] as int == h.entries[k].id % 256
      && c[o + 14 + 4 * k] == 0 && c[o + 15 + 4 * k] == 0
  {
    hide BitsVal, Pow2, FixedLaid, EntryLaid;
    Quad(c, o);
    FourthByte(c, o, 0xBC);
    Word(c, o + 4);
    FixedBytes(c, o, h);
    forall k | 0 <= k < |h.entries|
      ensures c[o + 12 + 4 * k] as int == h.entries[k].kind % 256
      ensures c[o + 13 + 4 * k] as int == h.entries[k].id % 256
      ensures c[o + 14 + 4 * k] == 0 && c[o + 15 + 4 * k] == 0
    {
      assert 8 * o + 48 + 48 + 32 * k == 8 * (o + 12 + 4 * k);
      EntryBytes(c, o + 12 + 4 * k, h.entries[k]);
    }
  }

  lemma FixedBytes(c: seq<byte>, o: nat, h: PsFormat.StreamMap)
    requires FixedLaid(c, 8 * o + 48, h)
    ensures o + 12 <= |c|
    ensures c[o + 6] as int == h.current % 2 * 128 + 96 + h.version % 32 && c[o + 7] == 0xFF
    ensures c[o + 8] == 0 && c[o + 9] == 0 && U16(c, o + 10) == 4 * |h.entries| % 0x1_0000
  {
    hide BitsVal, Pow2;
    var q := 8 * o + 48;
    Pow2Values();
    MorePowers();
    TwoFields(c, o + 6, 1);
    BitsConcat(c, q + 1, 2, 5);
    TwoFields(c, o + 7, 7);
    Word(c, o + 8);
    Word(c, o + 10);
  }

  lemma EntryBytes(c: seq<byte>, o: nat, e: MapEntry)
    requires EntryLaid(c, 8 * o, e)
    ensures o + 4 <= |c| && c[o] as int == e.kind % 256 && c[o + 1] as int == e.id % 256
    ensures c[o + 2] == 0 && c[o + 3] == 0
  {
    hide BitsVal, Pow2;
    Pow2Values();
    BitsByte(c, o);
    BitsByte(c, o + 1);
    Word(c, o + 2);
  }

  // ----- PES packet -----

  /** The bytes of a PES packet in front of its payload, for the three ways of giving time stamps. */
  lemma PesBytesAre(c: seq<byte>, o: nat, h: PesHead)
    requires PesLaid(c, o, h)
    ensures o + 9 + EncodedStamps(h.stamps) + |h.payload| <= |c|
    ensures c[o] == 0 && c[o + 1] == 0 && c[o + 2] == 1 && c[o + 3] as int == h.id
    ensures U16(c, o + 4) == h.length % 0x1_0000
    ensures c[o + 6] as int
         == 0x80 + h.scrambling % 4 * 16 + h.priority % 2 * 8 + h.alignment % 2 * 4 + h.copyright % 2 * 2
            + h.original % 2
    ensures c[o + 7] as int
         == h.stamps % 4 * 64 + h.rate % 2 * 16 + h.trick % 2 * 8 + h.info % 2 * 4 + h.crc % 2 * 2 + h.extension % 2
    ensures c[o + 8] as int == h.headerLength
    ensures h.stamps == 2 ==> StampBytes(c, o + 9, 0x20, h.pts)
    ensures h.stamps == 3 ==> StampBytes(c, o + 9, 0x30, h.pts) && StampBytes(c, o + 14, 0x10, h.dts)
    ensures var start := o + 9 + (if h.stamps == 3 then 10 else if h.stamps == 2 then 5 else 0);
      c[start..start + |h.payload|] == h.payload
  {
    hide BitsVal, Pow2, StartLaid, MiddleLaid, MarkedStamp;
    StartBytes(c, o, h);
    MiddleBytes(c, o, h);
    if h.stamps == 2 {
      StampBytesAre(c, o + 9, 2, h.pts);
    } else if h.stamps == 3 {
      StampBytesAre(c, o + 9, 3, h.pts);
      StampBytesAre(c, o + 14, 1, h.dts);
    }
  }

  /** The five bytes of a time stamp, the first one with this prefix. */
  predicate StampBytes(c: seq<byte>, o: nat, prefix: int, v: nat) {
    && o + 5 <= |c|
    && c[o] as int == prefix + v / 0x4000_0000 % 8 * 2 + 1
    && c[o + 1] as int == v / 0x40_0000 % 256
    && c[o + 2] as int == v / 0x8000 % 128 * 2 + 1
    && c[o + 3] as int == v / 128 % 256
    && c[o + 4] as int == v % 128 * 2 + 1
  }

  lemma StartBytes(c: seq<byte>, o: nat, h: PesHead)
    requires StartLaid(c, 8 * o, h)
    ensures o + 7 <= |c|
    ensures c[o] == 0 && c[o + 1] == 0 && c[o + 2] == 1 && c[o + 3] as int == h.id
    ensures U16(c, o + 4) == h.length % 0x1_0000
    ensures c[o + 6] as int
         == 0x80 + h.scrambling % 4 * 16 + h.priority % 2 * 8 + h.alignment % 2 * 4 + h.copyright % 2 * 2
            + h.original % 2
  {
    hide BitsVal, Pow2;
    var q := 8 * o;
    Pow2Values();
    BitsConcat(c, q, 16, 8);
    Word(c, o);
    BitsByte(c, o + 2);
    BitsByte(c, o + 3);
    Word(c, o + 4);
    FlagByte(c, o);
  }

  lemma FlagByte(c: seq<byte>, o: nat)
    requires o + 7 <= |c|
    ensures var q := 8 * o + 48;
      c[o + 6] as int == BitsVal(c, q, 2) * 64 + BitsVal(c, q + 2, 2) * 16 + BitsVal(c, q + 4, 1) * 8
                         + BitsVal(c, q + 5, 1) * 4 + BitsVal(c, q + 6, 1) * 2 + BitsVal(c, q + 7, 1)
  {
    hide BitsVal, Pow2;
    var q := 8 * o + 48;
    Pow2Values();
    TwoFields(c, o + 6, 2);
    BitsConcat(c, q + 2, 2, 4);
    BitsConcat(c, q + 4, 1, 3);
    BitsConcat(c, q + 5, 1, 2);
    BitsConcat(c, q + 6, 1, 1);
  }

  lemma MiddleBytes(c: seq<byte>, o: nat, h: PesHead)
    requires MiddleLaid(c, 8 * o + 56, h)
    ensures o + 9 <= |c| && c[o + 8] as int == h.headerLength
    ensures c[o + 7] as int
         == h.stamps % 4 * 64 + h.rate % 2 * 16 + h.trick % 2 * 8 + h.info % 2 * 4 + h.crc % 2 * 2 + h.extension % 2
  {
    hide BitsVal, Pow2;
    var q := 8 * o + 56;
    Pow2Values();
    TwoFields(c, o + 7, 2);
    BitsConcat(c, q + 2, 1, 5);
    BitsConcat(c, q + 3, 1, 4);
    BitsConcat(c, q + 4, 1, 3);
    BitsConcat(c, q + 5, 1, 2);
    BitsConcat(c, q + 6, 1, 1);
    BitsByte(c, o + 8);
  }

  // ----- the packets of the muxer -----

  /** A packet that the muxer hands over, byte by byte: only the first of a frame begins with a pack header, whose
      clock is 40 milliseconds behind the decoding time and whose rate is 6106 units of 50 bytes per second; the PES
      packet has the two time stamps, the alignment flag for a random access frame, and the true length. */
  lemma PacketBytesAre(c: seq<byte>, m: Mux, first: bool, h: Heads, sid: nat, aligned: bool, pts: nat, dts: nat,
                       payload: seq<byte>)
    requires PacketIs(c, m, first, h, PesOf(sid, aligned, pts, dts, payload))
    ensures var o := if !first then 0
                     else if h.maps then 42 + 3 * |m.system.streams| + 4 * |m.streams.entries| else 14;
      && |c| == o + 19 + |payload| && c[o + 19..] == payload
      && c[o] == 0 && c[o + 1] == 0 && c[o + 2] == 1 && c[o + 3] as int == sid
      && U16(c, o + 4) == (13 + |payload|) % 0x1_0000
      && c[o + 6] == (if aligned then 0x84 else 0x80) && c[o + 7] == 0xC0 && c[o + 8] == 10
      && StampBytes(c, o + 9, 0x30, pts) && StampBytes(c, o + 14, 0x10, dts)
      && (first ==>
            && c[..4] == [0, 0, 1, 0xBA] && c[4] as int == 0x44 + h.scr / 0x4000_0000 % 8 * 8 + h.scr / 0x1000_0000 % 4
            && c[5] as int == h.scr / 0x10_0000 % 256 && c[6] as int == h.scr / 0x8000 % 32 * 8 + 4 + h.scr / 0x2000 % 4
            && c[7] as int == h.scr / 32 % 256 && c[8] as int == h.scr % 32 * 8 + 4
            && c[9..14] == [1, 0, 0x5F, 0x6B, 0xF8])
  {
    hide PackLaid, SystemLaid, MapLaid, PesLaid;
    var o := if first then HeadBytes(m, h) else 0;
    var p := PesOf(sid, aligned, pts, dts, payload);
    PesBytesAre(c, o, p);
    if first {
      PackBytesAre(c, 0, Pack(false, h.scr, 0, 6106, 0));
    }
  }

  /** The first packet of the first frame, and of every random access frame, has the two tables between pack header and
      PES packet. */
  lemma TablesIn(c: seq<byte>, m: Mux, h: Heads, p: PesHead)
    requires PacketIs(c, m, true, h, p) && h.maps
    ensures SystemLaid(c, 112, m.system) && MapLaid(c, 8 * (26 + 3 * |m.system.streams|), m.streams)
  {
    hide PackLaid, SystemLaid, MapLaid, PesLaid;
  }
}
