/** Which bytes make the demuxer take a stream that no map announces for H.264 or H.265, and what it then does
    (mpegH26xVerify of gb28181/mpegps/util.go, Input of gb28181/mpegps/ps_demuxer.go).
 */
module CodecGuess {
  import opened Wrappers
  import opened Bytes
  import opened PsFormat
  import opened StartCodes
  import opened DemuxSpec
  import opened Conservation
  import opened ChunkIndependence

  // ----- the first ten units -----

  /** The byte at q stands directly behind 00 00 01, and another one behind it. */
  predicate Behind001(d: seq<byte>, q: int) {
    3 <= q && q + 1 < |d| && d[q - 3] == 0 && d[q - 2] == 0 && d[q - 1] == 1
  }

  /** How many such bytes come before q. */
  function CountBefore(d: seq<byte>, q: nat): nat {
    if q == 0 then 0 else CountBefore(d, q - 1) + if Behind001(d, q - 1) then 1 else 0
  }

  /** The byte at q is one of the first ten of its kind. */
  predicate AmongTen(d: seq<byte>, q: nat) {
    Behind001(d, q) && CountBefore(d, q) < 10
  }

  /** Where the units begin whose leading bytes are looked at. */
  function HeadsAt(d: seq<byte>, from: nat, count: nat): (ps: seq<nat>)
    requires from <= |d|
    decreases count
  {
    var i := NextCode(d, from);
    if count == 0 || i + 4 >= |d| then [] else [i + 3] + HeadsAt(d, i + 3, count - 1)
  }

  lemma {:induction false} NextCodeDrop(d: seq<byte>, from: nat, k: nat)
    requires from + k <= |d|
    ensures NextCode(d[from..], k) + from == NextCode(d, from + k)
    decreases |d| - from - k
  {
    if from + k < |d| && !CodeAt(d, from + k) {
      NextCodeDrop(d, from, k + 1);
    }
  }

  ghost predicate HeadsFrom(d: seq<byte>, hs: seq<(byte, byte)>, ps: seq<nat>) {
    |hs| == |ps| && forall i :: 0 <= i < |ps| ==> ps[i] + 1 < |d| && hs[i] == (d[ps[i]], d[ps[i] + 1])
  }

  lemma FindHere(d: seq<byte>, from: nat)
    requires from <= |d|
    ensures var i := NextCode(d, from);
      FindNalu(d[from..]) == if i + 4 < |d| then i + 3 - from else 0
  {
    hide NextCode;
    NextCodeDrop(d, from, 0);
  }

  lemma HeadsOne(d: seq<byte>, from: nat, count: nat)
    requires from <= |d|
    ensures var i := NextCode(d, from);
      if count == 0 || i + 4 >= |d| then Heads(d[from..], count) == []
      else Heads(d[from..], count) == [(d[i + 3], d[i + 4])] + Heads(d[i + 3..], count - 1)
  {
    hide Heads, FindNalu, NextCode;
    FindHere(d, from);
    var i, e := NextCode(d, from), d[from..];
    if count > 0 && i + 4 < |d| {
      var n := i + 3 - from;
      assert e[0..] == e;
      HeadsStep(e, 0, n, count, []);
      assert e[n..] == d[i + 3..] && e[n] == d[i + 3] && e[n + 1] == d[i + 4];
      assert [] + Heads(e, count) == Heads(e, count);
    } else {
      HeadsEnd(e, count);
    }
  }

  lemma {:induction false} HeadsAgree(d: seq<byte>, from: nat, count: nat)
    requires from <= |d|
    ensures HeadsFrom(d, Heads(d[from..], count), HeadsAt(d, from, count))
    decreases count
  {
    hide Heads;
    HeadsOne(d, from, count);
    var i := NextCode(d, from);
    if count > 0 && i + 4 < |d| {
      HeadsAgree(d, i + 3, count - 1);
    }
  }

  lemma {:induction false} CountSame(d: seq<byte>, a: nat, b: nat)
    requires a <= b && forall q :: a <= q < b ==> !Behind001(d, q)
    ensures CountBefore(d, b) == CountBefore(d, a)
    decreases b
  {
    if a < b {
      CountSame(d, a, b - 1);
    }
  }

  lemma {:induction false} CountGrows(d: seq<byte>, a: nat, b: nat)
    requires a <= b
    ensures CountBefore(d, a) <= CountBefore(d, b)
    decreases b
  {
    if a < b {
      CountGrows(d, a, b - 1);
    }
  }

  /** The units that are looked at are the first `count` from there on. */
  lemma {:induction false} HeadsAre(d: seq<byte>, from: nat, count: nat, q: nat)
    requires from <= |d|
    ensures q in HeadsAt(d, from, count)
       <==> Behind001(d, q) && q >= from + 3 && CountBefore(d, q) < CountBefore(d, from + 3) + count
    decreases count
  {
    hide CountBefore;
    var i := NextCode(d, from);
    NoneUntil(d, from);
    if count > 0 && i + 4 < |d| {
      HeadsAre(d, i + 3, count - 1, q);
      OneCounted(d, from);
      if q > i + 3 && Behind001(d, q) {
        CountGrows(d, i + 6, q);
      }
    } else if q >= from + 3 && Behind001(d, q) {
      CountGrows(d, from + 3, q);
    }
  }

  lemma NoneUntil(d: seq<byte>, from: nat)
    requires from <= |d|
    ensures var i := NextCode(d, from);
      && (forall q :: from + 3 <= q < i + 3 ==> !Behind001(d, q))
      && (i + 4 < |d| ==> Behind001(d, i + 3))
      && (i + 4 >= |d| ==> forall q :: from + 3 <= q ==> !Behind001(d, q))
  {
    var i := NextCode(d, from);
    forall q | from + 3 <= q < i + 3
      ensures !Behind001(d, q)
    {
      BehindCode(d, q - 3);
    }
    if i + 4 < |d| {
      BehindCode(d, i);
    }
  }

  lemma BehindCode(d: seq<byte>, i: nat)
    ensures Behind001(d, i + 3) <==> CodeAt(d, i) && i + 4 < |d|
  {}

  lemma OneCounted(d: seq<byte>, from: nat)
    requires from <= |d| && NextCode(d, from) + 4 < |d|
    ensures var i := NextCode(d, from);
      && CountBefore(d, i + 3) == CountBefore(d, from + 3) && CountBefore(d, i + 6) == CountBefore(d, i + 3) + 1
      && !Behind001(d, i + 4) && !Behind001(d, i + 5)
  {
    var i := NextCode(d, from);
    NoneUntil(d, from);
    CountSame(d, from + 3, i + 3);
    CountSame(d, i + 4, i + 6);
  }

  /** The ten units that are looked at, the first one in front. */
  lemma TenUnits(d: seq<byte>)
    ensures HeadsFrom(d, Heads(d, 10), HeadsAt(d, 0, 10))
    ensures forall q: nat :: q in HeadsAt(d, 0, 10) <==> AmongTen(d, q)
    ensures var ps := HeadsAt(d, 0, 10);
      (ps != [] ==> CountBefore(d, ps[0]) == 0) && forall q: nat :: q in ps && CountBefore(d, q) == 0 ==> q == ps[0]
  {
    hide HeadsAt, CountBefore;
    HeadsAgree(d, 0, 10);
    assert d[0..] == d;
    CountSame(d, 0, 3);
    NoneCounted(d);
    forall q: nat
      ensures q in HeadsAt(d, 0, 10) <==> AmongTen(d, q)
    {
      HeadsAre(d, 0, 10, q);
    }
    FirstCounted(d);
    forall q: nat | q in HeadsAt(d, 0, 10) && CountBefore(d, q) == 0
      ensures q == HeadsAt(d, 0, 10)[0]
    {
      FirstOnly(d, q);
    }
  }

  lemma NoneCounted(d: seq<byte>)
    ensures CountBefore(d, 0) == 0
  {}

  lemma FirstCounted(d: seq<byte>)
    ensures var ps := HeadsAt(d, 0, 10);
      ps != [] ==> ps[0] == NextCode(d, 0) + 3 && Behind001(d, ps[0]) && CountBefore(d, ps[0]) == 0
    ensures HeadsAt(d, 0, 10) == [] <==> NextCode(d, 0) + 4 >= |d|
  {
    NoneUntil(d, 0);
    var i := NextCode(d, 0);
    if i + 4 < |d| {
      CountSame(d, 0, i + 3);
    }
  }

  lemma FirstOnly(d: seq<byte>, q: nat)
    requires q in HeadsAt(d, 0, 10) && CountBefore(d, q) == 0
    ensures q == HeadsAt(d, 0, 10)[0]
  {
    hide HeadsAt, CountBefore;
    FirstCounted(d);
    HeadsAre(d, 0, 10, q);
    NoneUntil(d, 0);
    var p := HeadsAt(d, 0, 10)[0];
    if q > p {
      CountStep(d, p);
      CountGrows(d, p + 1, q);
    }
  }

  lemma CountStep(d: seq<byte>, q: nat)
    ensures CountBefore(d, q + 1) == CountBefore(d, q) + if Behind001(d, q) then 1 else 0
  {}

  // ----- the verdict -----

  /** One of the first ten units has the type number t, by the lowest five bits of its first byte. */
  ghost predicate Has264(d: seq<byte>, t: int) {
    exists q: nat :: AmongTen(d, q) && d[q] as int % 32 == t
  }

  /** By bits 1 to 6 of its first byte. */
  ghost predicate Has265(d: seq<byte>, t: int) {
    exists q: nat :: AmongTen(d, q) && d[q] as int / 2 % 64 == t
  }

  /** By the highest five bits of its second byte. */
  ghost predicate Has266(d: seq<byte>, t: int) {
    exists q: nat :: AmongTen(d, q) && d[q + 1] as int / 8 % 32 == t
  }

  /** The first unit is an MPEG-4 visual object sequence. */
  ghost predicate HasMpeg4(d: seq<byte>) {
    exists q: nat :: Behind001(d, q) && CountBefore(d, q) == 0 && d[q] == 0xB0 && d[q + 1] as int / 16 % 4 == 0
  }

  lemma TypesFound(d: seq<byte>)
    ensures var hs := Heads(d, 10);
      && (forall t: nat :: t in Types264(hs) <==> Has264(d, t))
      && (forall t: nat :: t in Types265(hs) <==> Has265(d, t))
      && (forall t: nat :: t in Types266(hs) <==> Has266(d, t))
  {
    hide HeadsAt, Heads, AmongTen, Ten, Types264, Types265, Types266, Has264, Has265, Has266;
    TenUnits(d);
    var hs := Heads(d, 10);
    TenHeads(d, hs, HeadsAt(d, 0, 10));
    forall t: nat
      ensures t in Types264(hs) <==> Has264(d, t)
      ensures t in Types265(hs) <==> Has265(d, t)
      ensures t in Types266(hs) <==> Has266(d, t)
    {
      Found264(d, hs, t);
      Found265(d, hs, t);
      Found266(d, hs, t);
    }
  }

  /** The leading bytes are those of the ten units. */
  ghost predicate Ten(d: seq<byte>, hs: seq<(byte, byte)>) {
    && (forall h :: h in hs ==> exists q: nat :: AmongTen(d, q) && h == (d[q], d[q + 1]))
    && (forall q: nat :: AmongTen(d, q) ==> (d[q], d[q + 1]) in hs)
  }

  lemma TenHeads(d: seq<byte>, hs: seq<(byte, byte)>, ps: seq<nat>)
    requires HeadsFrom(d, hs, ps) && forall q: nat :: q in ps <==> AmongTen(d, q)
    ensures Ten(d, hs)
  {
    hide CountBefore;
    forall q: nat | AmongTen(d, q)
      ensures (d[q], d[q + 1]) in hs
    {
      var i :| 0 <= i < |ps| && ps[i] == q;
      assert hs[i] in hs;
    }
    forall h | h in hs
      ensures exists q: nat :: AmongTen(d, q) && h == (d[q], d[q + 1])
    {
      var i :| 0 <= i < |hs| && hs[i] == h;
      assert ps[i] in ps && AmongTen(d, ps[i]);
    }
  }

  lemma Found264(d: seq<byte>, hs: seq<(byte, byte)>, t: nat)
    requires Ten(d, hs)
    ensures t in Types264(hs) <==> Has264(d, t)
  {
    hide CountBefore;
    if Has264(d, t) {
      var q: nat :| AmongTen(d, q) && d[q] as int % 32 == t;
      assert (d[q], d[q + 1]) in hs;
    }
  }

  lemma Found265(d: seq<byte>, hs: seq<(byte, byte)>, t: nat)
    requires Ten(d, hs)
    ensures t in Types265(hs) <==> Has265(d, t)
  {
    hide CountBefore;
    if Has265(d, t) {
      var q: nat :| AmongTen(d, q) && d[q] as int / 2 % 64 == t;
      assert (d[q], d[q + 1]) in hs;
    }
  }

  lemma Found266(d: seq<byte>, hs: seq<(byte, byte)>, t: nat)
    requires Ten(d, hs)
    ensures t in Types266(hs) <==> Has266(d, t)
  {
    hide CountBefore;
    if Has266(d, t) {
      var q: nat :| AmongTen(d, q) && d[q + 1] as int / 8 % 32 == t;
      assert (d[q], d[q + 1]) in hs;
    }
  }

  /** The codec that is guessed, by the bytes: H.264 if sequence and picture parameter set and IDR slice (types 7, 8
      and 5) occur among the first ten units, H.265 if the three parameter sets (32, 33, 34) do, H.266 if the two
      (14, 15) do, each only if that is true of no other; else MPEG-4 by the first unit. */
  lemma GuessByBytes(d: seq<byte>)
    ensures var a := Has264(d, 5) && Has264(d, 7) && Has264(d, 8);
      var b := Has265(d, 32) && Has265(d, 33) && Has265(d, 34);
      var c := Has266(d, 14) && Has266(d, 15);
      && (H26xVerify(d) == CodecH264 <==> a && !b && !c)
      && (H26xVerify(d) == CodecH265 <==> b && !a && !c)
      && (H26xVerify(d) == CodecH266 <==> c && !a && !b)
      && (H26xVerify(d) == CodecMpeg4 <==>
            HasMpeg4(d) && !(a && !b && !c) && !(b && !a && !c) && !(c && !a && !b))
  {
    hide Heads, Has264, Has265, Has266, HasMpeg4, Types264, Types265, Types266;
    TypesFound(d);
    Mpeg4Found(d);
    var hs := Heads(d, 10);
    assert {5, 7, 8} <= Types264(hs) <==> 5 in Types264(hs) && 7 in Types264(hs) && 8 in Types264(hs);
    assert {32, 33, 34} <= Types265(hs) <==> 32 in Types265(hs) && 33 in Types265(hs) && 34 in Types265(hs);
    assert {14, 15} <= Types266(hs) <==> 14 in Types266(hs) && 15 in Types266(hs);
  }

  lemma Mpeg4Found(d: seq<byte>)
    ensures var hs := Heads(d, 10);
      HasMpeg4(d) <==> hs != [] && hs[0].0 == 0xB0 && (hs[0].1 / 16) % 4 == 0
  {
    hide HeadsAt, Heads, CountBefore;
    TenUnits(d);
    var ps := HeadsAt(d, 0, 10);
    if ps != [] {
      assert ps[0] in ps;
    }
    forall q: nat | Behind001(d, q) && CountBefore(d, q) == 0
      ensures q in ps && q == ps[0]
    {
      assert AmongTen(d, q);
    }
  }

  // ----- what the demuxer makes of it -----

  /** A stream that no map has announced: the first packet of stream id 0xE0 that shows its codec files the stream under
      it, with all that packet held, and a packet with another time gives the units of the first one out. */
  lemma FiledByGuess(st: State, p: Pes, cid: nat)
    requires p.id == 0xE0 && 0xE0 !in st.streams && st.verify == [] && p.pts.Stamp? && p.pts.ticks > 0
    requires (cid == 0x1B && H26xVerify(p.payload) == CodecH264) || (cid == 0x24 && H26xVerify(p.payload) == CodecH265)
    ensures var dts := match p.dts case Stamp(t) => t case NoStamp => p.pts.ticks;
      Deliver(st, p) == Some(st.(pts := p.pts.ticks, verify := p.payload,
                                 streams := st.streams[0xE0 := Stream(cid, p.pts.ticks, dts, p.payload)]))
  {
    hide H26xVerify;
    assert [] + p.payload == p.payload;
    assert st.out + [] == st.out;
  }

  /** A PES packet of stream id 0xE0 with a time of its own, and nothing behind it. */
  ghost predicate Packet(d: seq<byte>) {
    && |d| >= 9 && d[0] == 0 && d[1] == 0 && d[2] == 1 && d[3] == 0xE0
    && ParsePes(d).Done? && ParsePes(d).len == |d|
    && ParsePes(d).value.pts.Stamp? && ParsePes(d).value.pts.ticks > 0
  }

  lemma PacketCode(d: seq<byte>)
    requires Packet(d)
    ensures IsPes(U32(d, 0)) && !Skipped(U32(d, 0)) && ParsePes(d).value.id == 0xE0
  {
    hide OptionalBits, PesPts, PesDts, PayloadLength;
    assert U32(d, 0) == 0x1E0;
  }

  /** Calls of Input with two such packets, no map having been seen, of which the first shows its codec: the stream is
      filed under that codec, and the units of the first packet come out under it. */
  lemma GuessedComesOut(st: State, d1: seq<byte>, d2: seq<byte>, cid: nat)
    requires Packet(d1) && Packet(d2) && !st.mpeg1 && 0xE0 !in st.streams && st.verify == []
    requires ParsePes(d1).value.pts != ParsePes(d2).value.pts && !Truncated(ParsePes(d1).value.payload)
    requires var payload := ParsePes(d1).value.payload;
      var a := Has264(payload, 5) && Has264(payload, 7) && Has264(payload, 8);
      var b := Has265(payload, 32) && Has265(payload, 33) && Has265(payload, 34);
      var c := Has266(payload, 14) && Has266(payload, 15);
      (cid == 0x1B && a && !b && !c) || (cid == 0x24 && b && !a && !c)
    ensures var p1, r := ParsePes(d1).value, InputAll(Demux(st, []), [d1, d2]);
      var dts := match p1.dts case Stamp(t) => t case NoStamp => p1.pts.ticks;
      && r.Reply? && r.err == Nil && 0xE0 in r.demux.st.streams && r.demux.st.streams[0xE0].cid == cid
      && Bounded(p1.payload, AllUnits(p1.payload))
      && r.demux.st.out == st.out + Emitted(p1.payload, AllUnits(p1.payload), cid, p1.pts.ticks, dts)
  {
    hide ParsePes, Has264, Has265, Has266, U32, IsPes, Skipped, Run, H26xVerify, Truncated, Emitted, AllUnits, Packet;
    PacketParts(d1);
    PacketParts(d2);
    PacketCode(d1);
    PacketCode(d2);
    var p1, p2 := ParsePes(d1).value, ParsePes(d2).value;
    GuessByBytes(p1.payload);
    FiledByGuess(st, p1, cid);
    var st1 := Deliver(st, p1).value;
    OnlyPacket(st, d1);
    Bounds(p1.payload);
    NextTime(st1, p2, cid);
    hide Deliver;
    OnlyPacket(st1, d2);
    assert [] + d1 == d1 && [] + d2 == d2 && [d1, d2][1..] == [d2];
  }

  lemma PacketParts(d: seq<byte>)
    requires Packet(d)
    ensures |d| >= 9 && ParsePes(d).Done? && ParsePes(d).len == |d|
    ensures ParsePes(d).value.pts.Stamp? && ParsePes(d).value.pts.ticks > 0
  {
    hide ParsePes;
  }

  /** A packet with another time, for a stream that holds a whole frame. */
  lemma NextTime(st: State, p: Pes, cid: nat)
    requires p.id == 0xE0 && 0xE0 in st.streams && (cid == 0x1B || cid == 0x24) && p.pts.Stamp? && p.pts.ticks > 0
    requires var s := st.streams[0xE0];
      s.cid == cid && s.pts > 0 && s.pts != p.pts.ticks && !Truncated(s.buf)
    ensures var s, r := st.streams[0xE0], Deliver(st, p);
      && r.Some? && 0xE0 in r.value.streams && r.value.streams[0xE0].cid == cid && Bounded(s.buf, AllUnits(s.buf))
      && r.value.out == st.out + Emitted(s.buf, AllUnits(s.buf), cid, s.pts, s.dts)
  {
    hide Truncated, Emitted, AllUnits;
    Bounds(st.streams[0xE0].buf);
  }

  /** What is collected for the guess: all payloads of the stream as long as they are at most 256 bytes, after which it
      starts again with the next one. */
  lemma CollectedForGuess(st: State, p: Pes)
    requires p.id == 0xE0 && 0xE0 !in st.streams && Deliver(st, p).Some?
    ensures Deliver(st, p).value.verify == if |st.verify| <= 256 then st.verify + p.payload else p.payload
  {
    hide H26xVerify;
    assert [] + p.payload == p.payload;
  }

  /** Audio of stream id 0xC0 that no map announces, once a video stream is known: AAC if it begins with the syncword
      of an ADTS frame whose 13-bit length is that of the packet, else G.711; it comes out at once. Before, and for
      any other unknown id, nothing happens. */
  lemma AudioGuess(st: State, p: Pes)
    requires p.id !in st.streams && p.id != 0xE0
    requires p.id == 0xC0 && 0xE0 in st.streams ==> p.payload != [] && (p.payload[0] == 0xFF ==> |p.payload| >= 2)
    ensures var d := p.payload;
      var pts := match p.pts case Stamp(t) => t case NoStamp => st.pts;
      var dts := match p.dts case Stamp(t) => t case NoStamp => pts;
      if p.id == 0xC0 && 0xE0 in st.streams then
        var aac := |d| > 7 && d[0] == 0xFF && d[1] >= 0xF0 && BitsVal(d, 30, 13) == |d|;
        var cid := if aac then 0x0F else 0x90;
        Deliver(st, p) == Some(st.(pts := pts, streams := st.streams[0xC0 := Stream(cid, 0, 0, [])],
                                   out := st.out + [Frame(d, cid, pts / 90, dts / 90)]))
      else Deliver(st, p) == Some(st.(pts := pts))
  {
    hide BitsVal;
    if p.id == 0xC0 && |p.payload| > 7 {
      AdtsBits(p.payload);
    }
  }

  lemma AdtsBits(d: seq<byte>)
    requires |d| > 7
    ensures BitsVal(d, 30, 13) == AdtsLength(d)
  {
    hide BitsVal, Pow2;
    ThreeParts(d);
    BitsConcat(d, 30, 2, 11);
    BitsConcat(d, 32, 8, 3);
    Pow2Values();
    Pow2Add(8, 3);
  }

  lemma ThreeParts(d: seq<byte>)
    requires |d| > 7
    ensures BitsVal(d, 30, 2) == d[3] as int % 4 && BitsVal(d, 32, 8) == d[4] as int
    ensures BitsVal(d, 40, 3) == d[5] as int / 32
  {
    hide BitsVal, Pow2;
    Pow2Values();
    BitsInByte(d, 3, 6, 2);
    BitsByte(d, 4);
    BitsInByte(d, 5, 0, 3);
  }

  /** The sequence and picture parameter set and IDR slice of an H.264 stream: the shortest case. */
  lemma GuessHere()
    ensures H26xVerify([0, 0, 1, 0x67, 0x42, 0, 0, 1, 0x68, 0xCE, 0, 0, 1, 0x65, 0x88]) == CodecH264
  {
    hide CountBefore, H26xVerify;
    var d: seq<byte> := [0, 0, 1, 0x67, 0x42, 0, 0, 1, 0x68, 0xCE, 0, 0, 1, 0x65, 0x88];
    ThreeUnits(d);
    Three264(d);
    ThreeOthers(d);
    GuessByBytes(d);
  }

  lemma ThreeUnits(d: seq<byte>)
    requires d == [0, 0, 1, 0x67, 0x42, 0, 0, 1, 0x68, 0xCE, 0, 0, 1, 0x65, 0x88]
    ensures forall q: nat :: AmongTen(d, q) <==> q == 3 || q == 8 || q == 13
  {
    hide CountBefore;
    assert forall q: nat :: Behind001(d, q) <==> q == 3 || q == 8 || q == 13;
    NoneCounted(d);
    CountSame(d, 0, 3);
    CountStep(d, 3);
    CountSame(d, 4, 8);
    CountStep(d, 8);
    CountSame(d, 9, 13);
  }

  lemma Three264(d: seq<byte>)
    requires d == [0, 0, 1, 0x67, 0x42, 0, 0, 1, 0x68, 0xCE, 0, 0, 1, 0x65, 0x88]
    requires forall q: nat :: AmongTen(d, q) <==> q == 3 || q == 8 || q == 13
    ensures Has264(d, 5) && Has264(d, 7) && Has264(d, 8)
  {
    hide AmongTen;
    assert AmongTen(d, 3) && AmongTen(d, 8) && AmongTen(d, 13);
    assert d[3] as int % 32 == 7 && d[8] as int % 32 == 8 && d[13] as int % 32 == 5;
  }

  lemma ThreeOthers(d: seq<byte>)
    requires d == [0, 0, 1, 0x67, 0x42, 0, 0, 1, 0x68, 0xCE, 0, 0, 1, 0x65, 0x88]
    requires forall q: nat :: AmongTen(d, q) <==> q == 3 || q == 8 || q == 13
    ensures !Has265(d, 32) && !Has266(d, 14)
  {
    hide AmongTen;
  }
}
