/** The HEVC packetizer for Safari of rtc/packer.go: a frame is cut into fragments of nearly equal size, each with
    a one-byte header, and the packets are numbered modulo 2^16.
 */
module SafariPacker {
  import opened Bytes
  import opened Wrappers

  const MAX_PAYLOAD_SIZE: nat := 1200

  function SplitNum(len: nat): (n: nat)
    ensures n > 0
  {
    len / MAX_PAYLOAD_SIZE + 1
  }

  /** The size of the shorter fragments. */
  function Reference(len: nat): nat {
    len / SplitNum(len)
  }

  function Remainder(len: nat): nat {
    len % SplitNum(len)
  }

  /** The header byte: whether the frame is a key frame, and whether this is its first fragment. */
  function Flag(keyFrame: bool, first: bool): byte {
    if keyFrame then (if first then 3 else 1) else (if first then 2 else 0)
  }

  /** How much of a frame the fragments cover: all of it if its length divides evenly, else all but the last byte,
      because only i < remainder, and not i <= remainder, gives a fragment its extra byte. */
  function Covered(len: nat): (n: nat)
    ensures n <= len
  {
    if Remainder(len) == 0 then len else len - 1
  }

  /** The body of a fragment. */
  function Body(p: seq<byte>): seq<byte> {
    if p == [] then [] else p[1..]
  }

  function Bodies(ps: seq<seq<byte>>): seq<byte> {
    if ps == [] then [] else Bodies(ps[..|ps| - 1]) + Body(ps[|ps| - 1])
  }

  /** Where the fragment k begins. */
  function Start(len: nat, k: nat): int
    requires k <= SplitNum(len)
  {
    k * Reference(len) + Longer(len, k)
  }

  /** How many of the first k fragments have an extra byte. */
  function Longer(len: nat, k: nat): (x: nat)
    requires k <= SplitNum(len)
  {
    if k + Remainder(len) > SplitNum(len) + 1 then k + Remainder(len) - SplitNum(len) - 1 else 0
  }

  lemma StartStep(len: nat, k: nat)
    requires k < SplitNum(len)
    ensures Start(len, k + 1) == Start(len, k) + Reference(len) + if SplitNum(len) - k < Remainder(len) then 1 else 0
  {
    hide SplitNum, Reference, Remainder;
    assert (k + 1) * Reference(len) == k * Reference(len) + Reference(len);
  }

  lemma StartEnd(len: nat)
    ensures Start(len, 0) == 0 && Start(len, SplitNum(len)) == Covered(len)
  {
    hide SplitNum;
    var n := SplitNum(len);
    assert len == n * (len / n) + len % n && len % n < n;
    assert 0 * Reference(len) == 0;
  }

  /** Every fragment lies inside the frame. */
  lemma StartInside(len: nat, k: nat)
    requires k <= SplitNum(len)
    ensures 0 <= Start(len, k) <= Covered(len)
  {
    hide SplitNum, Reference, Remainder;
    StartEnd(len);
    MulMono(k, SplitNum(len), Reference(len));
    MulMono(0, k, Reference(len));
  }

  /** A fragment has at most as many bytes as a packet may carry. */
  lemma SizeBound(len: nat)
    ensures Reference(len) < MAX_PAYLOAD_SIZE
  {
    var n := SplitNum(len);
    var q := len / n;
    assert q * n <= len < MAX_PAYLOAD_SIZE * n;
    if q >= MAX_PAYLOAD_SIZE {
      MulMono(MAX_PAYLOAD_SIZE, q, n);
    }
  }

  /** Fragments are adjacent slices of the frame in order, with sizes that differ by one at most. */
  method DoPacketNaluForSafariHevc(nalu: seq<byte>, keyFrame: bool) returns (rtpPayloads: seq<seq<byte>>)
    ensures |rtpPayloads| == SplitNum(|nalu|) && Bodies(rtpPayloads) == nalu[..Covered(|nalu|)]
    ensures forall k :: 0 <= k < |rtpPayloads| ==>
      && rtpPayloads[k] != [] && rtpPayloads[k][0] == Flag(keyFrame, k == 0)
      && Reference(|nalu|) <= |Body(rtpPayloads[k])| <= Reference(|nalu|) + 1
      && |Body(rtpPayloads[k])| <= MAX_PAYLOAD_SIZE
  {
    hide Covered, Start, Bodies;
    rtpPayloads := [];
    var naluLen := |nalu|;
    var splitNum := naluLen / MAX_PAYLOAD_SIZE + 1;
    var remainder := naluLen % splitNum;
    var referenceLen := naluLen / splitNum;
    var dataPos := 0;
    assert splitNum == SplitNum(naluLen) && remainder == Remainder(naluLen) && referenceLen == Reference(naluLen);
    hide SplitNum, Reference, Remainder;
    SizeBound(naluLen);
    StartEnd(naluLen);
    NoBodies();
    var i := splitNum;
    while i > 0
      invariant 0 <= i <= splitNum && |rtpPayloads| == splitNum - i
      invariant dataPos == Start(naluLen, splitNum - i) && 0 <= dataPos <= naluLen
      invariant Bodies(rtpPayloads) == nalu[..dataPos]
      invariant forall k :: 0 <= k < |rtpPayloads| ==> Fragment(rtpPayloads[k], Flag(keyFrame, k == 0), referenceLen)
    {
      var tmpLen := referenceLen;
      if i < remainder {
        tmpLen := tmpLen + 1;
      }
      var first: byte := if keyFrame then (if i == splitNum then 3 else 1) else if i == splitNum then 2 else 0;
      StartStep(naluLen, splitNum - i);
      StartInside(naluLen, splitNum - i + 1);
      var buf := [first] + nalu[dataPos..dataPos + tmpLen];
      OneMore(rtpPayloads, first, nalu[dataPos..dataPos + tmpLen]);
      assert nalu[..dataPos] + nalu[dataPos..dataPos + tmpLen] == nalu[..dataPos + tmpLen];
      dataPos := dataPos + tmpLen;
      rtpPayloads := rtpPayloads + [buf];
      i := i - 1;
    }
  }

  ghost predicate Fragment(p: seq<byte>, flag: byte, size: nat) {
    p != [] && p[0] == flag && size <= |Body(p)| <= size + 1
  }

  lemma NoBodies()
    ensures Bodies([]) == []
  {}

  lemma OneMore(ps: seq<seq<byte>>, first: byte, body: seq<byte>)
    ensures Bodies(ps + [[first] + body]) == Bodies(ps) + body && Body([first] + body) == body
  {
    var p := [first] + body;
    assert (ps + [p])[..|ps|] == ps && p[1..] == body;
  }

  /** Fragmentation is lossless exactly for the lengths that divide evenly; for others the last byte is lost. */
  lemma Lossless(nalu: seq<byte>)
    ensures nalu[..Covered(|nalu|)] == nalu <==> Remainder(|nalu|) == 0
    ensures |nalu| < MAX_PAYLOAD_SIZE ==> nalu[..Covered(|nalu|)] == nalu
  {
    if |nalu| < MAX_PAYLOAD_SIZE {
      assert SplitNum(|nalu|) == 1;
    }
  }

  /** The shortest frames that lose their last byte. */
  lemma LosesLastByte(nalu: seq<byte>)
    requires |nalu| == 1201
    ensures nalu[..Covered(|nalu|)] == nalu[..1200]
  {
    assert SplitNum(1201) == 2;
  }

  // ----- packets -----

  datatype RtpPacket = RtpPacket(sequenceNumber: nat, marker: bool, timestamp: nat, payload: seq<byte>)

  datatype Outcome = Packed(pkts: seq<RtpPacket>) | PacketizeFailed

  const SEI: nat := 39

  function NaluType(b: byte): nat {
    (b / 2) % 64
  }

  predicate IsIrap(t: nat) {
    16 <= t <= 23
  }

  const START_CODE: seq<byte> := [0, 0, 0, 1]

  /** The parameter sets that go in front of every random access unit. */
  datatype ParameterSets = ParameterSets(vps: seq<byte>, sps: seq<byte>, pps: seq<byte>)

  predicate NoneEmpty(nals: seq<seq<byte>>) {
    forall i :: 0 <= i < |nals| ==> nals[i] != []
  }

  /** The bytes to be fragmented for the NAL units of a frame: supplemental information is dropped. */
  function AnnexB(ps: ParameterSets, nals: seq<seq<byte>>): seq<byte>
    requires NoneEmpty(nals)
  {
    if nals == [] then []
    else
      var nal := nals[|nals| - 1];
      var t := NaluType(nal[0]);
      AnnexB(ps, nals[..|nals| - 1])
      + if t == SEI then []
        else
          (if IsIrap(t) then START_CODE + ps.vps + START_CODE + ps.sps + START_CODE + ps.pps else [])
          + START_CODE + nal
  }

  // ----- the same by type numbers and offsets -----

  /** How many bytes a NAL unit adds, by its type number: nothing for type 39; three parameter sets in front of types 16
      to 23; each with a start code of four bytes. */
  function UnitSize(sets: ParameterSets, nal: seq<byte>): nat
    requires nal != []
  {
    var t := nal[0] as int / 2 % 64;
    if t == 39 then 0
    else (if 16 <= t <= 23 then 4 + |sets.vps| + 4 + |sets.sps| + 4 + |sets.pps| else 0) + 4 + |nal|
  }

  /** Where the i-th unit begins. */
  function Offset(sets: ParameterSets, nals: seq<seq<byte>>, i: nat): nat
    requires NoneEmpty(nals) && i <= |nals|
  {
    if i == 0 then 0 else Offset(sets, nals, i - 1) + UnitSize(sets, nals[i - 1])
  }

  ghost predicate UnitLaid(out: seq<byte>, o: nat, sets: ParameterSets, nal: seq<byte>)
    requires nal != []
  {
    var t := nal[0] as int / 2 % 64;
    && o + UnitSize(sets, nal) <= |out|
    && (16 <= t <= 23 ==>
          out[o..o + UnitSize(sets, nal)]
          == [0, 0, 0, 1] + sets.vps + [0, 0, 0, 1] + sets.sps + [0, 0, 0, 1] + sets.pps + [0, 0, 0, 1] + nal)
    && (t != 39 && !(16 <= t <= 23) ==> out[o..o + UnitSize(sets, nal)] == [0, 0, 0, 1] + nal)
  }

  /** These are the bytes of the frame, unit by unit and nothing else. */
  ghost predicate LaidOut(out: seq<byte>, sets: ParameterSets, nals: seq<seq<byte>>)
    requires NoneEmpty(nals)
  {
    && |out| == Offset(sets, nals, |nals|)
    && forall i :: 0 <= i < |nals| ==> UnitLaid(out, Offset(sets, nals, i), sets, nals[i])
  }

  lemma {:induction false} OffsetPrefix(sets: ParameterSets, nals: seq<seq<byte>>, n: nat, i: nat)
    requires NoneEmpty(nals) && i <= n <= |nals|
    ensures Offset(sets, nals[..n], i) == Offset(sets, nals, i)
    decreases i
  {
    hide UnitSize;
    if i > 0 {
      OffsetPrefix(sets, nals, n, i - 1);
    }
  }

  lemma {:induction false} OffsetGrows(sets: ParameterSets, nals: seq<seq<byte>>, i: nat, k: nat)
    requires NoneEmpty(nals) && i <= k <= |nals|
    ensures Offset(sets, nals, i) <= Offset(sets, nals, k)
    decreases k
  {
    hide UnitSize;
    if i < k {
      OffsetGrows(sets, nals, i, k - 1);
    }
  }

  lemma {:induction false} AnnexBLaid(sets: ParameterSets, nals: seq<seq<byte>>)
    requires NoneEmpty(nals)
    ensures LaidOut(AnnexB(sets, nals), sets, nals)
    decreases |nals|
  {
    hide AnnexB, UnitSize, UnitLaid, Offset;
    if nals == [] {
      NothingLaid(sets);
    } else {
      var n := |nals| - 1;
      var rest := nals[..n];
      AnnexBLaid(sets, rest);
      OffsetPrefix(sets, nals, n, n);
      OneUnitMore(sets, nals);
      forall i | 0 <= i < n
        ensures UnitLaid(AnnexB(sets, nals), Offset(sets, nals, i), sets, nals[i])
      {
        OffsetPrefix(sets, nals, n, i);
        assert rest[i] == nals[i];
        LaidBefore(AnnexB(sets, rest), AnnexB(sets, nals), Offset(sets, nals, i), sets, nals[i]);
      }
    }
  }

  lemma NothingLaid(sets: ParameterSets)
    ensures AnnexB(sets, []) == [] && Offset(sets, [], 0) == 0
  {}

  lemma LaidBefore(out: seq<byte>, more: seq<byte>, o: nat, sets: ParameterSets, nal: seq<byte>)
    requires nal != [] && out <= more && UnitLaid(out, o, sets, nal)
    ensures UnitLaid(more, o, sets, nal)
  {
    hide UnitSize;
    assert out[o..o + UnitSize(sets, nal)] == more[o..o + UnitSize(sets, nal)];
  }

  lemma OneUnitMore(sets: ParameterSets, nals: seq<seq<byte>>)
    requires nals != [] && NoneEmpty(nals)
    requires |AnnexB(sets, nals[..|nals| - 1])| == Offset(sets, nals, |nals| - 1)
    ensures var n := |nals| - 1;
      && AnnexB(sets, nals[..n]) <= AnnexB(sets, nals) && |AnnexB(sets, nals)| == Offset(sets, nals, |nals|)
      && UnitLaid(AnnexB(sets, nals), Offset(sets, nals, n), sets, nals[n])
  {
    var n := |nals| - 1;
    var before, all := AnnexB(sets, nals[..n]), AnnexB(sets, nals);
    assert all[|before|..] == all[|before|..|all|];
  }

  /** A frame is laid out in one way only. */
  lemma {:induction false} LaidOnce(out: seq<byte>, out': seq<byte>, sets: ParameterSets, nals: seq<seq<byte>>)
    requires NoneEmpty(nals) && LaidOut(out, sets, nals) && LaidOut(out', sets, nals)
    ensures out == out'
    decreases |nals|
  {
    hide UnitSize, UnitLaid, Offset;
    if nals == [] {
      NothingLaid(sets);
    } else {
      var n := |nals| - 1;
      var o := Offset(sets, nals, n);
      OffsetPrefix(sets, nals, n, n);
      OffsetStep(sets, nals, n);
      forall i | 0 <= i < n
        ensures UnitLaid(out[..o], Offset(sets, nals[..n], i), sets, nals[i])
        ensures UnitLaid(out'[..o], Offset(sets, nals[..n], i), sets, nals[i])
      {
        OffsetPrefix(sets, nals, n, i);
        OffsetStep(sets, nals, i);
        OffsetGrows(sets, nals, i + 1, n);
        LaidInside(out, o, Offset(sets, nals, i), sets, nals[i]);
        LaidInside(out', o, Offset(sets, nals, i), sets, nals[i]);
      }
      LaidOnce(out[..o], out'[..o], sets, nals[..n]);
      LaidSame(out, out', o, sets, nals[n]);
      assert out == out[..o] + out[o..] && out' == out'[..o] + out'[o..];
    }
  }

  lemma OffsetStep(sets: ParameterSets, nals: seq<seq<byte>>, i: nat)
    requires NoneEmpty(nals) && i < |nals|
    ensures Offset(sets, nals, i + 1) == Offset(sets, nals, i) + UnitSize(sets, nals[i])
  {
    hide UnitSize;
  }

  lemma LaidInside(out: seq<byte>, end: nat, o: nat, sets: ParameterSets, nal: seq<byte>)
    requires nal != [] && end <= |out| && o + UnitSize(sets, nal) <= end && UnitLaid(out, o, sets, nal)
    ensures UnitLaid(out[..end], o, sets, nal)
  {
    hide UnitSize;
    assert out[..end][o..o + UnitSize(sets, nal)] == out[o..o + UnitSize(sets, nal)];
  }

  lemma LaidSame(out: seq<byte>, out': seq<byte>, o: nat, sets: ParameterSets, nal: seq<byte>)
    requires nal != [] && UnitLaid(out, o, sets, nal) && UnitLaid(out', o, sets, nal)
    requires |out| == |out'| == o + UnitSize(sets, nal)
    ensures out[o..] == out'[o..]
  {
    assert out[o..] == out[o..|out|] && out'[o..] == out'[o..|out'|];
  }

  /** All units are supplemental information. */
  ghost predicate NothingToSend(nals: seq<seq<byte>>)
    requires NoneEmpty(nals)
  {
    forall k :: 0 <= k < |nals| ==> nals[k][0] as int / 2 % 64 == 39
  }

  /** There is a random access unit in the frame. */
  ghost predicate KeyFrame(nals: seq<seq<byte>>)
    requires NoneEmpty(nals)
  {
    exists k :: 0 <= k < |nals| && 16 <= nals[k][0] as int / 2 % 64 <= 23
  }

  /** The packets of a frame in plain numbers: its bytes but for the last one if they do not divide evenly, in fragments
      of at most 1200 bytes, each behind a byte that says whether it is of a key frame and whether it is the first. */
  ghost predicate Sent(pkts: seq<RtpPacket>, sets: ParameterSets, nals: seq<seq<byte>>)
    requires NoneEmpty(nals)
  {
    exists out: seq<byte> :: LaidOut(out, sets, nals) && CutUp(pkts, out, KeyFrame(nals))
  }

  ghost predicate CutUp(pkts: seq<RtpPacket>, out: seq<byte>, key: bool) {
    var count := |out| / 1200 + 1;
    && |pkts| == count
    && Bodies(PayloadsOf(pkts)) == (if |out| % count == 0 then out else out[..|out| - 1])
    && forall i :: 0 <= i < |pkts| ==>
         && 0 < |pkts[i].payload| <= 1201
         && pkts[i].payload[0] == (if key then 1 else 0) + (if i == 0 then 2 else 0)
  }

  predicate HasIrap(nals: seq<seq<byte>>)
    requires NoneEmpty(nals)
  {
    exists i :: 0 <= i < |nals| && IsIrap(NaluType(nals[i][0]))
  }

  /** Numbered from `from` on modulo 2^16, with the marker on the last packet only. */
  predicate Numbered(pkts: seq<RtpPacket>, from: nat) {
    forall i :: 0 <= i < |pkts| ==>
      pkts[i].sequenceNumber == (from + i) % 0x1_0000 && (pkts[i].marker <==> i == |pkts| - 1)
  }

  function PayloadsOf(pkts: seq<RtpPacket>): (ps: seq<seq<byte>>)
    ensures |ps| == |pkts| && forall i :: 0 <= i < |ps| ==> ps[i] == pkts[i].payload
  {
    seq(|pkts|, i requires 0 <= i < |pkts| => pkts[i].payload)
  }

  class SafariHEVCRtpEncoder {
    const sets: ParameterSets
    var seqId: nat
    var tsBase: int

    constructor (sets: ParameterSets, seqId: nat)
      requires seqId < 0x1_0000
      ensures this.sets == sets && this.seqId == seqId && tsBase == -1
    {
      this.sets, this.seqId, tsBase := sets, seqId, -1;
    }

    method ToAnnexB(nals: seq<seq<byte>>) returns (out: seq<byte>, keyFrame: bool)
      requires NoneEmpty(nals)
      ensures out == AnnexB(sets, nals) && keyFrame == HasIrap(nals)
    {
      out, keyFrame := [], false;
      for i := 0 to |nals|
        invariant out == AnnexB(sets, nals[..i]) && keyFrame == HasIrap(nals[..i])
      {
        var nal := nals[i];
        var t := NaluType(nal[0]);
        assert nals[..i + 1][..i] == nals[..i] && nals[..i + 1] == nals[..i] + [nal];
        if t == SEI {
          assert out + [] == out;
          continue;
        }
        ghost var before := out;
        var headers: seq<byte> := [];
        if IsIrap(t) {
          keyFrame := true;
          headers := START_CODE + sets.vps + START_CODE + sets.sps + START_CODE + sets.pps;
        }
        out := out + (headers + START_CODE + nal);
      }
      assert nals[..|nals|] == nals;
    }

    /** `found` are the NAL units that lal's iteration over the message finds, None if it fails; an empty one
        makes the program panic. */
    method Encode(dts: nat, found: Option<seq<seq<byte>>>) returns (r: Outcome)
      requires dts < 0x1_0000_0000 && seqId < 0x1_0000 && (found.Some? ==> NoneEmpty(found.value))
      modifies this
      ensures seqId < 0x1_0000 && tsBase == (if old(tsBase) == -1 then dts else old(tsBase))
      ensures r == PacketizeFailed <==> found == None || AnnexB(sets, found.value) == []
      ensures r == PacketizeFailed ==> seqId == old(seqId)
      ensures r.Packed? ==>
        var nals := found.value;
        var out := AnnexB(sets, nals);
        && r.pkts != [] && Numbered(r.pkts, old(seqId)) && seqId == (old(seqId) + |r.pkts|) % 0x1_0000
        && Bodies(PayloadsOf(r.pkts)) == out[..Covered(|out|)]
        && forall i :: 0 <= i < |r.pkts| ==>
          && r.pkts[i].payload != [] && r.pkts[i].payload[0] == Flag(HasIrap(nals), i == 0)
          && |r.pkts[i].payload| <= MAX_PAYLOAD_SIZE + 1
          && r.pkts[i].timestamp == ((dts - tsBase) * 90) % 0x1_0000_0000
      ensures r.Packed? ==> Sent(r.pkts, sets, found.value)
      ensures r == PacketizeFailed <==>
        found == None || NothingToSend(found.value)
    {
      hide AnnexB, HasIrap, Covered, Bodies, NoneEmpty, Reference, LaidOut, Sent, CutUp, KeyFrame, NothingToSend;
      if tsBase == -1 {
        tsBase := dts;
      }
      if found == None {
        return PacketizeFailed;
      }
      var out, keyFrame := ToAnnexB(found.value);
      AnnexBLaid(sets, found.value);
      OnlyInformation(sets, found.value, out);
      if |out| == 0 {
        return PacketizeFailed;
      }
      var payloads := DoPacketNaluForSafariHevc(out, keyFrame);
      var pkts := NumberPackets(payloads, ((dts - tsBase) * 90) % 0x1_0000_0000);
      assert PayloadsOf(pkts) == payloads;
      SentWhole(pkts, out, sets, found.value);
      return Packed(pkts);
    }

    /** The loop that makes a packet of every payload. */
    method NumberPackets(payloads: seq<seq<byte>>, timestamp: nat) returns (pkts: seq<RtpPacket>)
      requires seqId < 0x1_0000
      modifies this`seqId
      ensures seqId == (old(seqId) + |pkts|) % 0x1_0000
      ensures Numbered(pkts, old(seqId)) && |pkts| == |payloads|
      ensures forall i :: 0 <= i < |pkts| ==> pkts[i].payload == payloads[i] && pkts[i].timestamp == timestamp
    {
      pkts := [];
      for i := 0 to |payloads|
        invariant seqId == (old(seqId) + i) % 0x1_0000 && |pkts| == i
        invariant forall k :: 0 <= k < i ==>
          && pkts[k] == RtpPacket((old(seqId) + k) % 0x1_0000, k == |payloads| - 1, timestamp, payloads[k])
      {
        var marker := i == |payloads| - 1;
        pkts := pkts + [RtpPacket(seqId, marker, timestamp, payloads[i])];
        NextNumber(old(seqId) + i);
        seqId := (seqId + 1) % 0x1_0000;
      }
    }
  }

  /** Nothing is to be sent exactly if all units are supplemental information. */
  lemma OnlyInformation(sets: ParameterSets, nals: seq<seq<byte>>, out: seq<byte>)
    requires NoneEmpty(nals) && LaidOut(out, sets, nals)
    ensures out == [] <==> NothingToSend(nals)
  {
    hide UnitLaid, Offset;
    if k :| 0 <= k < |nals| && nals[k][0] as int / 2 % 64 != 39 {
      OffsetStep(sets, nals, k);
      OffsetGrows(sets, nals, k + 1, |nals|);
    } else {
      AllDropped(sets, nals, |nals|);
    }
  }

  lemma {:induction false} AllDropped(sets: ParameterSets, nals: seq<seq<byte>>, n: nat)
    requires NoneEmpty(nals) && n <= |nals| && NothingToSend(nals)
    ensures Offset(sets, nals, n) == 0
    decreases n
  {
    if n > 0 {
      AllDropped(sets, nals, n - 1);
    }
  }

  lemma SentWhole(pkts: seq<RtpPacket>, out: seq<byte>, sets: ParameterSets, nals: seq<seq<byte>>)
    requires NoneEmpty(nals) && LaidOut(out, sets, nals) && |pkts| == SplitNum(|out|)
    requires Bodies(PayloadsOf(pkts)) == out[..Covered(|out|)]
    requires forall i :: 0 <= i < |pkts| ==>
      && pkts[i].payload != [] && pkts[i].payload[0] == Flag(HasIrap(nals), i == 0)
      && |pkts[i].payload| <= MAX_PAYLOAD_SIZE + 1
    ensures Sent(pkts, sets, nals)
  {
    hide LaidOut, Bodies, PayloadsOf;
    assert HasIrap(nals) <==> KeyFrame(nals);
    assert out[..|out|] == out;
    assert CutUp(pkts, out, KeyFrame(nals));
  }

  lemma NumberOn(n: nat, k: nat)
    ensures (n % 0x1_0000 + k) % 0x1_0000 == (n + k) % 0x1_0000
  {}

  lemma NextNumber(n: nat)
    ensures (n % 0x1_0000 + 1) % 0x1_0000 == (n + 1) % 0x1_0000
  {
    NumberOn(n, 1);
  }

  // ----- runs -----

  /** A message to be encoded. */
  datatype Call = Call(dts: nat, found: Option<seq<seq<byte>>>)

  predicate CallOk(c: Call) {
    c.dts < 0x1_0000_0000 && (c.found.Some? ==> NoneEmpty(c.found.value))
  }

  function PacketsOf(r: Outcome): seq<RtpPacket> {
    if r.Packed? then r.pkts else []
  }

  function AllPackets(rs: seq<Outcome>): seq<RtpPacket> {
    if rs == [] then [] else AllPackets(rs[..|rs| - 1]) + PacketsOf(rs[|rs| - 1])
  }

  /** Numbered without a gap modulo 2^16, from one message to the next. */
  predicate InSequence(pkts: seq<RtpPacket>, from: nat) {
    forall i :: 0 <= i < |pkts| ==> pkts[i].sequenceNumber == (from + i) % 0x1_0000
  }

  lemma SequenceOn(before: seq<RtpPacket>, pkts: seq<RtpPacket>, from: nat)
    requires InSequence(before, from) && InSequence(pkts, (from + |before|) % 0x1_0000)
    ensures InSequence(before + pkts, from)
  {
    var all := before + pkts;
    forall i | 0 <= i < |all|
      ensures all[i].sequenceNumber == (from + i) % 0x1_0000
    {
      if i >= |before| {
        NumberOn(from + |before|, i - |before|);
        assert all[i] == pkts[i - |before|];
      } else {
        assert all[i] == before[i];
      }
    }
  }

  /** The outcome of one call: nothing, or the fragments of the frame with the marker on the last packet, and the time
      since `base` in units of 1/90000 second. */
  ghost predicate Encodes(r: Outcome, c: Call, sets: ParameterSets, base: int)
    requires CallOk(c)
  {
    match r
    case PacketizeFailed => c.found == None || NothingToSend(c.found.value)
    case Packed(pkts) =>
      && c.found.Some? && pkts != [] && Sent(pkts, sets, c.found.value)
      && var out := AnnexB(sets, c.found.value);
      && Bodies(PayloadsOf(pkts)) == out[..Covered(|out|)]
      && forall i :: 0 <= i < |pkts| ==>
        && (pkts[i].marker <==> i == |pkts| - 1) && pkts[i].timestamp == ((c.dts - base) * 90) % 0x1_0000_0000
  }

  /** Calls of Encode one after the other: the packets of all messages together are numbered without a gap, and the
      times of all messages count from the first one. */
  method EncodeAll(enc: SafariHEVCRtpEncoder, calls: seq<Call>) returns (rs: seq<Outcome>)
    requires enc.seqId < 0x1_0000 && forall i :: 0 <= i < |calls| ==> CallOk(calls[i])
    modifies enc
    ensures |rs| == |calls| && InSequence(AllPackets(rs), old(enc.seqId))
    ensures enc.seqId == (old(enc.seqId) + |AllPackets(rs)|) % 0x1_0000
    ensures calls != [] ==>
      var base := if old(enc.tsBase) == -1 then calls[0].dts else old(enc.tsBase);
      forall i :: 0 <= i < |calls| ==> Encodes(rs[i], calls[i], enc.sets, base)
  {
    hide AnnexB, Bodies, Covered, HasIrap, NoneEmpty, InSequence, PayloadsOf, Encodes, AllPackets, After, Sent,
      NothingToSend;
    rs := [];
    ghost var from, start := enc.seqId, enc.tsBase;
    NoSequence(from);
    for n := 0 to |calls|
      invariant |rs| == n && enc.seqId == After(from, |AllPackets(rs)|)
      invariant InSequence(AllPackets(rs), from)
      invariant enc.tsBase == if n > 0 && start == -1 then calls[0].dts else start
      invariant forall i :: 0 <= i < n ==> Encodes(rs[i], calls[i], enc.sets, enc.tsBase)
    {
      ghost var before, at := rs, enc.seqId;
      var r := enc.Encode(calls[n].dts, calls[n].found);
      rs := rs + [r];
      CallEncoded(r, calls[n], enc.sets, enc.tsBase, at);
      OneMoreCall(before, r);
      AfterBoth(from, |AllPackets(before)|, |PacketsOf(r)|);
      SequenceOn(AllPackets(before), PacketsOf(r), from);
    }
    AfterBoth(from, |AllPackets(rs)|, 0);
  }

  /** The number behind n packets that start at `from`. */
  function After(from: nat, n: nat): (r: nat)
    ensures r < 0x1_0000
  {
    (from + n) % 0x1_0000
  }

  lemma AfterBoth(from: nat, n: nat, k: nat)
    ensures After(After(from, n), k) == After(from, n + k) == (After(from, n) + k) % 0x1_0000
    ensures After(from, n) == (from + n) % 0x1_0000
  {
    NumberOn(from + n, k);
  }

  lemma OneMoreCall(rs: seq<Outcome>, r: Outcome)
    ensures AllPackets(rs + [r]) == AllPackets(rs) + PacketsOf(r)
  {
    assert (rs + [r])[..|rs|] == rs;
  }

  lemma NoSequence(from: nat)
    ensures AllPackets([]) == [] && InSequence([], from) && (from < 0x1_0000 ==> After(from, 0) == from)
  {}

  /** What Encode promises, as it is used in a run. */
  lemma CallEncoded(r: Outcome, c: Call, sets: ParameterSets, base: int, at: nat)
    requires CallOk(c) && at < 0x1_0000
    requires r == PacketizeFailed <==> c.found == None || NothingToSend(c.found.value)
    requires r.Packed? ==>
      && r.pkts != [] && Sent(r.pkts, sets, c.found.value) && Numbered(r.pkts, at)
      && Bodies(PayloadsOf(r.pkts)) == AnnexB(sets, c.found.value)[..Covered(|AnnexB(sets, c.found.value)|)]
      && forall i :: 0 <= i < |r.pkts| ==> r.pkts[i].timestamp == ((c.dts - base) * 90) % 0x1_0000_0000
    ensures Encodes(r, c, sets, base) && InSequence(PacketsOf(r), at)
  {
    hide AnnexB, Bodies, Covered, NoneEmpty, PayloadsOf, Sent, NothingToSend;
  }
}
