/** What the muxer of gb28181/mpegps/ps_muxer.go makes of a frame, as functions and predicates. */
module MuxSpec {
  import opened Bytes
  import opened PsFormat
  import opened StartCodes
  import opened BitWriter
  import opened PackHeaders
  import opened SystemHeaders
  import opened StreamMaps
  import opened PesPackets

  /** The H.264 and H.265 access unit delimiters that are put in front of a frame without one. */
  const AUD_NALU_264: seq<byte> := [0x00, 0x00, 0x00, 0x01, 0x09, 0xF0]
  const AUD_NALU_265: seq<byte> := [0x00, 0x00, 0x00, 0x01, 0x46, 0x01, 0x50]

  const U64: nat := 0x1_0000_0000_0000_0000

  /** The streams announced by the system header and the map; `first` until a frame has been written. */
  datatype Mux = Mux(system: System, streams: PsFormat.StreamMap, first: bool)

  /** The muxer before any stream is added. */
  const NEW_MUX: Mux := Mux(System(26234, 0, 0, 0, 0, 0, 0, 0, []), PsFormat.StreamMap(1, 1, []), true)

  predicate IsVideo(kind: nat) {
    kind == STREAM_H264 || kind == STREAM_H265
  }

  // ----- streams -----

  /** AddStream: ids count up from 0xE0 for video and 0xC0 for anything else, in 8-bit arithmetic. */
  function AddStream(m: Mux, cid: nat): (r: (Mux, nat)) {
    var video := IsVideo(cid);
    var id := if video then (0xE0 + m.system.videoBound) % 256 else (0xC0 + m.system.audioBound) % 256;
    var bound := if video then StreamBound(id, 1, 400) else StreamBound(id, 0, 32);
    var system := m.system.(streams := m.system.streams + [bound]);
    var system := if video then system.(videoBound := (system.videoBound + 1) % 256)
                  else system.(audioBound := (system.audioBound + 1) % 256);
    var streams := m.streams.(entries := m.streams.entries + [MapEntry(cid % 256, id, 0)],
                              version := (m.streams.version + 1) % 256);
    (Mux(system, streams, m.first), id)
  }

  /** The first entry for the stream id. */
  function KindOf(es: seq<MapEntry>, sid: nat): (k: nat)
    requires exists e :: e in es && e.id == sid
  {
    if es[0].id == sid then es[0].kind else KindOf(es[1..], sid)
  }

  predicate Knows(es: seq<MapEntry>, sid: nat) {
    exists e :: e in es && e.id == sid
  }

  // ----- what kind of frame it is -----

  datatype Look = Look(aud: bool, idr: bool, vcl: bool)

  datatype Seen = Seen(look: Look) | EmptyNalu

  predicate IsVcl(kind: nat, t: nat) {
    if kind == STREAM_H264 then 1 <= t <= 5 else 16 <= t <= 23 || 0 <= t <= 9
  }

  predicate IsIdr(kind: nat, t: nat) {
    if kind == STREAM_H264 then t == 5 else 16 <= t <= 23
  }

  function TypeOf(kind: nat, b: byte): nat {
    if kind == STREAM_H264 then NaluType264(b) else NaluType265(b)
  }

  function AudType(kind: nat): nat {
    if kind == STREAM_H264 then AUD_H264 else AUD_H265
  }

  /** The NAL units up to the first delimiter or coded slice; an empty unit on the way is a panic. */
  function Scan(kind: nat, nalus: seq<seq<byte>>): Seen {
    if nalus == [] then Seen(Look(false, false, false))
    else if nalus[0] == [] then EmptyNalu
    else
      var t := TypeOf(kind, nalus[0][0]);
      if t == AudType(kind) then Seen(Look(true, false, false))
      else if IsVcl(kind, t) then Seen(Look(false, IsIdr(kind, t), true))
      else Scan(kind, nalus[1..])
  }

  function LookAt(kind: nat, frame: seq<byte>): Seen {
    if IsVideo(kind) then Scan(kind, Bodies(frame, AllUnits(frame))) else Seen(Look(false, false, false))
  }

  /** An access unit delimiter, by its first byte: type 9 of H.264, 35 of H.265. */
  predicate StartsDelimiter(kind: nat, b: int) {
    if kind == 0x1B then b % 32 == 9 else b / 2 % 64 == 35
  }

  /** A coded slice: types 1 to 5 of H.264, 0 to 9 and 16 to 23 of H.265. */
  predicate StartsSlice(kind: nat, b: int) {
    if kind == 0x1B then 1 <= b % 32 <= 5 else b / 2 % 64 <= 9 || 16 <= b / 2 % 64 <= 23
  }

  /** A slice of a random access picture: type 5 of H.264, 16 to 23 of H.265. */
  predicate StartsRandomAccess(kind: nat, b: int) {
    if kind == 0x1B then b % 32 == 5 else 16 <= b / 2 % 64 <= 23
  }

  predicate Telling(kind: nat, nalu: seq<byte>) {
    nalu != [] && (StartsDelimiter(kind, nalu[0] as int) || StartsSlice(kind, nalu[0] as int))
  }

  /** The i-th unit is the first delimiter or coded slice. */
  ghost predicate Decides(kind: nat, nalus: seq<seq<byte>>, i: nat) {
    i < |nalus| && Telling(kind, nalus[i]) && forall k :: 0 <= k < i ==> !Telling(kind, nalus[k])
  }

  ghost predicate DelimiterFirst(kind: nat, nalus: seq<seq<byte>>) {
    exists i: nat :: Decides(kind, nalus, i) && StartsDelimiter(kind, nalus[i][0] as int)
  }

  ghost predicate SliceFirst(kind: nat, nalus: seq<seq<byte>>) {
    exists i: nat :: Decides(kind, nalus, i) && StartsSlice(kind, nalus[i][0] as int)
  }

  ghost predicate RandomAccessFirst(kind: nat, nalus: seq<seq<byte>>) {
    exists i: nat :: Decides(kind, nalus, i) && StartsRandomAccess(kind, nalus[i][0] as int)
  }

  /** What is seen of a video frame, by the types of its units: the first delimiter or coded slice decides. */
  lemma {:induction false} ScanByTypes(kind: nat, nalus: seq<seq<byte>>)
    requires (kind == 0x1B || kind == 0x24) && Scan(kind, nalus).Seen?
    ensures var look := Scan(kind, nalus).look;
      && (look.aud <==> DelimiterFirst(kind, nalus)) && (look.vcl <==> SliceFirst(kind, nalus))
      && (look.idr <==> RandomAccessFirst(kind, nalus))
    decreases |nalus|
  {
    hide StartsDelimiter, StartsSlice, StartsRandomAccess, TypeOf, AudType, IsVcl, IsIdr, Decides, DelimiterFirst,
      SliceFirst, RandomAccessFirst;
    if nalus == [] {
      NothingDecides(kind);
    } else {
      TypesByByte(kind, nalus[0][0]);
      if Telling(kind, nalus[0]) {
        DecidesFirst(kind, nalus);
      } else {
        ScanByTypes(kind, nalus[1..]);
        DecidesLater(kind, nalus);
      }
    }
  }

  lemma TypesByByte(kind: nat, b: byte)
    requires kind == 0x1B || kind == 0x24
    ensures TypeOf(kind, b) == AudType(kind) <==> StartsDelimiter(kind, b as int)
    ensures IsVcl(kind, TypeOf(kind, b)) <==> StartsSlice(kind, b as int)
    ensures IsIdr(kind, TypeOf(kind, b)) <==> StartsRandomAccess(kind, b as int)
    ensures StartsRandomAccess(kind, b as int) ==> StartsSlice(kind, b as int)
    ensures !(StartsDelimiter(kind, b as int) && StartsSlice(kind, b as int))
  {}

  lemma NothingDecides(kind: nat)
    ensures !DelimiterFirst(kind, []) && !SliceFirst(kind, []) && !RandomAccessFirst(kind, [])
  {
    var none: seq<seq<byte>> := [];
    assert forall i: nat :: !Decides(kind, none, i);
  }

  lemma DecidesFirst(kind: nat, nalus: seq<seq<byte>>)
    requires nalus != [] && Telling(kind, nalus[0])
    ensures DelimiterFirst(kind, nalus) <==> StartsDelimiter(kind, nalus[0][0] as int)
    ensures SliceFirst(kind, nalus) <==> StartsSlice(kind, nalus[0][0] as int)
    ensures RandomAccessFirst(kind, nalus) <==> StartsRandomAccess(kind, nalus[0][0] as int)
  {
    hide Telling, StartsDelimiter, StartsSlice, StartsRandomAccess;
    assert Decides(kind, nalus, 0);
  }

  lemma DecidesLater(kind: nat, nalus: seq<seq<byte>>)
    requires nalus != [] && !Telling(kind, nalus[0])
    ensures DelimiterFirst(kind, nalus) <==> DelimiterFirst(kind, nalus[1..])
    ensures SliceFirst(kind, nalus) <==> SliceFirst(kind, nalus[1..])
    ensures RandomAccessFirst(kind, nalus) <==> RandomAccessFirst(kind, nalus[1..])
  {
    hide Telling, StartsDelimiter, StartsSlice, StartsRandomAccess;
    var rest := nalus[1..];
    forall i: nat | Decides(kind, nalus, i)
      ensures i > 0 && Decides(kind, rest, i - 1) && rest[i - 1] == nalus[i]
    {
      forall k | 0 <= k < i - 1 ensures !Telling(kind, rest[k]) { assert rest[k] == nalus[k + 1]; }
    }
    forall i: nat | Decides(kind, rest, i)
      ensures Decides(kind, nalus, i + 1) && rest[i] == nalus[i + 1]
    {
      forall k | 0 <= k < i + 1 ensures !Telling(kind, nalus[k]) {
        if k > 0 { assert nalus[k] == rest[k - 1]; }
      }
    }
  }

  /** The delimiter that is inserted: none when the frame has one or has no coded slice. */
  function Inserted(kind: nat, look: Look): (aud: seq<byte>)
    ensures |aud| <= 7
  {
    if look.aud || !look.vcl then []
    else if kind == STREAM_H264 then AUD_NALU_264
    else if kind == STREAM_H265 then AUD_NALU_265
    else []
  }

  // ----- cutting into PES packets -----

  /** Each packet takes as much as its 16-bit length allows behind the 13 bytes counted for its header. */
  function Payloads(aud: seq<byte>, frame: seq<byte>): (ps: seq<seq<byte>>)
    requires |aud| <= 7
    decreases |frame|
  {
    if frame == [] then []
    else if 13 + |aud| + |frame| >= 0xFFFF then
      var n := 0xFFFF - 13 - |aud|;
      [aud + frame[..n]] + Payloads([], frame[n..])
    else [aud + frame]
  }

  /** The payloads tile the delimiter and the frame. */
  lemma {:induction false} PayloadsTile(aud: seq<byte>, frame: seq<byte>)
    requires |aud| <= 7
    ensures Flatten(Payloads(aud, frame)) == if frame == [] then [] else aud + frame
    decreases |frame|
  {
    hide Flatten;
    NoParts();
    if frame != [] && 13 + |aud| + |frame| >= 0xFFFF {
      var n := 0xFFFF - 13 - |aud|;
      var rest := Payloads([], frame[n..]);
      assert Payloads(aud, frame) == [aud + frame[..n]] + rest;
      hide Payloads;
      PayloadsTile([], frame[n..]);
      ConcatStep(aud + frame[..n], rest);
      assert Flatten(rest) == frame[n..];
      assert [] + frame[n..] == frame[n..] && aud + frame == aud + frame[..n] + frame[n..];
    } else if frame != [] {
      ConcatStep(aud + frame, []);
      assert [aud + frame] + [] == [aud + frame] && (aud + frame) + [] == aud + frame;
    }
  }

  lemma NoParts()
    ensures Flatten([]) == []
  {}

  lemma ConcatStep(p: seq<byte>, rest: seq<seq<byte>>)
    ensures Flatten([p] + rest) == p + Flatten(rest)
  {
    assert ([p] + rest)[1..] == rest;
  }

  /** No packet is empty, and every length fits the 16-bit field; when a frame exactly fills a packet
      no empty one follows. */
  lemma {:induction false} PayloadSizes(aud: seq<byte>, frame: seq<byte>)
    requires |aud| <= 7
    ensures forall i :: 0 <= i < |Payloads(aud, frame)| ==>
      0 < |Payloads(aud, frame)[i]| && 13 + |Payloads(aud, frame)[i]| <= 0xFFFF
    ensures forall i :: 0 <= i < |Payloads(aud, frame)| - 1 ==> 13 + |Payloads(aud, frame)[i]| == 0xFFFF
    ensures frame == [] <==> Payloads(aud, frame) == []
    decreases |frame|
  {
    if frame != [] && 13 + |aud| + |frame| >= 0xFFFF {
      PayloadSizes([], frame[0xFFFF - 13 - |aud|..]);
    }
  }

  // ----- the bytes of a packet -----

  /** What is written in front of the first PES packet of a frame. */
  datatype Heads = Heads(scr: nat, maps: bool)

  function HeadBytes(m: Mux, h: Heads): nat {
    14 + if h.maps then 28 + 3 * |m.system.streams| + 4 * |m.streams.entries| else 0
  }

  /** A pack header, and with it the system header and the stream map if they are due. */
  ghost predicate HeadsLaid(c: seq<byte>, m: Mux, h: Heads) {
    && HeadBytes(m, h) <= |c|
    && PackLaid(c, 0, Pack(false, h.scr, 0, 6106, 0))
    && (h.maps ==> SystemLaid(c, 8 * 14, m.system) && MapLaid(c, 8 * (26 + 3 * |m.system.streams|), m.streams))
  }

  function PesOf(sid: nat, aligned: bool, pts: nat, dts: nat, payload: seq<byte>): PesHead {
    PesHead(sid, 13 + |payload|, 0, 0, if aligned then 1 else 0, 0, 0, 3, 0, 0, 0, 0, 0, 10, pts, dts, payload)
  }

  /** A packet handed to OnPacket: the headers if it is the first of its frame, and a PES packet to the end. */
  ghost predicate PacketIs(c: seq<byte>, m: Mux, first: bool, h: Heads, p: PesHead) {
    var o := if first then HeadBytes(m, h) else 0;
    && |c| == o + 19 + |p.payload|
    && (first ==> HeadsLaid(c, m, h))
    && PesLaid(c, o, p)
  }

  /** The packets for the payloads ps: the headers in the first one only. */
  ghost predicate PacketsAre(cs: seq<seq<byte>>, m: Mux, first: bool, h: Heads, sid: nat, aligned: bool, pts: nat,
                             dts: nat,
                             ps: seq<seq<byte>>)
  {
    && |cs| == |ps|
    && forall i :: 0 <= i < |cs| ==> PacketIs(cs[i], m, first && i == 0, h, PesOf(sid, aligned, pts, dts, ps[i]))
  }

  // ----- keeping what is laid -----

  lemma PackLaidKept(c0: seq<byte>, c1: seq<byte>, h: Pack, b: nat)
    requires PackLaid(c0, 0, h) && h.stuffing == 0 && Keeps(c0, c1, b) && b >= 112
    ensures PackLaid(c1, 0, h)
  {
    hide BitsVal, Pow2;
  }

  lemma SystemLaidKept(c0: seq<byte>, c1: seq<byte>, p: nat, h: System, b: nat)
    requires SystemLaid(c0, p, h) && Keeps(c0, c1, b) && p + 96 + 24 * |h.streams| <= b
    ensures SystemLaid(c1, p, h)
  {
    hide BitsVal, Pow2, SystemHeaders.BodyLaid;
    SystemHeaders.BodyKept(c0, c1, p + 48, h, 0, b);
  }

  lemma MapLaidKept(c0: seq<byte>, c1: seq<byte>, p: nat, h: PsFormat.StreamMap, b: nat)
    requires MapLaid(c0, p, h) && Keeps(c0, c1, b) && p + 128 + 32 * |h.entries| <= b
    ensures MapLaid(c1, p, h)
  {
    hide BitsVal, Pow2, StreamMaps.BodyLaid;
    StreamMaps.BodyKept(c0, c1, p + 48, h, 0, b);
  }

  lemma HeadsKept(c0: seq<byte>, c1: seq<byte>, m: Mux, h: Heads, b: nat)
    requires HeadsLaid(c0, m, h) && Keeps(c0, c1, b) && 8 * HeadBytes(m, h) <= b
    ensures HeadsLaid(c1, m, h)
  {
    hide BitsVal, Pow2, PackLaid, SystemLaid, MapLaid;
    PackLaidKept(c0, c1, Pack(false, h.scr, 0, 6106, 0), b);
    if h.maps {
      SystemLaidKept(c0, c1, 8 * 14, m.system, b);
      MapLaidKept(c0, c1, 8 * (26 + 3 * |m.system.streams|), m.streams, b);
    }
  }

  lemma PesLaidKept(c0: seq<byte>, c1: seq<byte>, o: nat, h: PesHead, b: nat)
    requires PesLaid(c0, o, h) && Keeps(c0, c1, b) && 8 * (o + 9 + EncodedStamps(h.stamps) + |h.payload|) <= b
    ensures PesLaid(c1, o, h)
  {
    hide BitsVal, Pow2, StartLaid, MiddleLaid, StampsLaid;
    StartKept(c0, c1, 8 * o, h, b);
    MiddleKept(c0, c1, 8 * o + 56, h, b);
    StampsKept(c0, c1, 8 * o + 72, h, b);
    BytesKept(c0, c1, b, o + 9 + EncodedStamps(h.stamps), o + 9 + EncodedStamps(h.stamps) + |h.payload|);
  }

  lemma KeepsCut(c: seq<byte>, k: nat)
    requires k <= |c|
    ensures Keeps(c, c[..k], 8 * k)
  {
    BitsExtend(c[..k], c);
  }
}
