/** The muxer of gb28181/mpegps/ps_muxer.go. The callback OnPacket is set; what it is handed is recorded in
    `packets`.
 */
module Muxer {
  import opened Bytes
  import opened BitWriter
  import opened PsFormat
  import opened StartCodes
  import opened PackHeaders
  import opened SystemHeaders
  import opened StreamMaps
  import opened Crc
  import opened PesPackets
  import opened MuxSpec

  datatype Outcome = Written | NotFound

  datatype Packet = Packet(data: seq<byte>, pts: nat)

  class PsMuxer {
    const system: SystemHeader
    const psm: ProgramStreamMap
    var firstframe: bool
    var packets: seq<Packet>

    ghost function Repr(): set<object> {
      {this, system, psm}
    }

    ghost function St(): Mux
      reads system, psm, this`firstframe
    {
      Mux(system.Fields(), psm.Fields(), firstframe)
    }

    constructor ()
      ensures fresh(Repr()) && packets == []
      ensures St() == NEW_MUX
    {
      system := new SystemHeader();
      psm := new ProgramStreamMap();
      firstframe := true;
      packets := [];
      new;
      system.rateBound := 26234;
      psm.currentNextIndicator := 1;
      psm.programStreamMapVersion := 1;
    }

    method AddStream(cid: nat) returns (sid: nat)
      modifies Repr()
      ensures (St(), sid) == MuxSpec.AddStream(old(St()), cid) && packets == old(packets)
    {
      if cid == STREAM_H265 || cid == STREAM_H264 {
        sid := (0xE0 + system.videoBound) % 256;
        system.streams := system.streams + [StreamBound(sid, 1, 400)];
        system.videoBound := (system.videoBound + 1) % 256;
        psm.streamMap := psm.streamMap + [MapEntry(cid % 256, sid, 0)];
        psm.programStreamMapVersion := (psm.programStreamMapVersion + 1) % 256;
      } else {
        sid := (0xC0 + system.audioBound) % 256;
        system.streams := system.streams + [StreamBound(sid, 0, 32)];
        system.audioBound := (system.audioBound + 1) % 256;
        psm.streamMap := psm.streamMap + [MapEntry(cid % 256, sid, 0)];
        psm.programStreamMapVersion := (psm.programStreamMapVersion + 1) % 256;
      }
    }

    method FindKind(sid: nat) returns (found: bool, kind: nat)
      ensures found == Knows(psm.streamMap, sid)
      ensures found ==> kind == KindOf(psm.streamMap, sid)
    {
      found, kind := false, 0;
      for i := 0 to |psm.streamMap|
        invariant !Knows(psm.streamMap[..i], sid)
        invariant Knows(psm.streamMap, sid) ==>
          Knows(psm.streamMap[i..], sid) && KindOf(psm.streamMap[i..], sid) == KindOf(psm.streamMap, sid)
      {
        var es := psm.streamMap[i];
        if es.id == sid {
          assert es in psm.streamMap;
          return true, es.kind;
        }
        assert psm.streamMap[..i + 1] == psm.streamMap[..i] + [es];
        assert psm.streamMap[i..] == [es] + psm.streamMap[i + 1..];
      }
    }

    /** The callback of SplitFrame in Write: it stops at the first delimiter or coded slice. */
    method LookAtFrame(kind: nat, frame: seq<byte>) returns (look: Look)
      requires LookAt(kind, frame).Seen?
      ensures look == LookAt(kind, frame).look
    {
      hide Units, Bodies, IsStartCode;
      look := Look(false, false, false);
      if !IsVideo(kind) {
        return;
      }
      var f := FindStartCode(frame, 0);
      while f.At?
        invariant f.At? ==> IsStartCode(frame, f.begin, f.size) && f.begin + f.size <= |frame|
        invariant LookAt(kind, frame) == Scan(kind, Bodies(frame, Units(frame, f)))
        decreases if f.At? then |frame| - f.begin + 1 else 0
      {
        var next := FindStartCode(frame, f.begin + f.size);
        UnitsStep(frame, f);
        ScanStep(frame, Units(frame, f), kind);
        var end := if next.At? then next.begin else |frame|;
        var nalu := frame[f.begin + f.size..end];
        var naluType := TypeOf(kind, nalu[0]);
        if naluType == AudType(kind) {
          return Look(true, false, false);
        } else if IsVcl(kind, naluType) {
          return Look(false, IsIdr(kind, naluType), true);
        }
        if next.At? { CodeInside(frame, next); }
        f := next;
      }
      NoUnits(frame);
    }

    /** A pack header, and the system header and stream map if they are due. */
    method WriteHeads(bsw: BitStreamWriter, scr: nat, maps: bool)
      requires bsw.Valid() && bsw.Pos() == 0 && bsw.bitsoffset == 0
      modifies psm`elementaryStreamMapLength, bsw
      ensures bsw.Valid() && bsw.bitsoffset == 0 && bsw.byteoffset == HeadBytes(St(), Heads(scr, maps))
      ensures HeadsLaid(bsw.bits, St(), Heads(scr, maps))
    {
      hide BitsVal, Pow2, PackLaid, SystemLaid, MapLaid, Keeps, Crc32;
      ghost var m := St();
      var pack := new PsPackHeader();
      pack.systemClockReferenceBase := scr;
      pack.systemClockReferenceExtension := 0;
      pack.programMuxRate := 6106;
      pack.Encode(bsw);
      if maps {
        ghost var c := bsw.bits;
        system.Encode(bsw);
        PackLaidKept(c, bsw.bits, Pack(false, scr, 0, 6106, 0), 112);
        c := bsw.bits;
        psm.Encode(bsw);
        PackLaidKept(c, bsw.bits, Pack(false, scr, 0, 6106, 0), 8 * (26 + 3 * |m.system.streams|));
        SystemLaidKept(c, bsw.bits, 8 * 14, m.system, 8 * (26 + 3 * |m.system.streams|));
      }
    }

    /** Cuts the frame into PES packets; the writer already holds the headers of the first one. */
    method WritePes(bsw: BitStreamWriter, sid: nat, kind: nat, look: Look, frame: seq<byte>, pts: nat, dts: nat,
                    ghost h: Heads)
      requires bsw.Valid() && bsw.bitsoffset == 0
      requires bsw.byteoffset == HeadBytes(St(), h) && HeadsLaid(bsw.bits, St(), h)
      requires sid < 256
      modifies this`packets, bsw
      ensures old(packets) <= packets
      ensures PacketsAre(DataOf(packets[|old(packets)|..]), St(), true, h, sid, look.idr, pts, dts,
                         Payloads(Inserted(kind, look), frame))
      ensures StampedFrom(packets, |old(packets)|, pts)
    {
      hide BitsVal, Pow2, HeadsLaid, PacketIs, PacketsAre, PesOf, Payloads, Inserted, Cut, St, HeadBytes, DataOf,
        PlainHead, PesPacket.Head, StampedFrom;
      ghost var m, all, from := St(), Payloads(Inserted(kind, look), frame), packets;
      ghost var cs: seq<seq<byte>> := [];
      var first, rest := true, frame;
      NoPackets(m, h, sid, look.idr, pts, dts, all[..0]);
      NoneStamped(packets, pts);
      var pespkg := NewPacket();
      while |rest| > 0
        invariant bsw.Valid() && bsw.bitsoffset == 0 && St() == m && fresh(pespkg)
        invariant |cs| <= |all| && (first <==> |cs| == 0)
        invariant Payloads(if first then Inserted(kind, look) else [], rest) == all[|cs|..]
        invariant bsw.byteoffset == (if first then HeadBytes(m, h) else 0) && (first ==> HeadsLaid(bsw.bits, m, h))
        invariant from <= packets && DataOf(packets[|from|..]) == cs && StampedFrom(packets, |from|, pts)
        invariant PacketsAre(cs, m, true, h, sid, look.idr, pts, dts, all[..|cs|])
        invariant PlainHead(pespkg) && pespkg.pesPayload == []
        invariant first || !look.idr ==> pespkg.dataAlignmentIndicator == 0
        decreases |rest|
      {
        ghost var before, now := packets, rest;
        ghost var aud := if first then Inserted(kind, look) else [];
        PayloadsStep(aud, now, all, |cs|);
        rest := FillPacket(pespkg, sid, kind, look, first, rest, pts, dts);
        var c := EmitPacket(bsw, pespkg, pts, m, first, h);
        DataOfStep(from, before, packets);
        StampedStep(before, Packet(c, pts), |from|);
        PacketsAreStep(cs, c, m, h, sid, look.idr, pts, dts, all);
        cs := cs + [c];
        pespkg.pesPayload := [];
        bsw.Reset();
        first := false;
      }
      PayloadsEnd(if first then Inserted(kind, look) else []);
      assert |cs| == |all| && all[..|all|] == all;
    }

    method NewPacket() returns (pespkg: PesPacket)
      ensures fresh(pespkg) && PlainHead(pespkg) && pespkg.pesPayload == [] && pespkg.dataAlignmentIndicator == 0
    {
      pespkg := new PesPacket();
    }

    /** Fills in the packet and takes its payload off the frame. */
    method FillPacket(pespkg: PesPacket, sid: nat, kind: nat, look: Look, first: bool, frame: seq<byte>,
                      pts: nat, dts: nat)
      returns (rest: seq<byte>)
      requires frame != [] && PlainHead(pespkg) && pespkg.pesPayload == []
      requires !look.idr ==> pespkg.dataAlignmentIndicator == 0
      modifies pespkg
      ensures PlainHead(pespkg) && (!look.idr ==> pespkg.dataAlignmentIndicator == 0)
      ensures pespkg.streamId == sid && pespkg.ptsDtsFlags == 3 && pespkg.pesHeaderDataLength == 10
      ensures var (payload, behind) := Cut(if first then Inserted(kind, look) else [], frame);
        && rest == behind && pespkg.Head() == PesOf(sid, look.idr, pts, dts, payload)
    {
      hide Inserted, LookAt;
      FillHead(pespkg, sid, look, pts, dts);
      ghost var head := pespkg.Head();
      var aud := InsertAud(kind, look, first);
      var payload := pespkg.pesPayload;
      var peshdrlen := 13 + |aud|;
      payload := payload + aud;
      assert payload == aud;
      if peshdrlen + |frame| >= 0xFFFF {
        pespkg.pesPacketLength := 0xFFFF;
        payload := payload + frame[0..0xFFFF - peshdrlen];
        rest := frame[0xFFFF - peshdrlen..];
      } else {
        pespkg.pesPacketLength := peshdrlen + |frame|;
        payload := payload + frame[0..];
        rest := [];
      }
      pespkg.pesPayload := payload;
      assert pespkg.Head() == head.(length := pespkg.pesPacketLength, payload := payload);
    }

    method FillHead(pespkg: PesPacket, sid: nat, look: Look, pts: nat, dts: nat)
      requires PlainHead(pespkg) && (!look.idr ==> pespkg.dataAlignmentIndicator == 0)
      modifies pespkg
      ensures PlainHead(pespkg) && (!look.idr ==> pespkg.dataAlignmentIndicator == 0)
      ensures pespkg.Head()
           == PesOf(sid, look.idr, pts, dts, old(pespkg.pesPayload)).(length := old(pespkg.pesPacketLength))
    {
      pespkg.streamId := sid;
      pespkg.ptsDtsFlags := 3;
      pespkg.pesHeaderDataLength := 10;
      pespkg.pts := pts;
      pespkg.dts := dts;
      if look.idr {
        pespkg.dataAlignmentIndicator := 1;
      }
    }

    method EmitPacket(bsw: BitStreamWriter, pespkg: PesPacket, pts: nat,
                      ghost m: Mux, ghost first: bool, ghost h: Heads)
      returns (c: seq<byte>)
      requires bsw.Valid() && bsw.bitsoffset == 0 && bsw.byteoffset == (if first then HeadBytes(m, h) else 0)
      requires first ==> HeadsLaid(bsw.bits, m, h)
      requires PlainHead(pespkg) && pespkg.streamId < 256 && pespkg.pesHeaderDataLength == 10 && pespkg.ptsDtsFlags == 3
      modifies this`packets, bsw
      ensures bsw.Valid()
      ensures packets == old(packets) + [Packet(c, pts)] && PacketIs(c, m, first, h, pespkg.Head())
    {
      hide BitsVal, Pow2, HeadsLaid, PesLaid, Keeps;
      ghost var o, c0 := bsw.byteoffset, bsw.bits;
      pespkg.Encode(bsw);
      c := bsw.Bits();
      if first {
        HeadsKept(c0, bsw.bits, m, h, 8 * o);
        KeepsCut(bsw.bits, |c|);
        HeadsKept(bsw.bits, c, m, h, 8 * |c|);
      }
      KeepsCut(bsw.bits, |c|);
      PesLaidKept(bsw.bits, c, o, pespkg.Head(), 8 * |c|);
      packets := packets + [Packet(c, pts)];
    }

    /** Writes one frame. The clock runs at 90 kHz, in 64-bit arithmetic. An empty NAL unit in front of the
        first delimiter or slice makes the program panic. */
    method Write(sid: nat, frame: seq<byte>, pts: nat, dts: nat) returns (err: Outcome)
      requires frame != [] && Knows(psm.streamMap, sid) ==> sid < 256 && LookAt(KindOf(psm.streamMap, sid), frame).Seen?
      modifies Repr()
      ensures !Knows(old(psm.streamMap), sid) ==> err == NotFound && St() == old(St()) && packets == old(packets)
      ensures Knows(old(psm.streamMap), sid) ==> err == Written
      ensures Knows(old(psm.streamMap), sid) && frame == [] ==> St() == old(St()) && packets == old(packets)
      ensures Knows(old(psm.streamMap), sid) && frame != [] ==>
        var m := old(St());
        var kind := KindOf(m.streams.entries, sid);
        var look := LookAt(kind, frame).look;
        var maps := m.first || look.idr;
        && St() == m.(first := m.first && !maps)
        && old(packets) <= packets
        && PacketsAre(DataOf(packets[|old(packets)|..]), m, true, Heads((dts * 90 % U64 - 3600) % U64, maps),
                      sid, look.idr,
                      pts * 90 % U64, dts * 90 % U64, Payloads(Inserted(kind, look), frame))
        && StampedFrom(packets, |old(packets)|, pts * 90 % U64)
    {
      hide BitsVal, Pow2, HeadsLaid, PacketsAre, Payloads, Inserted, LookAt, KindOf;
      var found, kind := FindKind(sid);
      if !found {
        return NotFound;
      }
      if |frame| <= 0 {
        return Written;
      }
      ghost var m := St();
      var look := LookAtFrame(kind, frame);
      var dts := dts * 90 % U64;
      var pts := pts * 90 % U64;
      var bsw := new BitStreamWriter(1024);
      var maps := firstframe || look.idr;
      var scr := (dts - 3600) % U64;
      WriteHeads(bsw, scr, maps);
      WritePes(bsw, sid, kind, look, frame, pts, dts, Heads(scr, maps));
      if maps {
        firstframe := false;
      }
      return Written;
    }
  }

  /** Only the first packet of a frame gets a delimiter, and only if the frame has a coded slice but no delimiter. */
  method InsertAud(kind: nat, look: Look, first: bool) returns (aud: seq<byte>)
    ensures aud == (if first then Inserted(kind, look) else [])
  {
    if first && !look.aud && look.vcl {
      if kind == STREAM_H264 {
        return AUD_NALU_264;
      } else if kind == STREAM_H265 {
        return AUD_NALU_265;
      }
    }
    return [];
  }

  ghost function DataOf(ps: seq<Packet>): (cs: seq<seq<byte>>)
    ensures |cs| == |ps| && forall i :: 0 <= i < |ps| ==> cs[i] == ps[i].data
  {
    seq(|ps|, i requires 0 <= i < |ps| => ps[i].data)
  }

  /** From the n-th on the packets are handed over with the time stamp pts. */
  ghost predicate StampedFrom(ps: seq<Packet>, n: nat, pts: nat) {
    forall i :: n <= i < |ps| ==> ps[i].pts == pts
  }

  lemma NoneStamped(ps: seq<Packet>, pts: nat)
    ensures StampedFrom(ps, |ps|, pts)
  {}

  lemma StampedStep(ps: seq<Packet>, p: Packet, n: nat)
    requires StampedFrom(ps, n, p.pts)
    ensures StampedFrom(ps + [p], n, p.pts)
  {}

  lemma DataOfStep(from: seq<Packet>, before: seq<Packet>, now: seq<Packet>)
    requires from <= before && now != [] && before == now[..|now| - 1]
    ensures from <= now && DataOf(now[|from|..]) == DataOf(before[|from|..]) + [now[|now| - 1].data]
  {}

  /** The header fields that the muxer leaves at zero. */
  ghost predicate PlainHead(p: PesPacket)
    reads p`pesScramblingControl, p`pesPriority, p`copyright, p`originalOrCopy, p`escrFlag, p`esRateFlag,
      p`dsmTrickModeFlag, p`additionalCopyInfoFlag, p`pesCrcFlag, p`pesExtensionFlag
  {
    && p.pesScramblingControl == p.pesPriority == p.copyright == p.originalOrCopy == 0
    && p.escrFlag == p.esRateFlag == p.dsmTrickModeFlag == 0
    && p.additionalCopyInfoFlag == p.pesCrcFlag == p.pesExtensionFlag == 0
  }

  /** The payload of the next packet, and what is left of the frame. */
  function Cut(aud: seq<byte>, frame: seq<byte>): (seq<byte>, seq<byte>)
    requires |aud| <= 7
  {
    if 13 + |aud| + |frame| >= 0xFFFF then
      (aud + frame[..0xFFFF - 13 - |aud|], frame[0xFFFF - 13 - |aud|..])
    else (aud + frame, [])
  }

  lemma PayloadsStep(aud: seq<byte>, now: seq<byte>, all: seq<seq<byte>>, i: nat)
    requires |aud| <= 7 && now != [] && i <= |all| && Payloads(aud, now) == all[i..]
    ensures i < |all| && all[i] == Cut(aud, now).0 && Payloads([], Cut(aud, now).1) == all[i + 1..]
    ensures |Cut(aud, now).1| < |now|
  {
    assert all[i..][0] == all[i] && all[i..][1..] == all[i + 1..];
  }

  lemma NoPackets(m: Mux, h: Heads, sid: nat, aligned: bool, pts: nat, dts: nat, none: seq<seq<byte>>)
    requires none == []
    ensures PacketsAre([], m, true, h, sid, aligned, pts, dts, none)
  {}

  lemma PacketsAreStep(cs: seq<seq<byte>>, c: seq<byte>, m: Mux, h: Heads, sid: nat, aligned: bool, pts: nat, dts: nat,
                       all: seq<seq<byte>>)
    requires |cs| < |all| && PacketsAre(cs, m, true, h, sid, aligned, pts, dts, all[..|cs|])
    requires PacketIs(c, m, |cs| == 0, h, PesOf(sid, aligned, pts, dts, all[|cs|]))
    ensures PacketsAre(cs + [c], m, true, h, sid, aligned, pts, dts, all[..|cs| + 1])
  {
    hide PacketIs, PesOf;
  }

  lemma PayloadsEnd(aud: seq<byte>)
    requires |aud| <= 7
    ensures Payloads(aud, []) == []
  {}

  lemma ScanStep(s: seq<byte>, us: seq<Unit>, kind: nat)
    requires us != [] && forall u :: u in us ==> u.body <= u.end <= |s|
    ensures var nalu := s[us[0].body..us[0].end];
      Scan(kind, Bodies(s, us))
      == if nalu == [] then EmptyNalu
         else
           var t := TypeOf(kind, nalu[0]);
           if t == AudType(kind) then Seen(Look(true, false, false))
           else if IsVcl(kind, t) then Seen(Look(false, IsIdr(kind, t), true))
           else Scan(kind, Bodies(s, us[1..]))
  {
    assert Bodies(s, us)[1..] == Bodies(s, us[1..]);
  }
}
