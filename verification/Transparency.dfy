/** Feeding the muxer's packets to the demuxer does to its state what handing over the pieces of the frames
    themselves would do: the headers in between cost nothing and lose nothing.
 */
module Transparency {
  import opened Wrappers
  import opened Bytes
  import opened BitWriter
  import opened Timestamp
  import opened PsFormat
  import opened PackHeaders
  import opened SystemHeaders
  import opened StreamMaps
  import opened PesPackets
  import opened MuxSpec
  import opened DemuxSpec
  import opened ChunkIndependence

  /** A stream id of the audio or the video range. */
  predicate StreamIdOk(id: nat) {
    0xC0 <= id <= 0xEF
  }

  /** Stream ids and types fit their fields, and the tables their 16-bit lengths. */
  predicate MuxOk(m: Mux) {
    && |m.system.streams| < 20000 && |m.streams.entries| < 10000
    && (forall k :: 0 <= k < |m.system.streams| ==> StreamIdOk(m.system.streams[k].id))
    && (forall e :: e in m.streams.entries ==> StreamIdOk(e.id) && e.kind < 256 && e.infoLength == 0)
  }

  /** The state after the headers of a frame. */
  function AfterHeads(st: State, m: Mux, h: Heads): State {
    var st := st.(hasHeader := true);
    if h.maps then st.(streams := ApplyMap(st.streams, m.streams.entries)) else st
  }

  // ----- single headers, with any bytes y behind them -----

  lemma PackTurn(st: State, d: seq<byte>, h: Pack)
    requires PackLaid(d, 0, h) && h.stuffing == 0
    ensures |d| >= 14 && OneTurn(st, d) == Go(st.(hasHeader := true), 14)
    ensures Tidy(d) && Extent(d) == Done(14, ())
  {
    hide BitsVal, Pow2, PackLaid, U32, ParsePack, Tidy;
    assert d[0..] == d;
    PackRoundTrip(d, 0, h);
    PackTidy(d, h);
  }

  lemma PackTidy(d: seq<byte>, h: Pack)
    requires PackLaid(d, 0, h) && h.stuffing == 0 && |d| >= 14 && U32(d, 0) == 0x1BA
    ensures Tidy(d)
  {
    hide BitsVal, U32, StampLaid, Tidy;
    assert Pow2(1) == 2 && Pow2(2) == 4 && Pow2(3) == 8 && Pow2(5) == 32 by { Pow2Values(); }
    hide Pow2;
    StampMarks(d, 34, h.base);
    assert Marked(d);
    MarkedQuiet(d);
  }

  lemma StampMarks(c: seq<byte>, q: nat, v: nat)
    requires StampLaid(c, q, v)
    ensures BitsVal(c, q + 19, 1) == 1 && BitsVal(c, q + 35, 1) == 1
  {
    hide BitsVal;
    assert Pow2(1) == 2;
  }

  lemma SystemTurn(st: State, c: seq<byte>, off: nat, h: System)
    requires off <= |c| && SystemLaid(c, 8 * off, h) && st.hasHeader && |h.streams| < 20000
    requires forall k :: 0 <= k < |h.streams| ==> StreamIdOk(h.streams[k].id)
    ensures |c[off..]| >= 12 + 3 * |h.streams| && OneTurn(st, c[off..]) == Go(st, 12 + 3 * |h.streams|)
    ensures Tidy(c[off..]) && Extent(c[off..]) == Done(12 + 3 * |h.streams|, ())
  {
    hide BitsVal, SystemLaid, U32, ParseSystem;
    assert Pow2(8) == 256 by { Pow2Values(); }
    hide Pow2;
    forall k | 0 <= k < |h.streams|
      ensures h.streams[k].id % Pow2(8) >= 0x80
    {
      SmallMod(h.streams[k].id, 256);
    }
    SystemStart(c, off, h);
    SystemRoundTrip(c, off, h);
  }

  lemma MapTurn(st: State, c: seq<byte>, off: nat, h: PsFormat.StreamMap)
    requires off <= |c| && MapLaid(c, 8 * off, h) && |h.entries| < 10000
    requires forall e :: e in h.entries ==> StreamIdOk(e.id) && e.kind < 256 && e.infoLength == 0
    ensures |c[off..]| >= 16 + 4 * |h.entries|
    ensures OneTurn(st, c[off..]) == Go(st.(streams := ApplyMap(st.streams, h.entries)), 16 + 4 * |h.entries|)
    ensures Tidy(c[off..]) && Extent(c[off..]) == Done(16 + 4 * |h.entries|, ())
  {
    hide BitsVal, MapLaid, U32, U16, ParseMap, ApplyMap;
    assert Pow2(8) == 256 by { Pow2Values(); }
    hide Pow2;
    MapStart(c, off, h);
    MapRoundTrip(c, off, h);
    forall i | 0 <= i < |h.entries|
      ensures EntryCuts(h.entries)[i] == h.entries[i]
    {
      assert h.entries[i] in h.entries;
      SmallMod(h.entries[i].kind, 256);
      SmallMod(h.entries[i].id, 256);
    }
    assert EntryCuts(h.entries) == h.entries;
  }

  /** A PES packet as the demuxer sees it: its stamps cut to 33 bits. */
  function PesSeen(p: PesHead): Pes {
    Pes(p.id, Stamp(p.pts % Pow2(33)), Stamp(p.dts % Pow2(33)), p.payload)
  }

  /** The packets of the muxer: no field but the alignment and the stamps is used, and the lengths are right. */
  predicate Plain(p: PesHead) {
    && StreamIdOk(p.id) && 13 + |p.payload| <= 0xFFFF
    && p == PesOf(p.id, p.alignment == 1, p.pts, p.dts, p.payload)
  }

  lemma PesTurn(st: State, c: seq<byte>, off: nat, p: PesHead)
    requires PesLaid(c, off, p) && Plain(p) && !st.mpeg1
    ensures |c[off..]| >= 19 + |p.payload|
    ensures OneTurn(st, c[off..]) == match Deliver(st, PesSeen(p))
                                     case Some(st') => Go(st', 19 + |p.payload|)
                                     case None => Boom
    ensures Tidy(c[off..]) && Extent(c[off..]) == Done(19 + |p.payload|, ())
  {
    hide BitsVal, U32, U16, ParsePes, Deliver, OptionalBits, PesLaid, OneTurn, Tidy, Extent;
    assert Consistent(p) by { assert Pow2(1) == 2 by { Pow2Values(); } }
    hide Pow2;
    PesRoom(c, off, p);
    var d := c[off..];
    PesRoundTrip(c, off, p);
    PesTurnIs(st, d);
    PesTidy(d);
  }

  lemma PesTidy(d: seq<byte>)
    requires |d| >= 9 && IsPes(U32(d, 0)) && !Skipped(U32(d, 0)) && ParsePes(d).Done?
    ensures FieldsFit(d) && U16(d, 4) != 0 ==> Tidy(d)
    ensures Extent(d) == Done(ParsePes(d).len, ())
  {
    hide ParsePes, FieldsFit, EntriesFit, Quiet, ParsePack, ParseSystem, ParseMap, ParseSkipped, U32, U16;
  }

  lemma PesRoom(c: seq<byte>, off: nat, p: PesHead)
    requires PesLaid(c, off, p)
    ensures |c| >= off + 9 + EncodedStamps(p.stamps) + |p.payload|
  {}

  // ----- whole packets -----

  /** One turn of the loop, and what goodness of the rest means for the whole. */
  lemma Turned(st: State, e: seq<byte>, o: nat, st': State, n: nat)
    requires o + 4 <= |e| && 0 < n && o + n <= |e| && OneTurn(st, e[o..]) == Go(st', n)
    requires Tidy(e[o..]) && Extent(e[o..]) == Done(n, ())
    ensures Run(st, e[o..]) == Run(st', e[o + n..])
    ensures Good(e[o + n..]) ==> Good(e[o..])
  {
    hide OneTurn, Run, Tidy, Extent;
    RunStep(st, e[o..]);
    assert e[o..][n..] == e[o + n..];
  }

  lemma HeadsRun(st: State, e: seq<byte>, m: Mux, h: Heads)
    requires HeadsLaid(e, m, h) && MuxOk(m)
    ensures Run(st, e) == Run(AfterHeads(st, m, h), e[HeadBytes(m, h)..])
    ensures Good(e[HeadBytes(m, h)..]) ==> Good(e)
  {
    hide OneTurn, Run, Tidy, Extent, Good, PackLaid, SystemLaid, MapLaid, ApplyMap;
    var st1 := st.(hasHeader := true);
    assert e[0..] == e;
    PackTurn(st, e, Pack(false, h.scr, 0, 6106, 0));
    Turned(st, e, 0, st1, 14);
    if h.maps {
      var o := 26 + 3 * |m.system.streams|;
      SystemTurn(st1, e, 14, m.system);
      Turned(st1, e, 14, st1, 12 + 3 * |m.system.streams|);
      MapTurn(st1, e, o, m.streams);
      Turned(st1, e, o, AfterHeads(st, m, h), 16 + 4 * |m.streams.entries|);
    }
  }

  /** A packet of the muxer with any bytes y behind it. */
  lemma PacketRun(st: State, c: seq<byte>, y: seq<byte>, m: Mux, first: bool, h: Heads, p: PesHead)
    requires PacketIs(c, m, first, h, p) && MuxOk(m) && Plain(p) && !st.mpeg1
    ensures var st1 := if first then AfterHeads(st, m, h) else st;
      Run(st, c + y) == match Deliver(st1, PesSeen(p)) case Some(st') => Run(st', y) case None => Panics
    ensures Good(y) ==> Good(c + y)
  {
    hide OneTurn, Run, Tidy, Extent, Good, HeadsLaid, PesLaid, Deliver, PesSeen;
    var e := c + y;
    var o := if first then HeadBytes(m, h) else 0;
    var st1 := if first then AfterHeads(st, m, h) else st;
    KeepsPrefix(c, e, 8 * |c|);
    assert e[0..] == e && e[|c|..] == y;
    if first {
      HeadsKept(c, e, m, h, 8 * |c|);
      HeadsRun(st, e, m, h);
    }
    PesLaidKept(c, e, o, p, 8 * |c|);
    PesTurn(st1, e, o, p);
    RunStep(st1, e[o..]);
    assert e[o..][19 + |p.payload|..] == y;
    GoodTurn(e, o, |c|);
  }

  lemma GoodTurn(e: seq<byte>, o: nat, next: nat)
    requires o + 4 <= |e| && o < next <= |e| && Tidy(e[o..]) && Extent(e[o..]) == Done(next - o, ())
    ensures Good(e[next..]) ==> Good(e[o..])
  {
    hide Tidy, Extent;
    assert e[o..][next - o..] == e[next..];
  }

  // ----- whole frames -----

  /** A call of Write. */
  datatype Op = Op(sid: nat, frame: seq<byte>, pts: nat, dts: nat)

  /** The stream is known, and the frame can be looked at without a panic and has stamps of at most 33 bits. */
  predicate OpOk(m: Mux, w: Op) {
    && Knows(m.streams.entries, w.sid) && w.frame != []
    && LookAt(KindOf(m.streams.entries, w.sid), w.frame).Seen?
    && w.pts * 90 < 0x2_0000_0000 && w.dts * 90 < 0x2_0000_0000
  }

  function LookOf(m: Mux, w: Op): Look
    requires OpOk(m, w)
  {
    LookAt(KindOf(m.streams.entries, w.sid), w.frame).look
  }

  function HeadsOf(m: Mux, w: Op): Heads
    requires OpOk(m, w)
  {
    Heads((w.dts * 90 % U64 - 3600) % U64, m.first || LookOf(m, w).idr)
  }

  function PiecesOf(m: Mux, w: Op): seq<seq<byte>>
    requires OpOk(m, w)
  {
    Payloads(Inserted(KindOf(m.streams.entries, w.sid), LookOf(m, w)), w.frame)
  }

  function AfterOp(m: Mux, w: Op): Mux
    requires OpOk(m, w)
  {
    m.(first := m.first && !HeadsOf(m, w).maps)
  }

  /** The packets of one call of Write. */
  ghost predicate WrittenBy(cs: seq<seq<byte>>, m: Mux, w: Op)
    requires OpOk(m, w)
  {
    PacketsAre(cs, m, true, HeadsOf(m, w), w.sid, LookOf(m, w).idr, w.pts * 90 % U64, w.dts * 90 % U64, PiecesOf(m, w))
  }

  /** Handing over the pieces of a frame one by one. */
  function DeliverAll(st: State, sid: nat, pts: nat, dts: nat, ps: seq<seq<byte>>): Option<State>
    decreases |ps|
  {
    if ps == [] then Some(st)
    else match Deliver(st, Pes(sid, Stamp(pts), Stamp(dts), ps[0]))
      case None => None
      case Some(st') => DeliverAll(st', sid, pts, dts, ps[1..])
  }

  function DeliverOp(st: State, m: Mux, w: Op): Option<State>
    requires OpOk(m, w)
  {
    DeliverAll(AfterHeads(st, m, HeadsOf(m, w)), w.sid, w.pts * 90, w.dts * 90, PiecesOf(m, w))
  }

  lemma StampFits(t: nat)
    requires t * 90 < 0x2_0000_0000
    ensures (t * 90 % U64) % Pow2(33) == t * 90
  {
    assert Pow2(33) == 0x2_0000_0000 by {
      assert Pow2(16) == 0x1_0000 && Pow2(1) == 2 by { Pow2Values(); }
      hide Pow2;
      Pow2Add(16, 1);
      Pow2Add(16, 17);
    }
    SmallMod(t * 90, U64);
    SmallMod(t * 90, 0x2_0000_0000);
  }

  /** The remaining packets of a frame, the first of which carries the headers if `first`. */
  lemma {:induction false} PacketsRun(st: State, cs: seq<seq<byte>>, y: seq<byte>, m: Mux, first: bool, h: Heads,
                                      sid: nat, aligned: bool, pts: nat, dts: nat, ps: seq<seq<byte>>)
    requires PacketsAre(cs, m, first, h, sid, aligned, pts, dts, ps) && MuxOk(m) && !st.mpeg1 && StreamIdOk(sid)
    requires forall i :: 0 <= i < |ps| ==> 13 + |ps[i]| <= 0xFFFF
    requires first ==> ps != []
    ensures Run(st, Flatten(cs) + y)
         == match DeliverAll(if first then AfterHeads(st, m, h) else st, sid, pts % Pow2(33), dts % Pow2(33), ps)
            case Some(st') => Run(st', y) case None => Panics
    ensures Good(y) ==> Good(Flatten(cs) + y)
    decreases |ps|
  {
    hide Run, Good, PacketIs, Deliver, AfterHeads, Pow2;
    if ps == [] {
      assert Flatten(cs) + y == y;
    } else {
      var p := PesOf(sid, aligned, pts, dts, ps[0]);
      var rest := Flatten(cs[1..]) + y;
      assert Flatten(cs) + y == cs[0] + rest;
      assert PacketIs(cs[0], m, first, h, p);
      PacketRun(st, cs[0], rest, m, first, h, p);
      var st1 := if first then AfterHeads(st, m, h) else st;
      match Deliver(st1, PesSeen(p)) {
        case None =>
          PacketsGood(cs[1..], y, m, h, sid, aligned, pts, dts, ps[1..]);
        case Some(st2) =>
          DeliverMpeg2(st1, PesSeen(p));
          HeadsMpeg2(st, m, h);
          PacketsRun(st2, cs[1..], y, m, false, h, sid, aligned, pts, dts, ps[1..]);
      }
    }
  }

  lemma HeadsMpeg2(st: State, m: Mux, h: Heads)
    ensures AfterHeads(st, m, h).mpeg1 == st.mpeg1
  {}

  lemma {:induction false} PacketsGood(cs: seq<seq<byte>>, y: seq<byte>, m: Mux, h: Heads,
                                       sid: nat, aligned: bool, pts: nat, dts: nat, ps: seq<seq<byte>>)
    requires PacketsAre(cs, m, false, h, sid, aligned, pts, dts, ps) && MuxOk(m) && StreamIdOk(sid)
    requires forall i :: 0 <= i < |ps| ==> 13 + |ps[i]| <= 0xFFFF
    ensures Good(y) ==> Good(Flatten(cs) + y)
    decreases |ps|
  {
    hide Run, Good, PacketIs, Deliver;
    if ps == [] {
      assert Flatten(cs) + y == y;
    } else {
      var rest := Flatten(cs[1..]) + y;
      assert Flatten(cs) + y == cs[0] + rest;
      assert PacketIs(cs[0], m, false, h, PesOf(sid, aligned, pts, dts, ps[0]));
      PacketRun(INITIAL, cs[0], rest, m, false, h, PesOf(sid, aligned, pts, dts, ps[0]));
      PacketsGood(cs[1..], y, m, h, sid, aligned, pts, dts, ps[1..]);
    }
  }

  /** Feeding all packets of a frame is handing over its pieces. */
  lemma OpRun(st: State, m: Mux, w: Op, cs: seq<seq<byte>>, y: seq<byte>)
    requires OpOk(m, w) && MuxOk(m) && WrittenBy(cs, m, w) && !st.mpeg1
    ensures Run(st, Flatten(cs) + y) == match DeliverOp(st, m, w) case Some(st') => Run(st', y) case None => Panics
    ensures Good(y) ==> Good(Flatten(cs) + y)
  {
    hide Run, Good, PacketsAre, Payloads, Inserted, LookAt, AfterHeads, DeliverAll;
    StampFits(w.pts);
    StampFits(w.dts);
    PayloadSizes(Inserted(KindOf(m.streams.entries, w.sid), LookOf(m, w)), w.frame);
    KnownId(m, w.sid);
    PacketsRun(st, cs, y, m, true, HeadsOf(m, w), w.sid, LookOf(m, w).idr, w.pts * 90 % U64, w.dts * 90 % U64,
               PiecesOf(m, w));
  }

  lemma KnownId(m: Mux, sid: nat)
    requires MuxOk(m) && Knows(m.streams.entries, sid)
    ensures StreamIdOk(sid)
  {}

  // ----- whole runs -----

  predicate OpsOk(m: Mux, ops: seq<Op>)
    decreases |ops|
  {
    ops == [] || (OpOk(m, ops[0]) && OpsOk(AfterOp(m, ops[0]), ops[1..]))
  }

  /** The packets of a list of calls of Write. */
  ghost predicate Wired(m: Mux, ops: seq<Op>, css: seq<seq<seq<byte>>>)
    decreases |ops|
  {
    |css| == |ops|
    && (ops == []
        || (OpOk(m, ops[0]) && WrittenBy(css[0], m, ops[0]) && Wired(AfterOp(m, ops[0]), ops[1..], css[1..])))
  }

  function Wire(css: seq<seq<seq<byte>>>): seq<byte> {
    if css == [] then [] else Flatten(css[0]) + Wire(css[1..])
  }

  function DeliverOps(st: State, m: Mux, ops: seq<Op>): Option<State>
    requires OpsOk(m, ops)
    decreases |ops|
  {
    if ops == [] then Some(st)
    else match DeliverOp(st, m, ops[0])
      case None => None
      case Some(st') => DeliverOps(st', AfterOp(m, ops[0]), ops[1..])
  }

  /** The muxer and the wire are transparent: running the demuxer over the bytes of a whole run of the muxer does to its
      state what handing over the pieces of the frames does; and those bytes are a good stream. */
  lemma {:induction false} WireTransparent(st: State, m: Mux, ops: seq<Op>, css: seq<seq<seq<byte>>>)
    requires MuxOk(m) && OpsOk(m, ops) && Wired(m, ops, css) && !st.mpeg1
    requires DeliverOps(st, m, ops).Some?
    ensures Run(st, Wire(css)) == Halt(DeliverOps(st, m, ops).value, [], Nil)
    ensures Good(Wire(css))
    decreases |ops|
  {
    hide Run, Good, WrittenBy, DeliverOp, OpOk;
    if ops == [] {
      RunEnd(st);
      GoodEnd();
    } else {
      var st' := DeliverOp(st, m, ops[0]).value;
      OpMpeg2(st, m, ops[0]);
      WireTransparent(st', AfterOp(m, ops[0]), ops[1..], css[1..]);
      OpRun(st, m, ops[0], css[0], Wire(css[1..]));
    }
  }

  lemma GoodEnd()
    ensures Good([])
  {}

  lemma OpMpeg2(st: State, m: Mux, w: Op)
    requires OpOk(m, w) && DeliverOp(st, m, w).Some?
    ensures DeliverOp(st, m, w).value.mpeg1 == st.mpeg1
  {
    hide DeliverAll, OpOk, PiecesOf;
    HeadsMpeg2(st, m, HeadsOf(m, w));
    DeliverAllMpeg2(AfterHeads(st, m, HeadsOf(m, w)), w.sid, w.pts * 90, w.dts * 90, PiecesOf(m, w));
  }

  lemma {:induction false} DeliverAllMpeg2(st: State, sid: nat, pts: nat, dts: nat, ps: seq<seq<byte>>)
    requires DeliverAll(st, sid, pts, dts, ps).Some?
    ensures DeliverAll(st, sid, pts, dts, ps).value.mpeg1 == st.mpeg1
    decreases |ps|
  {
    hide Deliver;
    if ps != [] {
      var p := Pes(sid, Stamp(pts), Stamp(dts), ps[0]);
      DeliverMpeg2(st, p);
      DeliverAllMpeg2(Deliver(st, p).value, sid, pts, dts, ps[1..]);
    }
  }
}
