/** The muxer and the demuxer themselves, one feeding the other. */
module Relay {
  import opened Bytes
  import opened PsFormat
  import opened StartCodes
  import opened MuxSpec
  import opened DemuxSpec
  import opened Transparency
  import opened EndToEnd
  import opened Muxer
  import opened Demuxer

  // ----- the tables of the muxer -----

  /** AddStream for each of the codec ids. */
  function AddAll(m: Mux, cids: seq<nat>): Mux
    decreases |cids|
  {
    if cids == [] then m else AddAll(MuxSpec.AddStream(m, cids[0]).0, cids[1..])
  }

  function Videos(cids: seq<nat>): nat {
    if cids == [] then 0 else (if IsVideo(cids[0]) then 1 else 0) + Videos(cids[1..])
  }

  function Others(cids: seq<nat>): nat {
    if cids == [] then 0 else (if IsVideo(cids[0]) then 0 else 1) + Others(cids[1..])
  }

  /** Ids have been counted up from 0xE0 for video and from 0xC0 for anything else, without leaving their ranges. */
  ghost predicate Numbered(m: Mux) {
    var es := m.streams.entries;
    && m.first && |m.system.streams| == |es|
    && m.system.videoBound <= 16 && m.system.audioBound <= 32 && |es| == m.system.videoBound + m.system.audioBound
    && (forall i :: 0 <= i < |es| ==> m.system.streams[i].id == es[i].id && EntryNumbered(m, es[i]))
  }

  predicate EntryNumbered(m: Mux, e: MapEntry) {
    && e.kind < 256 && e.infoLength == 0
    && if IsVideo(e.kind) then 0xE0 <= e.id < 0xE0 + m.system.videoBound else 0xC0 <= e.id < 0xC0 + m.system.audioBound
  }

  /** The codecs of the streams are `used`, and no two streams share an id. */
  ghost predicate Uses(m: Mux, used: seq<nat>) {
    var es := m.streams.entries;
    && |used| == |es| && (forall i :: 0 <= i < |es| ==> es[i].kind == used[i])
    && Distinct(es)
  }

  predicate Room(m: Mux, cid: nat) {
    cid < 256 && if IsVideo(cid) then m.system.videoBound < 16 else m.system.audioBound < 32
  }

  /** One more entry, numbered by the bound of its kind, which goes up by one. */
  lemma Added(m: Mux, cid: nat)
    requires Numbered(m) && Room(m, cid)
    ensures var m' := MuxSpec.AddStream(m, cid).0;
      var video := IsVideo(cid);
      var id := if video then 0xE0 + m.system.videoBound else 0xC0 + m.system.audioBound;
      && m'.first && m'.streams.entries == m.streams.entries + [MapEntry(cid, id, 0)]
      && |m'.system.streams| == |m.system.streams| + 1 && m'.system.streams[|m.system.streams|].id == id
      && (forall i :: 0 <= i < |m.system.streams| ==> m'.system.streams[i] == m.system.streams[i])
      && m'.system.videoBound == m.system.videoBound + (if video then 1 else 0)
      && m'.system.audioBound == m.system.audioBound + (if video then 0 else 1)
  {
    hide EntryNumbered;
  }

  lemma AddOne(m: Mux, cid: nat, used: seq<nat>)
    requires Numbered(m) && Room(m, cid) && Uses(m, used)
    ensures var m' := MuxSpec.AddStream(m, cid).0; Numbered(m') && Uses(m', used + [cid])
  {
    hide MuxSpec.AddStream, IsVideo;
    Added(m, cid);
    var m' := MuxSpec.AddStream(m, cid).0;
    var es, es' := m.streams.entries, m'.streams.entries;
    forall i | 0 <= i < |es'|
      ensures m'.system.streams[i].id == es'[i].id && EntryNumbered(m', es'[i])
      ensures i < |es| ==> es'[i].id != es'[|es|].id
    {
      if i < |es| {
        assert EntryNumbered(m, es[i]);
      }
    }
  }

  lemma {:induction false} AddMore(m: Mux, cids: seq<nat>, used: seq<nat>)
    requires Numbered(m) && Uses(m, used) && forall i :: 0 <= i < |cids| ==> cids[i] < 256
    requires m.system.videoBound + Videos(cids) <= 16 && m.system.audioBound + Others(cids) <= 32
    ensures Numbered(AddAll(m, cids)) && Uses(AddAll(m, cids), used + cids)
    decreases |cids|
  {
    hide Uses, EntryNumbered;
    if cids == [] {
      assert used + cids == used;
    } else {
      var m', rest := MuxSpec.AddStream(m, cids[0]).0, cids[1..];
      Added(m, cids[0]);
      AddOne(m, cids[0], used);
      AddMore(m', rest, used + [cids[0]]);
      assert used + [cids[0]] + rest == used + cids;
    }
  }

  /** A muxer to which at most 16 video and 32 other streams have been added, of any codecs, meets what is asked of
      it for a run: ids that are not shared and lie in the ranges of stream ids, and one entry per stream in both
      tables. */
  lemma TablesFit(cids: seq<nat>)
    requires Videos(cids) <= 16 && Others(cids) <= 32 && forall i :: 0 <= i < |cids| ==> cids[i] < 256
    ensures var m := AddAll(NEW_MUX, cids);
      && MuxOk(m) && m.first && Distinct(m.streams.entries) && |m.streams.entries| == |cids|
      && forall i :: 0 <= i < |cids| ==> m.streams.entries[i].kind == cids[i]
  {
    hide AddAll, Distinct, Numbered;
    NoTables();
    AddMore(NEW_MUX, cids, []);
    assert [] + cids == cids;
    NumberedOk(AddAll(NEW_MUX, cids));
  }

  /** How many of the first i codecs are video. */
  function VideosBefore(cids: seq<nat>, i: nat): (v: nat)
    requires i <= |cids|
    ensures v <= i
  {
    if i == 0 then 0 else VideosBefore(cids, i - 1) + if cids[i - 1] == 0x1B || cids[i - 1] == 0x24 then 1 else 0
  }

  /** The tables that AddStream builds, in numbers: video streams count up from 0xE0 with a buffer bound of 400 units of
      1024 bytes, others from 0xC0 with one of 32 units of 128 bytes, and the map has one entry for each. */
  lemma StreamTable(cids: seq<nat>, i: nat)
    requires Videos(cids) <= 16 && Others(cids) <= 32 && i < |cids|
    requires forall k :: 0 <= k < |cids| ==> cids[k] < 256
    ensures var m, v := AddAll(NEW_MUX, cids), VideosBefore(cids, i);
      var video := cids[i] == 0x1B || cids[i] == 0x24;
      var id := if video then 0xE0 + v else 0xC0 + (i - v);
      && |m.streams.entries| == |m.system.streams| == |cids|
      && m.streams.entries[i] == MapEntry(cids[i], id, 0)
      && m.system.streams[i] == (if video then StreamBound(id, 1, 400) else StreamBound(id, 0, 32))
      && m.system.rateBound == 26234 && m.streams.current == 1 && m.streams.version == 1 + |cids|
      && m.system.videoBound == VideosBefore(cids, |cids|)
      && m.system.audioBound == |cids| - VideosBefore(cids, |cids|)
  {
    hide AddAll, Videos, Others, VideosBefore;
    VideosAre(cids, |cids|);
    assert cids[..|cids|] == cids;
    TableOf(cids, |cids|, i);
  }

  lemma {:induction false} VideosAre(cids: seq<nat>, n: nat)
    requires n <= |cids|
    ensures Videos(cids[..n]) == VideosBefore(cids, n) && Others(cids[..n]) == n - VideosBefore(cids, n)
    decreases n
  {
    if n > 0 {
      VideosAre(cids, n - 1);
      CountLast(cids[..n - 1], cids[n - 1]);
      assert cids[..n - 1] + [cids[n - 1]] == cids[..n];
    }
  }

  lemma {:induction false} CountLast(cids: seq<nat>, cid: nat)
    ensures Videos(cids + [cid]) == Videos(cids) + if IsVideo(cid) then 1 else 0
    ensures Others(cids + [cid]) == Others(cids) + if IsVideo(cid) then 0 else 1
    decreases |cids|
  {
    if cids == [] {
      assert cids + [cid] == [cid] && [cid][1..] == [];
    } else {
      assert (cids + [cid])[1..] == cids[1..] + [cid];
      CountLast(cids[1..], cid);
    }
  }

  lemma {:induction false} AddLast(m: Mux, cids: seq<nat>, cid: nat)
    ensures AddAll(m, cids + [cid]) == MuxSpec.AddStream(AddAll(m, cids), cid).0
    decreases |cids|
  {
    hide MuxSpec.AddStream;
    if cids == [] {
      assert cids + [cid] == [cid] && [cid][1..] == [];
    } else {
      assert (cids + [cid])[1..] == cids[1..] + [cid];
      AddLast(MuxSpec.AddStream(m, cids[0]).0, cids[1..], cid);
    }
  }

  lemma {:induction false} TableOf(cids: seq<nat>, n: nat, i: nat)
    requires i < n <= |cids| && VideosBefore(cids, |cids|) <= 16 && |cids| - VideosBefore(cids, |cids|) <= 32
    requires forall k :: 0 <= k < |cids| ==> cids[k] < 256
    ensures var m, v := AddAll(NEW_MUX, cids[..n]), VideosBefore(cids, i);
      var video := cids[i] == 0x1B || cids[i] == 0x24;
      var id := if video then 0xE0 + v else 0xC0 + (i - v);
      && |m.streams.entries| == |m.system.streams| == n
      && m.streams.entries[i] == MapEntry(cids[i], id, 0)
      && m.system.streams[i] == (if video then StreamBound(id, 1, 400) else StreamBound(id, 0, 32))
      && Counts(m, cids, n)
    decreases n
  {
    hide AddAll, VideosBefore;
    CountsAre(cids, n - 1);
    OneMoreStream(cids, n - 1);
    if i < n - 1 {
      TableOf(cids, n - 1, i);
    }
  }

  ghost predicate Counts(m: Mux, cids: seq<nat>, n: nat)
    requires n <= |cids|
  {
    && m.system.rateBound == 26234 && m.streams.current == 1 && m.streams.version == 1 + n
    && m.system.videoBound == VideosBefore(cids, n)
    && m.system.audioBound == n - VideosBefore(cids, n) && |m.streams.entries| == |m.system.streams| == n
  }

  lemma {:induction false} CountsAre(cids: seq<nat>, n: nat)
    requires n <= |cids| && VideosBefore(cids, |cids|) <= 16 && |cids| - VideosBefore(cids, |cids|) <= 32
    ensures Counts(AddAll(NEW_MUX, cids[..n]), cids, n)
    decreases n
  {
    if n == 0 {
      assert cids[..0] == [];
    } else {
      CountsAre(cids, n - 1);
      OneMoreStream(cids, n - 1);
    }
  }

  lemma OneMoreStream(cids: seq<nat>, n: nat)
    requires n < |cids| && VideosBefore(cids, |cids|) <= 16 && |cids| - VideosBefore(cids, |cids|) <= 32
    requires Counts(AddAll(NEW_MUX, cids[..n]), cids, n)
    ensures var m, m' := AddAll(NEW_MUX, cids[..n]), AddAll(NEW_MUX, cids[..n + 1]);
      var v, video := VideosBefore(cids, n), cids[n] == 0x1B || cids[n] == 0x24;
      var id := if video then 0xE0 + v else 0xC0 + (n - v);
      && Counts(m', cids, n + 1)
      && m'.streams.entries == m.streams.entries + [MapEntry(cids[n] % 256, id, 0)]
      && m'.system.streams == m.system.streams + [if video then StreamBound(id, 1, 400) else StreamBound(id, 0, 32)]
  {
    hide AddAll;
    assert cids[..n] + [cids[n]] == cids[..n + 1];
    assert VideosBefore(cids, n + 1) == VideosBefore(cids, n) + if cids[n] == 0x1B || cids[n] == 0x24 then 1 else 0;
    hide VideosBefore;
    AddLast(NEW_MUX, cids[..n], cids[n]);
    FewVideos(cids, n + 1);
  }

  lemma {:induction false} FewVideos(cids: seq<nat>, n: nat)
    requires n <= |cids|
    ensures VideosBefore(cids, n) <= VideosBefore(cids, |cids|)
    ensures n - VideosBefore(cids, n) <= |cids| - VideosBefore(cids, |cids|)
    decreases |cids| - n
  {
    if n < |cids| {
      FewVideos(cids, n + 1);
    }
  }

  lemma NoTables()
    ensures Numbered(NEW_MUX) && Uses(NEW_MUX, [])
  {
    hide EntryNumbered;
  }

  lemma NumberedOk(m: Mux)
    requires Numbered(m)
    ensures MuxOk(m) && m.first
  {
    hide IsVideo;
    var es := m.streams.entries;
    forall i | 0 <= i < |es|
      ensures StreamIdOk(m.system.streams[i].id) && StreamIdOk(es[i].id) && es[i].kind < 256 && es[i].infoLength == 0
    {
      assert EntryNumbered(m, es[i]);
    }
  }

  // ----- the objects -----

  function Chunks(css: seq<seq<seq<byte>>>): seq<seq<byte>> {
    if css == [] then [] else css[0] + Chunks(css[1..])
  }

  lemma {:induction false} ChunksWire(css: seq<seq<seq<byte>>>)
    ensures Flatten(Chunks(css)) == Wire(css)
    decreases |css|
  {
    if css != [] {
      FlattenAppend(css[0], Chunks(css[1..]));
      ChunksWire(css[1..]);
    }
  }

  lemma Writable(m: Mux, w: Op)
    requires MuxOk(m) && OpOk(m, w)
    ensures Knows(m.streams.entries, w.sid) && w.frame != [] && w.sid < 256
    ensures LookAt(KindOf(m.streams.entries, w.sid), w.frame).Seen?
  {
    KnownId(m, w.sid);
  }

  /** What Write promises is what a run asks of the packets of one call. */
  lemma WrittenIs(m: Mux, w: Op, m': Mux, cs: seq<seq<byte>>)
    requires MuxOk(m) && OpOk(m, w)
    requires var kind := KindOf(m.streams.entries, w.sid);
      var look := LookAt(kind, w.frame).look;
      var maps := m.first || look.idr;
      && m' == m.(first := m.first && !maps)
      && PacketsAre(cs, m, true, Heads((w.dts * 90 % U64 - 3600) % U64, maps), w.sid, look.idr, w.pts * 90 % U64,
                    w.dts * 90 % U64, Payloads(Inserted(kind, look), w.frame))
    ensures m' == AfterOp(m, w) && MuxOk(m') && WrittenBy(cs, m, w) && cs != []
  {
    hide PacketIs, Payloads, LookAt, Inserted;
    PayloadSizes(Inserted(KindOf(m.streams.entries, w.sid), LookOf(m, w)), w.frame);
  }

  lemma DataSplit(from: seq<Packet>, mid: seq<Packet>, now: seq<Packet>)
    requires from <= mid <= now
    ensures DataOf(now[|from|..]) == DataOf(mid[|from|..]) + DataOf(now[|mid|..])
  {}

  lemma NoData(ps: seq<Packet>)
    ensures DataOf(ps[|ps|..]) == []
  {}

  /** Writes all frames; css is what each of the calls hands to OnPacket. */
  method WriteAll(muxer: PsMuxer, ops: seq<Op>) returns (ghost css: seq<seq<seq<byte>>>)
    requires MuxOk(muxer.St()) && OpsOk(muxer.St(), ops)
    modifies muxer.Repr()
    ensures Wired(old(muxer.St()), ops, css) && (ops != [] ==> Chunks(css) != [])
    ensures old(muxer.packets) <= muxer.packets && DataOf(muxer.packets[|old(muxer.packets)|..]) == Chunks(css)
    decreases |ops|
  {
    hide OpOk, PacketsAre, DataOf, MuxOk, WrittenBy, AfterOp, Knows, KindOf, LookAt;
    if ops == [] {
      css := [];
      NoData(muxer.packets);
    } else {
      var w := ops[0];
      ghost var m, from := muxer.St(), muxer.packets;
      Writable(m, w);
      var _ := muxer.Write(w.sid, w.frame, w.pts, w.dts);
      ghost var mid := muxer.packets;
      WrittenIs(m, w, muxer.St(), DataOf(mid[|from|..]));
      css := WriteAll(muxer, ops[1..]);
      DataSplit(from, mid, muxer.packets);
      css := [DataOf(mid[|from|..])] + css;
    }
  }

  lemma InputStep(d: Demux, chunks: seq<seq<byte>>)
    requires chunks != [] && InputAll(d, chunks).Reply?
    ensures var r := Input(d, chunks[0]);
      r.Reply? && InputAll(r.demux, chunks[1..]).Reply?
      && InputAll(r.demux, chunks[1..]).demux == InputAll(d, chunks).demux
  {
    hide Input;
  }

  /** Every packet that the muxer hands over is fed to the demuxer. */
  method Relay(muxer: PsMuxer, demuxer: PsDemuxer, ops: seq<Op>)
    requires demuxer.Valid() && demuxer.St() == INITIAL && demuxer.cache == [] && demuxer.Repr() !! muxer.Repr()
    requires muxer.packets == [] && Ready(muxer.St(), ops)
    modifies muxer.Repr(), demuxer.Repr()
    ensures AllSendable(old(muxer.St()).streams.entries, ops)
    ensures demuxer.frames == Released(old(muxer.St()).streams.entries, [], ops)
    ensures demuxer.Valid() && fresh(demuxer.Repr() - old(demuxer.Repr()))
    ensures StreamsAre(demuxer.Streams(), old(muxer.St()).streams.entries, ops)
  {
    hide OpsOk, MuxOk, Distinct, AllSendable, AllSpaced, Released, StreamsAre, Wired, Chunks, DataOf, InputAll, Input;
    ghost var m := muxer.St();
    SendableRun(m, ops);
    ghost var css := WriteAll(muxer, ops);
    assert muxer.packets[0..] == muxer.packets;
    ChunksWire(css);
    ghost var chunks := Chunks(css);
    MuxThenDemux(m, ops, css, chunks);
    ghost var result := InputAll(Demux(INITIAL, []), chunks).demux;
    assert chunks[0..] == chunks;
    var packets := muxer.packets;
    for i := 0 to |packets|
      invariant demuxer.Valid() && fresh(demuxer.Repr() - old(demuxer.Repr()))
      invariant var r := InputAll(Demux(demuxer.St(), demuxer.cache), chunks[i..]); r.Reply? && r.demux == result
    {
      InputStep(Demux(demuxer.St(), demuxer.cache), chunks[i..]);
      assert chunks[i..][0] == packets[i].data && chunks[i..][1..] == chunks[i + 1..];
      var _ := demuxer.Input(packets[i].data);
    }
    InputEnd(Demux(demuxer.St(), demuxer.cache), chunks[|packets|..]);
  }

  /** From nothing: streams are added to a new muxer, frames are written, and the packets are fed to a new demuxer. */
  method RelayNew(cids: seq<nat>, ops: seq<Op>) returns (demuxer: PsDemuxer)
    requires Videos(cids) <= 16 && Others(cids) <= 32 && forall i :: 0 <= i < |cids| ==> cids[i] < 256
    requires var es := AddAll(NEW_MUX, cids).streams.entries; ops != [] && AllSendable(es, ops) && AllSpaced(es, ops)
    ensures fresh(demuxer.Repr()) && demuxer.Valid()
    ensures var es := AddAll(NEW_MUX, cids).streams.entries;
      demuxer.frames == Released(es, [], ops) && StreamsAre(demuxer.Streams(), es, ops)
  {
    hide MuxOk, Distinct, AllSendable, AllSpaced, Released, StreamsAre, MuxSpec.AddStream, Videos, Others;
    var muxer := new PsMuxer();
    assert cids[0..] == cids;
    for i := 0 to |cids|
      invariant AddAll(muxer.St(), cids[i..]) == AddAll(NEW_MUX, cids)
      invariant fresh(muxer.Repr()) && muxer.packets == []
    {
      var _ := muxer.AddStream(cids[i]);
      assert cids[i..][1..] == cids[i + 1..];
    }
    TablesFit(cids);
    demuxer := new PsDemuxer();
    Relay(muxer, demuxer, ops);
  }

  lemma InputEnd(d: Demux, chunks: seq<seq<byte>>)
    requires chunks == []
    ensures InputAll(d, chunks) == Reply(d, Nil)
  {}

  // ----- a delimiter that shows -----

  const SLICE: seq<byte> := [0x00, 0x00, 0x00, 0x01, 0x65, 0x88]

  lemma SliceUnits()
    ensures FindStartCode(SLICE, 0) == At(0, 4) && AllUnits(SLICE) == [Unit(0, 4, 6)]
  {
    hide Units;
    assert SLICE[0] == 0 && CodeAt(SLICE, 1) && !CodeAt(SLICE, 0);
    assert !CodeAt(SLICE, 2) && !CodeAt(SLICE, 3) && !CodeAt(SLICE, 4) && !CodeAt(SLICE, 5);
    UnitsStep(SLICE, At(0, 4));
    NoUnits(SLICE);
    HeadAndTail(Units(SLICE, At(0, 4)));
  }

  lemma SliceLook()
    ensures LookOfKind(STREAM_H264, SLICE) == Look(false, true, true) && Clean(SLICE)
  {
    hide AllUnits, FindStartCode;
    SliceUnits();
    var us := [Unit(0, 4, 6)];
    assert us[1..] == [] && SLICE[4..6] == [0x65, 0x88];
    assert Bodies(SLICE, us) == [[0x65, 0x88]];
  }

  lemma OneSliceReady(ops: seq<Op>)
    requires ops == [Op(0xE0, SLICE, 40, 40)]
    ensures Videos([STREAM_H264]) <= 16 && Others([STREAM_H264]) <= 32
    ensures var es := AddAll(NEW_MUX, [STREAM_H264]).streams.entries;
      es == [MapEntry(STREAM_H264, 0xE0, 0)] && AllSendable(es, ops) && AllSpaced(es, ops)
  {
    hide AllSendable, AllSpaced, AddAll, Videos, Others, MuxSpec.AddStream;
    FirstAdded();
    OneAdded(STREAM_H264);
    SliceFits([MapEntry(STREAM_H264, 0xE0, 0)], Op(0xE0, SLICE, 40, 40));
  }

  lemma FirstAdded()
    ensures MuxSpec.AddStream(NEW_MUX, STREAM_H264).0.streams.entries == [MapEntry(STREAM_H264, 0xE0, 0)]
    ensures MuxSpec.AddStream(NEW_MUX, STREAM_H264).1 == 0xE0
  {}

  lemma SliceFits(es: seq<MapEntry>, w: Op)
    requires es == [MapEntry(STREAM_H264, 0xE0, 0)] && w == Op(0xE0, SLICE, 40, 40)
    ensures AllSendable(es, [w]) && AllSpaced(es, [w])
  {
    hide Clean, Mine;
    SliceLook();
    assert es[0] in es;
    MineOne(w, 0xE0);
  }

  lemma OneAdded(cid: nat)
    ensures AddAll(NEW_MUX, [cid]) == MuxSpec.AddStream(NEW_MUX, cid).0 && Videos([cid]) + Others([cid]) == 1
  {
    assert [cid][1..] == [];
  }

  lemma OneElement(order: seq<nat>, x: nat)
    requires x in order && forall i :: 0 <= i < |order| ==> order[i] == x
    requires forall i, j :: 0 <= i < j < |order| ==> order[i] != order[j]
    ensures order == [x]
  {
    var last := |order| - 1;
    assert order[last] == order[0] == x;
    assert last == 0;
  }

  lemma ShownBytes()
    ensures AUD_NALU_264 + SLICE == [0x00, 0x00, 0x00, 0x01, 0x09, 0xF0, 0x00, 0x00, 0x00, 0x01, 0x65, 0x88]
  {}

  lemma OnlyStream(es: seq<MapEntry>, ops: seq<Op>, streams: map<nat, Stream>, order: seq<nat>)
    requires es == [MapEntry(STREAM_H264, 0xE0, 0)] && ops == [Op(0xE0, SLICE, 40, 40)]
    requires Drained(streams, order, {}) && FlushedAre(es, ops, streams, order)
    ensures Leftover(streams, order) == [Frame(AUD_NALU_264 + SLICE, STREAM_H264, 40, 40)]
  {
    hide Leftover, LastFrame, LookOfKind, Mine;
    var e := es[0];
    assert e in es;
    MineOne(ops[0], 0xE0);
    assert 0xE0 in order && forall i :: 0 <= i < |order| ==> order[i] == 0xE0;
    OneElement(order, 0xE0);
    SliceLook();
    LastFrameData(STREAM_H264, ops[0]);
    LastTimes(STREAM_H264, ops[0]);
    assert Leftover(streams, order)[0] == LastFrame(STREAM_H264, ops[0]);
  }

  /** Writing one IDR slice and flushing the demuxer that got its packets gives the slice with a delimiter in front. */
  method FlushShowsAud() returns (fs: seq<Frame>)
    ensures fs == [Frame([0x00, 0x00, 0x00, 0x01, 0x09, 0xF0, 0x00, 0x00, 0x00, 0x01, 0x65, 0x88], STREAM_H264, 40, 40)]
  {
    hide StreamsAre, Drained, FlushedAre, Released, AllSendable, AllSpaced, Leftover, AddAll, Videos, Others;
    var ops := [Op(0xE0, SLICE, 40, 40)];
    OneSliceReady(ops);
    ghost var es := [MapEntry(STREAM_H264, 0xE0, 0)];
    var demuxer := RelayNew([STREAM_H264], ops);
    NothingReleased(es, ops);
    ghost var streams := demuxer.Streams();
    ghost var order := demuxer.Flush();
    Flushed(es, ops, streams, order);
    OnlyStream(es, ops, streams, order);
    ShownBytes();
    fs := demuxer.frames;
  }

  lemma NothingReleased(es: seq<MapEntry>, ops: seq<Op>)
    requires |ops| == 1 && AllSendable(es, ops) && es == [MapEntry(STREAM_H264, 0xE0, 0)] && ops[0].sid == 0xE0
    ensures Released(es, [], ops) == []
  {
    assert ops[1..] == [];
    assert ops[0] in ops;
  }
}
