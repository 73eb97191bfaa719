/** From frames to packets, over any cutting of the bytes into calls of Input, and back to frames: what comes out
    for each stream of the muxer.
 */
module EndToEnd {
  import opened Wrappers
  import opened Bytes
  import opened PsFormat
  import opened StartCodes
  import opened MuxSpec
  import opened DemuxSpec
  import opened ChunkIndependence
  import opened Transparency

  // ----- what is expected -----

  /** The NAL units of a frame other than access unit delimiters, each with the time of the frame. */
  function NalFrames(kind: nat, s: seq<byte>, us: seq<Unit>, pts: nat, dts: nat): seq<Frame>
    requires forall u :: u in us ==> u.begin < u.body < u.end <= |s|
  {
    if us == [] then []
    else
      (if StartsDelimiter(kind, s[us[0].body] as int) then []
       else [Frame(s[us[0].begin..us[0].end], kind, pts, dts)])
      + NalFrames(kind, s, us[1..], pts, dts)
  }

  /** The frame begins with a start code, and none of its NAL units is empty. */
  ghost predicate Clean(frame: seq<byte>) {
    && FindStartCode(frame, 0).At? && FindStartCode(frame, 0).begin == 0
    && forall u :: u in AllUnits(frame) ==> u.body < u.end
  }

  /** Everything but the last frame, which stays in the demuxer until the next one. */
  ghost function VideoFrames(kind: nat, ws: seq<Op>): seq<Frame> {
    if |ws| <= 1 then [] else NalsOf(kind, ws[0]) + VideoFrames(kind, ws[1..])
  }

  function PieceFrames(kind: nat, ps: seq<seq<byte>>, pts: nat, dts: nat): seq<Frame> {
    if ps == [] then [] else [Frame(ps[0], kind, pts, dts)] + PieceFrames(kind, ps[1..], pts, dts)
  }

  /** Every audio frame at once, in the pieces that fit a packet. */
  function AudioFrames(kind: nat, ws: seq<Op>): seq<Frame> {
    if ws == [] then []
    else PieceFrames(kind, Payloads([], ws[0].frame), ws[0].pts, ws[0].dts) + AudioFrames(kind, ws[1..])
  }

  /** The calls of Write for one stream. */
  function Mine(ops: seq<Op>, sid: nat): seq<Op> {
    if ops == [] then [] else (if ops[0].sid == sid then [ops[0]] else []) + Mine(ops[1..], sid)
  }

  /** The frames that carry one codec id. */
  function OfKind(fs: seq<Frame>, kind: nat): seq<Frame> {
    if fs == [] then [] else (if fs[0].cid == kind then [fs[0]] else []) + OfKind(fs[1..], kind)
  }

  /** Time stamps are not zero and change from frame to frame. */
  predicate Spaced(ws: seq<Op>) {
    && (forall i :: 0 <= i < |ws| ==> ws[i].pts > 0)
    && (forall i :: 0 <= i < |ws| - 1 ==> ws[i].pts != ws[i + 1].pts)
  }

  // ----- the inserted delimiter disappears -----

  lemma NextCodeShift(a: seq<byte>, s: seq<byte>, k: nat)
    requires k <= |s|
    ensures NextCode(a + s, |a| + k) == |a| + NextCode(s, k)
    decreases |s| - k
  {
    assert forall j :: 0 <= j < |s| ==> (a + s)[|a| + j] == s[j];
    if k < |s| && !CodeAt(s, k) {
      NextCodeShift(a, s, k + 1);
    }
  }

  function Moved(f: Found, n: nat): Found {
    if f.At? then At(f.begin + n, f.size) else Nowhere
  }

  lemma FindShift(a: seq<byte>, s: seq<byte>, k: nat)
    requires k <= |s|
    ensures FindStartCode(a + s, |a| + k) == Moved(FindStartCode(s, k), |a|)
  {
    NextCodeShift(a, s, k);
  }

  function MovedUnit(u: Unit, n: nat): Unit {
    Unit(u.begin + n, u.body + n, u.end + n)
  }

  function MovedUnits(us: seq<Unit>, n: nat): seq<Unit> {
    if us == [] then [] else [MovedUnit(us[0], n)] + MovedUnits(us[1..], n)
  }

  lemma CodeShift(a: seq<byte>, s: seq<byte>, begin: nat, size: nat)
    requires IsStartCode(s, begin, size)
    ensures IsStartCode(a + s, |a| + begin, size)
  {}

  /** Bytes in front of a buffer move its units. */
  lemma {:induction false} UnitsShift(a: seq<byte>, s: seq<byte>, f: Found)
    requires f.At? ==> IsStartCode(s, f.begin, f.size)
    ensures f.At? ==> IsStartCode(a + s, |a| + f.begin, f.size)
    ensures Units(a + s, Moved(f, |a|)) == MovedUnits(Units(s, f), |a|)
    decreases if f.At? then |s| - f.begin + 1 else 0
  {
    hide Units, IsStartCode, FindStartCode;
    if f.At? {
      UnitsStep(s, f);
      CodeShift(a, s, f.begin, f.size);
      var next := FindStartCode(s, f.begin + f.size);
      FindShift(a, s, f.begin + f.size);
      UnitsShift(a, s, next);
      var g := Moved(f, |a|);
      UnitsStep(a + s, g);
      HeadAndTail(Units(a + s, g));
    } else {
      NoUnits(s);
      NoUnits(a + s);
    }
  }

  lemma HeadAndTail(us: seq<Unit>)
    requires us != []
    ensures us == [us[0]] + us[1..]
  {}

  lemma {:induction false} MovedInside(us: seq<Unit>, n: nat, len: nat)
    requires forall u :: u in us ==> u.begin < u.body <= u.end <= len && u.body < len
    ensures forall u :: u in MovedUnits(us, n) ==> u.begin < u.body <= u.end <= n + len && u.body < n + len
    decreases |us|
  {
    if us != [] {
      MovedInside(us[1..], n, len);
    }
  }

  lemma MovedStep(us: seq<Unit>, n: nat)
    ensures if us == [] then MovedUnits(us, n) == []
      else MovedUnits(us, n) != [] && MovedUnits(us, n)[0] == MovedUnit(us[0], n)
           && MovedUnits(us, n)[1..] == MovedUnits(us[1..], n)
  {}

  lemma {:induction false} EmittedShift(a: seq<byte>, s: seq<byte>, us: seq<Unit>, cid: nat, pts: nat, dts: nat)
    requires forall u :: u in us ==> u.begin < u.body <= u.end <= |s| && u.body < |s|
    ensures forall u :: u in MovedUnits(us, |a|) ==> u.begin < u.body <= u.end <= |a + s| && u.body < |a + s|
    ensures Emitted(a + s, MovedUnits(us, |a|), cid, pts, dts) == Emitted(s, us, cid, pts, dts)
    decreases |us|
  {
    hide EmittedOne, Emitted, MovedUnits;
    MovedInside(us, |a|, |s|);
    MovedStep(us, |a|);
    EmittedHead(s, us, cid, pts, dts);
    EmittedHead(a + s, MovedUnits(us, |a|), cid, pts, dts);
    if us != [] {
      EmittedShift(a, s, us[1..], cid, pts, dts);
      SameOne(a, s, us[0], cid, pts, dts);
    }
  }

  function EmittedOne(s: seq<byte>, u: Unit, cid: nat, pts: nat, dts: nat): seq<Frame>
    requires u.begin < u.body <= u.end <= |s| && u.body < |s|
  {
    if IsAud(cid, s[u.body]) then [] else [Frame(s[u.begin..u.end], cid, pts / 90, dts / 90)]
  }

  lemma EmittedHead(s: seq<byte>, us: seq<Unit>, cid: nat, pts: nat, dts: nat)
    requires forall u :: u in us ==> u.begin < u.body <= u.end <= |s| && u.body < |s|
    ensures Emitted(s, us, cid, pts, dts)
         == if us == [] then [] else EmittedOne(s, us[0], cid, pts, dts) + Emitted(s, us[1..], cid, pts, dts)
  {
    hide IsAud;
  }

  lemma SameOne(a: seq<byte>, s: seq<byte>, u: Unit, cid: nat, pts: nat, dts: nat)
    requires u.begin < u.body <= u.end <= |s| && u.body < |s|
    ensures EmittedOne(a + s, MovedUnit(u, |a|), cid, pts, dts) == EmittedOne(s, u, cid, pts, dts)
  {
    hide IsAud;
    SameUnit(a, s, u);
  }

  lemma SameUnit(a: seq<byte>, s: seq<byte>, u: Unit)
    requires u.begin < u.body <= u.end <= |s| && u.body < |s|
    ensures (a + s)[u.begin + |a|..u.end + |a|] == s[u.begin..u.end] && (a + s)[u.body + |a|] == s[u.body]
  {}

  lemma NothingBefore(fs: seq<Frame>)
    ensures [] + fs == fs
  {}

  /** Nothing but the frame's own first start code is found behind the inserted delimiter. */
  lemma BehindAud(a: seq<byte>, frame: seq<byte>)
    requires a == AUD_NALU_264 || a == AUD_NALU_265
    requires FindStartCode(frame, 0).At? && FindStartCode(frame, 0).begin == 0
    ensures FindStartCode(a + frame, 0) == At(0, 4)
    ensures FindStartCode(a + frame, 4) == Moved(FindStartCode(frame, 0), |a|)
  {
    var s := a + frame;
    assert s[0] == 0 && CodeAt(s, 1);
    FindShift(a, frame, 0);
    var n := |a|;
    assert s[n - 1] != 0 && s[4] != 0 && s[5] != 0;
    assert !CodeAt(s, 4) && !CodeAt(s, 5) && (n == 7 ==> !CodeAt(s, 6));
    assert NextCode(s, 4) == NextCode(s, n);
  }

  /** The units of a frame with a delimiter put in front: the delimiter, and the units of the frame. */
  lemma UnitsBehindAud(a: seq<byte>, frame: seq<byte>)
    requires a == AUD_NALU_264 || a == AUD_NALU_265
    requires FindStartCode(frame, 0).At? && FindStartCode(frame, 0).begin == 0
    ensures AllUnits(a + frame) == [Unit(0, 4, |a|)] + MovedUnits(AllUnits(frame), |a|)
  {
    hide Units, FindStartCode;
    var s, f := a + frame, FindStartCode(frame, 0);
    BehindAud(a, frame);
    UnitsStep(s, At(0, 4));
    UnitsShift(a, frame, f);
    HeadAndTail(Units(s, At(0, 4)));
  }

  /** The delimiter put in front of a frame never shows up. */
  lemma AudVanishes(kind: nat, look: Look, frame: seq<byte>, pts: nat, dts: nat)
    requires Clean(frame) && IsVideo(kind)
    ensures !Truncated(frame) && !Truncated(Inserted(kind, look) + frame)
    ensures var s := Inserted(kind, look) + frame;
      Emitted(s, AllUnits(s), kind, pts, dts) == Emitted(frame, AllUnits(frame), kind, pts, dts)
  {
    hide Units, FindStartCode, AllUnits, Inserted, Emitted;
    var a := Inserted(kind, look);
    InsertedIs(kind, look);
    assert forall u :: u in AllUnits(frame) ==> u.body < |frame|;
    if a == [] {
      assert a + frame == frame;
    } else {
      var s, us, moved := a + frame, AllUnits(a + frame), MovedUnits(AllUnits(frame), |a|);
      UnitsBehindAud(a, frame);
      EmittedShift(a, frame, AllUnits(frame), kind, pts, dts);
      assert us[0] == Unit(0, 4, |a|) && us[1..] == moved;
      assert forall u :: u in us ==> u == us[0] || u in moved;
      NonEmpty(frame);
      assert s[4] == a[4];
      EmittedStep(s, us, kind, pts, dts, []);
      NothingBefore(Emitted(s, us, kind, pts, dts));
      NothingBefore(Emitted(s, moved, kind, pts, dts));
    }
  }

  lemma NonEmpty(frame: seq<byte>)
    requires FindStartCode(frame, 0).At?
    ensures frame != []
  {}

  lemma InsertedIs(kind: nat, look: Look)
    requires IsVideo(kind)
    ensures var a := Inserted(kind, look);
      a == [] || ((a == AUD_NALU_264 || a == AUD_NALU_265) && IsAud(kind, a[4]))
  {}

  /** What is emitted for a frame are its NAL units with the frame's own time. */
  lemma {:induction false} EmittedFrames(kind: nat, s: seq<byte>, us: seq<Unit>, pts: nat, dts: nat)
    requires IsVideo(kind) && forall u :: u in us ==> u.begin < u.body < u.end <= |s|
    ensures Emitted(s, us, kind, pts * 90, dts * 90) == NalFrames(kind, s, us, pts, dts)
    decreases |us|
  {
    if us != [] {
      EmittedFrames(kind, s, us[1..], pts, dts);
      assert IsAud(kind, s[us[0].body]) == StartsDelimiter(kind, s[us[0].body] as int);
    }
  }

  // ----- one stream -----

  /** Feeding the pieces of a frame to a stream. */
  function FeedAll(s: Stream, pts: nat, dts: nat, ps: seq<seq<byte>>): Fed
    decreases |ps|
  {
    if ps == [] then Fed(s, [])
    else match Feed(s, pts, dts, ps[0])
      case Panic => Panic
      case Fed(s1, f1) =>
        match FeedAll(s1, pts, dts, ps[1..])
        case Panic => Panic
        case Fed(s2, f2) => Fed(s2, f1 + f2)
  }

  function LookOfKind(kind: nat, frame: seq<byte>): Look {
    var l := LookAt(kind, frame);
    if l.Seen? then l.look else Look(false, false, false)
  }

  function Pieces(kind: nat, frame: seq<byte>): seq<seq<byte>> {
    Payloads(Inserted(kind, LookOfKind(kind, frame)), frame)
  }

  /** The stream while it holds one frame. */
  function Holding(kind: nat, w: Op): Stream {
    Stream(kind, w.pts * 90, w.dts * 90, Inserted(kind, LookOfKind(kind, w.frame)) + w.frame)
  }

  /** Pieces of one time are collected. */
  lemma {:induction false} Collect(s: Stream, pts: nat, dts: nat, ps: seq<seq<byte>>)
    requires IsVideo(s.cid) && pts > 0 && s.pts == pts && s.dts == dts
    ensures FeedAll(s, pts, dts, ps) == Fed(s.(buf := s.buf + Flatten(ps)), [])
    decreases |ps|
  {
    if ps == [] {
      assert s.buf + Flatten(ps) == s.buf;
    } else {
      var s1 := s.(buf := s.buf + ps[0]);
      Collect(s1, pts, dts, ps[1..]);
      assert s1.buf + Flatten(ps[1..]) == s.buf + Flatten(ps);
    }
  }

  lemma FirstFrame(kind: nat, w: Op)
    requires IsVideo(kind) && Clean(w.frame) && w.pts > 0
    ensures FeedAll(Stream(kind, 0, 0, []), w.pts * 90, w.dts * 90, Pieces(kind, w.frame)) == Fed(Holding(kind, w), [])
  {
    hide Payloads, LookOfKind, Inserted, Truncated;
    var a, ps := Inserted(kind, LookOfKind(kind, w.frame)), Pieces(kind, w.frame);
    NonEmpty(w.frame);
    PayloadsTile(a, w.frame);
    PayloadSizes(a, w.frame);
    var s1 := Stream(kind, w.pts * 90, w.dts * 90, [] + ps[0]);
    Collect(s1, w.pts * 90, w.dts * 90, ps[1..]);
    assert [] + ps[0] + Flatten(ps[1..]) == Flatten(ps);
  }

  /** A frame of another time sends out the NAL units of the one that is held. */
  lemma NextFrame(kind: nat, v: Op, w: Op)
    requires IsVideo(kind) && Clean(v.frame) && Clean(w.frame) && v.pts > 0 && w.pts > 0 && v.pts != w.pts
    ensures FeedAll(Holding(kind, v), w.pts * 90, w.dts * 90, Pieces(kind, w.frame))
         == Fed(Holding(kind, w), NalFrames(kind, v.frame, AllUnits(v.frame), v.pts, v.dts))
  {
    hide Payloads, LookOfKind, Inserted, Truncated, Emitted, NalFrames, AllUnits;
    var a, ps := Inserted(kind, LookOfKind(kind, w.frame)), Pieces(kind, w.frame);
    NonEmpty(w.frame);
    PayloadsTile(a, w.frame);
    PayloadSizes(a, w.frame);
    AudVanishes(kind, LookOfKind(kind, v.frame), v.frame, v.pts * 90, v.dts * 90);
    EmittedFrames(kind, v.frame, AllUnits(v.frame), v.pts, v.dts);
    var out := NalFrames(kind, v.frame, AllUnits(v.frame), v.pts, v.dts);
    var s1 := Stream(kind, w.pts * 90, w.dts * 90, ps[0]);
    assert Feed(Holding(kind, v), w.pts * 90, w.dts * 90, ps[0]) == Fed(s1, out);
    Collect(s1, w.pts * 90, w.dts * 90, ps[1..]);
    assert ps[0] + Flatten(ps[1..]) == Flatten(ps);
    assert out + [] == out;
  }

  lemma {:induction false} AudioPieces(s: Stream, pts: nat, dts: nat, ps: seq<seq<byte>>)
    requires IsAudio(s.cid)
    ensures FeedAll(s, pts * 90, dts * 90, ps) == Fed(s, PieceFrames(s.cid, ps, pts, dts))
    decreases |ps|
  {
    if ps != [] {
      AudioPieces(s, pts, dts, ps[1..]);
    }
  }

  /** A stream of another codec gives out nothing. */
  lemma {:induction false} OtherPieces(s: Stream, pts: nat, dts: nat, ps: seq<seq<byte>>)
    requires !IsAudio(s.cid) && !IsVideo(s.cid)
    ensures var r := FeedAll(s, pts, dts, ps);
      r.Fed? && r.frames == [] && r.stream.cid == s.cid && (s.cid != STREAM_UNKNOWN ==> r.stream == s)
    decreases |ps|
  {
    if ps != [] {
      OtherPieces(Feed(s, pts, dts, ps[0]).stream, pts, dts, ps[1..]);
    }
  }

  // ----- all streams together -----

  /** No two streams share an id. */
  predicate Distinct(es: seq<MapEntry>) {
    forall i, j :: 0 <= i < j < |es| ==> es[i].id != es[j].id
  }

  /** The demuxer knows all streams of the muxer. */
  predicate InSync(st: State, es: seq<MapEntry>) {
    forall e :: e in es ==> e.id in st.streams && st.streams[e.id].cid == e.kind
  }

  /** A packet with both stamps for a known stream goes to that stream and touches no other. */
  lemma {:induction false} DeliverAllView(st: State, sid: nat, pts: nat, dts: nat, ps: seq<seq<byte>>)
    requires sid in st.streams
    ensures match FeedAll(st.streams[sid], pts, dts, ps)
      case Panic => DeliverAll(st, sid, pts, dts, ps) == None
      case Fed(s, fs) =>
        var r := DeliverAll(st, sid, pts, dts, ps);
        r.Some? && r.value.streams == st.streams[sid := s] && r.value.out == st.out + fs
    decreases |ps|
  {
    hide Feed;
    if ps == [] {
      assert st.streams[sid := st.streams[sid]] == st.streams && st.out + [] == st.out;
    } else {
      match Feed(st.streams[sid], pts, dts, ps[0])
      case Panic =>
      case Fed(s1, f1) =>
        var st1 := Deliver(st, Pes(sid, Stamp(pts), Stamp(dts), ps[0])).value;
        assert st1.streams == st.streams[sid := s1] && st1.out == st.out + f1;
        DeliverAllView(st1, sid, pts, dts, ps[1..]);
        match FeedAll(s1, pts, dts, ps[1..])
        case Panic =>
        case Fed(s2, f2) =>
          assert st.streams[sid := s1][sid := s2] == st.streams[sid := s2];
          assert st.out + f1 + f2 == st.out + (f1 + f2);
    }
  }

  /** A map that says what is known already changes nothing. */
  lemma {:induction false} MapKnown(streams: map<nat, Stream>, es: seq<MapEntry>)
    requires forall e :: e in es ==> e.id in streams && streams[e.id].cid == e.kind
    ensures ApplyMap(streams, es) == streams
    decreases |es|
  {
    if es != [] {
      var e := es[0];
      assert e in es;
      assert streams[e.id := streams[e.id]] == streams;
      assert streams[e.id].(cid := e.kind) == streams[e.id];
      MapKnown(streams, es[1..]);
    }
  }

  /** A map adds the streams that are new. */
  lemma {:induction false} MapNew(streams: map<nat, Stream>, es: seq<MapEntry>)
    requires Distinct(es) && forall e :: e in es ==> e.id !in streams
    ensures var r := ApplyMap(streams, es);
      && (forall e :: e in es ==> e.id in r && r[e.id] == Stream(e.kind, 0, 0, []))
      && (forall k :: k in streams ==> k in r && r[k] == streams[k])
      && (forall k :: k in r && k !in streams ==> Knows(es, k))
    decreases |es|
  {
    if es != [] {
      var e, rest := es[0], es[1..];
      assert e in es;
      forall x | x in rest ensures x.id !in streams[e.id := Stream(e.kind, 0, 0, [])] {
        var i :| 0 <= i < |rest| && rest[i] == x;
        assert x == es[i + 1] && x in es;
      }
      MapNew(streams[e.id := Stream(e.kind, 0, 0, [])], rest);
    }
  }

  lemma {:induction false} KindOfEntry(es: seq<MapEntry>, e: MapEntry)
    requires Distinct(es) && e in es
    ensures Knows(es, e.id) && KindOf(es, e.id) == e.kind
    decreases |es|
  {
    if es[0] != e {
      var i :| 0 <= i < |es| && es[i] == e;
      assert es[0].id != es[i].id;
      assert e == es[1..][i - 1];
      KindOfEntry(es[1..], e);
    }
  }

  /** What one call of Write does to the demuxer, stream by stream. */
  lemma OpView(st: State, m: Mux, w: Op, e: MapEntry)
    requires OpOk(m, w) && InSync(st, m.streams.entries) && Distinct(m.streams.entries)
    requires e in m.streams.entries && e.id == w.sid
    ensures match FeedAll(st.streams[w.sid], w.pts * 90, w.dts * 90, Pieces(e.kind, w.frame))
      case Panic => DeliverOp(st, m, w) == None
      case Fed(s, fs) =>
        var r := DeliverOp(st, m, w);
        r.Some? && r.value.streams == st.streams[w.sid := s] && r.value.out == st.out + fs
  {
    hide DeliverAll, FeedAll, Payloads, Inserted, LookAt, ApplyMap;
    KindOfEntry(m.streams.entries, e);
    MapKnown(st.streams, m.streams.entries);
    DeliverAllView(AfterHeads(st, m, HeadsOf(m, w)), w.sid, w.pts * 90, w.dts * 90, PiecesOf(m, w));
  }

  lemma SidKnown(m: Mux, w: Op)
    requires OpOk(m, w)
    ensures exists e :: e in m.streams.entries && e.id == w.sid
  {}

  lemma MineAppend(ops: seq<Op>, w: Op, sid: nat)
    ensures Mine(ops + [w], sid) == Mine(ops, sid) + if w.sid == sid then [w] else []
  {
    hide Mine;
    MineConcat(ops, [w], sid);
    MineOne(w, sid);
  }

  lemma MineOne(w: Op, sid: nat)
    ensures Mine([w], sid) == if w.sid == sid then [w] else []
  {
    assert [w][1..] == [];
  }

  lemma {:induction false} MineConcat(a: seq<Op>, b: seq<Op>, sid: nat)
    ensures Mine(a + b, sid) == Mine(a, sid) + Mine(b, sid)
    decreases |a|
  {
    if a == [] {
      assert a + b == b;
    } else {
      MineConcat(a[1..], b, sid);
      assert (a + b)[1..] == a[1..] + b && (a + b)[0] == a[0];
      Associate(if a[0].sid == sid then [a[0]] else [], Mine(a[1..], sid), Mine(b, sid));
    }
  }

  lemma {:induction false} MineIn(ops: seq<Op>, sid: nat)
    ensures forall w :: w in Mine(ops, sid) ==> w in ops && w.sid == sid
    decreases |ops|
  {
    if ops != [] {
      MineIn(ops[1..], sid);
    }
  }

  // ----- frames that can be sent -----

  /** The stream is known, the stamps fit 33 bits, and the NAL units of a video frame are not empty. */
  ghost predicate Sendable(es: seq<MapEntry>, w: Op) {
    && Knows(es, w.sid) && w.frame != []
    && w.pts * 90 < 0x2_0000_0000 && w.dts * 90 < 0x2_0000_0000
    && (IsVideo(KindOf(es, w.sid)) ==> Clean(w.frame))
  }

  ghost predicate AllSendable(es: seq<MapEntry>, ops: seq<Op>) {
    forall w :: w in ops ==> Sendable(es, w)
  }

  /** In every video stream the time stamps change from frame to frame. */
  predicate AllSpaced(es: seq<MapEntry>, ops: seq<Op>) {
    forall e :: e in es && IsVideo(e.kind) ==> Spaced(Mine(ops, e.id))
  }

  lemma {:induction false} ScanSeen(kind: nat, nalus: seq<seq<byte>>)
    requires forall i :: 0 <= i < |nalus| ==> nalus[i] != []
    ensures Scan(kind, nalus).Seen?
    decreases |nalus|
  {
    if nalus != [] {
      ScanSeen(kind, nalus[1..]);
    }
  }

  lemma {:induction false} BodiesNotEmpty(s: seq<byte>, us: seq<Unit>)
    requires forall u :: u in us ==> u.body < u.end <= |s|
    ensures forall i :: 0 <= i < |Bodies(s, us)| ==> Bodies(s, us)[i] != []
    decreases |us|
  {
    if us != [] {
      BodiesNotEmpty(s, us[1..]);
    }
  }

  lemma SendableOk(m: Mux, w: Op)
    requires Sendable(m.streams.entries, w)
    ensures OpOk(m, w)
  {
    hide AllUnits, FindStartCode, Scan, Bodies;
    var kind := KindOf(m.streams.entries, w.sid);
    if IsVideo(kind) {
      BodiesNotEmpty(w.frame, AllUnits(w.frame));
      ScanSeen(kind, Bodies(w.frame, AllUnits(w.frame)));
    }
  }

  /** Frames that can each be sent make a run. */
  lemma {:induction false} SendableRun(m: Mux, ops: seq<Op>)
    requires AllSendable(m.streams.entries, ops)
    ensures OpsOk(m, ops)
    decreases |ops|
  {
    hide Sendable, OpOk;
    if ops != [] {
      SendableOk(m, ops[0]);
      SendableRun(AfterOp(m, ops[0]), ops[1..]);
    }
  }

  // ----- what every call of Write releases -----

  ghost function NalsOf(kind: nat, w: Op): seq<Frame> {
    if Clean(w.frame) then NalFrames(kind, w.frame, AllUnits(w.frame), w.pts, w.dts) else []
  }

  /** A video frame releases the NAL units of the frame before it in the same stream; an audio frame comes out itself,
      in the pieces that fit a packet; a frame of another codec never does. */
  ghost function Release(kind: nat, before: seq<Op>, w: Op): seq<Frame> {
    if IsVideo(kind) then (if before == [] then [] else NalsOf(kind, before[|before| - 1]))
    else if IsAudio(kind) then PieceFrames(kind, Payloads([], w.frame), w.pts, w.dts)
    else []
  }

  /** What the calls `ops` release one after the other, when the calls `done` have been made before. */
  ghost function Released(es: seq<MapEntry>, done: seq<Op>, ops: seq<Op>): seq<Frame>
    requires AllSendable(es, ops)
    decreases |ops|
  {
    if ops == [] then []
    else
      assert ops[0] in ops && forall w :: w in ops[1..] ==> w in ops;
      Release(KindOf(es, ops[0].sid), Mine(done, ops[0].sid), ops[0]) + Released(es, done + [ops[0]], ops[1..])
  }

  /** The stream in the demuxer after its calls of Write: a video stream holds its last frame. */
  predicate StreamIs(s: Stream, e: MapEntry, ws: seq<Op>) {
    if IsVideo(e.kind) then s == if ws == [] then Stream(e.kind, 0, 0, []) else Holding(e.kind, ws[|ws| - 1])
    else if e.kind == STREAM_UNKNOWN then s.cid == e.kind
    else s == Stream(e.kind, 0, 0, [])
  }

  /** The demuxer knows the streams of the muxer and no others, each as its calls of Write have left it. */
  ghost predicate StreamsAre(streams: map<nat, Stream>, es: seq<MapEntry>, ops: seq<Op>) {
    && (forall e :: e in es ==> e.id in streams && StreamIs(streams[e.id], e, Mine(ops, e.id)))
    && (forall id :: id in streams ==> Knows(es, id))
  }

  lemma SpacedEnd(ws: seq<Op>, w: Op)
    requires Spaced(ws + [w])
    ensures w.pts > 0 && (ws != [] ==> ws[|ws| - 1].pts > 0 && ws[|ws| - 1].pts != w.pts)
  {
    var all := ws + [w];
    assert all[|ws|] == w;
    if ws != [] {
      var i := |ws| - 1;
      assert all[i] == ws[i] && all[i].pts != all[i + 1].pts;
    }
  }

  /** The pieces of one frame, fed to its stream. */
  lemma FedFrame(s: Stream, e: MapEntry, ws: seq<Op>, w: Op)
    requires StreamIs(s, e, ws)
    requires IsVideo(e.kind) ==> Spaced(ws + [w]) && Clean(w.frame) && (ws != [] ==> Clean(ws[|ws| - 1].frame))
    ensures var r := FeedAll(s, w.pts * 90, w.dts * 90, Pieces(e.kind, w.frame));
      r.Fed? && StreamIs(r.stream, e, ws + [w]) && r.frames == Release(e.kind, ws, w)
  {
    hide FeedAll, Pieces, Holding, NalFrames, Clean, AllUnits, Spaced, PieceFrames;
    if IsVideo(e.kind) {
      SpacedEnd(ws, w);
      if ws == [] {
        FirstFrame(e.kind, w);
      } else {
        NextFrame(e.kind, ws[|ws| - 1], w);
      }
    } else if IsAudio(e.kind) {
      AudioPieces(s, w.pts, w.dts, Pieces(e.kind, w.frame));
      AudioWhole(e.kind, w.frame);
    } else {
      OtherPieces(s, w.pts * 90, w.dts * 90, Pieces(e.kind, w.frame));
    }
  }

  lemma AudioWhole(kind: nat, frame: seq<byte>)
    requires IsAudio(kind)
    ensures Pieces(kind, frame) == Payloads([], frame)
  {
    hide Payloads;
  }

  lemma StreamsInSync(st: State, es: seq<MapEntry>, ops: seq<Op>)
    requires StreamsAre(st.streams, es, ops)
    ensures InSync(st, es)
  {
    hide Inserted, LookOfKind, Mine;
  }

  /** What one call of Write changes, in the streams and in what has come out. */
  lemma WriteStep(st: State, m: Mux, done: seq<Op>, w: Op)
    requires var es := m.streams.entries;
      Distinct(es) && StreamsAre(st.streams, es, done) && AllSendable(es, done + [w]) && AllSpaced(es, done + [w])
    requires OpOk(m, w)
    ensures var es, r := m.streams.entries, DeliverOp(st, m, w);
      && r.Some? && StreamsAre(r.value.streams, es, done + [w])
      && r.value.out == st.out + Release(KindOf(es, w.sid), Mine(done, w.sid), w)
  {
    hide DeliverOp, OpOk, FeedAll, Pieces, Release, Clean, Spaced, Mine, StreamIs, Distinct;
    var es := m.streams.entries;
    SidKnown(m, w);
    var e0 :| e0 in es && e0.id == w.sid;
    KindOfEntry(es, e0);
    StreamsInSync(st, es, done);
    OpView(st, m, w, e0);
    var ws := Mine(done, w.sid);
    MineAppend(done, w, w.sid);
    MineIn(done, w.sid);
    assert w in done + [w] && forall v :: v in done ==> v in done + [w];
    if IsVideo(e0.kind) && ws != [] {
      assert ws[|ws| - 1] in ws;
    }
    FedFrame(st.streams[e0.id], e0, ws, w);
    var streams := DeliverOp(st, m, w).value.streams;
    forall e | e in es
      ensures e.id in streams && StreamIs(streams[e.id], e, Mine(done + [w], e.id))
    {
      SameEntry(es, e, e0);
      MineAppend(done, w, e.id);
      assert Mine(done, e.id) + [] == Mine(done, e.id);
    }
  }

  lemma SameEntry(es: seq<MapEntry>, e: MapEntry, e0: MapEntry)
    requires Distinct(es) && e in es && e0 in es
    ensures e.id == e0.id <==> e == e0
  {}

  lemma SpacedPrefix(es: seq<MapEntry>, done: seq<Op>, more: seq<Op>)
    requires AllSpaced(es, done + more)
    ensures AllSpaced(es, done)
  {
    hide Spaced;
    forall e | e in es && IsVideo(e.kind)
      ensures Spaced(Mine(done, e.id))
    {
      MineConcat(done, more, e.id);
      SpacedCut(Mine(done, e.id), Mine(more, e.id));
    }
  }

  lemma SpacedCut(a: seq<Op>, b: seq<Op>)
    requires Spaced(a + b)
    ensures Spaced(a)
  {
    var ab := a + b;
    forall i | 0 <= i < |a| ensures a[i].pts > 0 { assert ab[i] == a[i]; }
    forall i | 0 <= i < |a| - 1 ensures a[i].pts != a[i + 1].pts { assert ab[i] == a[i] && ab[i + 1] == a[i + 1]; }
  }

  lemma KnownSid(es: seq<MapEntry>, w: Op)
    requires Sendable(es, w)
    ensures exists e :: e in es && e.id == w.sid
  {}

  /** Over a whole run every call of Write releases what is its due. */
  lemma {:induction false} WriteRun(st: State, m: Mux, done: seq<Op>, ops: seq<Op>)
    requires var es := m.streams.entries;
      Distinct(es) && StreamsAre(st.streams, es, done) && AllSendable(es, done + ops) && AllSpaced(es, done + ops)
    requires OpsOk(m, ops)
    ensures AllSendable(m.streams.entries, ops)
    ensures var es, r := m.streams.entries, DeliverOps(st, m, ops);
      && r.Some? && StreamsAre(r.value.streams, es, done + ops)
      && r.value.out == st.out + Released(es, done, ops)
    decreases |ops|
  {
    hide DeliverOp, OpOk, Release, Sendable, AllSpaced, StreamsAre, Distinct;
    var es := m.streams.entries;
    assert forall w :: w in ops ==> w in done + ops;
    if ops == [] {
      assert done + ops == done && st.out + [] == st.out;
    } else {
      var w, rest := ops[0], ops[1..];
      assert done + [w] + rest == done + ops;
      assert forall v :: v in done + [w] ==> v in done + ops;
      SpacedPrefix(es, done + [w], rest);
      WriteStep(st, m, done, w);
      KnownSid(es, w);
      var st' := DeliverOp(st, m, w).value;
      WriteRun(st', AfterOp(m, w), done + [w], rest);
      Associate(st.out, Release(KindOf(es, w.sid), Mine(done, w.sid), w), Released(es, done + [w], rest));
    }
  }

  // ----- from the first packet on -----

  /** The headers of the first frame make the demuxer know all streams. */
  lemma FirstHeads(m: Mux, h: Heads)
    requires h.maps && Distinct(m.streams.entries)
    ensures var st := AfterHeads(INITIAL, m, h);
      && StreamsAre(st.streams, m.streams.entries, []) && st.out == [] && !st.mpeg1 && AfterHeads(st, m, h) == st
  {
    hide ApplyMap, Distinct;
    var es := m.streams.entries;
    MapNew(map[], es);
    MapKnown(ApplyMap(map[], es), es);
  }

  lemma AfterFirst(m: Mux, ops: seq<Op>)
    requires m.first && ops != [] && OpsOk(m, ops) && Distinct(m.streams.entries)
    ensures HeadsOf(m, ops[0]).maps
    ensures DeliverOps(INITIAL, m, ops) == DeliverOps(AfterHeads(INITIAL, m, HeadsOf(m, ops[0])), m, ops)
  {
    hide OpOk, Distinct, DeliverAll, AfterHeads, PiecesOf;
    FirstHeads(m, HeadsOf(m, ops[0]));
  }

  /** A muxer with sound tables, and frames for it that can be sent. */
  ghost predicate Ready(m: Mux, ops: seq<Op>) {
    && MuxOk(m) && m.first && Distinct(m.streams.entries)
    && ops != [] && AllSendable(m.streams.entries, ops) && AllSpaced(m.streams.entries, ops)
  }

  /** Handing over the pieces of all frames. */
  lemma Delivered(m: Mux, ops: seq<Op>)
    requires Ready(m, ops)
    ensures OpsOk(m, ops)
    ensures var es, r := m.streams.entries, DeliverOps(INITIAL, m, ops);
      r.Some? && StreamsAre(r.value.streams, es, ops) && r.value.out == Released(es, [], ops)
  {
    hide OpOk, Distinct, DeliverOps, AfterHeads, AllSpaced, StreamsAre, Sendable, MuxOk;
    SendableRun(m, ops);
    AfterFirst(m, ops);
    FirstHeads(m, HeadsOf(m, ops[0]));
    var st := AfterHeads(INITIAL, m, HeadsOf(m, ops[0]));
    assert [] + ops == ops;
    WriteRun(st, m, [], ops);
    Associate([], [], Released(m.streams.entries, [], ops));
  }

  /** Demuxing after muxing, over whole runs and any cutting of the muxer's bytes into calls of Input. What comes out
      is, call of Write by call of Write, what that call releases: the NAL units of the frame before it in its
      stream, in order, with their time stamps and without any delimiter, or an audio frame; and nothing else. In the
      end every video stream holds its last frame. */
  lemma MuxThenDemux(m: Mux, ops: seq<Op>, css: seq<seq<seq<byte>>>, chunks: seq<seq<byte>>)
    requires Ready(m, ops) && Wired(m, ops, css)
    requires chunks != [] && Flatten(chunks) == Wire(css)
    ensures var r := InputAll(Demux(INITIAL, []), chunks);
      && r.Reply? && Calm(r.err)
      && r.demux.st.out == Released(m.streams.entries, [], ops)
      && StreamsAre(r.demux.st.streams, m.streams.entries, ops)
  {
    hide StreamsAre, Run, Good, OpsOk, Wired, Wire, DeliverOps, Distinct, Released, AllSendable, AllSpaced, MuxOk,
      InputAll, Flatten;
    Delivered(m, ops);
    WireTransparent(INITIAL, m, ops, css);
    assert [] + Flatten(chunks) == Flatten(chunks);
    AnyChunks(Demux(INITIAL, []), chunks);
  }

  // ----- what it means for one stream -----

  predicate AllOf(fs: seq<Frame>, kind: nat) {
    forall f :: f in fs ==> f.cid == kind
  }

  lemma {:induction false} OfKindAppend(a: seq<Frame>, b: seq<Frame>, kind: nat)
    ensures OfKind(a + b, kind) == OfKind(a, kind) + OfKind(b, kind)
    decreases |a|
  {
    if a == [] {
      assert a + b == b;
    } else {
      OfKindAppend(a[1..], b, kind);
      assert (a + b)[1..] == a[1..] + b && (a + b)[0] == a[0];
      Associate(if a[0].cid == kind then [a[0]] else [], OfKind(a[1..], kind), OfKind(b, kind));
    }
  }

  lemma {:induction false} OfKindAll(fs: seq<Frame>, cid: nat, kind: nat)
    requires AllOf(fs, cid)
    ensures OfKind(fs, kind) == if cid == kind then fs else []
    decreases |fs|
  {
    if fs != [] {
      assert fs[0] in fs && forall f :: f in fs[1..] ==> f in fs;
      OfKindAll(fs[1..], cid, kind);
    }
  }

  lemma {:induction false} NalFramesKind(kind: nat, s: seq<byte>, us: seq<Unit>, pts: nat, dts: nat)
    requires forall u :: u in us ==> u.begin < u.body < u.end <= |s|
    ensures AllOf(NalFrames(kind, s, us, pts, dts), kind)
    decreases |us|
  {
    if us != [] {
      NalFramesKind(kind, s, us[1..], pts, dts);
    }
  }

  lemma {:induction false} PieceFramesKind(kind: nat, ps: seq<seq<byte>>, pts: nat, dts: nat)
    ensures AllOf(PieceFrames(kind, ps, pts, dts), kind)
    decreases |ps|
  {
    if ps != [] {
      PieceFramesKind(kind, ps[1..], pts, dts);
    }
  }

  lemma ReleaseKind(kind: nat, before: seq<Op>, w: Op)
    ensures AllOf(Release(kind, before, w), kind)
  {
    hide NalFrames, PieceFrames, Payloads, AllUnits;
    if IsVideo(kind) {
      if before != [] && Clean(before[|before| - 1].frame) {
        var v := before[|before| - 1];
        NalFramesKind(kind, v.frame, AllUnits(v.frame), v.pts, v.dts);
      }
    } else if IsAudio(kind) {
      PieceFramesKind(kind, Payloads([], w.frame), w.pts, w.dts);
    }
  }

  /** Of a video stream, everything but the last frame; of an audio stream, everything. */
  ghost function Expected(kind: nat, ws: seq<Op>): seq<Frame> {
    if IsVideo(kind) then VideoFrames(kind, ws) else if IsAudio(kind) then AudioFrames(kind, ws) else []
  }

  /** A video stream that holds the last of `before` is one that starts with that frame. */
  function Behind(kind: nat, before: seq<Op>, ws: seq<Op>): seq<Op> {
    if IsVideo(kind) && before != [] then [before[|before| - 1]] + ws else ws
  }

  lemma ExpectedStep(kind: nat, before: seq<Op>, w: Op, rest: seq<Op>)
    ensures Expected(kind, Behind(kind, before, [w] + rest))
         == Release(kind, before, w) + Expected(kind, Behind(kind, before + [w], rest))
  {
    hide NalFrames, PieceFrames, Payloads, AllUnits, Clean;
    assert (before + [w])[|before + [w]| - 1] == w;
    assert ([w] + rest)[1..] == rest;
    if IsVideo(kind) && before != [] {
      var all := [before[|before| - 1]] + ([w] + rest);
      assert all[1..] == [w] + rest && all[0] == before[|before| - 1];
    } else if IsVideo(kind) {
      Associate([], [], VideoFrames(kind, [w] + rest));
    }
  }

  /** The frames of a codec that only one stream has are those of that stream, as if it were alone. */
  lemma {:induction false} PerStream(es: seq<MapEntry>, done: seq<Op>, ops: seq<Op>, e: MapEntry)
    requires AllSendable(es, ops) && Distinct(es) && e in es && forall f :: f in es && f.kind == e.kind ==> f == e
    ensures OfKind(Released(es, done, ops), e.kind)
         == Expected(e.kind, Behind(e.kind, Mine(done, e.id), Mine(ops, e.id)))
    decreases |ops|
  {
    hide Sendable, Release, Expected, Behind, OfKind, AllOf, Distinct;
    if ops == [] {
      NothingExpected(e.kind, Mine(done, e.id));
    } else {
      var w, rest := ops[0], ops[1..];
      KnownSid(es, w);
      var kind := KindOf(es, w.sid);
      PerStream(es, done + [w], rest, e);
      ReleaseKind(kind, Mine(done, w.sid), w);
      var now, later := Release(kind, Mine(done, w.sid), w), Released(es, done + [w], rest);
      OfKindAppend(now, later, e.kind);
      OfKindAll(now, kind, e.kind);
      MineAppend(done, w, e.id);
      OnlyOne(es, w, e);
      if w.sid == e.id {
        ExpectedStep(e.kind, Mine(done, e.id), w, Mine(rest, e.id));
      } else {
        Associate(Mine(done, e.id), [], Mine(rest, e.id));
        Associate([], [], OfKind(later, e.kind));
      }
    }
  }

  lemma NothingExpected(kind: nat, before: seq<Op>)
    ensures Expected(kind, Behind(kind, before, [])) == [] && OfKind([], kind) == []
  {}

  lemma OnlyOne(es: seq<MapEntry>, w: Op, e: MapEntry)
    requires Knows(es, w.sid) && Distinct(es) && e in es && forall f :: f in es && f.kind == e.kind ==> f == e
    ensures KindOf(es, w.sid) == e.kind <==> w.sid == e.id
  {
    var f :| f in es && f.id == w.sid;
    KindOfEntry(es, f);
    SameEntry(es, f, e);
  }

  /** When no two streams share a codec, every stream comes out as expected. */
  lemma MuxThenDemuxStream(m: Mux, ops: seq<Op>, css: seq<seq<seq<byte>>>, chunks: seq<seq<byte>>, e: MapEntry)
    requires Ready(m, ops) && Wired(m, ops, css) && chunks != [] && Flatten(chunks) == Wire(css)
    requires e in m.streams.entries && forall f :: f in m.streams.entries && f.kind == e.kind ==> f == e
    ensures var r := InputAll(Demux(INITIAL, []), chunks);
      r.Reply? && OfKind(r.demux.st.out, e.kind) == Expected(e.kind, Mine(ops, e.id))
  {
    hide Wired, Wire, Flatten, Released, InputAll, Expected, OfKind, AllSendable, AllSpaced, MuxOk, Distinct,
      StreamsAre;
    MuxThenDemux(m, ops, css, chunks);
    PerStream(m.streams.entries, [], ops, e);
    assert Behind(e.kind, [], Mine(ops, e.id)) == Mine(ops, e.id);
  }

  /** The codecs by number: every frame of an AAC or G.711 stream comes out, in the pieces that fit a packet, and of an
      H.264 or H.265 stream the units of all frames but the last. */
  lemma ByCodec(m: Mux, ops: seq<Op>, css: seq<seq<seq<byte>>>, chunks: seq<seq<byte>>, e: MapEntry)
    requires Ready(m, ops) && Wired(m, ops, css) && chunks != [] && Flatten(chunks) == Wire(css)
    requires e in m.streams.entries && forall f :: f in m.streams.entries && f.kind == e.kind ==> f == e
    ensures InputAll(Demux(INITIAL, []), chunks).Reply?
    ensures var out := OfKind(InputAll(Demux(INITIAL, []), chunks).demux.st.out, e.kind);
      && (e.kind == 0x0F || e.kind == 0x90 || e.kind == 0x91 ==> out == AudioFrames(e.kind, Mine(ops, e.id)))
      && (e.kind == 0x1B || e.kind == 0x24 ==> out == VideoFrames(e.kind, Mine(ops, e.id)))
      && (e.kind !in {0x0F, 0x90, 0x91, 0x1B, 0x24} ==> out == [])
  {
    hide Ready, Wired, Wire, Flatten, InputAll, OfKind, VideoFrames, AudioFrames, Mine;
    MuxThenDemuxStream(m, ops, css, chunks, e);
  }

  function DataOfFrames(fs: seq<Frame>): seq<byte> {
    if fs == [] then [] else fs[0].data + DataOfFrames(fs[1..])
  }

  function FramesOfOps(ws: seq<Op>): seq<byte> {
    if ws == [] then [] else ws[0].frame + FramesOfOps(ws[1..])
  }

  /** The bytes of the audio frames that come out are those of the frames that were written. */
  lemma {:induction false} AudioBytes(kind: nat, ws: seq<Op>)
    ensures DataOfFrames(AudioFrames(kind, ws)) == FramesOfOps(ws)
    decreases |ws|
  {
    hide PieceFrames, Payloads;
    if ws != [] {
      AudioBytes(kind, ws[1..]);
      var ps := Payloads([], ws[0].frame);
      PiecesData(kind, ps, ws[0].pts, ws[0].dts);
      PayloadsTile([], ws[0].frame);
      DataAppend(PieceFrames(kind, ps, ws[0].pts, ws[0].dts), AudioFrames(kind, ws[1..]));
      assert [] + ws[0].frame == ws[0].frame;
    }
  }

  lemma {:induction false} DataAppend(a: seq<Frame>, b: seq<Frame>)
    ensures DataOfFrames(a + b) == DataOfFrames(a) + DataOfFrames(b)
    decreases |a|
  {
    if a == [] {
      assert a + b == b;
    } else {
      assert (a + b)[1..] == a[1..] + b && (a + b)[0] == a[0];
      DataAppend(a[1..], b);
      assert a[0].data + (DataOfFrames(a[1..]) + DataOfFrames(b)) == a[0].data + DataOfFrames(a[1..]) + DataOfFrames(b);
    }
  }

  lemma {:induction false} PiecesData(kind: nat, ps: seq<seq<byte>>, pts: nat, dts: nat)
    ensures DataOfFrames(PieceFrames(kind, ps, pts, dts)) == Flatten(ps)
    ensures forall f :: f in PieceFrames(kind, ps, pts, dts) ==> f.cid == kind && f.pts == pts && f.dts == dts
    decreases |ps|
  {
    if ps != [] {
      PiecesData(kind, ps[1..], pts, dts);
      assert PieceFrames(kind, ps, pts, dts)[1..] == PieceFrames(kind, ps[1..], pts, dts);
    }
  }

  // ----- flushing after a run -----

  /** The last frame of a video stream as flushing gives it out. */
  function LastFrame(kind: nat, w: Op): Frame {
    Frame(Inserted(kind, LookOfKind(kind, w.frame)) + w.frame, kind, w.pts, w.dts)
  }

  /** A delimiter stands in front of the last frame exactly if the frame has a coded slice and none of its own
      ahead of it. */
  lemma LastFrameData(kind: nat, w: Op)
    requires IsVideo(kind)
    ensures var look, f := LookOfKind(kind, w.frame), LastFrame(kind, w);
      if look.vcl && !look.aud then f.data == (if kind == STREAM_H264 then AUD_NALU_264 else AUD_NALU_265) + w.frame
      else f.data == w.frame
    ensures LastFrame(kind, w).data != w.frame <==> LookOfKind(kind, w.frame).vcl && !LookOfKind(kind, w.frame).aud
  {
    hide LookOfKind;
    assert [] + w.frame == w.frame;
  }

  /** Flushing after a run: each video stream that was written to gives its last frame, uncut and with the delimiter
      that was inserted; nothing else is left over but what a stream of unknown codec has collected. */
  lemma FlushAfterRun(m: Mux, ops: seq<Op>, css: seq<seq<seq<byte>>>, chunks: seq<seq<byte>>, order: seq<nat>)
    requires Ready(m, ops) && Wired(m, ops, css) && chunks != [] && Flatten(chunks) == Wire(css)
    requires InputAll(Demux(INITIAL, []), chunks).Reply?
    requires Drained(InputAll(Demux(INITIAL, []), chunks).demux.st.streams, order, {})
    ensures var es, st := m.streams.entries, InputAll(Demux(INITIAL, []), chunks).demux.st;
      FlushedAre(es, ops, st.streams, order)
  {
    hide Wired, Wire, Flatten, Released, InputAll, AllSendable, AllSpaced, MuxOk, Distinct, StreamsAre, Drained,
      FlushedAre;
    MuxThenDemux(m, ops, css, chunks);
    SendableFrames(m.streams.entries, ops);
    Flushed(m.streams.entries, ops, InputAll(Demux(INITIAL, []), chunks).demux.st.streams, order);
  }

  /** In what flushing gives for a video stream after a run, a delimiter that was not in the frame stands in front of it
      exactly if, of the delimiters and coded slices of the frame, the first one is a slice. */
  lemma DelimiterShown(m: Mux, ops: seq<Op>, css: seq<seq<seq<byte>>>, chunks: seq<seq<byte>>, order: seq<nat>,
                       e: MapEntry, i: nat)
    requires Ready(m, ops) && Wired(m, ops, css) && chunks != [] && Flatten(chunks) == Wire(css)
    requires InputAll(Demux(INITIAL, []), chunks).Reply?
    requires Drained(InputAll(Demux(INITIAL, []), chunks).demux.st.streams, order, {})
    requires e in m.streams.entries && (e.kind == 0x1B || e.kind == 0x24) && i < |order| && order[i] == e.id
    ensures Mine(ops, e.id) != []
    ensures var streams := InputAll(Demux(INITIAL, []), chunks).demux.st.streams;
      var w := Mine(ops, e.id)[|Mine(ops, e.id)| - 1];
      var aud: seq<byte> := if e.kind == 0x1B then [0, 0, 0, 1, 9, 0xF0] else [0, 0, 0, 1, 0x46, 1, 0x50];
      var slice := SliceFirst(e.kind, Bodies(w.frame, AllUnits(w.frame)));
      && i < |Leftover(streams, order)|
      && Leftover(streams, order)[i] == Frame(if slice then aud + w.frame else w.frame, e.kind, w.pts, w.dts)
  {
    hide Wired, Wire, Flatten, InputAll, Drained, LookOfKind, LastFrame, Mine, Leftover, MuxOk, Distinct, AllSpaced,
      Clean, SliceFirst, DelimiterFirst, RandomAccessFirst, AllUnits, Bodies;
    FlushAfterRun(m, ops, css, chunks, order);
    var ws := Mine(ops, e.id);
    var w := ws[|ws| - 1];
    MineIn(ops, e.id);
    assert w in ws;
    LastFrameData(e.kind, w);
    KindOfEntry(m.streams.entries, e);
    LookByTypes(m.streams.entries, w);
    LastTimes(e.kind, w);
  }

  lemma LastTimes(kind: nat, w: Op)
    ensures var f := LastFrame(kind, w); f == Frame(f.data, kind, w.pts, w.dts)
  {}

  /** What is seen of a frame that can be sent, by the types of its units. */
  lemma LookByTypes(es: seq<MapEntry>, w: Op)
    requires Sendable(es, w) && (KindOf(es, w.sid) == 0x1B || KindOf(es, w.sid) == 0x24)
    ensures var kind, units := KindOf(es, w.sid), Bodies(w.frame, AllUnits(w.frame));
      var look := LookOfKind(kind, w.frame);
      && (look.aud <==> DelimiterFirst(kind, units)) && (look.vcl <==> SliceFirst(kind, units))
      && (look.idr <==> RandomAccessFirst(kind, units))
      && !(look.aud && look.vcl)
  {
    hide AllUnits, FindStartCode, Scan, Bodies, DelimiterFirst, SliceFirst, RandomAccessFirst;
    var kind, units := KindOf(es, w.sid), Bodies(w.frame, AllUnits(w.frame));
    BodiesNotEmpty(w.frame, AllUnits(w.frame));
    ScanSeen(kind, units);
    ScanByTypes(kind, units);
    NotBoth(kind, units);
  }

  lemma {:induction false} NotBoth(kind: nat, nalus: seq<seq<byte>>)
    ensures Scan(kind, nalus).Seen? ==> !(Scan(kind, nalus).look.aud && Scan(kind, nalus).look.vcl)
    decreases |nalus|
  {
    hide TypeOf, AudType, IsVcl, IsIdr;
    if nalus != [] {
      NotBoth(kind, nalus[1..]);
    }
  }

  /** The frames that flushing in this order gives. */
  ghost predicate FlushedAre(es: seq<MapEntry>, ops: seq<Op>, streams: map<nat, Stream>, order: seq<nat>)
    requires forall id :: id in order ==> id in streams
  {
    && |Leftover(streams, order)| == |order|
    && (forall e :: e in es && IsVideo(e.kind) ==> (e.id in order <==> Mine(ops, e.id) != []))
    && (forall e :: e in es && !IsVideo(e.kind) && e.kind != STREAM_UNKNOWN ==> e.id !in order)
    && (forall i :: 0 <= i < |order| ==> Knows(es, order[i]))
    && (forall i, e :: 0 <= i < |order| && e in es && e.id == order[i] && IsVideo(e.kind) ==>
          Mine(ops, e.id) != []
          && Leftover(streams, order)[i] == LastFrame(e.kind, Mine(ops, e.id)[|Mine(ops, e.id)| - 1]))
  }

  lemma SendableFrames(es: seq<MapEntry>, ops: seq<Op>)
    requires AllSendable(es, ops)
    ensures forall w :: w in ops ==> w.frame != []
  {
    hide KindOf, Clean;
    forall w | w in ops ensures w.frame != [] { assert Sendable(es, w); }
  }

  lemma Flushed(es: seq<MapEntry>, ops: seq<Op>, streams: map<nat, Stream>, order: seq<nat>)
    requires StreamsAre(streams, es, ops) && Drained(streams, order, {}) && forall w :: w in ops ==> w.frame != []
    ensures FlushedAre(es, ops, streams, order)
  {
    hide Inserted, LookOfKind, Mine, Leftover;
    LeftoverLength(streams, order);
    forall e | e in es
      ensures IsVideo(e.kind) ==> (e.id in order <==> Mine(ops, e.id) != [])
      ensures !IsVideo(e.kind) && e.kind != STREAM_UNKNOWN ==> e.id !in order
    {
      var ws := Mine(ops, e.id);
      MineIn(ops, e.id);
      if IsVideo(e.kind) && ws != [] {
        assert ws[|ws| - 1] in ws;
      }
    }
    forall i, e | 0 <= i < |order| && e in es && e.id == order[i] && IsVideo(e.kind)
      ensures Mine(ops, e.id) != []
      ensures Leftover(streams, order)[i] == LastFrame(e.kind, Mine(ops, e.id)[|Mine(ops, e.id)| - 1])
    {
      assert order[i] in order;
      LeftoverAt(streams, order, i);
    }
    forall i | 0 <= i < |order|
      ensures Knows(es, order[i])
    {
      assert order[i] in order && order[i] in streams;
    }
  }
}
