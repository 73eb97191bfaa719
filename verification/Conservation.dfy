/** Where the bytes of a video stream go: every byte of every payload is accounted for, once and in order. */
module Conservation {
  import opened Bytes
  import opened StartCodes
  import opened DemuxSpec

  /** A packet for the stream, with the time stamps that count for it. */
  datatype Arrival = Arrival(pts: nat, dts: nat, payload: seq<byte>)

  /** What became of a stretch of bytes: it stood ahead of the first start code, was dropped as an access unit
      delimiter, or was given out. */
  datatype Fate = Ahead(bytes: seq<byte>) | Dropped(bytes: seq<byte>) | Given(frame: Frame)

  function BytesOf(f: Fate): seq<byte> {
    if f.Given? then f.frame.data else f.bytes
  }

  function AllBytes(fs: seq<Fate>): seq<byte> {
    if fs == [] then [] else BytesOf(fs[0]) + AllBytes(fs[1..])
  }

  function FramesOf(fs: seq<Fate>): seq<Frame> {
    if fs == [] then [] else (if fs[0].Given? then [fs[0].frame] else []) + FramesOf(fs[1..])
  }

  function Carried(ps: seq<Arrival>): seq<byte> {
    if ps == [] then [] else ps[0].payload + Carried(ps[1..])
  }

  /** demuxH26x, packet after packet. */
  function FeedRun(s: Stream, ps: seq<Arrival>): Fed
    decreases |ps|
  {
    if ps == [] then Fed(s, [])
    else match FeedVideo(s, ps[0].pts, ps[0].dts, ps[0].payload)
      case Panic => Panic
      case Fed(s1, f1) =>
        match FeedRun(s1, ps[1..])
        case Panic => Panic
        case Fed(s2, f2) => Fed(s2, f1 + f2)
  }

  function FateOf(s: Stream, u: Unit): Fate
    requires u.begin <= u.body < |s.buf| && u.body <= u.end <= |s.buf|
  {
    var bytes := s.buf[u.begin..u.end];
    if IsAud(s.cid, s.buf[u.body]) then Dropped(bytes) else Given(Frame(bytes, s.cid, s.pts / 90, s.dts / 90))
  }

  function Fates(s: Stream, us: seq<Unit>): seq<Fate>
    requires forall u :: u in us ==> u.begin < u.body <= u.end <= |s.buf| && u.body < |s.buf|
    decreases |us|
  {
    if us == [] then [] else [FateOf(s, us[0])] + Fates(s, us[1..])
  }

  function Lead(buf: seq<byte>): seq<byte> {
    var f := FindStartCode(buf, 0);
    if f.At? then buf[..f.begin] else buf
  }

  /** The fate of a buffer that is cut up. */
  function Flush(s: Stream): seq<Fate>
    requires !Truncated(s.buf)
  {
    [Ahead(Lead(s.buf))] + Fates(s, AllUnits(s.buf))
  }

  predicate Flushes(s: Stream, p: Arrival) {
    s.pts != 0 && s.pts != p.pts && p.pts != 0
  }

  /** What one packet settles. */
  function Settled(s: Stream, p: Arrival): seq<Fate>
    requires FeedVideo(s, p.pts, p.dts, p.payload).Fed?
  {
    if Flushes(s, p) then Flush(s) else []
  }

  /** The fates over a whole run. */
  function Ledger(s: Stream, ps: seq<Arrival>): seq<Fate>
    requires FeedRun(s, ps).Fed?
    decreases |ps|
  {
    if ps == [] then []
    else
      Settled(s, ps[0]) + Ledger(FeedVideo(s, ps[0].pts, ps[0].dts, ps[0].payload).stream, ps[1..])
  }

  lemma {:induction false} AllBytesAppend(a: seq<Fate>, b: seq<Fate>)
    ensures AllBytes(a + b) == AllBytes(a) + AllBytes(b) && FramesOf(a + b) == FramesOf(a) + FramesOf(b)
    decreases |a|
  {
    if a == [] {
      assert a + b == b;
    } else {
      AllBytesAppend(a[1..], b);
      assert (a + b)[1..] == a[1..] + b && (a + b)[0] == a[0];
      assert BytesOf(a[0]) + (AllBytes(a[1..]) + AllBytes(b)) == BytesOf(a[0]) + AllBytes(a[1..]) + AllBytes(b);
      var f := if a[0].Given? then [a[0].frame] else [];
      assert f + (FramesOf(a[1..]) + FramesOf(b)) == f + FramesOf(a[1..]) + FramesOf(b);
    }
  }

  lemma {:induction false} FatesTile(s: Stream, us: seq<Unit>)
    requires forall u :: u in us ==> u.begin < u.body <= u.end <= |s.buf| && u.body < |s.buf|
    ensures AllBytes(Fates(s, us)) == Joined(s.buf, us)
    ensures FramesOf(Fates(s, us)) == Emitted(s.buf, us, s.cid, s.pts, s.dts)
    decreases |us|
  {
    hide IsAud;
    if us != [] {
      FatesTile(s, us[1..]);
      var fs := Fates(s, us);
      assert fs[1..] == Fates(s, us[1..]);
    }
  }

  /** Cutting up a buffer loses nothing, and gives out what is emitted. */
  lemma FlushTiles(s: Stream)
    requires !Truncated(s.buf)
    ensures AllBytes(Flush(s)) == s.buf
    ensures FramesOf(Flush(s)) == Emitted(s.buf, AllUnits(s.buf), s.cid, s.pts, s.dts)
  {
    hide AllUnits, FindStartCode, Emitted, Fates;
    AllUnitsJoined(s.buf);
    FatesTile(s, AllUnits(s.buf));
    assert Flush(s)[1..] == Fates(s, AllUnits(s.buf));
  }

  /** Packets whose presentation stamp is that of the stream or zero are collected. */
  lemma {:induction false} Collects(s: Stream, ps: seq<Arrival>)
    requires s.pts > 0 && forall i :: 0 <= i < |ps| ==> ps[i].pts == s.pts || ps[i].pts == 0
    ensures FeedRun(s, ps) == Fed(Stream(s.cid, s.pts, s.dts, s.buf + Carried(ps)), [])
    decreases |ps|
  {
    if ps == [] {
      assert s.buf + [] == s.buf;
    } else {
      assert ps[0].pts == s.pts || ps[0].pts == 0;
      Collects(s.(buf := s.buf + ps[0].payload), ps[1..]);
      assert s.buf + ps[0].payload + Carried(ps[1..]) == s.buf + (ps[0].payload + Carried(ps[1..]));
    }
  }

  /** A frame in any number of packets: a new stream collects the packets of one stamp, those without one included, and
      gives the units of all of them out when the next stamp comes, with the stamps of the first packet. */
  lemma OneFrame(cid: nat, first: Arrival, more: seq<Arrival>, next: Arrival)
    requires cid == 0x1B || cid == 0x24
    requires first.pts > 0 && forall i :: 0 <= i < |more| ==> more[i].pts == first.pts || more[i].pts == 0
    requires next.pts > 0 && next.pts != first.pts && !Truncated(first.payload + Carried(more))
    ensures var buf := first.payload + Carried(more);
      && Bounded(buf, AllUnits(buf))
      && FeedRun(Stream(cid, 0, 0, []), [first] + more + [next])
         == Fed(Stream(cid, next.pts, next.dts, next.payload), Emitted(buf, AllUnits(buf), cid, first.pts, first.dts))
  {
    hide Truncated, Emitted, AllUnits;
    var s := Stream(cid, first.pts, first.dts, first.payload);
    var buf := first.payload + Carried(more);
    var held := s.(buf := buf);
    assert [] + first.payload == first.payload;
    Collects(s, more);
    assert [next][1..] == [];
    Bounds(buf);
    var fs := Emitted(buf, AllUnits(buf), cid, first.pts, first.dts);
    assert fs + [] == fs && [] + fs == fs;
    RunAppend(s, more, [next]);
    assert ([first] + more + [next])[1..] == more + [next];
  }

  lemma Bounds(buf: seq<byte>)
    requires !Truncated(buf)
    ensures Bounded(buf, AllUnits(buf))
  {
    hide Units;
  }

  lemma {:induction false} RunAppend(s: Stream, a: seq<Arrival>, b: seq<Arrival>)
    ensures FeedRun(s, a + b) == match FeedRun(s, a)
                                 case Panic => Panic
                                 case Fed(s1, f1) =>
                                   match FeedRun(s1, b)
                                   case Panic => Panic
                                   case Fed(s2, f2) => Fed(s2, f1 + f2)
    decreases |a|
  {
    hide FeedVideo;
    if a == [] {
      assert a + b == b;
      match FeedRun(s, b) {
        case Panic =>
        case Fed(_, f) => assert [] + f == f;
      }
    } else {
      assert (a + b)[1..] == a[1..] + b && (a + b)[0] == a[0];
      match FeedVideo(s, a[0].pts, a[0].dts, a[0].payload) {
        case Panic =>
        case Fed(s1, f1) =>
          RunAppend(s1, a[1..], b);
          match FeedRun(s1, a[1..]) {
            case Panic =>
            case Fed(s2, f2) =>
              match FeedRun(s2, b) {
                case Panic =>
                case Fed(_, f3) => assert f1 + (f2 + f3) == f1 + f2 + f3;
              }
          }
      }
    }
  }

  lemma OnePacket(s: Stream, p: Arrival)
    requires FeedVideo(s, p.pts, p.dts, p.payload).Fed?
    ensures var r := FeedVideo(s, p.pts, p.dts, p.payload);
      && s.buf + p.payload == AllBytes(Settled(s, p)) + r.stream.buf && r.frames == FramesOf(Settled(s, p))
      && r.stream.cid == s.cid
  {
    hide Truncated, Flush, Emitted, AllUnits;
    if Flushes(s, p) {
      FlushTiles(s);
    } else {
      assert [] + (s.buf + p.payload) == s.buf + p.payload;
    }
  }

  lemma Regroup<T>(a: seq<T>, b: seq<T>, c: seq<T>)
    ensures a + (b + c) == (a + b) + c
  {}

  /** Conservation over any run: the bytes held at first and those of all payloads are, in order, the bytes whose
      fate is recorded followed by those still held; and the frames given out are those in the record. */
  lemma {:induction false} BytesConserved(s: Stream, ps: seq<Arrival>)
    requires FeedRun(s, ps).Fed?
    ensures s.buf + Carried(ps) == AllBytes(Ledger(s, ps)) + FeedRun(s, ps).stream.buf
    ensures FeedRun(s, ps).frames == FramesOf(Ledger(s, ps))
    decreases |ps|
  {
    hide FeedVideo, Settled;
    if ps == [] {
      assert s.buf + [] == s.buf && [] + s.buf == s.buf;
    } else {
      var p, rest := ps[0], ps[1..];
      OnePacket(s, p);
      var s1 := FeedVideo(s, p.pts, p.dts, p.payload).stream;
      BytesConserved(s1, rest);
      var done, later := Settled(s, p), Ledger(s1, rest);
      AllBytesAppend(done, later);
      Regroup(s.buf, p.payload, Carried(rest));
      Regroup(AllBytes(done), s1.buf, Carried(rest));
      Regroup(AllBytes(done), AllBytes(later), FeedRun(s1, rest).stream.buf);
    }
  }

  /** A record that is right about a stretch: nothing ahead of the first start code holds one, what is dropped is
      a delimiter, and what is given out is a NAL unit with its start code that is not one. */
  ghost predicate Right(cid: nat, f: Fate) {
    match f
    case Ahead(b) => forall j :: 0 <= j ==> !CodeAt(b, j)
    case Dropped(b) => exists n: nat :: n < |b| && WellCut(b, Unit(0, n, |b|)) && IsAud(cid, b[n])
    case Given(f) =>
      f.cid == cid
      && exists n: nat :: WellCut(f.data, Unit(0, n, |f.data|)) && (n < |f.data| ==> !IsAud(cid, f.data[n]))
  }

  lemma UnitRight(s: Stream, u: Unit)
    requires u.begin < u.body <= u.end <= |s.buf| && u.body < |s.buf| && WellCut(s.buf, u)
    requires u.end == |s.buf| || s.buf[u.end] == 0
    ensures Right(s.cid, FateOf(s, u))
  {
    var b, n := s.buf[u.begin..u.end], u.body - u.begin;
    forall j | n <= j && j + 3 <= |b|
      ensures !CodeAt(b, j)
    {
      assert !CodeAt(s.buf, u.begin + j);
    }
    assert n < |b| ==> b[n] == s.buf[u.body];
    assert WellCut(b, Unit(0, n, |b|));
  }

  /** A unit ends with the buffer or where the zeros of the next start code begin. */
  lemma {:induction false} UnitEnds(s: seq<byte>, f: Found)
    requires f.At? ==> IsStartCode(s, f.begin, f.size)
    ensures forall u :: u in Units(s, f) ==> u.end == |s| || s[u.end] == 0
    decreases if f.At? then |s| - f.begin + 1 else 0
  {
    hide Units, FindStartCode;
    if f.At? {
      UnitsStep(s, f);
      UnitEnds(s, FindStartCode(s, f.begin + f.size));
      assert forall u :: u in Units(s, f) ==> u == Units(s, f)[0] || u in Units(s, f)[1..];
    } else {
      NoUnits(s);
    }
  }

  lemma {:induction false} FatesRight(s: Stream, us: seq<Unit>)
    requires forall u :: u in us ==> u.begin < u.body <= u.end <= |s.buf| && u.body < |s.buf| && WellCut(s.buf, u)
    requires forall u :: u in us ==> u.end == |s.buf| || s.buf[u.end] == 0
    ensures forall f :: f in Fates(s, us) ==> Right(s.cid, f)
    ensures forall f :: f in Fates(s, us) && f.Given? ==> f.frame.pts == s.pts / 90 && f.frame.dts == s.dts / 90
    decreases |us|
  {
    hide Right, WellCut, IsAud;
    if us != [] {
      UnitRight(s, us[0]);
      FatesRight(s, us[1..]);
    }
  }

  /** The record of a flush is right, and all units of one flush carry the time stamps the stream had then. */
  lemma FlushRight(s: Stream)
    requires !Truncated(s.buf)
    ensures forall f :: f in Flush(s) ==> Right(s.cid, f)
    ensures forall f :: f in Flush(s) && f.Given? ==> f.frame.pts == s.pts / 90 && f.frame.dts == s.dts / 90
  {
    hide Units, Fates, WellCut;
    AllUnitsJoined(s.buf);
    UnitEnds(s.buf, FindStartCode(s.buf, 0));
    FatesRight(s, AllUnits(s.buf));
    LeadRight(s.buf);
    assert Right(s.cid, Ahead(Lead(s.buf)));
  }

  lemma LeadRight(buf: seq<byte>)
    ensures forall j :: 0 <= j ==> !CodeAt(Lead(buf), j)
  {
    var b := Lead(buf);
    forall j | 0 <= j
      ensures !CodeAt(b, j)
    {
      if CodeAt(b, j) {
        assert CodeAt(buf, j);
      }
    }
  }

  lemma {:induction false} LedgerRight(s: Stream, ps: seq<Arrival>)
    requires FeedRun(s, ps).Fed?
    ensures forall f :: f in Ledger(s, ps) ==> Right(s.cid, f)
    decreases |ps|
  {
    hide FeedVideo, Flush, Right;
    if ps != [] {
      var p := ps[0];
      OnePacket(s, p);
      LedgerRight(FeedVideo(s, p.pts, p.dts, p.payload).stream, ps[1..]);
      if Flushes(s, p) {
        Whole(s, p);
        FlushRight(s);
      }
    }
  }

  lemma Whole(s: Stream, p: Arrival)
    requires FeedVideo(s, p.pts, p.dts, p.payload).Fed? && Flushes(s, p)
    ensures !Truncated(s.buf)
  {}
}
