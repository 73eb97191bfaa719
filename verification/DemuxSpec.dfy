/** What the demuxer of gb28181/mpegps/ps_demuxer.go does to its state, as functions: one packet
    at the head of the buffered bytes, a whole buffer, and the calls of Input one after the other.
    Calls of OnFrame are recorded in `out`.
 */
module DemuxSpec {
  import opened Wrappers
  import opened Bytes
  import opened PsFormat
  import opened StartCodes

  const VIDEO: nat := 0xE0
  const AUDIO: nat := 0xC0

  datatype Frame = Frame(data: seq<byte>, cid: nat, pts: nat, dts: nat)

  datatype Stream = Stream(cid: nat, pts: nat, dts: nat, buf: seq<byte>)

  /** hasHeader: a pack header has been begun; mpeg1: an MPEG-1 pack header has been seen; pts: the time stamp
      that a packet without one inherits. */
  datatype State = State(
    hasHeader: bool, mpeg1: bool, pts: nat, streams: map<nat, Stream>, verify: seq<byte>, out: seq<Frame>)

  const INITIAL: State := State(false, false, 0, map[], [], [])

  // ----- video: collecting a frame and cutting it into NAL units -----

  predicate IsAud(cid: nat, b: byte) {
    if cid == STREAM_H264 then NaluType264(b) == AUD_H264 else NaluType265(b) == AUD_H265
  }

  /** Some start code ends the buffer, so that there is no byte to take the unit type from: a panic. */
  predicate Truncated(s: seq<byte>) {
    exists u :: u in AllUnits(s) && u.body == |s|
  }

  /** The frames emitted for the units: all but the access unit delimiters. */
  function Emitted(s: seq<byte>, us: seq<Unit>, cid: nat, pts: nat, dts: nat): seq<Frame>
    requires forall u :: u in us ==> u.begin < u.body <= u.end <= |s| && u.body < |s|
  {
    if us == [] then []
    else
      (if IsAud(cid, s[us[0].body]) then [] else [Frame(s[us[0].begin..us[0].end], cid, pts / 90, dts / 90)])
      + Emitted(s, us[1..], cid, pts, dts)
  }

  lemma EmittedStep(s: seq<byte>, us: seq<Unit>, cid: nat, pts: nat, dts: nat, done: seq<Frame>)
    requires us != [] && forall u :: u in us ==> u.begin < u.body <= u.end <= |s| && u.body < |s|
    ensures var f := Frame(s[us[0].begin..us[0].end], cid, pts / 90, dts / 90);
      done + Emitted(s, us, cid, pts, dts)
      == (if IsAud(cid, s[us[0].body]) then done else done + [f]) + Emitted(s, us[1..], cid, pts, dts)
  {
    hide IsAud;
    if IsAud(cid, s[us[0].body]) {
      assert [] + Emitted(s, us[1..], cid, pts, dts) == Emitted(s, us[1..], cid, pts, dts);
    }
  }

  lemma NoneEmitted(s: seq<byte>, cid: nat, pts: nat, dts: nat)
    ensures Emitted(s, [], cid, pts, dts) == []
  {}

  datatype Fed = Fed(stream: Stream, frames: seq<Frame>) | Panic

  /** demuxH26x: packets of one time stamp are collected; another time stamp cuts up what was collected. */
  function FeedVideo(s: Stream, pts: nat, dts: nat, payload: seq<byte>): Fed {
    if s.pts == 0 then Fed(Stream(s.cid, pts, dts, s.buf + payload), [])
    else if s.pts == pts || pts == 0 then Fed(s.(buf := s.buf + payload), [])
    else if Truncated(s.buf) then Panic
    else Fed(Stream(s.cid, pts, dts, payload), Emitted(s.buf, AllUnits(s.buf), s.cid, s.pts, s.dts))
  }

  predicate IsAudio(cid: nat) {
    cid == STREAM_AAC || cid == STREAM_G711A || cid == STREAM_G711U
  }

  /** demuxPespacket. */
  function Feed(s: Stream, pts: nat, dts: nat, payload: seq<byte>): Fed {
    if IsAudio(s.cid) then
      Fed(s, [Frame(payload, s.cid, pts / 90, dts / 90)])
    else if s.cid == STREAM_H264 || s.cid == STREAM_H265 then FeedVideo(s, pts, dts, payload)
    else if s.cid == STREAM_UNKNOWN then
      Fed(Stream(s.cid, pts, dts, (if s.pts != pts then [] else s.buf) + payload), [])
    else Fed(s, [])
  }

  function FeedInto(st: State, id: nat, s: Stream, pts: nat, dts: nat, payload: seq<byte>): Option<State> {
    match Feed(s, pts, dts, payload)
    case Panic => None
    case Fed(s', frames) => Some(st.(streams := st.streams[id := s'], out := st.out + frames))
  }

  /** A video stream the map does not know is filed when the bytes collected from it show its codec. */
  function Guessed(st: State, pts: nat, dts: nat, payload: seq<byte>): Option<State> {
    match H26xVerify(st.verify)
    case CodecH264 => FeedInto(st, VIDEO, Stream(STREAM_H264, 0, 0, []), pts, dts, payload)
    case CodecH265 => FeedInto(st, VIDEO, Stream(STREAM_H265, 0, 0, []), pts, dts, payload)
    case _ => Some(st)
  }

  /** What a decoded PES packet does; for a stream the map does not know, the codec is guessed. None is a panic. */
  function Deliver(st0: State, p: Pes): Option<State> {
    var pts := Later(p.pts, st0.pts);
    var dts := Later(p.dts, pts);
    var st := st0.(pts := pts);
    if p.id in st.streams then FeedInto(st, p.id, st.streams[p.id], pts, dts, p.payload)
    else if p.id == VIDEO then
      var verify := (if |st.verify| > 256 then [] else st.verify) + p.payload;
      Guessed(st.(verify := verify), pts, dts, p.payload)
    else if p.id == AUDIO && VIDEO in st.streams then
      match AudioVerify(p.payload)
      case NoBytes => None
      case Likely(cid) => FeedInto(st, AUDIO, Stream(cid, 0, 0, []), pts, dts, p.payload)
    else Some(st)
  }

  /** A stream map sets the codec of known streams and adds the others. */
  function ApplyMap(streams: map<nat, Stream>, es: seq<MapEntry>): map<nat, Stream>
    decreases |es|
  {
    if es == [] then streams
    else
      var e := es[0];
      var s := if e.id in streams then streams[e.id].(cid := e.kind) else Stream(e.kind, 0, 0, []);
      ApplyMap(streams[e.id := s], es[1..])
  }

  ghost predicate Named(es: seq<MapEntry>, id: nat) {
    exists i :: 0 <= i < |es| && es[i].id == id
  }

  /** Index k is the last one with an entry for the stream id. */
  ghost predicate LastFor(es: seq<MapEntry>, id: nat, k: nat) {
    k < |es| && es[k].id == id && forall i :: k < i < |es| ==> es[i].id != id
  }

  /** What a stream map does to the stream id: the last entry for it gives the codec, and what had been collected is
      kept; without an entry nothing changes. */
  lemma MapApplied(streams: map<nat, Stream>, es: seq<MapEntry>, id: nat)
    ensures var r := ApplyMap(streams, es);
      && (id in r <==> id in streams || Named(es, id))
      && (!Named(es, id) && id in streams ==> r[id] == streams[id])
      && forall k: nat :: LastFor(es, id, k) ==>
           r[id] == if id in streams then Stream(es[k].kind, streams[id].pts, streams[id].dts, streams[id].buf)
                    else Stream(es[k].kind, 0, 0, [])
  {
    hide ApplyMap;
    if !Named(es, id) {
      MapUntouched(streams, es, id);
    } else {
      var k := LastIndex(es, id);
      MapLast(streams, es, id, k);
      assert forall i: nat :: LastFor(es, id, i) ==> i == k;
    }
  }

  lemma LastIndex(es: seq<MapEntry>, id: nat) returns (k: nat)
    requires Named(es, id)
    ensures LastFor(es, id, k)
  {
    k := |es| - 1;
    while es[k].id != id
      invariant k < |es| && forall i :: k < i < |es| ==> es[i].id != id
      decreases k
    {
      k := k - 1;
    }
  }

  lemma {:induction false} MapUntouched(streams: map<nat, Stream>, es: seq<MapEntry>, id: nat)
    requires !Named(es, id)
    ensures var r := ApplyMap(streams, es);
      (id in r <==> id in streams) && (id in streams ==> r[id] == streams[id])
    decreases |es|
  {
    if es != [] {
      var e := es[0];
      var s := if e.id in streams then streams[e.id].(cid := e.kind) else Stream(e.kind, 0, 0, []);
      assert !Named(es[1..], id) by {
        assert forall i :: 0 <= i < |es| - 1 ==> es[1..][i] == es[i + 1];
      }
      MapUntouched(streams[e.id := s], es[1..], id);
    }
  }

  lemma {:induction false} MapLast(streams: map<nat, Stream>, es: seq<MapEntry>, id: nat, k: nat)
    requires LastFor(es, id, k)
    ensures var r := ApplyMap(streams, es);
      && id in r
      && r[id] == if id in streams then Stream(es[k].kind, streams[id].pts, streams[id].dts, streams[id].buf)
                  else Stream(es[k].kind, 0, 0, [])
    decreases |es|
  {
    var e, rest := es[0], es[1..];
    var s := if e.id in streams then streams[e.id].(cid := e.kind) else Stream(e.kind, 0, 0, []);
    assert forall i :: 0 <= i < |rest| ==> rest[i] == es[i + 1];
    if k == 0 {
      MapUntouched(streams[e.id := s], rest, id);
    } else {
      MapLast(streams[e.id := s], rest, id, k - 1);
    }
  }

  ghost predicate Bounded(s: seq<byte>, us: seq<Unit>) {
    forall u :: u in us ==> u.begin < u.body <= u.end <= |s| && u.body < |s|
  }

  /** What a unit gives out: itself with the time in milliseconds, unless its type number is 9 for H.264 or 35 for
      H.265. */
  lemma UnitGivenOut(s: seq<byte>, u: Unit, cid: nat, pts: nat, dts: nat)
    requires Bounded(s, [u]) && (cid == 0x1B || cid == 0x24)
    ensures var b: int := s[u.body];
      Emitted(s, [u], cid, pts, dts)
      == if (if cid == 0x1B then b % 32 == 9 else (b / 2) % 64 == 35) then []
         else [Frame(s[u.begin..u.end], cid, pts / 90, dts / 90)]
  {
    assert [u][1..] == [];
    NoneEmitted(s, cid, pts, dts);
  }

  /** What units give out together is what they give out one after the other. */
  lemma {:induction false} UnitsGivenOut(s: seq<byte>, us: seq<Unit>, vs: seq<Unit>, cid: nat, pts: nat, dts: nat)
    requires Bounded(s, us) && Bounded(s, vs)
    ensures Bounded(s, us + vs)
    ensures Emitted(s, us + vs, cid, pts, dts) == Emitted(s, us, cid, pts, dts) + Emitted(s, vs, cid, pts, dts)
    decreases |us|
  {
    hide IsAud;
    if us == [] {
      assert us + vs == vs;
      NoneEmitted(s, cid, pts, dts);
      assert [] + Emitted(s, vs, cid, pts, dts) == Emitted(s, vs, cid, pts, dts);
    } else {
      assert (us + vs)[1..] == us[1..] + vs && (us + vs)[0] == us[0];
      UnitsGivenOut(s, us[1..], vs, cid, pts, dts);
      Regroup(s, us, vs, cid, pts, dts);
    }
  }

  lemma Regroup(s: seq<byte>, us: seq<Unit>, vs: seq<Unit>, cid: nat, pts: nat, dts: nat)
    requires us != [] && Bounded(s, us) && Bounded(s, vs) && Bounded(s, us + vs)
    requires Emitted(s, us[1..] + vs, cid, pts, dts)
          == Emitted(s, us[1..], cid, pts, dts) + Emitted(s, vs, cid, pts, dts)
    ensures Emitted(s, us + vs, cid, pts, dts) == Emitted(s, us, cid, pts, dts) + Emitted(s, vs, cid, pts, dts)
  {
    hide Emitted, IsAud;
    assert (us + vs)[1..] == us[1..] + vs && (us + vs)[0] == us[0];
    FirstOut(s, us, cid, pts, dts);
    FirstOut(s, us + vs, cid, pts, dts);
    Associate(if IsAud(cid, s[us[0].body]) then [] else [Frame(s[us[0].begin..us[0].end], cid, pts / 90, dts / 90)],
              Emitted(s, us[1..], cid, pts, dts), Emitted(s, vs, cid, pts, dts));
  }

  lemma FirstOut(s: seq<byte>, us: seq<Unit>, cid: nat, pts: nat, dts: nat)
    requires us != [] && Bounded(s, us)
    ensures Emitted(s, us, cid, pts, dts)
         == (if IsAud(cid, s[us[0].body]) then [] else [Frame(s[us[0].begin..us[0].end], cid, pts / 90, dts / 90)])
            + Emitted(s, us[1..], cid, pts, dts)
  {
    hide IsAud;
  }

  // ----- one turn of the loop -----

  datatype Error = Nil | More | Parser | NoHeader

  /** A turn consumes n bytes, or asks for more with the cursor k bytes in, or ends with an error;
      or it panics, or leaves the cursor where it was and goes on forever, or leaves the part that is modelled. */
  datatype Turn = Go(st: State, n: nat) | Wait(st: State, k: nat) | Fail(st: State, err: Error)
                | Boom | Forever | Mpeg1Packet

  predicate Skipped(code: nat) {
    0x1BD <= code <= 0x1BF || 0x1F0 <= code <= 0x1FB || code == 0x1FF
  }

  predicate IsPes(code: nat) {
    code / 32 == 0x1C0 / 32 || code / 32 == 0x1E0 / 32
  }

  function OnPack(st0: State, d: seq<byte>): Turn {
    var st := st0.(hasHeader := true);
    match ParsePack(d)
    case NeedMore(k) => Wait(st, k)
    case Done(n, p) => Go(st.(mpeg1 := st.mpeg1 || p.mpeg1), n)
    case _ => Fail(st, Parser)
  }

  function OnSystem(st: State, d: seq<byte>): Turn {
    if !st.hasHeader then Fail(st, NoHeader)
    else match ParseSystem(d)
      case NeedMore(k) => Wait(st, k)
      case Done(n, _) => Go(st, n)
      case _ => Fail(st, Parser)
  }

  function OnMap(st: State, d: seq<byte>): Turn {
    match ParseMap(d)
    case NeedMore(k) => Wait(st, k)
    case Done(n, m) => Go(st.(streams := ApplyMap(st.streams, m.entries)), n)
    case Crash => Boom
    case _ => Fail(st, Parser)
  }

  function OnSkipped(st: State, d: seq<byte>): Turn {
    match ParseSkipped(d)
    case NeedMore(k) => Wait(st, k)
    case Done(n, _) => Go(st, n)
    case _ => Boom
  }

  function OnPes(st: State, d: seq<byte>): Turn {
    if st.mpeg1 then Mpeg1Packet
    else match ParsePes(d)
      case NeedMore(k) => Wait(st.(pts := Later(PesTouch(d), st.pts)), k)
      case Done(n, p) => (match Deliver(st, p) case Some(st') => Go(st', n) case None => Boom)
      case _ => Boom
  }

  function OneTurn(st: State, d: seq<byte>): Turn
    requires |d| >= 4
  {
    var code := U32(d, 0);
    if code == 0x1BA then OnPack(st, d)
    else if code == 0x1BB then OnSystem(st, d)
    else if code == 0x1BC then OnMap(st, d)
    else if Skipped(code) then OnSkipped(st, d)
    else if code == 0x1B9 then Forever
    else if IsPes(code) then OnPes(st, d)
    else Go(st, 1)
  }

  /** The prefix codes by number: what a turn does for a pack header, a system header, a map, packets that are passed
      over by their length, PES packets, the end code, and any other bytes. */
  lemma TurnByCode(st: State, d: seq<byte>)
    requires |d| >= 6 && d[0] == 0 && d[1] == 0 && d[2] == 1
    ensures var c: int := d[3];
      var length: int := 256 * d[4] as int + d[5] as int;
      && (c in {0xBD, 0xBE, 0xBF, 0xF0, 0xF1, 0xF2, 0xF3, 0xF4, 0xF5, 0xF6, 0xF7, 0xF8, 0xF9, 0xFA, 0xFB, 0xFF} ==>
            OneTurn(st, d) == if 6 + length <= |d| then Go(st, 6 + length) else Wait(st, 0))
      && (c == 0xBA ==> OneTurn(st, d) == OnPack(st, d))
      && (c == 0xBB ==> OneTurn(st, d) == if st.hasHeader then OnSystem(st, d) else Fail(st, NoHeader))
      && (c == 0xBC ==> OneTurn(st, d) == OnMap(st, d))
      && (c == 0xB9 ==> OneTurn(st, d) == Forever)
      && (0xC0 <= c <= 0xEF || 0xFC <= c <= 0xFE ==> OneTurn(st, d) == OnPes(st, d))
      && (c < 0xB9 ==> OneTurn(st, d) == Go(st, 1))
  {
    hide OnPack, OnMap, OnPes, ParseSystem;
    assert U32(d, 0) == 0x100 + d[3] as int;
    assert U16(d, 4) == 256 * d[4] as int + d[5] as int;
  }

  /** Bytes that are no start code are passed over one by one. */
  lemma TurnOnOther(st: State, d: seq<byte>)
    requires |d| >= 4 && !(d[0] == 0 && d[1] == 0 && d[2] == 1)
    ensures OneTurn(st, d) == Go(st, 1)
  {
    hide OnPack, OnSystem, OnMap, OnSkipped, OnPes;
    assert U32(d, 0) < 0x100 || U32(d, 0) >= 0x200;
  }

  /** How a packet reaches a known audio stream, and with which stamps: its own, or for one without the last stamp seen;
      without a decoding stamp the presentation stamp counts. */
  lemma AudioStamps(st: State, p: Pes)
    requires p.id in st.streams && st.streams[p.id].cid in {0x0F, 0x90, 0x91}
    ensures var pts := match p.pts case Stamp(t) => t case NoStamp => st.pts;
      var dts := match p.dts case Stamp(t) => t case NoStamp => pts;
      var f := Frame(p.payload, st.streams[p.id].cid, pts / 90, dts / 90);
      Deliver(st, p) == Some(st.(pts := pts, out := st.out + [f]))
  {
    assert st.streams[p.id := st.streams[p.id]] == st.streams;
  }

  // ----- the loop -----

  /** `rest` is what the cursor has not passed. A stream map that sends the cursor past the end makes the program
      panic when it saves the rest. */
  datatype Result = Halt(st: State, rest: seq<byte>, err: Error) | Panics | Loops | Mpeg1

  function Run(st: State, d: seq<byte>): Result
    decreases |d|
  {
    if d == [] then Halt(st, d, Nil)
    else if |d| < 4 then Halt(st, d, More)
    else match OneTurn(st, d)
      case Go(st', n) => if 0 < n <= |d| then Run(st', d[n..]) else Panics
      case Wait(st', k) => Halt(st', if k <= |d| then d[k..] else [], More)
      case Fail(st', e) => Halt(st', d, e)
      case Boom => Panics
      case Forever => Loops
      case Mpeg1Packet => Mpeg1
  }

  /** The definition of Run, for one turn. */
  lemma RunStep(st: State, d: seq<byte>)
    requires d != []
    ensures if |d| < 4 then Run(st, d) == Halt(st, d, More)
      else match OneTurn(st, d)
        case Go(st', n) => Run(st, d) == if 0 < n <= |d| then Run(st', d[n..]) else Panics
        case Wait(st', k) => Run(st, d) == Halt(st', if k <= |d| then d[k..] else [], More)
        case Fail(st', e) => Run(st, d) == Halt(st', d, e)
        case Boom => Run(st, d) == Panics
        case Forever => Run(st, d) == Loops
        case Mpeg1Packet => Run(st, d) == Mpeg1
  {
    hide OneTurn;
  }

  /** No call of OnFrame is ever taken back. */
  lemma {:induction false} OutGrows(st: State, d: seq<byte>)
    ensures Run(st, d).Halt? ==> st.out <= Run(st, d).st.out
    decreases |d|
  {
    hide Run, OneTurn;
    if d == [] {
      RunEnd(st);
    } else {
      RunStep(st, d);
      if |d| >= 4 {
        TurnGrows(st, d);
        var t := OneTurn(st, d);
        if t.Go? && 0 < t.n <= |d| {
          OutGrows(t.st, d[t.n..]);
        }
      }
    }
  }

  lemma TurnGrows(st: State, d: seq<byte>)
    requires |d| >= 4
    ensures var t := OneTurn(st, d); t.Go? || t.Wait? || t.Fail? ==> st.out <= t.st.out
  {
    hide U32, ParsePack, ParseSystem, ParseMap, ParseSkipped, ParsePes, PesTouch, Deliver, ApplyMap;
    forall p: Pes
      ensures Deliver(st, p).Some? ==> st.out <= Deliver(st, p).value.out
    {
      DeliverGrows(st, p);
    }
  }

  lemma DeliverGrows(st: State, p: Pes)
    ensures Deliver(st, p).Some? ==> st.out <= Deliver(st, p).value.out
  {
    hide Feed, AudioVerify, H26xVerify;
  }

  lemma RunEnd(st: State)
    ensures Run(st, []) == Halt(st, [], Nil)
  {}

  /** Every turn that goes on consumes a byte at least, and a turn that asks for more has bytes left. Hence the loop
      ends, unless it reaches an end code. */
  lemma TurnLength(st: State, d: seq<byte>)
    requires |d| >= 4
    ensures match OneTurn(st, d)
      case Go(_, n) => n > 0
      case Wait(_, k) => k < |d|
      case Fail(_, e) => e == Parser || e == NoHeader
      case Forever => U32(d, 0) == 0x1B9
      case _ => true
  {
    hide Deliver, PesTouch, ApplyMap, MapEntries, StreamBounds, BitsVal, OptionalBits;
  }

  /** The bytes kept between two calls. */
  datatype Demux = Demux(st: State, cache: seq<byte>)

  datatype Reply = Reply(demux: Demux, err: Error) | NoReply

  /** One call of Input: what is left over is kept when more bytes are needed; after any other error the cache
      keeps the bytes that were parsed, if there was a cache before. */
  function Input(m: Demux, data: seq<byte>): Reply {
    var buf := m.cache + data;
    match Run(m.st, buf)
    case Halt(st, rest, Nil) => Reply(Demux(st, []), Nil)
    case Halt(st, rest, More) => Reply(Demux(st, rest), More)
    case Halt(st, rest, e) => Reply(Demux(st, if m.cache != [] then buf else []), e)
    case _ => NoReply
  }

  function InputAll(m: Demux, chunks: seq<seq<byte>>): Reply
    decreases |chunks|
  {
    if chunks == [] then Reply(m, Nil)
    else
      var r := Input(m, chunks[0]);
      if r.NoReply? || |chunks| == 1 then r else InputAll(r.demux, chunks[1..])
  }

  // ----- flushing -----

  /** Of the streams that are not in todo, those that hold bytes are in order, each once. */
  ghost predicate Drained(streams: map<nat, Stream>, order: seq<nat>, todo: set<nat>)
    ensures Drained(streams, order, todo) ==> forall id :: id in order ==> id in streams
  {
    && (forall id :: id in order <==> id in streams && id !in todo && streams[id].buf != [])
    && (forall i, j :: 0 <= i < j < |order| ==> order[i] != order[j])
  }

  lemma NoneDrained(streams: map<nat, Stream>)
    ensures Drained(streams, [], streams.Keys) && Leftover(streams, []) == []
  {}

  lemma OneDrained(streams: map<nat, Stream>, order: seq<nat>, todo: set<nat>, id: nat)
    requires Drained(streams, order, todo) && id in todo && id in streams
    ensures var s := streams[id];
      if s.buf == [] then Drained(streams, order, todo - {id})
      else Drained(streams, order + [id], todo - {id})
           && Leftover(streams, order + [id])
              == Leftover(streams, order) + [Frame(s.buf, s.cid, s.pts / 90, s.dts / 90)]
  {
    assert (order + [id])[..|order|] == order;
  }

  /** The frames that flushing the streams in this order gives. */
  function Leftover(streams: map<nat, Stream>, order: seq<nat>): seq<Frame>
    requires forall id :: id in order ==> id in streams
  {
    if order == [] then []
    else
      var s := streams[order[|order| - 1]];
      Leftover(streams, order[..|order| - 1]) + [Frame(s.buf, s.cid, s.pts / 90, s.dts / 90)]
  }

  lemma {:induction false} LeftoverAt(streams: map<nat, Stream>, order: seq<nat>, i: nat)
    requires i < |order| && forall id :: id in order ==> id in streams
    ensures |Leftover(streams, order)| == |order|
    ensures var s := streams[order[i]]; Leftover(streams, order)[i] == Frame(s.buf, s.cid, s.pts / 90, s.dts / 90)
    decreases |order|
  {
    LeftoverLength(streams, order);
    LeftoverLength(streams, order[..|order| - 1]);
    if i < |order| - 1 {
      LeftoverAt(streams, order[..|order| - 1], i);
    }
  }

  lemma {:induction false} LeftoverLength(streams: map<nat, Stream>, order: seq<nat>)
    requires forall id :: id in order ==> id in streams
    ensures |Leftover(streams, order)| == |order|
    decreases |order|
  {
    if order != [] {
      LeftoverLength(streams, order[..|order| - 1]);
    }
  }
}
