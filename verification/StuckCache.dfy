/** What becomes of the demuxer of gb28181/mpegps/ps_demuxer.go after an error in a call of Input that began with bytes
    kept from before: the cache then keeps all bytes, also those that were parsed.
 */
module StuckCache {
  import opened Wrappers
  import opened Bytes
  import opened Timestamp
  import opened PsFormat
  import opened StartCodes
  import opened DemuxSpec
  import opened ChunkIndependence

  // ----- bytes that end at a bad header -----

  /** A pack or system header that is an error. */
  ghost predicate BadHeader(d: seq<byte>)
    requires |d| >= 4
  {
    (U32(d, 0) == 0x1BA && ParsePack(d) == Malformed) || (U32(d, 0) == 0x1BB && ParseSystem(d) == Malformed)
  }

  /** Packets that are all there, and behind them a bad header. */
  ghost predicate Stuck(d: seq<byte>)
    decreases |d|
  {
    |d| >= 4 && (BadHeader(d) || match Extent(d)
                                 case Done(n, _) => 0 < n <= |d| && Stuck(d[n..])
                                 case _ => false)
  }

  /** An error at a pack or system header. */
  ghost predicate StopsAtHeader(r: Result) {
    r.Halt? && r.err == Parser && |r.rest| >= 4 && (U32(r.rest, 0) == 0x1BA || U32(r.rest, 0) == 0x1BB)
  }

  lemma {:induction false} StuckAfter(st: State, d: seq<byte>)
    requires StopsAtHeader(Run(st, d))
    ensures Stuck(d) && Run(st, d).st.hasHeader
    decreases |d|
  {
    hide Run, OneTurn, Extent, BadHeader, U32;
    if d == [] {
      RunEnd(st);
    } else {
      RunStep(st, d);
      if |d| >= 4 {
        TurnExtent(st, d);
        BadTurn(st, d);
        var t := OneTurn(st, d);
        if t.Go? {
          StuckAfter(t.st, d[t.n..]);
        }
      }
    }
  }

  lemma BadTurn(st: State, d: seq<byte>)
    requires |d| >= 4
    ensures var t := OneTurn(st, d);
      t.Fail? && t.err == Parser && (U32(d, 0) == 0x1BA || U32(d, 0) == 0x1BB) ==> BadHeader(d) && t.st.hasHeader
    ensures BadHeader(d) && st.hasHeader ==> OneTurn(st, d) == Fail(st, Parser)
  {
    hide ParseMap, ParseSkipped, ParsePes, PesTouch, Deliver, ApplyMap, BitsVal, StreamBounds, StampAt;
  }

  // ----- more bytes behind it make no difference -----

  lemma PackExtends(d: seq<byte>, y: seq<byte>)
    requires |d| >= 4 && (ParsePack(d).Done? || ParsePack(d).Malformed?)
    ensures ParsePack(d + y) == ParsePack(d)
  {
    hide BitsVal, StampAt;
    BitsExtend(d, d + y);
    SameCode(d, d + y);
    if ParsePack(d).Done? {
      if BitsVal(d, 32, 2) == 1 {
        StampLocal(d, d + y, 34);
      } else {
        StampLocal(d, d + y, 36);
      }
    }
  }

  lemma SystemExtends(d: seq<byte>, y: seq<byte>)
    requires |d| >= 4 && (ParseSystem(d).Done? || ParseSystem(d).Malformed?)
    ensures ParseSystem(d + y) == ParseSystem(d)
  {
    hide BitsVal, StreamBounds;
    BitsExtend(d, d + y);
    SameCode(d, d + y);
    assert U16(d + y, 4) == U16(d, 4);
    var l := U16(d, 4);
    if l >= 6 && (l - 6) % 3 == 0 {
      BoundsStable(d, d + y, 12, l - 6);
    }
  }

  lemma MapExtends(d: seq<byte>, y: seq<byte>)
    requires |d| >= 4 && ParseMap(d).Done?
    ensures ParseMap(d + y) == ParseMap(d)
  {
    hide BitsVal, MapEntries;
    BitsExtend(d, d + y);
    SameCode(d, d + y);
    assert U16(d + y, 4) == U16(d, 4) && U16(d + y, 8) == U16(d, 8);
    EntriesExtend(d, d + y, 12 + U16(d, 8), 0, (U16(d, 4) - U16(d, 8) - 10) % 0x1_0000);
  }

  lemma PesExtends(d: seq<byte>, y: seq<byte>)
    requires ParsePes(d).Done? && ParsePes(d).len < |d|
    ensures ParsePes(d + y) == ParsePes(d)
  {
    hide OptionalBits, PesPts, PesDts, PayloadLength;
    OptionalSame(d, d + y);
    StampsSame(d, d + y);
    var headerLength: int := d[8];
    var start, end := 9 + headerLength, ParsePes(d).len;
    assert (d + y)[start..end] == d[start..end];
  }

  lemma TurnExtends(st: State, d: seq<byte>, y: seq<byte>)
    requires |d| >= 4 && Extent(d).Done? && Extent(d).len < |d|
    ensures OneTurn(st, d + y) == OneTurn(st, d)
  {
    hide U32, ParsePack, ParseSystem, ParseMap, ParsePes, PesTouch, Deliver, ApplyMap;
    SameCode(d, d + y);
    var code := U32(d, 0);
    if code == 0x1BA {
      PackExtends(d, y);
    } else if code == 0x1BB {
      SystemExtends(d, y);
    } else if code == 0x1BC {
      MapExtends(d, y);
    } else if Skipped(code) {
      assert U16(d + y, 4) == U16(d, 4);
    } else if IsPes(code) {
      PesExtends(d, y);
    }
  }

  lemma BadExtends(d: seq<byte>, y: seq<byte>)
    requires |d| >= 4 && BadHeader(d)
    ensures BadHeader(d + y)
  {
    hide U32, ParsePack, ParseSystem;
    SameCode(d, d + y);
    if U32(d, 0) == 0x1BA {
      PackExtends(d, y);
    } else {
      SystemExtends(d, y);
    }
  }

  lemma ExtentTurn(st: State, d: seq<byte>)
    requires |d| >= 4 && Extent(d).Done?
    ensures var t := OneTurn(st, d);
      (t.Go? && t.n == Extent(d).len) || t == Boom || t == Mpeg1Packet || t == Fail(st, NoHeader)
    ensures st.hasHeader ==> OneTurn(st, d) != Fail(st, NoHeader)
    ensures OneTurn(st, d).Go? && st.hasHeader ==> OneTurn(st, d).st.hasHeader
  {
    hide U32, ParsePack, ParseSystem, ParseMap, ParseSkipped, ParsePes, PesTouch, ApplyMap, Feed, AudioVerify,
      H26xVerify;
  }

  /** Whatever stands behind the bad header, the loop ends at it, in the same state. */
  lemma {:induction false} StuckRun(st: State, d: seq<byte>, y: seq<byte>)
    requires Stuck(d) && st.hasHeader
    ensures match Run(st, d)
      case Halt(st', rest, e) => e == Parser && st'.hasHeader && Run(st, d + y) == Halt(st', rest + y, Parser)
      case Panics => Run(st, d + y) == Panics
      case Loops => false
      case Mpeg1 => Run(st, d + y) == Mpeg1
    decreases |d|
  {
    hide Run, OneTurn, Extent, BadHeader;
    RunStep(st, d);
    RunStep(st, d + y);
    if BadHeader(d) {
      BadExtends(d, y);
      BadTurn(st, d);
      BadTurn(st, d + y);
    } else {
      var n := Extent(d).len;
      TurnExtends(st, d, y);
      ExtentTurn(st, d);
      var t := OneTurn(st, d);
      if t.Go? {
        StuckRun(t.st, d[n..], y);
        assert (d + y)[n..] == d[n..] + y;
      }
    }
  }

  // ----- calls of Input -----

  /** The state after the same bytes have been parsed k times. */
  function Again(st: State, d: seq<byte>, k: nat): Option<State>
    decreases k
  {
    if k == 0 then Some(st)
    else match Run(st, d)
      case Halt(st', _, _) => Again(st', d, k - 1)
      case _ => None
  }

  /** Once a call that began with kept bytes has met a bad pack or system header, no byte of any later call is ever
      looked at: each of them parses the same bytes again, ends in the same error, unless the program panics
      over them, and makes the cache longer by its bytes. */
  lemma StuckForever(m: Demux, data: seq<byte>, chunks: seq<seq<byte>>)
    requires m.cache != [] && StopsAtHeader(Run(m.st, m.cache + data)) && chunks != []
    ensures var r := Input(m, data);
      && r.Reply? && r.err == Parser && r.demux.cache == m.cache + data
      && match Again(r.demux.st, r.demux.cache, |chunks|)
         case Some(st) => InputAll(r.demux, chunks) == Reply(Demux(st, r.demux.cache + Flatten(chunks)), Parser)
         case None => InputAll(r.demux, chunks).NoReply?
  {
    hide Run, Again, Stuck, InputAll, Flatten;
    StuckAfter(m.st, m.cache + data);
    var st := Run(m.st, m.cache + data).st;
    assert m.cache + data + [] == m.cache + data;
    StuckCalls(st, m.cache + data, [], chunks);
  }

  lemma {:induction false} StuckCalls(st: State, d: seq<byte>, y: seq<byte>, chunks: seq<seq<byte>>)
    requires Stuck(d) && st.hasHeader && chunks != []
    ensures match Again(st, d, |chunks|)
      case Some(st') => InputAll(Demux(st, d + y), chunks) == Reply(Demux(st', d + y + Flatten(chunks)), Parser)
      case None => InputAll(Demux(st, d + y), chunks).NoReply?
    decreases |chunks|
  {
    hide Run, Stuck;
    var c, rest := chunks[0], chunks[1..];
    StuckRun(st, d, y + c);
    assert d + y + c == d + (y + c);
    assert Stuck(d) ==> d != [] by { NotEmpty(d); }
    if Run(st, d).Halt? {
      if rest == [] {
        assert chunks == [c];
        OneChunk(c);
        assert Again(st, d, 1) == Some(Run(st, d).st);
      } else {
        StuckCalls(Run(st, d).st, d, y + c, rest);
        assert d + (y + c) + Flatten(rest) == d + y + (c + Flatten(rest));
      }
    }
  }

  lemma NotEmpty(d: seq<byte>)
    requires Stuck(d)
    ensures d != []
  {}

  lemma OneChunk(c: seq<byte>)
    ensures Flatten([c]) == c
  {
    assert [c][1..] == [] && c + [] == c;
  }

  // ----- what is given out again -----

  function Copies(f: Frame, k: nat): seq<Frame> {
    if k == 0 then [] else [f] + Copies(f, k - 1)
  }

  /** An audio packet in front of the bad header is given out once more by every call. */
  lemma {:induction false} GivenAgain(st: State, d: seq<byte>, k: nat)
    requires |d| >= 4 && IsPes(U32(d, 0)) && !Skipped(U32(d, 0)) && !st.mpeg1 && st.hasHeader
    requires ParsePes(d).Done? && ParsePes(d).len + 4 <= |d| && BadHeader(d[ParsePes(d).len..])
    requires var p := ParsePes(d).value; p.id in st.streams && IsAudio(st.streams[p.id].cid)
    ensures var r := Again(st, d, k);
      r.Some? && r.value.out == st.out + Copies(OnlyFrame(st, ParsePes(d).value), k)
    decreases k
  {
    hide ParsePes, Run, IsPes, Skipped, U32, BadHeader, IsAudio, Deliver;
    if k == 0 {
      assert st.out + [] == st.out;
    } else {
      var p, n := ParsePes(d).value, ParsePes(d).len;
      AudioDelivered(st, p);
      PesTurnIs(st, d);
      PesReaches(d);
      RunStep(st, d);
      var st' := Deliver(st, p).value;
      RunStep(st', d[n..]);
      BadTurn(st', d[n..]);
      assert Run(st, d) == Halt(st', d[n..], Parser);
      GivenAgain(st', d, k - 1);
      assert st.out + [OnlyFrame(st, p)] + Copies(OnlyFrame(st, p), k - 1) == st.out + Copies(OnlyFrame(st, p), k);
    }
  }

  lemma PesReaches(d: seq<byte>)
    requires ParsePes(d).Done?
    ensures ParsePes(d).len >= 9
  {
    hide OptionalBits, PesPts, PesDts, PayloadLength;
  }

  /** A pack header that begins with neither version number, cut behind its start code: the demuxer is of no use
      any more, whatever is fed to it. */
  lemma StuckHere(chunks: seq<seq<byte>>)
    requires chunks != []
    ensures var r := InputAll(Demux(INITIAL, []), [[0, 0, 1, 0xBA], [0]]);
      && r.Reply? && r.err == Parser
      && InputAll(r.demux, chunks) == Reply(Demux(r.demux.st, [0, 0, 1, 0xBA, 0] + Flatten(chunks)), Parser)
  {
    hide Run, Again, Flatten;
    var m, st := Demux(INITIAL, []), INITIAL.(hasHeader := true);
    var code: seq<byte> := [0, 0, 1, 0xBA];
    var d := code + [0];
    ShortHeader(INITIAL, code);
    NoVersion(INITIAL, d);
    NoVersion(st, d);
    assert [] + code == code && [code, [0]][1..] == [[0]];
    assert Input(m, code) == Reply(Demux(st, code), More);
    NoVersion(st, code + [0]);
    StuckForever(Demux(st, code), [0], chunks);
    SameAgain(st, d, |chunks|);
  }

  lemma {:induction false} SameAgain(st: State, d: seq<byte>, k: nat)
    requires Run(st, d) == Halt(st, d, Parser)
    ensures Again(st, d, k) == Some(st)
    decreases k
  {
    hide Run;
    if k > 0 {
      SameAgain(st, d, k - 1);
    }
  }

  lemma ShortHeader(st: State, x: seq<byte>)
    requires x == [0, 0, 1, 0xBA]
    ensures Run(st, x) == Halt(st.(hasHeader := true), x, More)
  {
    hide Run;
    RunStep(st, x);
    assert x[0..] == x;
  }

  lemma NoVersion(st: State, d: seq<byte>)
    requires d == [0, 0, 1, 0xBA, 0]
    ensures Run(st, d) == Halt(st.(hasHeader := true), d, Parser)
  {
    hide Run, BitsVal, StampAt;
    BitsInByte(d, 4, 0, 2);
    BitsInByte(d, 4, 0, 4);
    Pow2Values();
    assert ParsePack(d) == Malformed;
    RunStep(st, d);
  }
}
