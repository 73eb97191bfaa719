/** Cutting a program stream into calls of Input does not matter: whatever the cuts, the state reached, and with
    it every call of OnFrame, is that of one call with all the bytes.
 */
module ChunkIndependence {
  import opened Wrappers
  import opened Bytes
  import opened Timestamp
  import opened PsFormat
  import opened StartCodes
  import opened DemuxSpec

  // ----- which streams -----

  /** A code the demuxer does something with, other than skipping a byte. */
  predicate Recognized(code: nat) {
    0x1B9 <= code <= 0x1FF
  }

  /** No recognized code stands at a position from `from` to before `to`. */
  ghost predicate Quiet(d: seq<byte>, from: nat, to: nat) {
    forall j: nat {:trigger U32(d, j)} :: from <= j < to && j + 4 <= |d| ==> !Recognized(U32(d, j))
  }

  /** Where an MPEG-2 pack header ends, as far as it is there. */
  function PackEnd(d: seq<byte>): (n: nat)
    ensures n <= |d|
  {
    if |d| < 14 || |d| - 14 < BitsVal(d, 109, 3) then |d| else 14 + BitsVal(d, 109, 3)
  }

  /** What is asked of the packet at the start of d, besides that it can be parsed. The body of a pack header
      must not look like the start of another packet, because a cut inside it loses its start code; the optional
      fields of a PES header must lie inside the header, and its length must be given (else the payload
      is whatever is there); the entries of a stream map must lie inside the map. */
  ghost predicate Tidy(d: seq<byte>)
    requires |d| >= 4
  {
    var code := U32(d, 0);
    if code == 0x1BA then (|d| >= 5 ==> BitsVal(d, 32, 2) == 1) && Quiet(d, 4, PackEnd(d))
    else if code == 0x1BC then ParseMap(d).Done? ==> EntriesFit(d)
    else if IsPes(code) && !Skipped(code) then |d| >= 9 ==> FieldsFit(d) && U16(d, 4) != 0
    else true
  }

  ghost predicate FieldsFit(d: seq<byte>)
    requires |d| >= 9
  {
    var headerLength: int := d[8];
    OptionalBits(d) <= 8 * headerLength
  }

  ghost predicate EntriesFit(d: seq<byte>)
    requires ParseMap(d).Done?
  {
    ParseMap(d).len == 16 + U16(d, 8) + (U16(d, 4) - U16(d, 8) - 10) % 0x1_0000
  }

  /** How far the packet at the start of d reaches, whatever the state of the demuxer. */
  function Extent(d: seq<byte>): Parsed<()>
    requires |d| >= 4
  {
    var code := U32(d, 0);
    if code == 0x1BA then Bare(ParsePack(d))
    else if code == 0x1BB then Bare(ParseSystem(d))
    else if code == 0x1BC then Bare(ParseMap(d))
    else if Skipped(code) then Bare(ParseSkipped(d))
    else if code == 0x1B9 then Malformed
    else if IsPes(code) then Bare(ParsePes(d))
    else Done(1, ())
  }

  function Bare<T>(p: Parsed<T>): Parsed<()> {
    match p
    case NeedMore(k) => NeedMore(k)
    case Done(n, _) => Done(n, ())
    case WrongCode => WrongCode
    case Malformed => Malformed
    case Crash => Crash
  }

  /** A stream of tidy packets, with any bytes in between, that may break off anywhere. */
  ghost predicate Good(d: seq<byte>)
    decreases |d|
  {
    |d| < 4 || (Tidy(d) && match Extent(d)
                           case Done(n, _) => 0 < n <= |d| && Good(d[n..])
                           case NeedMore(_) => true
                           case _ => false)
  }

  // ----- a parser applied to the first part of its bytes -----

  /** With all the bytes of a packet there, the result is the same; with some missing, more are asked for. */
  ghost predicate Stable<T>(px: Parsed<T>, pd: Parsed<T>, len: nat) {
    match pd
    case Done(n, _) => if n <= len then px == pd else px.NeedMore?
    case NeedMore(_) => px.NeedMore?
    case _ => true
  }

  lemma PackStable(x: seq<byte>, d: seq<byte>)
    requires x <= d && (|d| >= 5 ==> BitsVal(d, 32, 2) == 1)
    ensures Stable(ParsePack(x), ParsePack(d), |x|)
  {
    hide BitsVal, StampAt;
    BitsExtend(x, d);
    if |x| >= 14 {
      StampLocal(x, d, 34);
    }
  }

  lemma {:induction false} BoundsStable(x: seq<byte>, d: seq<byte>, o: nat, least: nat)
    requires x <= d && least % 3 == 0 && o + least <= |x|
    ensures StreamBounds(x, o, least) == StreamBounds(d, o, least)
    decreases least
  {
    hide BitsVal;
    BitsExtend(x, d);
    if least > 0 && BitsVal(x, 8 * o, 1) == 1 {
      BoundsStable(x, d, o + 3, least - 3);
    }
  }

  lemma SystemStable(x: seq<byte>, d: seq<byte>)
    requires x <= d
    ensures Stable(ParseSystem(x), ParseSystem(d), |x|)
  {
    hide BitsVal, StreamBounds;
    BitsExtend(x, d);
    if ParseSystem(d).Done? && |x| >= 12 && |x| - 6 >= U16(d, 4) {
      BoundsStable(x, d, 12, U16(d, 4) - 6);
    }
  }

  /** Entries that take up exactly the announced bytes are read the same with less behind them. */
  lemma {:induction false} EntriesStable(x: seq<byte>, d: seq<byte>, o: nat, i: nat, total: nat)
    requires x <= d && MapEntries(d, o, i, total).Done?
    requires MapEntries(d, o, i, total).len == o + total - i
    requires o + total - i <= |x|
    ensures MapEntries(x, o, i, total) == MapEntries(d, o, i, total)
    decreases |d| - o
  {
    hide BitsVal;
    BitsExtend(x, d);
    if i < total {
      EntriesReach(d, o, i, total);
      var e := MapEntryAt(d, o);
      var o', i' := o + 4 + e.infoLength, i + (4 + e.infoLength) % 0x1_0000;
      EntriesReach(d, o', i', total);
      EntriesStable(x, d, o', i', total);
    }
  }

  /** The cursor moves at least as far as the count of bytes does. */
  lemma {:induction false} EntriesReach(d: seq<byte>, o: nat, i: nat, total: nat)
    requires MapEntries(d, o, i, total).Done?
    ensures i <= total && MapEntries(d, o, i, total).len >= o + total - i
    ensures i < total ==> MapEntries(d, o, i, total).len >= o + 4
    decreases |d| - o
  {
    hide BitsVal;
    if i < total {
      var e := MapEntryAt(d, o);
      EntriesReach(d, o + 4 + e.infoLength, i + (4 + e.infoLength) % 0x1_0000, total);
    }
  }

  lemma MapStable(x: seq<byte>, d: seq<byte>)
    requires x <= d && (ParseMap(d).Done? ==> EntriesFit(d))
    ensures Stable(ParseMap(x), ParseMap(d), |x|)
  {
    hide BitsVal, MapEntries;
    BitsExtend(x, d);
    if ParseMap(d).Done? {
      var info := U16(d, 8);
      var total := (U16(d, 4) - info - 10) % 0x1_0000;
      if |x| >= 16 && |x| - 6 >= U16(d, 4) && |x| - 10 >= info + 2 && |x| - 12 - info >= total + 4 {
        EntriesStable(x, d, 12 + info, 0, total);
      }
    }
  }

  lemma SkippedStable(x: seq<byte>, d: seq<byte>)
    requires x <= d
    ensures Stable(ParseSkipped(x), ParseSkipped(d), |x|)
  {}

  lemma OptionalSame(x: seq<byte>, d: seq<byte>)
    requires x <= d && |x| >= 9
    ensures OptionalBits(x) == OptionalBits(d) && PayloadLength(x) == PayloadLength(d)
  {
    hide BitsVal;
    BitsExtend(x, d);
  }

  lemma StampsSame(x: seq<byte>, d: seq<byte>)
    requires x <= d && |x| >= 9 && 72 + OptionalBits(x) <= 8 * |x|
    ensures 72 + OptionalBits(d) <= 8 * |d|
    ensures PesPts(x) == PesPts(d) && PesDts(x) == PesDts(d)
  {
    hide BitsVal, StampAt;
    BitsExtend(x, d);
    OptionalSame(x, d);
    if BitsVal(x, 56, 2) / 2 == 1 {
      StampLocal(x, d, 76);
    }
    if BitsVal(x, 56, 2) == 3 {
      StampLocal(x, d, 116);
    }
  }

  lemma PesStable(x: seq<byte>, d: seq<byte>)
    requires x <= d && (|d| >= 9 ==> FieldsFit(d) && U16(d, 4) != 0)
    ensures Stable(ParsePes(x), ParsePes(d), |x|)
    ensures PesTouch(x).Stamp? ==> PesTouch(d) == PesTouch(x)
  {
    hide OptionalBits, PesPts, PesDts, PayloadLength;
    if |x| >= 9 {
      OptionalSame(x, d);
      if |x| - 9 >= x[8] {
        StampsSame(x, d);
        if ParsePes(d).Done? && ParsePes(d).len <= |x| {
          var headerLength: int := x[8];
          var start, end := 9 + headerLength, ParsePes(d).len;
          assert x[start..end] == d[start..end];
        }
      }
    }
  }

  // ----- a turn on the first part of its bytes -----

  lemma SameCode(x: seq<byte>, d: seq<byte>)
    requires x <= d && |x| >= 4
    ensures U32(x, 0) == U32(d, 0)
  {}

  /** The extent of a packet is where a turn that goes on leaves the cursor. */
  lemma TurnExtent(st: State, d: seq<byte>)
    requires |d| >= 4
    ensures match OneTurn(st, d)
      case Go(_, n) => Extent(d) == Done(n, ())
      case Wait(_, k) => Extent(d) == NeedMore(k)
      case _ => true
  {
    hide ParsePack, ParseSystem, ParseMap, ParseSkipped, ParsePes, U32, Deliver, ApplyMap, PesTouch;
  }

  /** When a turn on all the bytes goes on, or asks for more, the turn on the first part x of them does the same
      if it has the whole packet. Otherwise it asks for more, leaving the cursor in front of the packet or, for
      a pack header, four bytes in; and what it has changed in the state makes no difference to the turn
      on all the bytes. */
  ghost predicate Repeats(st: State, x: seq<byte>, d: seq<byte>)
    requires |x| >= 4 && |d| >= 4
  {
    var tx, td := OneTurn(st, x), OneTurn(st, d);
    if td.Go? && td.n <= |x| then tx == td
    else if td.Go? || td.Wait? then
      && tx.Wait? && OneTurn(tx.st, d) == td
      && (tx.k == 0 || (tx.k == 4 && U32(d, 0) == 0x1BA && tx.st == td.st))
    else true
  }

  lemma TurnRepeats(st: State, x: seq<byte>, d: seq<byte>)
    requires x <= d && |x| >= 4 && Tidy(d) && !st.mpeg1
    ensures Repeats(st, x, d)
  {
    hide U32, ParsePack, ParseSystem, ParseMap, ParseSkipped, ParsePes, PesTouch, Deliver, ApplyMap,
      FieldsFit, EntriesFit, Quiet, Skipped;
    SameCode(x, d);
    var code := U32(d, 0);
    if code == 0x1BA {
      PackStable(x, d);
      PackCursor(x);
      PackCursor(d);
    } else if code == 0x1BB {
      SystemStable(x, d);
      SystemCursor(x);
    } else if code == 0x1BC {
      MapStable(x, d);
      MapCursor(x);
    } else if Skipped(code) {
      SkippedStable(x, d);
      SkippedCursor(x);
    } else if IsPes(code) {
      PesStable(x, d);
      PesCursor(x);
      TouchIsPts(d);
      if ParsePes(d).Done? {
        DeliverOwnPts(st, PesTouch(x), ParsePes(d).value);
      }
    }
  }

  lemma TouchIsPts(d: seq<byte>)
    ensures ParsePes(d).Done? ==> PesTouch(d) == ParsePes(d).value.pts
  {
    hide OptionalBits, PesPts, PesDts, PayloadLength;
  }

  /** A packet with a time stamp of its own does not depend on the one before. */
  lemma DeliverOwnPts(st: State, touched: Stamp, p: Pes)
    requires touched.Stamp? ==> p.pts == touched
    ensures Deliver(st.(pts := Later(touched, st.pts)), p) == Deliver(st, p)
  {
    hide Guessed, FeedInto, AudioVerify, H26xVerify;
    if touched.Stamp? {
      assert st.(pts := touched.ticks).(pts := touched.ticks) == st.(pts := touched.ticks);
    } else {
      assert st.(pts := st.pts) == st;
    }
  }

  lemma PackCursor(x: seq<byte>)
    ensures ParsePack(x).NeedMore? ==> ParsePack(x).consumed == 0 || ParsePack(x).consumed == 4
    ensures ParsePack(x).Done? ==> |x| >= 5 && (BitsVal(x, 32, 2) == 1 ==> !ParsePack(x).value.mpeg1)
  {
    hide BitsVal, StampAt;
  }

  lemma SystemCursor(x: seq<byte>)
    ensures ParseSystem(x).NeedMore? ==> ParseSystem(x).consumed == 0
  {
    hide BitsVal, StreamBounds;
  }

  lemma MapCursor(x: seq<byte>)
    ensures ParseMap(x).NeedMore? ==> ParseMap(x).consumed == 0
  {
    hide BitsVal, MapEntries;
  }

  lemma SkippedCursor(x: seq<byte>)
    ensures ParseSkipped(x).NeedMore? ==> ParseSkipped(x).consumed == 0
  {}

  lemma PesCursor(x: seq<byte>)
    ensures ParsePes(x).NeedMore? ==> ParsePes(x).consumed == 0
  {
    hide OptionalBits;
  }

  /** Asking for more bytes leaves the cursor where it was, in front of a packet of any kind, but for a pack header,
      which may leave it behind its start code. */
  lemma NeedMoreCursor(st: State, d: seq<byte>)
    requires |d| >= 4
    ensures match OneTurn(st, d)
      case Wait(_, k) => k == 0 || (k == 4 && U32(d, 0) == 0x1BA)
      case _ => true
  {
    hide ParsePack, ParseSystem, ParseMap, ParseSkipped, ParsePes, U32, Deliver, ApplyMap, PesTouch;
    PackCursor(d);
    SystemCursor(d);
    MapCursor(d);
    SkippedCursor(d);
    PesCursor(d);
  }

  // ----- the loop on the first part of its bytes -----

  predicate Calm(e: Error) {
    e == Nil || e == More
  }

  /** Both runs end in the same state, having used up the bytes or asking for more. */
  predicate Agree(a: Result, b: Result) {
    a.Halt? && b.Halt? && a.st == b.st && Calm(a.err) && Calm(b.err)
  }

  lemma SkipTurn(st: State, d: seq<byte>)
    requires |d| >= 4 && !Recognized(U32(d, 0))
    ensures OneTurn(st, d) == Go(st, 1) && Extent(d) == Done(1, ()) && Tidy(d)
  {
    hide U32, ParsePack, ParseSystem, ParseMap, ParseSkipped, ParsePes;
  }

  /** Bytes among which no code stands are skipped one by one. */
  lemma {:induction false} QuietRun(st: State, e: seq<byte>, j: nat, end: nat)
    requires j <= end <= |e| && Quiet(e, j, end) && Good(e[end..])
    requires Run(st, e[end..]).Halt? && Calm(Run(st, e[end..]).err)
    ensures Good(e[j..]) && Agree(Run(st, e[j..]), Run(st, e[end..]))
    decreases end - j
  {
    hide U32, OneTurn, Run, Tidy, Extent;
    if j < end {
      var d := e[j..];
      RunStep(st, d);
      if |d| < 4 {
        RunShort(st, e[end..]);
      } else {
        assert U32(d, 0) == U32(e, j) by { U32Shift(e, j); }
        SkipTurn(st, d);
        assert d[1..] == e[j + 1..];
        QuietRun(st, e, j + 1, end);
      }
    }
  }

  lemma U32Shift(e: seq<byte>, j: nat)
    requires j + 4 <= |e|
    ensures U32(e[j..], 0) == U32(e, j)
  {}

  lemma RunShort(st: State, d: seq<byte>)
    requires |d| < 4
    ensures Agree(Run(st, d), Halt(st, d, More))
  {}

  /** A tidy packet does not turn the demuxer into an MPEG-1 one. */
  lemma StaysMpeg2(st: State, d: seq<byte>)
    requires |d| >= 4 && Tidy(d) && !st.mpeg1
    ensures match OneTurn(st, d)
      case Go(st', _) => !st'.mpeg1
      case Wait(st', _) => !st'.mpeg1
      case _ => true
  {
    hide U32, ParsePack, ParseSystem, ParseMap, ParseSkipped, ParsePes, PesTouch, Deliver, ApplyMap,
      FieldsFit, EntriesFit, Quiet, Skipped;
    PackCursor(d);
    if OnPes(st, d).Go? && ParsePes(d).Done? {
      DeliverMpeg2(st, ParsePes(d).value);
    }
  }

  lemma DeliverMpeg2(st: State, p: Pes)
    ensures Deliver(st, p).Some? ==> Deliver(st, p).value.mpeg1 == st.mpeg1
  {
    hide Feed, AudioVerify, H26xVerify;
  }

  /** An unfinished pack header reaches to the end of the bytes, a finished one to where it is parsed to. */
  lemma PackExtent(st: State, d: seq<byte>)
    requires |d| >= 4 && U32(d, 0) == 0x1BA && (|d| >= 5 ==> BitsVal(d, 32, 2) == 1)
    ensures match OneTurn(st, d)
      case Go(_, n) => n == PackEnd(d)
      case Wait(_, _) => PackEnd(d) == |d|
      case _ => true
  {
    hide BitsVal, U32, StampAt;
  }

  /** The bytes left over from the first part d, with the rest y behind them, lead to where all the bytes lead. */
  lemma {:induction false} Resume(st: State, d: seq<byte>, y: seq<byte>)
    requires Good(d + y) && !st.mpeg1
    requires Run(st, d + y).Halt? && Calm(Run(st, d + y).err)
    ensures var r := Run(st, d);
      && r.Halt? && Calm(r.err) && !r.st.mpeg1 && (r.err == Nil ==> r.rest == [])
      && Good(r.rest + y) && Agree(Run(r.st, r.rest + y), Run(st, d + y))
    decreases |d|
  {
    hide U32, OneTurn, Run, Tidy, Extent, Quiet;
    var e := d + y;
    if d == [] {
      RunEnd(st);
      assert [] + y == e;
    } else {
      RunStep(st, d);
      if |d| >= 4 {
        ResumeTurn(st, d, y);
        if OneTurn(st, e).Go? && OneTurn(st, e).n <= |d| {
          var n := OneTurn(st, e).n;
          assert e[n..] == d[n..] + y;
          Resume(OneTurn(st, e).st, d[n..], y);
        }
      }
    }
  }

  lemma ResumeTurn(st: State, d: seq<byte>, y: seq<byte>)
    requires |d| >= 4 && Good(d + y) && !st.mpeg1
    requires Run(st, d + y).Halt? && Calm(Run(st, d + y).err)
    ensures var e := d + y; var tx, td := OneTurn(st, d), OneTurn(st, e);
      if td.Go? && td.n <= |d| then
        && tx == td && 0 < td.n && Good(e[td.n..]) && !td.st.mpeg1 && Run(st, e) == Run(td.st, e[td.n..])
      else
        && tx.Wait? && tx.k <= |d| && !tx.st.mpeg1
        && Good(d[tx.k..] + y) && Agree(Run(tx.st, d[tx.k..] + y), Run(st, e))
  {
    hide U32, OneTurn, Run, Quiet, Skipped, FieldsFit, EntriesFit, ParseMap;
    var e := d + y;
    var tx, td := OneTurn(st, d), OneTurn(st, e);
    TurnRepeats(st, d, e);
    TurnExtent(st, e);
    RunStep(st, e);
    TurnLength(st, e);
    StaysMpeg2(st, e);
    if td.Go? && td.n <= |d| {
    } else {
      TurnLength(st, d);
      assert d[0..] + y == e;
      if tx.k == 0 {
        RunStep(tx.st, e);
        WaitMpeg2(st, d);
      } else {
        var end := PackEnd(e);
        PackExtent(st, e);
        assert d[4..] + y == e[4..];
        if td.Wait? {
          assert e[end..] == [];
          RunEnd(td.st);
        }
        QuietRun(td.st, e, 4, end);
      }
    }
  }

  lemma WaitMpeg2(st: State, x: seq<byte>)
    requires |x| >= 4 && OneTurn(st, x).Wait?
    ensures OneTurn(st, x).st.mpeg1 == st.mpeg1
  {
    hide U32, ParsePack, ParseSystem, ParseMap, ParseSkipped, ParsePes, PesTouch, Deliver, ApplyMap;
  }

  // ----- why a pack header cut in two does no harm -----

  /** The marker bits of an MPEG-2 pack header are set, its reserved bits are not all zero, and no stuffing byte is
      zero, as far as the header is there (section 2.5.3.3 of ISO/IEC 13818-1 asks for all of these to be ones). */
  ghost predicate Marked(d: seq<byte>) {
    && (|d| > 4 ==> BitsVal(d, 32, 2) == 1)
    && (|d| > 6 ==> BitsVal(d, 53, 1) == 1)
    && (|d| > 8 ==> BitsVal(d, 69, 1) == 1)
    && (|d| > 9 ==> BitsVal(d, 79, 1) == 1)
    && (|d| > 12 ==> BitsVal(d, 102, 1) == 1)
    && (|d| > 13 ==> BitsVal(d, 104, 5) != 0)
    && (forall j :: 14 <= j < PackEnd(d) ==> d[j] != 0)
  }

  lemma SetBits(d: seq<byte>, i: nat, k: nat, n: nat)
    requires i < |d| && k + n <= 8 && BitsVal(d, 8 * i + k, n) != 0
    ensures d[i] != 0 && (k + n < 8 ==> d[i] != 1)
  {
    hide BitsVal, Pow2;
    BitsInByte(d, i, k, n);
    SmallByte(0, Pow2(8 - k - n), Pow2(n));
    if k + n < 8 {
      TwoOrMore(8 - k - n);
      SmallByte(1, Pow2(8 - k - n), Pow2(n));
    }
  }

  lemma SmallByte(x: nat, p: nat, q: nat)
    requires x < p && q > 0
    ensures (x / p) % q == 0
  {}

  lemma TwoOrMore(k: nat)
    requires k > 0
    ensures Pow2(k) >= 2
  {}

  /** The marker bits stop the bytes of a pack header from looking like the start of a packet. */
  lemma MarkedQuiet(d: seq<byte>)
    requires |d| >= 4 && U32(d, 0) == 0x1BA && Marked(d)
    ensures Tidy(d)
  {
    hide BitsVal, Pow2;
    forall j: nat | 4 <= j < PackEnd(d) && j + 4 <= |d|
      ensures !Recognized(U32(d, j))
    {
      if |d| > 4 { SetBits(d, 4, 0, 2); }
      if |d| > 6 { SetBits(d, 6, 5, 1); }
      if |d| > 8 { SetBits(d, 8, 5, 1); }
      if |d| > 9 { SetBits(d, 9, 7, 1); }
      if |d| > 12 { SetBits(d, 12, 6, 1); }
      if |d| > 13 { SetBits(d, 13, 0, 5); }
      NoCodeBytes(d, j);
    }
  }

  lemma NoCodeBytes(d: seq<byte>, j: nat)
    requires j + 4 <= |d| && !(d[j] == 0 && d[j + 1] == 0 && d[j + 2] == 1)
    ensures !Recognized(U32(d, j))
  {}

  /** A pack header without its marker bits can be lost together with everything behind it: in one call these
      bytes are a complete header, in two calls the second one finds an end code in it and never returns. */
  lemma MarkersMatter()
    ensures var d: seq<byte> := [0, 0, 1, 0xBA, 0x44, 0, 0, 1, 0xB9, 0, 0, 0, 0, 0];
      && Input(Demux(INITIAL, []), d).Reply? && Input(Demux(INITIAL, []), d).err == Nil
      && InputAll(Demux(INITIAL, []), [d[..9], d[9..]]).NoReply?
  {
    hide Run;
    var d: seq<byte> := [0, 0, 1, 0xBA, 0x44, 0, 0, 1, 0xB9, 0, 0, 0, 0, 0];
    assert [] + d == d;
    MarkersMatterWhole();
    MarkersMatterCut();
  }

  lemma MarkersMatterWhole()
    ensures var d: seq<byte> := [0, 0, 1, 0xBA, 0x44, 0, 0, 1, 0xB9, 0, 0, 0, 0, 0];
      Run(INITIAL, d) == Halt(INITIAL.(hasHeader := true), [], Nil)
  {
    hide Run, ParsePack;
    var d: seq<byte> := [0, 0, 1, 0xBA, 0x44, 0, 0, 1, 0xB9, 0, 0, 0, 0, 0];
    WholeHeader(d);
    RunStep(INITIAL, d);
    RunEnd(INITIAL.(hasHeader := true));
  }

  lemma WholeHeader(d: seq<byte>)
    requires d == [0, 0, 1, 0xBA, 0x44, 0, 0, 1, 0xB9, 0, 0, 0, 0, 0]
    ensures ParsePack(d).Done? && ParsePack(d).len == 14 && !ParsePack(d).value.mpeg1 && d[14..] == []
  {
    hide BitsVal, StampAt;
    BitsInByte(d, 4, 0, 2);
    BitsInByte(d, 13, 5, 3);
    Pow2Values();
  }

  lemma MarkersMatterCut()
    ensures var d: seq<byte> := [0, 0, 1, 0xBA, 0x44, 0, 0, 1, 0xB9, 0, 0, 0, 0, 0];
      InputAll(Demux(INITIAL, []), [d[..9], d[9..]]).NoReply?
  {
    hide Run;
    var d: seq<byte> := [0, 0, 1, 0xBA, 0x44, 0, 0, 1, 0xB9, 0, 0, 0, 0, 0];
    var x := d[..9];
    FirstPart(x);
    var st := INITIAL.(hasHeader := true);
    assert [] + x == x;
    var rest := x[4..];
    assert Input(Demux(INITIAL, []), x) == Reply(Demux(st, rest), More);
    SecondPart(st, rest + d[9..]);
    assert [x, d[9..]][1..] == [d[9..]];
  }

  lemma FirstPart(x: seq<byte>)
    requires x == [0, 0, 1, 0xBA, 0x44, 0, 0, 1, 0xB9]
    ensures Run(INITIAL, x) == Halt(INITIAL.(hasHeader := true), x[4..], More)
  {
    hide BitsVal, StampAt, Run;
    BitsInByte(x, 4, 0, 2);
    Pow2Values();
    assert ParsePack(x) == NeedMore(4);
    RunStep(INITIAL, x);
  }

  lemma SecondPart(st: State, b: seq<byte>)
    requires b == [0x44, 0, 0, 1, 0xB9, 0, 0, 0, 0, 0]
    ensures Run(st, b) == Loops
  {
    hide Run;
    RunStep(st, b);
    SkipTurn(st, b);
    RunStep(st, b[1..]);
  }

  /** A packet without a length takes whatever is there: the same packet with more bytes behind it has a longer
      payload. */
  lemma NoLengthTakesAll(d: seq<byte>, y: seq<byte>)
    requires |d| >= 9 && U16(d, 4) == 0 && ParsePes(d).Done?
    ensures ParsePes(d + y).Done? && ParsePes(d + y).len == |d| + |y|
    ensures ParsePes(d + y).value == ParsePes(d).value.(payload := ParsePes(d).value.payload + y)
  {
    hide OptionalBits, PesPts, PesDts, PayloadLength, ParsePes, U16;
    ParsePesStep(d);
    ParsePesStep(d + y);
    OptionalSame(d, d + y);
    StampsSame(d, d + y);
    assert U16(d + y, 4) == U16(d, 4) by { Behind(d, y); }
    var headerLength: int := d[8];
    var rest := d[9 + headerLength..];
    DropFront(d, y, 9 + headerLength);
    assert rest[..|rest|] == rest && (rest + y)[..|rest + y|] == rest + y;
  }

  /** So a second call with the bytes y gives out an audio packet without a length that one call with all bytes takes
      for longer: the frames differ, if the second call does not fail. */
  lemma NoLengthMatters(m: Demux, d: seq<byte>, y: seq<byte>)
    requires |d| >= 9 && IsPes(U32(d, 0)) && !Skipped(U32(d, 0)) && U16(d, 4) == 0 && ParsePes(d).Done?
    requires m.cache == [] && !m.st.mpeg1 && y != []
    requires var id: nat := d[3] as int; id in m.st.streams && IsAudio(m.st.streams[id].cid)
    ensures var whole, cut := Input(m, d + y), InputAll(m, [d, y]);
      whole.Reply? && (cut.NoReply? || cut.demux.st.out != whole.demux.st.out)
  {
    hide ParsePes, U32, U16, Run, IsPes, Skipped, IsAudio, Deliver;
    NoLengthTakesAll(d, y);
    NoLengthWhole(d);
    SameCode(d, d + y);
    LastOne(m.st, d);
    LastOne(m.st, d + y);
    var f, f' := OnlyFrame(m.st, ParsePes(d).value), OnlyFrame(m.st, ParsePes(d + y).value);
    assert |f'.data| == |f.data| + |y|;
    assert [] + d == d && [] + (d + y) == d + y && [] + y == y;
    assert [d, y][1..] == [y] && [y][0] == y;
    var st := Deliver(m.st, ParsePes(d).value).value;
    assert Input(m, d) == Reply(Demux(st, []), Nil);
    OutGrows(st, y);
    assert (m.st.out + [f])[|m.st.out|] == f && (m.st.out + [f'])[|m.st.out|] == f';
  }

  lemma NoLengthWhole(d: seq<byte>)
    requires |d| >= 9 && U16(d, 4) == 0 && ParsePes(d).Done?
    ensures ParsePes(d).len == |d| && ParsePes(d).value.id == d[3] as int
  {
    hide OptionalBits, PesPts, PesDts, PayloadLength, U16;
  }

  /** What an audio stream makes of a packet. */
  function OnlyFrame(st: State, p: Pes): Frame
    requires p.id in st.streams
  {
    var pts := Later(p.pts, st.pts);
    Frame(p.payload, st.streams[p.id].cid, pts / 90, Later(p.dts, pts) / 90)
  }

  /** An audio packet that is all there is gives one frame. */
  lemma LastOne(st: State, d: seq<byte>)
    requires |d| >= 9 && IsPes(U32(d, 0)) && !Skipped(U32(d, 0)) && !st.mpeg1
    requires ParsePes(d).Done? && ParsePes(d).len == |d|
    requires var p := ParsePes(d).value; p.id in st.streams && IsAudio(st.streams[p.id].cid)
    ensures var st' := Deliver(st, ParsePes(d).value);
      && st'.Some? && st'.value.out == st.out + [OnlyFrame(st, ParsePes(d).value)]
      && Run(st, d) == Halt(st'.value, [], Nil)
  {
    hide ParsePes, U32, Run, IsPes, Skipped;
    AudioDelivered(st, ParsePes(d).value);
    hide Deliver;
    OnlyPacket(st, d);
  }

  /** A buffer that is one packet: the packet is delivered, and nothing is left. */
  lemma OnlyPacket(st: State, d: seq<byte>)
    requires |d| >= 9 && IsPes(U32(d, 0)) && !Skipped(U32(d, 0)) && !st.mpeg1
    requires ParsePes(d).Done? && ParsePes(d).len == |d| && Deliver(st, ParsePes(d).value).Some?
    ensures Run(st, d) == Halt(Deliver(st, ParsePes(d).value).value, [], Nil)
  {
    hide ParsePes, U32, Run, IsPes, Skipped, Deliver;
    RunStep(st, d);
    PesTurnIs(st, d);
    RunEnd(Deliver(st, ParsePes(d).value).value);
    assert d[|d|..] == [];
  }

  lemma AudioDelivered(st: State, p: Pes)
    requires p.id in st.streams && IsAudio(st.streams[p.id].cid)
    ensures var st' := Deliver(st, p);
      && st'.Some? && st'.value.out == st.out + [OnlyFrame(st, p)]
      && st'.value.streams == st.streams && st'.value.pts == Later(p.pts, st.pts)
      && st'.value.mpeg1 == st.mpeg1 && st'.value.hasHeader == st.hasHeader
  {
    hide IsAudio;
    assert st.streams[p.id := st.streams[p.id]] == st.streams;
  }

  lemma PesTurnIs(st: State, d: seq<byte>)
    requires |d| >= 4 && IsPes(U32(d, 0)) && !Skipped(U32(d, 0)) && ParsePes(d).Done? && !st.mpeg1
    ensures OneTurn(st, d) == match Deliver(st, ParsePes(d).value)
                              case Some(st') => Go(st', ParsePes(d).len)
                              case None => Boom
  {
    hide ParsePes, Deliver, OnPack, OnSystem, OnSkipped, OnMap, U32;
  }

  lemma DropFront(d: seq<byte>, y: seq<byte>, k: nat)
    requires k <= |d|
    ensures (d + y)[k..] == d[k..] + y
  {}

  lemma Behind(d: seq<byte>, y: seq<byte>)
    requires |d| >= 6
    ensures U16(d + y, 4) == U16(d, 4)
  {}

  /** A packet whose optional fields reach beyond its header can be read as a whole, but cut off behind the header it
      makes the program panic. */
  lemma FieldsMatter(m: Demux, d: seq<byte>)
    requires |d| >= 9 && IsPes(U32(d, 0)) && !Skipped(U32(d, 0)) && ParsePes(d).Done? && !FieldsFit(d)
    requires !m.st.mpeg1 && m.cache == []
    ensures var headerLength: int := d[8]; 9 + headerLength <= |d| && Input(m, d[..9 + headerLength]).NoReply?
  {
    hide OptionalBits, PesPts, PesDts, PayloadLength, Run, OneTurn, IsPes, Skipped, U32;
    var headerLength: int := d[8];
    assert 9 + headerLength <= |d|;
    var x := d[..9 + headerLength];
    OptionalSame(x, d);
    SameCode(x, d);
    assert ParsePes(x) == Crash;
    RunStep(m.st, x);
    BadPesTurn(m.st, x);
    assert [] + x == x;
  }

  lemma BadPesTurn(st: State, x: seq<byte>)
    requires |x| >= 4 && IsPes(U32(x, 0)) && !Skipped(U32(x, 0)) && ParsePes(x) == Crash && !st.mpeg1
    ensures OneTurn(st, x) == Boom
  {
    hide ParsePes, Deliver, OnPack, OnSystem, OnSkipped, OnMap, U32;
  }

  /** Five bytes of fields are announced that the header has no room for: one call succeeds, two fail. */
  lemma FieldsMatterHere()
    ensures var d: seq<byte> := [0, 0, 1, 0xC0, 0, 8, 0x80, 0x80, 0, 1, 2, 3, 4, 5];
      && Input(Demux(INITIAL, []), d).Reply? && Input(Demux(INITIAL, []), d).err == Nil
      && InputAll(Demux(INITIAL, []), [d[..9], d[9..]]).NoReply?
  {
    hide Run, ParsePes, FieldsFit, IsPes, Skipped;
    var d: seq<byte> := [0, 0, 1, 0xC0, 0, 8, 0x80, 0x80, 0, 1, 2, 3, 4, 5];
    var m := Demux(INITIAL, []);
    FiveFields(d);
    assert d[8] == 0;
    FiveFieldsTurn(d);
    FieldsMatter(m, d);
    assert [d[..9], d[9..]][0] == d[..9];
  }

  lemma FiveFieldsTurn(d: seq<byte>)
    requires |d| == 14 && U32(d, 0) == 0x1C0 && ParsePes(d).Done? && ParsePes(d).len == 14
    requires ParsePes(d).value.id == 0xC0
    ensures Input(Demux(INITIAL, []), d).Reply? && Input(Demux(INITIAL, []), d).err == Nil
    ensures IsPes(0x1C0) && !Skipped(0x1C0)
  {
    hide Run, ParsePes, Feed, H26xVerify;
    RunStep(INITIAL, d);
    var st := INITIAL.(pts := Later(ParsePes(d).value.pts, INITIAL.pts));
    assert OneTurn(INITIAL, d) == Go(st, 14);
    RunEnd(st);
    assert d[14..] == [] && [] + d == d;
  }

  lemma FiveFields(d: seq<byte>)
    requires d == [0, 0, 1, 0xC0, 0, 8, 0x80, 0x80, 0, 1, 2, 3, 4, 5]
    ensures ParsePes(d).Done? && ParsePes(d).len == 14 && !FieldsFit(d)
    ensures ParsePes(d).value.id == 0xC0 && U32(d, 0) == 0x1C0
  {
    hide OptionalBits, PesPts, PesDts;
    OnlyPts(d);
  }

  lemma OnlyPts(d: seq<byte>)
    requires |d| >= 9 && d[7] == 0x80
    ensures OptionalBits(d) == 40
  {
    hide BitsVal;
    BitsInByte(d, 7, 0, 2);
    BitsInByte(d, 7, 2, 1);
    BitsInByte(d, 7, 3, 1);
    BitsInByte(d, 7, 4, 1);
    BitsInByte(d, 7, 5, 1);
    BitsInByte(d, 7, 6, 1);
    Pow2Values();
  }

  /** A map whose entries reach beyond it can be read with what follows it, but cut off behind its own bytes it is an
      error. */
  lemma EntriesMatter(m: Demux, d: seq<byte>)
    requires |d| >= 4 && U32(d, 0) == 0x1BC && ParseMap(d).Done? && !EntriesFit(d) && m.cache == []
    ensures var end := 16 + U16(d, 8) + (U16(d, 4) - U16(d, 8) - 10) % 0x1_0000;
      && end < |d|
      && var r := Input(m, d[..end]); r.NoReply? || r.err == Parser
  {
    hide Run, MapEntries, BitsVal;
    var total := (U16(d, 4) - U16(d, 8) - 10) % 0x1_0000;
    var end := 16 + U16(d, 8) + total;
    var x := d[..end];
    CutMap(x, d);
    assert x != d;
    SameCode(x, d);
    BadMap(m, x);
  }

  lemma BadMap(m: Demux, x: seq<byte>)
    requires |x| >= 4 && U32(x, 0) == 0x1BC && m.cache == [] && (ParseMap(x).Malformed? || ParseMap(x).Crash?)
    ensures var r := Input(m, x); r.NoReply? || r.err == Parser
  {
    hide Run, OneTurn, ParseMap, U32;
    RunStep(m.st, x);
    BadMapTurn(m.st, x);
    assert [] + x == x;
  }

  lemma BadMapTurn(st: State, x: seq<byte>)
    requires |x| >= 4 && U32(x, 0) == 0x1BC && (ParseMap(x).Malformed? || ParseMap(x).Crash?)
    ensures OneTurn(st, x) == Boom || OneTurn(st, x) == Fail(st, Parser)
  {
    hide ParseMap, ApplyMap, OnPack, OnSystem, OnSkipped, OnPes, U32;
  }

  /** The cursor and the 16-bit count of bytes differ by whole rounds of the count. */
  lemma {:induction false} EntriesRounds(d: seq<byte>, o: nat, i: nat, total: nat)
    requires MapEntries(d, o, i, total).Done? && o <= |d|
    ensures o <= MapEntries(d, o, i, total).len <= |d|
    ensures (MapEntries(d, o, i, total).len - o - (total - i)) % 0x1_0000 == 0
    decreases |d| - o
  {
    hide MapEntries, MapEntryAt;
    if i < total {
      EntriesStep(d, o, i, total);
      var e := MapEntryAt(d, o);
      EntriesRounds(d, o + 4 + e.infoLength, i + (4 + e.infoLength) % 0x1_0000, total);
      OneRound(MapEntries(d, o, i, total).len, o, total - i, 4 + e.infoLength);
    } else {
      EntriesEnd(d, o, i, total);
    }
  }

  lemma OneRound(len: int, o: int, left: int, n: nat)
    requires (len - (o + n) - (left - n % 0x1_0000)) % 0x1_0000 == 0
    ensures (len - o - left) % 0x1_0000 == 0
  {}

  /** Entries that can be read in the first part of the bytes are read the same in all of them. */
  lemma {:induction false} EntriesExtend(x: seq<byte>, d: seq<byte>, o: nat, i: nat, total: nat)
    requires x <= d && MapEntries(x, o, i, total).Done?
    ensures MapEntries(d, o, i, total) == MapEntries(x, o, i, total)
    decreases |x| - o
  {
    hide BitsVal;
    BitsExtend(x, d);
    if i < total {
      var e := MapEntryAt(x, o);
      EntriesExtend(x, d, o + 4 + e.infoLength, i + (4 + e.infoLength) % 0x1_0000, total);
    }
  }

  lemma CutMap(x: seq<byte>, d: seq<byte>)
    requires ParseMap(d).Done? && !EntriesFit(d)
    requires x <= d && |x| == 16 + U16(d, 8) + (U16(d, 4) - U16(d, 8) - 10) % 0x1_0000
    ensures ParseMap(x).Malformed? || ParseMap(x).Crash?
  {
    hide BitsVal, MapEntries;
    BitsExtend(x, d);
    var info := U16(d, 8);
    var total := (U16(d, 4) - info - 10) % 0x1_0000;
    assert U16(x, 4) == U16(d, 4) && U16(x, 8) == info && U32(x, 0) == U32(d, 0);
    if MapEntries(x, 12 + info, 0, total).Done? {
      EntriesExtend(x, d, 12 + info, 0, total);
      EntriesReach(x, 12 + info, 0, total);
      EntriesRounds(x, 12 + info, 0, total);
      assert false;
    }
  }

  /** The first entry announces 65532 bytes of its own, which the 16-bit count takes for none. */
  function LongEntry(): (d: seq<byte>)
    ensures IsLongEntry(d)
  {
    [0, 0, 1, 0xBC, 0, 14, 0, 0, 0, 0, 0, 4, 0x1B, 0xE0, 0xFF, 0xFC] + seq(65532, i => 0)
    + [0x0F, 0xC0, 0, 0, 0, 0, 0, 0]
  }

  predicate IsLongEntry(d: seq<byte>) {
    && |d| == 65556 && U32(d, 0) == 0x1BC && U16(d, 4) == 14 && U16(d, 8) == 0
    && U16(d, 14) == 65532 && U16(d, 65550) == 0
  }

  lemma LongEntryParsed(d: seq<byte>)
    requires IsLongEntry(d)
    ensures ParseMap(d).Done? && ParseMap(d).len == 65556
  {
    hide MapEntries, BitsVal;
    EntriesStep(d, 12, 0, 4);
    assert MapEntryAt(d, 12).infoLength == 65532;
    EntriesStep(d, 65548, 0, 4);
    assert MapEntryAt(d, 65548).infoLength == 0;
    EntriesEnd(d, 65552, 4, 4);
  }

  lemma LongEntryCut(x: seq<byte>, d: seq<byte>)
    requires IsLongEntry(d) && x <= d && |x| == 20
    ensures ParseMap(x) == Malformed && U32(x, 0) == 0x1BC
  {
    hide MapEntries, BitsVal;
    assert U32(x, 0) == U32(d, 0) && U16(x, 4) == U16(d, 4) && U16(x, 8) == U16(d, 8) && U16(x, 14) == U16(d, 14);
    EntriesStep(x, 12, 0, 4);
    assert MapEntryAt(x, 12).infoLength == 65532;
  }

  /** One call with such a map succeeds; cut behind its first 20 bytes it is an error. */
  lemma EntriesMatterHere()
    ensures var m, d := Demux(INITIAL, []), LongEntry();
      && Input(m, d).Reply? && Input(m, d).err == Nil
      && Input(m, d[..20]).Reply? && Input(m, d[..20]).err == Parser
  {
    hide Run, ParseMap, ApplyMap, LongEntry;
    var m, d := Demux(INITIAL, []), LongEntry();
    var x := d[..20];
    LongEntryParsed(d);
    LongEntryCut(x, d);
    RunStep(INITIAL, d);
    RunEnd(INITIAL.(streams := ApplyMap(INITIAL.streams, ParseMap(d).value.entries)));
    assert d[65556..] == [] && [] + d == d;
    RunStep(INITIAL, x);
    assert [] + x == x;
  }

  // ----- calls of Input -----

  /** Any cutting of a good stream into calls of Input ends in the state of a single call, with the same frames
      emitted, and without an error. */
  lemma {:induction false} AnyChunks(m: Demux, chunks: seq<seq<byte>>)
    requires chunks != [] && !m.st.mpeg1
    requires Good(m.cache + Flatten(chunks))
    requires var r := Input(m, Flatten(chunks)); r.Reply? && Calm(r.err)
    ensures var r := InputAll(m, chunks);
      r.Reply? && Calm(r.err) && r.demux.st == Input(m, Flatten(chunks)).demux.st
    decreases |chunks|
  {
    hide Run, Good;
    var c, rest := chunks[0], chunks[1..];
    assert m.cache + Flatten(chunks) == (m.cache + c) + Flatten(rest);
    Resume(m.st, m.cache + c, Flatten(rest));
    if rest == [] {
      assert c + [] == c;
    } else {
      AnyChunks(Input(m, c).demux, rest);
    }
  }
}
