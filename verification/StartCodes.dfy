/** Start codes and NAL units in a byte stream (Annex B of ITU-T H.264), and the codec
    guesses made from them: gb28181/mpegps/util.go.
 */
module StartCodes {
  import opened Bytes

  const STREAM_AAC: nat := 0x0F
  const STREAM_H264: nat := 0x1B
  const STREAM_H265: nat := 0x24
  const STREAM_G711A: nat := 0x90
  const STREAM_G711U: nat := 0x91
  const STREAM_UNKNOWN: nat := 0xFF

  /** NAL unit types of the access unit delimiter. */
  const AUD_H264: nat := 9
  const AUD_H265: nat := 35

  /** The bytes 00 00 01 stand at position i. */
  predicate CodeAt(s: seq<byte>, i: nat) {
    i + 3 <= |s| && s[i] == 0 && s[i + 1] == 0 && s[i + 2] == 1
  }

  /** The first position from `from` on where 00 00 01 stands, or |s|. */
  function NextCode(s: seq<byte>, from: nat): (i: nat)
    requires from <= |s|
    ensures from <= i <= |s| && (i < |s| ==> CodeAt(s, i))
    ensures forall j :: from <= j < i ==> !CodeAt(s, j)
    decreases |s| - from
  {
    if from == |s| || CodeAt(s, from) then from else NextCode(s, from + 1)
  }

  /** Where a start code of 3 or 4 bytes begins, if there is one; the program returns -1 for none. */
  datatype Found = Nowhere | At(begin: nat, size: nat)

  /** The first start code from offset on; it takes in a zero byte in front of 00 00 01 if there is one. */
  function FindStartCode(nalu: seq<byte>, offset: nat): (f: Found)
    requires offset <= |nalu|
    ensures f.Nowhere? <==> forall j :: offset <= j ==> !CodeAt(nalu, j)
    ensures f.At? ==> IsStartCode(nalu, f.begin, f.size) && offset <= f.begin
    ensures f.At? ==> forall j :: offset <= j < f.begin + f.size - 3 ==> !CodeAt(nalu, j)
  {
    var idx := NextCode(nalu, offset);
    if idx == |nalu| then
      assert forall j :: offset <= j < |nalu| ==> !CodeAt(nalu, j);
      Nowhere
    else if idx > offset && nalu[idx - 1] == 0 then At(idx - 1, 4)
    else
      assert CodeAt(nalu, idx);
      At(idx, 3)
  }

  predicate IsStartCode(s: seq<byte>, begin: nat, size: nat) {
    (size == 3 && CodeAt(s, begin)) || (size == 4 && CodeAt(s, begin + 1) && s[begin] == 0)
  }

  // ----- NAL units -----

  /** A NAL unit: its start code begins at `begin`, its first byte is at `body`, and it ends before `end`. */
  datatype Unit = Unit(begin: nat, body: nat, end: nat)

  /** The NAL units of s from the start code f on. */
  function Units(s: seq<byte>, f: Found): (us: seq<Unit>)
    requires f.At? ==> IsStartCode(s, f.begin, f.size)
    ensures forall u :: u in us ==> u.begin < u.body <= u.end <= |s|
    decreases if f.At? then |s| - f.begin + 1 else 0
  {
    if f.Nowhere? then []
    else
      var body := f.begin + f.size;
      var next := FindStartCode(s, body);
      if next.Nowhere? then [Unit(f.begin, body, |s|)]
      else [Unit(f.begin, body, next.begin)] + Units(s, next)
  }

  function AllUnits(s: seq<byte>): (us: seq<Unit>)
    ensures forall u :: u in us ==> u.begin < u.body <= u.end <= |s|
  {
    Units(s, FindStartCode(s, 0))
  }

  /** The units follow each other without a gap, from `from` to the end of s. */
  ghost predicate Tiles(us: seq<Unit>, from: nat, len: nat) {
    if us == [] then from == len
    else us[0].begin == from && us[0].end <= len && Tiles(us[1..], us[0].end, len)
  }

  /** No start code lies inside the body of the unit. */
  ghost predicate CodeFree(s: seq<byte>, u: Unit) {
    forall j :: u.body <= j && j + 3 <= u.end ==> !CodeAt(s, j)
  }

  ghost predicate WellCut(s: seq<byte>, u: Unit) {
    && u.begin <= u.body <= u.end <= |s|
    && IsStartCode(s, u.begin, u.body - u.begin)
    && CodeFree(s, u)
  }

  /** Splitting is a partition: the units cover everything from the first start code on, each begins
      with a start code, and none has one inside. */
  lemma {:induction false} UnitsPartition(s: seq<byte>, f: Found)
    requires f.At? && IsStartCode(s, f.begin, f.size)
    ensures Tiles(Units(s, f), f.begin, |s|) && Units(s, f) != []
    ensures forall u :: u in Units(s, f) ==> WellCut(s, u)
    decreases |s| - f.begin
  {
    hide Units, FindStartCode, IsStartCode, WellCut;
    UnitsStep(s, f);
    FirstCut(s, f);
    var us, next := Units(s, f), FindStartCode(s, f.begin + f.size);
    if next.Nowhere? {
      NoUnits(s);
    } else {
      UnitsPartition(s, next);
    }
    assert forall v :: v in us ==> v == us[0] || v in us[1..];
  }

  lemma FirstCut(s: seq<byte>, f: Found)
    requires f.At? && IsStartCode(s, f.begin, f.size)
    ensures f.begin + f.size <= |s|
    ensures var next := FindStartCode(s, f.begin + f.size);
      WellCut(s, Unit(f.begin, f.begin + f.size, if next.At? then next.begin else |s|))
  {
    hide FindStartCode;
  }

  /** The bytes of the units, joined. */
  function Joined(s: seq<byte>, us: seq<Unit>): seq<byte>
    requires forall u :: u in us ==> u.begin <= u.end <= |s|
  {
    if us == [] then [] else s[us[0].begin..us[0].end] + Joined(s, us[1..])
  }

  /** Nothing is lost or doubled by splitting. */
  lemma {:induction false} JoinedTiles(s: seq<byte>, us: seq<Unit>, from: nat)
    requires Tiles(us, from, |s|) && from <= |s| && forall u :: u in us ==> u.begin <= u.end <= |s|
    ensures Joined(s, us) == s[from..]
    decreases |us|
  {
    if us == [] {
    } else {
      JoinedTiles(s, us[1..], us[0].end);
      assert s[from..] == s[from..us[0].end] + s[us[0].end..];
    }
  }

  lemma AllUnitsJoined(s: seq<byte>)
    ensures forall u :: u in AllUnits(s) ==> WellCut(s, u)
    ensures var f := FindStartCode(s, 0);
      s == (if f.At? then s[..f.begin] else s) + Joined(s, AllUnits(s))
  {
    var f := FindStartCode(s, 0);
    if f.At? {
      UnitsPartition(s, f);
      JoinedTiles(s, AllUnits(s), f.begin);
    }
  }

  /** H264NaluType and H265NaluType search the start code again, in the buffer from the unit on;
      they find it at its very beginning. */
  lemma FoundAgain(s: seq<byte>, begin: nat, size: nat)
    requires IsStartCode(s, begin, size)
    ensures FindStartCode(s[begin..], 0) == At(0, size)
  {
    var t := s[begin..];
    assert forall j: nat {:trigger CodeAt(t, j)} :: CodeAt(t, j) <==> CodeAt(s, begin + j);
    var f := FindStartCode(t, 0);
    if size == 3 {
      assert CodeAt(t, 0);
    } else {
      assert CodeAt(t, 1) && !CodeAt(t, 0);
    }
  }

  function NaluType264(b: byte): nat { b % 32 }

  function NaluType265(b: byte): nat { (b / 2) % 64 }

  /** The units of a frame without their start codes are what SplitFrame hands to its callback. */
  function Bodies(s: seq<byte>, us: seq<Unit>): seq<seq<byte>>
    requires forall u :: u in us ==> u.body <= u.end <= |s|
  {
    if us == [] then [] else [s[us[0].body..us[0].end]] + Bodies(s, us[1..])
  }

  /** What SplitFrame hands to a callback: the callback says whether to go on. */
  function HandedOn(bodies: seq<seq<byte>>, onFrame: seq<byte> -> bool): (r: seq<seq<byte>>)
    ensures r <= bodies && (forall i :: 0 <= i < |r| - 1 ==> onFrame(r[i]))
    ensures |r| < |bodies| ==> r != [] && !onFrame(r[|r| - 1])
  {
    if bodies == [] then []
    else if onFrame(bodies[0]) then [bodies[0]] + HandedOn(bodies[1..], onFrame)
    else [bodies[0]]
  }

  /** Hands the units without their start codes to the callback until it says to stop. */
  method SplitFrame(frames: seq<byte>, onFrame: seq<byte> -> bool) returns (nalus: seq<seq<byte>>)
    ensures nalus <= Bodies(frames, AllUnits(frames)) && forall i :: 0 <= i < |nalus| - 1 ==> onFrame(nalus[i])
    ensures |nalus| < |Bodies(frames, AllUnits(frames))| ==> nalus != [] && !onFrame(nalus[|nalus| - 1])
  {
    hide Units, Bodies, IsStartCode, HandedOn;
    nalus := [];
    var f := FindStartCode(frames, 0);
    ghost var all := HandedOn(Bodies(frames, AllUnits(frames)), onFrame);
    assert nalus + all == all;
    while f.At?
      invariant f.At? ==> IsStartCode(frames, f.begin, f.size) && f.begin + f.size <= |frames|
      invariant nalus + HandedOn(Bodies(frames, Units(frames, f)), onFrame) == all
      decreases if f.At? then |frames| - f.begin + 1 else 0
    {
      var next := FindStartCode(frames, f.begin + f.size);
      UnitsStep(frames, f);
      HandOnStep(frames, Units(frames, f), onFrame, nalus);
      if next.Nowhere? {
        nalus := nalus + [frames[f.begin + f.size..]];
        NoUnits(frames);
        assert Units(frames, f)[1..] == [];
        assert frames[f.begin + f.size..|frames|] == frames[f.begin + f.size..];
        assert nalus + [] == nalus;
        return;
      }
      var nalu := frames[f.begin + f.size..next.begin];
      nalus := nalus + [nalu];
      if !onFrame(nalu) {
        return;
      }
      CodeInside(frames, next);
      f := next;
    }
    NoUnits(frames);
    assert nalus + [] == nalus;
  }

  lemma HandOnStep(s: seq<byte>, us: seq<Unit>, onFrame: seq<byte> -> bool, done: seq<seq<byte>>)
    requires us != [] && forall u :: u in us ==> u.body <= u.end <= |s|
    ensures var nalu := s[us[0].body..us[0].end];
      done + HandedOn(Bodies(s, us), onFrame)
      == if onFrame(nalu) then done + [nalu] + HandedOn(Bodies(s, us[1..]), onFrame) else done + [nalu]
    ensures HandedOn([], onFrame) == []
  {
    var nalu := s[us[0].body..us[0].end];
    assert Bodies(s, us) == [nalu] + Bodies(s, us[1..]);
  }

  lemma CodeInside(s: seq<byte>, f: Found)
    requires f.At? && IsStartCode(s, f.begin, f.size)
    ensures f.begin + f.size <= |s| && f.size >= 3
  {}

  lemma NoUnits(s: seq<byte>)
    ensures Units(s, Nowhere) == [] && Bodies(s, []) == []
  {}

  /** The first unit ends where the next start code begins. */
  lemma UnitsStep(s: seq<byte>, f: Found)
    requires f.At? && IsStartCode(s, f.begin, f.size)
    ensures f.size >= 3 && f.begin + f.size <= |s|
    ensures var next := FindStartCode(s, f.begin + f.size);
      var us := Units(s, f);
      && us != [] && us[0] == Unit(f.begin, f.begin + f.size, if next.At? then next.begin else |s|)
      && us[1..] == Units(s, next)
  {}

  // ----- codec guesses -----

  datatype Codec = CodecUnknown | CodecH264 | CodecH265 | CodecH266 | CodecMpeg4

  /** The position behind the first 00 00 01 that has at least two bytes behind it, or 0. */
  function FindNalu(data: seq<byte>): (n: nat)
    ensures n > 0 ==> n + 1 < |data|
  {
    var i := NextCode(data, 0);
    if i + 4 < |data| then i + 3 else 0
  }

  /** The size is that of the start code with all zero bytes in front of it. */
  method MpegH264FindNALU(data: seq<byte>) returns (n: int, size: nat)
    ensures n == if FindNalu(data) > 0 then FindNalu(data) else -1
    ensures n == -1 ==> size == 0
    ensures n > 0 ==> 3 <= size <= n <= |data| && data[n - 1] == 1
    ensures n > 0 ==> (forall j :: n - size <= j < n - 1 ==> data[j] == 0) && (size < n ==> data[n - size - 1] != 0)
  {
    var zeros := 0;
    var i := 0;
    while i + 2 < |data|
      invariant 0 <= zeros <= i
      invariant forall j :: i - zeros <= j < i && j < |data| ==> data[j] == 0
      invariant 0 < i <= |data| && zeros < i ==> data[i - zeros - 1] != 0
      invariant forall j :: 0 <= j && j + 3 <= i ==> !CodeAt(data, j)
      decreases |data| - i
    {
      if data[i] == 0x01 && zeros >= 2 {
        assert CodeAt(data, i - 2);
        return i + 1, zeros + 1;
      }
      assert i >= 2 ==> (zeros == 0 ==> data[i - 1] != 0) && (zeros == 1 ==> data[i - 2] != 0);
      if data[i] == 0 {
        zeros := zeros + 1;
      } else {
        zeros := 0;
      }
      i := i + 1;
    }
    return -1, 0;
  }

  /** The first two bytes of up to `count` units. */
  function Heads(data: seq<byte>, count: nat): seq<(byte, byte)>
    decreases count
  {
    if data == [] || count == 0 || FindNalu(data) == 0 then []
    else
      var n := FindNalu(data);
      [(data[n], data[n + 1])] + Heads(data[n..], count - 1)
  }

  function Types264(hs: seq<(byte, byte)>): set<nat> {
    set h | h in hs :: NaluType264(h.0)
  }

  function Types265(hs: seq<(byte, byte)>): set<nat> {
    set h | h in hs :: NaluType265(h.0)
  }

  function Types266(hs: seq<(byte, byte)>): set<nat> {
    set h | h in hs :: (h.1 / 8) % 32
  }

  /** The codec whose parameter sets (and IDR slice, for H.264) all occur, if that is only one. */
  function Verdict(hs: seq<(byte, byte)>): Codec {
    var h264 := {5, 7, 8} <= Types264(hs);
    var h265 := {32, 33, 34} <= Types265(hs);
    var h266 := {14, 15} <= Types266(hs);
    if h264 && !h265 && !h266 then CodecH264
    else if h265 && !h264 && !h266 then CodecH265
    else if h266 && !h264 && !h265 then CodecH266
    else if hs != [] && hs[0].0 == 0xB0 && (hs[0].1 / 16) % 4 == 0 then CodecMpeg4
    else CodecUnknown
  }

  function H26xVerify(data: seq<byte>): Codec {
    Verdict(Heads(data, 10))
  }

  /** The flag words, whose bits are cleared as types are seen, are kept as the sets of types still missing. */
  method MpegH26xVerify(data: seq<byte>) returns (c: Codec)
    ensures c == H26xVerify(data)
  {
    hide Heads, Types264, Types265, Types266, NaluType264, NaluType265;
    NoTypes();
    var heads := CollectHeads(data);
    var h264Flags: set<nat>, h265Flags: set<nat>, h266Flags: set<nat> := {5, 7, 8}, {32, 33, 34}, {14, 15};
    for n := 0 to |heads|
      invariant h264Flags == {5, 7, 8} - Types264(heads[..n])
      invariant h265Flags == {32, 33, 34} - Types265(heads[..n])
      invariant h266Flags == {14, 15} - Types266(heads[..n])
    {
      TypesStep(heads, n);
      h264Flags := h264Flags - {NaluType264(heads[n].0)};
      h265Flags := h265Flags - {NaluType265(heads[n].0)};
      h266Flags := h266Flags - {(heads[n].1 / 8) % 32};
    }
    assert heads[..|heads|] == heads;
    Missing({5, 7, 8}, Types264(heads));
    Missing({32, 33, 34}, Types265(heads));
    Missing({14, 15}, Types266(heads));
    if h264Flags == {} && h265Flags != {} && h266Flags != {} {
      return CodecH264;
    } else if h265Flags == {} && h264Flags != {} && h266Flags != {} {
      return CodecH265;
    } else if h266Flags == {} && h264Flags != {} && h265Flags != {} {
      return CodecH266;
    } else if heads != [] && heads[0].0 == 0xB0 && (heads[0].1 / 16) % 4 == 0 {
      return CodecMpeg4;
    }
    return CodecUnknown;
  }

  /** The first loop of mpegH26xVerify: the leading bytes of at most ten units. */
  method CollectHeads(data: seq<byte>) returns (heads: seq<(byte, byte)>)
    ensures heads == Heads(data, 10)
  {
    hide Heads, FindNalu;
    heads := [];
    var p := 0;
    assert data[0..] == data;
    while p < |data| && |heads| < 10
      invariant 0 <= p <= |data| && |heads| <= 10
      invariant heads + Heads(data[p..], 10 - |heads|) == Heads(data, 10)
      decreases 10 - |heads|
    {
      var n, _ := MpegH264FindNALU(data[p..]);
      if n == -1 {
        break;
      }
      HeadsStep(data, p, n, 10 - |heads|, heads);
      heads := heads + [(data[p + n], data[p + n + 1])];
      p := p + n;
    }
    HeadsEnd(data[p..], 10 - |heads|);
    assert heads + [] == heads;
  }

  lemma HeadsEnd(d: seq<byte>, count: nat)
    requires d == [] || count == 0 || FindNalu(d) == 0
    ensures Heads(d, count) == []
  {}

  lemma HeadsStep(data: seq<byte>, p: nat, n: nat, count: nat, done: seq<(byte, byte)>)
    requires p <= |data| && n > 0 && n == FindNalu(data[p..]) && count > 0
    ensures p + n + 1 < |data|
    ensures done + Heads(data[p..], count) == done + [(data[p + n], data[p + n + 1])] + Heads(data[p + n..], count - 1)
  {
    var d := data[p..];
    assert d[n..] == data[p + n..];
  }

  lemma NoTypes()
    ensures Types264([]) == {} && Types265([]) == {} && Types266([]) == {}
  {}

  lemma Missing(want: set<nat>, have: set<nat>)
    ensures want - have == {} <==> want <= have
  {
    if want - have == {} {
      assert forall x :: x in want ==> x in want - have || x in have;
    }
  }

  lemma TypesStep(hs: seq<(byte, byte)>, n: nat)
    requires n < |hs|
    ensures Types264(hs[..n + 1]) == Types264(hs[..n]) + {NaluType264(hs[n].0)}
    ensures Types265(hs[..n + 1]) == Types265(hs[..n]) + {NaluType265(hs[n].0)}
    ensures Types266(hs[..n + 1]) == Types266(hs[..n]) + {(hs[n].1 / 8) % 32}
  {
    assert hs[..n + 1] == hs[..n] + [hs[n]];
    assert forall h :: h in hs[..n + 1] <==> h in hs[..n] || h == hs[n];
  }

  datatype Guess = Likely(cid: nat) | NoBytes

  /** An ADTS header whose length field is the length of the data makes it AAC, else it is taken for G.711.
      NoBytes stands for the panic on data too short to look at. */
  function AudioVerify(data: seq<byte>): Guess {
    if |data| == 0 || (data[0] == 0xFF && |data| == 1) then NoBytes
    else if data[0] == 0xFF && data[1] / 16 == 0xF && |data| > 7 && |data| == AdtsLength(data) then Likely(STREAM_AAC)
    else Likely(STREAM_G711A)
  }

  function AdtsLength(data: seq<byte>): int
    requires |data| > 7
  {
    var a: int, b: int, c: int := data[3], data[4], data[5];
    (a % 4) * 0x800 + b * 8 + c / 32
  }
}
