/** What the decoders of gb28181/mpegps/ps_proto.go and pes_proto.go make of the bytes d
    at the cursor, as functions of those bytes alone. Field positions are those of
    ISO/IEC 13818-1: pack header 2.5.3.3, system header 2.5.3.5, program stream map 2.5.4,
    PES packet 2.4.3.7.
 */
module PsFormat {
  import opened Bytes
  import opened Timestamp

  /** NeedMore leaves the cursor `consumed` bytes in; Done leaves it behind `len` bytes;
      WrongCode and Malformed are errors; Crash is an out-of-range read, a panic. */
  datatype Parsed<+T> = NeedMore(consumed: nat) | WrongCode | Malformed | Crash | Done(len: nat, value: T)

  datatype Pack = Pack(mpeg1: bool, base: nat, extension: nat, muxRate: nat, stuffing: nat)

  datatype StreamBound = StreamBound(id: nat, scale: nat, bound: nat)

  datatype System = System(
    rateBound: nat, audioBound: nat, fixedFlag: nat, cspsFlag: nat, audioLock: nat, videoLock: nat,
    videoBound: nat, restriction: nat, streams: seq<StreamBound>)

  datatype MapEntry = MapEntry(kind: nat, id: nat, infoLength: nat)

  datatype StreamMap = StreamMap(current: nat, version: nat, entries: seq<MapEntry>)

  datatype Stamp = NoStamp | Stamp(ticks: nat)

  datatype Pes = Pes(id: nat, pts: Stamp, dts: Stamp, payload: seq<byte>)

  // ----- pack header -----

  function ParsePack(d: seq<byte>): Parsed<Pack> {
    if |d| < 5 then NeedMore(0)
    else if U32(d, 0) != 0x1BA then WrongCode
    else if BitsVal(d, 32, 2) == 1 then
      if |d| - 4 < 10 || |d| - 14 < BitsVal(d, 109, 3) then NeedMore(4)
      else
        var s := BitsVal(d, 109, 3);
        Done(14 + s, Pack(false, StampAt(d, 34), BitsVal(d, 70, 9), BitsVal(d, 80, 22), s))
    else if BitsVal(d, 32, 4) == 2 then
      if |d| - 4 < 8 then NeedMore(4)
      else
        Done(12, Pack(true, StampAt(d, 36), 1, BitsVal(d, 72, 7) * 0x8000 + BitsVal(d, 80, 15), 0))
    else Malformed
  }

  /** The two versions of a pack header by its fifth byte: MPEG-2 begins with the bits 01, takes 14 bytes and the
      stuffing that the last three bits announce; MPEG-1 begins with 0010 and takes 12; anything else is an error. */
  lemma PackVersions(d: seq<byte>)
    requires |d| >= 5 && d[0] == 0 && d[1] == 0 && d[2] == 1 && d[3] == 0xBA
    ensures 0x40 <= d[4] < 0x80 ==>
      if |d| < 14 || |d| < 14 + d[13] as int % 8 then ParsePack(d) == NeedMore(4)
      else ParsePack(d).Done? && ParsePack(d).len == 14 + d[13] as int % 8 && !ParsePack(d).value.mpeg1
    ensures 0x20 <= d[4] < 0x30 ==>
      if |d| < 12 then ParsePack(d) == NeedMore(4)
      else ParsePack(d).Done? && ParsePack(d).len == 12 && ParsePack(d).value.mpeg1
    ensures !(0x40 <= d[4] < 0x80) && !(0x20 <= d[4] < 0x30) ==> ParsePack(d) == Malformed
  {
    hide BitsVal, StampAt, Pow2;
    Pow2Values();
    BitsInByte(d, 4, 0, 2);
    BitsInByte(d, 4, 0, 4);
    if |d| >= 14 {
      BitsInByte(d, 13, 5, 3);
    }
    assert U32(d, 0) == 0x1BA;
  }

  // ----- system header -----

  function StreamBoundAt(d: seq<byte>, o: nat): StreamBound
    requires o + 3 <= |d|
  {
    StreamBound(BitsVal(d, 8 * o, 8), BitsVal(d, 8 * o + 10, 1), BitsVal(d, 8 * o + 11, 13))
  }

  /** The bounds are read while the first bit of the next stream id is one. */
  function StreamBounds(d: seq<byte>, o: nat, least: nat): (r: Parsed<seq<StreamBound>>)
    requires least % 3 == 0 && o + least <= |d|
    ensures r.Done? ==> r.len == o + least
    decreases least
  {
    if least > 0 && BitsVal(d, 8 * o, 1) == 1 then
      var r := StreamBounds(d, o + 3, least - 3);
      if r.Done? then Done(r.len, [StreamBoundAt(d, o)] + r.value) else r
    else if least > 0 then Malformed
    else Done(o, [])
  }

  function ParseSystem(d: seq<byte>): Parsed<System> {
    if |d| < 12 then NeedMore(0)
    else if U32(d, 0) != 0x1BB then WrongCode
    else
      var l := U16(d, 4);
      if |d| - 6 < l then NeedMore(0)
      else if l < 6 || (l - 6) % 3 != 0 then Malformed
      else
        var r := StreamBounds(d, 12, l - 6);
        if r.Done? then Done(r.len, SystemAt(d, r.value)) else Malformed
  }

  function SystemAt(d: seq<byte>, streams: seq<StreamBound>): System
    requires |d| >= 12
  {
    System(BitsVal(d, 49, 22), BitsVal(d, 72, 6), BitsVal(d, 78, 1), BitsVal(d, 79, 1), BitsVal(d, 80, 1),
           BitsVal(d, 81, 1), BitsVal(d, 83, 5), BitsVal(d, 88, 1), streams)
  }

  // ----- program stream map -----

  function MapEntryAt(d: seq<byte>, o: nat): MapEntry
    requires o + 4 <= |d|
  {
    MapEntry(BitsVal(d, 8 * o, 8), BitsVal(d, 8 * o + 8, 8), U16(d, o + 2))
  }

  /** Entries from byte o on until the 16-bit count i of their bytes reaches total. */
  function MapEntries(d: seq<byte>, o: nat, i: nat, total: nat): (r: Parsed<seq<MapEntry>>)
    decreases |d| - o
  {
    if i >= total then (if i == total then Done(o, []) else Malformed)
    else if o + 4 > |d| then Crash
    else
      var e := MapEntryAt(d, o);
      if |d| - (o + 4) < e.infoLength then Malformed
      else
        var r := MapEntries(d, o + 4 + e.infoLength, i + (4 + e.infoLength) % 0x1_0000, total);
        if r.Done? then Done(r.len, [e] + r.value) else r
  }

  /** The definition of MapEntries, for one entry. */
  lemma EntriesStep(d: seq<byte>, o: nat, i: nat, total: nat)
    requires i < total
    ensures var r := MapEntries(d, o, i, total);
      if o + 4 > |d| then r == Crash
      else
        var e := MapEntryAt(d, o);
        if |d| - (o + 4) < e.infoLength then r == Malformed
        else
          var next := MapEntries(d, o + 4 + e.infoLength, i + (4 + e.infoLength) % 0x1_0000, total);
          r == if next.Done? then Done(next.len, [e] + next.value) else next
  {
    hide MapEntryAt;
  }

  lemma EntriesEnd(d: seq<byte>, o: nat, i: nat, total: nat)
    requires i >= total
    ensures MapEntries(d, o, i, total) == if i == total then Done(o, []) else Malformed
  {}

  function ParseMap(d: seq<byte>): Parsed<StreamMap> {
    if |d| < 16 then NeedMore(0)
    else if U32(d, 0) != 0x1BC then WrongCode
    else
      var l := U16(d, 4);
      if |d| - 6 < l then NeedMore(0)
      else
        var info := U16(d, 8);
        if |d| - 10 < info + 2 then NeedMore(0)
        else
          var total := (l - info - 10) % 0x1_0000;
          if |d| - 12 - info < total + 4 then NeedMore(0)
          else
            var r := MapEntries(d, 12 + info, 0, total);
            match r
            case Done(o, es) => Done(o + 4, StreamMap(BitsVal(d, 48, 1), BitsVal(d, 51, 5), es))
            case Crash => Crash
            case _ => Malformed
  }

  // ----- directory and other packets that are skipped by their length -----

  function ParseSkipped(d: seq<byte>): Parsed<()> {
    if |d| < 6 || |d| - 6 < U16(d, 4) then NeedMore(0) else Done(6 + U16(d, 4), ())
  }

  // ----- PES packet -----

  /** The bits that the optional fields announced by the flags of a PES header take. */
  function OptionalBits(d: seq<byte>): (n: nat)
    requires |d| >= 9
  {
    var stamps := BitsVal(d, 56, 2);
    (if stamps / 2 == 1 then 40 else 0) + (if stamps == 3 then 40 else 0) + (if BitsVal(d, 58, 1) == 1 then 48 else 0)
    + (if BitsVal(d, 59, 1) == 1 then 24 else 0) + (if BitsVal(d, 60, 1) == 1 then 8 else 0)
    + (if BitsVal(d, 61, 1) == 1 then 7 else 0) + (if BitsVal(d, 62, 1) == 1 then 16 else 0)
  }

  /** The length of the payload by the two length fields, in 16-bit arithmetic. */
  function PayloadLength(d: seq<byte>): (n: nat)
    requires |d| >= 9
  {
    (U16(d, 4) - 3 - d[8]) % 0x1_0000
  }

  function PesPts(d: seq<byte>): Stamp
    requires |d| >= 9 && 72 + OptionalBits(d) <= 8 * |d|
  {
    if BitsVal(d, 56, 2) / 2 == 1 then Stamp(StampAt(d, 76)) else NoStamp
  }

  function PesDts(d: seq<byte>): Stamp
    requires |d| >= 9 && 72 + OptionalBits(d) <= 8 * |d|
  {
    if BitsVal(d, 56, 2) == 3 then Stamp(StampAt(d, 116)) else NoStamp
  }

  /** The presentation time stamp that decoding takes over even when it then asks for more bytes. */
  function PesTouch(d: seq<byte>): Stamp {
    if |d| >= 9 && |d| - 9 >= d[8] && 72 + OptionalBits(d) <= 8 * |d| then PesPts(d) else NoStamp
  }

  /** A time stamp if there is one, else the value from before. */
  function Later(s: Stamp, v: nat): nat {
    if s.Stamp? then s.ticks else v
  }

  function ParsePes(d: seq<byte>): Parsed<Pes> {
    if |d| < 9 || |d| - 9 < d[8] then NeedMore(0)
    else if 72 + OptionalBits(d) > 8 * |d| then Crash
    else
      var headerLength: int := d[8];
      var start := 9 + headerLength;
      if |d| - start < PayloadLength(d) then NeedMore(0)
      else
        var end := if U16(d, 4) == 0 then |d| else start + PayloadLength(d);
        Done(end, Pes(d[3], PesPts(d), PesDts(d), d[start..end]))
  }

  /** The definition of ParsePes, with the payload taken from what follows the header. */
  lemma ParsePesStep(d: seq<byte>)
    ensures if |d| < 9 || |d| - 9 < d[8] then ParsePes(d) == NeedMore(0) && PesTouch(d) == NoStamp
      else if 72 + OptionalBits(d) > 8 * |d| then ParsePes(d) == Crash
      else
        var headerLength: int := d[8];
        var rest := d[9 + headerLength..];
        var end := if U16(d, 4) == 0 then |rest| else PayloadLength(d);
        && PesTouch(d) == PesPts(d)
        && if |rest| < PayloadLength(d) then ParsePes(d) == NeedMore(0)
           else |rest| >= end
                && ParsePes(d) == Done(9 + headerLength + end, Pes(d[3], PesPts(d), PesDts(d), rest[..end]))
  {
    hide OptionalBits, PesPts, PesDts, U16, PayloadLength;
    if |d| >= 9 && |d| - 9 >= d[8] {
      var headerLength: int := d[8];
      var rest := d[9 + headerLength..];
      assert rest[..|rest|] == rest == d[9 + headerLength..|d|];
      if |rest| >= PayloadLength(d) {
        assert rest[..PayloadLength(d)] == d[9 + headerLength..9 + headerLength + PayloadLength(d)];
      }
    }
  }

  // ----- lists read element by element -----

  /** The whole is what is done followed by the rest. */
  ghost predicate Resumes<T>(whole: Parsed<seq<T>>, done: seq<T>, rest: Parsed<seq<T>>) {
    whole == if rest.Done? then Done(rest.len, done + rest.value) else rest
  }

  lemma ResumesStart<T>(whole: Parsed<seq<T>>)
    ensures Resumes(whole, [], whole)
  {
    if whole.Done? {
      assert [] + whole.value == whole.value;
    }
  }

  lemma ResumesStep<T>(whole: Parsed<seq<T>>, done: seq<T>, e: T, rest: Parsed<seq<T>>, next: Parsed<seq<T>>)
    requires Resumes(whole, done, rest)
    requires rest == if next.Done? then Done(next.len, [e] + next.value) else next
    ensures Resumes(whole, done + [e], next)
  {
    if next.Done? {
      assert done + ([e] + next.value) == done + [e] + next.value;
    }
  }

  /** An end of the rest is the end of the whole. */
  lemma ResumesEnd<T>(whole: Parsed<seq<T>>, done: seq<T>, rest: Parsed<seq<T>>)
    requires Resumes(whole, done, rest)
    ensures !rest.Done? ==> whole == rest
    ensures rest.Done? && rest.value == [] ==> whole == Done(rest.len, done)
  {
    assert done + [] == done;
  }
}
