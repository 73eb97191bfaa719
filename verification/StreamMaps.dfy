/** The program stream map of gb28181/mpegps/ps_proto.go. */
module StreamMaps {
  import opened Bytes
  import opened BitReader
  import opened BitWriter
  import opened PsFormat
  import opened PackHeaders
  import opened Crc

  class ProgramStreamMap {
    var mapStreamId: nat
    var programStreamMapLength: nat
    var currentNextIndicator: nat
    var programStreamMapVersion: nat
    var programStreamInfoLength: nat
    var elementaryStreamMapLength: nat
    var streamMap: seq<MapEntry>

    constructor ()
      ensures Fields() == PsFormat.StreamMap(0, 0, [])
    {
      mapStreamId, programStreamMapLength, currentNextIndicator, programStreamMapVersion := 0, 0, 0, 0;
      programStreamInfoLength, elementaryStreamMapLength, streamMap := 0, 0, [];
    }

    ghost function Fields(): PsFormat.StreamMap
      reads this
    {
      PsFormat.StreamMap(currentNextIndicator, programStreamMapVersion, streamMap)
    }

    /** The panic of an entry list that runs past the buffer is what the method demands to be absent. */
    method Decode(bs: BitStream) returns (err: Status)
      requires bs.Aligned() && ParseMap(bs.bits[bs.bytesOffset..]) != Crash
      modifies this, bs
      ensures var d := bs.bits[old(bs.bytesOffset)..];
        match ParseMap(d)
        case NeedMore(k) => err == Short && bs.Aligned() && bs.bytesOffset == old(bs.bytesOffset) + k
        case Done(n, v) => err == Fine && Fields() == v && bs.Valid() && bs.bitsOffset == 0
                           && bs.bytesOffset == old(bs.bytesOffset) + n
        case _ => err == Refused
    {
      hide BitsVal, Pow2, MapEntries;
      ghost var off := bs.bytesOffset;
      ghost var d := bs.bits[off..];
      BitsShift(bs.bits, off);
      var remain := bs.RemainBytes();
      if remain < 16 {
        return Short;
      }
      var ok := DecodeStart(bs);
      if !ok {
        return Refused;
      }
      remain := bs.RemainBytes();
      if remain < programStreamMapLength {
        bs.UnRead(6 * 8);
        OnBoundary(bs.bytesOffset, bs.bitsOffset, off);
        return Short;
      }
      DecodeVersion(bs);
      remain := bs.RemainBytes();
      if remain < programStreamInfoLength + 2 {
        bs.UnRead(10 * 8);
        OnBoundary(bs.bytesOffset, bs.bitsOffset, off);
        return Short;
      }
      err := DecodeBody(bs);
    }

    /** Start code, stream id and length. */
    method DecodeStart(bs: BitStream) returns (ok: bool)
      requires bs.Aligned() && bs.bytesOffset + 6 <= |bs.bits|
      modifies this, bs
      ensures bs.Valid()
      ensures var d := bs.bits[old(bs.bytesOffset)..];
        && ok == (U32(d, 0) == 0x1BC)
        && (ok ==> bs.Aligned() && bs.bytesOffset == old(bs.bytesOffset) + 6 && programStreamMapLength == U16(d, 4))
    {
      hide BitsVal, Pow2;
      ghost var off := bs.bytesOffset;
      ghost var d := bs.bits[off..];
      BitsShift(bs.bits, off);
      StartCodeParts(d);
      assert BitsVal(d, 0, 24) == BitsVal(bs.bits, bs.Pos(), 24);
      assert BitsVal(d, 24, 8) == BitsVal(bs.bits, bs.Pos() + 24, 8);
      var code := bs.GetBits(24);
      if code != 1 {
        return false;
      }
      mapStreamId := bs.GetBits(8);
      if mapStreamId != 0xBC {
        return false;
      }
      Word(d, 4);
      assert BitsVal(d, 32, 16) == BitsVal(bs.bits, bs.Pos(), 16);
      programStreamMapLength := bs.GetBits(16);
      OnBoundary(bs.bytesOffset, bs.bitsOffset, off + 6);
      return true;
    }

    /** The four bytes up to the length of the program descriptors. */
    method DecodeVersion(bs: BitStream)
      requires bs.Aligned() && bs.bytesOffset >= 6 && bs.bytesOffset + 4 <= |bs.bits|
      modifies this, bs
      ensures bs.Aligned() && bs.bytesOffset == old(bs.bytesOffset) + 4
      ensures var d := bs.bits[old(bs.bytesOffset) - 6..];
        && currentNextIndicator == BitsVal(d, 48, 1) && programStreamMapVersion == BitsVal(d, 51, 5)
        && programStreamInfoLength == U16(d, 8) && programStreamMapLength == old(programStreamMapLength)
    {
      hide BitsVal, Pow2;
      ghost var off := bs.bytesOffset - 6;
      ghost var d := bs.bits[off..];
      var current := bs.GetBits(1);
      bs.SkipBits(2);
      var version := bs.GetBits(5);
      bs.SkipBits(8);
      var info := bs.GetBits(16);
      currentNextIndicator, programStreamMapVersion, programStreamInfoLength := current, version, info;
      OnBoundary(bs.bytesOffset, bs.bitsOffset, off + 10);
      BitsShift(bs.bits, off);
      Word(d, 8);
      assert BitsVal(d, 64, 16) == BitsVal(bs.bits, 8 * off + 64, 16);
    }

    /** Skips the program descriptors and reads the entries; the length that stands in front of them is replaced
        by the one that follows from the other lengths, in 16-bit arithmetic. */
    method DecodeBody(bs: BitStream) returns (err: Status)
      requires bs.Aligned() && bs.bytesOffset >= 10 && bs.bytesOffset + programStreamInfoLength + 2 <= |bs.bits|
      requires var d := bs.bits[bs.bytesOffset - 10..];
        var total := (programStreamMapLength - programStreamInfoLength - 10) % 0x1_0000;
        |d| - 12 - programStreamInfoLength >= total + 4 ==>
          MapEntries(d, 12 + programStreamInfoLength, 0, total) != Crash
      modifies this, bs
      ensures currentNextIndicator == old(currentNextIndicator)
      ensures programStreamMapVersion == old(programStreamMapVersion)
      ensures var d, info := bs.bits[old(bs.bytesOffset) - 10..], old(programStreamInfoLength);
        var total := (old(programStreamMapLength) - info - 10) % 0x1_0000;
        if |d| - 12 - info < total + 4 then err == Short && bs.Aligned() && bs.bytesOffset == old(bs.bytesOffset) - 10
        else match MapEntries(d, 12 + info, 0, total)
          case Done(o, es) => err == Fine && streamMap == es && bs.Valid() && bs.bitsOffset == 0
                              && bs.bytesOffset == old(bs.bytesOffset) - 10 + o + 4
          case _ => err == Refused
    {
      hide BitsVal, Pow2, MapEntries;
      ghost var off := bs.bytesOffset - 10;
      bs.SkipBits(programStreamInfoLength * 8);
      elementaryStreamMapLength := bs.GetBits(16);
      elementaryStreamMapLength := (programStreamMapLength - programStreamInfoLength - 10) % 0x1_0000;
      OnBoundary(bs.bytesOffset, bs.bitsOffset, off + 12 + programStreamInfoLength);
      var remain := bs.RemainBytes();
      if remain < elementaryStreamMapLength + 4 {
        bs.UnRead(12 * 8 + programStreamInfoLength * 8);
        OnBoundary(bs.bytesOffset, bs.bitsOffset, off);
        return Short;
      }
      err := DecodeEntries(bs, off);
      if err == Fine {
        ghost var end := bs.bytesOffset;
        bs.SkipBits(32);
        OnBoundary(bs.bytesOffset, bs.bitsOffset, end + 4);
      }
    }

    method DecodeEntries(bs: BitStream, ghost off: nat) returns (err: Status)
      requires bs.Aligned() && bs.bytesOffset >= off
      requires MapEntries(bs.bits[off..], bs.bytesOffset - off, 0, elementaryStreamMapLength) != Crash
      modifies this`streamMap, bs
      ensures match MapEntries(bs.bits[off..], old(bs.bytesOffset) - off, 0, elementaryStreamMapLength)
        case Done(o, es) => err == Fine && streamMap == es && bs.Aligned() && bs.bytesOffset == off + o
        case _ => err == Refused
    {
      hide BitsVal, Pow2, MapEntries, MapEntryAt, Resumes;
      ghost var d := bs.bits[off..];
      var i: nat := 0;
      ghost var o: nat := bs.bytesOffset - off;
      ghost var whole := MapEntries(d, o, 0, elementaryStreamMapLength);
      streamMap := [];
      ResumesStart(whole);
      while i < elementaryStreamMapLength
        invariant bs.Aligned() && bs.bytesOffset == off + o
        invariant Resumes(whole, streamMap, MapEntries(d, o, i, elementaryStreamMapLength))
        decreases |bs.bits| - bs.bytesOffset
      {
        EntriesStep(d, o, i, elementaryStreamMapLength);
        ResumesEnd(whole, streamMap, MapEntries(d, o, i, elementaryStreamMapLength));
        var elem := DecodeEntry(bs, off);
        var remain := bs.RemainBytes();
        if remain < elem.infoLength {
          return Refused;
        }
        bs.SkipBits(elem.infoLength * 8);
        OnBoundary(bs.bytesOffset, bs.bitsOffset, off + o + 4 + elem.infoLength);
        ghost var next := MapEntries(d, o + 4 + elem.infoLength, i + (4 + elem.infoLength) % 0x1_0000,
                                     elementaryStreamMapLength);
        ResumesStep(whole, streamMap, elem, MapEntries(d, o, i, elementaryStreamMapLength), next);
        i := i + (4 + elem.infoLength) % 0x1_0000;
        o := o + 4 + elem.infoLength;
        streamMap := streamMap + [elem];
      }
      EntriesEnd(d, o, i, elementaryStreamMapLength);
      ResumesEnd(whole, streamMap, MapEntries(d, o, i, elementaryStreamMapLength));
      if i != elementaryStreamMapLength {
        return Refused;
      }
      return Fine;
    }

    method DecodeEntry(bs: BitStream, ghost off: nat) returns (e: MapEntry)
      requires bs.Aligned() && bs.bytesOffset >= off && bs.bytesOffset + 4 <= |bs.bits|
      modifies bs
      ensures bs.Aligned() && bs.bytesOffset == old(bs.bytesOffset) + 4
      ensures e == MapEntryAt(bs.bits[off..], old(bs.bytesOffset) - off)
    {
      hide BitsVal, Pow2;
      ghost var o, q := bs.bytesOffset - off, bs.Pos();
      ghost var d := bs.bits[off..];
      var kind := bs.GetBits(8);
      var id := bs.GetBits(8);
      var info := bs.GetBits(16);
      OnBoundary(bs.bytesOffset, bs.bitsOffset, off + o + 4);
      BitsShift(bs.bits, off);
      Word(d, o + 2);
      assert kind == BitsVal(bs.bits, 8 * off + 8 * o, 8) && id == BitsVal(bs.bits, 8 * off + (8 * o + 8), 8);
      assert info == BitsVal(bs.bits, 8 * off + 8 * (o + 2), 16);
      e := MapEntry(kind, id, info);
    }

    /** The length field is left open and filled in, and a checksum over the bytes from the third byte of the
        start code on is appended. */
    method Encode(bsw: BitStreamWriter)
      requires bsw.Valid() && bsw.bitsoffset == 0
      modifies this`elementaryStreamMapLength, bsw
      ensures bsw.Valid() && bsw.bitsoffset == 0 && bsw.byteoffset == old(bsw.byteoffset) + 16 + 4 * |streamMap|
      ensures MapLaid(bsw.bits, old(bsw.Pos()), Fields())
      ensures Crc32(0xFFFF_FFFF, bsw.bits[old(bsw.byteoffset) + 2..bsw.byteoffset]) == 0
      ensures StandardCrc(0xFFFF_FFFF, bsw.bits[old(bsw.byteoffset)..bsw.byteoffset]) != 0
      ensures Keeps(old(bsw.bits), bsw.bits, old(bsw.Pos()))
    {
      hide BitsVal, Pow2, BodyLaid, Crc32, StandardCrc, LittleEndian;
      ghost var p, h := bsw.Pos(), Fields();
      var loc := EncodeFields(bsw);
      var length := bsw.DistanceFromMarkDot();
      length := length / 8 + 4;
      ghost var c := bsw.bits;
      bsw.SetUint16(length % 0x1_0000, loc);
      Patched(c, bsw.bits, loc, length % 0x1_0000);
      assert BitsVal(bsw.bits, p, 32) == BitsVal(c, p, 32);
      BodyKept(c, bsw.bits, p + 48, h, p + 48, 8 * |c|);
      c := bsw.bits;
      EncodeCrc(bsw, length - 4);
      NeverChecks(bsw.bits, p / 8, bsw.byteoffset);
      BodyKept(c, bsw.bits, p + 48, h, 0, p + 96 + 32 * |streamMap|);
    }

    /** Everything up to the checksum; the length field at byte `loc` is still to be set, and the mark is behind it. */
    method EncodeFields(bsw: BitStreamWriter) returns (loc: nat)
      requires bsw.Valid() && bsw.bitsoffset == 0
      modifies this`elementaryStreamMapLength, bsw
      ensures loc == old(bsw.byteoffset) + 4 && bsw.Mark() == 8 * loc + 16
      ensures bsw.Valid() && bsw.bitsoffset == 0 && bsw.byteoffset == loc + 8 + 4 * |streamMap|
      ensures BitsVal(bsw.bits, old(bsw.Pos()), 32) == 0x1BC && BodyLaid(bsw.bits, old(bsw.Pos()) + 48, Fields())
      ensures Keeps(old(bsw.bits), bsw.bits, old(bsw.Pos()))
    {
      hide BitsVal, Pow2, BodyLaid;
      ghost var p, b := bsw.Pos(), bsw.byteoffset;
      bsw.PutBytes([0x00, 0x00, 0x01, 0xBC]);
      CodeLaid(bsw.bits, b, 0xBC);
      loc := bsw.byteoffset;
      bsw.PutUint64(elementaryStreamMapLength, 16);
      OnBoundary(bsw.byteoffset, bsw.bitsoffset, b + 6);
      bsw.Markdot();
      ghost var c := bsw.bits;
      EncodeBody(bsw);
      OnBoundary(bsw.byteoffset, bsw.bitsoffset, b + 12 + 4 * |streamMap|);
      assert BitsVal(bsw.bits, p, 32) == BitsVal(c, p, 32);
    }

    method EncodeCrc(bsw: BitStreamWriter, body: nat)
      requires bsw.Valid() && bsw.bitsoffset == 0 && bsw.byteoffset >= body + 4
      modifies bsw
      ensures bsw.Valid() && bsw.bitsoffset == 0 && bsw.byteoffset == old(bsw.byteoffset) + 4
      ensures Crc32(0xFFFF_FFFF, bsw.bits[old(bsw.byteoffset) - body - 4..bsw.byteoffset]) == 0
      ensures Keeps(old(bsw.bits), bsw.bits, old(bsw.Pos()))
    {
      hide BitsVal, Pow2, Crc32, LittleEndian;
      ghost var from, end := bsw.bits, bsw.byteoffset;
      var all := bsw.Bits();
      var covered := all[bsw.byteoffset - body - 4..bsw.byteoffset];
      var crc := CalcCrc32(0xFFFF_FFFF, covered);
      bsw.PutBytes(LittleEndian(crc));
      CrcResidue(0xFFFF_FFFF, covered);
      BytesKept(from, bsw.bits, 8 * end, end - body - 4, end);
      assert all == from[..end];
      assert covered == from[end - body - 4..end] == bsw.bits[end - body - 4..end];
      assert bsw.bits[end - body - 4..end + 4] == bsw.bits[end - body - 4..end] + bsw.bits[end..end + 4];
    }

    method EncodeBody(bsw: BitStreamWriter)
      requires bsw.Valid() && bsw.bitsoffset == 0
      modifies this`elementaryStreamMapLength, bsw
      ensures bsw.Valid() && bsw.Mark() == old(bsw.Mark()) && bsw.Pos() == old(bsw.Pos()) + 48 + 32 * |streamMap|
      ensures BodyLaid(bsw.bits, old(bsw.Pos()), Fields())
      ensures Keeps(old(bsw.bits), bsw.bits, old(bsw.Pos()))
    {
      hide BitsVal, Pow2, FixedLaid, EntryLaid, Same;
      ghost var q, h, from := bsw.Pos(), Fields(), bsw.bits;
      EncodeFixed(bsw);
      for i := 0 to |streamMap|
        invariant bsw.Valid() && bsw.Mark() == old(bsw.Mark()) && bsw.Pos() == q + 48 + 32 * i
        invariant Keeps(from, bsw.bits, q)
        invariant FixedLaid(bsw.bits, q, h)
        invariant forall k :: 0 <= k < i ==> EntryLaid(bsw.bits, q + 48 + 32 * k, streamMap[k])
      {
        ghost var c := bsw.bits;
        EncodeEntry(bsw, streamMap[i]);
        KeepsTrans(from, c, bsw.bits, q, q + 48 + 32 * i);
        FixedKept(c, bsw.bits, q, h, 0, q + 48 + 32 * i);
        forall k | 0 <= k < i
          ensures EntryLaid(bsw.bits, q + 48 + 32 * k, streamMap[k])
        {
          EntryKept(c, bsw.bits, q + 48 + 32 * k, streamMap[k], 0, q + 48 + 32 * i);
        }
      }
    }

    method EncodeFixed(bsw: BitStreamWriter)
      requires bsw.Valid()
      modifies this`elementaryStreamMapLength, bsw
      ensures bsw.Valid() && bsw.Mark() == old(bsw.Mark()) && bsw.Pos() == old(bsw.Pos()) + 48
      ensures FixedLaid(bsw.bits, old(bsw.Pos()), Fields())
      ensures Keeps(old(bsw.bits), bsw.bits, old(bsw.Pos()))
    {
      hide BitsVal, Pow2;
      bsw.PutUint64(currentNextIndicator, 1);
      bsw.PutUint64(3, 2);
      bsw.PutUint64(programStreamMapVersion, 5);
      bsw.PutUint64(0x7F, 7);
      bsw.PutUint64(1, 1);
      bsw.PutUint64(0, 16);
      elementaryStreamMapLength := (|streamMap| * 4) % 0x1_0000;
      bsw.PutUint64(elementaryStreamMapLength, 16);
    }

    method EncodeEntry(bsw: BitStreamWriter, e: MapEntry)
      requires bsw.Valid()
      modifies bsw
      ensures bsw.Valid() && bsw.Mark() == old(bsw.Mark()) && bsw.Pos() == old(bsw.Pos()) + 32
      ensures EntryLaid(bsw.bits, old(bsw.Pos()), e)
      ensures Keeps(old(bsw.bits), bsw.bits, old(bsw.Pos()))
    {
      hide BitsVal, Pow2;
      bsw.PutUint64(e.kind, 8);
      bsw.PutUint64(e.id, 8);
      bsw.PutUint64(0, 16);
    }
  }

  /** A map with these fields and no descriptors stands at bit position p, its length field being the real length. */
  /** The standard wants the checksum to cover the start code as well: by it no map that the encoder writes is right. */
  lemma NeverChecks(c: seq<byte>, o: nat, end: nat)
    requires o + 4 <= end <= |c| && BitsVal(c, 8 * o, 32) == 0x1BC && Crc32(0xFFFF_FFFF, c[o + 2..end]) == 0
    ensures StandardCrc(0xFFFF_FFFF, c[o..end]) != 0
  {
    hide BitsVal, Crc32, StandardCrc;
    Quad(c, o);
    assert c[o] == 0 && c[o + 1] == 0;
    assert c[o..end] == [0, 0] + c[o + 2..end];
    ZerosInFront(c[o + 2..end]);
  }

  ghost predicate MapLaid(c: seq<byte>, p: nat, h: PsFormat.StreamMap) {
    && p + 128 + 32 * |h.entries| <= 8 * |c|
    && BitsVal(c, p, 32) == 0x1BC
    && BitsVal(c, p + 32, 16) == (10 + 4 * |h.entries|) % 0x1_0000
    && BodyLaid(c, p + 48, h)
  }

  ghost predicate BodyLaid(c: seq<byte>, q: nat, h: PsFormat.StreamMap) {
    && q + 48 + 32 * |h.entries| <= 8 * |c|
    && FixedLaid(c, q, h)
    && forall k :: 0 <= k < |h.entries| ==> EntryLaid(c, q + 48 + 32 * k, h.entries[k])
  }

  ghost predicate FixedLaid(c: seq<byte>, q: nat, h: PsFormat.StreamMap) {
    && q + 48 <= 8 * |c|
    && BitsVal(c, q, 1) == h.current % Pow2(1)
    && BitsVal(c, q + 1, 2) == 3 % Pow2(2)
    && BitsVal(c, q + 3, 5) == h.version % Pow2(5)
    && BitsVal(c, q + 8, 7) == 0x7F % Pow2(7)
    && BitsVal(c, q + 15, 1) == 1 % Pow2(1)
    && BitsVal(c, q + 16, 16) == 0 % Pow2(16)
    && BitsVal(c, q + 32, 16) == ((|h.entries| * 4) % 0x1_0000) % Pow2(16)
  }

  ghost predicate EntryLaid(c: seq<byte>, q: nat, e: MapEntry) {
    && q + 32 <= 8 * |c|
    && BitsVal(c, q, 8) == e.kind % Pow2(8)
    && BitsVal(c, q + 8, 8) == e.id % Pow2(8)
    && BitsVal(c, q + 16, 16) == 0 % Pow2(16)
  }

  lemma FixedKept(c0: seq<byte>, c1: seq<byte>, q: nat, h: PsFormat.StreamMap, a: nat, b: nat)
    requires FixedLaid(c0, q, h) && Same(c0, c1, a, b) && a <= q && q + 48 <= b
    ensures FixedLaid(c1, q, h)
  {
    hide BitsVal, Pow2;
  }

  lemma EntryKept(c0: seq<byte>, c1: seq<byte>, q: nat, e: MapEntry, a: nat, b: nat)
    requires EntryLaid(c0, q, e) && Same(c0, c1, a, b) && a <= q && q + 32 <= b
    ensures EntryLaid(c1, q, e)
  {
    hide BitsVal, Pow2;
  }

  lemma BodyKept(c0: seq<byte>, c1: seq<byte>, q: nat, h: PsFormat.StreamMap, a: nat, b: nat)
    requires BodyLaid(c0, q, h) && Same(c0, c1, a, b) && a <= q && q + 48 + 32 * |h.entries| <= b
    ensures BodyLaid(c1, q, h)
  {
    hide FixedLaid, EntryLaid, Same;
    SameLength(c0, c1, a, b);
    FixedKept(c0, c1, q, h, a, b);
    forall k | 0 <= k < |h.entries|
      ensures EntryLaid(c1, q + 48 + 32 * k, h.entries[k])
    {
      EntryKept(c0, c1, q + 48 + 32 * k, h.entries[k], a, b);
    }
  }

  /** The start code is read in two parts. */
  lemma StartCodeParts(d: seq<byte>)
    requires |d| >= 4
    ensures U32(d, 0) == BitsVal(d, 0, 24) * 256 + BitsVal(d, 24, 8) && BitsVal(d, 24, 8) < 256
  {
    hide BitsVal, Pow2;
    Quad(d, 0);
    BitsConcat(d, 0, 24, 8);
    assert Pow2(8) == 256 by { Pow2Values(); }
  }

  /** What the fields are cut to by their widths; descriptors are never written. */
  function EntryCut(e: MapEntry): MapEntry {
    MapEntry(e.kind % Pow2(8), e.id % Pow2(8), 0)
  }

  function EntryCuts(es: seq<MapEntry>): (r: seq<MapEntry>)
    ensures |r| == |es| && forall i :: 0 <= i < |es| ==> r[i] == EntryCut(es[i])
  {
    seq(|es|, i requires 0 <= i < |es| => EntryCut(es[i]))
  }

  function MapCut(h: PsFormat.StreamMap): PsFormat.StreamMap {
    PsFormat.StreamMap(h.current % Pow2(1), h.version % Pow2(5), EntryCuts(h.entries))
  }

  lemma {:induction false} EntriesRead(c: seq<byte>, off: nat, o: nat, i: nat, es: seq<MapEntry>)
    requires off + o + 4 * |es| <= |c|
    requires forall k :: 0 <= k < |es| ==> EntryLaid(c, 8 * (off + o) + 32 * k, es[k])
    ensures MapEntries(c[off..], o, i, i + 4 * |es|) == Done(o + 4 * |es|, EntryCuts(es))
    decreases |es|
  {
    hide BitsVal, Pow2, EntryLaid, MapEntryAt;
    if es == [] {
    } else {
      assert EntryLaid(c, 8 * (off + o) + 32 * 0, es[0]);
      EntryRead(c, off, o, es[0]);
      var rest := es[1..];
      forall k | 0 <= k < |rest|
        ensures EntryLaid(c, 8 * (off + (o + 4)) + 32 * k, rest[k])
      {
        assert EntryLaid(c, 8 * (off + o) + 32 * (k + 1), es[k + 1]);
      }
      EntriesRead(c, off, o + 4, i + 4, rest);
      assert i + 4 * |es| == i + 4 + 4 * |rest|;
      assert EntryCuts(es) == [EntryCut(es[0])] + EntryCuts(rest);
    }
  }

  lemma EntryRead(c: seq<byte>, off: nat, o: nat, e: MapEntry)
    requires off + o + 4 <= |c| && EntryLaid(c, 8 * (off + o), e)
    ensures MapEntryAt(c[off..], o) == EntryCut(e)
  {
    hide BitsVal, Pow2;
    var d := c[off..];
    BitsShift(c, off);
    Word(d, o + 2);
    assert BitsVal(d, 8 * o, 8) == BitsVal(c, 8 * off + 8 * o, 8);
    assert BitsVal(d, 8 * o + 8, 8) == BitsVal(c, 8 * off + (8 * o + 8), 8);
    assert BitsVal(d, 8 * (o + 2), 16) == BitsVal(c, 8 * off + 8 * (o + 2), 16) == 0 % Pow2(16);
    ZeroMod(Pow2(16));
  }

  /** Decoding an encoded map gives its types and ids back and stops right behind its checksum. */
  lemma MapRoundTrip(c: seq<byte>, off: nat, h: PsFormat.StreamMap)
    requires off <= |c| && MapLaid(c, 8 * off, h)
    requires 10 + 4 * |h.entries| < 0x1_0000
    ensures |c[off..]| >= 16 && U32(c[off..], 0) == 0x1BC
    ensures U16(c[off..], 4) == 10 + 4 * |h.entries| && U16(c[off..], 8) == 0
    ensures ParseMap(c[off..]) == Done(16 + 4 * |h.entries|, MapCut(h))
  {
    hide BitsVal, Pow2, EntryLaid, MapEntries, U32, U16;
    MapStart(c, off, h);
    forall k | 0 <= k < |h.entries|
      ensures EntryLaid(c, 8 * (off + 12) + 32 * k, h.entries[k])
    {
      assert EntryLaid(c, 8 * off + 48 + 48 + 32 * k, h.entries[k]);
    }
    EntriesRead(c, off, 12, 0, h.entries);
    SmallMod(10 + 4 * |h.entries|, 0x1_0000);
    SmallMod(4 * |h.entries|, 0x1_0000);
  }

  /** Start code, lengths, and the fields in front of the entries. */
  lemma MapStart(c: seq<byte>, off: nat, h: PsFormat.StreamMap)
    requires off <= |c| && MapLaid(c, 8 * off, h)
    ensures |c[off..]| >= 16 + 4 * |h.entries| && U32(c[off..], 0) == 0x1BC
    ensures U16(c[off..], 4) == (10 + 4 * |h.entries|) % 0x1_0000 && U16(c[off..], 8) == 0
    ensures BitsVal(c[off..], 48, 1) == h.current % Pow2(1) && BitsVal(c[off..], 51, 5) == h.version % Pow2(5)
  {
    hide BitsVal, Pow2, EntryLaid;
    var d, q := c[off..], 8 * off;
    BitsShift(c, off);
    Quad(d, 0);
    Word(d, 4);
    Word(d, 8);
    assert BitsVal(d, 0, 32) == BitsVal(c, q + 0, 32) && BitsVal(d, 32, 16) == BitsVal(c, q + 32, 16);
    assert BitsVal(d, 64, 16) == BitsVal(c, q + 64, 16) == 0 by { ZeroMod(Pow2(16)); }
    assert BitsVal(d, 48, 1) == BitsVal(c, q + 48, 1) && BitsVal(d, 51, 5) == BitsVal(c, q + 51, 5);
  }
}
