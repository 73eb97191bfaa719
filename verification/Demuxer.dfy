/** The demuxer of gb28181/mpegps/ps_demuxer.go. The callback OnFrame is set, and its calls are recorded in `frames`. */
module Demuxer {
  import opened Wrappers
  import opened Bytes
  import opened BitReader
  import opened PsFormat
  import opened PackHeaders
  import opened SystemHeaders
  import opened StreamMaps
  import opened SkippedPackets
  import opened PesPackets
  import opened StartCodes
  import opened DemuxSpec

  class PsStream {
    const sid: nat
    var cid: nat
    var pts: nat
    var dts: nat
    var streamBuf: seq<byte>

    constructor (sid: nat, cid: nat)
      ensures this.sid == sid && Val() == Stream(cid, 0, 0, [])
    {
      this.sid, this.cid, pts, dts, streamBuf := sid, cid, 0, 0, [];
    }

    ghost function Val(): Stream
      reads this
    {
      Stream(cid, pts, dts, streamBuf)
    }
  }

  class PsDemuxer {
    var streamMap: map<nat, PsStream>
    var header: PsPackHeader?
    const system: SystemHeader
    const psm: ProgramStreamMap
    const psd: ProgramStreamDirectory
    const commPes: CommonPesPacket
    const pes: PesPacket
    var mpeg1: bool
    var cache: seq<byte>
    var verifyBuf: seq<byte>
    var frames: seq<Frame>

    ghost function Repr(): set<object>
      reads this`header, this`streamMap
    {
      {this, system, psm, psd, commPes, pes} + (if header == null then {} else {header}) + streamMap.Values
    }

    /** Each stream is filed under its own id, so no two ids share a stream. */
    ghost predicate Valid()
      reads this`header, this`streamMap, this`mpeg1, header
    {
      && (forall k :: k in streamMap ==> streamMap[k].sid == k)
      && mpeg1 == (header != null && header.isMpeg1)
    }

    ghost function Streams(): map<nat, Stream>
      reads this`streamMap, streamMap.Values
    {
      map k | k in streamMap :: streamMap[k].Val()
    }

    ghost function St(): State
      reads this`header, this`mpeg1, pes`pts, this`streamMap, streamMap.Values, this`verifyBuf, this`frames
    {
      State(header != null, mpeg1, pes.pts, Streams(), verifyBuf, frames)
    }

    constructor ()
      ensures Valid() && fresh(Repr()) && St() == INITIAL && cache == []
    {
      streamMap := map[];
      header := null;
      system := new SystemHeader();
      psm := new ProgramStreamMap();
      psd := new ProgramStreamDirectory();
      commPes := new CommonPesPacket();
      pes := new PesPacket();
      mpeg1, cache, verifyBuf, frames := false, [], [], [];
    }

    // ----- video and audio -----

    /** Cuts the collected buffer into NAL units and emits all but the access unit delimiters. */
    method FlushUnits(stream: PsStream)
      requires !Truncated(stream.streamBuf) && (stream.cid == STREAM_H264 || stream.cid == STREAM_H265)
      modifies this`frames
      ensures frames == old(frames)
        + Emitted(stream.streamBuf, AllUnits(stream.streamBuf), stream.cid, stream.pts, stream.dts)
    {
      hide Units, IsStartCode, FindStartCode, Emitted, NaluType264, NaluType265;
      var s := stream.streamBuf;
      ghost var cid, pts, dts := stream.cid, stream.pts, stream.dts;
      ghost var all := frames + Emitted(s, AllUnits(s), cid, pts, dts);
      var f := FindStartCode(s, 0);
      ghost var us := AllUnits(s);
      if f.At? { CodeInside(s, f); }
      var start, sc := if f.At? then f.begin else -1, if f.At? then f.size else 3;
      while start >= 0 && start < |s|
        invariant f.At? ==> IsStartCode(s, f.begin, f.size)
        invariant f.At? ==> start == f.begin && sc == f.size >= 3 && start + sc <= |s|
        invariant f.Nowhere? ==> start == -1 || start == |s|
        invariant us == Units(s, f)
        invariant forall u :: u in us ==> u.begin < u.body <= u.end <= |s| && u.body < |s|
        invariant frames + Emitted(s, us, cid, pts, dts) == all
        decreases |s| - start
      {
        UnitsStep(s, f);
        EmittedStep(s, us, cid, pts, dts, frames);
        var next := FindStartCode(s, start + sc);
        if next.At? { CodeInside(s, next); }
        var end := if next.At? then next.begin else |s|;
        FoundAgain(s, start, sc);
        if stream.cid == STREAM_H264 {
          var naluType := NaluType264(s[start + sc]);
          if naluType != AUD_H264 {
            frames := frames + [Frame(s[start..end], stream.cid, stream.pts / 90, stream.dts / 90)];
          }
        } else if stream.cid == STREAM_H265 {
          var naluType := NaluType265(s[start + sc]);
          if naluType != AUD_H265 {
            frames := frames + [Frame(s[start..end], stream.cid, stream.pts / 90, stream.dts / 90)];
          }
        }
        us := us[1..];
        start := end;
        sc := if next.At? then next.size else 3;
        f := next;
      }
      assert f == Nowhere;
      NoUnits(s);
      NoneEmitted(s, cid, pts, dts);
      assert frames + [] == frames;
    }

    method DemuxH26x(stream: PsStream, pes: PesPacket)
      requires stream.cid == STREAM_H264 || stream.cid == STREAM_H265
      requires FeedVideo(stream.Val(), pes.pts, pes.dts, pes.pesPayload).Fed?
      modifies this`frames, stream
      ensures var r := FeedVideo(old(stream.Val()), pes.pts, pes.dts, pes.pesPayload);
        stream.Val() == r.stream && frames == old(frames) + r.frames
    {
      hide Truncated, Emitted, Units;
      if stream.pts == 0 {
        stream.streamBuf := stream.streamBuf + pes.pesPayload;
        stream.pts := pes.pts;
        stream.dts := pes.dts;
      } else if stream.pts == pes.pts || pes.pts == 0 {
        stream.streamBuf := stream.streamBuf + pes.pesPayload;
      } else {
        FlushUnits(stream);
        stream.streamBuf := [];
        stream.streamBuf := stream.streamBuf + pes.pesPayload;
        stream.pts := pes.pts;
        stream.dts := pes.dts;
      }
    }

    method DemuxAudio(stream: PsStream, pes: PesPacket)
      modifies this`frames
      ensures frames == old(frames) + [Frame(pes.pesPayload, stream.cid, pes.pts / 90, pes.dts / 90)]
    {
      frames := frames + [Frame(pes.pesPayload, stream.cid, pes.pts / 90, pes.dts / 90)];
    }

    method DemuxPespacket(stream: PsStream, pes: PesPacket)
      requires Feed(stream.Val(), pes.pts, pes.dts, pes.pesPayload).Fed?
      modifies this`frames, stream
      ensures var r := Feed(old(stream.Val()), pes.pts, pes.dts, pes.pesPayload);
        stream.Val() == r.stream && frames == old(frames) + r.frames
      ensures old(stream.cid) == 0x0F || old(stream.cid) == 0x90 || old(stream.cid) == 0x91 ==>
        && stream.Val() == old(stream.Val())
        && frames == old(frames) + [Frame(pes.pesPayload, stream.cid, pes.pts / 90, pes.dts / 90)]
      ensures old(stream.cid) == 0xFF ==>
        && frames == old(frames)
        && stream.Val() == Stream(0xFF, pes.pts, pes.dts,
                                  (if old(stream.pts) == pes.pts then old(stream.streamBuf) else []) + pes.pesPayload)
      ensures old(stream.cid) !in {0x0F, 0x90, 0x91, 0x1B, 0x24, 0xFF} ==>
        stream.Val() == old(stream.Val()) && frames == old(frames)
    {
      hide FeedVideo;
      var cid := stream.cid;
      if cid == STREAM_AAC || cid == STREAM_G711A || cid == STREAM_G711U {
        DemuxAudio(stream, pes);
      } else if cid == STREAM_H264 || cid == STREAM_H265 {
        DemuxH26x(stream, pes);
      } else if cid == STREAM_UNKNOWN {
        if stream.pts != pes.pts {
          stream.streamBuf := [];
        }
        stream.streamBuf := stream.streamBuf + pes.pesPayload;
        stream.pts := pes.pts;
        stream.dts := pes.dts;
      }
    }

    /** Feeds a packet into the stream filed under its id. */
    method FeedKnown(id: nat)
      requires Valid() && id in streamMap
      requires FeedInto(St(), id, streamMap[id].Val(), pes.pts, pes.dts, pes.pesPayload).Some?
      modifies this`frames, streamMap[id]
      ensures Valid() && Repr() == old(Repr())
      ensures Some(St()) == FeedInto(old(St()), id, old(streamMap[id].Val()), pes.pts, pes.dts, pes.pesPayload)
    {
      hide Feed;
      ghost var before := Streams();
      DemuxPespacket(streamMap[id], pes);
      assert Streams() == before[id := streamMap[id].Val()];
    }

    /** Files a new stream and feeds the packet into it. */
    method FeedNew(id: nat, cid: nat)
      requires Valid()
      requires FeedInto(St(), id, Stream(cid, 0, 0, []), pes.pts, pes.dts, pes.pesPayload).Some?
      modifies this`frames, this`streamMap
      ensures Valid() && fresh(Repr() - old(Repr()))
      ensures Some(St()) == FeedInto(old(St()), id, Stream(cid, 0, 0, []), pes.pts, pes.dts, pes.pesPayload)
    {
      hide Feed;
      ghost var before := Streams();
      var stream := new PsStream(id, cid);
      streamMap := streamMap[id := stream];
      DemuxPespacket(stream, pes);
      assert Streams() == before[id := stream.Val()];
    }

    // ----- one turn of the loop -----

    /** State, cursor and error are as the turn t says. */
    ghost predicate After(t: Turn, bs: BitStream, off: nat, err: Error)
      reads Repr(), bs
    {
      match t
      case Go(st, n) => err == Nil && St() == st && bs.Valid() && bs.bitsOffset == 0 && bs.bytesOffset == off + n
      case Wait(st, k) => err == More && St() == st && bs.Aligned() && bs.bytesOffset == off + k
      case Fail(st, e) => err == e && St() == st
      case _ => false
    }

    method HandlePack(bs: BitStream) returns (err: Error)
      requires Valid() && bs.Aligned()
      requires |bs.bits| - bs.bytesOffset >= 4 && U32(bs.bits[bs.bytesOffset..], 0) == 0x1BA
      modifies this`header, this`mpeg1, header, bs
      ensures Valid() && fresh(Repr() - old(Repr()))
      ensures After(OnPack(old(St()), bs.bits[old(bs.bytesOffset)..]), bs, old(bs.bytesOffset), err)
    {
      hide ParsePack;
      if header == null {
        header := new PsPackHeader();
      }
      var ret := header.Decode(bs);
      mpeg1 := header.isMpeg1;
      assert Streams() == old(Streams());
      err := if ret == Fine then Nil else if ret == Short then More else Parser;
    }

    method HandleSystem(bs: BitStream) returns (err: Error)
      requires Valid() && bs.Aligned()
      modifies system, bs
      ensures Valid() && fresh(Repr() - old(Repr()))
      ensures After(OnSystem(old(St()), bs.bits[old(bs.bytesOffset)..]), bs, old(bs.bytesOffset), err)
    {
      hide ParseSystem;
      if header == null {
        return NoHeader;
      }
      var ret := system.Decode(bs);
      assert Streams() == old(Streams());
      err := if ret == Fine then Nil else if ret == Short then More else Parser;
    }

    method HandleSkipped(bs: BitStream) returns (err: Error)
      requires Valid() && bs.Aligned()
      modifies commPes, bs
      ensures Valid() && fresh(Repr() - old(Repr()))
      ensures After(OnSkipped(old(St()), bs.bits[old(bs.bytesOffset)..]), bs, old(bs.bytesOffset), err)
    {
      hide U16;
      var ret := commPes.Decode(bs);
      assert Streams() == old(Streams());
      err := if ret == Fine then Nil else if ret == Short then More else Parser;
    }

    method HandleDirectory(bs: BitStream) returns (err: Error)
      requires Valid() && bs.Aligned()
      requires |bs.bits| - bs.bytesOffset >= 4 && U32(bs.bits[bs.bytesOffset..], 0) == 0x1FF
      modifies psd, bs
      ensures Valid() && fresh(Repr() - old(Repr()))
      ensures After(OnSkipped(old(St()), bs.bits[old(bs.bytesOffset)..]), bs, old(bs.bytesOffset), err)
    {
      hide U16;
      var ret := psd.Decode(bs);
      assert Streams() == old(Streams());
      err := if ret == Fine then Nil else if ret == Short then More else Parser;
    }

    method HandleMap(bs: BitStream) returns (err: Error)
      requires Valid() && bs.Aligned()
      requires ParseMap(bs.bits[bs.bytesOffset..]) != Crash
      modifies this`streamMap, psm, streamMap.Values, bs
      ensures Valid() && fresh(Repr() - old(Repr()))
      ensures After(OnMap(old(St()), bs.bits[old(bs.bytesOffset)..]), bs, old(bs.bytesOffset), err)
    {
      hide ParseMap, ApplyMap;
      var ret := psm.Decode(bs);
      assert Streams() == old(Streams()) && Valid();
      if ret == Fine {
        FileStreams(psm.streamMap);
      }
      err := if ret == Fine then Nil else if ret == Short then More else Parser;
    }

    /** Sets the codec of the streams a map lists, and files the ones that are new. */
    method FileStreams(entries: seq<MapEntry>)
      requires Valid()
      modifies this`streamMap, streamMap.Values
      ensures Valid() && fresh(Repr() - old(Repr()))
      ensures St() == old(St()).(streams := ApplyMap(old(Streams()), entries))
    {
      hide Streams, ApplyMap;
      ghost var want := ApplyMap(Streams(), entries);
      assert entries[0..] == entries;
      for i := 0 to |entries|
        invariant Valid() && fresh(streamMap.Values - old(streamMap.Values))
        invariant ApplyMap(Streams(), entries[i..]) == want
      {
        FileStep(Streams(), entries[i..]);
        FileStream(entries[i]);
        assert entries[i..][1..] == entries[i + 1..];
      }
      FileEnd(Streams(), entries[|entries|..]);
    }

    method FileStream(e: MapEntry)
      requires Valid()
      modifies this`streamMap, streamMap.Values
      ensures Valid() && fresh(streamMap.Values - old(streamMap.Values))
      ensures Streams() == old(Streams())[e.id := Filed(old(Streams()), e)]
    {
      ghost var before := Streams();
      if e.id !in streamMap {
        var stream := new PsStream(e.id, e.kind);
        streamMap := streamMap[e.id := stream];
        assert Streams() == before[e.id := Stream(e.kind, 0, 0, [])];
      } else {
        streamMap[e.id].cid := e.kind;
        assert Streams() == before[e.id := before[e.id].(cid := e.kind)];
      }
    }

    method HandlePes(bs: BitStream) returns (err: Error)
      requires Valid() && bs.Aligned()
      requires OnPes(St(), bs.bits[bs.bytesOffset..]) != Boom && !mpeg1
      modifies this`frames, this`streamMap, this`verifyBuf, pes, streamMap.Values, bs
      ensures Valid() && fresh(Repr() - old(Repr()))
      ensures After(OnPes(old(St()), bs.bits[old(bs.bytesOffset)..]), bs, old(bs.bytesOffset), err)
    {
      hide ParsePes, PesTouch, Deliver;
      ghost var before, d := St(), bs.bits[bs.bytesOffset..];
      var ret := DecodePes(bs);
      if ret == Fine {
        DeliverPacket(before.pts, ParsePes(d).value);
      }
      err := if ret == Fine then Nil else if ret == Short then More else Parser;
    }

    method DecodePes(bs: BitStream) returns (ret: Status)
      requires Valid() && bs.Aligned()
      requires ParsePes(bs.bits[bs.bytesOffset..]) != Crash
      modifies pes, bs
      ensures Valid()
      ensures St() == old(St()).(pts := pes.pts)
      ensures var d, pts0 := bs.bits[old(bs.bytesOffset)..], old(St()).pts;
        match ParsePes(d)
        case NeedMore(k) => ret == Short && bs.Aligned() && bs.bytesOffset == old(bs.bytesOffset) + k
                            && pes.pts == Later(PesTouch(d), pts0)
        case Done(n, v) => ret == Fine && bs.Aligned() && bs.bytesOffset == old(bs.bytesOffset) + n
                           && pes.streamId == v.id && pes.pesPayload == v.payload
                           && pes.pts == Later(v.pts, pts0) && pes.dts == Later(v.dts, pes.pts)
        case _ => false
    {
      hide ParsePes, PesTouch;
      ret := pes.Decode(bs);
      assert Streams() == old(Streams());
    }

    /** Hands the decoded packet to its stream, or guesses what stream it is. */
    method DeliverPacket(ghost inherited: nat, ghost p: Pes)
      requires Valid()
      requires pes.streamId == p.id && pes.pesPayload == p.payload
      requires pes.pts == Later(p.pts, inherited) && pes.dts == Later(p.dts, pes.pts)
      requires Deliver(St().(pts := inherited), p).Some?
      modifies this`frames, this`streamMap, this`verifyBuf, streamMap.Values
      ensures Valid() && fresh(Repr() - old(Repr()))
      ensures Some(St()) == Deliver(old(St()).(pts := inherited), p)
    {
      hide FeedInto, H26xVerify, AudioVerify;
      if pes.streamId in streamMap {
        FeedKnown(pes.streamId);
      } else if pes.streamId == VIDEO {
        if |verifyBuf| > 256 {
          verifyBuf := [];
        }
        verifyBuf := verifyBuf + pes.pesPayload;
        assert Streams() == old(Streams());
        GuessVideo();
      } else if pes.streamId == AUDIO {
        if VIDEO in streamMap {
          var guess := AudioVerify(pes.pesPayload);
          FeedNew(AUDIO, guess.cid);
        }
      }
    }

    /** Files a video stream once the collected bytes show which codec it has. */
    method GuessVideo()
      requires Valid()
      requires Guessed(St(), pes.pts, pes.dts, pes.pesPayload).Some?
      modifies this`frames, this`streamMap
      ensures Valid() && fresh(Repr() - old(Repr()))
      ensures Some(St()) == Guessed(old(St()), pes.pts, pes.dts, pes.pesPayload)
    {
      hide FeedInto, H26xVerify;
      var h26x := MpegH26xVerify(verifyBuf);
      assert Streams() == old(Streams()) && St() == old(St());
      match h26x
      case CodecH264 =>
        FeedNew(VIDEO, STREAM_H264);
      case CodecH265 =>
        FeedNew(VIDEO, STREAM_H265);
      case _ =>
    }

    /** Decodes what the next four bytes announce. */
    method TakeTurn(bs: BitStream) returns (err: Error)
      requires Valid() && bs.Aligned() && |bs.bits| - bs.bytesOffset >= 4
      requires var t := OneTurn(St(), bs.bits[bs.bytesOffset..]); t.Go? || t.Wait? || t.Fail?
      modifies Repr(), bs
      ensures Valid() && fresh(Repr() - old(Repr())) && cache == old(cache)
      ensures After(OneTurn(old(St()), bs.bits[old(bs.bytesOffset)..]), bs, old(bs.bytesOffset), err)
    {
      hide BitsVal, Pow2, OneTurn, U32;
      ghost var off := bs.bytesOffset;
      ghost var d := bs.bits[off..];
      BitsShift(bs.bits, off);
      Quad(d, 0);
      assert BitsVal(d, 0, 32) == BitsVal(bs.bits, bs.Pos(), 32);
      var prefixCode := bs.NextBits(32);
      assert Streams() == old(Streams()) && St() == old(St());
      err := Dispatch(bs, prefixCode);
    }

    method Dispatch(bs: BitStream, prefixCode: nat) returns (err: Error)
      requires Valid() && bs.Aligned() && |bs.bits| - bs.bytesOffset >= 4
      requires prefixCode == U32(bs.bits[bs.bytesOffset..], 0)
      requires var t := OneTurn(St(), bs.bits[bs.bytesOffset..]); t.Go? || t.Wait? || t.Fail?
      modifies Repr(), bs
      ensures Valid() && fresh(Repr() - old(Repr())) && cache == old(cache)
      ensures After(OneTurn(old(St()), bs.bits[old(bs.bytesOffset)..]), bs, old(bs.bytesOffset), err)
    {
      hide OnPack, OnSystem, OnMap, OnSkipped, OnPes, U32;
      ghost var off := bs.bytesOffset;
      ghost var d := bs.bits[off..];
      if prefixCode == 0x1BA {
        err := HandlePack(bs);
      } else if prefixCode == 0x1BB {
        err := HandleSystem(bs);
      } else if prefixCode == 0x1BC {
        MapSafe(St(), d);
        err := HandleMap(bs);
      } else if 0x1BD <= prefixCode <= 0x1BF || 0x1F0 <= prefixCode <= 0x1FB {
        err := HandleSkipped(bs);
      } else if prefixCode == 0x1FF {
        err := HandleDirectory(bs);
      } else if prefixCode / 32 == 0x1C0 / 32 || prefixCode / 32 == 0x1E0 / 32 {
        PesSafe(St(), d);
        err := HandlePes(bs);
      } else {
        bs.SkipBits(8);
        OnBoundary(bs.bytesOffset, bs.bitsOffset, off + 1);
        assert Streams() == old(Streams()) && St() == old(St());
        err := Nil;
      }
    }

    /** The parse loop: runs until the bytes are used up, more are needed, or an error stops it. The program
        leaves the loop after an error at the top of the next turn. */
    method ParseLoop(bs: BitStream) returns (ret: Error)
      requires Valid() && bs.Aligned() && Run(St(), bs.bits[bs.bytesOffset..]).Halt?
      modifies Repr(), bs
      ensures Valid() && fresh(Repr() - old(Repr())) && cache == old(cache)
      ensures var r := Run(old(St()), bs.bits[old(bs.bytesOffset)..]);
        r.st == St() && r.err == ret && (ret == More ==> bs.Aligned() && r.rest == bs.bits[bs.bytesOffset..])
    {
      hide OneTurn, Run, Streams, St, Valid;
      ghost var result := Run(St(), bs.bits[bs.bytesOffset..]);
      ret := Nil;
      var eos := bs.EOS();
      while !eos
        invariant Valid() && fresh(Repr() - old(Repr())) && cache == old(cache) && ret == Nil
        invariant bs.Aligned() && Run(St(), bs.bits[bs.bytesOffset..]) == result
        invariant eos <==> bs.bytesOffset == |bs.bits|
        decreases |bs.bits| - bs.bytesOffset
      {
        ret := Iterate(bs);
        if ret != Nil {
          return;
        }
        eos := bs.EOS();
      }
      assert bs.bits[bs.bytesOffset..] == [];
      RunEnd(St());
    }

    /** One iteration of the loop: what it leaves to do is what Run says is left. */
    method Iterate(bs: BitStream) returns (ret: Error)
      requires Valid() && bs.Aligned() && bs.bytesOffset < |bs.bits| && Run(St(), bs.bits[bs.bytesOffset..]).Halt?
      modifies Repr(), bs
      ensures Valid() && fresh(Repr() - old(Repr())) && cache == old(cache)
      ensures var r := Run(old(St()), bs.bits[old(bs.bytesOffset)..]);
        if ret == Nil then
          bs.Aligned() && bs.bytesOffset > old(bs.bytesOffset) && Run(St(), bs.bits[bs.bytesOffset..]) == r
        else
          && r.Halt? && r.st == St() && r.err == ret
          && (ret == More ==>
                bs.Aligned() && bs.bytesOffset >= old(bs.bytesOffset) && r.rest == bs.bits[bs.bytesOffset..])
    {
      hide OneTurn, Run, Streams, St, Valid;
      ghost var off, st := bs.bytesOffset, St();
      ghost var d := bs.bits[off..];
      RunStep(st, d);
      var remain := bs.RemainBits();
      if remain < 32 {
        return More;
      }
      TurnLength(st, d);
      ret := TakeTurn(bs);
      Rest(bs.bits, off, d, bs.bytesOffset, ret == Nil || ret == More);
    }

    /** Demands that the bytes do not make the program panic or spin, and that no MPEG-1 packet comes up. */
    method Input(data: seq<byte>) returns (err: Error)
      requires Valid() && DemuxSpec.Input(Demux(St(), cache), data).Reply?
      modifies Repr()
      ensures Valid() && fresh(Repr() - old(Repr()))
      ensures DemuxSpec.Input(Demux(old(St()), old(cache)), data) == Reply(Demux(St(), cache), err)
    {
      hide Run, Streams, St, Valid;
      var bs;
      if |cache| > 0 {
        cache := cache + data;
        bs := new BitStream(cache);
      } else {
        bs := new BitStream(data);
      }
      assert bs.bits[0..] == old(cache) + data;
      err := ParseLoop(bs);
      if err == More {
        cache := bs.bits[bs.bytesOffset..];
      }
      if err == Nil && |cache| > 0 {
        cache := [];
      }
    }

    /** Hands over what each stream still holds, as it is, in no particular order; nothing is cleared. */
    method Flush() returns (ghost order: seq<nat>)
      requires Valid()
      modifies this`frames
      ensures Valid() && Drained(Streams(), order, {})
      ensures St() == old(St()).(out := old(frames) + Leftover(Streams(), order))
    {
      hide Leftover, Drained;
      order := [];
      ghost var streams := Streams();
      NoneDrained(streams);
      var todo := streamMap.Keys;
      assert streams.Keys == todo;
      while todo != {}
        invariant todo <= streamMap.Keys && Drained(streams, order, todo)
        invariant frames == old(frames) + Leftover(streams, order)
        decreases |todo|
      {
        var id :| id in todo;
        var stream := streamMap[id];
        OneDrained(streams, order, todo, id);
        todo := todo - {id};
        if |stream.streamBuf| == 0 {
          continue;
        }
        order := order + [id];
        frames := frames + [Frame(stream.streamBuf, stream.cid, stream.pts / 90, stream.dts / 90)];
      }
    }
  }

  /** The stream for a map entry: the known one with the codec replaced, or a new one. */
  function Filed(streams: map<nat, Stream>, e: MapEntry): Stream {
    if e.id in streams then streams[e.id].(cid := e.kind) else Stream(e.kind, 0, 0, [])
  }

  lemma FileStep(streams: map<nat, Stream>, es: seq<MapEntry>)
    requires es != []
    ensures ApplyMap(streams, es) == ApplyMap(streams[es[0].id := Filed(streams, es[0])], es[1..])
  {}

  lemma FileEnd(streams: map<nat, Stream>, es: seq<MapEntry>)
    requires es == []
    ensures ApplyMap(streams, es) == streams
  {}

  lemma Rest(b: seq<byte>, off: nat, d: seq<byte>, k: int, moved: bool)
    requires off <= |b| && d == b[off..]
    ensures moved && off <= k <= |b| ==> b[k..] == d[k - off..]
  {}

  lemma MapSafe(st: State, d: seq<byte>)
    requires OnMap(st, d) != Boom
    ensures ParseMap(d) != Crash
  {}

  lemma PesSafe(st: State, d: seq<byte>)
    requires OnPes(st, d) != Mpeg1Packet
    ensures !st.mpeg1
  {}
}
