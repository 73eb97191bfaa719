/** Putting program stream packets together again from whatever pieces the network delivers:
    splitPsPackets and Demuxer of gb28181/mediaserver/conn.go.
 */
module Reassembly {
  import opened Bytes

  /** A pack start code stands at position i. */
  predicate PackAt(d: seq<byte>, i: nat) {
    i + 4 <= |d| && d[i] == 0x00 && d[i + 1] == 0x00 && d[i + 2] == 0x01 && d[i + 3] == 0xBA
  }

  /** The first pack start code at position `from` or later, or |d|. */
  function NextPack(d: seq<byte>, from: nat): (i: nat)
    requires from <= |d|
    ensures from <= i <= |d| && (i < |d| ==> PackAt(d, i))
    ensures forall j :: from <= j < i ==> !PackAt(d, j)
    decreases |d| - from
  {
    if from == |d| || PackAt(d, from) then from else NextPack(d, from + 1)
  }

  /** d cut in front of every pack start code but one at its very beginning. */
  function Packets(d: seq<byte>): (ps: seq<seq<byte>>)
    ensures ps != []
    decreases |d|
  {
    if d == [] then [d]
    else
      var n := NextPack(d, 1);
      if n == |d| then [d] else [d[..n]] + Packets(d[n..])
  }

  /** The packets are d again when joined; all but the first begin with a start code, and none has one inside. */
  lemma {:induction false} PacketsTile(d: seq<byte>)
    ensures Flatten(Packets(d)) == d
    ensures forall k :: 0 < k < |Packets(d)| ==> PackAt(Packets(d)[k], 0)
    ensures forall k, j :: 0 <= k < |Packets(d)| && 0 < j ==> !PackAt(Packets(d)[k], j)
    decreases |d|
  {
    hide PackAt, Flatten;
    var ps := Packets(d);
    if d != [] && NextPack(d, 1) < |d| {
      var n := NextPack(d, 1);
      var head, rest := d[..n], Packets(d[n..]);
      assert ps == [head] + rest;
      hide Packets;
      PacketsTile(d[n..]);
      HereToo(d, n);
      FirstBegins(d[n..]);
      OneMore(head, rest);
      assert head + d[n..] == d;
      NoneInside(d, n);
    } else {
      Alone(d);
    }
  }

  /** The same in bytes: every packet but the first begins with 00 00 01 BA, and from no later position on does one. */
  lemma PacketsByBytes(d: seq<byte>)
    ensures var ps := Packets(d);
      && (forall k :: 0 < k < |ps| ==> [0, 0, 1, 0xBA] <= ps[k])
      && (forall k, j :: 0 <= k < |ps| && 0 < j <= |ps[k]| ==> !([0, 0, 1, 0xBA] <= ps[k][j..]))
  {
    hide Packets, PackAt;
    PacketsTile(d);
    var ps := Packets(d);
    forall k | 0 < k < |ps|
      ensures [0, 0, 1, 0xBA] <= ps[k]
    {
      CodeInFront(ps[k], 0);
      assert ps[k][0..] == ps[k];
    }
    forall k, j | 0 <= k < |ps| && 0 < j <= |ps[k]|
      ensures !([0, 0, 1, 0xBA] <= ps[k][j..])
    {
      CodeInFront(ps[k], j);
    }
  }

  lemma CodeInFront(p: seq<byte>, j: nat)
    requires j <= |p|
    ensures PackAt(p, j) <==> [0, 0, 1, 0xBA] <= p[j..]
  {
    var q := p[j..];
    assert forall i :: 0 <= i < |q| ==> q[i] == p[j + i];
    FourBytes(q);
  }

  lemma FourBytes(q: seq<byte>)
    ensures [0, 0, 1, 0xBA] <= q <==> |q| >= 4 && q[0] == 0 && q[1] == 0 && q[2] == 1 && q[3] == 0xBA
  {}

  lemma HereToo(d: seq<byte>, n: nat)
    requires n <= |d| && PackAt(d, n)
    ensures PackAt(d[n..], 0)
  {}

  lemma OneMore(head: seq<byte>, rest: seq<seq<byte>>)
    ensures Flatten([head] + rest) == head + Flatten(rest)
  {
    assert ([head] + rest)[1..] == rest;
  }

  lemma Alone(d: seq<byte>)
    requires d == [] || NextPack(d, 1) == |d|
    ensures Packets(d) == [d] && Flatten([d]) == d && forall j :: 0 < j ==> !PackAt(d, j)
  {
    assert [d][1..] == [] && d + [] == d;
  }

  lemma NoneInside(d: seq<byte>, n: nat)
    requires n <= |d| && forall j :: 0 < j < n ==> !PackAt(d, j)
    ensures forall j :: 0 < j ==> !PackAt(d[..n], j)
  {
    forall j: nat | 0 < j
      ensures !PackAt(d[..n], j)
    {
      assert PackAt(d[..n], j) ==> PackAt(d, j);
    }
  }

  /** The first packet is the beginning of d, at least as far as a start code reaches. */
  lemma FirstBegins(d: seq<byte>)
    requires PackAt(d, 0)
    ensures PackAt(Packets(d)[0], 0)
  {
    var n := NextPack(d, 1);
    if n < |d| {
      assert PackAt(d, n) && !PackAt(d, 1) && n >= 4;
    }
  }

  lemma NextPackExtend(b: seq<byte>, d: seq<byte>, from: nat)
    requires from <= |b| && NextPack(b, from) < |b|
    ensures NextPack(b + d, from) == NextPack(b, from)
    decreases |b| - from
  {
    if !PackAt(b, from) {
      NextPackExtend(b, d, from + 1);
      assert PackAt(b, NextPack(b, from));
    }
  }

  /** More bytes change nothing about the packets in front of the last one, even when a start code straddles the
      seam. */
  lemma {:induction false} PacketsExtend(b: seq<byte>, d: seq<byte>)
    ensures var ps, n := Packets(b), |Packets(b)| - 1;
      Packets(b + d) == ps[..n] + Packets(ps[n] + d)
    decreases |b|
  {
    hide Packets, NextPack;
    PacketsStep(b);
    PacketsStep(b + d);
    if b != [] && NextPack(b, 1) < |b| {
      var n := NextPack(b, 1);
      var head, rest := b[..n], Packets(b[n..]);
      NextPackExtend(b, d, 1);
      assert (b + d)[..n] == head && (b + d)[n..] == b[n..] + d;
      PacketsExtend(b[n..], d);
      Behind(head, rest, Packets(rest[|rest| - 1] + d));
    } else {
      assert [b][..0] + Packets(b + d) == Packets(b + d);
    }
  }

  /** The definition of Packets. */
  lemma PacketsStep(d: seq<byte>)
    ensures Packets(d) == if d == [] || NextPack(d, 1) == |d| then [d]
                          else [d[..NextPack(d, 1)]] + Packets(d[NextPack(d, 1)..])
  {
    hide NextPack;
  }

  lemma Behind(head: seq<byte>, rest: seq<seq<byte>>, more: seq<seq<byte>>)
    requires rest != []
    ensures var ps := [head] + rest;
      && ps[|ps| - 1] == rest[|rest| - 1]
      && ps[..|ps| - 1] + more == [head] + (rest[..|rest| - 1] + more)
  {}

  method SplitPsPackets(data: seq<byte>) returns (packets: seq<seq<byte>>)
    ensures packets == Packets(data)
  {
    hide Packets, NextPack;
    var start := 0;
    packets := [];
    assert data[0..] == data && [] + Packets(data) == Packets(data);
    for i := 0 to |data|
      invariant 0 <= start <= i && (i > 0 ==> start < i)
      invariant packets + Packets(data[start..]) == Packets(data)
      invariant forall j :: start < j < i ==> !PackAt(data, j)
    {
      if i + 4 <= |data| && data[i..i + 4] == [0x00, 0x00, 0x01, 0xBA] {
        CodeBytes(data, i);
        if i == 0 {
          continue;
        }
        CutHere(data, start, i, packets);
        packets := packets + [data[start..i]];
        start := i;
      } else if PackAt(data, i) {
        CodeBytes(data, i);
      }
    }
    NoCutLeft(data, start);
    packets := packets + [data[start..]];
  }

  lemma CodeBytes(d: seq<byte>, i: nat)
    requires i + 4 <= |d|
    ensures d[i..i + 4] == [0x00, 0x00, 0x01, 0xBA] <==> PackAt(d, i)
  {
    var c := d[i..i + 4];
    assert c == [d[i], d[i + 1], d[i + 2], d[i + 3]];
  }

  lemma AtShift(d: seq<byte>, start: nat, j: nat)
    requires start <= |d|
    ensures PackAt(d[start..], j) <==> PackAt(d, start + j)
  {}

  lemma CutHere(d: seq<byte>, start: nat, i: nat, done: seq<seq<byte>>)
    requires start < i < |d| && PackAt(d, i) && forall j :: start < j < i ==> !PackAt(d, j)
    ensures done + Packets(d[start..]) == done + [d[start..i]] + Packets(d[i..])
  {
    var e := d[start..];
    var n := NextPack(e, 1);
    AtShift(d, start, i - start);
    AtShift(d, start, n);
    assert n == i - start;
    assert e[..n] == d[start..i] && e[n..] == d[i..];
  }

  lemma NoCutLeft(d: seq<byte>, start: nat)
    requires start <= |d| && forall j :: start < j < |d| ==> !PackAt(d, j)
    ensures Packets(d[start..]) == [d[start..]]
  {
    var e := d[start..];
    if e != [] {
      var n := NextPack(e, 1);
      AtShift(d, start, n);
    }
  }

  // ----- the connection -----

  datatype Outcome = Accepted | InvalidPsData

  /** Bytes that are refused: all four differ from those of a start code. One that agrees is enough to be let in. */
  predicate Refused(d: seq<byte>) {
    |d| >= 4 && d[0] != 0x00 && d[1] != 0x00 && d[2] != 0x01 && d[3] != 0xBA
  }

  /** What is kept for the next call, and the packets passed on. */
  datatype State = State(buffer: seq<byte>, passed: seq<seq<byte>>)

  function Take(s: State, data: seq<byte>): State {
    var buf := s.buffer + data;
    var ps := Packets(buf);
    if |buf| < 4 || Refused(buf) || |ps| <= 1 then s.(buffer := buf)
    else State(ps[|ps| - 1], s.passed + ps[..|ps| - 1])
  }

  function TakeAll(s: State, chunks: seq<seq<byte>>): State
    decreases |chunks|
  {
    if chunks == [] then s else TakeAll(Take(s, chunks[0]), chunks[1..])
  }

  class Conn {
    var buffer: seq<byte>
    var passed: seq<seq<byte>>

    constructor ()
      ensures St() == State([], [])
    {
      buffer, passed := [], [];
    }

    ghost function St(): State
      reads this
    {
      State(buffer, passed)
    }

    /** A demuxer is set; what it is handed is recorded in `passed`. */
    method Demuxer(data: seq<byte>) returns (err: Outcome)
      modifies this
      ensures St() == Take(old(St()), data)
      ensures err == if Refused(old(buffer) + data) then InvalidPsData else Accepted
      ensures var buf := old(buffer) + data;
        |buf| >= 4 && (buf[0] == 0x00 || buf[1] == 0x00 || buf[2] == 0x01 || buf[3] == 0xBA) ==> err == Accepted
      ensures var buf := old(buffer) + data;
        |buf| >= 4 && buf[0] != 0x00 && buf[1] != 0x00 && buf[2] != 0x01 && buf[3] != 0xBA ==>
          err == InvalidPsData && passed == old(passed) && buffer == buf
    {
      hide Packets;
      buffer := buffer + data;
      var buf := buffer;
      if |buf| < 4 {
        return Accepted;
      }
      if buf[0] != 0x00 && buf[1] != 0x00 && buf[2] != 0x01 && buf[3] != 0xBA {
        return InvalidPsData;
      }
      var packets := SplitPsPackets(buf);
      if |packets| <= 1 {
        return Accepted;
      }
      ghost var from := passed;
      for i := 0 to |packets|
        invariant i < |packets| && buffer == buf && passed == from + packets[..i]
      {
        if i == |packets| - 1 {
          buffer := packets[i];
          return Accepted;
        }
        passed := passed + [packets[i]];
      }
    }
  }

  /** The head of a buffer decides alone whether it is refused. */
  lemma RefusedExtend(b: seq<byte>, d: seq<byte>)
    requires |b| >= 4
    ensures Refused(b + d) == Refused(b)
  {}

  lemma FlattenOne(c: seq<byte>)
    ensures Flatten([c]) == c
  {
    assert [c][1..] == [] && c + [] == c;
  }

  /** What is kept stays in front, and what has been passed on is what the cutting of all bytes so far gives. */
  ghost predicate Whole(s: State, stream: seq<byte>) {
    if Refused(stream) then s == State(stream, [])
    else s.passed + [s.buffer] == Packets(stream) && !Refused(s.buffer)
  }

  lemma LastPacket(d: seq<byte>)
    requires !Refused(d)
    ensures !Refused(Packets(d)[|Packets(d)| - 1])
  {
    hide Packets;
    PacketsTile(d);
    var ps := Packets(d);
    if |ps| == 1 {
      FlattenOne(ps[0]);
      assert ps == [ps[0]];
    } else {
      assert PackAt(ps[|ps| - 1], 0);
    }
  }

  lemma TakeWhole(s: State, stream: seq<byte>, data: seq<byte>)
    requires Whole(s, stream)
    ensures Whole(Take(s, data), stream + data)
  {
    hide Packets;
    if Refused(stream) {
      RefusedExtend(stream, data);
    } else {
      var n, buf := |Packets(stream)| - 1, s.buffer + data;
      assert Packets(stream)[n] == s.buffer && Packets(stream)[..n] == s.passed;
      PacketsExtend(stream, data);
      SameRefusal(s, stream, data);
      var ps := Packets(buf);
      if !Refused(stream + data) {
        LastPacket(buf);
        if |buf| < 4 { ShortBuffer(buf); }
        if |ps| == 1 { OnlyPacket(buf); }
        assert s.passed + ps == s.passed + ps[..|ps| - 1] + [ps[|ps| - 1]];
      } else if |stream| >= 4 {
        RefusedExtend(stream, data);
      }
    }
  }

  /** The buffer and the whole stream are refused together. */
  lemma SameRefusal(s: State, stream: seq<byte>, data: seq<byte>)
    requires Whole(s, stream) && !Refused(stream)
    ensures s.passed == [] ==> s.buffer == stream
    ensures s.passed != [] ==> PackAt(s.buffer, 0) && |stream| >= 4
    ensures Refused(s.buffer + data) == Refused(stream + data)
  {
    hide Packets;
    PacketsTile(stream);
    var ps := Packets(stream);
    assert ps == s.passed + [s.buffer];
    if s.passed == [] {
      FlattenOne(s.buffer);
      assert ps == [s.buffer];
    } else {
      assert ps[|ps| - 1] == s.buffer;
      FlattenAppend(s.passed, [s.buffer]);
      FlattenOne(s.buffer);
      assert |stream| >= |s.buffer| >= 4;
      RefusedExtend(stream, data);
    }
  }

  lemma ShortBuffer(d: seq<byte>)
    requires |d| < 4
    ensures Packets(d) == [d]
  {}

  lemma OnlyPacket(d: seq<byte>)
    requires |Packets(d)| == 1
    ensures Packets(d) == [d]
  {
    hide Packets;
    PacketsTile(d);
    assert Packets(d) == [Packets(d)[0]];
    FlattenOne(Packets(d)[0]);
  }

  /** However a stream is cut into calls: unless its first four bytes make it refused, the packets passed on and
      the bytes kept are exactly the packets of the whole stream; if they do, nothing is ever passed on, all is kept,
      and every call from then on is refused. */
  lemma {:induction false} AnyCuts(s: State, stream: seq<byte>, chunks: seq<seq<byte>>)
    requires Whole(s, stream)
    ensures Whole(TakeAll(s, chunks), stream + Flatten(chunks))
    decreases |chunks|
  {
    hide Take, Whole;
    if chunks == [] {
      assert stream + [] == stream;
    } else {
      TakeWhole(s, stream, chunks[0]);
      AnyCuts(Take(s, chunks[0]), stream + chunks[0], chunks[1..]);
      assert stream + chunks[0] + Flatten(chunks[1..]) == stream + (chunks[0] + Flatten(chunks[1..]));
    }
  }

  /** From a fresh connection; a stream that starts with a start code is never refused. */
  lemma ChunksDoNotMatter(chunks: seq<seq<byte>>)
    ensures var s, d := TakeAll(State([], []), chunks), Flatten(chunks);
      if Refused(d) then s == State(d, []) else s.passed + [s.buffer] == Packets(d)
    ensures PackAt(Flatten(chunks), 0) ==> !Refused(Flatten(chunks))
  {
    hide Packets;
    var none: seq<byte> := [];
    ShortBuffer(none);
    assert [] + [none] == [none];
    AnyCuts(State([], []), [], chunks);
    assert [] + Flatten(chunks) == Flatten(chunks);
  }
}
