/** The cache of groups of pictures of hook/gop_cache.go: a ring that holds the last groups of a stream, each of
    which starts with a key frame.
 */
module GopCache {
  import opened Bytes
  import opened Wrappers

  datatype AudioKind = AacHeader | SelfDescribing | PlainAudio

  datatype VideoKind = SequenceHeader | KeyFrame | InterFrame

  /** An RTMP message, with what lal's predicates say of it: an AAC sequence header, a message of a codec that
      needs none (G.711 or Opus), or other audio; a sequence header, a key frame, or other video. */
  datatype Msg = Metadata(data: seq<byte>)
               | Audio(audio: AudioKind, data: seq<byte>)
               | Video(video: VideoKind, data: seq<byte>)
               | OtherType(typeId: nat, data: seq<byte>)

  predicate IsKey(m: Msg) {
    m.Video? && m.video == KeyFrame
  }

  predicate IsAacHeader(m: Msg) {
    m.Audio? && m.audio == AacHeader
  }

  predicate IsVideoHeader(m: Msg) {
    m.Video? && m.video == SequenceHeader
  }

  predicate IsAudioHeader(m: Msg) {
    m.Audio? && m.audio != PlainAudio
  }

  /** What goes into the groups: everything but metadata and sequence headers. */
  predicate Stored(m: Msg) {
    !m.Metadata? && !IsAacHeader(m) && !IsVideoHeader(m)
  }

  // ----- the groups of a stream -----

  /** The groups of all that was fed: a key frame and what is stored up to the next one. */
  function Groups(ms: seq<Msg>): seq<seq<Msg>> {
    if ms == [] then []
    else
      var m, gs := ms[|ms| - 1], Groups(ms[..|ms| - 1]);
      if IsKey(m) then gs + [[m]]
      else if gs == [] || !Stored(m) then gs
      else gs[..|gs| - 1] + [gs[|gs| - 1] + [m]]
  }

  function StoredOnly(ms: seq<Msg>): seq<Msg> {
    if ms == [] then []
    else StoredOnly(ms[..|ms| - 1]) + if Stored(ms[|ms| - 1]) then [ms[|ms| - 1]] else []
  }

  /** The messages from the first key frame on. */
  function FromKey(ms: seq<Msg>): seq<Msg> {
    if ms == [] then [] else if IsKey(ms[0]) then ms else FromKey(ms[1..])
  }

  function Joined<T>(gs: seq<seq<T>>): seq<T> {
    if gs == [] then [] else Joined(gs[..|gs| - 1]) + gs[|gs| - 1]
  }

  /** A key frame and no other. */
  ghost predicate OneKey(g: seq<Msg>) {
    g != [] && IsKey(g[0]) && forall i :: 0 < i < |g| ==> !IsKey(g[i])
  }

  ghost predicate EachOneKey(gs: seq<seq<Msg>>) {
    forall i :: 0 <= i < |gs| ==> OneKey(gs[i])
  }

  lemma {:induction false} FromKeyAppend(ms: seq<Msg>, m: Msg)
    ensures FromKey(ms + [m]) == if FromKey(ms) == [] then (if IsKey(m) then [m] else []) else FromKey(ms) + [m]
    decreases |ms|
  {
    if ms == [] {
      assert ms + [m] == [m];
    } else if !IsKey(ms[0]) {
      FromKeyAppend(ms[1..], m);
      assert (ms + [m])[1..] == ms[1..] + [m];
    }
  }

  /** The groups are the stored messages from the first key frame on, cut in front of every key frame. */
  lemma {:induction false} GroupsTile(ms: seq<Msg>)
    ensures Joined(Groups(ms)) == FromKey(StoredOnly(ms))
    ensures EachOneKey(Groups(ms))
    decreases |ms|
  {
    hide FromKey, IsKey, Stored, OneKey, Joined;
    NoGroups<Msg>();
    if ms == [] {
      assert FromKey([]) == [] by { NoKey(); }
    } else {
      var rest, m := ms[..|ms| - 1], ms[|ms| - 1];
      GroupsTile(rest);
      KeyIsStored(m);
      FromKeyAppend(StoredOnly(rest), m);
      GroupsStep(Groups(rest), m);
      if !IsKey(m) && Groups(rest) != [] {
        GroupsLonger(Groups(rest), m);
      }
      assert StoredOnly(rest) + [] == StoredOnly(rest);
    }
  }

  lemma NoKey()
    ensures FromKey([]) == []
  {}

  lemma KeyIsStored(m: Msg)
    ensures IsKey(m) ==> Stored(m)
  {}

  lemma GroupsStep(gs: seq<seq<Msg>>, m: Msg)
    requires EachOneKey(gs)
    ensures Joined(gs + [[m]]) == Joined(gs) + [m]
    ensures gs == [] <==> Joined(gs) == []
    ensures IsKey(m) ==> EachOneKey(gs + [[m]])
  {
    hide IsKey, OneKey, Joined;
    JoinedLast(gs, [m]);
    NoGroups<Msg>();
    if IsKey(m) {
      KeyAlone(m);
    }
    if gs != [] {
      var n := |gs| - 1;
      assert gs == gs[..n] + [gs[n]];
      JoinedLast(gs[..n], gs[n]);
      KeyLonger(gs[n], m);
    }
  }

  lemma GroupsLonger(gs: seq<seq<Msg>>, m: Msg)
    requires EachOneKey(gs) && gs != [] && !IsKey(m)
    ensures var longer := gs[..|gs| - 1] + [gs[|gs| - 1] + [m]];
      Joined(longer) == Joined(gs) + [m] && EachOneKey(longer)
  {
    hide IsKey, OneKey, Joined;
    var n := |gs| - 1;
    var last := gs[n];
    assert gs == gs[..n] + [last];
    JoinedLast(gs[..n], last);
    JoinedLast(gs[..n], last + [m]);
    assert Joined(gs[..n]) + (last + [m]) == Joined(gs[..n]) + last + [m];
    KeyLonger(last, m);
  }

  lemma NoGroups<T>()
    ensures Joined<T>([]) == []
  {}

  lemma JoinedLast<T>(gs: seq<seq<T>>, g: seq<T>)
    ensures Joined(gs + [g]) == Joined(gs) + g
  {
    assert (gs + [g])[..|gs|] == gs;
  }

  lemma KeyAlone(m: Msg)
    requires IsKey(m)
    ensures OneKey([m])
  {}

  lemma KeyLonger(g: seq<Msg>, m: Msg)
    requires OneKey(g)
    ensures g != [] && (!IsKey(m) ==> OneKey(g + [m]))
  {}

  // ----- what the cache keeps of them -----

  /** The first messages of a group: one more than the limit says; 0 stands for no limit, and a negative limit
      still lets the key frame in. */
  function Cut<T>(limit: int, g: seq<T>): seq<T> {
    var most := if limit < 0 then 1 else limit + 1;
    if limit == 0 || |g| <= most then g else g[..most]
  }

  function CutAll<T>(limit: int, gs: seq<seq<T>>): (r: seq<seq<T>>)
    ensures |r| == |gs| && forall i :: 0 <= i < |gs| ==> r[i] == Cut(limit, gs[i])
  {
    seq(|gs|, i requires 0 <= i < |gs| => Cut(limit, gs[i]))
  }

  function LastN<T>(s: seq<T>, n: nat): seq<T> {
    if |s| <= n then s else s[|s| - n..]
  }

  datatype Cache = Cache(video: Option<Msg>, audio: Option<Msg>, groups: seq<seq<Msg>>)

  function LastVideoHeader(ms: seq<Msg>): Option<Msg> {
    if ms == [] then None
    else if IsVideoHeader(ms[|ms| - 1]) then Some(ms[|ms| - 1]) else LastVideoHeader(ms[..|ms| - 1])
  }

  function LastAudioHeader(ms: seq<Msg>): Option<Msg> {
    if ms == [] then None
    else if IsAudioHeader(ms[|ms| - 1]) then Some(ms[|ms| - 1]) else LastAudioHeader(ms[..|ms| - 1])
  }

  /** The plain description of the cache after ms: the last headers, and the last `cap` groups, each cut. */
  function CacheOf(ms: seq<Msg>, cap: nat, limit: int): Cache {
    Cache(LastVideoHeader(ms), LastAudioHeader(ms), LastN(CutAll(limit, Groups(ms)), cap))
  }

  // ----- feeding -----

  /** A key frame opens a group, and pushes the oldest one out of a full cache. */
  function NewGroup(gs: seq<seq<Msg>>, cap: nat, m: Msg): seq<seq<Msg>>
    requires 0 < cap && |gs| <= cap
  {
    (if |gs| == cap then gs[1..] else gs) + [[m]]
  }

  /** Anything else joins the newest group unless it is full. */
  function LastGroup(gs: seq<seq<Msg>>, limit: int, m: Msg): seq<seq<Msg>> {
    if gs == [] then gs
    else
      var last := gs[|gs| - 1];
      if limit == 0 || |last| <= limit then gs[..|gs| - 1] + [last + [m]] else gs
  }

  function FeedCache(c: Cache, cap: nat, limit: int, m: Msg): (r: Cache)
    requires |c.groups| <= cap
    ensures |r.groups| <= cap
  {
    if m.Metadata? then c
    else if IsAacHeader(m) then c.(audio := Some(m))
    else if IsVideoHeader(m) then c.(video := Some(m))
    else
      var c := if IsAudioHeader(m) then c.(audio := Some(m)) else c;
      if cap == 0 then c
      else if IsKey(m) then c.(groups := NewGroup(c.groups, cap, m))
      else c.(groups := LastGroup(c.groups, limit, m))
  }

  lemma LastNew<T>(gs: seq<T>, cap: nat, g: T)
    requires cap > 0
    ensures var l := LastN(gs, cap); LastN(gs + [g], cap) == (if |l| == cap then l[1..] else l) + [g]
  {}

  lemma LastChanged<T>(gs: seq<T>, cap: nat, g: T)
    requires gs != [] && cap > 0
    ensures var l := LastN(gs, cap);
      l != [] && l[|l| - 1] == gs[|gs| - 1] && LastN(gs[..|gs| - 1] + [g], cap) == l[..|l| - 1] + [g]
  {}

  lemma CutAllAppend<T>(limit: int, gs: seq<seq<T>>, g: seq<T>)
    ensures CutAll(limit, gs + [g]) == CutAll(limit, gs) + [Cut(limit, g)]
  {}

  lemma CutAllPrefix<T>(limit: int, gs: seq<seq<T>>, n: nat)
    requires n <= |gs|
    ensures CutAll(limit, gs)[..n] == CutAll(limit, gs[..n])
  {}

  /** A group that is cut already stays as it is, another one takes the message up. */
  lemma CutLonger(limit: int, g: seq<Msg>, m: Msg)
    requires g != []
    ensures var c := Cut(limit, g);
      Cut(limit, g + [m]) == if limit == 0 || |c| <= limit then c + [m] else c
  {}

  lemma NewestGroup(ms: seq<Msg>, cap: nat, limit: int, m: Msg)
    requires cap > 0 && Groups(ms) != [] && !IsKey(m) && Stored(m)
    ensures LastN(CutAll(limit, Groups(ms + [m])), cap) == LastGroup(LastN(CutAll(limit, Groups(ms)), cap), limit, m)
  {
    hide IsKey, Stored, LastN, CutAll, Cut, OneKey, Joined, FromKey, StoredOnly, LastGroup;
    var gs := Groups(ms);
    var n := |gs| - 1;
    assert Groups(ms + [m]) == gs[..n] + [gs[n] + [m]] by { assert (ms + [m])[..|ms|] == ms; }
    hide Groups;
    GroupsTile(ms);
    assert gs[n] != [] by { KeyLonger(gs[n], m); }
    NewestLonger(gs, cap, limit, m);
  }

  lemma NewestLonger(gs: seq<seq<Msg>>, cap: nat, limit: int, m: Msg)
    requires cap > 0 && gs != [] && gs[|gs| - 1] != []
    ensures LastN(CutAll(limit, gs[..|gs| - 1] + [gs[|gs| - 1] + [m]]), cap)
         == LastGroup(LastN(CutAll(limit, gs), cap), limit, m)
  {
    hide LastN, CutAll, Cut;
    var n := |gs| - 1;
    var cut := CutAll(limit, gs);
    CutAllAppend(limit, gs[..n], gs[n] + [m]);
    CutAllPrefix(limit, gs, n);
    CutLonger(limit, gs[n], m);
    LastChanged(cut, cap, Cut(limit, gs[n] + [m]));
    assert cut[..n] + [cut[n]] == cut;
    var l := LastN(cut, cap);
    assert l[..|l| - 1] + [l[|l| - 1]] == l;
  }

  /** Feeding a message turns the cache of what was fed before into that of all. */
  lemma FeedIsHistory(ms: seq<Msg>, cap: nat, limit: int, m: Msg)
    ensures |CacheOf(ms, cap, limit).groups| <= cap
    ensures FeedCache(CacheOf(ms, cap, limit), cap, limit, m) == CacheOf(ms + [m], cap, limit)
  {
    hide LastN, CutAll, Cut;
    assert (ms + [m])[..|ms|] == ms;
    var gs := Groups(ms);
    LastLength(CutAll(limit, gs), cap);
    if cap == 0 {
      LastLength(CutAll(limit, Groups(ms + [m])), cap);
    } else if IsKey(m) {
      CutAllAppend(limit, gs, [m]);
      assert Cut(limit, [m]) == [m] by { CutKey(limit, m); }
      LastNew(CutAll(limit, gs), cap, [m]);
    } else if Stored(m) && gs != [] {
      NewestGroup(ms, cap, limit, m);
    }
  }

  lemma CutKey(limit: int, m: Msg)
    ensures Cut(limit, [m]) == [m]
  {}

  lemma LastLength<T>(s: seq<T>, n: nat)
    ensures |LastN(s, n)| <= n && (|s| <= n ==> LastN(s, n) == s) && (n > 0 && s != [] ==> LastN(s, n) != [])
  {}

  /** The cache after feeding the messages one by one. */
  function FeedAll(c: Cache, cap: nat, limit: int, ms: seq<Msg>): (r: Cache)
    requires |c.groups| <= cap
    ensures |r.groups| <= cap
    decreases |ms|
  {
    if ms == [] then c else FeedCache(FeedAll(c, cap, limit, ms[..|ms| - 1]), cap, limit, ms[|ms| - 1])
  }

  /** The ring agrees with the plain description after any messages: the last groups of the stream, each cut
      to its first messages, non-empty and starting with a key frame. */
  lemma {:induction false} CacheIsLastGroups(ms: seq<Msg>, cap: nat, limit: int)
    ensures FeedAll(Cache(None, None, []), cap, limit, ms) == CacheOf(ms, cap, limit)
    ensures forall g :: g in CacheOf(ms, cap, limit).groups ==> g != [] && IsKey(g[0])
    ensures var all, kept := Groups(ms), CacheOf(ms, cap, limit).groups;
      && |kept| == (if |all| < cap then |all| else cap)
      && forall i :: 0 <= i < |kept| ==>
           var g := all[|all| - |kept| + i];
           kept[i] == if limit == 0 || |g| <= limit + 1 || |g| <= 1 then g
                      else if limit < 0 then g[..1] else g[..limit + 1]
    decreases |ms|
  {
    hide FeedCache, CacheOf;
    if ms == [] {
      EmptyCache(cap, limit);
    } else {
      var rest, m := ms[..|ms| - 1], ms[|ms| - 1];
      CacheIsLastGroups(rest, cap, limit);
      FeedIsHistory(rest, cap, limit, m);
      assert rest + [m] == ms;
    }
    CutGroups(ms, cap, limit);
    KeptSizes(ms, cap, limit);
  }

  lemma KeptSizes(ms: seq<Msg>, cap: nat, limit: int)
    ensures var all, kept := Groups(ms), CacheOf(ms, cap, limit).groups;
      && |kept| == (if |all| < cap then |all| else cap)
      && forall i :: 0 <= i < |kept| ==>
           var g := all[|all| - |kept| + i];
           kept[i] == if limit == 0 || |g| <= limit + 1 || |g| <= 1 then g
                      else if limit < 0 then g[..1] else g[..limit + 1]
  {
    hide Groups;
    EachOneKeyNotEmpty(ms);
  }

  lemma EachOneKeyNotEmpty(ms: seq<Msg>)
    ensures forall i :: 0 <= i < |Groups(ms)| ==> Groups(ms)[i] != []
  {
    hide Groups;
    GroupsTile(ms);
  }

  lemma EmptyCache(cap: nat, limit: int)
    ensures CacheOf([], cap, limit) == Cache(None, None, [])
  {}

  lemma CutGroups(ms: seq<Msg>, cap: nat, limit: int)
    ensures forall g :: g in CacheOf(ms, cap, limit).groups ==> g != [] && IsKey(g[0])
  {
    GroupsTile(ms);
    var gs := Groups(ms);
    var cut := CutAll(limit, gs);
    forall i | 0 <= i < |gs|
      ensures cut[i] != [] && IsKey(cut[i][0])
    {
      assert OneKey(gs[i]);
    }
  }

  // ----- the ring -----

  /** Positions in a ring of n places. */
  lemma Wrap(a: int, n: int)
    requires n > 0 && 0 <= a < 2 * n
    ensures a % n == if a < n then a else a - n
  {
    if a >= n {
      DivModUnique(a, n, 1, a - n);
    } else {
      DivModUnique(a, n, 0, a);
    }
  }

  /** Going up from i by one, around a ring of n places; and going down. */
  function Up(i: nat, n: nat): nat {
    if i + 1 < n then i + 1 else 0
  }

  function Down(i: nat, n: nat): int {
    if i > 0 then i - 1 else n - 1
  }

  /** The elements of a ring from `first` to before `last`. */
  function Window<T>(d: seq<T>, first: int, last: int): seq<T>
    requires 0 <= first < |d| && 0 <= last < |d|
  {
    if first <= last then d[first..last] else d[first..] + d[..last]
  }

  lemma WindowDrop<T>(d: seq<T>, first: nat, last: nat)
    requires first < |d| && last < |d| && first != last
    ensures Window(d, Up(first, |d|), last) == Window(d, first, last)[1..]
  {}

  lemma WindowAdd<T>(d: seq<T>, first: nat, last: nat, x: T)
    requires first < |d| && last < |d| && Up(last, |d|) != first
    ensures Window(d[last := x], first, Up(last, |d|)) == Window(d, first, last) + [x]
  {}

  /** A new element pushes the oldest one out of a full ring, one place of which always stays empty. */
  lemma RingNew<T>(d: seq<T>, first: nat, last: nat, x: T)
    requires first < |d| && last < |d| && |d| > 1
    ensures var w := Window(d, first, last);
      var first' := if Up(last, |d|) == first then Up(first, |d|) else first;
      && |w| <= |d| - 1
      && Window(d[last := x], first', Up(last, |d|)) == (if |w| == |d| - 1 then w[1..] else w) + [x]
  {
    if Up(last, |d|) == first {
      WindowDrop(d, first, last);
      WindowAdd(d, Up(first, |d|), last, x);
    } else {
      WindowAdd(d, first, last, x);
    }
  }

  lemma WindowLast<T>(d: seq<T>, first: nat, last: nat, x: T)
    requires first < |d| && last < |d| && first != last
    ensures var w, i := Window(d, first, last), Down(last, |d|);
      && 0 <= i < |d| && w != [] && w[|w| - 1] == d[i] && Window(d[i := x], first, last) == w[..|w| - 1] + [x]
  {}

  class GopCache {
    var videoheader: Option<Msg>
    var audioheader: Option<Msg>
    const gopSize: int
    const singleGopMaxFrameNum: int
    const data: array<seq<Msg>>
    var first: int
    var last: int

    /** One place more than the groups to be kept; a negative number of them counts as none. */
    constructor (gopSize: int, singleGopMaxFrameNum: int)
      ensures Valid() && fresh(data) && Val() == Cache(None, None, [])
      ensures Cap() == (if gopSize < 0 then 0 else gopSize) && this.singleGopMaxFrameNum == singleGopMaxFrameNum
    {
      var num := (if gopSize < 0 then 0 else gopSize) + 1;
      this.gopSize := num;
      this.singleGopMaxFrameNum := singleGopMaxFrameNum;
      data := new seq<Msg>[num](_ => []);
      first, last := 0, 0;
      videoheader, audioheader := None, None;
      new;
      Wrap(last + num - first, num);
    }

    ghost predicate Valid()
      reads this
    {
      gopSize >= 1 && data.Length == gopSize && 0 <= first < gopSize && 0 <= last < gopSize
    }

    ghost function Cap(): int {
      gopSize - 1
    }

    ghost function Held(): seq<seq<Msg>>
      requires Valid()
      reads this, data
    {
      Window(data[..], first, last)
    }

    ghost function Val(): Cache
      requires Valid()
      reads this, data
    {
      Cache(videoheader, audioheader, Held())
    }

    method IsGopRingFull() returns (full: bool)
      requires Valid()
      ensures full == (Up(last, gopSize) == first) == (|Held()| == Cap())
    {
      Wrap(last + 1, gopSize);
      full := (last + 1) % gopSize == first;
    }

    method IsGopRingEmpty() returns (empty: bool)
      requires Valid()
      ensures empty == (first == last) == (Held() == [])
    {
      empty := first == last;
    }

    method FeedNewGop(msg: Msg)
      requires Valid() && gopSize > 1
      modifies this`first, this`last, data
      ensures Valid() && Held() == NewGroup(old(Held()), Cap(), msg)
    {
      hide Window;
      RingNew(data[..], first, last, [msg]);
      ghost var before := data[..];
      var full := IsGopRingFull();
      if full {
        Wrap(first + 1, gopSize);
        first := (first + 1) % gopSize;
      }
      data[last] := [];
      data[last] := data[last] + [msg];
      assert data[last] == [msg];
      assert data[..] == before[last := [msg]];
      Wrap(last + 1, gopSize);
      last := (last + 1) % gopSize;
    }

    method FeedLastGop(msg: Msg)
      requires Valid()
      modifies data
      ensures Valid() && Held() == LastGroup(old(Held()), singleGopMaxFrameNum, msg)
    {
      hide Window;
      var empty := IsGopRingEmpty();
      if empty {
        return;
      }
      Wrap(last - 1 + gopSize, gopSize);
      var idx := (last - 1 + gopSize) % gopSize;
      WindowLast(data[..], first, last, data[idx] + [msg]);
      if singleGopMaxFrameNum == 0 || |data[idx]| <= singleGopMaxFrameNum {
        data[idx] := data[idx] + [msg];
      }
    }

    method Feed(msg: Msg)
      requires Valid()
      modifies this, data
      ensures Valid() && Val() == FeedCache(old(Val()), Cap(), singleGopMaxFrameNum, msg)
    {
      hide NewGroup, LastGroup;
      if msg.Metadata? {
        return;
      }
      if msg.Audio? {
        if IsAacHeader(msg) {
          audioheader := Some(msg);
          return;
        }
        if msg.audio == SelfDescribing {
          audioheader := Some(msg);
        }
      }
      if msg.Video? {
        if IsVideoHeader(msg) {
          videoheader := Some(msg);
          return;
        }
      }
      if gopSize > 1 {
        if IsKey(msg) {
          FeedNewGop(msg);
        } else {
          FeedLastGop(msg);
        }
      }
    }

    method Clear()
      requires Valid()
      modifies this`first, this`last
      ensures Valid() && Val() == old(Val()).(groups := [])
    {
      last := 0;
      first := 0;
    }

    method GetGopCount() returns (n: int)
      requires Valid()
      ensures n == |Held()|
    {
      Wrap(last + gopSize - first, gopSize);
      n := (last + gopSize - first) % gopSize;
    }

    /** The program gives nil for a position that is not in use. */
    method GetGopDataAt(pos: int) returns (g: seq<Msg>)
      requires Valid()
      ensures g == if 0 <= pos < |Held()| then Held()[pos] else []
    {
      var n := GetGopCount();
      if pos >= n || pos < 0 {
        return [];
      }
      Wrap(first + pos, gopSize);
      g := data[(first + pos) % gopSize];
    }
  }
}
