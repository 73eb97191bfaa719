/** What the subscribers of a hook session receive, over every interleaving of adding, removing and messages
    (hook/hooksession.go).
 */
module HookSpec {
  import opened Wrappers
  import opened GopCache

  /** A subscriber: whether it has been sent video, and every message it was handed. */
  datatype Consumer = Consumer(sent: bool, got: seq<Msg>)

  datatype Session = Session(cache: Cache, hasVideo: bool, consumers: map<string, Consumer>)

  datatype Event = Add(id: string) | Remove(id: string) | Message(msg: Msg)

  const EMPTY: Session := Session(Cache(None, None, []), false, map[])

  /** The sequence headers, video first. */
  function Headers(c: Cache): seq<Msg> {
    (if c.video.Some? then [c.video.value] else []) + (if c.audio.Some? then [c.audio.value] else [])
  }

  /** A subscriber that has no video yet is first brought up to date from the cache. */
  function CaughtUp(c: Cache, k: Consumer): Consumer {
    if !k.sent && |c.groups| > 0 then Consumer(true, k.got + Headers(c) + Joined(c.groups)) else k
  }

  /** What one subscriber makes of one message. */
  function Serve(c: Cache, hasVideo: bool, k0: Consumer, m: Msg): Consumer {
    var k := CaughtUp(c, k0);
    if m.Video? then
      if k.sent then k.(got := k.got + [m])
      else if IsKey(m) then Consumer(true, k.got + Headers(c) + [m])
      else k
    else if m.Audio? && (!hasVideo || k.sent) then k.(got := k.got + [m])
    else k
  }

  function Step(s: Session, cap: nat, limit: int, e: Event): (r: Session)
    requires |s.cache.groups| <= cap
    ensures |r.cache.groups| <= cap
  {
    match e
    case Add(id) => s.(consumers := s.consumers[id := Consumer(false, [])])
    case Remove(id) => s.(consumers := s.consumers - {id})
    case Message(m) =>
      Session(FeedCache(s.cache, cap, limit, m), s.hasVideo || IsKey(m),
              map k | k in s.consumers :: Serve(s.cache, s.hasVideo, s.consumers[k], m))
  }

  function Run(cap: nat, limit: int, es: seq<Event>): (r: Session)
    ensures |r.cache.groups| <= cap
    decreases |es|
  {
    if es == [] then EMPTY else Step(Run(cap, limit, es[..|es| - 1]), cap, limit, es[|es| - 1])
  }

  /** The messages among the events. */
  function History(es: seq<Event>): seq<Msg> {
    if es == [] then []
    else History(es[..|es| - 1]) + if es[|es| - 1].Message? then [es[|es| - 1].msg] else []
  }

  ghost predicate HasKey(ms: seq<Msg>) {
    exists m :: m in ms && IsKey(m)
  }

  predicate IsAv(m: Msg) {
    m.Audio? || m.Video?
  }

  /** What a subscriber that has video is handed: all audio and video, sequence headers included. */
  function Live(ms: seq<Msg>): seq<Msg> {
    if ms == [] then [] else Live(ms[..|ms| - 1]) + if IsAv(ms[|ms| - 1]) then [ms[|ms| - 1]] else []
  }

  /** Audio and video without sequence headers. */
  predicate IsMedia(m: Msg) {
    IsAv(m) && Stored(m)
  }

  function Media(ms: seq<Msg>): seq<Msg> {
    if ms == [] then [] else Media(ms[..|ms| - 1]) + if IsMedia(ms[|ms| - 1]) then [ms[|ms| - 1]] else []
  }

  lemma {:induction false} MediaAppend(a: seq<Msg>, b: seq<Msg>)
    ensures Media(a + b) == Media(a) + Media(b)
    decreases |b|
  {
    if b == [] {
      assert a + b == a;
    } else {
      var n := |b| - 1;
      MediaAppend(a, b[..n]);
      assert (a + b)[..|a + b| - 1] == a + b[..n];
    }
  }

  // ----- session and history -----

  /** The cache is that of the history, and `hasVideo` says whether there has been a key frame. */
  lemma {:induction false} SessionIsHistory(cap: nat, limit: int, es: seq<Event>)
    ensures Run(cap, limit, es).cache == CacheOf(History(es), cap, limit)
    ensures Run(cap, limit, es).hasVideo == HasKey(History(es))
    decreases |es|
  {
    hide CacheOf, FeedCache, IsKey, HasKey;
    if es == [] {
      EmptyCache(cap, limit);
      assert !HasKey([]) by { KeyAmong([], []); }
    } else {
      var ms, e := History(es[..|es| - 1]), es[|es| - 1];
      SessionIsHistory(cap, limit, es[..|es| - 1]);
      if e.Message? {
        FeedIsHistory(ms, cap, limit, e.msg);
        KeyAmong(ms, [e.msg]);
      } else {
        assert ms + [] == ms;
      }
    }
  }

  lemma KeyAmong(ms: seq<Msg>, more: seq<Msg>)
    requires |more| <= 1
    ensures HasKey(ms + more) == (HasKey(ms) || (more != [] && IsKey(more[0])))
    ensures !HasKey([])
  {
    assert forall m :: m in ms + more <==> m in ms || m in more;
  }

  /** With room for a group, the cache holds one exactly if there has been a key frame. */
  lemma GroupsAndVideo(ms: seq<Msg>, cap: nat, limit: int)
    requires cap > 0
    ensures CacheOf(ms, cap, limit).groups != [] <==> HasKey(ms)
  {
    GroupsIfKey(ms);
  }

  lemma {:induction false} GroupsIfKey(ms: seq<Msg>)
    ensures Groups(ms) != [] <==> HasKey(ms)
    decreases |ms|
  {
    if ms != [] {
      GroupsIfKey(ms[..|ms| - 1]);
      assert forall m :: m in ms <==> m in ms[..|ms| - 1] || m == ms[|ms| - 1];
    }
  }

  // ----- what one subscriber receives -----

  /** The audio messages from position a on that came before any key frame. */
  function Waiting(ms: seq<Msg>, a: nat): seq<Msg>
    decreases |ms|
  {
    if |ms| <= a then []
    else
      var m, rest := ms[|ms| - 1], ms[..|ms| - 1];
      Waiting(rest, a) + if m.Audio? && Starts(rest) == [] then [m] else []
  }

  /** The positions of the key frames. */
  function Starts(ms: seq<Msg>): (r: seq<nat>)
    ensures forall i :: 0 <= i < |r| ==> r[i] < |ms| && IsKey(ms[r[i]])
  {
    if ms == [] then []
    else Starts(ms[..|ms| - 1]) + if IsKey(ms[|ms| - 1]) then [|ms| - 1] else []
  }

  lemma {:induction false} StartsIfKey(ms: seq<Msg>)
    ensures |Starts(ms)| == |Groups(ms)| && (Starts(ms) != [] <==> HasKey(ms))
    decreases |ms|
  {
    GroupsIfKey(ms);
    if ms != [] {
      StartsIfKey(ms[..|ms| - 1]);
    }
  }

  /** The message j lets a subscriber start: it is a key frame, or the cache has one from before. */
  ghost predicate CanStart(cap: nat, ms: seq<Msg>, j: nat)
    requires j < |ms|
  {
    IsKey(ms[j]) || (cap > 0 && HasKey(ms[..j]))
  }

  /** The first message from a on that does, or the end of ms. */
  ghost function StartAt(cap: nat, ms: seq<Msg>, a: nat): (j: nat)
    requires a <= |ms|
    ensures a <= j <= |ms| && (j < |ms| ==> CanStart(cap, ms, j))
    ensures forall i :: a <= i < j ==> !CanStart(cap, ms, i)
    decreases |ms| - a
  {
    if a == |ms| || CanStart(cap, ms, a) then a else StartAt(cap, ms, a + 1)
  }

  /** A subscriber that is started by the message j has received exactly the audio from before, the sequence headers and
      the groups in the cache at that time, and all audio and video from j on. */
  ghost predicate Started(k: Consumer, cap: nat, limit: int, ms: seq<Msg>, a: nat, j: nat) {
    && a <= j < |ms|
    && var c := CacheOf(ms[..j], cap, limit);
    && (c.groups != [] || IsKey(ms[j]))
    && k.got == Waiting(ms[..j], a) + Headers(c) + Joined(c.groups) + Live(ms[j..])
  }

  /** What a subscriber that was added after a messages has received after the messages ms: it is started by the first
      message that can start it, and not before. */
  ghost predicate Served(k: Consumer, cap: nat, limit: int, ms: seq<Msg>, a: nat)
    requires a <= |ms|
  {
    var j := StartAt(cap, ms, a);
    if j < |ms| then k.sent && Started(k, cap, limit, ms, a, j)
    else !k.sent && k.got == Waiting(ms, a)
  }

  lemma CanStartExtend(cap: nat, ms: seq<Msg>, m: Msg, j: nat)
    requires j <= |ms|
    ensures CanStart(cap, ms + [m], j)
       <==> if j < |ms| then CanStart(cap, ms, j) else IsKey(m) || (cap > 0 && HasKey(ms))
  {
    hide IsKey, HasKey;
    Prefix(ms, m, j);
    assert ms[..|ms|] == ms;
  }

  lemma {:induction false} StartExtend(cap: nat, ms: seq<Msg>, m: Msg, a: nat)
    requires a <= |ms|
    ensures var j := StartAt(cap, ms, a);
      StartAt(cap, ms + [m], a)
      == if j < |ms| then j else if IsKey(m) || (cap > 0 && HasKey(ms)) then |ms| else |ms| + 1
    decreases |ms| - a
  {
    hide CanStart, IsKey, HasKey;
    CanStartExtend(cap, ms, m, a);
    if a < |ms| && !CanStart(cap, ms, a) {
      StartExtend(cap, ms, m, a + 1);
    }
  }

  /** With room in the cache, a subscriber is started by its first message as soon as there has been a key frame;
      without, only by a key frame that it sees itself. */
  lemma StartsWhen(cap: nat, ms: seq<Msg>, a: nat)
    requires a <= |ms|
    ensures cap > 0 ==> (StartAt(cap, ms, a) < |ms| <==> a < |ms| && HasKey(ms))
    ensures cap == 0 ==> (StartAt(cap, ms, a) < |ms| <==> exists i :: a <= i < |ms| && IsKey(ms[i]))
  {
    var j := StartAt(cap, ms, a);
    if cap > 0 && a < |ms| && HasKey(ms) {
      var n := |ms| - 1;
      assert ms == ms[..n] + [ms[n]];
      KeyAmong(ms[..n], [ms[n]]);
      assert CanStart(cap, ms, n);
    }
    if cap == 0 && j == |ms| {
      forall i | a <= i < |ms| ensures !IsKey(ms[i]) { assert !CanStart(cap, ms, i); }
    }
  }

  /** The cache can start a subscriber exactly if it has room and there has been a key frame. */
  lemma CacheStarts(cap: nat, limit: int, ms: seq<Msg>)
    ensures CacheOf(ms, cap, limit).groups != [] <==> cap > 0 && HasKey(ms)
  {
    if cap > 0 {
      GroupsAndVideo(ms, cap, limit);
    }
  }

  lemma Prefix(ms: seq<Msg>, m: Msg, j: nat)
    requires j <= |ms|
    ensures (ms + [m])[..j] == ms[..j] && (ms + [m])[j..] == ms[j..] + [m]
  {}

  lemma MediaOne(m: Msg)
    ensures Media([m]) == if IsMedia(m) then [m] else []
  {
    assert [m][..0] == [];
  }

  lemma NoMedia()
    ensures Media([]) == [] && Joined<Msg>([]) == []
  {}

  lemma LiveStep(ms: seq<Msg>, m: Msg)
    ensures Live(ms + [m]) == Live(ms) + if IsAv(m) then [m] else []
    ensures Live([m]) == if IsAv(m) then [m] else []
  {
    assert (ms + [m])[..|ms|] == ms && [m][..0] == [];
  }

  /** A subscriber that is getting video gets the next message, if it is audio or video. */
  lemma ServeOn(c: Cache, hasVideo: bool, k: Consumer, cap: nat, limit: int, ms: seq<Msg>, a: nat, j: nat, m: Msg)
    requires k.sent && Started(k, cap, limit, ms, a, j)
    ensures Serve(c, hasVideo, k, m).sent && Started(Serve(c, hasVideo, k, m), cap, limit, ms + [m], a, j)
  {
    hide CacheOf, Waiting, Headers, Joined, Live;
    Prefix(ms, m, j);
    LiveStep(ms[j..], m);
    assert Live(ms[j..]) + [] == Live(ms[j..]);
  }

  /** A subscriber without video is started from the cache, or by a key frame. */
  lemma ServeStart(k: Consumer, cap: nat, limit: int, ms: seq<Msg>, a: nat, m: Msg)
    requires !k.sent && k.got == Waiting(ms, a) && a <= |ms|
    requires CacheOf(ms, cap, limit).groups != [] || IsKey(m)
    ensures var k' := Serve(CacheOf(ms, cap, limit), HasKey(ms), k, m);
      k'.sent && Started(k', cap, limit, ms + [m], a, |ms|)
  {
    hide CacheOf, Waiting, Headers, Joined, Live, HasKey;
    var c := CacheOf(ms, cap, limit);
    Prefix(ms, m, |ms|);
    assert ms[..|ms|] == ms && ms[|ms|..] + [m] == [m];
    LiveStep(ms, m);
    NoMedia();
    var before := k.got + Headers(c);
    assert before + Joined(c.groups) + [] == before + Joined(c.groups) && before + [] == before;
  }

  /** Until then it gets the audio before the first key frame of the stream. */
  lemma ServeWait(k: Consumer, cap: nat, limit: int, ms: seq<Msg>, a: nat, m: Msg)
    requires !k.sent && k.got == Waiting(ms, a) && a <= |ms|
    requires CacheOf(ms, cap, limit).groups == [] && !IsKey(m)
    ensures var k' := Serve(CacheOf(ms, cap, limit), HasKey(ms), k, m); !k'.sent && k'.got == Waiting(ms + [m], a)
  {
    hide CacheOf, HasKey, IsKey;
    StartsIfKey(ms);
    assert (ms + [m])[..|ms|] == ms;
    assert Waiting(ms, a) + [] == Waiting(ms, a);
  }

  lemma ServeStep(k: Consumer, cap: nat, limit: int, ms: seq<Msg>, a: nat, m: Msg)
    requires a <= |ms| && Served(k, cap, limit, ms, a)
    ensures Served(Serve(CacheOf(ms, cap, limit), HasKey(ms), k, m), cap, limit, ms + [m], a)
  {
    hide CacheOf, HasKey, IsKey, Started, Serve, Waiting, StartAt;
    var c := CacheOf(ms, cap, limit);
    var j := StartAt(cap, ms, a);
    CacheStarts(cap, limit, ms);
    StartExtend(cap, ms, m, a);
    if j < |ms| {
      ServeOn(c, HasKey(ms), k, cap, limit, ms, a, j, m);
    } else if c.groups != [] || IsKey(m) {
      ServeStart(k, cap, limit, ms, a, m);
    } else {
      ServeWait(k, cap, limit, ms, a, m);
    }
  }

  predicate Untouched(id: string, es: seq<Event>) {
    forall e :: e in es ==> e.Message? || e.id != id
  }

  /** Delivery, over every interleaving: whatever happened before a subscriber was added, and whatever other
      subscribers come and go afterwards, it is served, and started as soon as that is possible. */
  lemma {:induction false} Delivery(cap: nat, limit: int, before: seq<Event>, id: string, after: seq<Event>)
    requires Untouched(id, after)
    ensures var es := before + [Add(id)] + after;
      && |History(before)| <= |History(es)|
      && id in Run(cap, limit, es).consumers
      && Served(Run(cap, limit, es).consumers[id], cap, limit, History(es), |History(before)|)
    decreases |after|
  {
    hide Served, CacheOf, Serve, FeedCache, StartAt;
    var es, a := before + [Add(id)] + after, |History(before)|;
    if after == [] {
      assert es[..|es| - 1] == before && es[|es| - 1] == Add(id);
      assert History(before) + [] == History(before);
      NewlyAdded(cap, limit, History(before));
    } else {
      var e, rest := after[|after| - 1], after[..|after| - 1];
      var es0 := before + [Add(id)] + rest;
      assert es[..|es| - 1] == es0 && es[|es| - 1] == e;
      Delivery(cap, limit, before, id, rest);
      assert e in after;
      if e.Message? {
        SessionIsHistory(cap, limit, es0);
        ServeStep(Run(cap, limit, es0).consumers[id], cap, limit, History(es0), a, e.msg);
      } else {
        assert History(es0) + [] == History(es0);
      }
    }
  }

  lemma NewlyAdded(cap: nat, limit: int, ms: seq<Msg>)
    ensures Served(Consumer(false, []), cap, limit, ms, |ms|)
  {}

  /** A subscriber that has been removed is gone until it is added again. */
  lemma {:induction false} Gone(cap: nat, limit: int, before: seq<Event>, id: string, after: seq<Event>)
    requires Add(id) !in after
    ensures id !in Run(cap, limit, before + [Remove(id)] + after).consumers
    decreases |after|
  {
    hide FeedCache, Serve;
    var es := before + [Remove(id)] + after;
    if after == [] {
      assert es[..|es| - 1] == before && es[|es| - 1] == Remove(id);
    } else {
      var e, rest := after[|after| - 1], after[..|after| - 1];
      assert es[..|es| - 1] == before + [Remove(id)] + rest && es[|es| - 1] == e;
      assert e in after;
      Gone(cap, limit, before, id, rest);
    }
  }

  /** When a subscriber has been sent video, over every interleaving. With a cached group: as soon as there has been a
      key frame at all and it has seen a message; without: as soon as it has seen a key frame. */
  lemma SentWhen(cap: nat, limit: int, before: seq<Event>, id: string, after: seq<Event>)
    requires Untouched(id, after)
    ensures var es := before + [Add(id)] + after;
      var ms, a := History(es), |History(before)|;
      id in Run(cap, limit, es).consumers
      && (Run(cap, limit, es).consumers[id].sent <==>
          if cap > 0 then |ms| > a && HasKey(ms) else exists i :: a <= i < |ms| && IsKey(ms[i]))
  {
    hide Run, History, StartAt, HasKey, IsKey, Started, Waiting;
    Delivery(cap, limit, before, id, after);
    StartsWhen(cap, History(before + [Add(id)] + after), |History(before)|);
  }

  // ----- gaps -----

  /** Where the oldest group that is kept begins, or the end of ms if none is. */
  function FirstKept(ms: seq<Msg>, cap: nat): (k: nat)
    ensures k <= |ms| && (k < |ms| ==> IsKey(ms[k]))
  {
    var kept := LastN(Starts(ms), cap);
    if kept == [] then |ms| else kept[0]
  }

  /** What is cut off a group. */
  function Tail(limit: int, g: seq<Msg>): seq<Msg> {
    g[|Cut(limit, g)|..]
  }

  /** No audio or video has been cut off. */
  ghost predicate NothingCut(limit: int, gs: seq<seq<Msg>>) {
    forall i :: 0 <= i < |gs| ==> Media(Tail(limit, gs[i])) == []
  }

  lemma {:induction false} StoredMedia(ms: seq<Msg>)
    ensures Media(StoredOnly(ms)) == Media(ms)
    decreases |ms|
  {
    if ms != [] {
      var rest, m := ms[..|ms| - 1], ms[|ms| - 1];
      StoredMedia(rest);
      var one := if Stored(m) then [m] else [];
      MediaAppend(StoredOnly(rest), one);
      MediaOne(m);
      NoMedia();
    }
  }

  /** Cutting only ever shortens: the media kept and the media cut off add up. */
  lemma {:induction false} CutMedia(limit: int, gs: seq<seq<Msg>>)
    ensures |Media(Joined(CutAll(limit, gs)))| <= |Media(Joined(gs))|
    ensures Media(Joined(CutAll(limit, gs))) == Media(Joined(gs)) <==> NothingCut(limit, gs)
    ensures |Media(Joined(CutAll(limit, gs)))| == |Media(Joined(gs))| <==> NothingCut(limit, gs)
    decreases |gs|
  {
    hide Media, Cut, CutAll;
    if gs == [] {
      NoMedia();
      assert CutAll(limit, gs) == [];
    } else {
      var n := |gs| - 1;
      CutMedia(limit, gs[..n]);
      CutAllPrefix(limit, gs, n);
      var c := Cut(limit, gs[n]);
      CutPrefix(limit, gs[n]);
      MediaAppend(Joined(gs[..n]), gs[n]);
      MediaAppend(Joined(CutAll(limit, gs[..n])), c);
      MediaAppend(c, Tail(limit, gs[n]));
    }
  }

  lemma CutPrefix(limit: int, g: seq<Msg>)
    ensures g == Cut(limit, g) + Tail(limit, g)
  {}

  lemma StoredAppend(ms: seq<Msg>, m: Msg)
    ensures StoredOnly(ms + [m]) == StoredOnly(ms) + if Stored(m) then [m] else []
  {
    assert (ms + [m])[..|ms|] == ms;
  }

  /** The groups from the i-th one on are what is stored from the i-th key frame on. */
  lemma {:induction false} GroupsFrom(ms: seq<Msg>, i: nat)
    requires i < |Groups(ms)|
    ensures |Starts(ms)| == |Groups(ms)| && Joined(Groups(ms)[i..]) == StoredOnly(ms[Starts(ms)[i]..])
    decreases |ms|
  {
    hide Groups, Starts, Joined, StoredOnly, IsKey, Stored, HasKey;
    if ms == [] {
      NoStarts();
    } else {
      var m, rest := ms[|ms| - 1], ms[..|ms| - 1];
      assert rest + [m] == ms;
      StartsIfKey(rest);
      StartsIfKey(ms);
      if i < |Groups(rest)| {
        GroupsFrom(rest, i);
        CarryOn(rest, m, i);
      } else {
        Grown(rest, m);
        NewestFrom(rest, m);
      }
    }
  }

  lemma NoStarts()
    ensures Groups([]) == [] && Starts([]) == []
  {}

  lemma CarryOn(rest: seq<Msg>, m: Msg, i: nat)
    requires i < |Groups(rest)| == |Starts(rest)| && Joined(Groups(rest)[i..]) == StoredOnly(rest[Starts(rest)[i]..])
    ensures var ms := rest + [m];
      i < |Groups(ms)| && i < |Starts(ms)| && Joined(Groups(ms)[i..]) == StoredOnly(ms[Starts(ms)[i]..])
  {
    hide Groups, Starts, Joined, StoredOnly, IsKey, Stored;
    Grown(rest, m);
    KeyIsStored(m);
    var gs, k := Groups(rest), Starts(rest)[i];
    Prefix(rest, m, k);
    StoredAppend(rest[k..], m);
    if IsKey(m) {
      Prefixed(gs, [m], i);
      JoinedLast(gs[i..], [m]);
    } else if Stored(m) {
      JoinedLonger(gs, i, m);
    } else {
      assert StoredOnly(rest[k..]) + [] == StoredOnly(rest[k..]);
    }
  }

  lemma Prefixed<T>(gs: seq<seq<T>>, g: seq<T>, i: nat)
    requires i <= |gs|
    ensures (gs + [g])[i..] == gs[i..] + [g]
  {}

  lemma NewestFrom(rest: seq<Msg>, m: Msg)
    requires |Groups(rest + [m])| > |Groups(rest)| == |Starts(rest)|
    ensures var ms, i := rest + [m], |Groups(rest)|;
      i + 1 == |Groups(ms)| == |Starts(ms)| && Joined(Groups(ms)[i..]) == StoredOnly(ms[Starts(ms)[i]..])
  {
    hide Groups, Starts, Joined, StoredOnly, IsKey, Stored;
    Grown(rest, m);
    assert IsKey(m);
    KeyIsStored(m);
    assert Groups(rest + [m])[|Groups(rest)|..] == [[m]] && (rest + [m])[|rest|..] == [m];
    OneGroup(m);
  }

  lemma OneGroup(m: Msg)
    ensures Joined([[m]]) == [m] && (Stored(m) ==> StoredOnly([m]) == [m])
  {
    assert [[m]][..0] == [] && [m][..0] == [];
    assert [] + [m] == [m];
  }

  lemma JoinedLonger<T>(gs: seq<seq<T>>, i: nat, m: T)
    requires i < |gs|
    ensures Joined((gs[..|gs| - 1] + [gs[|gs| - 1] + [m]])[i..]) == Joined(gs[i..]) + [m]
  {
    hide Joined;
    var n := |gs| - 1;
    var last := gs[n];
    assert gs[i..] == gs[i..n] + [last];
    assert (gs[..n] + [last + [m]])[i..] == gs[i..n] + [last + [m]];
    JoinedLast(gs[i..n], last);
    JoinedLast(gs[i..n], last + [m]);
    assert Joined(gs[i..n]) + (last + [m]) == Joined(gs[i..n]) + last + [m];
  }

  /** The groups that are kept are what is stored from the first key frame among them on. */
  lemma KeptStored(ms: seq<Msg>, cap: nat)
    ensures Joined(LastN(Groups(ms), cap)) == StoredOnly(ms[FirstKept(ms, cap)..])
  {
    hide Joined, StoredOnly, Groups, Starts, HasKey;
    StartsIfKey(ms);
    var gs := Groups(ms);
    var i := if |gs| <= cap then 0 else |gs| - cap;
    if i < |gs| {
      GroupsFrom(ms, i);
      assert LastN(gs, cap) == gs[i..];
      assert FirstKept(ms, cap) == Starts(ms)[i];
    } else {
      NoGroups<Msg>();
      NothingStored();
      assert LastN(gs, cap) == [] && LastN(Starts(ms), cap) == [] && ms[|ms|..] == [];
    }
  }

  lemma NothingStored()
    ensures StoredOnly([]) == []
  {}

  lemma CutKept(limit: int, gs: seq<seq<Msg>>, cap: nat)
    ensures LastN(CutAll(limit, gs), cap) == CutAll(limit, LastN(gs, cap))
  {}

  lemma {:induction false} LiveMedia(ms: seq<Msg>)
    ensures Media(Live(ms)) == Media(ms)
    decreases |ms|
  {
    if ms != [] {
      var rest, m := ms[..|ms| - 1], ms[|ms| - 1];
      LiveMedia(rest);
      MediaAppend(Live(rest), if IsAv(m) then [m] else []);
      MediaOne(m);
      NoMedia();
    }
  }

  /** A subscriber that has been started has received, behind the audio it got while waiting and the sequence
      headers, the media of the stream from a key frame on without a gap or a repetition, exactly if no media were
      cut off the groups it was started from. */
  lemma GapFree(k: Consumer, cap: nat, limit: int, ms: seq<Msg>, a: nat, j: nat)
    requires Started(k, cap, limit, ms, a, j)
    ensures var f, c := FirstKept(ms[..j], cap), CacheOf(ms[..j], cap, limit);
      var b := Joined(c.groups) + Live(ms[j..]);
      && k.got == Waiting(ms[..j], a) + Headers(c) + b
      && IsKey(ms[f])
      && (Media(b) == Media(ms[f..]) <==> NothingCut(limit, LastN(Groups(ms[..j]), cap)))
  {
    hide Media, Joined, Groups, NothingCut, CutAll, LastN, Waiting, IsKey, Starts, Live, Headers, StoredOnly;
    var x := ms[..j];
    var f, c := FirstKept(x, cap), CacheOf(x, cap, limit);
    assert Waiting(x, a) + Headers(c) + Joined(c.groups) + Live(ms[j..])
        == Waiting(x, a) + Headers(c) + (Joined(c.groups) + Live(ms[j..]));
    KeptStored(x, cap);
    StoredMedia(x[f..]);
    CutKept(limit, Groups(x), cap);
    CutMedia(limit, LastN(Groups(x), cap));
    MediaAppend(Joined(c.groups), Live(ms[j..]));
    LiveMedia(ms[j..]);
    assert ms[f..] == x[f..] + ms[j..];
    MediaAppend(x[f..], ms[j..]);
    if f == j {
      NoneKept(x, cap, limit);
    }
  }

  lemma NoneKept(x: seq<Msg>, cap: nat, limit: int)
    requires FirstKept(x, cap) == |x|
    ensures CacheOf(x, cap, limit).groups == []
  {
    hide HasKey;
    StartsIfKey(x);
  }

  /** Without a limit on the groups nothing is ever cut. */
  lemma NoLimit(gs: seq<seq<Msg>>)
    ensures NothingCut(0, gs)
  {
    NoMedia();
    assert forall i :: 0 <= i < |gs| ==> Tail(0, gs[i]) == [];
  }

  /** How one more message changes the groups. */
  lemma Grown(ms: seq<Msg>, m: Msg)
    ensures var gs := Groups(ms);
      Groups(ms + [m]) == if IsKey(m) then gs + [[m]]
                          else if gs == [] || !Stored(m) then gs
                          else gs[..|gs| - 1] + [gs[|gs| - 1] + [m]]
    ensures Starts(ms + [m]) == Starts(ms) + if IsKey(m) then [|ms|] else []
    ensures Groups([]) == []
  {
    assert (ms + [m])[..|ms|] == ms;
  }

  /** Gap-free delivery over every interleaving, when groups are cached without a limit: once it has video, a
      subscriber has received the audio from before the first key frame, the cached headers, all that is stored from a
      key frame on, and all audio and video from its start on. */
  lemma GapFreeDelivery(cap: nat, before: seq<Event>, id: string, after: seq<Event>)
    requires Untouched(id, after)
    ensures var es := before + [Add(id)] + after;
      var ms, a := History(es), |History(before)|;
      && a <= |ms| && id in Run(cap, 0, es).consumers
      && Uninterrupted(Run(cap, 0, es).consumers[id], cap, ms, a)
  {
    hide Run, Waiting, Started, History, StartAt, FromKeyOn;
    var es := before + [Add(id)] + after;
    Delivery(cap, 0, before, id, after);
    var k, ms, a := Run(cap, 0, es).consumers[id], History(es), |History(before)|;
    var j := StartAt(cap, ms, a);
    if j < |ms| {
      StartedWhole(k, cap, ms, a, j);
    }
  }

  /** What a subscriber that was added after a messages has received of ms without a gap. */
  ghost predicate Uninterrupted(k: Consumer, cap: nat, ms: seq<Msg>, a: nat)
    requires a <= |ms|
  {
    var j := StartAt(cap, ms, a);
    if j < |ms| then k.sent && FromKeyOn(k, cap, ms, a, j) else !k.sent && k.got == Waiting(ms, a)
  }

  ghost predicate FromKeyOn(k: Consumer, cap: nat, ms: seq<Msg>, a: nat, j: nat)
    requires j < |ms|
  {
    var x := ms[..j];
    var f := FirstKept(x, cap);
    && IsKey(ms[f])
    && k.got == Waiting(x, a) + Headers(CacheOf(x, cap, 0)) + StoredOnly(x[f..]) + Live(ms[j..])
    && Media(StoredOnly(x[f..]) + Live(ms[j..])) == Media(ms[f..])
  }

  lemma StartedWhole(k: Consumer, cap: nat, ms: seq<Msg>, a: nat, j: nat)
    requires Started(k, cap, 0, ms, a, j)
    ensures FromKeyOn(k, cap, ms, a, j)
  {
    hide Waiting, Headers, StoredOnly, Live, Media, FirstKept, IsKey, Groups, LastN, NothingCut, Joined;
    var x := ms[..j];
    GapFree(k, cap, 0, ms, a, j);
    NoLimit(LastN(Groups(x), cap));
    KeptStored(x, cap);
    AllKept(Groups(x));
  }

  lemma AllKept(gs: seq<seq<Msg>>)
    ensures CutAll(0, gs) == gs
  {}

  // ----- repetitions -----

  /** The positions of the audio that a subscriber gets while waiting. */
  function WaitingAt(ms: seq<Msg>, a: nat): seq<nat>
    decreases |ms|
  {
    if |ms| <= a then []
    else
      var m, rest := ms[|ms| - 1], ms[..|ms| - 1];
      WaitingAt(rest, a) + if m.Audio? && Starts(rest) == [] then [|rest|] else []
  }

  /** The positions of audio and video from `from` on. */
  function LiveAt(ms: seq<Msg>, from: nat): seq<nat>
    decreases |ms|
  {
    if |ms| <= from then []
    else LiveAt(ms[..|ms| - 1], from) + if IsAv(ms[|ms| - 1]) then [|ms| - 1] else []
  }

  /** The positions of the messages of the groups. */
  function GroupsAt(ms: seq<Msg>): seq<seq<nat>> {
    if ms == [] then []
    else
      var n := |ms| - 1;
      var m, gs := ms[n], GroupsAt(ms[..n]);
      if IsKey(m) then gs + [[n]]
      else if gs == [] || !Stored(m) then gs
      else gs[..|gs| - 1] + [gs[|gs| - 1] + [n]]
  }

  /** The positions of the messages in the cached groups. */
  function KeptAt(cap: nat, limit: int, ms: seq<Msg>): seq<nat> {
    Joined(LastN(CutAll(limit, GroupsAt(ms)), cap))
  }

  /** The position of the last video header, if there is one. */
  function VideoHeaderAt(ms: seq<Msg>): seq<nat> {
    if ms == [] then [] else if IsVideoHeader(ms[|ms| - 1]) then [|ms| - 1] else VideoHeaderAt(ms[..|ms| - 1])
  }

  /** The position of the last message that is cached as audio header, if there is one. */
  function AudioHeaderAt(ms: seq<Msg>): seq<nat> {
    if ms == [] then [] else if IsAudioHeader(ms[|ms| - 1]) then [|ms| - 1] else AudioHeaderAt(ms[..|ms| - 1])
  }

  ghost predicate Below(ps: seq<nat>, n: nat) {
    forall i :: 0 <= i < |ps| ==> ps[i] < n
  }

  /** The messages at these positions. */
  ghost function Pick(ms: seq<Msg>, ps: seq<nat>): (r: seq<Msg>)
    requires Below(ps, |ms|)
    ensures |r| == |ps| && forall i :: 0 <= i < |ps| ==> r[i] == ms[ps[i]]
  {
    seq(|ps|, i requires 0 <= i < |ps| => ms[ps[i]])
  }

  /** Between the bounds, and going up. */
  ghost predicate Rising(ps: seq<nat>, from: nat, to: nat) {
    && (forall i :: 0 <= i < |ps| ==> from <= ps[i] < to)
    && (forall i, k :: 0 <= i < k < |ps| ==> ps[i] < ps[k])
  }

  lemma RisingOn(ps: seq<nat>, from: nat, n: nat)
    requires Rising(ps, from, n) && from <= n
    ensures Below(ps, n) && Rising(ps, from, n + 1) && Rising(ps + [n], from, n + 1)
  {}

  lemma PickAppend(ms: seq<Msg>, ps: seq<nat>, qs: seq<nat>)
    requires Below(ps, |ms|) && Below(qs, |ms|)
    ensures Below(ps + qs, |ms|) && Pick(ms, ps + qs) == Pick(ms, ps) + Pick(ms, qs)
  {}

  /** Positions inside a prefix pick the same messages. */
  lemma PickPrefix(ms: seq<Msg>, j: nat, ps: seq<nat>)
    requires j <= |ms| && Below(ps, j)
    ensures Below(ps, |ms|) && Pick(ms, ps) == Pick(ms[..j], ps)
  {}

  /** One more message, behind positions that pick g. */
  lemma PickOn(rest: seq<Msg>, m: Msg, ps: seq<nat>, g: seq<Msg>)
    requires Below(ps, |rest|) && Pick(rest, ps) == g
    ensures Below(ps, |rest| + 1) && Pick(rest + [m], ps) == g
    ensures Below(ps + [|rest|], |rest| + 1) && Pick(rest + [m], ps + [|rest|]) == g + [m]
  {}

  lemma {:induction false} WaitingPicked(ms: seq<Msg>, a: nat)
    ensures var ps := WaitingAt(ms, a); Rising(ps, 0, |ms|) && Below(ps, |ms|) && Pick(ms, ps) == Waiting(ms, a)
    decreases |ms|
  {
    hide Pick, Rising, Below, Starts;
    NothingPicked(ms, 0);
    if |ms| > a {
      var m, rest := ms[|ms| - 1], ms[..|ms| - 1];
      WaitingPicked(rest, a);
      assert rest + [m] == ms;
      RisingOn(WaitingAt(rest, a), 0, |rest|);
      PickOn(rest, m, WaitingAt(rest, a), Waiting(rest, a));
      assert WaitingAt(rest, a) + [] == WaitingAt(rest, a) && Waiting(rest, a) + [] == Waiting(rest, a);
    }
  }

  lemma NothingPicked(ms: seq<Msg>, from: nat)
    ensures Below([], |ms|) && Pick(ms, []) == [] && Rising([], from, |ms|)
  {}

  lemma {:induction false} LivePicked(ms: seq<Msg>, from: nat)
    requires from <= |ms|
    ensures var ps := LiveAt(ms, from);
      Rising(ps, from, |ms|) && Below(ps, |ms|) && Pick(ms, ps) == Live(ms[from..])
    decreases |ms|
  {
    hide Pick, Rising, Below, Live, LiveAt, IsAv;
    if |ms| == from {
      NobodyLive(ms);
      NothingPicked(ms, from);
      assert ms[from..] == [];
    } else {
      var m, rest := ms[|ms| - 1], ms[..|ms| - 1];
      LivePicked(rest, from);
      LiveAtStep(rest, m, from);
      LiveOn(rest, m, LiveAt(rest, from), from, rest[from..]);
      assert rest + [m] == ms && rest[from..] + [m] == ms[from..];
    }
  }

  lemma NobodyLive(ms: seq<Msg>)
    ensures Live([]) == [] && LiveAt(ms, |ms|) == []
  {}

  lemma LiveAtStep(rest: seq<Msg>, m: Msg, from: nat)
    requires from <= |rest|
    ensures LiveAt(rest + [m], from) == if IsAv(m) then LiveAt(rest, from) + [|rest|] else LiveAt(rest, from)
  {
    assert (rest + [m])[..|rest|] == rest;
    assert LiveAt(rest, from) + [] == LiveAt(rest, from);
  }

  lemma LiveOn(rest: seq<Msg>, m: Msg, ps: seq<nat>, from: nat, x: seq<Msg>)
    requires from <= |rest| && Rising(ps, from, |rest|) && Below(ps, |rest|) && Pick(rest, ps) == Live(x)
    ensures var qs := if IsAv(m) then ps + [|rest|] else ps;
      Rising(qs, from, |rest| + 1) && Below(qs, |rest| + 1) && Pick(rest + [m], qs) == Live(x + [m])
  {
    hide Pick, Rising, Below, Live, IsAv;
    RisingOn(ps, from, |rest|);
    PickOn(rest, m, ps, Live(x));
    LiveStep(x, m);
    assert Live(x) + [] == Live(x);
  }

  lemma {:induction false} VideoHeaderPicked(ms: seq<Msg>)
    ensures var ps, h := VideoHeaderAt(ms), LastVideoHeader(ms);
      && Below(ps, |ms|) && |ps| <= 1 && (ps != [] ==> IsVideoHeader(ms[ps[0]]))
      && Pick(ms, ps) == if h.Some? then [h.value] else []
    decreases |ms|
  {
    hide IsVideoHeader;
    if ms != [] {
      VideoHeaderPicked(ms[..|ms| - 1]);
    }
  }

  lemma {:induction false} AudioHeaderPicked(ms: seq<Msg>)
    ensures var ps, h := AudioHeaderAt(ms), LastAudioHeader(ms);
      && Below(ps, |ms|) && |ps| <= 1 && (ps != [] ==> IsAudioHeader(ms[ps[0]]))
      && Pick(ms, ps) == if h.Some? then [h.value] else []
    decreases |ms|
  {
    hide IsAudioHeader;
    if ms != [] {
      AudioHeaderPicked(ms[..|ms| - 1]);
    }
  }

  /** The lists of positions pick the groups one by one. */
  ghost predicate Picks(ms: seq<Msg>, pss: seq<seq<nat>>, gs: seq<seq<Msg>>) {
    |pss| == |gs| && forall i :: 0 <= i < |pss| ==> Below(pss[i], |ms|) && Pick(ms, pss[i]) == gs[i]
  }

  /** The positions go up from list to list. */
  ghost predicate InOrder(pss: seq<seq<nat>>, n: nat) {
    && (forall i :: 0 <= i < |pss| ==> Rising(pss[i], 0, n))
    && (forall i, k, p, q :: 0 <= i < k < |pss| && p in pss[i] && q in pss[k] ==> p < q)
  }

  lemma {:induction false} GroupsPicked(ms: seq<Msg>)
    ensures Picks(ms, GroupsAt(ms), Groups(ms)) && InOrder(GroupsAt(ms), |ms|)
    decreases |ms|
  {
    hide IsKey, Stored, Picks, InOrder;
    if ms == [] {
      NoLists(ms);
    } else {
      var m, rest := ms[|ms| - 1], ms[..|ms| - 1];
      GroupsPicked(rest);
      assert rest + [m] == ms;
      ListsOn(rest, m, GroupsAt(rest), Groups(rest));
    }
  }

  lemma NoLists(ms: seq<Msg>)
    ensures Picks(ms, [], []) && InOrder([], |ms|)
  {}

  lemma ListsOn(rest: seq<Msg>, m: Msg, pss: seq<seq<nat>>, gs: seq<seq<Msg>>)
    requires Picks(rest, pss, gs) && InOrder(pss, |rest|)
    ensures |pss| == |gs|
    ensures Picks(rest + [m], pss, gs) && InOrder(pss, |rest| + 1)
    ensures Picks(rest + [m], pss + [[|rest|]], gs + [[m]]) && InOrder(pss + [[|rest|]], |rest| + 1)
    ensures pss != [] ==>
      var ps, g := pss[|pss| - 1] + [|rest|], gs[|gs| - 1] + [m];
      Picks(rest + [m], pss[..|pss| - 1] + [ps], gs[..|gs| - 1] + [g]) && InOrder(pss[..|pss| - 1] + [ps], |rest| + 1)
  {
    hide Pick, Below, Rising;
    forall i | 0 <= i < |pss|
      ensures Below(pss[i], |rest| + 1) && Pick(rest + [m], pss[i]) == gs[i]
      ensures Below(pss[i] + [|rest|], |rest| + 1) && Pick(rest + [m], pss[i] + [|rest|]) == gs[i] + [m]
    {
      PickOn(rest, m, pss[i], gs[i]);
    }
    NothingPicked(rest, 0);
    PickOn(rest, m, [], []);
    assert [] + [|rest|] == [|rest|] && [] + [m] == [m];
    OrderOn(pss, |rest|);
  }

  lemma OrderOn(pss: seq<seq<nat>>, n: nat)
    requires InOrder(pss, n)
    ensures InOrder(pss, n + 1) && InOrder(pss + [[n]], n + 1)
    ensures pss != [] ==> InOrder(pss[..|pss| - 1] + [pss[|pss| - 1] + [n]], n + 1)
  {
    hide Rising;
    forall i | 0 <= i < |pss|
      ensures Rising(pss[i], 0, n + 1) && Rising(pss[i] + [n], 0, n + 1) && forall p :: p in pss[i] ==> p < n
    {
      RisingOn(pss[i], 0, n);
      RisingBelow(pss[i], 0, n);
    }
    OneRising(n);
  }

  lemma OneRising(n: nat)
    ensures Rising([n], 0, n + 1)
  {}

  lemma RisingBelow(ps: seq<nat>, from: nat, to: nat)
    requires Rising(ps, from, to)
    ensures forall p :: p in ps ==> from <= p < to
  {}

  lemma ListsCut(ms: seq<Msg>, pss: seq<seq<nat>>, gs: seq<seq<Msg>>, limit: int)
    requires Picks(ms, pss, gs) && InOrder(pss, |ms|)
    ensures Picks(ms, CutAll(limit, pss), CutAll(limit, gs)) && InOrder(CutAll(limit, pss), |ms|)
  {
    hide Pick, Cut;
    forall i | 0 <= i < |pss|
      ensures Below(Cut(limit, pss[i]), |ms|) && Pick(ms, Cut(limit, pss[i])) == Cut(limit, gs[i])
      ensures Rising(Cut(limit, pss[i]), 0, |ms|) && forall p :: p in Cut(limit, pss[i]) ==> p in pss[i]
    {
      ListCut(ms, pss[i], gs[i], limit);
    }
  }

  lemma ListCut(ms: seq<Msg>, ps: seq<nat>, g: seq<Msg>, limit: int)
    requires Below(ps, |ms|) && Pick(ms, ps) == g && Rising(ps, 0, |ms|)
    ensures Below(Cut(limit, ps), |ms|) && Pick(ms, Cut(limit, ps)) == Cut(limit, g)
    ensures Rising(Cut(limit, ps), 0, |ms|) && forall p :: p in Cut(limit, ps) ==> p in ps
  {}

  lemma ListsLast(ms: seq<Msg>, pss: seq<seq<nat>>, gs: seq<seq<Msg>>, cap: nat)
    requires Picks(ms, pss, gs) && InOrder(pss, |ms|)
    ensures Picks(ms, LastN(pss, cap), LastN(gs, cap)) && InOrder(LastN(pss, cap), |ms|)
  {}

  lemma {:induction false} ListsJoined(ms: seq<Msg>, pss: seq<seq<nat>>, gs: seq<seq<Msg>>)
    requires Picks(ms, pss, gs) && InOrder(pss, |ms|)
    ensures Below(Joined(pss), |ms|) && Pick(ms, Joined(pss)) == Joined(gs) && Rising(Joined(pss), 0, |ms|)
    decreases |pss|
  {
    hide Pick, Rising, Below;
    if pss == [] {
      NothingPicked(ms, 0);
    } else {
      var n := |pss| - 1;
      ListsJoined(ms, pss[..n], gs[..n]);
      PickAppend(ms, Joined(pss[..n]), pss[n]);
      JoinedHas(pss[..n]);
      RisingBehind(Joined(pss[..n]), pss[n], |ms|);
    }
  }

  lemma {:induction false} JoinedHas<T>(gs: seq<seq<T>>)
    ensures forall x :: x in Joined(gs) <==> exists i :: 0 <= i < |gs| && x in gs[i]
    decreases |gs|
  {
    if gs != [] {
      JoinedHas(gs[..|gs| - 1]);
    }
  }

  lemma RisingBehind(ps: seq<nat>, qs: seq<nat>, n: nat)
    requires Rising(ps, 0, n) && Rising(qs, 0, n) && forall p, q :: p in ps && q in qs ==> p < q
    ensures Rising(ps + qs, 0, n)
  {
    forall i, k | 0 <= i < k < |ps + qs|
      ensures (ps + qs)[i] < (ps + qs)[k]
    {
      if i < |ps| <= k {
        assert ps[i] in ps && qs[k - |ps|] in qs;
      }
    }
  }

  /** The positions of the cached groups pick the cached groups, in order, and are among those of all groups. */
  lemma KeptPicked(cap: nat, limit: int, ms: seq<Msg>)
    ensures var ps := KeptAt(cap, limit, ms);
      && Below(ps, |ms|) && Rising(ps, 0, |ms|)
      && Pick(ms, ps) == Joined(CacheOf(ms, cap, limit).groups)
      && forall p :: p in ps ==> p in Joined(GroupsAt(ms))
  {
    hide GroupsAt, Groups, Joined, Pick, Rising, Below, Picks, InOrder, CutAll, LastN;
    var pss, gs := GroupsAt(ms), Groups(ms);
    GroupsPicked(ms);
    ListsJoined(ms, pss, gs);
    ListsCut(ms, pss, gs, limit);
    ListsLast(ms, CutAll(limit, pss), CutAll(limit, gs), cap);
    ListsJoined(ms, LastN(CutAll(limit, pss), cap), LastN(CutAll(limit, gs), cap));
    JoinedHas(pss);
    JoinedHas(LastN(CutAll(limit, pss), cap));
    KeptAmong(pss, cap, limit);
  }

  lemma KeptAmong(pss: seq<seq<nat>>, cap: nat, limit: int)
    ensures var kept := LastN(CutAll(limit, pss), cap);
      forall i, p :: 0 <= i < |kept| && p in kept[i] ==> exists k :: 0 <= k < |pss| && p in pss[k]
  {
    var kept := LastN(CutAll(limit, pss), cap);
    forall i, p | 0 <= i < |kept| && p in kept[i]
      ensures exists k :: 0 <= k < |pss| && p in pss[k]
    {
      var k := |pss| - |kept| + i;
      assert kept[i] == Cut(limit, pss[k]);
      assert p in pss[k];
    }
  }

  /** Which audio is received while waiting: from a on, with no key frame before it. */
  lemma {:induction false} WaitingFound(ms: seq<Msg>, a: nat, p: nat)
    ensures p in WaitingAt(ms, a) <==> a <= p < |ms| && ms[p].Audio? && Starts(ms[..p]) == []
    decreases |ms|
  {
    hide Starts;
    if |ms| > a {
      var rest := ms[..|ms| - 1];
      WaitingFound(rest, a, p);
      if p < |rest| {
        assert ms[..p] == rest[..p];
      }
    }
  }

  /** What one more message adds to the groups from the i-th on. */
  lemma GroupsAtStep(ms: seq<Msg>, i: nat)
    requires ms != []
    ensures var n: nat := |ms| - 1;
      var gs, longer := GroupsAt(ms[..n]), GroupsAt(ms);
      && (i < |gs| ==> i < |longer|
                       && Joined(longer[i..]) == Joined(gs[i..]) + if Stored(ms[n]) then [n] else [])
      && (i == |gs| && IsKey(ms[n]) ==> |longer| == i + 1 && Joined(longer[i..]) == [n])
      && (gs == [] && !IsKey(ms[n]) ==> longer == [])
  {
    hide Joined, IsKey, Stored;
    var n: nat := |ms| - 1;
    var gs := GroupsAt(ms[..n]);
    KeyIsStored(ms[n]);
    if i < |gs| {
      Prefixed<nat>(gs, [n], i);
      JoinedLast<nat>(gs[i..], [n]);
      JoinedLonger<nat>(gs, i, n);
      assert Joined(gs[i..]) + [] == Joined(gs[i..]);
    } else if i == |gs| {
      Prefixed<nat>(gs, [n], i);
      NoGroups<nat>();
      JoinedLast<nat>([], [n]);
      assert gs[i..] == [] && [] + [[n]] == [[n]];
    }
  }

  /** Only what is stored is in a group, and only from a key frame on. */
  lemma {:induction false} GroupsFound(ms: seq<Msg>, p: nat)
    requires p in Joined(GroupsAt(ms))
    ensures p < |ms| && Stored(ms[p]) && (IsKey(ms[p]) || Starts(ms[..p]) != [])
    decreases |ms|
  {
    hide Starts, Joined, IsKey, Stored, GroupsAt;
    NoGroups<nat>();
    NoGroupsAt();
    var n := |ms| - 1;
    var rest := ms[..n];
    GroupsIfStarts(rest);
    GroupsAtStep(ms, 0);
    KeyIsStored(ms[n]);
    assert GroupsAt(ms)[0..] == GroupsAt(ms) && GroupsAt(rest)[0..] == GroupsAt(rest);
    if p in Joined(GroupsAt(rest)) {
      GroupsFound(rest, p);
      assert rest[..p] == ms[..p];
    }
  }

  lemma NoGroupsAt()
    ensures GroupsAt([]) == []
  {}

  lemma GroupsIfStarts(ms: seq<Msg>)
    ensures |GroupsAt(ms)| == |Starts(ms)|
  {
    hide GroupsAt, Groups, Starts;
    GroupsPicked(ms);
    StartsIfKey(ms);
  }

  /** No position twice. */
  ghost predicate Once(ps: seq<nat>) {
    forall i, k :: 0 <= i < k < |ps| ==> ps[i] != ps[k]
  }

  ghost predicate Apart(ps: seq<nat>, qs: seq<nat>) {
    forall p :: p in ps ==> p !in qs
  }

  lemma OnceAppend(ps: seq<nat>, qs: seq<nat>)
    ensures Once(ps + qs) <==> Once(ps) && Once(qs) && Apart(ps, qs)
  {
    var all := ps + qs;
    assert forall i :: 0 <= i < |ps| ==> all[i] == ps[i];
    assert forall i :: 0 <= i < |qs| ==> all[|ps| + i] == qs[i];
    if !Apart(ps, qs) {
      var p :| p in ps && p in qs;
      var i :| 0 <= i < |ps| && ps[i] == p;
      var k :| 0 <= k < |qs| && qs[k] == p;
      assert all[i] == all[|ps| + k];
    } else if !Once(qs) {
      var i, k :| 0 <= i < k < |qs| && qs[i] == qs[k];
      assert all[|ps| + i] == all[|ps| + k];
    } else if Once(ps) {
      forall i, k | 0 <= i < k < |all| ensures all[i] != all[k] {
        if i < |ps| <= k {
          assert ps[i] in ps && qs[k - |ps|] in qs;
        }
      }
    }
  }

  lemma RisingOnce(ps: seq<nat>, from: nat, to: nat)
    requires Rising(ps, from, to)
    ensures Once(ps)
  {}

  /** The positions in ms of all messages that a subscriber has received, in the order it received them, with x for the
      messages in front of the one that starts it. */
  function GotAt(cap: nat, limit: int, ms: seq<Msg>, a: nat, j: nat): seq<nat>
    requires j <= |ms|
  {
    var x := ms[..j];
    WaitingAt(x, a) + VideoHeaderAt(x) + AudioHeaderAt(x) + KeptAt(cap, limit, x) + LiveAt(ms, j)
  }

  ghost function ReceivedAt(cap: nat, limit: int, ms: seq<Msg>, a: nat): seq<nat>
    requires a <= |ms|
  {
    var j := StartAt(cap, ms, a);
    if j < |ms| then GotAt(cap, limit, ms, a, j) else WaitingAt(ms, a)
  }

  /** The cached audio header was received while waiting, or is in the cached groups as well. */
  predicate HeaderAgain(cap: nat, limit: int, x: seq<Msg>, a: nat) {
    var q := AudioHeaderAt(x);
    q != [] && (q[0] in WaitingAt(x, a) || q[0] in KeptAt(cap, limit, x))
  }

  lemma GotPicked(k: Consumer, cap: nat, limit: int, ms: seq<Msg>, a: nat, j: nat)
    requires Started(k, cap, limit, ms, a, j)
    ensures var ps := GotAt(cap, limit, ms, a, j); Below(ps, |ms|) && k.got == Pick(ms, ps)
  {
    hide Pick, Below, Rising, WaitingAt, VideoHeaderAt, AudioHeaderAt, KeptAt, LiveAt, Waiting, Live, Joined, Groups,
      CutAll, LastN;
    var x := ms[..j];
    WaitingPicked(x, a);
    VideoHeaderPicked(x);
    AudioHeaderPicked(x);
    KeptPicked(cap, limit, x);
    LivePicked(ms, j);
    var w, v, h, kept := WaitingAt(x, a), VideoHeaderAt(x), AudioHeaderAt(x), KeptAt(cap, limit, x);
    PickPrefix(ms, j, w);
    PickPrefix(ms, j, v);
    PickPrefix(ms, j, h);
    PickPrefix(ms, j, kept);
    PickAppend(ms, w, v);
    PickAppend(ms, w + v, h);
    PickAppend(ms, w + v + h, kept);
    PickAppend(ms, w + v + h + kept, LiveAt(ms, j));
    var c := CacheOf(x, cap, limit);
    assert Headers(c) == Pick(x, v) + Pick(x, h);
    assert Waiting(x, a) + Headers(c) == Waiting(x, a) + Pick(x, v) + Pick(x, h);
    assert k.got == Waiting(x, a) + Headers(c) + Joined(c.groups) + Live(ms[j..]);
  }

  /** When no position comes twice. */
  lemma GotOnce(cap: nat, limit: int, ms: seq<Msg>, a: nat, j: nat)
    requires j <= |ms|
    ensures !Once(GotAt(cap, limit, ms, a, j)) <==> HeaderAgain(cap, limit, ms[..j], a)
  {
    hide Pick, Below, Rising, WaitingAt, VideoHeaderAt, AudioHeaderAt, KeptAt, LiveAt, Waiting, Live, Once, Starts,
      IsKey, Stored, IsVideoHeader, IsAudioHeader, CacheOf, GroupsAt;
    var x := ms[..j];
    var w, v, h := WaitingAt(x, a), VideoHeaderAt(x), AudioHeaderAt(x);
    var kept, live := KeptAt(cap, limit, x), LiveAt(ms, j);
    WaitingPicked(x, a);
    VideoHeaderPicked(x);
    AudioHeaderPicked(x);
    KeptPicked(cap, limit, x);
    LivePicked(ms, j);
    PartsApart(cap, limit, x, a);
    OnceParts(w, v, h, kept, live, j, |ms|);
  }

  lemma OnceParts(w: seq<nat>, v: seq<nat>, h: seq<nat>, kept: seq<nat>, live: seq<nat>, j: nat, n: nat)
    requires Rising(w, 0, j) && Rising(kept, 0, j) && Rising(live, j, n)
    requires |v| <= 1 && Below(v, j) && |h| <= 1 && Below(h, j)
    requires Apart(w, v) && Apart(w, kept) && Apart(v, h) && Apart(v, kept)
    ensures Once(w + v + h + kept + live) <==> (h == [] || (h[0] !in w && h[0] !in kept))
  {
    hide Rising, Below, Once, Apart;
    RisingOnce(w, 0, j);
    RisingOnce(kept, 0, j);
    RisingOnce(live, j, n);
    ShortOnce(v);
    ShortOnce(h);
    OnceAppend(w, v);
    OnceAppend(w + v, h);
    OnceAppend(w + v + h, kept);
    OnceAppend(w + v + h + kept, live);
    ApartAppend(w, v, h);
    ApartAppend(w, v, kept);
    ApartAppend(w + v, h, kept);
    ApartShort(w, h);
    ApartShort(kept, h);
    RisingBelow(w, 0, j);
    RisingBelow(kept, 0, j);
    RisingBelow(live, j, n);
    BelowAll(v, j);
    BelowAll(h, j);
    AllBelow(w + v + h + kept, live, j);
  }

  lemma ShortOnce(ps: seq<nat>)
    requires |ps| <= 1
    ensures Once(ps)
  {}

  lemma ApartAppend(ps: seq<nat>, qs: seq<nat>, rs: seq<nat>)
    ensures Apart(ps + qs, rs) <==> Apart(ps, rs) && Apart(qs, rs)
  {
    assert forall p :: p in ps + qs <==> p in ps || p in qs;
  }

  lemma ApartShort(ps: seq<nat>, h: seq<nat>)
    requires |h| <= 1
    ensures Apart(ps, h) <==> (h == [] || h[0] !in ps)
    ensures Apart(h, ps) <==> (h == [] || h[0] !in ps)
  {}

  lemma BelowAll(ps: seq<nat>, n: nat)
    requires Below(ps, n)
    ensures forall p :: p in ps ==> p < n
  {}

  lemma AllBelow(ps: seq<nat>, qs: seq<nat>, n: nat)
    requires (forall p :: p in ps ==> p < n) && forall q :: q in qs ==> q >= n
    ensures Apart(ps, qs)
  {}

  /** The parts have no position in common, but for the audio header. */
  lemma PartsApart(cap: nat, limit: int, x: seq<Msg>, a: nat)
    ensures var w, v, h, kept := WaitingAt(x, a), VideoHeaderAt(x), AudioHeaderAt(x), KeptAt(cap, limit, x);
      Apart(w, v) && Apart(w, kept) && Apart(v, h) && Apart(v, kept)
  {
    hide WaitingAt, VideoHeaderAt, AudioHeaderAt, KeptAt, GroupsAt, Joined, Starts, Pick, Below, Rising, CacheOf;
    VideoHeaderPicked(x);
    AudioHeaderPicked(x);
    KeptPicked(cap, limit, x);
    forall p | p in WaitingAt(x, a)
      ensures p < |x| && x[p].Audio? && Starts(x[..p]) == []
    {
      WaitingFound(x, a, p);
    }
    forall p | p in KeptAt(cap, limit, x)
      ensures p < |x| && Stored(x[p]) && (IsKey(x[p]) || Starts(x[..p]) != [])
    {
      GroupsFound(x, p);
    }
  }

  /** What a subscriber has received, message by message, and exactly when it has received one twice, over every
      interleaving: the last message before its start that is cached as audio header comes in the preamble, and it
      came before, while waiting, or comes again, in the cached groups. */
  lemma Repetition(cap: nat, limit: int, before: seq<Event>, id: string, after: seq<Event>)
    requires Untouched(id, after)
    ensures var es := before + [Add(id)] + after;
      var ms, a := History(es), |History(before)|;
      && a <= |ms| && id in Run(cap, limit, es).consumers
      && var ps, j := ReceivedAt(cap, limit, ms, a), StartAt(cap, ms, a);
      && Below(ps, |ms|) && Run(cap, limit, es).consumers[id].got == Pick(ms, ps)
      && (!Once(ps) <==> j < |ms| && HeaderAgain(cap, limit, ms[..j], a))
  {
    hide Run, Waiting, Started, History, StartAt, Pick, Below, Once, GotAt, HeaderAgain, WaitingAt, Rising;
    var es := before + [Add(id)] + after;
    Delivery(cap, limit, before, id, after);
    var k, ms, a := Run(cap, limit, es).consumers[id], History(es), |History(before)|;
    var j := StartAt(cap, ms, a);
    if j < |ms| {
      GotPicked(k, cap, limit, ms, a, j);
      GotOnce(cap, limit, ms, a, j);
    } else {
      WaitingPicked(ms, a);
      RisingOnce(WaitingAt(ms, a), 0, |ms|);
    }
  }

  /** The condition in terms of the stream, with groups cached without a limit: the subscriber saw that message, and
      there was no key frame before; or it needs no header, so that it is itself cached, and is not older than the
      oldest cached group. */
  lemma HeaderAgainWhen(cap: nat, x: seq<Msg>, a: nat)
    ensures HeaderAgain(cap, 0, x, a) <==>
      AudioHeaderAt(x) != []
      && var q := AudioHeaderAt(x)[0];
      q < |x| && ((a <= q && !HasKey(x[..q])) || (Stored(x[q]) && FirstKept(x, cap) <= q))
  {
    hide WaitingAt, AudioHeaderAt, KeptAt, Starts, FirstKept, Stored, IsAudioHeader, Pick, Below;
    AudioHeaderPicked(x);
    if AudioHeaderAt(x) != [] {
      var q := AudioHeaderAt(x)[0];
      HeaderBelow(x);
      WaitingFound(x, a, q);
      StartsIfKey(x[..q]);
      KeptFound(x, cap, q);
    }
  }

  lemma {:induction false} HeaderBelow(x: seq<Msg>)
    ensures AudioHeaderAt(x) != [] ==> AudioHeaderAt(x)[0] < |x| && x[AudioHeaderAt(x)[0]].Audio?
    decreases |x|
  {
    if x != [] {
      HeaderBelow(x[..|x| - 1]);
    }
  }

  /** Without a limit the cached groups hold all that is stored from the first cached key frame on. */
  lemma KeptFound(ms: seq<Msg>, cap: nat, p: nat)
    ensures p in KeptAt(cap, 0, ms) <==> FirstKept(ms, cap) <= p < |ms| && Stored(ms[p])
  {
    hide GroupsAt, Joined, Starts, Stored;
    var pss := GroupsAt(ms);
    GroupsIfStarts(ms);
    assert CutAll(0, pss) == pss;
    var i := if |pss| <= cap then 0 else |pss| - cap;
    if i < |pss| {
      GroupsAtFrom(ms, i, p);
      assert LastN(pss, cap) == pss[i..] && FirstKept(ms, cap) == Starts(ms)[i];
    } else {
      NoGroups<nat>();
      assert LastN(pss, cap) == [] && LastN(Starts(ms), cap) == [];
    }
  }

  lemma {:induction false} GroupsAtFrom(ms: seq<Msg>, i: nat, p: nat)
    requires i < |GroupsAt(ms)|
    ensures |Starts(ms)| == |GroupsAt(ms)|
    ensures p in Joined(GroupsAt(ms)[i..]) <==> Starts(ms)[i] <= p < |ms| && Stored(ms[p])
    decreases |ms|
  {
    hide Joined, IsKey, Stored, GroupsAt;
    NoGroupsAt();
    var n := |ms| - 1;
    var rest := ms[..n];
    GroupsIfStarts(rest);
    GroupsIfStarts(ms);
    KeyIsStored(ms[n]);
    GroupsAtStep(ms, i);
    if i < |GroupsAt(rest)| {
      GroupsAtFrom(rest, i, p);
    }
  }

  // ----- two runs -----

  lemma RunOn(cap: nat, limit: int, es: seq<Event>, e: Event)
    ensures Run(cap, limit, es + [e]) == Step(Run(cap, limit, es), cap, limit, e)
  {
    assert (es + [e])[..|es|] == es;
  }

  const KEY: Msg := Video(KeyFrame, [])

  /** A session without subscribers that has seen a key frame and one more message. */
  lemma TwoMessages(cap: nat, limit: int, m: Msg)
    requires cap > 0 && limit >= 0 && Stored(m) && !IsKey(m)
    ensures Run(cap, limit, [Message(KEY), Message(m)])
         == Session(Cache(None, if IsAudioHeader(m) then Some(m) else None, [[KEY, m]]), true, map[])
  {
    hide Run;
    RunNothing(cap, limit);
    RunOn(cap, limit, [], Message(KEY));
    RunOn(cap, limit, [Message(KEY)], Message(m));
    assert [] + [Message(KEY)] == [Message(KEY)] && [Message(KEY)] + [Message(m)] == [Message(KEY), Message(m)];
    FirstGroup(cap, limit, m);
  }

  lemma RunNothing(cap: nat, limit: int)
    ensures Run(cap, limit, []) == EMPTY
  {}

  lemma FirstGroup(cap: nat, limit: int, m: Msg)
    requires cap > 0 && limit >= 0 && Stored(m) && !IsKey(m)
    ensures var s := Step(EMPTY, cap, limit, Message(KEY));
      && s == Session(Cache(None, None, [[KEY]]), true, map[])
      && Step(s, cap, limit, Message(m))
         == Session(Cache(None, if IsAudioHeader(m) then Some(m) else None, [[KEY, m]]), true, map[])
  {
    hide NewGroup, LastGroup;
    FirstTwo(cap, limit, m);
  }

  lemma FirstTwo(cap: nat, limit: int, m: Msg)
    requires cap > 0 && limit >= 0
    ensures NewGroup([], cap, KEY) == [[KEY]] && LastGroup([[KEY]], limit, m) == [[KEY, m]]
  {
    var none: seq<seq<Msg>> := [];
    assert none + [[KEY]] == [[KEY]];
    OntoOnly([KEY], m);
    assert [KEY] + [m] == [KEY, m];
    assert LastGroup([[KEY]], limit, m) == [[KEY]][..0] + [[KEY] + [m]];
  }

  lemma OntoOnly<T>(g: seq<T>, x: T)
    ensures [g][..0] + [g + [x]] == [g + [x]]
  {
    assert [g][..0] == [];
  }

  lemma LateSubscriber(cap: nat, limit: int, s: Session, id: string, next: Msg)
    requires s.consumers == map[] && s.cache.groups != [] && |s.cache.groups| <= cap && next.Video?
    ensures var s1 := Step(s, cap, limit, Add(id));
      var s2 := Step(s1, cap, limit, Message(next));
      && |s1.cache.groups| <= cap && id in s2.consumers
      && s2.consumers[id].got == Headers(s.cache) + Joined(s.cache.groups) + [next]
  {
    hide FeedCache, Headers, Joined;
    assert [] + Headers(s.cache) + Joined(s.cache.groups) + [next]
        == Headers(s.cache) + Joined(s.cache.groups) + [next];
  }

  /** On a G.711 or Opus stream a late subscriber gets the newest audio message twice, the first time ahead of the
      key frame. */
  lemma AudioTwice()
    ensures var x, next := Audio(SelfDescribing, []), Video(InterFrame, []);
      var s := Run(1, 0, [Message(KEY), Message(x), Add("a"), Message(next)]);
      "a" in s.consumers && s.consumers["a"].got == [x, KEY, x, next]
  {
    hide Run, Step, Headers;
    var x, next := Audio(SelfDescribing, []), Video(InterFrame, []);
    var es := [Message(KEY), Message(x)];
    TwoMessages(1, 0, x);
    RunOn(1, 0, es, Add("a"));
    RunOn(1, 0, es + [Add("a")], Message(next));
    assert es + [Add("a")] + [Message(next)] == [Message(KEY), Message(x), Add("a"), Message(next)];
    var s := Run(1, 0, es);
    LateSubscriber(1, 0, s, "a", next);
    OneAudioHeader(x);
    JoinedOne([KEY, x]);
  }

  lemma OneAudioHeader(x: Msg)
    ensures Headers(Cache(None, Some(x), [[KEY, x]])) == [x] && Headers(Cache(None, None, [[KEY, x]])) == []
  {}

  lemma JoinedOne(g: seq<Msg>)
    ensures Joined([g]) == g
  {
    assert [g][..0] == [] && [] + g == g;
  }

  /** A subscriber that is there before the first key frame gets the AAC sequence header twice, whatever the limit. */
  lemma HeaderTwice(limit: int)
    ensures var x := Audio(AacHeader, []);
      var s := Run(0, limit, [Add("a"), Message(x), Message(KEY)]);
      "a" in s.consumers && s.consumers["a"].got == [x, x, KEY]
  {
    hide Run;
    var x := Audio(AacHeader, []);
    RunNothing(0, limit);
    RunOn(0, limit, [], Add("a"));
    RunOn(0, limit, [Add("a")], Message(x));
    RunOn(0, limit, [Add("a"), Message(x)], Message(KEY));
    assert [] + [Add("a")] == [Add("a")] && [Add("a")] + [Message(x)] == [Add("a"), Message(x)];
    assert [Add("a"), Message(x)] + [Message(KEY)] == [Add("a"), Message(x), Message(KEY)];
  }

  /** With a limit on the groups a late subscriber misses a frame: here the third. */
  lemma LimitLoses()
    ensures var second, third, fourth := Video(InterFrame, [2]), Video(InterFrame, [3]), Video(InterFrame, [4]);
      var s := Run(1, 1, [Message(KEY), Message(second), Message(third), Add("a"), Message(fourth)]);
      "a" in s.consumers && s.consumers["a"].got == [KEY, second, fourth]
  {
    hide Run, Headers, Joined;
    var second, third, fourth := Video(InterFrame, [2]), Video(InterFrame, [3]), Video(InterFrame, [4]);
    var es := [Message(KEY), Message(second)];
    TwoMessages(1, 1, second);
    RunOn(1, 1, es, Message(third));
    RunOn(1, 1, es + [Message(third)], Add("a"));
    RunOn(1, 1, es + [Message(third)] + [Add("a")], Message(fourth));
    assert es + [Message(third)] + [Add("a")] + [Message(fourth)]
        == [Message(KEY), Message(second), Message(third), Add("a"), Message(fourth)];
    FullGroup(Run(1, 1, es), second, third);
    LateSubscriber(1, 1, Run(1, 1, es), "a", fourth);
    OneAudioHeader(second);
    JoinedOne([KEY, second]);
  }

  lemma FullGroup(s: Session, second: Msg, third: Msg)
    requires s == Session(Cache(None, None, [[KEY, second]]), true, map[])
    requires third.Video? && third.video == InterFrame
    ensures Step(s, 1, 1, Message(third)) == s
  {}
}
