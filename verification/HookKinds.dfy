/** What is cached and what a subscriber receives, said by the kinds of the messages alone
    (hook/gop_cache.go, hook/hooksession.go).
 */
module HookKinds {
  import opened Wrappers
  import opened GopCache
  import opened HookSpec

  // ----- kinds -----

  ghost predicate KeyAt(ms: seq<Msg>, q: nat) {
    q < |ms| && ms[q].Video? && ms[q].video == KeyFrame
  }

  /** A message that can be sent ahead as audio header: an AAC sequence header, or one of a codec that has none. */
  ghost predicate AudioHeadAt(ms: seq<Msg>, q: nat) {
    q < |ms| && ms[q].Audio? && (ms[q].audio == AacHeader || ms[q].audio == SelfDescribing)
  }

  ghost predicate VideoHeadAt(ms: seq<Msg>, q: nat) {
    q < |ms| && ms[q].Video? && ms[q].video == SequenceHeader
  }

  ghost predicate LastAudioHeadAt(ms: seq<Msg>, q: nat) {
    AudioHeadAt(ms, q) && forall k: nat :: q < k < |ms| ==> !AudioHeadAt(ms, k)
  }

  ghost predicate LastVideoHeadAt(ms: seq<Msg>, q: nat) {
    VideoHeadAt(ms, q) && forall k: nat :: q < k < |ms| ==> !VideoHeadAt(ms, k)
  }

  /** Neither metadata nor a sequence header. */
  ghost predicate KeptKindAt(ms: seq<Msg>, q: nat) {
    && q < |ms| && !ms[q].Metadata?
    && !(ms[q].Audio? && ms[q].audio == AacHeader) && !(ms[q].Video? && ms[q].video == SequenceHeader)
  }

  /** How many key frames there are from s on. */
  function KeysFrom(ms: seq<Msg>, s: nat): nat
    decreases |ms|
  {
    if |ms| <= s then 0
    else
      var n := |ms| - 1;
      KeysFrom(ms[..n], s) + if ms[n].Video? && ms[n].video == KeyFrame then 1 else 0
  }

  // ----- headers -----

  lemma {:induction false} AudioHeadFound(ms: seq<Msg>, q: nat)
    ensures AudioHeaderAt(ms) == [q] <==> LastAudioHeadAt(ms, q)
    ensures AudioHeaderAt(ms) == [] ==> !AudioHeadAt(ms, q)
    ensures |AudioHeaderAt(ms)| <= 1
    decreases |ms|
  {
    if ms != [] {
      var rest := ms[..|ms| - 1];
      AudioHeadFound(rest, q);
      if !IsAudioHeader(ms[|ms| - 1]) {
        assert forall k: nat :: AudioHeadAt(ms, k) <==> AudioHeadAt(rest, k);
      } else {
        assert AudioHeadAt(ms, |ms| - 1);
      }
    }
  }

  lemma {:induction false} VideoHeadFound(ms: seq<Msg>, q: nat)
    ensures VideoHeaderAt(ms) == [q] <==> LastVideoHeadAt(ms, q)
    ensures VideoHeaderAt(ms) == [] ==> !VideoHeadAt(ms, q)
    ensures |VideoHeaderAt(ms)| <= 1
    decreases |ms|
  {
    if ms != [] {
      var rest := ms[..|ms| - 1];
      VideoHeadFound(rest, q);
      if !IsVideoHeader(ms[|ms| - 1]) {
        assert forall k: nat :: VideoHeadAt(ms, k) <==> VideoHeadAt(rest, k);
      } else {
        assert VideoHeadAt(ms, |ms| - 1);
      }
    }
  }

  /** The cached headers over every run: the last AAC header or self-describing message, and the last video sequence
      header; nothing if there has been none. */
  lemma HeadersByKind(cap: nat, limit: int, es: seq<Event>, h: Msg)
    ensures var c, ms := Run(cap, limit, es).cache, History(es);
      && (c.audio == Some(h) <==> exists q: nat :: LastAudioHeadAt(ms, q) && ms[q] == h)
      && (c.video == Some(h) <==> exists q: nat :: LastVideoHeadAt(ms, q) && ms[q] == h)
  {
    hide Run, History, AudioHeaderAt, VideoHeaderAt, LastAudioHeadAt, LastVideoHeadAt, Pick, Below, IsAudioHeader,
      IsVideoHeader, LastAudioHeader, LastVideoHeader, Groups, LastN, CutAll;
    var ms := History(es);
    SessionIsHistory(cap, limit, es);
    AudioHeaderPicked(ms);
    VideoHeaderPicked(ms);
    AudioHeadOf(ms, h);
    VideoHeadOf(ms, h);
  }

  lemma AudioHeadOf(ms: seq<Msg>, h: Msg)
    ensures LastAudioHeader(ms) == Some(h) <==> exists q: nat :: LastAudioHeadAt(ms, q) && ms[q] == h
  {
    hide AudioHeaderAt, LastAudioHeader, IsAudioHeader, AudioHeadAt;
    AudioHeaderPicked(ms);
    var ps := AudioHeaderAt(ms);
    if ps != [] {
      AudioHeadFound(ms, ps[0]);
      assert ps == [ps[0]];
    }
    forall q: nat | LastAudioHeadAt(ms, q)
      ensures ps == [q]
    {
      AudioHeadFound(ms, q);
    }
  }

  lemma VideoHeadOf(ms: seq<Msg>, h: Msg)
    ensures LastVideoHeader(ms) == Some(h) <==> exists q: nat :: LastVideoHeadAt(ms, q) && ms[q] == h
  {
    hide VideoHeaderAt, LastVideoHeader, IsVideoHeader, VideoHeadAt;
    VideoHeaderPicked(ms);
    var ps := VideoHeaderAt(ms);
    if ps != [] {
      VideoHeadFound(ms, ps[0]);
      assert ps == [ps[0]];
    }
    forall q: nat | LastVideoHeadAt(ms, q)
      ensures ps == [q]
    {
      VideoHeadFound(ms, q);
    }
  }

  /** No other message is ever sent ahead as a header, in particular no audio of a codec that has one. */
  lemma PreambleByKind(ms: seq<Msg>, cap: nat, limit: int)
    ensures forall m :: m in Headers(CacheOf(ms, cap, limit)) ==>
      exists q: nat :: (LastVideoHeadAt(ms, q) || LastAudioHeadAt(ms, q)) && ms[q] == m
  {
    hide LastAudioHeadAt, LastVideoHeadAt, LastAudioHeader, LastVideoHeader, Groups, LastN, CutAll;
    var c := CacheOf(ms, cap, limit);
    if c.video.Some? {
      VideoHeadOf(ms, c.video.value);
    }
    if c.audio.Some? {
      AudioHeadOf(ms, c.audio.value);
    }
  }

  // ----- key frames -----

  lemma {:induction false} StartsAre(ms: seq<Msg>)
    ensures Rising(Starts(ms), 0, |ms|)
    ensures forall q: nat :: q in Starts(ms) <==> KeyAt(ms, q)
    decreases |ms|
  {
    if ms != [] {
      var n, rest := |ms| - 1, ms[..|ms| - 1];
      StartsAre(rest);
      assert forall q: nat :: q < n ==> (KeyAt(ms, q) <==> KeyAt(rest, q));
      assert Starts(ms) == Starts(rest) + if IsKey(ms[n]) then [n] else [];
    }
  }

  lemma {:induction false} KeysCounted(ms: seq<Msg>, i: nat)
    requires i < |Starts(ms)|
    ensures KeysFrom(ms, Starts(ms)[i]) == |Starts(ms)| - i
    decreases |ms|
  {
    var n, rest := |ms| - 1, ms[..|ms| - 1];
    if i < |Starts(rest)| {
      KeysCounted(rest, i);
    } else {
      NoKeysFrom(rest, n);
    }
  }

  lemma NoKeysFrom(ms: seq<Msg>, s: nat)
    requires |ms| <= s
    ensures KeysFrom(ms, s) == 0
  {}

  lemma NoStart(ms: seq<Msg>)
    ensures Starts(ms) == [] <==> forall q: nat :: !KeyAt(ms, q)
    ensures HasKey(ms) <==> exists q: nat :: KeyAt(ms, q)
  {
    hide Starts;
    StartsAre(ms);
    StartsIfKey(ms);
    if Starts(ms) != [] {
      assert Starts(ms)[0] in Starts(ms);
    }
  }

  // ----- what is kept -----

  /** Without a limit on the groups: what the cached groups hold is everything but metadata and sequence headers, from
      the oldest key frame on behind which, itself included, no more than cap key frames have come. */
  lemma KeptByKind(ms: seq<Msg>, cap: nat, p: nat)
    ensures p in KeptAt(cap, 0, ms)
       <==> KeptKindAt(ms, p) && exists s: nat :: s <= p && KeyAt(ms, s) && KeysFrom(ms, s) <= cap
  {
    hide KeptAt, Starts, KeysFrom, KeyAt;
    KeptFound(ms, cap, p);
    StartsAre(ms);
    var ss := Starts(ms);
    var i := if |ss| <= cap then 0 else |ss| - cap;
    if i < |ss| {
      KeysCounted(ms, i);
      assert ss[i] in ss;
      assert FirstKept(ms, cap) == ss[i];
    }
    forall s: nat | KeyAt(ms, s) && KeysFrom(ms, s) <= cap
      ensures i < |ss| && ss[i] <= s
    {
      var k :| 0 <= k < |ss| && ss[k] == s;
      KeysCounted(ms, k);
    }
  }

  // ----- what a subscriber receives -----

  /** The message j starts a subscriber: it is a key frame, or with room for a group there has been one. */
  ghost predicate StartsAt(cap: nat, ms: seq<Msg>, j: nat) {
    j < |ms| && (KeyAt(ms, j) || (cap > 0 && exists q: nat :: q < j && KeyAt(ms, q)))
  }

  lemma StartByKind(cap: nat, ms: seq<Msg>, a: nat)
    requires a <= |ms|
    ensures var j := StartAt(cap, ms, a);
      && a <= j <= |ms| && (j < |ms| ==> StartsAt(cap, ms, j))
      && forall i: nat :: a <= i < j ==> !StartsAt(cap, ms, i)
  {
    hide StartAt, HasKey;
    forall i: nat | i < |ms|
      ensures CanStart(cap, ms, i) <==> StartsAt(cap, ms, i)
    {
      NoStart(ms[..i]);
      assert forall q: nat :: q < i ==> (KeyAt(ms[..i], q) <==> KeyAt(ms, q));
    }
  }

  /** When a subscriber has been sent video, over every interleaving: with room for a group, once it has seen a message
      and there has been a key frame; without, once it has seen a key frame. */
  lemma SentByKind(cap: nat, limit: int, before: seq<Event>, id: string, after: seq<Event>)
    requires Untouched(id, after)
    ensures var es := before + [Add(id)] + after;
      var ms, a := History(es), |History(before)|;
      id in Run(cap, limit, es).consumers
      && (Run(cap, limit, es).consumers[id].sent <==>
          if cap > 0 then |ms| > a && exists q: nat :: KeyAt(ms, q) else exists q: nat :: q >= a && KeyAt(ms, q))
  {
    hide Run, History, HasKey;
    var ms, a := History(before + [Add(id)] + after), |History(before)|;
    SentWhen(cap, limit, before, id, after);
    NoStart(ms);
    assert forall q: nat :: q < |ms| ==> (KeyAt(ms, q) <==> IsKey(ms[q]));
    if q: nat :| q >= a && KeyAt(ms, q) {
      assert IsKey(ms[q]);
    }
  }

  lemma {:induction false} LiveFound(ms: seq<Msg>, from: nat, p: nat)
    ensures p in LiveAt(ms, from) <==> from <= p < |ms| && (ms[p].Audio? || ms[p].Video?)
    decreases |ms|
  {
    if |ms| > from {
      LiveFound(ms[..|ms| - 1], from, p);
    }
  }

  lemma WaitingByKind(ms: seq<Msg>, a: nat, p: nat)
    ensures p in WaitingAt(ms, a)
       <==> a <= p < |ms| && ms[p].Audio? && forall q: nat :: q < p ==> !KeyAt(ms, q)
  {
    hide WaitingAt, Starts;
    WaitingFound(ms, a, p);
    if p < |ms| {
      NoStart(ms[..p]);
      assert forall q: nat :: q < p ==> (KeyAt(ms[..p], q) <==> KeyAt(ms, q));
    }
  }

  /** Exactly which messages a subscriber has received that was added after a messages, by their kinds, whatever the
      interleaving: with j the message that started it, audio before any key frame while it waited; the last video
      sequence header and the last audio header from before j; what the cached groups held; and all audio and video from
      j on. */
  lemma ReceivedByKind(cap: nat, limit: int, ms: seq<Msg>, a: nat, p: nat)
    requires a <= |ms|
    ensures var j := StartAt(cap, ms, a);
      p in ReceivedAt(cap, limit, ms, a) <==> (
        || (a <= p < j && ms[p].Audio? && forall q: nat :: q < p ==> !KeyAt(ms, q))
        || (j < |ms| && (LastVideoHeadAt(ms[..j], p) || LastAudioHeadAt(ms[..j], p)))
        || (j < |ms| && p in KeptAt(cap, limit, ms[..j]))
        || (j <= p < |ms| && (ms[p].Audio? || ms[p].Video?))
      )
  {
    hide StartAt, WaitingAt, VideoHeaderAt, AudioHeaderAt, KeptAt, LiveAt, LastVideoHeadAt, LastAudioHeadAt;
    var j := StartAt(cap, ms, a);
    if j < |ms| {
      var x := ms[..j];
      WaitingByKind(x, a, p);
      assert forall q: nat :: q < j ==> (KeyAt(x, q) <==> KeyAt(ms, q));
      VideoHeadFound(x, p);
      AudioHeadFound(x, p);
      LiveFound(ms, j, p);
    } else {
      WaitingByKind(ms, a, p);
    }
  }
}
