/** The hook session of hook/hooksession.go: it fans a stream out to its subscribers. What a subscriber's OnMsg is
    called with is recorded in `received`.
 */
module HookSession {
  import opened GopCache
  import opened HookSpec

  class ConsumerInfo {
    const sessionId: string
    var hasSendVideo: bool
    var received: seq<Msg>

    constructor (consumerId: string)
      ensures sessionId == consumerId && Val() == Consumer(false, [])
    {
      sessionId := consumerId;
      hasSendVideo, received := false, [];
    }

    ghost function Val(): Consumer
      reads this
    {
      Consumer(hasSendVideo, received)
    }

    method OnMsg(msg: Msg)
      modifies this`received
      ensures received == old(received) + [msg]
    {
      received := received + [msg];
    }
  }

  class HookSession {
    const gopCache: GopCache
    var consumers: map<string, ConsumerInfo>
    var hasVideo: bool

    /** Every subscriber is filed under its own id, so no two ids share one. */
    ghost predicate Valid()
      reads this`consumers, gopCache
    {
      gopCache.Valid() && forall k :: k in consumers ==> consumers[k].sessionId == k
    }

    ghost function Consumers(): map<string, Consumer>
      reads this`consumers, consumers.Values
    {
      map k | k in consumers :: consumers[k].Val()
    }

    ghost function St(): Session
      requires Valid()
      reads this, gopCache, gopCache.data, consumers.Values
    {
      Session(gopCache.Val(), hasVideo, Consumers())
    }

    constructor (gopNum: int, singleGopMaxFrameNum: int)
      ensures Valid() && fresh(gopCache) && fresh(gopCache.data) && St() == EMPTY
      ensures gopCache.Cap() == (if gopNum < 0 then 0 else gopNum)
      ensures gopCache.singleGopMaxFrameNum == singleGopMaxFrameNum
    {
      gopCache := new GopCache(gopNum, singleGopMaxFrameNum);
      consumers, hasVideo := map[], false;
    }

    method SendHeaders(c: ConsumerInfo)
      requires gopCache.Valid()
      modifies c`received
      ensures c.received == old(c.received) + Headers(gopCache.Val())
    {
      if gopCache.videoheader.Some? {
        c.OnMsg(gopCache.videoheader.value);
      }
      if gopCache.audioheader.Some? {
        c.OnMsg(gopCache.audioheader.value);
      }
    }

    /** Sends all cached groups, message by message. */
    method SendGops(c: ConsumerInfo, gopCount: int)
      requires gopCache.Valid() && gopCount == |gopCache.Held()|
      modifies c`received
      ensures c.received == old(c.received) + Joined(gopCache.Held())
    {
      hide Joined, Window;
      ghost var gs, from := gopCache.Held(), c.received;
      NoGroups<Msg>();
      for i := 0 to gopCount
        invariant c.received == from + Joined(gs[..i])
      {
        var gop := gopCache.GetGopDataAt(i);
        SendGop(c, gop);
        assert gs[..i + 1] == gs[..i] + [gop];
        JoinedLast(gs[..i], gop);
        assert from + Joined(gs[..i]) + gop == from + (Joined(gs[..i]) + gop);
      }
      assert gs[..|gs|] == gs;
    }

    method SendGop(c: ConsumerInfo, gop: seq<Msg>)
      modifies c`received
      ensures c.received == old(c.received) + gop
    {
      ghost var from := c.received;
      for n := 0 to |gop|
        invariant c.received == from + gop[..n]
      {
        c.OnMsg(gop[n]);
        assert gop[..n + 1] == gop[..n] + [gop[n]];
      }
      assert gop[..|gop|] == gop;
    }

    /** The callback of Range in OnMsg: one subscriber. */
    method ServeConsumer(c: ConsumerInfo, msg: Msg)
      requires gopCache.Valid()
      modifies c
      ensures c.Val() == Serve(gopCache.Val(), hasVideo, old(c.Val()), msg)
    {
      hide IsKey, Joined, Headers;
      var gopCount := gopCache.GetGopCount();
      if !c.hasSendVideo && gopCount > 0 {
        SendHeaders(c);
        SendGops(c, gopCount);
        c.hasSendVideo := true;
      }
      if msg.Video? {
        if !c.hasSendVideo {
          if !IsKey(msg) {
            return;
          }
          SendHeaders(c);
          c.hasSendVideo := true;
        }
        c.OnMsg(msg);
      } else if msg.Audio? {
        if !hasVideo || c.hasSendVideo {
          c.OnMsg(msg);
        }
      }
    }

    method OnMsg(msg: Msg)
      requires Valid()
      modifies this`hasVideo, gopCache, gopCache.data, consumers.Values
      ensures Valid() && consumers == old(consumers)
      ensures St() == Step(old(St()), gopCache.Cap(), gopCache.singleGopMaxFrameNum, Message(msg))
    {
      hide Serve, FeedCache, IsKey, Partly, Consumers;
      ghost var before := St();
      Broadcast(msg);
      Done(before, msg, gopCache.Cap(), gopCache.singleGopMaxFrameNum);
      if !hasVideo && IsKey(msg) {
        hasVideo := true;
      }
      gopCache.Feed(msg);
    }

    /** Range visits the subscribers in no particular order. */
    method Broadcast(msg: Msg)
      requires Valid()
      modifies consumers.Values
      ensures Valid() && Consumers() == Partly(old(St()), msg, {})
    {
      hide Partly, Consumers, Serve;
      ghost var before := St();
      var todo := consumers.Keys;
      SameKeys();
      NotYet(before, msg);
      while todo != {}
        invariant todo <= consumers.Keys
        invariant Consumers() == Partly(before, msg, todo)
        decreases |todo|
      {
        var key :| key in todo;
        OneMore(before, msg, todo, key);
        ServeOne(key, msg);
        todo := todo - {key};
      }
    }

    lemma SameKeys()
      ensures Consumers().Keys == consumers.Keys
    {}

    method ServeOne(key: string, msg: Msg)
      requires Valid() && key in consumers
      modifies consumers[key]
      ensures Valid()
      ensures Consumers() == old(Consumers())[key := Serve(gopCache.Val(), hasVideo, old(Consumers())[key], msg)]
    {
      hide Serve;
      ghost var before := Consumers();
      ServeConsumer(consumers[key], msg);
      assert Consumers() == before[key := consumers[key].Val()];
    }

    /** An id that is in use already gets a new subscriber. */
    method AddConsumer(consumerId: string)
      requires Valid()
      modifies this`consumers
      ensures Valid() && fresh(consumers.Values - old(consumers.Values))
      ensures St() == Step(old(St()), gopCache.Cap(), gopCache.singleGopMaxFrameNum, Add(consumerId))
    {
      ghost var before := Consumers();
      var info := new ConsumerInfo(consumerId);
      consumers := consumers[consumerId := info];
      assert Consumers() == before[consumerId := Consumer(false, [])];
    }

    method RemoveConsumer(consumerId: string)
      requires Valid()
      modifies this`consumers
      ensures Valid() && consumers.Values <= old(consumers.Values)
      ensures St() == Step(old(St()), gopCache.Cap(), gopCache.singleGopMaxFrameNum, Remove(consumerId))
    {
      ghost var before := Consumers();
      if consumerId in consumers {
        consumers := consumers - {consumerId};
      }
      assert Consumers() == before - {consumerId};
    }
  }

  /** The subscribers while those of `todo` have not been served yet. */
  ghost function Partly(s: Session, m: Msg, todo: set<string>): map<string, Consumer> {
    map k | k in s.consumers ::
      if k in todo then s.consumers[k] else Serve(s.cache, s.hasVideo, s.consumers[k], m)
  }

  lemma NotYet(s: Session, m: Msg)
    ensures Partly(s, m, s.consumers.Keys) == s.consumers
  {
    hide Serve;
  }

  lemma OneMore(s: Session, m: Msg, todo: set<string>, key: string)
    requires key in todo && todo <= s.consumers.Keys
    ensures var now := Partly(s, m, todo);
      && key in now && now[key] == s.consumers[key]
      && Partly(s, m, todo - {key}) == now[key := Serve(s.cache, s.hasVideo, now[key], m)]
  {
    hide Serve;
  }

  lemma Done(s: Session, m: Msg, cap: nat, limit: int)
    requires |s.cache.groups| <= cap
    ensures Partly(s, m, {}) == Step(s, cap, limit, Message(m)).consumers
  {
    hide Serve, FeedCache;
  }
}
