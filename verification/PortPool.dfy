/** The search for a free port of gb28181/avail_conn_pool.go, over a cyclic range of 16-bit port numbers. */
module PortPool {
  import opened Wrappers

  type Port = p: nat | p < 0x1_0000

  /** The port behind p; from the last one back to the first, in 16-bit arithmetic. */
  function Next(min: Port, max: Port, p: Port): Port {
    if p == max then min else (p + 1) % 0x1_0000
  }

  /** How many ports the range has; it may wrap around the end of the port numbers. */
  function Size(min: Port, max: Port): (n: nat)
    ensures 0 < n <= 0x1_0000
  {
    if min <= max then max - min + 1 else 0x1_0000 - min + max + 1
  }

  /** The distance from the first port. */
  function Index(min: Port, p: Port): nat {
    if min <= p then p - min else 0x1_0000 - min + p
  }

  predicate InRange(min: Port, max: Port, p: Port) {
    Index(min, p) < Size(min, max)
  }

  /** k steps from p. */
  function Walk(min: Port, max: Port, p: Port, k: nat): Port {
    if k == 0 then p else Next(min, max, Walk(min, max, p, k - 1))
  }

  /** A walk goes up through the range and starts again at its beginning. */
  lemma {:induction false} WalkIndex(min: Port, max: Port, p: Port, k: nat)
    requires InRange(min, max, p) && k <= Size(min, max)
    ensures var n, i := Size(min, max), Index(min, p) + k;
      Index(min, Walk(min, max, p, k)) == if i < n then i else i - n
    decreases k
  {
    hide Next, Index, Size, InRange;
    SizeIs(min, max, p);
    if k > 0 {
      WalkIndex(min, max, p, k - 1);
      NextIndex(min, max, Walk(min, max, p, k - 1));
    }
  }

  lemma SizeIs(min: Port, max: Port, p: Port)
    ensures InRange(min, max, p) <==> Index(min, p) < Size(min, max)
  {}

  lemma NextIndex(min: Port, max: Port, p: Port)
    requires Index(min, p) < Size(min, max)
    ensures Index(min, Next(min, max, p)) == if Index(min, p) + 1 < Size(min, max) then Index(min, p) + 1 else 0
  {}

  lemma IndexInjective(min: Port, p: Port, q: Port)
    requires Index(min, p) == Index(min, q)
    ensures p == q
  {}

  /** The range in plain numbers: from min to max, or around the end of the port numbers; and the port behind one. */
  lemma RangeIs(min: Port, max: Port, p: Port)
    ensures InRange(min, max, p) <==> if min <= max then min <= p <= max else p >= min || p <= max
    ensures Walk(min, max, p, 1) == if p == max then min else if p == 65535 then 0 else p + 1
  {
    assert Walk(min, max, p, 0) == p;
  }

  /** A full round visits every port of the range once and ends where it began. */
  lemma FullRound(min: Port, max: Port, p: Port)
    requires InRange(min, max, p)
    ensures Walk(min, max, p, Size(min, max)) == p
    ensures forall k :: 0 <= k < Size(min, max) ==> InRange(min, max, Walk(min, max, p, k))
    ensures forall i, k :: 0 <= i < k < Size(min, max) ==> Walk(min, max, p, i) != Walk(min, max, p, k)
  {
    hide Walk;
    var n := Size(min, max);
    WalkIndex(min, max, p, n);
    IndexInjective(min, Walk(min, max, p, n), p);
    forall k | 0 <= k < n ensures InRange(min, max, Walk(min, max, p, k)) {
      WalkIndex(min, max, p, k);
    }
    forall i, k | 0 <= i < k < n ensures Walk(min, max, p, i) != Walk(min, max, p, k) {
      WalkIndex(min, max, p, i);
      WalkIndex(min, max, p, k);
    }
  }

  /** Every port of the range is reached within a round. */
  lemma Reaches(min: Port, max: Port, p: Port, q: Port) returns (k: nat)
    requires InRange(min, max, p) && InRange(min, max, q)
    ensures k < Size(min, max) && Walk(min, max, p, k) == q
  {
    hide Walk;
    var d := Index(min, q) - Index(min, p);
    k := if d >= 0 then d else d + Size(min, max);
    WalkIndex(min, max, p, k);
    IndexInjective(min, Walk(min, max, p, k), q);
  }

  datatype Found = Bound(port: Port) | NoPort

  /** The first port, going round from `from`, that can be bound, if there is one; and the ports tried on the way. */
  ghost predicate Search(min: Port, max: Port, from: Port, bind: Port -> bool, r: Found, tried: seq<Port>) {
    var n := Size(min, max);
    && |tried| <= n && (forall i :: 0 <= i < |tried| ==> tried[i] == Walk(min, max, from, i))
    && match r
       case Bound(p) =>
         && tried != [] && p == tried[|tried| - 1] && bind(p)
         && forall i :: 0 <= i < |tried| - 1 ==> !bind(tried[i])
       case NoPort => |tried| == n && forall i :: 0 <= i < n ==> !bind(tried[i])
  }

  class AvailConnPool {
    const minPort: Port
    const maxPort: Port
    var lastPort: Port
    /** The callback that binds a port, as it answers during one call; none may be set. */
    var onListenWithPort: Option<Port -> bool>

    constructor (minPort: Port, maxPort: Port)
      ensures Valid() && this.minPort == minPort && this.maxPort == maxPort
      ensures lastPort == minPort && onListenWithPort == None
    {
      this.minPort, this.maxPort, lastPort := minPort, maxPort, minPort;
      onListenWithPort := None;
    }

    ghost predicate Valid()
      reads this
    {
      InRange(minPort, maxPort, lastPort)
    }

    method WithListenWithPort(listenWithPort: Port -> bool)
      requires Valid()
      modifies this`onListenWithPort
      ensures Valid() && onListenWithPort == Some(listenWithPort)
    {
      onListenWithPort := Some(listenWithPort);
    }

    method Acquire() returns (r: Found, ghost tried: seq<Port>)
      requires Valid()
      modifies this`lastPort
      ensures Valid()
      ensures onListenWithPort == None ==> r == NoPort && tried == [] && lastPort == old(lastPort)
      ensures onListenWithPort.Some? ==>
        && Search(minPort, maxPort, old(lastPort), onListenWithPort.value, r, tried)
        && lastPort == if r.Bound? then Next(minPort, maxPort, r.port) else old(lastPort)
    {
      hide Walk;
      var loopFirstFlag := true;
      var p := lastPort;
      tried := [];
      ghost var n := Size(minPort, maxPort);
      FullRound(minPort, maxPort, lastPort);
      WalkStart(minPort, maxPort, p);
      while true
        invariant lastPort == old(lastPort) && loopFirstFlag == (tried == []) && |tried| <= n
        invariant p == Walk(minPort, maxPort, lastPort, |tried|)
        invariant forall i :: 0 <= i < |tried| ==> tried[i] == Walk(minPort, maxPort, lastPort, i)
        invariant onListenWithPort == None ==> tried == []
        invariant onListenWithPort.Some? ==> forall i :: 0 <= i < |tried| ==> !onListenWithPort.value(tried[i])
        decreases n - |tried|
      {
        if !loopFirstFlag && p == lastPort {
          return NoPort, tried;
        }
        loopFirstFlag := false;
        if onListenWithPort == None {
          return NoPort, tried;
        }
        var bound := onListenWithPort.value(p);
        WalkOn(minPort, maxPort, lastPort, |tried|);
        tried := tried + [p];
        if !bound {
          p := Next(minPort, maxPort, p);
          continue;
        }
        lastPort := Next(minPort, maxPort, p);
        return Bound(p), tried;
      }
    }
  }

  lemma WalkStart(min: Port, max: Port, p: Port)
    ensures Walk(min, max, p, 0) == p
  {}

  lemma WalkOn(min: Port, max: Port, p: Port, k: nat)
    ensures Walk(min, max, p, k + 1) == Next(min, max, Walk(min, max, p, k))
  {}

  /** The search fails exactly when no port of the range can be bound, and no port is tried twice. */
  lemma SearchComplete(min: Port, max: Port, from: Port, bind: Port -> bool, r: Found, tried: seq<Port>)
    requires InRange(min, max, from) && Search(min, max, from, bind, r, tried)
    ensures r == NoPort <==> forall q: Port :: InRange(min, max, q) ==> !bind(q)
    ensures r.Bound? ==> InRange(min, max, r.port) && bind(r.port)
    ensures forall i, k :: 0 <= i < k < |tried| ==> tried[i] != tried[k]
  {
    hide Walk;
    FullRound(min, max, from);
    if r == NoPort {
      forall q: Port | InRange(min, max, q) ensures !bind(q) {
        var k := Reaches(min, max, from, q);
        assert tried[k] == q;
      }
    }
  }

  /** When every port can be bound, a search takes the one it starts from. */
  lemma FreePort(min: Port, max: Port, from: Port, bind: Port -> bool, r: Found, tried: seq<Port>)
    requires InRange(min, max, from) && Search(min, max, from, bind, r, tried)
    requires forall q: Port :: InRange(min, max, q) ==> bind(q)
    ensures r == Bound(from) && tried == [from]
  {
    SearchComplete(min, max, from, bind, r, tried);
    WalkStart(min, max, from);
    assert tried[0] == from && bind(from);
  }

  /** Calls of Acquire one after the other while every port can be bound: they give the ports of the range in turn,
      none twice within a round, and a round gives them all. */
  method RoundRobin(pool: AvailConnPool, count: nat) returns (ports: seq<Port>)
    requires pool.Valid() && pool.onListenWithPort.Some?
    requires forall q: Port :: InRange(pool.minPort, pool.maxPort, q) ==> pool.onListenWithPort.value(q)
    modifies pool`lastPort
    ensures pool.Valid() && pool.lastPort == Walk(pool.minPort, pool.maxPort, old(pool.lastPort), count)
    ensures |ports| == count
    ensures forall i :: 0 <= i < count ==> ports[i] == Walk(pool.minPort, pool.maxPort, old(pool.lastPort), i)
    ensures forall i, k :: 0 <= i < k < count && k - i < Size(pool.minPort, pool.maxPort) ==> ports[i] != ports[k]
    ensures count >= Size(pool.minPort, pool.maxPort) ==>
      forall q: Port :: InRange(pool.minPort, pool.maxPort, q) ==> q in ports
  {
    hide Walk;
    ghost var min, max, from := pool.minPort, pool.maxPort, pool.lastPort;
    WalkStart(min, max, from);
    ports := [];
    for n := 0 to count
      invariant pool.Valid() && |ports| == n && pool.lastPort == Walk(min, max, from, n)
      invariant forall i :: 0 <= i < n ==> ports[i] == Walk(min, max, from, i)
    {
      ghost var at := pool.lastPort;
      var r, tried := pool.Acquire();
      FreePort(min, max, at, pool.onListenWithPort.value, r, tried);
      WalkOn(min, max, from, n);
      ports := ports + [r.port];
    }
    forall i, k | 0 <= i < k < count && k - i < Size(min, max)
      ensures ports[i] != ports[k]
    {
      WalkApart(min, max, from, i, k);
    }
    if count >= Size(min, max) {
      forall q: Port | InRange(min, max, q)
        ensures q in ports
      {
        var k := Reaches(min, max, from, q);
        assert ports[k] == q;
      }
    }
  }

  lemma {:induction false} WalkSplit(min: Port, max: Port, p: Port, i: nat, k: nat)
    ensures Walk(min, max, p, i + k) == Walk(min, max, Walk(min, max, p, i), k)
    decreases k
  {
    if k > 0 {
      WalkSplit(min, max, p, i, k - 1);
    }
  }

  lemma {:induction false} WalkInRange(min: Port, max: Port, p: Port, k: nat)
    requires InRange(min, max, p)
    ensures InRange(min, max, Walk(min, max, p, k))
    decreases k
  {
    if k > 0 {
      WalkInRange(min, max, p, k - 1);
    }
  }

  /** Two places of a walk that are less than a round apart differ. */
  lemma WalkApart(min: Port, max: Port, p: Port, i: nat, k: nat)
    requires InRange(min, max, p) && i < k && k - i < Size(min, max)
    ensures Walk(min, max, p, i) != Walk(min, max, p, k)
  {
    hide Walk;
    var q := Walk(min, max, p, i);
    WalkInRange(min, max, p, i);
    WalkSplit(min, max, p, i, k - i);
    WalkIndex(min, max, q, k - i);
  }
}
