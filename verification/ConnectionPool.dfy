/** One pool of connections: the idle list, the waiter queue, and a history that shows who was served when. */
module ConnectionPool {
  import opened Common
  import opened Ordering

  type Conn = nat
  type Req = nat

  /** `arrivals`, `served` and `expired` record every waiter ever enqueued, handed a connection, or timed out. */
  datatype Pool = Pool(idle: seq<Conn>, waiters: seq<Req>, arrivals: seq<Req>, served: seq<Req>, expired: set<Req>)

  function Acquired(p: Pool, r: Req): Pool {
    if p.idle != [] then p.(idle := p.idle[1..])
    else p.(waiters := p.waiters + [r], arrivals := p.arrivals + [r])
  }

  function Released(p: Pool, conn: Conn): Pool {
    if p.waiters != [] then p.(waiters := p.waiters[1..], served := p.served + [p.waiters[0]])
    else p.(idle := p.idle + [conn])
  }

  function TimedOut(p: Pool, r: Req): Pool {
    p.(waiters := Drop(p.waiters, r), expired := p.expired + {r})
  }

  function Surviving(p: Pool): seq<Req> {
    Filter((x: Req) => x !in p.expired, p.arrivals)
  }

  /** Waiters only while nothing is idle; the surviving arrivals are those served, in order, then those waiting. */
  ghost predicate PoolInv(p: Pool) {
    && (p.idle == [] || p.waiters == [])
    && Distinct(p.arrivals)
    && p.expired <= Elems(p.arrivals)
    && Surviving(p) == p.served + p.waiters
  }

  lemma AcquireKeepsInv(p: Pool, r: Req)
    requires PoolInv(p) && r !in p.arrivals
    ensures PoolInv(Acquired(p, r))
  {
    if p.idle == [] {
      FilterSnoc((x: Req) => x !in p.expired, p.arrivals, r);
      assert Elems(p.arrivals + [r]) == Elems(p.arrivals) + {r};
    }
  }

  lemma ReleaseKeepsInv(p: Pool, conn: Conn)
    requires PoolInv(p)
    ensures PoolInv(Released(p, conn))
  {
    if p.waiters != [] {
      assert p.waiters == [p.waiters[0]] + p.waiters[1..];
    }
  }

  lemma TimeOutKeepsInv(p: Pool, r: Req)
    requires PoolInv(p) && r in p.waiters
    ensures PoolInv(TimedOut(p, r))
  {
    WaiterStanding(p, r);
    var q := TimedOut(p, r);
    DropFiltered((x: Req) => x !in p.expired, (x: Req) => x !in q.expired, p.arrivals, r);
    DropConcat(p.served, p.waiters, r);
    DropAbsent(p.served, r);
  }

  /** Cut the arrivals at j: what survives of the two parts, one after the other. */
  lemma SurvivorsSplit(p: Pool, j: nat, x: Req)
    requires PoolInv(p) && j < |p.arrivals|
    ensures
      var keep := (y: Req) => y !in p.expired;
      && p.served + p.waiters == Filter(keep, p.arrivals[..j]) + Filter(keep, p.arrivals[j..])
      && (x in Filter(keep, p.arrivals[..j]) ==> x in p.arrivals[..j])
      && (x in Filter(keep, p.arrivals[j..]) ==> x in p.arrivals[j..])
  {
    var keep := (y: Req) => y !in p.expired;
    assert p.arrivals == p.arrivals[..j] + p.arrivals[j..];
    FilterConcat(keep, p.arrivals[..j], p.arrivals[j..]);
    FilterElems(keep, p.arrivals[..j], x);
    FilterElems(keep, p.arrivals[j..], x);
  }

  lemma ConcatAt<T>(a: seq<T>, b: seq<T>, k: nat)
    requires k < |a + b|
    ensures (a + b)[k] in if k < |a| then a else b
  {
  }

  /** Between two arrivals that both end up served, the earlier one was served first. */
  lemma ServedInArrivalOrder(p: Pool, i: nat, j: nat, k: nat, m: nat)
    requires PoolInv(p) && i < j < |p.arrivals| && k < |p.served| && m < |p.served|
    requires p.served[k] == p.arrivals[i] && p.served[m] == p.arrivals[j]
    ensures k < m
  {
    var keep := (x: Req) => x !in p.expired;
    var early, late := p.arrivals[..j], p.arrivals[j..];
    var x, y := p.arrivals[i], p.arrivals[j];
    SurvivorsSplit(p, j, x);
    SurvivorsSplit(p, j, y);
    assert (p.served + p.waiters)[k] == x && (p.served + p.waiters)[m] == y;
    assert early[i] == x && late[0] == y;
    assert x !in late && y !in early by {
      assert forall n :: 0 <= n < |late| ==> late[n] == p.arrivals[j + n];
      assert forall n :: 0 <= n < |early| ==> early[n] == p.arrivals[n];
    }
    ConcatAt(Filter(keep, early), Filter(keep, late), k);
    ConcatAt(Filter(keep, early), Filter(keep, late), m);
  }

  /** The timed-out waiter is never handed a connection. */
  lemma ExpiredNeverServed(p: Pool, r: Req)
    requires PoolInv(p) && r in p.expired
    ensures r !in p.served && r !in p.waiters
  {
    FilterElems((x: Req) => x !in p.expired, p.arrivals, r);
    assert r in p.served + p.waiters <==> r in p.served || r in p.waiters;
  }

  class PoolService {
    var idle: seq<Conn>
    var waiters: seq<Req>
    ghost var arrivals: seq<Req>
    ghost var served: seq<Req>
    ghost var expired: set<Req>

    ghost function View(): Pool
      reads this
    {
      Pool(idle, waiters, arrivals, served, expired)
    }

    constructor (conns: seq<Conn>)
      ensures View() == Pool(conns, [], [], [], {}) && PoolInv(View())
    {
      idle, waiters, arrivals, served, expired := conns, [], [], [], {};
    }

    /** acquireWithTimeout: take the first idle connection, or join the queue. */
    method Acquire(r: Req) returns (conn: Option<Conn>)
      requires PoolInv(View()) && r !in arrivals
      modifies this
      ensures View() == Acquired(old(View()), r) && PoolInv(View())
      ensures old(idle) != [] ==> idle == old(idle)[1..] && waiters == old(waiters)
      ensures old(idle) == [] ==> idle == [] && waiters == old(waiters) + [r]
      ensures conn == if old(idle) != [] then Some(old(idle)[0]) else None
    {
      AcquireKeepsInv(View(), r);
      if idle != [] {
        conn := Some(idle[0]);
        idle := idle[1..];
      } else {
        conn := None;
        waiters := waiters + [r];
        arrivals := arrivals + [r];
      }
    }

    /** releaseRoot / releaseScoped: hand the connection to the first waiter, or make it idle. */
    method Release(conn: Conn) returns (handedTo: Option<Req>)
      requires PoolInv(View())
      modifies this
      ensures View() == Released(old(View()), conn) && PoolInv(View())
      ensures old(waiters) != [] ==> waiters == old(waiters)[1..] && idle == old(idle)
      ensures old(waiters) == [] ==> waiters == [] && idle == old(idle) + [conn]
      ensures handedTo == if old(waiters) != [] then Some(old(waiters)[0]) else None
    {
      ReleaseKeepsInv(View(), conn);
      if waiters != [] {
        handedTo := Some(waiters[0]);
        served := served + [waiters[0]];
        waiters := waiters[1..];
      } else {
        handedTo := None;
        idle := idle + [conn];
      }
    }

    /** The timer of a waiter fires: find it in the queue and splice it out. */
    method TimeOut(r: Req)
      requires PoolInv(View()) && r in waiters
      modifies this
      ensures View() == TimedOut(old(View()), r) && PoolInv(View())
      ensures idle == old(idle) && |waiters| == |old(waiters)| - 1
      ensures r !in waiters && forall x :: x in old(waiters) && x != r ==> x in waiters
    {
      TimeOutKeepsInv(View(), r);
      ghost var before := waiters;
      var i := 0;
      while waiters[i] != r
        invariant 0 <= i < |waiters| && r !in waiters[..i] && r in waiters && waiters == before
        decreases |waiters| - i
      {
        assert waiters[..i+1] == waiters[..i] + [waiters[i]];
        assert waiters[..|waiters|] == waiters;
        i := i + 1;
      }
      WaitersDistinct(View());
      SpliceDrops(waiters, i);
      waiters := waiters[..i] + waiters[i+1..];
      expired := expired + {r};
    }
  }

  lemma SpliceDrops(s: seq<Req>, i: nat)
    requires Distinct(s) && i < |s|
    ensures Drop(s, s[i]) == s[..i] + s[i+1..]
  {
    assert s == s[..i] + [s[i]] + s[i+1..];
    DropMiddle(s[..i], s[i], s[i+1..]);
  }

  lemma WaitersDistinct(p: Pool)
    requires PoolInv(p)
    ensures Distinct(p.waiters)
    ensures forall i, j :: 0 <= i < |p.served| && 0 <= j < |p.waiters| ==> p.served[i] != p.waiters[j]
  {
    FilterDistinct((x: Req) => x !in p.expired, p.arrivals);
    forall i, j | 0 <= i < j < |p.waiters| ensures p.waiters[i] != p.waiters[j] {
      assert Surviving(p)[|p.served| + i] == p.waiters[i] && Surviving(p)[|p.served| + j] == p.waiters[j];
    }
    forall i, j | 0 <= i < |p.served| && 0 <= j < |p.waiters| ensures p.served[i] != p.waiters[j] {
      assert Surviving(p)[i] == p.served[i] && Surviving(p)[|p.served| + j] == p.waiters[j];
    }
  }

  lemma WaiterStanding(p: Pool, r: Req)
    requires PoolInv(p) && r in p.waiters
    ensures r in p.arrivals && r !in p.served && r !in p.expired
  {
    WaitersDistinct(p);
    assert r in p.served + p.waiters;
    FilterElems((x: Req) => x !in p.expired, p.arrivals, r);
  }
}
