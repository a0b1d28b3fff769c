/** What every step of the DTA scheduler keeps, and what it means for dispatching. */
module DtaInvariant {
  import opened Options
  import opened JobQueues
  import opened DtaModel

  /** A request lags behind once the packets it still has to dispatch are no more than its share of them all. */
  lemma LaggingMeans(c: Config, r: Request)
    ensures var share := r.total as real * c.lag;
            share >= 0.0 ==> (Lagging(c, r) <==> (r.total - r.serving - r.served) as real <= share)
    ensures var share := r.total as real * c.lag;
            share < 0.0 ==> (Lagging(c, r) <==> (r.total - r.serving - r.served) as real < share + 1.0)
  {
  }

  // ---------------------------------------------------------------- counting packets

  lemma JoinsRequest(m: map<int, Packet>, id: int, p: Packet, rid: nat)
    requires id !in m
    ensures |Of(m[id := p], rid)| == |Of(m, rid)| + if Rid(p) == rid then 1 else 0
  {
    hide Rid;
    var m' := m[id := p];
    assert forall x :: x in Of(m', rid) <==> x in Of(m, rid) || (x == id && Rid(p) == rid);
    assert Of(m', rid) == if Rid(p) == rid then Of(m, rid) + {id} else Of(m, rid);
  }

  lemma JoinsServer(m: map<int, Packet>, id: int, p: Packet, i: nat)
    requires id !in m
    ensures |On(m[id := p], i)| == |On(m, i)| + if p.server == i then 1 else 0
  {
    var m' := m[id := p];
    assert forall x :: x in On(m', i) <==> x in On(m, i) || (x == id && p.server == i);
    assert On(m', i) == if p.server == i then On(m, i) + {id} else On(m, i);
  }

  lemma LeavesRequest(m: map<int, Packet>, id: int, rid: nat)
    requires id in m
    ensures |Of(m - {id}, rid)| == |Of(m, rid)| - if Rid(m[id]) == rid then 1 else 0
  {
    hide Rid;
    assert Of(m, rid) == if Rid(m[id]) == rid then Of(m - {id}, rid) + {id} else Of(m - {id}, rid);
  }

  lemma LeavesServer(m: map<int, Packet>, id: int, i: nat)
    requires id in m
    ensures |On(m - {id}, i)| == |On(m, i)| - if m[id].server == i then 1 else 0
  {
    assert On(m, i) == if m[id].server == i then On(m - {id}, i) + {id} else On(m - {id}, i);
  }

  lemma NoneOf(m: map<int, Packet>, rid: nat)
    requires forall id :: id in m ==> Rid(m[id]) != rid
    ensures Of(m, rid) == {}
  {
    assert forall id :: id in m ==> id !in Of(m, rid);
  }

  lemma SomeOf(m: map<int, Packet>, id: int)
    requires id in m
    ensures |Of(m, Rid(m[id]))| > 0 && |On(m, m[id].server)| > 0
  {
    assert id in Of(m, Rid(m[id])) && id in On(m, m[id].server);
  }

  // ---------------------------------------------------------------- push

  lemma PushCounts(c: Config, s: State, p: Packet, now: real)
    requires Inv(c, s) && MayPush(c, s, p)
    ensures PacketsOk(c, Push(c, s, p, now)) && CountsOk(c, Push(c, s, p, now)) && DegreesOk(c, Push(c, s, p, now))
  {
    hide Rid, InsertByDeadline, Live, Lagging, QueuesOk, LagOk, Of, On;
    var s' := Push(c, s, p, now);
    forall rid | rid in s'.requests
      ensures s'.requests[rid].waiting == |Of(s'.waiting, rid)|
      ensures s'.requests[rid].serving == |Of(s'.dispatched, rid)|
    {
      JoinsRequest(s.waiting, p.id, p, rid);
      if rid !in s.requests {
        NoneOf(s.waiting, rid);
        NoneOf(s.dispatched, rid);
      }
    }
  }

  lemma PushSlots(c: Config, s: State, p: Packet, now: real)
    requires Inv(c, s) && MayPush(c, s, p)
    ensures SlotsOk(c, Push(c, s, p, now))
  {
    hide Rid, InsertByDeadline, Live, Lagging, QueuesOk, LagOk, CountsOk, DegreesOk;
    var s' := Push(c, s, p, now);
    forall rid, i | rid in s'.requests && 0 <= i < c.servers
      ensures |s'.requests[rid].slots| == c.servers && SlotOk(s', rid, i)
    {
      if rid in s.requests {
        assert SlotOk(s, rid, i);
      }
    }
  }

  lemma PushQueues(c: Config, s: State, p: Packet, now: real)
    requires Inv(c, s) && MayPush(c, s, p)
    ensures QueuesOk(c, Push(c, s, p, now))
  {
    hide Rid, InsertByDeadline, Live, Lagging, CountsOk, DegreesOk, SlotsOk, LagOk, ByDeadline;
    var s' := Push(c, s, p, now);
    var (q, ids) := (s.edf[p.server], s.waiting.Keys);
    LiveKeepsOrder(c.delay, q, ids);
    InsertKeepsOrder(c.delay, Live(q, ids), p);
    InsertKeepsPackets(c.delay, Live(q, ids), p);
    forall x
      ensures x in s'.edf[p.server] <==> x == p || (x in q && x.id in ids)
    {
      LiveKeeps(q, ids, x);
    }
    LiveKeepsDistinct(q, ids);
    InsertKeepsDistinct(c.delay, Live(q, ids), p);
  }

  ghost predicate DistinctIDs(q: seq<Packet>) {
    forall j, k :: 0 <= j < k < |q| ==> q[j].id != q[k].id
  }

  lemma {:induction false} LiveKeepsDistinct(q: seq<Packet>, ids: set<int>)
    requires DistinctIDs(q)
    ensures DistinctIDs(Live(q, ids)) && forall x :: x in Live(q, ids) ==> x in q && x.id in ids
  {
    if q != [] {
      LiveKeepsDistinct(q[1..], ids);
    }
  }

  lemma InsertKeepsDistinct(delay: seq<real>, q: seq<Packet>, p: Packet)
    requires DistinctIDs(q) && forall x :: x in q ==> x.id != p.id
    ensures DistinctIDs(InsertByDeadline(delay, q, p))
  {
    hide InsertByDeadline, Place;
    InsertAt(delay, q, p);
  }

  lemma SameLag(c: Config, r: Request, r': Request)
    requires r'.total == r.total && r'.serving + r'.served == r.serving + r.served
    ensures Lagging(c, r') == Lagging(c, r)
  {
  }

  lemma PushLag(c: Config, s: State, p: Packet, now: real)
    requires Inv(c, s) && MayPush(c, s, p)
    ensures LagOk(c, Push(c, s, p, now))
  {
    hide Rid, InsertByDeadline, Live, CountsOk, DegreesOk, SlotsOk, Lagging, ByDeadline;
    var s' := Push(c, s, p, now);
    var r := Arriving(c, s, p, now);
    var r' := s'.requests[Rid(p)];
    SameLag(c, r, r');
    forall i, x | 0 <= i < c.servers && x in s'.lr[i] && x.id in s'.waiting && Rid(x) in s'.requests
      ensures Lagging(c, s'.requests[Rid(x)])
    {
      if x in s.lr[i] {
        assert Known(s, x) && x.id != p.id;
        assert s.waiting[x.id] == x && Lagging(c, s.requests[Rid(x)]);
      } else {
        assert x == p && Lagging(c, r');
      }
    }
  }

  lemma PushKeeps(c: Config, s: State, p: Packet, now: real)
    requires Inv(c, s) && MayPush(c, s, p)
    ensures Inv(c, Push(c, s, p, now))
  {
    PushCounts(c, s, p, now);
    PushSlots(c, s, p, now);
    PushQueues(c, s, p, now);
    PushLag(c, s, p, now);
  }

  // ---------------------------------------------------------------- dispatch

  /** Every slot from `i` on puts its packet at the end of the lag queue of its own server. */
  lemma {:induction false} ReleaseIs(lr: seq<seq<Packet>>, waiting: map<int, Packet>, slots: seq<int>, i: nat)
    requires |slots| == |lr| && i <= |slots|
    requires forall k :: i <= k < |slots| ==>
               slots[k] == NO_PACKET || (slots[k] >= 0 && slots[k] in waiting && waiting[slots[k]].server == k)
    ensures forall k :: 0 <= k < |lr| ==>
              Release(lr, waiting, slots, i)[k]
                == if k < i || slots[k] == NO_PACKET then lr[k] else lr[k] + [waiting[slots[k]]]
    decreases |slots| - i
  {
    if i < |slots| {
      if slots[i] == NO_PACKET {
        ReleaseIs(lr, waiting, slots, i + 1);
      } else {
        ReleaseIs(lr[i := lr[i] + [waiting[slots[i]]]], waiting, slots, i + 1);
      }
    }
  }

  /** The state with the queues of server `i` set to what is left of them when `p` is sent there. */
  ghost predicate LeftBehind(c: Config, s: State, i: nat, e: seq<Packet>, l: seq<Packet>, p: Packet) {
    && Inv(c, s) && i < c.servers && (c.degree > 0 ==> s.degrees[i] < c.degree)
    && p.id in s.waiting && s.waiting[p.id] == p && p.server == i
    && (forall x :: x in e ==> x in s.edf[i]) && (forall x :: x in l ==> x in s.lr[i])
    && DistinctIDs(e) && ByDeadline(c.delay, e)
    && (forall x :: x in s.edf[i] && x.id in s.waiting && x.id != p.id ==> x in e)
  }

  function Left(s: State, i: nat, e: seq<Packet>, l: seq<Packet>): State
    requires i < |s.edf| && i < |s.lr|
  {
    s.(edf := s.edf[i := e], lr := s.lr[i := l])
  }

  lemma SentCounts(c: Config, s: State, i: nat, e: seq<Packet>, l: seq<Packet>, p: Packet)
    requires LeftBehind(c, s, i, e, l, p)
    ensures Rid(p) in s.requests && |s.requests[Rid(p)].slots| == c.servers
    ensures var s' := Sent(c, Left(s, i, e, l), p); PacketsOk(c, s') && CountsOk(c, s') && DegreesOk(c, s')
  {
    hide Rid, Lagging, QueuesOk, LagOk, Of, On, Release;
    var s' := Sent(c, Left(s, i, e, l), p);
    forall rid | rid in s'.requests
      ensures s'.requests[rid].waiting == |Of(s'.waiting, rid)|
      ensures s'.requests[rid].serving == |Of(s'.dispatched, rid)|
    {
      LeavesRequest(s.waiting, p.id, rid);
      JoinsRequest(s.dispatched, p.id, p, rid);
    }
    forall k | 0 <= k < c.servers
      ensures s'.degrees[k] == |On(s'.dispatched, k)|
    {
      JoinsServer(s.dispatched, p.id, p, k);
    }
  }

  lemma SentSlots(c: Config, s: State, i: nat, e: seq<Packet>, l: seq<Packet>, p: Packet)
    requires LeftBehind(c, s, i, e, l, p)
    ensures Rid(p) in s.requests && |s.requests[Rid(p)].slots| == c.servers
    ensures SlotsOk(c, Sent(c, Left(s, i, e, l), p))
  {
    hide Rid, Lagging, QueuesOk, LagOk, CountsOk, DegreesOk, Release;
    var s' := Sent(c, Left(s, i, e, l), p);
    forall rid, k | rid in s'.requests && 0 <= k < c.servers
      ensures |s'.requests[rid].slots| == c.servers && SlotOk(s', rid, k)
    {
      assert SlotOk(s, rid, k);
    }
  }

  /** The lag queues after sending: what was there, and with a lagging request its packets from the slots. */
  lemma SentLagQueues(c: Config, s: State, i: nat, e: seq<Packet>, l: seq<Packet>, p: Packet)
    requires LeftBehind(c, s, i, e, l, p)
    ensures Rid(p) in s.requests && |s.requests[Rid(p)].slots| == c.servers
    ensures var s' := Sent(c, Left(s, i, e, l), p);
            forall k, x :: 0 <= k < c.servers && x in s'.lr[k] ==>
              || x in s.lr[k]
              || (x.server == k && x.id in s'.waiting && s'.waiting[x.id] == x && Rid(x) == Rid(p)
                  && Lagging(c, s'.requests[Rid(p)]))
  {
    hide Rid, Lagging, QueuesOk, LagOk, CountsOk, DegreesOk, Release;
    var s1 := Left(s, i, e, l);
    var s' := Sent(c, s1, p);
    var r := s.requests[Rid(p)];
    var r' := r.(waiting := r.waiting - 1, serving := r.serving + 1, slots := r.slots[p.server := NO_PACKET]);
    SameLag(c, r', s'.requests[Rid(p)]);
    if Lagging(c, r') {
      forall k | 0 <= k < c.servers
        ensures r'.slots[k] == NO_PACKET || (r'.slots[k] >= 0 && r'.slots[k] in s'.waiting
                                             && s'.waiting[r'.slots[k]].server == k && Rid(s'.waiting[r'.slots[k]]) == Rid(p))
      {
        assert SlotOk(s, Rid(p), k);
      }
      ReleaseIs(s1.lr, s'.waiting, r'.slots, 0);
    }
  }

  lemma SentQueues(c: Config, s: State, i: nat, e: seq<Packet>, l: seq<Packet>, p: Packet)
    requires LeftBehind(c, s, i, e, l, p)
    ensures Rid(p) in s.requests && |s.requests[Rid(p)].slots| == c.servers
    ensures QueuesOk(c, Sent(c, Left(s, i, e, l), p))
  {
    hide Rid, Lagging, LagOk, CountsOk, DegreesOk, Release, ByDeadline;
    SentLagQueues(c, s, i, e, l, p);
    var s' := Sent(c, Left(s, i, e, l), p);
    assert s'.edf == s.edf[i := e];
    assert forall x :: Known(s, x) ==> Known(s', x);
  }

  lemma SentLag(c: Config, s: State, i: nat, e: seq<Packet>, l: seq<Packet>, p: Packet)
    requires LeftBehind(c, s, i, e, l, p)
    ensures Rid(p) in s.requests && |s.requests[Rid(p)].slots| == c.servers
    ensures LagOk(c, Sent(c, Left(s, i, e, l), p))
  {
    hide Rid, Lagging, QueuesOk, CountsOk, DegreesOk, Release;
    SentLagQueues(c, s, i, e, l, p);
    var s' := Sent(c, Left(s, i, e, l), p);
    LagsFurther(c, s.requests[Rid(p)], s'.requests[Rid(p)]);
  }

  /** A lagging request keeps lagging as more of its packets are sent. */
  lemma LagsFurther(c: Config, r: Request, r': Request)
    requires r'.total == r.total && r'.serving + r'.served >= r.serving + r.served
    ensures Lagging(c, r) ==> Lagging(c, r')
  {
  }

  lemma SentKeeps(c: Config, s: State, i: nat, e: seq<Packet>, l: seq<Packet>, p: Packet)
    requires LeftBehind(c, s, i, e, l, p)
    ensures Rid(p) in s.requests && |s.requests[Rid(p)].slots| == c.servers
    ensures Inv(c, Sent(c, Left(s, i, e, l), p))
  {
    SentCounts(c, s, i, e, l, p);
    SentSlots(c, s, i, e, l, p);
    SentQueues(c, s, i, e, l, p);
    SentLag(c, s, i, e, l, p);
  }

  lemma InvIsSendable(c: Config, s: State)
    requires Inv(c, s)
    ensures Sendable(c, s)
  {
    hide Rid, CountsOk, DegreesOk, LagOk, ByDeadline;
    forall q, p | (q in s.edf || q in s.lr) && p in q && p.id in s.waiting
      ensures p.server < c.servers && Rid(p) in s.requests && |s.requests[Rid(p)].slots| == c.servers
    {
      if q in s.edf {
        var i :| 0 <= i < |s.edf| && s.edf[i] == q;
        assert Known(s, p);
      } else {
        var i :| 0 <= i < |s.lr| && s.lr[i] == q;
        assert Known(s, p);
      }
    }
  }

  lemma InvIsShaped(c: Config, s: State)
    requires Inv(c, s)
    ensures Shaped(c, s)
  {
  }

  /** `e` waits at server `i`, and nothing that waits there is due earlier. */
  ghost predicate Earliest(c: Config, s: State, i: nat, e: Packet) {
    && e.id in s.waiting && s.waiting[e.id] == e && e.server == i
    && forall id :: id in s.waiting && s.waiting[id].server == i ==> Due(c.delay, e) <= Due(c.delay, s.waiting[id])
  }

  lemma PurgedSame(delay: seq<real>, q: seq<Packet>, ids: set<int>)
    requires DistinctIDs(q) && ByDeadline(delay, q)
    ensures var e := Purged(q, ids);
            && (forall x :: x in q && x.id in ids ==> x in e) && (forall x :: x in e ==> x in q)
            && DistinctIDs(e) && ByDeadline(delay, e)
  {
    PurgedParts(q, ids);
    hide Purged, Due;
    var e := Purged(q, ids);
    forall x | x in q && x.id in ids
      ensures x in e
    {
      var k :| 0 <= k < |q| && q[k] == x;
      assert e[k - (|q| - |e|)] == x;
    }
  }

  /** The deadline queue without its stale front starts with the earliest waiting packet; it is empty exactly
      when nothing waits at the server. */
  lemma PurgedIsEarliest(c: Config, s: State, i: nat)
    requires Inv(c, s) && i < c.servers
    ensures var e := Purged(s.edf[i], s.waiting.Keys);
            && (e == [] <==> On(s.waiting, i) == {})
            && (e != [] ==> Earliest(c, s, i, e[0]))
            && (forall x :: x in s.edf[i] && x.id in s.waiting ==> x in e)
            && (forall x :: x in e ==> x in s.edf[i]) && DistinctIDs(e) && ByDeadline(c.delay, e)
  {
    hide Rid, CountsOk, DegreesOk, LagOk, SlotsOk, Purged, Due;
    var (q, ids) := (s.edf[i], s.waiting.Keys);
    PurgedParts(q, ids);
    PurgedSame(c.delay, q, ids);
    var e := Purged(q, ids);
    forall id | id in s.waiting && s.waiting[id].server == i
      ensures s.waiting[id] in e
    {
      assert s.waiting[id] in q;
    }
    if e != [] {
      assert e[0] in q && Known(s, e[0]);
      assert e[0].id in On(s.waiting, i);
    } else {
      assert forall id :: id in s.waiting ==> id !in On(s.waiting, i);
    }
  }

  /** The first waiting packet of the lag queue, if there is one, belongs to a request that lags behind. */
  lemma PurgedLags(c: Config, s: State, i: nat)
    requires Inv(c, s) && i < c.servers
    ensures var l := Purged(s.lr[i], s.waiting.Keys);
            && (forall x :: x in l ==> x in s.lr[i])
            && (l != [] ==> l[0].id in s.waiting && s.waiting[l[0].id] == l[0] && l[0].server == i
                            && Rid(l[0]) in s.requests && Lagging(c, s.requests[Rid(l[0])]))
            && (l == [] ==> forall x :: x in s.lr[i] ==> x.id !in s.waiting)
  {
    hide Rid, CountsOk, DegreesOk, SlotsOk, Purged, Lagging;
    PurgedParts(s.lr[i], s.waiting.Keys);
    var l := Purged(s.lr[i], s.waiting.Keys);
    if l != [] {
      assert Known(s, l[0]);
    }
  }

  /** Dropping stale packets from the front of the queues changes nothing that matters. */
  lemma PurgeKeeps(c: Config, s: State, i: nat)
    requires Inv(c, s) && i < c.servers
    ensures Inv(c, s.(edf := s.edf[i := Purged(s.edf[i], s.waiting.Keys)]))
  {
    hide Rid, Purged, Lagging, ByDeadline, Of, On;
    PurgedIsEarliest(c, s, i);
    var s' := s.(edf := s.edf[i := Purged(s.edf[i], s.waiting.Keys)]);
    assert forall x :: Known(s, x) <==> Known(s', x);
    assert PacketsOk(c, s') && CountsOk(c, s') && DegreesOk(c, s') && LagOk(c, s');
    assert SlotsOk(c, s') by {
      forall rid, k | rid in s'.requests && 0 <= k < c.servers
        ensures |s'.requests[rid].slots| == c.servers && SlotOk(s', rid, k)
      {
        assert SlotOk(s, rid, k);
      }
    }
  }

  /** The deadline lies behind the time one packet takes, and if this is the last free slot, also behind the time
      until the next one is free. */
  ghost predicate HasTime(c: Config, degree: int, t: Timing, now: real, deadline: real) {
    deadline > now + t.service && (degree == c.degree - 1 ==> deadline > now + t.service + t.interval)
  }

  /** The packet sent is the earliest one, unless the request of that one has time; then, if the lag queue has a waiting
      packet, its first one is sent, and it is of a request that lags behind. */
  ghost predicate RightChoice(c: Config, s: State, i: nat, t: Timing, now: real, p: Packet)
    requires i < |s.degrees| && i < |s.lr|
  {
    && p.id in s.waiting && s.waiting[p.id] == p && p.server == i && Rid(p) in s.requests
    && exists e :: Earliest(c, s, i, e) && Rid(e) in s.requests
                   && var time := HasTime(c, s.degrees[i], t, now, s.requests[Rid(e)].deadline);
                      && (p != e ==> time)
                      && (time && (exists x :: x in s.lr[i] && x.id in s.waiting) ==>
                            FirstOf(s.lr[i], s.waiting.Keys, p) && Lagging(c, s.requests[Rid(p)]))
                      && (!(exists x :: x in s.lr[i] && x.id in s.waiting) ==> p == e)
  }

  /** The first packet of the queue that is among `ids`. */
  ghost predicate FirstOf(q: seq<Packet>, ids: set<int>, p: Packet) {
    exists k :: 0 <= k < |q| && q[k] == p && p.id in ids && forall h :: 0 <= h < k ==> q[h].id !in ids
  }

  lemma PurgedIsFirst(q: seq<Packet>, ids: set<int>)
    requires Purged(q, ids) != []
    ensures FirstOf(q, ids, Purged(q, ids)[0])
  {
    PurgedParts(q, ids);
    var r := Purged(q, ids);
    assert q[|q| - |r|] == r[0];
  }

  lemma UrgentHasNoTime(c: Config, r: Request, t: Timing, degree: int, now: real)
    ensures Urgent(c, r, t, degree, now) <==> !HasTime(c, degree, t, now, r.deadline)
  {
  }

  lemma EarliestIsRight(c: Config, s: State, i: nat, t: Timing, now: real, e: Packet)
    requires i < |s.degrees| && i < |s.lr| && Earliest(c, s, i, e) && Rid(e) in s.requests
    requires Urgent(c, s.requests[Rid(e)], t, s.degrees[i], now) || forall x :: x in s.lr[i] ==> x.id !in s.waiting
    ensures RightChoice(c, s, i, t, now, e)
  {
    hide Due, Rid, Lagging, Urgent, HasTime;
    UrgentHasNoTime(c, s.requests[Rid(e)], t, s.degrees[i], now);
  }

  lemma FirstIsRight(c: Config, s: State, i: nat, t: Timing, now: real, e: Packet, p: Packet)
    requires i < |s.degrees| && i < |s.lr| && Earliest(c, s, i, e) && Rid(e) in s.requests
    requires !Urgent(c, s.requests[Rid(e)], t, s.degrees[i], now) && FirstOf(s.lr[i], s.waiting.Keys, p)
    requires p.id in s.waiting && s.waiting[p.id] == p && p.server == i && Rid(p) in s.requests
    requires Lagging(c, s.requests[Rid(p)])
    ensures RightChoice(c, s, i, t, now, p)
  {
    hide Due, Rid, Lagging, Urgent, HasTime;
    UrgentHasNoTime(c, s.requests[Rid(e)], t, s.degrees[i], now);
  }

  lemma DispatchEarliest(c: Config, s: State, i: nat)
    requires Inv(c, s) && i < c.servers && Purged(s.edf[i], s.waiting.Keys) != []
    requires c.degree > 0 ==> s.degrees[i] < c.degree
    ensures var e := Purged(s.edf[i], s.waiting.Keys);
            && LeftBehind(c, s, i, e[1..], s.lr[i], e[0]) && LeftBehind(c, s, i, e[1..], [], e[0])
  {
    hide Rid, Purged, Lagging, CountsOk, DegreesOk, SlotsOk, LagOk, Due, On;
    PurgedIsEarliest(c, s, i);
    var e := Purged(s.edf[i], s.waiting.Keys);
    forall x | x in s.edf[i] && x.id in s.waiting && x.id != e[0].id
      ensures x in e[1..]
    {
      var k :| 0 <= k < |e| && e[k] == x;
      assert e[1..][k - 1] == x;
    }
  }

  lemma DispatchLagging(c: Config, s: State, i: nat)
    requires Inv(c, s) && i < c.servers && Purged(s.lr[i], s.waiting.Keys) != []
    requires c.degree > 0 ==> s.degrees[i] < c.degree
    ensures var (e, l) := (Purged(s.edf[i], s.waiting.Keys), Purged(s.lr[i], s.waiting.Keys));
            LeftBehind(c, s, i, e, l[1..], l[0])
  {
    hide Rid, Purged, Lagging, CountsOk, DegreesOk, SlotsOk, LagOk, Due, On;
    PurgedIsEarliest(c, s, i);
    PurgedLags(c, s, i);
  }

  /** What sending does to the records of what waits and what is being served. */
  ghost predicate Moves(s: State, s': State, p: Packet) {
    s'.waiting == s.waiting - {p.id} && s'.dispatched == s.dispatched[p.id := p]
  }

  ghost predicate SameBut(s: State, s': State) {
    s'.waiting == s.waiting && s'.dispatched == s.dispatched && s'.requests == s.requests && s'.degrees == s.degrees
    && s'.lr == s.lr
  }

  /** One server: nothing is sent exactly when it is full or nothing waits there; else the right packet moves. */
  lemma DispatchIsRight(c: Config, s: State, i: nat, t: Timing, now: real)
    requires Inv(c, s) && i < c.servers
    ensures Sendable(c, s)
    ensures var (s', r) := Dispatch(c, s, i, t, now);
            && Inv(c, s')
            && (r == None <==> (c.degree > 0 && s.degrees[i] >= c.degree) || On(s.waiting, i) == {})
            && (r == None ==> SameBut(s, s'))
            && (r.Some? ==> RightChoice(c, s, i, t, now, r.value) && Moves(s, s', r.value))
  {
    hide Rid, Purged, Lagging, Urgent, On, Inv, Sendable, Due, LeftBehind, Release, RightChoice;
    InvIsSendable(c, s);
    InvIsShaped(c, s);
    if !(s.degrees[i] >= c.degree && c.degree > 0) {
      PurgedIsEarliest(c, s, i);
      PurgedLags(c, s, i);
      PurgeKeeps(c, s, i);
      var (e, l) := (Purged(s.edf[i], s.waiting.Keys), Purged(s.lr[i], s.waiting.Keys));
      if e != [] {
        DispatchEarliest(c, s, i);
        SentKeeps(c, s, i, e[1..], s.lr[i], e[0]);
        SentKeeps(c, s, i, e[1..], [], e[0]);
        assert s.lr[i := s.lr[i]] == s.lr;
        if l == [] || Urgent(c, s.requests[Rid(e[0])], t, s.degrees[i], now) {
          EarliestIsRight(c, s, i, t, now, e[0]);
        } else {
          PurgedIsFirst(s.lr[i], s.waiting.Keys);
          FirstIsRight(c, s, i, t, now, e[0], l[0]);
          DispatchLagging(c, s, i);
          SentKeeps(c, s, i, e, l[1..], l[0]);
        }
      }
    }
  }

  /** Nothing can be sent to the server: it is full, or nothing waits there. */
  ghost predicate Idle(c: Config, s: State, i: nat)
    requires i < |s.degrees|
  {
    c.degree <= 0 || s.degrees[i] >= c.degree || On(s.waiting, i) == {}
  }

  /** All servers: nothing is sent exactly when no server with a free slot has a packet waiting; else the right
      packet goes to the first server that has both. */
  lemma {:induction false} DispatchNextIsRight(c: Config, s: State, i: nat, timing: seq<Timing>, now: real)
    requires Inv(c, s) && |timing| == c.servers && i <= c.servers
    ensures Sendable(c, s) && Shaped(c, s)
    ensures var (s', r) := DispatchFrom(c, s, i, timing, now);
            && Inv(c, s')
            && (r == None <==> forall k :: i <= k < c.servers ==> Idle(c, s, k))
            && (r == None ==> s'.waiting == s.waiting && s'.dispatched == s.dispatched)
            && (r.Some? ==>
                  && Moves(s, s', r.value) && i <= r.value.server < c.servers && !Idle(c, s, r.value.server)
                  && (forall k :: i <= k < r.value.server ==> Idle(c, s, k))
                  && RightChoice(c, s, r.value.server, timing[r.value.server], now, r.value))
    decreases c.servers - i
  {
    hide Rid, Lagging, Urgent, On, Inv, Sendable, Due, Dispatch, Earliest;
    InvIsSendable(c, s);
    InvIsShaped(c, s);
    if i < c.servers {
      NothingQueued(c, s, i);
      DispatchIsRight(c, s, i, timing[i], now);
      if s.edf[i] != [] && s.degrees[i] < c.degree && c.degree > 0 {
        var (s1, r) := Dispatch(c, s, i, timing[i], now);
        assert r == None <==> Idle(c, s, i);
        if r == None {
          DispatchNextIsRight(c, s1, i + 1, timing, now);
          SameChoices(c, s, s1);
          assert forall k :: 0 <= k < c.servers ==> Idle(c, s1, k) == Idle(c, s, k);
        }
      } else {
        assert Idle(c, s, i);
        DispatchNextIsRight(c, s, i + 1, timing, now);
      }
    }
  }

  lemma NothingQueued(c: Config, s: State, i: nat)
    requires Inv(c, s) && i < c.servers
    ensures s.edf[i] == [] ==> On(s.waiting, i) == {}
  {
    PurgedIsEarliest(c, s, i);
  }

  lemma SameChoices(c: Config, s: State, s1: State)
    requires SameBut(s, s1)
    ensures forall i, t, now, p :: 0 <= i < |s.degrees| && i < |s.lr| ==> RightChoice(c, s1, i, t, now, p) == RightChoice(c, s, i, t, now, p)
  {
    hide Due, HasTime, Lagging, Rid;
    forall i, e | 0 <= i < |s.degrees|
      ensures Earliest(c, s1, i, e) == Earliest(c, s, i, e)
    {
    }
  }

  // ---------------------------------------------------------------- completion

  lemma FinishCounts(c: Config, s: State, id: nat)
    requires Inv(c, s) && id in s.dispatched
    ensures var s' := Finish(c, s, id).0;
            PacketsOk(c, s') && CountsOk(c, s') && DegreesOk(c, s') && Finish(c, s, id).1 == Some(s.dispatched[id])
  {
    hide Rid, Lagging, QueuesOk, LagOk, Of, On, Live;
    var (s', p) := (Finish(c, s, id).0, s.dispatched[id]);
    forall rid | rid in s'.requests
      ensures s'.requests[rid].waiting == |Of(s'.waiting, rid)|
      ensures s'.requests[rid].serving == |Of(s'.dispatched, rid)|
    {
      LeavesRequest(s.dispatched, id, rid);
    }
    forall k | 0 <= k < c.servers
      ensures s'.degrees[k] == |On(s'.dispatched, k)|
    {
      LeavesServer(s.dispatched, id, k);
    }
    if Rid(p) !in s'.requests {
      LeavesRequest(s.dispatched, id, Rid(p));
      assert |Of(s.waiting, Rid(p))| == 0 && |Of(s'.dispatched, Rid(p))| == 0;
      forall x | x in s'.waiting || x in s'.dispatched
        ensures x in s'.waiting ==> Rid(s'.waiting[x]) != Rid(p)
        ensures x in s'.dispatched ==> Rid(s'.dispatched[x]) != Rid(p)
      {
        if x in s'.waiting {
          SomeOf(s'.waiting, x);
        }
        if x in s'.dispatched {
          SomeOf(s'.dispatched, x);
        }
      }
    }
  }

  lemma FinishSlots(c: Config, s: State, id: nat)
    requires Inv(c, s) && id in s.dispatched
    ensures SlotsOk(c, Finish(c, s, id).0)
  {
    hide Rid, Lagging, QueuesOk, LagOk, CountsOk, DegreesOk, Live;
    var s' := Finish(c, s, id).0;
    forall rid, k | rid in s'.requests && 0 <= k < c.servers
      ensures |s'.requests[rid].slots| == c.servers && SlotOk(s', rid, k)
    {
      assert SlotOk(s, rid, k);
    }
  }

  lemma FinishQueues(c: Config, s: State, id: nat)
    requires Inv(c, s) && id in s.dispatched
    ensures QueuesOk(c, Finish(c, s, id).0)
  {
    hide Rid, Lagging, LagOk, CountsOk, DegreesOk, SlotsOk, ByDeadline, Live;
    var (s', i, ids) := (Finish(c, s, id).0, s.dispatched[id].server, s.waiting.Keys);
    LiveKeepsOrder(c.delay, s.edf[i], ids);
    LiveKeepsDistinct(s.edf[i], ids);
    forall x
      ensures x in s'.edf[i] <==> x in s.edf[i] && x.id in ids
      ensures x in s'.lr[i] <==> x in s.lr[i] && x.id in ids
    {
      LiveKeeps(s.edf[i], ids, x);
      LiveKeeps(s.lr[i], ids, x);
    }
    assert forall x :: Known(s, x) && (x.server != i || x.id in ids) ==> Known(s', x);
  }

  lemma FinishLag(c: Config, s: State, id: nat)
    requires Inv(c, s) && id in s.dispatched
    ensures LagOk(c, Finish(c, s, id).0)
  {
    hide Rid, Lagging, CountsOk, DegreesOk, SlotsOk, QueuesOk, Live;
    var (s', p) := (Finish(c, s, id).0, s.dispatched[id]);
    forall x
      ensures x in s'.lr[p.server] ==> x in s.lr[p.server]
    {
      LiveKeeps(s.lr[p.server], s.waiting.Keys, x);
    }
    if Rid(p) in s'.requests {
      SameLag(c, s.requests[Rid(p)], s'.requests[Rid(p)]);
    }
  }

  lemma FinishKeeps(c: Config, s: State, id: nat)
    requires Inv(c, s)
    ensures Inv(c, Finish(c, s, id).0)
    ensures var (s', r) := Finish(c, s, id);
            if id in s.dispatched then
              r == Some(s.dispatched[id]) && s'.dispatched == s.dispatched - {id} && s'.waiting == s.waiting
            else r == None && s' == s
  {
    if id in s.dispatched {
      FinishCounts(c, s, id);
      FinishSlots(c, s, id);
      FinishQueues(c, s, id);
      FinishLag(c, s, id);
    }
  }

  // ---------------------------------------------------------------- whole runs

  /** What happens to the scheduler.  The service statistics at the time of a dispatch may be anything. */
  datatype Event = Arrive(p: Packet, now: real) | Ask(timing: seq<Timing>, now: real) | Complete(id: nat)

  ghost predicate Legal(c: Config, s: State, e: Event) {
    match e
    case Arrive(p, _) => MayPush(c, s, p)
    case Ask(timing, _) => |timing| == c.servers && Sendable(c, s)
    case Complete(_) => Shaped(c, s)
  }

  /** One event, and the packet that was sent, if any. */
  ghost function Step(c: Config, s: State, e: Event): (State, Option<Packet>)
    requires Legal(c, s, e)
  {
    match e
    case Arrive(p, now) => (Push(c, s, p, now), None)
    case Ask(timing, now) => DispatchFrom(c, s, 0, timing, now)
    case Complete(id) => (Finish(c, s, id).0, None)
  }

  ghost predicate LegalRun(c: Config, s: State, events: seq<Event>)
    decreases |events|
  {
    events != [] ==> Legal(c, s, events[0]) && LegalRun(c, Step(c, s, events[0]).0, events[1..])
  }

  ghost function Run(c: Config, s: State, events: seq<Event>): State
    requires LegalRun(c, s, events)
    decreases |events|
  {
    if events == [] then s else Run(c, Step(c, s, events[0]).0, events[1..])
  }

  /** How often packet `id` arrives, is sent and completes in a run. */
  ghost function Arrivals(events: seq<Event>, id: nat): nat {
    if events == [] then 0
    else Arrivals(events[1..], id) + if events[0].Arrive? && events[0].p.id == id then 1 else 0
  }

  ghost function Sendings(c: Config, s: State, events: seq<Event>, id: nat): nat
    requires LegalRun(c, s, events)
    decreases |events|
  {
    if events == [] then 0
    else
      var (s', r) := Step(c, s, events[0]);
      Sendings(c, s', events[1..], id) + if r.Some? && r.value.id == id then 1 else 0
  }

  ghost function Completions(c: Config, s: State, events: seq<Event>, id: nat): nat
    requires LegalRun(c, s, events)
    decreases |events|
  {
    if events == [] then 0
    else
      Completions(c, Step(c, s, events[0]).0, events[1..], id)
      + if events[0].Complete? && events[0].id == id && id in s.dispatched then 1 else 0
  }

  function One(b: bool): nat {
    if b then 1 else 0
  }

  lemma StepKeeps(c: Config, s: State, e: Event)
    requires Inv(c, s) && Legal(c, s, e)
    ensures Inv(c, Step(c, s, e).0)
  {
    hide Inv, Push, DispatchFrom, Finish, RightChoice, Idle, Moves;
    match e
    case Arrive(p, now) => PushKeeps(c, s, p, now);
    case Ask(timing, now) => DispatchNextIsRight(c, s, 0, timing, now);
    case Complete(id) => FinishKeeps(c, s, id);
  }

  /** One event moves a packet at most one step on its way from waiting to served. */
  lemma StepMoves(c: Config, s: State, e: Event, id: nat)
    requires Inv(c, s) && Legal(c, s, e)
    ensures var (s', r) := Step(c, s, e);
            && One(id in s.waiting) + One(e.Arrive? && e.p.id == id) == One(id in s'.waiting) + One(r.Some? && r.value.id == id)
            && One(id in s.dispatched) + One(r.Some? && r.value.id == id)
                 == One(id in s'.dispatched) + One(e.Complete? && e.id == id && id in s.dispatched)
  {
    hide Inv, DispatchFrom, Finish, Idle;
    match e
    case Arrive(p, now) =>
    case Ask(timing, now) =>
      DispatchNextIsRight(c, s, 0, timing, now);
      InvIsDisjoint(c, s);
    case Complete(x) => FinishKeeps(c, s, x);
  }

  lemma InvIsDisjoint(c: Config, s: State)
    requires Inv(c, s)
    ensures s.waiting.Keys !! s.dispatched.Keys
  {
  }

  /** Over every run each packet that arrives is sent exactly once, however many queues it sits in, unless it still
      waits; and each packet that is sent completes once, unless it is still being served. */
  lemma {:induction false} SentExactlyOnce(c: Config, s: State, events: seq<Event>, id: nat)
    requires Inv(c, s) && LegalRun(c, s, events)
    ensures var s' := Run(c, s, events);
            && Inv(c, s')
            && One(id in s.waiting) + Arrivals(events, id) == One(id in s'.waiting) + Sendings(c, s, events, id)
            && One(id in s.dispatched) + Sendings(c, s, events, id)
                 == One(id in s'.dispatched) + Completions(c, s, events, id)
    decreases |events|
  {
    hide Inv, Step;
    if events != [] {
      StepKeeps(c, s, events[0]);
      StepMoves(c, s, events[0], id);
      SentExactlyOnce(c, Step(c, s, events[0]).0, events[1..], id);
    }
  }

  /** A request gets its deadline and its number of packets from its first packet, and keeps them for as long as it is
      known. */
  lemma DeadlineStays(c: Config, s: State, e: Event, rid: nat)
    requires Inv(c, s) && Legal(c, s, e)
    ensures var s' := Step(c, s, e).0;
            && (rid in s.requests && rid in s'.requests ==>
                  s'.requests[rid].deadline == s.requests[rid].deadline && s'.requests[rid].total == s.requests[rid].total)
            && (rid !in s.requests && rid in s'.requests ==>
                  && e.Arrive? && Rid(e.p) == rid && e.p.app < |c.delay|
                  && s'.requests[rid].deadline == e.now + c.delay[e.p.app]
                  && s'.requests[rid].total == e.p.totalSubreqs)
  {
    hide Inv, Rid, Live, InsertByDeadline, Lagging;
    if e.Ask? {
      DispatchKeepsDeadlines(c, s, 0, e.timing, e.now, rid);
    }
  }

  ghost predicate SameDeadline(s: State, s': State, rid: nat) {
    && (rid in s.requests <==> rid in s'.requests)
    && (rid in s.requests ==>
          s'.requests[rid].deadline == s.requests[rid].deadline && s'.requests[rid].total == s.requests[rid].total)
  }

  lemma {:induction false} DispatchKeepsDeadlines(c: Config, s: State, i: nat, timing: seq<Timing>, now: real, rid: nat)
    requires Sendable(c, s) && |timing| == c.servers
    ensures SameDeadline(s, DispatchFrom(c, s, i, timing, now).0, rid)
    decreases c.servers - i
  {
    if i < c.servers {
      hide Sendable, Dispatch;
      var (s1, r) := Dispatch(c, s, i, timing[i], now);
      ServerKeepsDeadlines(c, s, i, timing[i], now, rid);
      if r == None {
        DispatchNothing(c, s, i, timing[i], now);
        DispatchKeepsDeadlines(c, s1, i + 1, timing, now, rid);
      }
      DispatchKeepsDeadlines(c, s, i + 1, timing, now, rid);
    }
  }

  lemma ServerKeepsDeadlines(c: Config, s: State, i: nat, t: Timing, now: real, rid: nat)
    requires Sendable(c, s) && i < c.servers
    ensures SameDeadline(s, Dispatch(c, s, i, t, now).0, rid)
  {
    hide Rid, Purged, Lagging, Release, Urgent;
    PurgedParts(s.edf[i], s.waiting.Keys);
    PurgedParts(s.lr[i], s.waiting.Keys);
  }

  lemma InitIsInv(c: Config)
    ensures Inv(c, Init(c))
  {
    forall i | 0 <= i < c.servers
      ensures |On(Init(c).dispatched, i)| == 0
    {
      assert On(map[], i) == {};
    }
  }
}
