/** The DTA scheduler object: its maps, its queues per server and its statistics. */
module DtaScheduler {
  import opened Options
  import opened JobQueues
  import opened DtaModel
  import opened DtaInvariant

  const SERVICE_WEIGHT := 0.2
  const INTERVAL_WEIGHT := 0.6

  ghost function Waits(qs: seq<JobQueue>): (r: seq<seq<Packet>>)
    reads qs`waitQ
    ensures |r| == |qs|
  {
    if qs == [] then []
    else
      var last := |qs| - 1;
      assert forall i :: 0 <= i < last ==> qs[i] in qs;
      Waits(qs[..last]) + [qs[last].waitQ]
  }

  lemma {:induction false} WaitsAre(qs: seq<JobQueue>)
    ensures forall i :: 0 <= i < |qs| ==> Waits(qs)[i] == qs[i].waitQ
  {
    if qs != [] {
      WaitsAre(qs[..|qs| - 1]);
    }
  }

  /** Different queue objects, all without outstanding packets and without a limit of their own. */
  ghost predicate Separate(qs: seq<JobQueue>, delay: seq<real>)
    reads qs`osQ
  {
    && (forall i, j :: 0 <= i < j < |qs| ==> qs[i] != qs[j])
    && (forall i :: 0 <= i < |qs| ==> qs[i].degree == -1 && qs[i].delay == delay && qs[i].osQ == [])
  }

  /** After one queue has changed. */
  lemma WaitsUpdate(qs: seq<JobQueue>, was: seq<seq<Packet>>, k: nat)
    requires k < |qs| == |was| && forall i :: 0 <= i < |qs| && i != k ==> qs[i].waitQ == was[i]
    ensures Waits(qs) == was[k := qs[k].waitQ]
  {
    WaitsAre(qs);
    hide Waits;
  }

  lemma EmptyWaits(qs: seq<JobQueue>)
    requires forall i :: 0 <= i < |qs| ==> qs[i].waitQ == []
    ensures |Waits(qs)| == |qs| && forall i :: 0 <= i < |qs| ==> Waits(qs)[i] == []
  {
    WaitsAre(qs);
    hide Waits;
  }

  method MakeQueues(n: nat, delay: seq<real>) returns (qs: seq<JobQueue>)
    ensures |qs| == n && Separate(qs, delay)
    ensures forall i :: 0 <= i < n ==> fresh(qs[i]) && qs[i].waitQ == []
  {
    qs := [];
    for i := 0 to n
      invariant |qs| == i && Separate(qs, delay)
      invariant forall h :: 0 <= h < i ==> fresh(qs[h]) && qs[h].waitQ == []
    {
      var q := new JobQueue(-1, delay);
      qs := qs + [q];
    }
  }

  method MakeBoth(n: nat, delay: seq<real>) returns (es: seq<JobQueue>, ls: seq<JobQueue>)
    ensures |es| == |ls| == n && Separate(es, delay) && Separate(ls, delay)
    ensures forall i, j :: 0 <= i < n && 0 <= j < n ==> es[i] != ls[j]
    ensures forall i :: 0 <= i < n ==> fresh(es[i]) && fresh(ls[i])
    ensures |Waits(es)| == |Waits(ls)| == n && forall i :: 0 <= i < n ==> Waits(es)[i] == Waits(ls)[i] == []
  {
    hide Waits;
    es := MakeQueues(n, delay);
    ls := MakeQueues(n, delay);
    EmptyWaits(es);
    EmptyWaits(ls);
  }

  class Dta {
    const c: Config
    const edf: seq<JobQueue>
    const lr: seq<JobQueue>
    const degrees: array<int>
    const timing: array<Timing>
    var requests: map<int, Request>
    var waiting: map<int, Packet>
    var dispatched: map<int, Packet>

    ghost function Abs(): State
      reads this, edf`waitQ, lr`waitQ, degrees
    {
      State(requests, waiting, dispatched, Waits(edf), Waits(lr), degrees[..])
    }

    ghost predicate Linked()
      reads edf`osQ, lr`osQ
    {
      && |edf| == |lr| == degrees.Length == timing.Length == c.servers
      && Separate(edf, c.delay) && Separate(lr, c.delay)
      && forall i, j :: 0 <= i < |edf| && 0 <= j < |lr| ==> edf[i] != lr[j]
    }

    ghost predicate Valid()
      reads this, edf, lr, degrees
    {
      Linked() && Inv(c, Abs())
    }

    constructor (c: Config)
      ensures Valid() && this.c == c && Abs() == Init(c)
      ensures fresh(degrees) && fresh(timing) && fresh(set q | q in edf) && fresh(set q | q in lr)
      ensures forall i :: 0 <= i < c.servers ==> timing[i] == Timing(0.001, 0.001, -1.0)
    {
      this.c := c;
      hide Inv, Waits;
      var es, ls := MakeBoth(c.servers, c.delay);
      edf, lr := es, ls;
      degrees := new int[c.servers](_ => 0);
      timing := new Timing[c.servers](_ => Timing(0.001, 0.001, -1.0));
      requests, waiting, dispatched := map[], map[], map[];
      new;
      assert Abs() == Init(c);
      InitIsInv(c);
    }

    /** Refines the deadline queue of a server and puts the packet in. */
    method Enqueue(sid: nat, p: Packet)
      requires Linked() && sid < c.servers
      modifies edf`waitQ
      ensures Waits(edf) == old(Waits(edf))[sid := InsertByDeadline(c.delay, Live(old(Waits(edf))[sid], waiting.Keys), p)]
      ensures Waits(lr) == old(Waits(lr))
    {
      hide Live, InsertByDeadline, Waits;
      WaitsAre(edf);
      WaitsAre(lr);
      ghost var was := Waits(edf);
      edf[sid].Refine(waiting.Keys);
      edf[sid].PushByDeadline(p);
      WaitsUpdate(edf, was, sid);
      WaitsAre(lr);
    }

    method Postpone(sid: nat, p: Packet)
      requires Linked() && sid < c.servers
      modifies lr`waitQ
      ensures Waits(lr) == old(Waits(lr))[sid := old(Waits(lr))[sid] + [p]] && Waits(edf) == old(Waits(edf))
    {
      hide Waits;
      WaitsAre(lr);
      WaitsAre(edf);
      ghost var was := Waits(lr);
      lr[sid].PushBack(p);
      WaitsUpdate(lr, was, sid);
      WaitsAre(edf);
    }

    /** A packet arrives. */
    method PushWaitQ(p: Packet, now: real)
      requires Valid() && MayPush(c, Abs(), p)
      modifies this`requests, this`waiting, edf`waitQ, lr`waitQ
      ensures Valid() && Abs() == Push(c, old(Abs()), p, now)
    {
      hide PacketsOk, CountsOk, SlotsOk, DegreesOk, QueuesOk, LagOk, Waits, Push, Separate;
      PushKeeps(c, Abs(), p, now);
      PushState(p, now);
    }

    method PushState(p: Packet, now: real)
      requires Valid() && MayPush(c, Abs(), p)
      modifies this`requests, this`waiting, edf`waitQ, lr`waitQ
      ensures Linked() && Abs() == Push(c, old(Abs()), p, now)
    {
      hide Inv, Live, InsertByDeadline, Waits, Rid, Threshold, Separate;
      var rid := Rid(p);
      var sid := p.server;
      var req: Request;
      if rid !in requests {
        req := Request(now + c.delay[p.app], p.totalSubreqs, 0, 0, 0, seq(c.servers, _ => NO_PACKET));
      } else {
        req := requests[rid];
      }
      Enqueue(sid, p);
      req := req.(waiting := req.waiting + 1, slots := req.slots[sid := p.id]);
      requests := requests[rid := req];
      waiting := waiting[p.id := p];
      var threshold := Threshold(c, req.total);
      if req.total - req.serving - req.served <= threshold {
        Postpone(sid, p);
      }
      assert degrees[..] == old(degrees[..]);
      assert Lagging(c, req) <==> req.total - req.serving - req.served <= threshold;
      assert Waits(edf) == Push(c, old(Abs()), p, now).edf && Waits(lr) == Push(c, old(Abs()), p, now).lr;
    }

    /** Takes the first packet off a queue for good. */
    static method TakeFirst(q: JobQueue) returns (p: Packet)
      requires q.waitQ != [] && q.osQ == [] && q.degree == -1
      modifies q`waitQ, q`osQ
      ensures p == old(q.waitQ)[0] && q.waitQ == old(q.waitQ)[1..] && q.osQ == []
    {
      p := q.waitQ[0];
      var _ := q.DispatchNext();
      FindIs(q.osQ, p.id, 0);
      var _ := q.PopOsQ(p.id);
    }

    /** Drops packets that no longer wait from the front of a queue. */
    method DropStale(q: JobQueue)
      requires q.osQ == [] && q.degree == -1
      modifies q`waitQ, q`osQ
      ensures q.waitQ == Purged(old(q.waitQ), waiting.Keys) && q.osQ == []
    {
      while q.waitQ != []
        invariant Purged(q.waitQ, waiting.Keys) == Purged(old(q.waitQ), waiting.Keys) && q.osQ == []
        decreases |q.waitQ|
      {
        if q.waitQ[0].id in waiting {
          break;
        }
        var _ := TakeFirst(q);
      }
    }

    /** The queues of all servers but one are as they were. */
    lemma OnlyOne(was: seq<seq<Packet>>, waslr: seq<seq<Packet>>, sid: nat)
      requires Linked() && sid < c.servers && |was| == |waslr| == c.servers
      requires forall i :: 0 <= i < c.servers && i != sid ==> edf[i].waitQ == was[i] && lr[i].waitQ == waslr[i]
      ensures Waits(edf) == was[sid := edf[sid].waitQ] && Waits(lr) == waslr[sid := lr[sid].waitQ]
    {
      WaitsUpdate(edf, was, sid);
      WaitsUpdate(lr, waslr, sid);
    }

    /** The slots of a lagging request go to the lag queues. */
    method ReleaseSlots(slots: seq<int>)
      requires Linked() && |slots| == c.servers
      requires forall i :: 0 <= i < |slots| ==>
                 slots[i] == NO_PACKET || (slots[i] >= 0 && slots[i] in waiting && waiting[slots[i]].server < c.servers)
      modifies lr`waitQ
      ensures Waits(lr) == Release(old(Waits(lr)), waiting, slots, 0) && Waits(edf) == old(Waits(edf))
    {
      hide Waits;
      for i := 0 to c.servers
        invariant Release(Waits(lr), waiting, slots, i) == Release(old(Waits(lr)), waiting, slots, 0)
        invariant Waits(edf) == old(Waits(edf))
      {
        var pid := slots[i];
        if pid != NO_PACKET {
          var pkt := waiting[pid];
          Postpone(pkt.server, pkt);
        }
      }
    }

    /** A slot, if set, names a packet that still waits. */
    ghost predicate SlotsWait(p: Packet)
      reads this`requests, this`waiting
    {
      && p.server < c.servers && Rid(p) in requests && |requests[Rid(p)].slots| == c.servers
      && forall i :: 0 <= i < c.servers && i != p.server ==>
           var id := requests[Rid(p)].slots[i];
           id == NO_PACKET || (id >= 0 && id != p.id && id in waiting && waiting[id].server < c.servers)
    }

    /** The bookkeeping when a packet goes to its server (`dispatchUpdate`). */
    method DispatchUpdate(p: Packet)
      requires Linked() && SlotsWait(p)
      modifies this`requests, this`waiting, this`dispatched, degrees, lr`waitQ
      ensures Linked() && Abs() == Sent(c, old(Abs()), p)
    {
      hide Waits, Rid, Threshold, Separate, Release;
      var sid := p.server;
      degrees[sid] := degrees[sid] + 1;
      waiting := waiting - {p.id};
      dispatched := dispatched[p.id := p];
      var rid := Rid(p);
      var req := requests[rid];
      req := req.(waiting := req.waiting - 1, serving := req.serving + 1, slots := req.slots[sid := NO_PACKET]);
      assert degrees[..] == old(degrees[..])[sid := degrees[sid]];
      assert Waits(lr) == old(Waits(lr)) && Waits(edf) == old(Waits(edf));
      if req.total - req.serving - req.served <= Threshold(c, req.total) {
        ReleaseSlots(req.slots);
        req := req.(slots := seq(c.servers, _ => NO_PACKET));
      }
      requests := requests[rid := req];
      assert degrees[..] == Sent(c, old(Abs()), p).degrees;
      assert Waits(edf) == Sent(c, old(Abs()), p).edf && Waits(lr) == Sent(c, old(Abs()), p).lr;
    }

    lemma WaitingSlots(p: Packet)
      requires Linked() && Inv(c, Abs()) && p.id in waiting && waiting[p.id] == p
      ensures SlotsWait(p)
    {
      hide Rid, Waits, CountsOk, DegreesOk, QueuesOk, LagOk;
      forall i | 0 <= i < c.servers && i != p.server
        ensures var id := requests[Rid(p)].slots[i];
                id == NO_PACKET || (id >= 0 && id != p.id && id in waiting && waiting[id].server < c.servers)
      {
        assert SlotOk(Abs(), Rid(p), i);
      }
    }

    /** Drops what is stale from the queues of a server: its deadline queue, and its lag queue when that is needed. */
    method PurgeQueue(q: JobQueue, ghost sid: nat)
      requires Linked() && sid < c.servers && (q == edf[sid] || q == lr[sid])
      modifies q`waitQ, q`osQ
      ensures Linked() && q.waitQ == Purged(old(q.waitQ), waiting.Keys)
      ensures q == edf[sid] ==> Waits(edf) == old(Waits(edf))[sid := q.waitQ] && Waits(lr) == old(Waits(lr))
      ensures q == lr[sid] ==> Waits(lr) == old(Waits(lr))[sid := q.waitQ] && Waits(edf) == old(Waits(edf))
    {
      hide Waits, Purged;
      WaitsAre(edf);
      WaitsAre(lr);
      ghost var (was, waslr) := (Waits(edf), Waits(lr));
      DropStale(q);
      OnlyOne(was, waslr, sid);
    }

    method TakeFrom(q: JobQueue, ghost sid: nat) returns (p: Packet)
      requires Linked() && sid < c.servers && (q == edf[sid] || q == lr[sid]) && q.waitQ != []
      modifies q`waitQ, q`osQ
      ensures Linked() && p == old(q.waitQ)[0] && q.waitQ == old(q.waitQ)[1..]
      ensures q == edf[sid] ==> Waits(edf) == old(Waits(edf))[sid := q.waitQ] && Waits(lr) == old(Waits(lr))
      ensures q == lr[sid] ==> Waits(lr) == old(Waits(lr))[sid := q.waitQ] && Waits(edf) == old(Waits(edf))
    {
      hide Waits;
      WaitsAre(edf);
      WaitsAre(lr);
      ghost var (was, waslr) := (Waits(edf), Waits(lr));
      p := TakeFirst(q);
      OnlyOne(was, waslr, sid);
    }

    /** Sends a packet to server `sid`, if it has a free slot and something waits there. */
    method TryToDispatch(sid: nat, now: real) returns (r: Option<Packet>)
      requires Valid() && sid < c.servers && Sendable(c, Abs())
      modifies this`requests, this`waiting, this`dispatched, degrees, edf`waitQ, edf`osQ, lr`waitQ, lr`osQ
      ensures Linked() && (Abs(), r) == Dispatch(c, old(Abs()), sid, timing[sid], now)
      ensures r == None <==> (c.degree > 0 && old(degrees[sid]) >= c.degree) || On(old(waiting), sid) == {}
      ensures r.Some? ==> RightChoice(c, old(Abs()), sid, timing[sid], now, r.value)
    {
      DispatchIsRight(c, Abs(), sid, timing[sid], now);
      hide Waits, Inv, Sendable, Dispatch, Separate, RightChoice, On;
      r := TryState(sid, now);
    }

    method TryState(sid: nat, now: real) returns (r: Option<Packet>)
      requires Valid() && sid < c.servers && Sendable(c, Abs())
      modifies this`requests, this`waiting, this`dispatched, degrees, edf`waitQ, edf`osQ, lr`waitQ, lr`osQ
      ensures Linked() && (Abs(), r) == Dispatch(c, old(Abs()), sid, timing[sid], now)
    {
      hide Waits, Rid, Purged, Inv, Sent, Separate, SlotsWait;
      ghost var s := Abs();
      ghost var (e, l) := (Purged(s.edf[sid], waiting.Keys), Purged(s.lr[sid], waiting.Keys));
      WaitsAre(edf);
      WaitsAre(lr);
      Candidates(sid);
      if degrees[sid] >= c.degree && c.degree > 0 {
        return None;
      }
      PurgeQueue(edf[sid], sid);
      if edf[sid].waitQ == [] {
        assert degrees[..] == s.degrees;
        return None;
      }
      var pkt := edf[sid].waitQ[0];
      var req := requests[Rid(pkt)];
      if req.deadline <= now + timing[sid].service
         || (degrees[sid] == c.degree - 1 && req.deadline <= now + timing[sid].service + timing[sid].interval) {
        pkt := TakeFrom(edf[sid], sid);
        assert Waits(edf) == s.edf[sid := e[1..]];
      } else {
        PurgeQueue(lr[sid], sid);
        if lr[sid].waitQ == [] {
          pkt := TakeFrom(edf[sid], sid);
          assert Waits(edf) == s.edf[sid := e[1..]];
        } else {
          pkt := TakeFrom(lr[sid], sid);
          assert Waits(lr) == s.lr[sid := l[1..]];
        }
      }
      assert degrees[..] == s.degrees;
      DispatchUpdate(pkt);
      r := Some(pkt);
    }

    /** Both packets the choice is between wait, with slots to match. */
    lemma Candidates(sid: nat)
      requires Valid() && sid < c.servers
      ensures var e := Purged(Waits(edf)[sid], waiting.Keys);
              e != [] ==> SlotsWait(e[0]) && Rid(e[0]) in requests
      ensures var l := Purged(Waits(lr)[sid], waiting.Keys);
              l != [] ==> SlotsWait(l[0])
    {
      hide Waits, Rid, Purged, Inv, Separate;
      var s := Abs();
      PurgedIsEarliest(c, s, sid);
      PurgedLags(c, s, sid);
      var (e, l) := (Purged(s.edf[sid], waiting.Keys), Purged(s.lr[sid], waiting.Keys));
      if e != [] {
        WaitingSlots(e[0]);
      }
      if l != [] {
        WaitingSlots(l[0]);
      }
    }

    /** Sends the next packet, if any server has a free slot and something waiting for it. */
    method DispatchNext(now: real) returns (r: Option<Packet>)
      requires Valid() && Sendable(c, Abs())
      modifies this`requests, this`waiting, this`dispatched, degrees, edf`waitQ, edf`osQ, lr`waitQ, lr`osQ
      ensures Valid() && (Abs(), r) == DispatchFrom(c, old(Abs()), 0, timing[..], now)
    {
      hide PacketsOk, CountsOk, SlotsOk, DegreesOk, QueuesOk, LagOk, Waits, Separate, DispatchFrom, Sendable, Idle, RightChoice;
      DispatchNextIsRight(c, Abs(), 0, timing[..], now);
      r := DispatchServers(now);
    }

    method DispatchServers(now: real) returns (r: Option<Packet>)
      requires Valid() && Sendable(c, Abs())
      modifies this`requests, this`waiting, this`dispatched, degrees, edf`waitQ, edf`osQ, lr`waitQ, lr`osQ
      ensures Linked() && (Abs(), r) == DispatchFrom(c, old(Abs()), 0, timing[..], now)
    {
      hide Waits, Rid, Inv, Separate, Sendable, Dispatch, RightChoice;
      for i := 0 to c.servers
        invariant Valid() && Sendable(c, Abs())
        invariant DispatchFrom(c, Abs(), i, timing[..], now) == DispatchFrom(c, old(Abs()), 0, timing[..], now)
      {
        WaitsAre(edf);
        ghost var s := Abs();
        DispatchIsRight(c, s, i, timing[i], now);
        if edf[i].waitQ != [] && degrees[i] < c.degree && c.degree > 0 {
          r := TryToDispatch(i, now);
          if r.Some? {
            return;
          }
          InvIsSendable(c, Abs());
        }
      }
      r := None;
    }

    /** A packet has been served (`popOsQ`); it was given to its server at `scheduled`. */
    method PopOsQ(id: nat, now: real, scheduled: real) returns (r: Option<Packet>)
      requires Valid()
      modifies this`requests, this`dispatched, degrees, timing, edf`waitQ, lr`waitQ
      ensures Valid() && (Abs(), r) == Finish(c, old(Abs()), id)
      ensures r == None ==> timing[..] == old(timing[..])
      ensures r.Some? ==>
                var (i, t) := (r.value.server, old(timing[..])[r.value.server]);
                timing[..] == old(timing[..])[i := Timing(
                  t.service * (1.0 - SERVICE_WEIGHT) + (now - scheduled) * SERVICE_WEIGHT,
                  if t.last != -1.0 then t.interval * (1.0 - INTERVAL_WEIGHT) + (now - t.last) * INTERVAL_WEIGHT else t.interval,
                  now)]
    {
      hide PacketsOk, CountsOk, SlotsOk, DegreesOk, QueuesOk, LagOk, Waits, Separate, Finish;
      FinishKeeps(c, Abs(), id);
      r := PopState(id);
      if r.Some? {
        var sid := r.value.server;
        var t := timing[sid];
        var service := t.service * (1.0 - SERVICE_WEIGHT) + (now - scheduled) * SERVICE_WEIGHT;
        var interval := t.interval;
        if t.last != -1.0 {
          interval := t.interval * (1.0 - INTERVAL_WEIGHT) + (now - t.last) * INTERVAL_WEIGHT;
        }
        timing[sid] := Timing(service, interval, now);
      }
    }

    method PopState(id: nat) returns (r: Option<Packet>)
      requires Valid()
      modifies this`requests, this`dispatched, degrees, edf`waitQ, lr`waitQ
      ensures Linked() && (Abs(), r) == Finish(c, old(Abs()), id)
      ensures r.Some? ==> r.value.server < c.servers
    {
      hide Waits, Rid, Live, CountsOk, SlotsOk, DegreesOk, QueuesOk, LagOk, Separate;
      if id !in dispatched {
        return None;
      }
      var p := dispatched[id];
      var sid := p.server;
      ghost var s := Abs();
      dispatched := dispatched - {id};
      degrees[sid] := degrees[sid] - 1;
      assert degrees[..] == s.degrees[sid := degrees[sid]];
      var rid := Rid(p);
      var req := requests[rid];
      req := req.(serving := req.serving - 1, served := req.served + 1);
      requests := if req.served == req.total then requests - {rid} else requests[rid := req];
      RefineBoth(sid);
      r := Some(p);
    }

    method RefineBoth(sid: nat)
      requires Linked() && sid < c.servers
      modifies edf`waitQ, lr`waitQ
      ensures Waits(edf) == old(Waits(edf))[sid := Live(old(Waits(edf))[sid], waiting.Keys)]
      ensures Waits(lr) == old(Waits(lr))[sid := Live(old(Waits(lr))[sid], waiting.Keys)]
    {
      hide Waits, Live;
      WaitsAre(edf);
      WaitsAre(lr);
      ghost var (was, waslr) := (Waits(edf), Waits(lr));
      edf[sid].Refine(waiting.Keys);
      lr[sid].Refine(waiting.Keys);
      OnlyOne(was, waslr, sid);
    }

    method QueryJob(id: nat) returns (r: Option<Packet>)
      ensures r == if id in dispatched then Some(dispatched[id]) else None
    {
      return if id in dispatched then Some(dispatched[id]) else None;
    }
  }
}
