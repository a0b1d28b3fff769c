/** Whether the packets of a request that lags behind are in the lag queues, and when one is forgotten. */
module DtaLag {
  import opened Options
  import opened JobQueues
  import opened DtaModel
  import opened DtaInvariant

  /** The packet is in the lag queue of its server; or its request does not lag behind and its slot names the packet. */
  ghost predicate Kept(c: Config, s: State, id: int)
    requires Inv(c, s) && id in s.waiting
  {
    var p := s.waiting[id];
    p in s.lr[p.server] || (!Lagging(c, s.requests[Rid(p)]) && s.requests[Rid(p)].slots[p.server] == id)
  }

  ghost predicate AllKept(c: Config, s: State)
    requires Inv(c, s)
  {
    forall id :: id in s.waiting ==> Kept(c, s, id)
  }

  /** Then every waiting packet of a request that lags behind is in the lag queue of its server. */
  lemma KeptIsQueued(c: Config, s: State, id: int)
    requires Inv(c, s) && AllKept(c, s) && id in s.waiting && Lagging(c, s.requests[Rid(s.waiting[id])])
    ensures s.waiting[id] in s.lr[s.waiting[id].server]
  {
    assert Kept(c, s, id);
  }

  /** The slot an arriving packet gets is free, or its request lags behind already. */
  ghost predicate FindsSlotFree(c: Config, s: State, p: Packet)
    requires Inv(c, s) && MayPush(c, s, p)
  {
    Rid(p) in s.requests ==>
      Lagging(c, s.requests[Rid(p)]) || s.requests[Rid(p)].slots[p.server] == NO_PACKET
  }

  // ---------------------------------------------------------------- push

  /** What an arrival does to the slots and lag queues. */
  lemma PushShape(c: Config, s: State, p: Packet, now: real)
    requires Inv(c, s) && MayPush(c, s, p)
    ensures var s' := Push(c, s, p, now);
            && Inv(c, s') && s'.waiting == s.waiting[p.id := p]
            && (Rid(p) in s.requests ==> Lagging(c, s'.requests[Rid(p)]) == Lagging(c, s.requests[Rid(p)]))
            && s'.requests[Rid(p)].slots[p.server] == p.id
            && (Rid(p) in s.requests ==>
                  s'.requests[Rid(p)].slots == s.requests[Rid(p)].slots[p.server := p.id])
            && (forall rid :: rid in s.requests && rid != Rid(p) ==> s'.requests[rid] == s.requests[rid])
            && s'.lr == if Lagging(c, s'.requests[Rid(p)]) then s.lr[p.server := s.lr[p.server] + [p]] else s.lr
  {
    PushKeeps(c, s, p, now);
    hide Rid, InsertByDeadline, Live, Lagging, Inv;
    SameLag(c, Arriving(c, s, p, now), Push(c, s, p, now).requests[Rid(p)]);
  }

  /** An arrival leaves all waiting packets kept exactly if it finds its slot free; else the packet that the slot named
      is in the lag queue now or never. */
  lemma ArrivalKeeps(c: Config, s: State, p: Packet, now: real)
    requires Inv(c, s) && MayPush(c, s, p) && AllKept(c, s)
    ensures Inv(c, Push(c, s, p, now))
    ensures AllKept(c, Push(c, s, p, now)) <==> FindsSlotFree(c, s, p)
  {
    PushShape(c, s, p, now);
    hide Rid, Push, Lagging, LagOk, CountsOk, DegreesOk, QueuesOk;
    var s' := Push(c, s, p, now);
    if FindsSlotFree(c, s, p) {
      forall id | id in s'.waiting
        ensures Kept(c, s', id)
      {
        if id != p.id {
          assert Kept(c, s, id);
        }
      }
    } else {
      var id := s.requests[Rid(p)].slots[p.server];
      assert SlotOk(s, Rid(p), p.server);
      NotQueued(c, s, id);
      assert !Kept(c, s', id);
    }
  }

  /** The second of two packets of a request for the same server takes the slot of the first. */
  lemma SlotTaken()
    ensures var c := Config(1, 1, 0.0, [0.0]);
            var (p, q) := (Packet(1, 0, 0, 0, 0.0, 2), Packet(2, 0, 0, 0, 0.0, 2));
            && Inv(c, Init(c)) && MayPush(c, Init(c), p)
            && var s := Push(c, Init(c), p, 0.0);
               && Inv(c, s) && AllKept(c, s) && MayPush(c, s, q)
               && Inv(c, Push(c, s, q, 0.0)) && !AllKept(c, Push(c, s, q, 0.0))
  {
    var c := Config(1, 1, 0.0, [0.0]);
    var (p, q) := (Packet(1, 0, 0, 0, 0.0, 2), Packet(2, 0, 0, 0, 0.0, 2));
    InitIsInv(c);
    assert Rid(p) == 0 && Rid(q) == 0;
    ArrivalKeeps(c, Init(c), p, 0.0);
    hide Inv, AllKept;
    ArrivalKeeps(c, Push(c, Init(c), p, 0.0), q, 0.0);
  }

  lemma NotQueued(c: Config, s: State, id: int)
    requires Inv(c, s) && id in s.waiting && !Lagging(c, s.requests[Rid(s.waiting[id])])
    ensures s.waiting[id] !in s.lr[s.waiting[id].server]
  {
    hide Rid, Lagging, CountsOk, DegreesOk, QueuesOk, SlotsOk;
  }

  // ---------------------------------------------------------------- dispatch

  /** What sending packet `p` does to the records of its request and of the others. */
  lemma SentShape(c: Config, s: State, i: nat, e: seq<Packet>, l: seq<Packet>, p: Packet)
    requires LeftBehind(c, s, i, e, l, p)
    ensures Rid(p) in s.requests && |s.requests[Rid(p)].slots| == c.servers
    ensures var s' := Sent(c, Left(s, i, e, l), p);
            && Inv(c, s') && s'.waiting == s.waiting - {p.id}
            && (forall rid :: rid in s.requests && rid != Rid(p) ==> rid in s'.requests && s'.requests[rid] == s.requests[rid])
            && Rid(p) in s'.requests
            && (!Lagging(c, s'.requests[Rid(p)]) ==>
                  && !Lagging(c, s.requests[Rid(p)]) && s'.lr == s.lr[i := l]
                  && s'.requests[Rid(p)].slots == s.requests[Rid(p)].slots[p.server := NO_PACKET])
  {
    SentKeeps(c, s, i, e, l, p);
    hide Rid, Lagging, QueuesOk, LagOk, CountsOk, DegreesOk, SlotsOk, Release;
    var s' := Sent(c, Left(s, i, e, l), p);
    var r := s.requests[Rid(p)];
    var r' := r.(waiting := r.waiting - 1, serving := r.serving + 1, slots := r.slots[p.server := NO_PACKET]);
    SameLag(c, r', s'.requests[Rid(p)]);
    LagsFurther(c, r, r');
  }

  /** If its request lags behind then, the packets in the other slots join what is left of the lag queues, each that of
      its server. */
  lemma SentReleases(c: Config, s: State, i: nat, e: seq<Packet>, l: seq<Packet>, p: Packet)
    requires LeftBehind(c, s, i, e, l, p)
    ensures Rid(p) in s.requests && |s.requests[Rid(p)].slots| == c.servers
    ensures var (s', slots) := (Sent(c, Left(s, i, e, l), p), s.requests[Rid(p)].slots);
            && |s'.lr| == c.servers && Rid(p) in s'.requests
            && (Lagging(c, s'.requests[Rid(p)]) ==>
                  forall k :: 0 <= k < c.servers ==>
                    if k == p.server || slots[k] == NO_PACKET then s'.lr[k] == s.lr[i := l][k]
                    else slots[k] in s.waiting && s'.lr[k] == s.lr[i := l][k] + [s.waiting[slots[k]]])
  {
    hide Rid, Lagging, QueuesOk, LagOk, CountsOk, DegreesOk, Release;
    var s1 := Left(s, i, e, l);
    var s' := Sent(c, s1, p);
    var r := s.requests[Rid(p)];
    var r' := r.(waiting := r.waiting - 1, serving := r.serving + 1, slots := r.slots[p.server := NO_PACKET]);
    SameLag(c, r', s'.requests[Rid(p)]);
    if Lagging(c, r') {
      forall k | 0 <= k < c.servers
        ensures r'.slots[k] == NO_PACKET || (r'.slots[k] >= 0 && r'.slots[k] in s'.waiting
                                             && s'.waiting[r'.slots[k]].server == k)
      {
        assert SlotOk(s, Rid(p), k);
      }
      ReleaseIs(s1.lr, s'.waiting, r'.slots, 0);
      assert s'.lr == Release(s1.lr, s'.waiting, r'.slots, 0);
      forall k | 0 <= k < c.servers
        ensures if k == p.server || r.slots[k] == NO_PACKET then s'.lr[k] == s1.lr[k]
                else r.slots[k] in s.waiting && s'.lr[k] == s1.lr[k] + [s.waiting[r.slots[k]]]
      {
        assert r'.slots[k] == if k == p.server then NO_PACKET else r.slots[k];
      }
    }
  }

  lemma SendingKeeps(c: Config, s: State, i: nat, e: seq<Packet>, l: seq<Packet>, p: Packet)
    requires LeftBehind(c, s, i, e, l, p) && AllKept(c, s)
    requires forall x :: x in s.lr[i] && x.id in s.waiting && x.id != p.id ==> x in l
    ensures Rid(p) in s.requests && |s.requests[Rid(p)].slots| == c.servers
    ensures Inv(c, Sent(c, Left(s, i, e, l), p)) && AllKept(c, Sent(c, Left(s, i, e, l), p))
  {
    SentShape(c, s, i, e, l, p);
    SentReleases(c, s, i, e, l, p);
    hide Rid, Lagging, LagOk, CountsOk, DegreesOk, QueuesOk, Sent;
    var s' := Sent(c, Left(s, i, e, l), p);
    forall id | id in s'.waiting
      ensures Kept(c, s', id)
    {
      assert Kept(c, s, id) && Kept(c, s, p.id);
      var x := s.waiting[id];
      if x !in s.lr[x.server] && Rid(x) == Rid(p) && x.server == i {
        NotQueued(c, s, p.id);
        assert false;
      }
    }
  }

  lemma PurgedRest(q: seq<Packet>, ids: set<int>)
    ensures var l := Purged(q, ids);
            && (forall x :: x in q && x.id in ids ==> x in l)
            && (l != [] ==> forall x :: x in q && x.id in ids && x.id != l[0].id ==> x in l[1..])
            && (l == [] ==> forall x :: x in q ==> x.id !in ids)
  {
    PurgedParts(q, ids);
    hide Purged;
    var l := Purged(q, ids);
    forall x | x in q && x.id in ids
      ensures x in l && (x.id != l[0].id ==> x in l[1..])
    {
      var k :| 0 <= k < |q| && q[k] == x;
      assert l[k - (|q| - |l|)] == x;
    }
  }

  lemma ServerKeeps(c: Config, s: State, i: nat, t: Timing, now: real)
    requires Inv(c, s) && i < c.servers && AllKept(c, s)
    ensures Sendable(c, s)
    ensures var s' := Dispatch(c, s, i, t, now).0; Inv(c, s') && AllKept(c, s')
  {
    DispatchIsRight(c, s, i, t, now);
    hide Rid, Purged, Lagging, Urgent, On, Inv, Sendable, Due, LeftBehind, Release, RightChoice, AllKept;
    InvIsShaped(c, s);
    var r := Dispatch(c, s, i, t, now);
    if r.1 == None {
      SameKept(c, s, r.0);
    } else {
      PurgedIsEarliest(c, s, i);
      PurgedRest(s.lr[i], s.waiting.Keys);
      var (e, l) := (Purged(s.edf[i], s.waiting.Keys), Purged(s.lr[i], s.waiting.Keys));
      DispatchEarliest(c, s, i);
      assert s.lr[i := s.lr[i]] == s.lr;
      if Urgent(c, s.requests[Rid(e[0])], t, s.degrees[i], now) {
        SendingKeeps(c, s, i, e[1..], s.lr[i], e[0]);
      } else if l == [] {
        SendingKeeps(c, s, i, e[1..], [], e[0]);
      } else {
        DispatchLagging(c, s, i);
        SendingKeeps(c, s, i, e, l[1..], l[0]);
      }
    }
  }

  lemma SameKept(c: Config, s: State, s': State)
    requires Inv(c, s) && Inv(c, s') && SameBut(s, s') && AllKept(c, s)
    ensures AllKept(c, s')
  {
    hide Rid, Lagging, LagOk, CountsOk, DegreesOk, QueuesOk;
    forall id | id in s'.waiting
      ensures Kept(c, s', id)
    {
      assert Kept(c, s, id);
    }
  }

  lemma {:induction false} ServersKeep(c: Config, s: State, i: nat, timing: seq<Timing>, now: real)
    requires Inv(c, s) && |timing| == c.servers && i <= c.servers && AllKept(c, s)
    ensures Sendable(c, s)
    ensures var s' := DispatchFrom(c, s, i, timing, now).0; Inv(c, s') && AllKept(c, s')
    decreases c.servers - i
  {
    hide Inv, Sendable, Dispatch, AllKept;
    InvIsSendable(c, s);
    if i < c.servers {
      ServerKeeps(c, s, i, timing[i], now);
      ServersKeep(c, Dispatch(c, s, i, timing[i], now).0, i + 1, timing, now);
      ServersKeep(c, s, i + 1, timing, now);
    }
  }

  // ---------------------------------------------------------------- completion

  lemma FinishKeepsAll(c: Config, s: State, id: nat)
    requires Inv(c, s) && AllKept(c, s)
    ensures Inv(c, Finish(c, s, id).0) && AllKept(c, Finish(c, s, id).0)
  {
    FinishKeeps(c, s, id);
    if id in s.dispatched {
      hide Rid, Lagging, LagOk, CountsOk, DegreesOk, QueuesOk, Live;
      var (s', p) := (Finish(c, s, id).0, s.dispatched[id]);
      forall x | x in s'.waiting
        ensures Kept(c, s', x)
      {
        var w := s.waiting[x];
        assert Kept(c, s, x);
        LiveKeeps(s.lr[p.server], s.waiting.Keys, w);
        if Rid(w) == Rid(p) {
          SameLag(c, s.requests[Rid(w)], s'.requests[Rid(w)]);
        }
      }
    }
  }

  // ---------------------------------------------------------------- whole runs

  /** Every packet that arrives in the run finds its slot free. */
  ghost predicate SlotsFree(c: Config, s: State, events: seq<Event>)
    requires Inv(c, s) && LegalRun(c, s, events)
    decreases |events|
  {
    events != [] ==>
      (StepKeeps(c, s, events[0]);
       && (events[0].Arrive? ==> FindsSlotFree(c, s, events[0].p))
       && SlotsFree(c, Step(c, s, events[0]).0, events[1..]))
  }

  lemma StepKeepsAll(c: Config, s: State, e: Event)
    requires Inv(c, s) && Legal(c, s, e) && AllKept(c, s) && (e.Arrive? ==> FindsSlotFree(c, s, e.p))
    ensures Inv(c, Step(c, s, e).0) && AllKept(c, Step(c, s, e).0)
  {
    hide Inv, AllKept, Push, DispatchFrom, Finish, FindsSlotFree;
    match e
    case Arrive(p, now) => ArrivalKeeps(c, s, p, now);
    case Ask(timing, now) => ServersKeep(c, s, 0, timing, now);
    case Complete(id) => FinishKeepsAll(c, s, id);
  }

  /** In every run in which each arrival finds its slot free, every waiting packet of a request that lags behind is in the
      lag queue of its server. */
  lemma {:induction false} LaggingIsQueued(c: Config, s: State, events: seq<Event>)
    requires Inv(c, s) && LegalRun(c, s, events) && AllKept(c, s) && SlotsFree(c, s, events)
    ensures var s' := Run(c, s, events);
            && Inv(c, s') && AllKept(c, s')
            && forall id :: id in s'.waiting && Lagging(c, s'.requests[Rid(s'.waiting[id])]) ==>
                 s'.waiting[id] in s'.lr[s'.waiting[id].server]
    decreases |events|
  {
    hide Rid, Lagging, Kept, Step, FindsSlotFree;
    if events != [] {
      StepKeepsAll(c, s, events[0]);
      LaggingIsQueued(c, Step(c, s, events[0]).0, events[1..]);
    } else {
      forall id | id in s.waiting && Lagging(c, s.requests[Rid(s.waiting[id])])
        ensures s.waiting[id] in s.lr[s.waiting[id].server]
      {
        KeptIsQueued(c, s, id);
      }
    }
  }
}
