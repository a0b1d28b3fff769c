/** The I2L scheduler objects: the token buckets, the deadline queue below them, and what ties them together. */
module I2lScheduler {
  import opened Basics
  import opened Options
  import opened JobQueues
  import opened I2lModel
  import opened I2lSpare

  const MINIMAL := 0.000001
  const SAFE_LIMIT := 4.0

  class Sarc {
    const maxToken: seq<real>
    const interval: real
    var curToken: seq<real>
    var reqQ: seq<seq<Packet>>
    var nextReplenishment: real

    constructor (maxToken: seq<real>, interval: real)
      ensures this.maxToken == maxToken && this.interval == interval
      ensures curToken == maxToken && reqQ == seq(|maxToken|, _ => []) && nextReplenishment == interval
    {
      this.maxToken, this.interval, curToken, nextReplenishment := maxToken, interval, maxToken, interval;
      reqQ := seq(|maxToken|, _ => []);
    }

    /** True if the packet may pass at once; otherwise it waits in its bucket. */
    method NewArrival(p: Packet) returns (passes: bool)
      requires p.app < |curToken| == |reqQ|
      modifies this`curToken, this`reqQ
      ensures passes <==> old(curToken)[p.app] > 0.0
      ensures passes ==> curToken == old(curToken)[p.app := old(curToken)[p.app] - 1.0] && reqQ == old(reqQ)
      ensures !passes ==> curToken == old(curToken) && reqQ == old(reqQ)[p.app := old(reqQ)[p.app] + [p]]
    {
      if curToken[p.app] > 0.0 {
        curToken := curToken[p.app := curToken[p.app] - 1.0];
        return true;
      }
      reqQ := reqQ[p.app := reqQ[p.app] + [p]];
      return false;
    }

    /** Lets the first request pass that has a token. */
    method TryToDispatch() returns (r: Option<Packet>, ghost a: nat)
      requires |curToken| == |reqQ| && forall i, p :: 0 <= i < |reqQ| && p in reqQ[i] ==> p.app == i
      modifies this`curToken, this`reqQ
      ensures a <= |old(reqQ)| && (forall h :: 0 <= h < a ==> old(reqQ)[h] == [] || old(curToken)[h] <= 0.0)
      ensures a < |old(reqQ)| <==> r.Some?
      ensures r == None ==> curToken == old(curToken) && reqQ == old(reqQ)
      ensures r.Some? ==>
                && old(reqQ)[a] != [] && old(curToken)[a] > 0.0 && r.value == old(reqQ)[a][0]
                && curToken == old(curToken)[a := old(curToken)[a] - 1.0]
                && reqQ == old(reqQ)[a := old(reqQ)[a][1..]]
    {
      for i := 0 to |reqQ|
        invariant curToken == old(curToken) && reqQ == old(reqQ)
        invariant forall h :: 0 <= h < i ==> reqQ[h] == [] || curToken[h] <= 0.0
      {
        if reqQ[i] != [] {
          var pkt := reqQ[i][0];
          if curToken[pkt.app] > 0.0 {
            curToken := curToken[pkt.app := curToken[pkt.app] - 1.0];
            reqQ := reqQ[i := reqQ[i][1..]];
            return Some(pkt), i;
          }
        }
      }
      return None, |reqQ|;
    }

    method ReplenishTokens(now: real)
      requires |curToken| == |maxToken|
      modifies this`curToken, this`nextReplenishment
      ensures curToken == maxToken && nextReplenishment == now + interval
    {
      for i := 0 to |maxToken|
        invariant |curToken| == |maxToken| && forall h :: 0 <= h < i ==> curToken[h] == maxToken[h]
      {
        curToken := curToken[i := maxToken[i]];
      }
      nextReplenishment := now + interval;
    }
  }

  class Avatar {
    const queue: JobQueue
    const windowSize: real
    var limit: real
    var idle: bool
    var windowEnd: real

    ghost predicate Valid()
      reads this, queue
    {
      queue.degree == -1 && ByDeadline(queue.delay, queue.waitQ)
    }

    constructor (delay: seq<real>, windowSize: real)
      ensures Valid() && fresh(queue) && queue.delay == delay && queue.waitQ == [] && queue.osQ == []
      ensures limit == SAFE_LIMIT && !idle && windowEnd == windowSize && this.windowSize == windowSize
    {
      queue := new JobQueue(-1, delay);
      this.windowSize, limit, idle, windowEnd := windowSize, SAFE_LIMIT, false, windowSize;
    }

    method PushWaitQ(p: Packet)
      requires Valid()
      modifies queue`waitQ
      ensures Valid() && queue.waitQ == InsertByDeadline(queue.delay, old(queue.waitQ), p)
    {
      InsertKeepsOrder(queue.delay, queue.waitQ, p);
      queue.PushByDeadline(p);
    }

    /** Sends the first request if a deadline has passed or the server has room; keeps track of spareness. */
    method DispatchNext(now: real) returns (r: Option<Packet>)
      requires Valid()
      modifies this`idle, queue`waitQ, queue`osQ
      ensures Valid()
      ensures var (w, os) := (old(queue.waitQ), old(queue.osQ));
              if DueBefore(queue.delay, w, now) != 0 || |os| as real < limit then
                if w != [] then
                  r == Some(w[0]) && queue.waitQ == w[1..] && queue.osQ == os + [w[0]] && idle == old(idle)
                else
                  r == None && queue.waitQ == w && queue.osQ == os && idle == (old(idle) || |os| as real < limit * 0.9)
              else r == None && queue.waitQ == w && queue.osQ == os && !idle
    {
      var missed := queue.CountDueBefore(now);
      if queue.waitQ != [] {
        TailOrdered(queue.delay, queue.waitQ);
      }
      if missed != 0 || |queue.osQ| as real < limit {
        r := queue.DispatchNext();
        if r == None {
          if !idle {
            if |queue.osQ| as real < limit * 0.9 {
              idle := true;
            }
          }
        }
        return;
      }
      if idle {
        idle := false;
      }
      r := None;
    }

    method PopOsQ(id: nat) returns (r: Option<Packet>)
      requires Valid()
      modifies queue`osQ
      ensures Valid()
      ensures var k := Find(old(queue.osQ), id);
              if k < |old(queue.osQ)| then
                r == Some(old(queue.osQ)[k]) && queue.osQ == old(queue.osQ)[..k] + old(queue.osQ)[k + 1..]
              else r == None && queue.osQ == old(queue.osQ)
    {
      r := queue.PopOsQ(id);
    }

    /** The window ends; the controller's new limit and whether it found a missed deadline are inputs. */
    method EndWindow(newLimit: real, missed: bool)
      modifies this`limit, this`idle, this`windowEnd
      ensures limit == newLimit && idle == (old(idle) && !missed) && windowEnd == old(windowEnd) + windowSize
    {
      limit := newLimit;
      if missed {
        idle := false;
      }
      windowEnd := windowEnd + windowSize;
    }
  }

  class I2l {
    const sarc: Sarc
    const avatar: Avatar
    var spare: bool

    ghost function Cfg(): Config {
      Config(sarc.maxToken, avatar.queue.delay)
    }

    ghost function Abs(): State
      reads this, sarc, avatar, avatar.queue
    {
      State(sarc.curToken, sarc.reqQ, avatar.queue.waitQ, avatar.queue.osQ, spare, avatar.idle, avatar.limit)
    }

    ghost predicate Valid()
      reads this, sarc, avatar, avatar.queue
    {
      avatar.queue.degree == -1 && Inv(Cfg(), Abs())
    }

    constructor (maxToken: seq<real>, delay: seq<real>, interval: real, windowSize: real)
      requires |maxToken| == |delay|
      ensures Valid() && Cfg() == Config(maxToken, delay) && Abs() == Init(Cfg(), SAFE_LIMIT)
      ensures fresh(sarc) && fresh(avatar) && fresh(avatar.queue)
    {
      sarc := new Sarc(maxToken, interval);
      avatar := new Avatar(delay, windowSize);
      spare := true;
      new;
      InitIsInv(Cfg(), SAFE_LIMIT);
    }

    /** Lets one request pass, if some application has both a request and a token. */
    method PassOne(ghost s: State) returns (r: Option<Packet>)
      requires avatar.queue.degree == -1 && s == Abs() && Ordered(Cfg(), s)
      modifies sarc`curToken, sarc`reqQ, avatar.queue`waitQ
      ensures r == None <==> Ready(s, 0) == |s.buckets|
      ensures r == None ==> Abs() == s
      ensures r.Some? ==>
                && r.value == s.buckets[Ready(s, 0)][0] && Abs() == Pass(Cfg(), s, Ready(s, 0)) && Ordered(Cfg(), Abs())
                && Queued(sarc.reqQ) < Queued(s.buckets)
    {
      hide InsertByDeadline, ByDeadline, Queued, Ready, Moved, Paid;
      ghost var a;
      r, a := sarc.TryToDispatch();
      FirstReady(s, a);
      if r.Some? {
        QueuedLess(s.buckets, a);
        PassKeeps(Cfg(), s, a);
        avatar.PushWaitQ(r.value);
      }
    }

    /** Lets requests pass until no application has both a request and a token. */
    method DrainBuckets(ghost s: State) returns (ghost passed: seq<Packet>)
      requires avatar.queue.degree == -1 && s == Abs() && Ordered(Cfg(), s)
      modifies sarc`curToken, sarc`reqQ, avatar.queue`waitQ
      ensures (Abs(), passed) == Drain(Cfg(), s)
    {
      hide Pass, Ordered, Queued;
      passed := [];
      ghost var now := s;
      OrderedIsShaped(Cfg(), s);
      NothingBefore(Drain(Cfg(), s).1);
      while true
        invariant now == Abs() && Ordered(Cfg(), now) && Shaped(Cfg(), now)
        invariant (Drain(Cfg(), now).0, passed + Drain(Cfg(), now).1) == Drain(Cfg(), s)
        decreases Queued(sarc.reqQ)
      {
        var r := PassOne(now);
        if r == None {
          break;
        }
        OrderedIsShaped(Cfg(), Abs());
        Associative(passed, [r.value], Drain(Cfg(), Abs()).1);
        now := Abs();
        passed := passed + [r.value];
      }
      NothingBehind(passed);
    }

    static lemma OrderedIsShaped(c: Config, s: State)
      requires Ordered(c, s)
      ensures Shaped(c, s)
    {
    }

    static lemma NothingBefore(x: seq<Packet>)
      ensures [] + x == x
    {
    }

    static lemma NothingBehind(x: seq<Packet>)
      ensures x + [] == x
    {
    }

    static lemma FirstReady(s: State, a: nat)
      requires |s.tokens| == |s.buckets| && a <= |s.buckets|
      requires forall h :: 0 <= h < a ==> s.buckets[h] == [] || s.tokens[h] <= 0.0
      requires a < |s.buckets| ==> s.buckets[a] != [] && s.tokens[a] > 0.0
      ensures Ready(s, 0) == a
    {
    }

    /** A request arrives; the result is what passed to the deadline queue. */
    method PushWaitQ(p: Packet, now: real) returns (ghost passed: seq<Packet>)
      requires Valid() && p.app < |sarc.maxToken|
      modifies sarc`curToken, sarc`reqQ, sarc`nextReplenishment, avatar.queue`waitQ
      ensures Valid() && (Abs(), passed) == Arrive(Cfg(), old(Abs()), p)
    {
      hide ByDeadline, Arrive, OrderOk, PartsOk, TokensOk;
      ArrivalOk(Cfg(), Abs(), p);
      passed := PushState(p, now);
    }

    method PushState(p: Packet, now: real) returns (ghost passed: seq<Packet>)
      requires Valid() && p.app < |sarc.maxToken|
      modifies sarc`curToken, sarc`reqQ, sarc`nextReplenishment, avatar.queue`waitQ
      ensures (Abs(), passed) == Arrive(Cfg(), old(Abs()), p)
    {
      hide InsertByDeadline, ByDeadline, Drain;
      var passes := sarc.NewArrival(p);
      passed := [];
      if passes {
        avatar.PushWaitQ(p);
        passed := [p];
      } else if spare {
        sarc.ReplenishTokens(now);
        passed := DrainBuckets(Abs());
      }
    }

    /** The next request for the server, after a replenishment if it has just become spare. */
    method DispatchNext(now: real) returns (r: Option<Packet>, ghost passed: seq<Packet>)
      requires Valid()
      modifies this`spare, sarc`curToken, sarc`reqQ, sarc`nextReplenishment, avatar`idle, avatar.queue`waitQ, avatar.queue`osQ
      ensures Valid() && (Abs(), r, passed) == Ask(Cfg(), old(Abs()), now)
      ensures Answered(Cfg(), old(Abs()), now, Abs(), r, passed)
    {
      hide ByDeadline, Ask, OrderOk, PartsOk, TokensOk, Answered;
      AskOk(Cfg(), Abs(), now);
      AskIsAnswered(Cfg(), Abs(), now);
      r, passed := DispatchState(now);
    }

    method DispatchState(now: real) returns (r: Option<Packet>, ghost passed: seq<Packet>)
      requires Valid()
      modifies this`spare, sarc`curToken, sarc`reqQ, sarc`nextReplenishment, avatar`idle, avatar.queue`waitQ, avatar.queue`osQ
      ensures (Abs(), r, passed) == Ask(Cfg(), old(Abs()), now)
    {
      hide ByDeadline, Drain, DueBefore;
      SendMoves(Cfg(), Abs(), now);
      passed := [];
      r := avatar.DispatchNext(now);
      if r == None {
        if !spare && avatar.idle {
          sarc.ReplenishTokens(now);
          DrainKeeps(Cfg(), Abs());
          passed := DrainBuckets(Abs());
          r := avatar.DispatchNext(now);
        }
        spare := avatar.idle;
      }
    }

    method PopOsQ(id: nat) returns (r: Option<Packet>)
      requires Valid()
      modifies avatar.queue`osQ
      ensures Valid() && (Abs(), r) == Pop(old(Abs()), id)
    {
      hide ByDeadline;
      r := avatar.PopOsQ(id);
    }

    method QueryJob(id: nat) returns (r: Option<Packet>)
      ensures r == if Find(avatar.queue.osQ, id) < |avatar.queue.osQ| then Some(avatar.queue.osQ[Find(avatar.queue.osQ, id)]) else None
    {
      r := avatar.queue.QueryJob(id);
    }

    /** A timer event: time to replenish, or the end of a window, whichever is due; returns when the next one is. */
    method Notify(now: real, newLimit: real, missed: bool) returns (next: real, ghost passed: seq<Packet>)
      requires Valid()
      modifies sarc`curToken, sarc`reqQ, sarc`nextReplenishment, avatar`limit, avatar`idle, avatar`windowEnd, avatar.queue`waitQ
      ensures Valid()
      ensures if now + MINIMAL >= old(sarc.nextReplenishment) then
                (Abs(), passed) == Replenish(Cfg(), old(Abs())) && sarc.nextReplenishment == now + sarc.interval
              else
                && passed == [] && sarc.nextReplenishment == old(sarc.nextReplenishment)
                && Abs() == if now + MINIMAL >= old(avatar.windowEnd) then Window(old(Abs()), newLimit, missed) else old(Abs())
      ensures next == if sarc.nextReplenishment > avatar.windowEnd then avatar.windowEnd else sarc.nextReplenishment
    {
      hide ByDeadline, Drain;
      passed := [];
      if now + MINIMAL >= sarc.nextReplenishment {
        sarc.ReplenishTokens(now);
        DrainKeeps(Cfg(), Abs());
        passed := DrainBuckets(Abs());
      } else if now + MINIMAL >= avatar.windowEnd {
        avatar.EndWindow(newLimit, missed);
      }
      next := if sarc.nextReplenishment > avatar.windowEnd then avatar.windowEnd else sarc.nextReplenishment;
    }
  }

  // ---------------------------------------------------------------- response times

  /** Conversion of a non-negative number to an integer drops the fraction. */
  function RankIndex(total: nat, rank: real): int {
    (total as real * (1.0 - rank)).Floor
  }

  lemma RankInRange(total: nat, rank: real)
    requires total > 0 && 0.0 < rank <= 1.0
    ensures 0 <= RankIndex(total, rank) < total
  {
    var x := total as real * (1.0 - rank);
    assert x == total as real - total as real * rank;
    assert total as real * rank > 0.0;
    assert x >= 0.0;
  }

  /** The share of the values in front of it is `1 - rank`, rounded down to whole values. */
  lemma RankIsShare(total: nat, rank: real)
    requires total > 0 && 0.0 < rank <= 1.0
    ensures var k := RankIndex(total, rank);
            k as real / total as real <= 1.0 - rank < (k + 1) as real / total as real
  {
    var (k, n, x) := (RankIndex(total, rank), total as real, 1.0 - rank);
    assert k as real <= n * x < (k + 1) as real;
    Quotient(k as real, n, x);
    Quotient((k + 1) as real, n, x);
  }

  lemma Quotient(k: real, n: real, x: real)
    requires n > 0.0
    ensures k / n <= x <==> k <= n * x
    ensures k / n > x <==> k > n * x
  {
    assert k / n * n == k;
  }

  /** The value with `RankIndex` values of at least its size in front of it, by sorting only that far. */
  method GetValueByRank(a: array<real>, total: nat, rank: real) returns (r: real)
    requires total <= a.Length
    modifies a
    ensures multiset(a[..total]) == old(multiset(a[..total])) && a[total..] == old(a[total..])
    ensures total == 0 || !(0.0 < rank <= 1.0) ==> r == 0.0 && a[..] == old(a[..])
    ensures total > 0 && 0.0 < rank <= 1.0 ==>
              var k := RankIndex(total, rank);
              && 0 <= k < total && r in a[k..total]
              && (forall i :: 0 <= i < k ==> a[i] >= r) && (forall i :: k <= i < total ==> a[i] <= r)
  {
    if total == 0 {
      return 0.0;
    }
    if rank > 1.0 || rank <= 0.0 {
      return 0.0;
    }
    hide RankIndex;
    RankInRange(total, rank);
    var rankIndex := RankIndex(total, rank);
    for di := 0 to rankIndex + 1
      invariant multiset(a[..total]) == old(multiset(a[..total])) && a[total..] == old(a[total..])
      invariant forall i, j :: 0 <= i < di && i <= j < total ==> a[i] >= a[j]
      invariant di <= rankIndex
    {
      var (max, maxIndex) := (a[di], di);
      for ci := di + 1 to total
        invariant di <= maxIndex < total && max == a[maxIndex]
        invariant forall j :: di <= j < ci ==> a[j] <= max
        modifies {}
      {
        if max < a[ci] {
          max := a[ci];
          maxIndex := ci;
        }
      }
      if di == rankIndex {
        assert a[maxIndex] in a[di..total];
        return max;
      }
      Swap(a, total, di, maxIndex);
    }
    r := 0.0;
  }

  method Swap(a: array<real>, total: nat, i: nat, j: nat)
    requires i < total <= a.Length && j < total
    modifies a
    ensures a[i] == old(a[j]) && a[j] == old(a[i]) && forall k :: 0 <= k < a.Length && k != i && k != j ==> a[k] == old(a[k])
    ensures multiset(a[..total]) == old(multiset(a[..total])) && a[total..] == old(a[total..])
  {
    ghost var was := a[..total];
    var max := a[j];
    a[j] := a[i];
    a[i] := max;
    assert a[..total] == was[j := was[i]][i := was[j]];
  }
}
