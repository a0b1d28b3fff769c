/** Proportional sharing under SFQ: what the tags guarantee over whole runs. */
module FairShare {
  import opened Options
  import opened FairQueue

  /** The time `size` bytes take an application of weight `w` in virtual time. */
  function Share(size: nat, w: real): (r: real)
    requires w > 0.0
    ensures r >= 0.0
  {
    size as real / w
  }

  lemma ShareZero(w: real)
    requires w > 0.0
    ensures Share(0, w) == 0.0
  {
  }

  lemma ShareAdds(x: nat, y: nat, w: real)
    requires w > 0.0
    ensures Share(x + y, w) == Share(x, w) + Share(y, w)
  {
  }

  lemma ShareGrows(x: nat, y: nat, w: real)
    requires w > 0.0 && x <= y
    ensures Share(x, w) <= Share(y, w)
  {
    ShareAdds(x, y - x, w);
  }

  /** `n` times `x`. */
  function Times(n: nat, x: real): real {
    if n == 0 then 0.0 else Times(n - 1, x) + x
  }

  lemma {:induction false} TimesIsProduct(n: nat, x: real)
    ensures Times(n, x) == n as real * x
  {
    if n > 0 {
      TimesIsProduct(n - 1, x);
      assert n as real * x == (n - 1) as real * x + x;
    }
  }

  lemma {:induction false} TimesAdds(n: nat, x: real, y: real)
    ensures Times(n, x + y) == Times(n, x) + Times(n, y)
  {
    if n > 0 {
      TimesAdds(n - 1, x, y);
    }
  }

  lemma {:induction false} ShareTimes(n: nat, x: nat, w: real)
    requires w > 0.0
    ensures Share(n * x, w) == Times(n, Share(x, w))
  {
    if n > 0 {
      ShareTimes(n - 1, x, w);
      ShareAdds((n - 1) * x, x, w);
      assert n * x == (n - 1) * x + x;
    }
  }

  // ---------------------------------------------------------------- runs of a plain SFQ scheduler

  /** Arrivals of at most `cap[a]` bytes for application `a`, dispatches and completions. */
  ghost predicate Plain(c: Config, cap: seq<nat>, e: Event) {
    match e
    case Arrive(pkt) => pkt.app < |c.weight| && pkt.app < |cap| && pkt.size <= cap[pkt.app]
    case ShiftBack(_) => false
    case ShiftFront(_) => false
    case _ => true
  }

  ghost predicate PlainRun(c: Config, cap: seq<nat>, es: seq<Event>) {
    LegalRun(c, es) && forall i :: 0 <= i < |es| ==> Plain(c, cap, es[i])
  }

  function Depth(c: Config): nat {
    if c.degree < 0 then 0 else c.degree
  }

  // ---------------------------------------------------------------- the invariant

  ghost predicate Sized(c: Config, cap: seq<nat>, a: nat, job: Job)
    requires c.Valid() && a < |c.weight| == |cap|
  {
    && job.pkt.app == a && job.pkt.size <= cap[a]
    && job.ftag == job.stag + Share(job.pkt.size, c.weight[a])
  }

  /** The front of a backlogged queue starts no earlier than now and at most one job later. */
  ghost predicate InWindow(c: Config, cap: seq<nat>, s: State, a: nat)
    requires Shaped(c, s) && a < |c.weight| == |cap|
  {
    && (s.waitQ[a] != [] ==>
          s.vtime <= s.waitQ[a][0].stag <= s.vtime + Share(cap[a], c.weight[a]))
    && s.maxftags[a] <= s.vtime + Share(cap[a], c.weight[a])
  }

  ghost predicate Inv(c: Config, cap: seq<nat>, s: State) {
    && Shaped(c, s)
    && |cap| == |c.weight|
    && (forall a, i :: 0 <= a < |c.weight| && 0 <= i < |s.waitQ[a]| ==> Sized(c, cap, a, s.waitQ[a][i]))
    && (forall a :: 0 <= a < |c.weight| ==> InWindow(c, cap, s, a) && Chained(s.waitQ[a]))
    && (forall i :: 0 <= i < |s.osQ| ==>
         s.osQ[i].pkt.app < |cap| && s.osQ[i].pkt.size <= cap[s.osQ[i].pkt.app])
    && |s.osQ| <= Depth(c)
  }

  lemma InitInv(c: Config, cap: seq<nat>)
    requires c.Valid() && |cap| == |c.weight|
    ensures Inv(c, cap, Init(c))
  {
  }

  lemma PushInv(c: Config, cap: seq<nat>, s: State, pkt: Packet)
    requires Inv(c, cap, s) && Plain(c, cap, Arrive(pkt))
    ensures Inv(c, cap, Push(c, s, pkt))
  {
    var t := Push(c, s, pkt);
    forall a | 0 <= a < |c.weight|
      ensures InWindow(c, cap, t, a) && Chained(t.waitQ[a])
    {
      assert InWindow(c, cap, s, a) && Chained(s.waitQ[a]);
    }
  }

  /** Serving the lowest tag `v` keeps every other window, which only had to reach back to `v`. */
  lemma ServeWindow(c: Config, cap: seq<nat>, s: State, a: nat, b: nat)
    requires Inv(c, cap, s) && Choice(s) == Some(a) && b < |c.weight|
    ensures InWindow(c, cap, Serve(s, a), b)
    ensures s.vtime <= Serve(s, a).vtime
  {
    hide Share;
    ChoiceIsLowestTag(s);
    assert InWindow(c, cap, s, a) && InWindow(c, cap, s, b);
    var job := s.waitQ[a][0];
    assert Sized(c, cap, a, job);
    ShareGrows(job.pkt.size, cap[a], c.weight[a]);
  }

  lemma ServeInv(c: Config, cap: seq<nat>, s: State, a: nat)
    requires Inv(c, cap, s) && Choice(s) == Some(a) && |s.osQ| < c.degree
    ensures Inv(c, cap, Serve(s, a))
    ensures s.vtime <= Serve(s, a).vtime
  {
    hide Share;
    var t := Serve(s, a);
    forall b, i | 0 <= b < |c.weight| && 0 <= i < |t.waitQ[b]|
      ensures Sized(c, cap, b, t.waitQ[b][i])
    {
      assert Sized(c, cap, b, s.waitQ[b][if b == a then i + 1 else i]);
    }
    forall b | 0 <= b < |c.weight|
      ensures InWindow(c, cap, t, b) && Chained(t.waitQ[b])
    {
      ServeWindow(c, cap, s, a, b);
      assert Chained(s.waitQ[b]);
    }
    ServeWindow(c, cap, s, a, a);
    assert Sized(c, cap, a, s.waitQ[a][0]);
  }

  lemma PopInv(c: Config, cap: seq<nat>, s: State, id: int)
    requires Inv(c, cap, s)
    ensures Inv(c, cap, Pop(s, id))
  {
    hide Share;
    var t := Pop(s, id);
    forall a | 0 <= a < |c.weight|
      ensures InWindow(c, cap, t, a) && Chained(t.waitQ[a])
    {
      assert InWindow(c, cap, s, a) && Chained(s.waitQ[a]);
    }
  }

  lemma StepInv(c: Config, cap: seq<nat>, s: State, e: Event)
    requires Inv(c, cap, s) && Plain(c, cap, e)
    ensures Inv(c, cap, Step(c, s, e))
    ensures s.vtime <= Step(c, s, e).vtime
  {
    match e
    case Arrive(pkt) => PushInv(c, cap, s, pkt);
    case Issue =>
      if Dispatched(c, s).Some? {
        ServeInv(c, cap, s, Dispatched(c, s).value);
      }
    case Finish(id) => PopInv(c, cap, s, id);
  }

  /** The window around virtual time, the chain of tags, the job sizes and the depth limit hold in every reachable
      state, and virtual time never goes back. */
  lemma {:induction false} RunInv(c: Config, cap: seq<nat>, s: State, es: seq<Event>)
    requires Inv(c, cap, s) && PlainRun(c, cap, es)
    ensures Inv(c, cap, Run(c, s, es))
    ensures s.vtime <= Run(c, s, es).vtime
    decreases |es|
  {
    hide Share;
    if es != [] {
      StepInv(c, cap, s, es[0]);
      RunInv(c, cap, Step(c, s, es[0]), es[1..]);
    }
  }

  // ---------------------------------------------------------------- dispatched work

  /** Bytes of application `a` among the packet an event sent, if any. */
  function Bytes(sent: Option<Packet>, a: nat): nat {
    if sent.Some? && sent.value.app == a then sent.value.size else 0
  }

  /** Bytes of application `a` dispatched over a run. */
  function Work(c: Config, s: State, es: seq<Event>, a: nat): nat
    requires Shaped(c, s) && LegalRun(c, es)
    decreases |es|
  {
    if es == [] then 0 else Bytes(Sent(c, s, es[0]), a) + Work(c, Step(c, s, es[0]), es[1..], a)
  }

  /** Application `a` has a waiting job before and after every event of the run. */
  ghost predicate Backlogged(c: Config, s: State, es: seq<Event>, a: nat)
    requires Shaped(c, s) && LegalRun(c, es) && a < |c.weight|
    decreases |es|
  {
    s.waitQ[a] != [] && (es == [] || Backlogged(c, Step(c, s, es[0]), es[1..], a))
  }

  /** One event moves the front tag of a backlogged application by exactly the work it got. */
  lemma StepAdvances(c: Config, cap: seq<nat>, s: State, e: Event, a: nat)
    requires Inv(c, cap, s) && Plain(c, cap, e) && a < |c.weight|
    requires s.waitQ[a] != [] && Step(c, s, e).waitQ[a] != []
    ensures Step(c, s, e).waitQ[a][0].stag == s.waitQ[a][0].stag + Share(Bytes(Sent(c, s, e), a), c.weight[a])
  {
    if e.Issue? && Dispatched(c, s).Some? {
      var b := Dispatched(c, s).value;
      assert Sized(c, cap, b, s.waitQ[b][0]);
    }
  }

  /** Finish-to-start chaining: while backlogged, the front tag advances by work over weight. */
  lemma {:induction false} TagAdvances(c: Config, cap: seq<nat>, s: State, es: seq<Event>, a: nat)
    requires Inv(c, cap, s) && PlainRun(c, cap, es) && a < |c.weight|
    requires Backlogged(c, s, es, a)
    ensures Run(c, s, es).waitQ[a] != []
    ensures Run(c, s, es).waitQ[a][0].stag == s.waitQ[a][0].stag + Share(Work(c, s, es, a), c.weight[a])
    decreases |es|
  {
    hide Share;
    if es == [] {
      ShareZero(c.weight[a]);
    } else {
      StepInv(c, cap, s, es[0]);
      StepAdvances(c, cap, s, es[0], a);
      TagAdvances(c, cap, Step(c, s, es[0]), es[1..], a);
      ShareAdds(Bytes(Sent(c, s, es[0]), a), Work(c, Step(c, s, es[0]), es[1..], a), c.weight[a]);
    }
  }

  function Abs(x: real): real {
    if x < 0.0 then -x else x
  }

  /** How far the service given to two applications is from the ratio of their weights. */
  function Imbalance(c: Config, x: nat, f: nat, y: nat, g: nat): real
    requires c.Valid() && f < |c.weight| && g < |c.weight|
  {
    Abs(Share(x, c.weight[f]) - Share(y, c.weight[g]))
  }

  /** SFQ fairness: over any stretch `es` of any run, the work dispatched for two applications that
      stay backlogged differs, weight for weight, by at most one job of each. */
  lemma Fairness(c: Config, cap: seq<nat>, before: seq<Event>, es: seq<Event>, f: nat, g: nat)
    requires c.Valid() && |cap| == |c.weight| && f < |cap| && g < |cap|
    requires PlainRun(c, cap, before) && PlainRun(c, cap, es)
    requires Backlogged(c, Run(c, Init(c), before), es, f)
    requires Backlogged(c, Run(c, Init(c), before), es, g)
    ensures var s := Run(c, Init(c), before);
            Imbalance(c, Work(c, s, es, f), f, Work(c, s, es, g), g)
              <= Share(cap[f], c.weight[f]) + Share(cap[g], c.weight[g])
  {
    hide Share;
    var s := Run(c, Init(c), before);
    InitInv(c, cap);
    RunInv(c, cap, Init(c), before);
    RunInv(c, cap, s, es);
    TagAdvances(c, cap, s, es, f);
    TagAdvances(c, cap, s, es, g);
    var t := Run(c, s, es);
    assert InWindow(c, cap, s, f) && InWindow(c, cap, s, g);
    assert InWindow(c, cap, t, f) && InWindow(c, cap, t, g);
  }

  // ---------------------------------------------------------------- completed work

  /** Bytes of application `a` completed by one event. */
  function Returned(s: State, e: Event, a: nat): nat {
    if e.Finish? && FindJob(s.osQ, e.id).Some? && s.osQ[FindJob(s.osQ, e.id).value].pkt.app == a
    then s.osQ[FindJob(s.osQ, e.id).value].pkt.size else 0
  }

  function Completed(c: Config, s: State, es: seq<Event>, a: nat): nat
    requires Shaped(c, s) && LegalRun(c, es)
    decreases |es|
  {
    if es == [] then 0 else Returned(s, es[0], a) + Completed(c, Step(c, s, es[0]), es[1..], a)
  }

  /** Bytes of application `a` at the server. */
  function Outstanding(osQ: seq<Job>, a: nat): nat {
    if osQ == [] then 0
    else Bytes(Some(osQ[0].pkt), a) + Outstanding(osQ[1..], a)
  }

  lemma {:induction false} OutstandingSplits(p: seq<Job>, q: seq<Job>, a: nat)
    ensures Outstanding(p + q, a) == Outstanding(p, a) + Outstanding(q, a)
  {
    if p == [] {
      assert p + q == q;
    } else {
      OutstandingSplits(p[1..], q, a);
      assert (p + q)[1..] == p[1..] + q;
    }
  }

  lemma {:induction false} OutstandingBounded(osQ: seq<Job>, a: nat, cap: nat)
    requires forall i :: 0 <= i < |osQ| && osQ[i].pkt.app == a ==> osQ[i].pkt.size <= cap
    ensures Outstanding(osQ, a) <= |osQ| * cap
  {
    if osQ != [] {
      OutstandingBounded(osQ[1..], a, cap);
      assert |osQ| * cap == |osQ[1..]| * cap + cap;
    }
  }

  /** Every dispatched byte is at the server or has been completed. */
  lemma StepConserves(c: Config, s: State, e: Event, a: nat)
    requires Shaped(c, s) && Legal(c, e)
    ensures Outstanding(Step(c, s, e).osQ, a) + Returned(s, e, a)
         == Outstanding(s.osQ, a) + Bytes(Sent(c, s, e), a)
  {
    match e
    case Issue =>
      if Dispatched(c, s).Some? {
        var job := s.waitQ[Dispatched(c, s).value][0];
        OutstandingSplits(s.osQ, [job], a);
      }
    case Finish(id) =>
      var found := FindJob(s.osQ, id);
      if found.Some? {
        var k := found.value;
        assert s.osQ == s.osQ[..k] + ([s.osQ[k]] + s.osQ[k + 1..]);
        OutstandingSplits(s.osQ[..k], [s.osQ[k]] + s.osQ[k + 1..], a);
        OutstandingSplits([s.osQ[k]], s.osQ[k + 1..], a);
        OutstandingSplits(s.osQ[..k], s.osQ[k + 1..], a);
      }
    case _ =>
  }

  lemma {:induction false} RunConserves(c: Config, cap: seq<nat>, s: State, es: seq<Event>, a: nat)
    requires Inv(c, cap, s) && PlainRun(c, cap, es)
    ensures Outstanding(Run(c, s, es).osQ, a) + Completed(c, s, es, a)
         == Outstanding(s.osQ, a) + Work(c, s, es, a)
    decreases |es|
  {
    if es != [] {
      StepInv(c, cap, s, es[0]);
      StepConserves(c, s, es[0], a);
      RunConserves(c, cap, Step(c, s, es[0]), es[1..], a);
    }
  }

  /** At most `degree` jobs are at the server, so at most that many jobs' worth of bytes. */
  lemma ServerShare(c: Config, cap: seq<nat>, s: State, a: nat)
    requires Inv(c, cap, s) && a < |cap|
    ensures Share(Outstanding(s.osQ, a), c.weight[a]) <= Times(Depth(c), Share(cap[a], c.weight[a]))
  {
    hide Share, Times;
    OutstandingBounded(s.osQ, a, cap[a]);
    assert |s.osQ| * cap[a] <= Depth(c) * cap[a];
    ShareGrows(Outstanding(s.osQ, a), Depth(c) * cap[a], c.weight[a]);
    ShareTimes(Depth(c), cap[a], c.weight[a]);
  }

  /** SFQ(D) fairness: the same statement for completed work, weakened by the jobs at the server. */
  lemma CompletedFairness(c: Config, cap: seq<nat>, before: seq<Event>, es: seq<Event>, f: nat, g: nat)
    requires c.Valid() && |cap| == |c.weight| && f < |cap| && g < |cap|
    requires PlainRun(c, cap, before) && PlainRun(c, cap, es)
    requires Backlogged(c, Run(c, Init(c), before), es, f)
    requires Backlogged(c, Run(c, Init(c), before), es, g)
    ensures var s := Run(c, Init(c), before);
            Imbalance(c, Completed(c, s, es, f), f, Completed(c, s, es, g), g)
              <= Times(Depth(c) + 1, Share(cap[f], c.weight[f]) + Share(cap[g], c.weight[g]))
  {
    hide Share;
    Fairness(c, cap, before, es, f, g);
    InitInv(c, cap);
    RunInv(c, cap, Init(c), before);
    CompletedImbalance(c, cap, Run(c, Init(c), before), es, f, g);
  }

  lemma CompletedImbalance(c: Config, cap: seq<nat>, s: State, es: seq<Event>, f: nat, g: nat)
    requires Inv(c, cap, s) && PlainRun(c, cap, es) && f < |cap| && g < |cap|
    requires Imbalance(c, Work(c, s, es, f), f, Work(c, s, es, g), g)
               <= Share(cap[f], c.weight[f]) + Share(cap[g], c.weight[g])
    ensures Imbalance(c, Completed(c, s, es, f), f, Completed(c, s, es, g), g)
              <= Times(Depth(c) + 1, Share(cap[f], c.weight[f]) + Share(cap[g], c.weight[g]))
  {
    hide Share, Times;
    CompletedShare(c, cap, s, es, f);
    CompletedShare(c, cap, s, es, g);
    WithSlack(
      Share(Work(c, s, es, f), c.weight[f]), Share(Work(c, s, es, g), c.weight[g]),
      Share(Completed(c, s, es, f), c.weight[f]), Share(Completed(c, s, es, g), c.weight[g]),
      Depth(c), Share(cap[f], c.weight[f]), Share(cap[g], c.weight[g]));
  }

  lemma WithSlack(sentF: real, sentG: real, doneF: real, doneG: real, d: nat, x: real, y: real)
    requires Abs(sentF - sentG) <= x + y
    requires sentF - Times(d, x) <= doneF <= sentF + Times(d, x)
    requires sentG - Times(d, y) <= doneG <= sentG + Times(d, y)
    ensures Abs(doneF - doneG) <= Times(d + 1, x + y)
  {
    TimesAdds(d, x, y);
  }

  /** Completed work is dispatched work, give or take what fits at the server. */
  lemma CompletedShare(c: Config, cap: seq<nat>, s: State, es: seq<Event>, a: nat)
    requires Inv(c, cap, s) && PlainRun(c, cap, es) && a < |cap|
    ensures var slack := Times(Depth(c), Share(cap[a], c.weight[a]));
            var (done, sent) := (Share(Completed(c, s, es, a), c.weight[a]), Share(Work(c, s, es, a), c.weight[a]));
            sent - slack <= done <= sent + slack
  {
    hide Share, Times, Run, Work, Completed, Outstanding;
    RunInv(c, cap, s, es);
    RunConserves(c, cap, s, es, a);
    ServerShare(c, cap, s, a);
    ServerShare(c, cap, Run(c, s, es), a);
    ShareAdds(Outstanding(Run(c, s, es).osQ, a), Completed(c, s, es, a), c.weight[a]);
    ShareAdds(Outstanding(s.osQ, a), Work(c, s, es, a), c.weight[a]);
  }
}
