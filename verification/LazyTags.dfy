/** DSFQ's lazy tag repair refines the obvious scheduler: a charge taken by the front job alone, with the
    next job's tags fixed when it is reached, is indistinguishable from charging every queued job at once. */
module LazyTags {
  import opened Options
  import opened FairQueue

  // ---------------------------------------------------------------- the eager reference scheduler

  function Moved(job: Job, shift: real): Job {
    job.(stag := job.stag + shift, ftag := job.ftag + shift)
  }

  function ChargeAll(queue: seq<Job>, shift: real): (r: seq<Job>)
    ensures |r| == |queue| && forall i :: 0 <= i < |r| ==> r[i] == Moved(queue[i], shift)
  {
    seq(|queue|, i requires 0 <= i < |queue| => Moved(queue[i], shift))
  }

  /** Charges every queued job at once. */
  function EagerInsertFront(c: Config, s: State, lengths: seq<real>): State
    requires Shaped(c, s) && |lengths| == |c.weight|
  {
    s.(waitQ := seq(|c.weight|, a requires 0 <= a < |c.weight| => ChargeAll(s.waitQ[a], Shift(c, lengths, a))),
       maxftags := ChargedTags(c, s, lengths))
  }

  /** Takes the front job into service and leaves the other jobs' tags alone. */
  function EagerServe(s: State, a: nat): State
    requires a < |s.waitQ| == |s.maxftags| && s.waitQ[a] != []
  {
    var job := s.waitQ[a][0];
    State(
      s.waitQ[a := s.waitQ[a][1..]],
      s.osQ + [job],
      if s.waitQ[a][1..] == [] then s.maxftags[a := job.ftag] else s.maxftags,
      job.stag,
      if a + 1 >= |s.waitQ| then 0 else a + 1)
  }

  function EagerStep(c: Config, s: State, e: Event): (t: State)
    requires Shaped(c, s) && Legal(c, e)
    ensures Shaped(c, t)
  {
    match e
    case Issue => if Dispatched(c, s).Some? then EagerServe(s, Dispatched(c, s).value) else s
    case ShiftFront(lengths) => EagerInsertFront(c, s, lengths)
    case _ => Step(c, s, e)
  }

  // ---------------------------------------------------------------- the simulation

  /** The lazy queue has the reference's front; its other jobs are all `lag` behind. */
  ghost predicate Behind(lazy: seq<Job>, eager: seq<Job>, lag: real) {
    && |lazy| == |eager|
    && (lazy != [] ==> lazy[0] == eager[0])
    && forall i :: 0 < i < |lazy| ==> Moved(lazy[i], lag) == eager[i]
  }

  ghost predicate Lagging(lazy: seq<Job>, eager: seq<Job>) {
    Chained(eager) && exists lag :: Behind(lazy, eager, lag)
  }

  ghost predicate Simulates(c: Config, lazy: State, eager: State) {
    && Shaped(c, lazy) && Shaped(c, eager)
    && lazy.osQ == eager.osQ && lazy.maxftags == eager.maxftags
    && lazy.vtime == eager.vtime && lazy.startpos == eager.startpos
    && forall a :: 0 <= a < |c.weight| ==> Lagging(lazy.waitQ[a], eager.waitQ[a])
  }

  lemma PushLags(lazy: seq<Job>, eager: seq<Job>, job: Job)
    requires Lagging(lazy, eager)
    requires eager != [] ==> job.stag == lazy[|lazy| - 1].ftag
    ensures var start := if eager == [] then job.stag else eager[|eager| - 1].ftag;
            Lagging(lazy + [job], eager + [Moved(job, start - job.stag)])
  {
    var lag :| Behind(lazy, eager, lag);
    var start := if eager == [] then job.stag else eager[|eager| - 1].ftag;
    assert Behind(lazy + [job], eager + [Moved(job, start - job.stag)], if |eager| == 1 then 0.0 else lag);
  }

  lemma ServeLags(lazy: seq<Job>, eager: seq<Job>)
    requires Lagging(lazy, eager) && |lazy| > 1
    ensures Lagging([Repaired(lazy[0], lazy[1])] + lazy[2..], eager[1..])
  {
    var lag :| Behind(lazy, eager, lag);
    assert Behind([Repaired(lazy[0], lazy[1])] + lazy[2..], eager[1..], lag);
  }

  lemma ChargeBackLags(lazy: seq<Job>, eager: seq<Job>, shift: real)
    requires Lagging(lazy, eager)
    ensures Lagging(ChargeBack(lazy, shift), ChargeBack(eager, shift))
  {
    var lag :| Behind(lazy, eager, lag);
    assert Behind(ChargeBack(lazy, shift), ChargeBack(eager, shift), lag);
  }

  lemma ChargeFrontLags(lazy: seq<Job>, eager: seq<Job>, shift: real)
    requires Lagging(lazy, eager)
    ensures Lagging(ChargeFront(lazy, shift), ChargeAll(eager, shift))
  {
    var lag :| Behind(lazy, eager, lag);
    assert Behind(ChargeFront(lazy, shift), ChargeAll(eager, shift), lag + shift);
  }

  lemma ScanAgrees(p: seq<seq<Job>>, q: seq<seq<Job>>, startpos: nat, k: nat)
    requires startpos < |p| == |q| && k <= |p|
    requires forall a :: 0 <= a < |p| ==> |p[a]| == |q[a]| && (p[a] != [] ==> p[a][0] == q[a][0])
    ensures Scan(p, startpos, k) == Scan(q, startpos, k)
  {
  }

  lemma DispatchAgrees(c: Config, lazy: State, eager: State)
    requires Simulates(c, lazy, eager)
    ensures Dispatched(c, lazy) == Dispatched(c, eager)
    ensures Sent(c, lazy, Issue) == Sent(c, eager, Issue)
  {
    forall a | 0 <= a < |lazy.waitQ|
      ensures |lazy.waitQ[a]| == |eager.waitQ[a]| && (lazy.waitQ[a] != [] ==> lazy.waitQ[a][0] == eager.waitQ[a][0])
    {
      assert Lagging(lazy.waitQ[a], eager.waitQ[a]);
    }
    ScanAgrees(lazy.waitQ, eager.waitQ, lazy.startpos, |lazy.waitQ|);
  }

  lemma IssueSimulates(c: Config, lazy: State, eager: State)
    requires Simulates(c, lazy, eager)
    ensures Simulates(c, Step(c, lazy, Issue), EagerStep(c, eager, Issue))
  {
    DispatchAgrees(c, lazy, eager);
    if Dispatched(c, lazy).Some? {
      var b := Dispatched(c, lazy).value;
      assert Lagging(lazy.waitQ[b], eager.waitQ[b]);
      if |lazy.waitQ[b]| > 1 {
        ServeLags(lazy.waitQ[b], eager.waitQ[b]);
        assert lazy.waitQ[b][1..][1..] == lazy.waitQ[b][2..];
      } else {
        assert Behind([], [], 0.0);
      }
    }
  }

  lemma ArriveSimulates(c: Config, lazy: State, eager: State, pkt: Packet)
    requires Simulates(c, lazy, eager) && pkt.app < |c.weight|
    ensures Simulates(c, Push(c, lazy, pkt), Push(c, eager, pkt))
  {
    var a := pkt.app;
    assert Lagging(lazy.waitQ[a], eager.waitQ[a]);
    var job := Push(c, lazy, pkt).waitQ[a][|lazy.waitQ[a]|];
    PushLags(lazy.waitQ[a], eager.waitQ[a], job);
  }

  lemma ShiftSimulates(c: Config, lazy: State, eager: State, e: Event)
    requires Simulates(c, lazy, eager) && Legal(c, e) && (e.ShiftBack? || e.ShiftFront?)
    ensures Simulates(c, Step(c, lazy, e), EagerStep(c, eager, e))
  {
    var (p, q) := (Step(c, lazy, e), EagerStep(c, eager, e));
    forall a | 0 <= a < |c.weight|
      ensures Lagging(p.waitQ[a], q.waitQ[a]) && p.maxftags[a] == q.maxftags[a]
    {
      assert Lagging(lazy.waitQ[a], eager.waitQ[a]);
      ChargeBackLags(lazy.waitQ[a], eager.waitQ[a], Shift(c, e.lengths, a));
      ChargeFrontLags(lazy.waitQ[a], eager.waitQ[a], Shift(c, e.lengths, a));
    }
  }

  lemma StepSimulates(c: Config, lazy: State, eager: State, e: Event)
    requires Simulates(c, lazy, eager) && Legal(c, e)
    ensures Simulates(c, Step(c, lazy, e), EagerStep(c, eager, e))
    ensures Sent(c, lazy, e) == Sent(c, eager, e)
  {
    match e
    case Arrive(pkt) => ArriveSimulates(c, lazy, eager, pkt);
    case Issue => IssueSimulates(c, lazy, eager); DispatchAgrees(c, lazy, eager);
    case Finish(_) =>
    case _ => ShiftSimulates(c, lazy, eager, e);
  }

  // ---------------------------------------------------------------- what an observer sees

  /** One observation per event: the packet sent, virtual time, and the front job of every queue. */
  datatype Seen = Seen(sent: Option<Packet>, vtime: real, fronts: seq<Option<Job>>)

  function Fronts(s: State): seq<Option<Job>> {
    seq(|s.waitQ|, a requires 0 <= a < |s.waitQ| => if s.waitQ[a] == [] then None else Some(s.waitQ[a][0]))
  }

  function LazyTrace(c: Config, s: State, es: seq<Event>): seq<Seen>
    requires Shaped(c, s) && LegalRun(c, es)
    decreases |es|
  {
    if es == [] then []
    else
      var t := Step(c, s, es[0]);
      [Seen(Sent(c, s, es[0]), t.vtime, Fronts(t))] + LazyTrace(c, t, es[1..])
  }

  function EagerTrace(c: Config, s: State, es: seq<Event>): seq<Seen>
    requires Shaped(c, s) && LegalRun(c, es)
    decreases |es|
  {
    if es == [] then []
    else
      var t := EagerStep(c, s, es[0]);
      [Seen(Sent(c, s, es[0]), t.vtime, Fronts(t))] + EagerTrace(c, t, es[1..])
  }

  lemma FrontsAgree(c: Config, lazy: State, eager: State)
    requires Simulates(c, lazy, eager)
    ensures Fronts(lazy) == Fronts(eager)
  {
    forall a | 0 <= a < |c.weight|
      ensures Fronts(lazy)[a] == Fronts(eager)[a]
    {
      assert Lagging(lazy.waitQ[a], eager.waitQ[a]);
    }
  }

  lemma {:induction false} TracesAgree(c: Config, lazy: State, eager: State, es: seq<Event>)
    requires Simulates(c, lazy, eager) && LegalRun(c, es)
    ensures LazyTrace(c, lazy, es) == EagerTrace(c, eager, es)
    decreases |es|
  {
    if es != [] {
      StepSimulates(c, lazy, eager, es[0]);
      FrontsAgree(c, Step(c, lazy, es[0]), EagerStep(c, eager, es[0]));
      TracesAgree(c, Step(c, lazy, es[0]), EagerStep(c, eager, es[0]), es[1..]);
    }
  }

  /** From a fresh scheduler, for every interleaving of arrivals, dispatches, completions and charges of
      either kind, the lazy scheduler and the reference send the same packets in the same order and show
      the same virtual time and the same front tags throughout. */
  lemma LazyRepairIsExact(c: Config, es: seq<Event>)
    requires c.Valid() && LegalRun(c, es)
    ensures LazyTrace(c, Init(c), es) == EagerTrace(c, Init(c), es)
  {
    forall a | 0 <= a < |c.weight|
      ensures Lagging(Init(c).waitQ[a], Init(c).waitQ[a])
    {
      assert Behind([], [], 0.0);
    }
    TracesAgree(c, Init(c), Init(c), es);
  }
}
