/** The tags under DSFQ-F, which charges the front of a queue, and virtual time under every variant. */
module DsfqFront {
  import opened Options
  import opened FairQueue
  import opened FairShare
  import opened DsfqProxy
  import opened DsfqCluster
  import opened DsfqService

  // ---------------------------------------------------------------- one scheduler

  /** Every waiting job finishes its own size after its start. */
  ghost predicate Exact(c: Config, s: State) {
    && Shaped(c, s)
    && forall a, i :: 0 <= a < |c.weight| && 0 <= i < |s.waitQ[a]| ==> ExactJob(c, a, s.waitQ[a][i])
  }

  ghost predicate ExactJob(c: Config, a: nat, job: Job)
    requires c.Valid() && a < |c.weight|
  {
    job.pkt.app == a && job.ftag == job.stag + job.pkt.size as real / c.weight[a]
  }

  function FrontTag(s: State, a: nat): real
    requires a < |s.waitQ| && s.waitQ[a] != []
  {
    s.waitQ[a][0].stag
  }

  /** Bytes of application `a` that an event dispatches or charges. */
  function Used(c: Config, s: State, e: Event, a: nat): real
    requires Shaped(c, s) && Legal(c, e) && a < |c.weight|
  {
    Bytes(Sent(c, s, e), a) as real + if e.ShiftFront? then e.lengths[a] else 0.0
  }

  lemma StepExact(c: Config, s: State, e: Event)
    requires Exact(c, s) && Legal(c, e) && !e.ShiftBack?
    ensures Exact(c, Step(c, s, e))
  {
    var t := Step(c, s, e);
    forall a, i | 0 <= a < |c.weight| && 0 <= i < |t.waitQ[a]|
      ensures ExactJob(c, a, t.waitQ[a][i])
    {
      if e.Issue? && Dispatched(c, s) == Some(a) {
        assert ExactJob(c, a, s.waitQ[a][i + 1]);
      } else if i < |s.waitQ[a]| {
        assert ExactJob(c, a, s.waitQ[a][i]);
      }
    }
  }

  /** One event moves the front start tag of a backlogged application by what it dispatched or was charged. */
  lemma StepFrontTag(c: Config, s: State, e: Event, a: nat)
    requires Exact(c, s) && Legal(c, e) && !e.ShiftBack? && a < |c.weight|
    requires s.waitQ[a] != [] && Step(c, s, e).waitQ[a] != []
    ensures FrontTag(Step(c, s, e), a) == FrontTag(s, a) + Used(c, s, e, a) / c.weight[a]
  {
    assert ExactJob(c, a, s.waitQ[a][0]);
    DivideZero(c.weight[a]);
    if e.Issue? && Dispatched(c, s).Some? {
      assert ExactJob(c, Dispatched(c, s).value, s.waitQ[Dispatched(c, s).value][0]);
    }
  }

  // ---------------------------------------------------------------- virtual time

  /** No waiting job finishes before it starts, and none in front starts before virtual time. */
  ghost predicate Ahead(c: Config, s: State) {
    && Shaped(c, s)
    && (forall a, i :: 0 <= a < |c.weight| && 0 <= i < |s.waitQ[a]| ==> s.waitQ[a][i].stag <= s.waitQ[a][i].ftag)
    && forall a :: 0 <= a < |c.weight| && s.waitQ[a] != [] ==> s.vtime <= s.waitQ[a][0].stag
  }

  ghost predicate Nonnegative(lengths: seq<real>) {
    forall a :: 0 <= a < |lengths| ==> lengths[a] >= 0.0
  }

  ghost predicate Fair(e: Event) {
    (e.ShiftBack? || e.ShiftFront? ==> Nonnegative(e.lengths))
  }

  lemma NotNegative(x: real, w: real)
    requires x >= 0.0 && w > 0.0
    ensures x / w >= 0.0
  {
  }

  /** Virtual time never falls as long as charges are not negative. */
  lemma StepAhead(c: Config, s: State, e: Event)
    requires Ahead(c, s) && Legal(c, e) && Fair(e)
    ensures Ahead(c, Step(c, s, e)) && s.vtime <= Step(c, s, e).vtime
  {
    match e
    case Arrive(pkt) => NotNegative(pkt.size as real, c.weight[pkt.app]);
    case Issue =>
      ChoiceIsLowestTag(s);
      ServedAhead(c, s);
    case Finish(id) =>
    case ShiftBack(lengths) => ChargedAhead(c, s, lengths);
    case ShiftFront(lengths) => ChargedAhead(c, s, lengths);
  }

  lemma ServedAhead(c: Config, s: State)
    requires Ahead(c, s)
    ensures Ahead(c, Dispatch(c, s)) && s.vtime <= Dispatch(c, s).vtime
  {
    ChoiceIsLowestTag(s);
    if Dispatched(c, s).Some? {
      var (a, t) := (Dispatched(c, s).value, Dispatch(c, s));
      forall b, i | 0 <= b < |c.weight| && 0 <= i < |t.waitQ[b]|
        ensures t.waitQ[b][i].stag <= t.waitQ[b][i].ftag
        ensures i == 0 ==> t.vtime <= t.waitQ[b][0].stag
      {
        assert s.waitQ[b][0].stag <= s.waitQ[b][0].ftag;
        if b == a {
          assert s.waitQ[b][i + 1].stag <= s.waitQ[b][i + 1].ftag;
        }
      }
    }
  }

  lemma ChargedAhead(c: Config, s: State, lengths: seq<real>)
    requires Ahead(c, s) && |lengths| == |c.weight| && Nonnegative(lengths)
    ensures Ahead(c, InsertBack(c, s, lengths)) && Ahead(c, InsertFront(c, s, lengths))
  {
    forall a | 0 <= a < |c.weight|
      ensures Shift(c, lengths, a) >= 0.0
    {
      NotNegative(lengths[a], c.weight[a]);
    }
    hide Shift;
  }

  // ---------------------------------------------------------------- all proxies

  /** Nothing that is told, on its way or still to be told is negative, and every scheduler is ahead. */
  ghost predicate Sensible(c: Config, s: Cluster) {
    && ClusterShaped(c, s)
    && (forall j :: 0 <= j < |s.proxies| ==> Nonnegative(s.proxies[j].unsent) && Ahead(c, s.proxies[j].sched))
    && (forall k :: 0 <= k < |s.flight| ==> Nonnegative(s.flight[k].lengths))
  }

  lemma StartSensible(c: Config, n: nat)
    requires c.Valid()
    ensures Sensible(c, Start(c, n))
  {
    InitHomed(c);
  }

  ghost predicate Kept(s: Cluster, t: Cluster) {
    |t.proxies| == |s.proxies| && forall j :: 0 <= j < |s.proxies| ==> s.proxies[j].sched.vtime <= t.proxies[j].sched.vtime
  }

  lemma AtSensible(c: Config, v: Variant, s: Cluster, j: nat, e: Event)
    requires Sensible(c, s) && Allowed(c, s, At(j, e)) && ClusterShaped(c, AtProxy(c, v, s, j, e))
    ensures Sensible(c, AtProxy(c, v, s, j, e)) && Kept(s, AtProxy(c, v, s, j, e))
  {
    hide Ahead, Step, Homed;
    StepAhead(c, s.proxies[j].sched, e);
  }

  lemma TellSensible(c: Config, s: Cluster, j: nat)
    requires Sensible(c, s) && Allowed(c, s, Propagate(j)) && ClusterShaped(c, Tell(c, s, j))
    ensures Sensible(c, Tell(c, s, j)) && Kept(s, Tell(c, s, j))
  {
    hide Ahead, ClusterShaped;
  }

  lemma CopySensible(c: Config, s: Cluster, k: nat)
    requires Sensible(c, s) && Allowed(c, s, Broadcast(k)) && ClusterShaped(c, Copy(c, s, k))
    ensures Sensible(c, Copy(c, s, k)) && Kept(s, Copy(c, s, k))
  {
    hide Ahead, ClusterShaped;
    CopiesShaped(s.flight[k], 0, |s.proxies|);
  }

  lemma ArrivalSensible(c: Config, v: Variant, s: Cluster, k: nat)
    requires Sensible(c, s) && Allowed(c, s, Deliver(k)) && ClusterShaped(c, Arrival(c, v, s, k))
    ensures Sensible(c, Arrival(c, v, s, k)) && Kept(s, Arrival(c, v, s, k))
  {
    hide Ahead, Step, Homed;
    StepAhead(c, s.proxies[s.flight[k].dst].sched, Charge(v, s.flight[k].lengths));
  }

  lemma MoveSensible(c: Config, v: Variant, s: Cluster, m: Move)
    requires Conserving(c, s) && Sensible(c, s) && Allowed(c, s, m)
    ensures Sensible(c, MoveTo(c, v, s, m)) && Kept(s, MoveTo(c, v, s, m))
  {
    hide Sensible, Kept, AtProxy, Tell, Copy, Arrival;
    MoveShaped(c, v, s, m);
    match m
    case At(j, e) => AtSensible(c, v, s, j, e);
    case Propagate(j) => TellSensible(c, s, j);
    case Broadcast(k) => CopySensible(c, s, k);
    case Deliver(k) => ArrivalSensible(c, v, s, k);
  }

  /** In every run of every variant, virtual time never falls at any proxy. */
  lemma {:induction false} VirtualTimeGrows(c: Config, v: Variant, n: nat, states: seq<Cluster>, moves: seq<Move>,
                                            lo: nat, hi: nat, j: nat)
    requires c.Valid() && IsRun(c, v, states, moves) && states[0] == Start(c, n) && lo <= hi < |states| && j < n
    ensures Sensible(c, states[lo]) && Sensible(c, states[hi]) && |states[lo].proxies| == |states[hi].proxies| == n
    ensures states[lo].proxies[j].sched.vtime <= states[hi].proxies[j].sched.vtime
    decreases hi
  {
    hide MoveTo, Conserving, Sensible;
    if hi == 0 {
      StartSensible(c, n);
      StartSize(c, n);
    } else {
      VirtualTimeGrows(c, v, n, states, moves, if lo < hi then lo else hi - 1, hi - 1, j);
      Conservation(c, v, n, states, moves, hi - 1);
      MoveSensible(c, v, states[hi - 1], moves[hi - 1]);
    }
  }

  lemma StartSize(c: Config, n: nat)
    requires c.Valid()
    ensures |Start(c, n).proxies| == n
  {
  }

  // ---------------------------------------------------------------- the tags of DSFQ-F

  ghost predicate ExactAt(c: Config, s: Cluster, j: nat) {
    j < |s.proxies| && Exact(c, s.proxies[j].sched)
  }

  /** Bytes of application `a` that a move dispatches at proxy `j`. */
  function DispatchedBy(c: Config, s: Cluster, m: Move, j: nat, a: nat): nat
    requires ClusterShaped(c, s) && Allowed(c, s, m) && a < |c.weight|
  {
    if m.At? && m.j == j then Bytes(Sent(c, s.proxies[j].sched, m.e), a) else 0
  }

  lemma MoveExact(c: Config, v: Variant, s: Cluster, m: Move, j: nat)
    requires ClusterShaped(c, s) && Allowed(c, s, m) && v.CountCompletions? && ExactAt(c, s, j)
    ensures ExactAt(c, MoveTo(c, v, s, m), j)
  {
    hide Exact, Homed;
    if m.At? && m.j == j {
      StepExact(c, s.proxies[j].sched, m.e);
    } else if m.Deliver? && s.flight[m.k].dst == j {
      StepExact(c, s.proxies[j].sched, Charge(v, s.flight[m.k].lengths));
    }
  }

  lemma MoveFrontTag(c: Config, v: Variant, s: Cluster, m: Move, j: nat, a: nat)
    requires ClusterShaped(c, s) && Allowed(c, s, m) && v.CountCompletions? && ExactAt(c, s, j) && a < |c.weight|
    requires s.proxies[j].sched.waitQ[a] != [] && MoveTo(c, v, s, m).proxies[j].sched.waitQ[a] != []
    ensures var t := MoveTo(c, v, s, m);
            && |t.charged| == |s.charged| && |t.charged[j]| == |s.charged[j]|
            && FrontTag(t.proxies[j].sched, a) == FrontTag(s.proxies[j].sched, a)
                 + (DispatchedBy(c, s, m, j, a) as real + t.charged[j][a] - s.charged[j][a]) / c.weight[a]
  {
    hide Exact, Homed;
    DivideZero(c.weight[a]);
    if m.At? && m.j == j {
      StepFrontTag(c, s.proxies[j].sched, m.e, a);
    } else if m.Deliver? && s.flight[m.k].dst == j {
      StepFrontTag(c, s.proxies[j].sched, Charge(v, s.flight[m.k].lengths), a);
    }
  }

  /** Bytes of application `a` dispatched at proxy `j` between two states of a run. */
  function DispatchedAt(c: Config, v: Variant, states: seq<Cluster>, moves: seq<Move>, lo: nat, hi: nat, j: nat, a: nat): nat
    requires IsRun(c, v, states, moves) && lo <= hi < |states| && a < |c.weight|
    decreases hi
  {
    if lo == hi then 0
    else DispatchedAt(c, v, states, moves, lo, hi - 1, j, a) + DispatchedBy(c, states[hi - 1], moves[hi - 1], j, a)
  }

  lemma {:induction false} RunExact(c: Config, v: Variant, n: nat, states: seq<Cluster>, moves: seq<Move>, i: nat, j: nat)
    requires c.Valid() && IsRun(c, v, states, moves) && states[0] == Start(c, n) && v.CountCompletions?
    requires i < |states| && j < n
    ensures ClusterShaped(c, states[i]) && ExactAt(c, states[i], j)
  {
    Conservation(c, v, n, states, moves, i);
    hide MoveTo, Conserving, Exact;
    if i > 0 {
      RunExact(c, v, n, states, moves, i - 1, j);
      MoveExact(c, v, states[i - 1], moves[i - 1], j);
    } else {
      StartExact(c, n, j);
    }
  }

  lemma StartExact(c: Config, n: nat, j: nat)
    requires c.Valid() && j < n
    ensures ExactAt(c, Start(c, n), j)
  {
  }

  /** In every run of DSFQ-F, while application `a` stays backlogged at proxy `j`, its front start tag there grows by
      exactly the bytes dispatched there and those charged there by the other proxies, over the weight. */
  lemma {:induction false} FrontService(c: Config, v: Variant, n: nat, states: seq<Cluster>, moves: seq<Move>,
                                        lo: nat, hi: nat, j: nat, a: nat)
    requires c.Valid() && IsRun(c, v, states, moves) && states[0] == Start(c, n) && v.CountCompletions?
    requires j < n && a < |c.weight| && BackloggedAt(states, lo, hi, j, a)
    ensures ClusterShaped(c, states[lo]) && ClusterShaped(c, states[hi])
    ensures FrontTag(states[hi].proxies[j].sched, a) == FrontTag(states[lo].proxies[j].sched, a)
              + (DispatchedAt(c, v, states, moves, lo, hi, j, a) as real
                 + states[hi].charged[j][a] - states[lo].charged[j][a]) / c.weight[a]
    decreases hi
  {
    hide MoveTo, FrontTag, ExactAt, DispatchedBy;
    RunExact(c, v, n, states, moves, lo, j);
    RunExact(c, v, n, states, moves, hi, j);
    if lo == hi {
      DivideZero(c.weight[a]);
    } else {
      var (s, m, t) := (states[hi - 1], moves[hi - 1], states[hi]);
      RunExact(c, v, n, states, moves, hi - 1, j);
      FrontService(c, v, n, states, moves, lo, hi - 1, j, a);
      MoveFrontTag(c, v, s, m, j, a);
      DivideAdds(DispatchedAt(c, v, states, moves, lo, hi - 1, j, a) as real + s.charged[j][a] - states[lo].charged[j][a],
                 DispatchedBy(c, s, m, j, a) as real + t.charged[j][a] - s.charged[j][a], c.weight[a]);
    }
  }
}
