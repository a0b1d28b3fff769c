/** What the charges achieve: under the variants that charge the back of a queue, the finish tag of a
    backlogged application follows its service at all proxies, not just its own. */
module DsfqService {
  import opened Options
  import opened FairQueue
  import opened FairShare
  import opened LazyTags
  import opened DsfqProxy
  import opened DsfqCluster

  // ---------------------------------------------------------------- one scheduler

  /** Every queued job starts where the one before it finishes. */
  ghost predicate AllChained(s: State) {
    forall a :: 0 <= a < |s.waitQ| ==> Chained(s.waitQ[a])
  }

  /** Bytes of application `a` an event adds to its last finish tag: an arrival's own, or a charge's. */
  function Added(c: Config, e: Event, a: nat): real
    requires Legal(c, e) && a < |c.weight|
  {
    match e
    case Arrive(pkt) => if pkt.app == a then pkt.size as real else 0.0
    case ShiftBack(lengths) => lengths[a]
    case _ => 0.0
  }

  function BackTag(s: State, a: nat): real
    requires a < |s.waitQ| && s.waitQ[a] != []
  {
    s.waitQ[a][|s.waitQ[a]| - 1].ftag
  }

  /** Chained queues stay chained as long as nobody is charged at the front, so the repair at dispatch
      changes nothing. */
  lemma StepChained(c: Config, s: State, e: Event)
    requires Shaped(c, s) && AllChained(s) && Legal(c, e) && !e.ShiftFront?
    ensures AllChained(Step(c, s, e))
  {
    var t := Step(c, s, e);
    forall a | 0 <= a < |t.waitQ|
      ensures Chained(t.waitQ[a])
    {
      assert Chained(s.waitQ[a]);
    }
  }

  lemma StepBackTag(c: Config, s: State, e: Event, a: nat)
    requires Shaped(c, s) && AllChained(s) && Legal(c, e) && !e.ShiftFront? && a < |c.weight|
    requires s.waitQ[a] != [] && Step(c, s, e).waitQ[a] != []
    ensures BackTag(Step(c, s, e), a) == BackTag(s, a) + Added(c, e, a) / c.weight[a]
  {
    assert Chained(s.waitQ[a]);
    assert 0.0 / c.weight[a] == 0.0;
  }

  // ---------------------------------------------------------------- all proxies

  /** Bytes of application `a` that one move adds at proxy `j` by an arrival there. */
  function PushedBy(m: Move, j: nat, a: nat): real {
    if m.At? && m.j == j && m.e.Arrive? && m.e.pkt.app == a then m.e.pkt.size as real else 0.0
  }

  function Pushed(moves: seq<Move>, j: nat, a: nat): real {
    if moves == [] then 0.0
    else Pushed(moves[..|moves| - 1], j, a) + PushedBy(moves[|moves| - 1], j, a)
  }

  /** Service of application `a` counted at the proxies other than `j`, less what has not reached `j`. */
  function Heard(c: Config, s: Cluster, j: nat, a: nat): real
    requires ClusterShaped(c, s) && j < |s.proxies| && a < |c.weight|
  {
    Others(s.counted, j, a) - InFlight(s.flight, j, a) - Others(Unsent(s), j, a)
  }

  ghost predicate ChainedAt(s: Cluster, j: nat) {
    j < |s.proxies| && AllChained(s.proxies[j].sched)
  }

  lemma MoveChained(c: Config, v: Variant, s: Cluster, m: Move, j: nat)
    requires ClusterShaped(c, s) && Allowed(c, s, m) && !v.CountCompletions? && ChainedAt(s, j)
    ensures ChainedAt(MoveTo(c, v, s, m), j)
  {
    if m.At? && m.j == j {
      StepChained(c, s.proxies[j].sched, m.e);
    } else if m.Deliver? && s.flight[m.k].dst == j {
      StepChained(c, s.proxies[j].sched, Charge(v, s.flight[m.k].lengths));
    }
  }

  lemma MoveBackTag(c: Config, v: Variant, s: Cluster, m: Move, j: nat, a: nat)
    requires ClusterShaped(c, s) && Allowed(c, s, m) && !v.CountCompletions? && ChainedAt(s, j) && a < |c.weight|
    requires s.proxies[j].sched.waitQ[a] != [] && MoveTo(c, v, s, m).proxies[j].sched.waitQ[a] != []
    ensures var t := MoveTo(c, v, s, m);
            && |t.charged| == |s.charged| && |t.charged[j]| == |s.charged[j]|
            && BackTag(t.proxies[j].sched, a) == BackTag(s.proxies[j].sched, a)
                 + (PushedBy(m, j, a) + t.charged[j][a] - s.charged[j][a]) / c.weight[a]
  {
    assert 0.0 / c.weight[a] == 0.0;
    if m.At? && m.j == j {
      StepBackTag(c, s.proxies[j].sched, m.e, a);
    } else if m.Deliver? && s.flight[m.k].dst == j {
      StepBackTag(c, s.proxies[j].sched, Charge(v, s.flight[m.k].lengths), a);
    }
  }

  lemma {:induction false} RunChained(c: Config, v: Variant, n: nat, states: seq<Cluster>, moves: seq<Move>, i: nat, j: nat)
    requires c.Valid() && IsRun(c, v, states, moves) && states[0] == Start(c, n)
    requires i < |states| && j < n && !v.CountCompletions?
    ensures |states[i].proxies| == n && ChainedAt(states[i], j)
  {
    if i > 0 {
      RunChained(c, v, n, states, moves, i - 1, j);
      MoveChained(c, v, states[i - 1], moves[i - 1], j);
    }
  }

  /** Application `a` has a waiting job at proxy `j` in every state from `lo` to `hi`. */
  ghost predicate BackloggedAt(states: seq<Cluster>, lo: nat, hi: nat, j: nat, a: nat) {
    && lo <= hi < |states|
    && forall i :: lo <= i <= hi ==>
         j < |states[i].proxies| && a < |states[i].proxies[j].sched.waitQ| && states[i].proxies[j].sched.waitQ[a] != []
  }

  lemma DivideZero(w: real)
    requires w > 0.0
    ensures 0.0 / w == 0.0
  {
  }

  lemma DivideAdds(x: real, y: real, w: real)
    requires w > 0.0
    ensures (x + y) / w == x / w + y / w
  {
  }

  /** What every state of the run satisfies, and that `a` is waiting at `j`. */
  ghost predicate Sound(c: Config, s: Cluster, j: nat, a: nat) {
    && Conserving(c, s) && ChainedAt(s, j)
    && a < |c.weight| && s.proxies[j].sched.waitQ[a] != []
  }

  /** All service of application `a` that proxy `j` knows of in state `s` after the moves `done`: arrivals
      of its own, and what it has heard from the others. */
  function Known(c: Config, s: Cluster, done: seq<Move>, j: nat, a: nat): real
    requires ClusterShaped(c, s) && j < |s.proxies| && a < |c.weight|
  {
    Pushed(done, j, a) + Heard(c, s, j, a)
  }

  lemma KnownStep(c: Config, v: Variant, s: Cluster, done: seq<Move>, m: Move, t: Cluster, j: nat, a: nat)
    requires !v.CountCompletions? && Sound(c, s, j, a) && Sound(c, t, j, a)
    requires Allowed(c, s, m) && t == MoveTo(c, v, s, m)
    ensures BackTag(t.proxies[j].sched, a) == BackTag(s.proxies[j].sched, a)
              + (Known(c, t, done + [m], j, a) - Known(c, s, done, j, a)) / c.weight[a]
  {
    hide MoveTo, BackTag, Others, InFlight, Homed;
    MoveBackTag(c, v, s, m, j, a);
    assert Balanced(c, s, j, a) && Balanced(c, t, j, a);
    assert (done + [m])[..|done|] == done;
    assert Pushed(done + [m], j, a) == Pushed(done, j, a) + PushedBy(m, j, a);
  }

  lemma {:induction false} KnownTelescopes(c: Config, v: Variant, states: seq<Cluster>, moves: seq<Move>,
                                           lo: nat, hi: nat, j: nat, a: nat)
    requires IsRun(c, v, states, moves) && !v.CountCompletions? && lo <= hi < |states|
    requires forall i :: lo <= i <= hi ==> Sound(c, states[i], j, a)
    ensures Sound(c, states[lo], j, a) && Sound(c, states[hi], j, a)
    ensures BackTag(states[hi].proxies[j].sched, a) == BackTag(states[lo].proxies[j].sched, a)
              + (Known(c, states[hi], moves[..hi], j, a) - Known(c, states[lo], moves[..lo], j, a)) / c.weight[a]
    decreases hi
  {
    hide MoveTo, Known, BackTag, Homed, Balanced;
    if lo == hi {
      DivideZero(c.weight[a]);
    } else {
      KnownTelescopes(c, v, states, moves, lo, hi - 1, j, a);
      KnownStep(c, v, states[hi - 1], moves[..hi - 1], moves[hi - 1], states[hi], j, a);
      assert moves[..hi - 1] + [moves[hi - 1]] == moves[..hi];
      DivideAdds(Known(c, states[hi - 1], moves[..hi - 1], j, a) - Known(c, states[lo], moves[..lo], j, a),
                 Known(c, states[hi], moves[..hi], j, a) - Known(c, states[hi - 1], moves[..hi - 1], j, a), c.weight[a]);
    }
  }

  /** Global service: in every run of DSFQ-A, -ALB, -ATB and -D, while application `a` stays backlogged at
      proxy `j`, its last finish tag there grows by exactly the service known at `j`, over the weight:
      the bytes that arrived at `j` and the bytes counted at the other proxies that `j` has heard of. */
  lemma GlobalService(c: Config, v: Variant, n: nat, states: seq<Cluster>, moves: seq<Move>,
                      lo: nat, hi: nat, j: nat, a: nat)
    requires c.Valid() && IsRun(c, v, states, moves) && states[0] == Start(c, n) && !v.CountCompletions?
    requires j < n && a < |c.weight| && BackloggedAt(states, lo, hi, j, a)
    ensures ClusterShaped(c, states[lo]) && ClusterShaped(c, states[hi])
    ensures BackTag(states[hi].proxies[j].sched, a) == BackTag(states[lo].proxies[j].sched, a)
              + (Known(c, states[hi], moves[..hi], j, a) - Known(c, states[lo], moves[..lo], j, a)) / c.weight[a]
  {
    hide MoveTo;
    forall i | lo <= i <= hi
      ensures Sound(c, states[i], j, a)
    {
      RunChained(c, v, n, states, moves, i, j);
      Conservation(c, v, n, states, moves, i);
    }
    KnownTelescopes(c, v, states, moves, lo, hi, j, a);
  }
}
