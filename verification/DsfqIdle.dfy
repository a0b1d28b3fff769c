/** The tags of an application through times when nothing of it waits: what it is charged then is not forgotten, and
    only virtual time moves it ahead for nothing. */
module DsfqIdle {
  import opened Options
  import opened FairQueue
  import opened FairShare
  import opened DsfqProxy
  import opened DsfqCluster
  import opened DsfqService
  import opened DsfqFront

  /** Where the next service of an application is counted from: the start of its first job under DSFQ-F, the end of its
      last one under the other variants; and if it has none, the largest finish tag so far. */
  function Tag(v: Variant, s: State, a: nat): real
    requires a < |s.waitQ| == |s.maxftags|
  {
    if s.waitQ[a] == [] then s.maxftags[a] else if v.CountCompletions? then FrontTag(s, a) else BackTag(s, a)
  }

  /** Bytes of application `a` that a move adds at proxy `j` by itself: those dispatched under DSFQ-F, else those that
      arrive. */
  function Own(c: Config, v: Variant, s: Cluster, m: Move, j: nat, a: nat): real
    requires ClusterShaped(c, s) && Allowed(c, s, m) && a < |c.weight|
  {
    if v.CountCompletions? then DispatchedBy(c, s, m, j, a) as real else PushedBy(m, j, a)
  }

  /** How far an arrival for an idle application is moved ahead to virtual time. */
  function Lift(s: Cluster, m: Move, j: nat, a: nat): (x: real)
    ensures x >= 0.0
  {
    if m.At? && m.j == j && m.e.Arrive? && m.e.pkt.app == a && j < |s.proxies| then
      var q := s.proxies[j].sched;
      if a < |q.waitQ| && a < |q.maxftags| && q.waitQ[a] == [] && q.vtime > q.maxftags[a] then q.vtime - q.maxftags[a]
      else 0.0
    else 0.0
  }

  /** The jobs of a proxy are chained, or under DSFQ-F exact. */
  ghost predicate InLine(c: Config, v: Variant, s: Cluster, j: nat) {
    if v.CountCompletions? then ExactAt(c, s, j) else ChainedAt(s, j)
  }

  lemma ChargeTag(c: Config, v: Variant, s: State, lengths: seq<real>, a: nat)
    requires Shaped(c, s) && a < |c.weight| == |lengths|
    ensures var t := Step(c, s, Charge(v, lengths));
            Tag(v, t, a) == Tag(v, s, a) + lengths[a] / c.weight[a]
  {
  }

  lemma ArrivalTagged(c: Config, v: Variant, s: State, pkt: Packet, a: nat)
    requires Shaped(c, s) && Legal(c, Arrive(pkt)) && a < |c.weight|
    requires if v.CountCompletions? then Exact(c, s) else AllChained(s)
    ensures var t := Step(c, s, Arrive(pkt));
            Tag(v, t, a) == if pkt.app != a then Tag(v, s, a)
                            else (if s.waitQ[a] == [] && s.vtime > s.maxftags[a] then s.vtime else Tag(v, s, a))
                                 + (if v.CountCompletions? then 0.0 else pkt.size as real / c.weight[a])
  {
  }

  lemma IssueTag(c: Config, v: Variant, s: State, a: nat)
    requires Shaped(c, s) && a < |c.weight|
    requires if v.CountCompletions? then Exact(c, s) else AllChained(s)
    ensures var t := Step(c, s, Issue);
            Tag(v, t, a) == Tag(v, s, a)
              + if v.CountCompletions? then Bytes(Sent(c, s, Issue), a) as real / c.weight[a] else 0.0
  {
    hide Choice;
    DivideZero(c.weight[a]);
    if Dispatched(c, s).Some? {
      var b := Dispatched(c, s).value;
      if v.CountCompletions? {
        assert ExactJob(c, b, s.waitQ[b][0]);
      } else {
        assert Chained(s.waitQ[b]);
      }
    }
  }

  lemma LocalTag(c: Config, v: Variant, s: State, e: Event, a: nat)
    requires Shaped(c, s) && Legal(c, e) && a < |c.weight| && (e.Arrive? || e.Issue? || e.Finish?)
    requires if v.CountCompletions? then Exact(c, s) else AllChained(s)
    ensures var own := if v.CountCompletions? then Bytes(Sent(c, s, e), a) as real
                       else if e.Arrive? && e.pkt.app == a then e.pkt.size as real else 0.0;
            var lift := if e.Arrive? && e.pkt.app == a && s.waitQ[a] == [] && s.vtime > s.maxftags[a]
                        then s.vtime - s.maxftags[a] else 0.0;
            Tag(v, Step(c, s, e), a) == Tag(v, s, a) + own / c.weight[a] + lift
  {
    hide Exact, AllChained, Tag, Step;
    DivideZero(c.weight[a]);
    match e
    case Arrive(pkt) => ArrivalTagged(c, v, s, pkt, a); TagIdle(v, s, a);
    case Issue => IssueTag(c, v, s, a);
    case Finish(id) => FinishTag(c, v, s, id, a);
  }

  lemma MoveTag(c: Config, v: Variant, s: Cluster, m: Move, j: nat, a: nat)
    requires ClusterShaped(c, s) && Allowed(c, s, m) && InLine(c, v, s, j) && j < |s.proxies| && a < |c.weight|
    requires ClusterShaped(c, MoveTo(c, v, s, m))
    ensures var t := MoveTo(c, v, s, m);
            && |t.proxies| == |s.proxies|
            && Tag(v, t.proxies[j].sched, a) == Tag(v, s.proxies[j].sched, a)
                 + (Own(c, v, s, m, j, a) + t.charged[j][a] - s.charged[j][a]) / c.weight[a] + Lift(s, m, j, a)
  {
    hide Homed, Exact, AllChained, Tag, Step;
    DivideZero(c.weight[a]);
    if m.At? && m.j == j {
      LocalTag(c, v, s.proxies[j].sched, m.e, a);
    } else if m.Deliver? && s.flight[m.k].dst == j {
      ChargeTag(c, v, s.proxies[j].sched, s.flight[m.k].lengths, a);
    }
  }

  lemma TagIdle(v: Variant, s: State, a: nat)
    requires a < |s.waitQ| == |s.maxftags|
    ensures s.waitQ[a] == [] ==> Tag(v, s, a) == s.maxftags[a]
  {
  }

  lemma FinishTag(c: Config, v: Variant, s: State, id: int, a: nat)
    requires Shaped(c, s) && a < |c.weight|
    ensures Tag(v, Step(c, s, Finish(id)), a) == Tag(v, s, a)
  {
  }

  /** All bytes of its own and all moving ahead between two states of a run. */
  function Owns(c: Config, v: Variant, states: seq<Cluster>, moves: seq<Move>, lo: nat, hi: nat, j: nat, a: nat): real
    requires IsRun(c, v, states, moves) && lo <= hi < |states| && a < |c.weight|
    decreases hi
  {
    if lo == hi then 0.0
    else Owns(c, v, states, moves, lo, hi - 1, j, a) + Own(c, v, states[hi - 1], moves[hi - 1], j, a)
  }

  function Lifts(states: seq<Cluster>, moves: seq<Move>, lo: nat, hi: nat, j: nat, a: nat): (x: real)
    requires lo <= hi <= |moves| < |states|
    ensures x >= 0.0
    decreases hi
  {
    if lo == hi then 0.0
    else Lifts(states, moves, lo, hi - 1, j, a) + Lift(states[hi - 1], moves[hi - 1], j, a)
  }

  lemma {:induction false} RunInLine(c: Config, v: Variant, n: nat, states: seq<Cluster>, moves: seq<Move>, i: nat, j: nat)
    requires c.Valid() && IsRun(c, v, states, moves) && states[0] == Start(c, n) && i < |states| && j < n
    ensures ClusterShaped(c, states[i]) && |states[i].proxies| == n && InLine(c, v, states[i], j)
  {
    hide MoveTo, Ahead, Exact, AllChained;
    Conservation(c, v, n, states, moves, i);
    VirtualTimeGrows(c, v, n, states, moves, i, i, j);
    if v.CountCompletions? {
      RunExact(c, v, n, states, moves, i, j);
    } else {
      RunChained(c, v, n, states, moves, i, j);
    }
  }

  /** In every run of every variant, waiting jobs or not, the tag of an application at a proxy grows by its own bytes
      there and by those charged there, over its weight, and by what its arrivals were moved ahead to virtual time. */
  lemma {:induction false} NothingForgotten(c: Config, v: Variant, n: nat, states: seq<Cluster>, moves: seq<Move>,
                                            lo: nat, hi: nat, j: nat, a: nat)
    requires c.Valid() && IsRun(c, v, states, moves) && states[0] == Start(c, n) && lo <= hi < |states|
    requires j < n && a < |c.weight|
    ensures ClusterShaped(c, states[lo]) && ClusterShaped(c, states[hi]) && |states[lo].proxies| == |states[hi].proxies| == n
    ensures Tag(v, states[hi].proxies[j].sched, a) == Tag(v, states[lo].proxies[j].sched, a)
              + (Owns(c, v, states, moves, lo, hi, j, a) + states[hi].charged[j][a] - states[lo].charged[j][a]) / c.weight[a]
              + Lifts(states, moves, lo, hi, j, a)
    decreases hi
  {
    hide MoveTo, Tag, InLine, Own, Lift;
    RunInLine(c, v, n, states, moves, lo, j);
    RunInLine(c, v, n, states, moves, hi, j);
    if lo == hi {
      DivideZero(c.weight[a]);
    } else {
      var (s, m, t) := (states[hi - 1], moves[hi - 1], states[hi]);
      RunInLine(c, v, n, states, moves, hi - 1, j);
      NothingForgotten(c, v, n, states, moves, lo, hi - 1, j, a);
      MoveTag(c, v, s, m, j, a);
      DivideAdds(Owns(c, v, states, moves, lo, hi - 1, j, a) + s.charged[j][a] - states[lo].charged[j][a],
                 Own(c, v, s, m, j, a) + t.charged[j][a] - s.charged[j][a], c.weight[a]);
    }
  }
}
