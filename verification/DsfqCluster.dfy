/** All proxies of a DSFQ installation and the messages between them: no counted byte is lost, charged
    twice, or charged to the proxy that counted it. */
module DsfqCluster {
  import opened Options
  import opened FairQueue
  import opened DsfqProxy

  const EVERYONE := -1

  /** A tag-shift message; `dst` is EVERYONE until the router has copied it. */
  datatype Message = Message(src: nat, dst: int, lengths: seq<real>)

  /** `counted[k][a]` and `charged[k][a]` record the bytes of application `a` that proxy `k` has counted
      itself and has been charged by others, since the start. */
  datatype Cluster = Cluster(
    proxies: seq<Proxy>, flight: seq<Message>, counted: seq<seq<real>>, charged: seq<seq<real>>)

  datatype Move =
    | At(j: nat, e: Event)       // an arrival, a dispatch or a completion at proxy j
    | Propagate(j: nat)          // proxy j sends what it has to tell to the router
    | Broadcast(k: nat)          // the router replaces message k by one copy for each other proxy
    | Deliver(k: nat)            // message k reaches its proxy

  // ---------------------------------------------------------------- the router

  /** The router's copies for the proxies from `i` on. */
  function CopiesFrom(m: Message, i: nat, n: nat): seq<Message>
    requires i <= n
    decreases n - i
  {
    if i == n then []
    else (if m.src != i then [m.(dst := i)] else []) + CopiesFrom(m, i + 1, n)
  }

  lemma {:induction false} CopiesAppend(m: Message, i: nat, n: nat)
    requires i <= n
    ensures CopiesFrom(m, i, n + 1) == CopiesFrom(m, i, n) + if m.src != n then [m.(dst := n)] else []
    decreases n - i
  {
    if i < n {
      CopiesAppend(m, i + 1, n);
    } else {
      assert CopiesFrom(m, n + 1, n + 1) == [];
    }
  }

  method HandleSPacketPropagation(spkt: Message, numProxies: nat) returns (sent: seq<Message>)
    ensures sent == if spkt.dst == EVERYONE then CopiesFrom(spkt, 0, numProxies) else [spkt]
  {
    sent := [];
    var srcId := spkt.src;
    if spkt.dst == EVERYONE {
      for i := 0 to numProxies
        invariant sent == CopiesFrom(spkt, 0, i)
      {
        CopiesAppend(spkt, 0, i);
        if srcId != i {
          var tmp := spkt.(dst := i);
          sent := sent + [tmp];
        }
      }
    } else {
      sent := [spkt];
    }
  }

  // ---------------------------------------------------------------- steps

  ghost predicate ClusterShaped(c: Config, s: Cluster) {
    && c.Valid()
    && |s.counted| == |s.charged| == |s.proxies|
    && (forall k :: 0 <= k < |s.proxies| ==>
          && ProxyShaped(c, s.proxies[k]) && Homed(c, s.proxies[k].sched)
          && |s.counted[k]| == |s.charged[k]| == |c.weight|
          && s.proxies[k].src < |s.proxies|)
    && (forall k :: 0 <= k < |s.flight| ==>
          && |s.flight[k].lengths| == |c.weight|
          && s.flight[k].src < |s.proxies|
          && EVERYONE <= s.flight[k].dst < |s.proxies|)
  }

  ghost predicate Allowed(c: Config, s: Cluster, m: Move) {
    match m
    case At(j, e) => j < |s.proxies| && (e.Arrive? || e.Issue? || e.Finish?) && Legal(c, e)
    case Propagate(j) => j < |s.proxies|
    case Broadcast(k) => k < |s.flight| && s.flight[k].dst == EVERYONE
    case Deliver(k) => k < |s.flight| && s.flight[k].dst != EVERYONE
  }

  function Add(row: seq<real>, a: nat, x: real): seq<real>
    requires a < |row|
  {
    row[a := row[a] + x]
  }

  function AddAll(row: seq<real>, xs: seq<real>): (r: seq<real>)
    requires |row| == |xs|
    ensures |r| == |row| && forall a :: 0 <= a < |r| ==> r[a] == row[a] + xs[a]
  {
    seq(|row|, a requires 0 <= a < |row| => row[a] + xs[a])
  }

  function Without<T>(s: seq<T>, k: nat): seq<T>
    requires k < |s|
  {
    s[..k] + s[k + 1..]
  }

  function AtProxy(c: Config, v: Variant, s: Cluster, j: nat, e: Event): Cluster
    requires ClusterShaped(c, s) && Allowed(c, s, At(j, e))
  {
    var counted := Counts(c, v, s.proxies[j].sched, e);
    CountsHome(c, v, s.proxies[j].sched, e);
    s.(proxies := s.proxies[j := Local(c, v, j, s.proxies[j], e)],
       counted := if counted.None? then s.counted
                  else s.counted[j := Add(s.counted[j], counted.value.app, counted.value.size as real)])
  }

  function Tell(c: Config, s: Cluster, j: nat): Cluster
    requires ClusterShaped(c, s) && Allowed(c, s, Propagate(j))
  {
    var tells := Tells(s.proxies[j]);
    if tells.None? then s
    else s.(proxies := s.proxies[j := Told(s.proxies[j])],
            flight := s.flight + [Message(s.proxies[j].src, EVERYONE, tells.value)])
  }

  function Copy(c: Config, s: Cluster, k: nat): Cluster
    requires ClusterShaped(c, s) && Allowed(c, s, Broadcast(k))
  {
    s.(flight := Without(s.flight, k) + CopiesFrom(s.flight[k], 0, |s.proxies|))
  }

  function Arrival(c: Config, v: Variant, s: Cluster, k: nat): Cluster
    requires ClusterShaped(c, s) && Allowed(c, s, Deliver(k))
  {
    var j := s.flight[k].dst;
    s.(proxies := s.proxies[j := Receive(c, v, s.proxies[j], s.flight[k].lengths)],
       flight := Without(s.flight, k),
       charged := s.charged[j := AddAll(s.charged[j], s.flight[k].lengths)])
  }

  function MoveTo(c: Config, v: Variant, s: Cluster, m: Move): Cluster
    requires ClusterShaped(c, s) && Allowed(c, s, m)
  {
    match m
    case At(j, e) => AtProxy(c, v, s, j, e)
    case Propagate(j) => Tell(c, s, j)
    case Broadcast(k) => Copy(c, s, k)
    case Deliver(k) => Arrival(c, v, s, k)
  }

  function Zeros(c: Config): seq<real> {
    seq(|c.weight|, _ => 0.0)
  }

  function Start(c: Config, n: nat): Cluster
    requires c.Valid()
  {
    Cluster(seq(n, _ => Fresh(c)), [], seq(n, _ => Zeros(c)), seq(n, _ => Zeros(c)))
  }

  // ---------------------------------------------------------------- sums

  /** The sum over all rows but row `j` of their entry for application `a`. */
  function Others(rows: seq<seq<real>>, j: nat, a: nat): real
    requires forall k :: 0 <= k < |rows| ==> a < |rows[k]|
  {
    if rows == [] then 0.0
    else
      var last := |rows| - 1;
      Others(rows[..last], j, a) + if last == j then 0.0 else rows[last][a]
  }

  lemma {:induction false} OthersUpdate(rows: seq<seq<real>>, j: nat, a: nat, k: nat, row: seq<real>)
    requires forall i :: 0 <= i < |rows| ==> a < |rows[i]|
    requires k < |rows| && a < |row|
    ensures Others(rows[k := row], j, a) == Others(rows, j, a) + if k == j then 0.0 else row[a] - rows[k][a]
  {
    var last := |rows| - 1;
    var p := rows[k := row];
    if k == last {
      assert p[..last] == rows[..last];
    } else {
      assert p[..last] == rows[..last][k := row];
      OthersUpdate(rows[..last], j, a, k, row);
    }
  }

  /** What a message carries towards proxy `j` for application `a`. */
  function Towards(m: Message, j: nat, a: nat): real
    requires a < |m.lengths|
  {
    if m.dst == j || (m.dst == EVERYONE && m.src != j) then m.lengths[a] else 0.0
  }

  ghost predicate Wide(flight: seq<Message>, a: nat) {
    forall k :: 0 <= k < |flight| ==> a < |flight[k].lengths|
  }

  function InFlight(flight: seq<Message>, j: nat, a: nat): real
    requires Wide(flight, a)
  {
    if flight == [] then 0.0 else Towards(flight[0], j, a) + InFlight(flight[1..], j, a)
  }

  lemma {:induction false} InFlightSplits(p: seq<Message>, q: seq<Message>, j: nat, a: nat)
    requires Wide(p, a) && Wide(q, a)
    ensures Wide(p + q, a) && InFlight(p + q, j, a) == InFlight(p, j, a) + InFlight(q, j, a)
  {
    if p == [] {
      assert p + q == q;
    } else {
      InFlightSplits(p[1..], q, j, a);
      assert (p + q)[1..] == p[1..] + q;
    }
  }

  lemma InFlightWithout(flight: seq<Message>, k: nat, j: nat, a: nat)
    requires Wide(flight, a) && k < |flight|
    ensures Wide(Without(flight, k), a)
    ensures InFlight(Without(flight, k), j, a) == InFlight(flight, j, a) - Towards(flight[k], j, a)
  {
    var rest := [flight[k]] + flight[k + 1..];
    assert flight == flight[..k] + rest;
    InFlightSplits(flight[..k], rest, j, a);
    InFlightSplits([flight[k]], flight[k + 1..], j, a);
    InFlightSplits(flight[..k], flight[k + 1..], j, a);
  }

  /** The router's copies carry to every other proxy exactly what the message was to carry. */
  lemma {:induction false} CopiesCarry(m: Message, i: nat, n: nat, j: nat, a: nat)
    requires i <= n && a < |m.lengths| && m.dst == EVERYONE
    ensures Wide(CopiesFrom(m, i, n), a)
    ensures InFlight(CopiesFrom(m, i, n), j, a) == if i <= j < n then Towards(m, j, a) else 0.0
    decreases n - i
  {
    if i < n {
      CopiesCarry(m, i + 1, n, j, a);
      var head := if m.src != i then [m.(dst := i)] else [];
      assert InFlight(head, j, a) == if m.src != i && j == i then m.lengths[a] else 0.0;
      InFlightSplits(head, CopiesFrom(m, i + 1, n), j, a);
    }
  }

  lemma {:induction false} CopiesShaped(m: Message, i: nat, n: nat)
    requires i <= n
    ensures forall k :: 0 <= k < |CopiesFrom(m, i, n)| ==>
      var copy := CopiesFrom(m, i, n)[k];
      copy.lengths == m.lengths && copy.src == m.src && i <= copy.dst < n && copy.dst != m.src
    decreases n - i
  {
    if i < n {
      CopiesShaped(m, i + 1, n);
    }
  }

  // ---------------------------------------------------------------- conservation

  function Unsent(s: Cluster): (rows: seq<seq<real>>)
    ensures |rows| == |s.proxies| && forall k :: 0 <= k < |rows| ==> rows[k] == s.proxies[k].unsent
  {
    seq(|s.proxies|, k requires 0 <= k < |s.proxies| => s.proxies[k].unsent)
  }

  /** For every proxy and application: what the other proxies have counted has been charged here, is on
      its way here, or is still to be told. */
  ghost predicate Balanced(c: Config, s: Cluster, j: nat, a: nat)
    requires ClusterShaped(c, s) && j < |s.proxies| && a < |c.weight|
  {
    s.charged[j][a] + InFlight(s.flight, j, a) + Others(Unsent(s), j, a) == Others(s.counted, j, a)
  }

  ghost predicate Conserving(c: Config, s: Cluster) {
    && ClusterShaped(c, s)
    && (forall j, a :: 0 <= j < |s.proxies| && 0 <= a < |c.weight| ==> Balanced(c, s, j, a))
    && (forall k :: 0 <= k < |s.proxies| && s.proxies[k].src >= 0 ==> s.proxies[k].src == k)
  }

  function Amount(counted: Option<Packet>, a: nat): real {
    if counted.Some? && counted.value.app == a then counted.value.size as real else 0.0
  }

  lemma LocalCounts(c: Config, v: Variant, i: nat, p: Proxy, e: Event, a: nat)
    requires ProxyShaped(c, p) && Homed(c, p.sched) && Legal(c, e) && a < |c.weight|
    ensures Local(c, v, i, p, e).unsent[a] == p.unsent[a] + Amount(Counts(c, v, p.sched, e), a)
  {
  }

  /** Only proxy `i` changed. */
  lemma UnsentUpdate(s: Cluster, q: Proxy, i: nat, j: nat, a: nat)
    requires i < |s.proxies| && a < |q.unsent|
    requires forall k :: 0 <= k < |s.proxies| ==> a < |s.proxies[k].unsent|
    ensures Others(Unsent(s.(proxies := s.proxies[i := q])), j, a)
         == Others(Unsent(s), j, a) + if i == j then 0.0 else q.unsent[a] - s.proxies[i].unsent[a]
  {
    assert Unsent(s.(proxies := s.proxies[i := q])) == Unsent(s)[i := q.unsent];
    OthersUpdate(Unsent(s), j, a, i, q.unsent);
  }

  lemma AtBalanced(c: Config, v: Variant, s: Cluster, i: nat, e: Event, j: nat, a: nat)
    requires Conserving(c, s) && Allowed(c, s, At(i, e)) && j < |s.proxies| && a < |c.weight|
    requires ClusterShaped(c, AtProxy(c, v, s, i, e))
    ensures Balanced(c, AtProxy(c, v, s, i, e), j, a)
  {
    hide Local, InFlight, Others, Homed;
    var t := AtProxy(c, v, s, i, e);
    assert Balanced(c, s, j, a);
    LocalCounts(c, v, i, s.proxies[i], e, a);
    UnsentUpdate(s, t.proxies[i], i, j, a);
    assert Unsent(t) == Unsent(s.(proxies := s.proxies[i := t.proxies[i]]));
    OthersUpdate(s.counted, j, a, i, t.counted[i]);
    assert t.counted == s.counted[i := t.counted[i]];
  }

  lemma TellBalanced(c: Config, s: Cluster, i: nat, j: nat, a: nat)
    requires Conserving(c, s) && Allowed(c, s, Propagate(i)) && j < |s.proxies| && a < |c.weight|
    requires ClusterShaped(c, Tell(c, s, i))
    ensures Balanced(c, Tell(c, s, i), j, a)
  {
    hide Others, Homed;
    assert Balanced(c, s, j, a);
    if s.proxies[i].src >= 0 {
      var t := Tell(c, s, i);
      UnsentUpdate(s, Told(s.proxies[i]), i, j, a);
      assert Unsent(t) == Unsent(s.(proxies := s.proxies[i := Told(s.proxies[i])]));
      var sent := Message(i, EVERYONE, s.proxies[i].unsent);
      assert InFlight([sent], j, a) == Towards(sent, j, a);
      InFlightSplits(s.flight, [sent], j, a);
    }
  }

  lemma CopyBalanced(c: Config, s: Cluster, k: nat, j: nat, a: nat)
    requires Conserving(c, s) && Allowed(c, s, Broadcast(k)) && j < |s.proxies| && a < |c.weight|
    requires ClusterShaped(c, Copy(c, s, k))
    ensures Balanced(c, Copy(c, s, k), j, a)
  {
    hide Others, Homed, InFlight;
    var n := |s.proxies|;
    assert Balanced(c, s, j, a);
    assert Unsent(Copy(c, s, k)) == Unsent(s);
    InFlightWithout(s.flight, k, j, a);
    CopiesCarry(s.flight[k], 0, n, j, a);
    InFlightSplits(Without(s.flight, k), CopiesFrom(s.flight[k], 0, n), j, a);
  }

  lemma ArrivalBalanced(c: Config, v: Variant, s: Cluster, k: nat, j: nat, a: nat)
    requires Conserving(c, s) && Allowed(c, s, Deliver(k)) && j < |s.proxies| && a < |c.weight|
    requires ClusterShaped(c, Arrival(c, v, s, k))
    ensures Balanced(c, Arrival(c, v, s, k), j, a)
  {
    hide Homed, Step, InFlight;
    assert Balanced(c, s, j, a);
    assert Unsent(Arrival(c, v, s, k)) == Unsent(s);
    InFlightWithout(s.flight, k, j, a);
  }

  lemma MoveShaped(c: Config, v: Variant, s: Cluster, m: Move)
    requires Conserving(c, s) && Allowed(c, s, m)
    ensures ClusterShaped(c, MoveTo(c, v, s, m))
  {
    hide Homed;
    match m
    case At(j, e) => StepHomed(c, s.proxies[j].sched, e); CountsHome(c, v, s.proxies[j].sched, e);
    case Propagate(j) =>
    case Broadcast(k) => CopiesShaped(s.flight[k], 0, |s.proxies|);
    case Deliver(k) => StepHomed(c, s.proxies[s.flight[k].dst].sched, Charge(v, s.flight[k].lengths));
  }

  lemma MoveConserves(c: Config, v: Variant, s: Cluster, m: Move)
    requires Conserving(c, s) && Allowed(c, s, m)
    ensures Conserving(c, MoveTo(c, v, s, m))
  {
    MoveShaped(c, v, s, m);
    var t := MoveTo(c, v, s, m);
    forall j, a | 0 <= j < |s.proxies| && 0 <= a < |c.weight|
      ensures Balanced(c, t, j, a)
    {
      match m
      case At(i, e) => AtBalanced(c, v, s, i, e, j, a);
      case Propagate(i) => TellBalanced(c, s, i, j, a);
      case Broadcast(k) => CopyBalanced(c, s, k, j, a);
      case Deliver(k) => ArrivalBalanced(c, v, s, k, j, a);
    }
  }

  lemma {:induction false} OthersZero(c: Config, n: nat, j: nat, a: nat)
    requires a < |c.weight|
    ensures Others(seq(n, _ => Zeros(c)), j, a) == 0.0
  {
    if n > 0 {
      assert seq(n, _ => Zeros(c))[..n - 1] == seq(n - 1, _ => Zeros(c));
      OthersZero(c, n - 1, j, a);
    }
  }

  lemma StartConserves(c: Config, n: nat)
    requires c.Valid()
    ensures Conserving(c, Start(c, n))
  {
    InitHomed(c);
    var s := Start(c, n);
    forall j, a | 0 <= j < n && 0 <= a < |c.weight|
      ensures Balanced(c, s, j, a)
    {
      assert Unsent(s) == seq(n, _ => Zeros(c));
      OthersZero(c, n, j, a);
    }
  }

  // ---------------------------------------------------------------- runs

  /** `states` is a run: each state comes from the one before by the move between them. */
  ghost predicate IsRun(c: Config, v: Variant, states: seq<Cluster>, moves: seq<Move>) {
    && |states| == |moves| + 1
    && forall i :: 0 <= i < |moves| ==>
         && ClusterShaped(c, states[i]) && Allowed(c, states[i], moves[i])
         && states[i + 1] == MoveTo(c, v, states[i], moves[i])
  }

  /** Conservation of counted service, in every state of every run of every variant: bytes charged at `j`,
      bytes in flight to `j` and bytes the other proxies have yet to tell add up to the bytes the other
      proxies have counted. */
  lemma {:induction false} Conservation(c: Config, v: Variant, n: nat, states: seq<Cluster>, moves: seq<Move>, i: nat)
    requires c.Valid() && IsRun(c, v, states, moves) && states[0] == Start(c, n) && i < |states|
    ensures Conserving(c, states[i])
  {
    if i == 0 {
      StartConserves(c, n);
    } else {
      Conservation(c, v, n, states, moves, i - 1);
      MoveConserves(c, v, states[i - 1], moves[i - 1]);
    }
  }
}
