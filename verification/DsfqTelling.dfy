/** When a DSFQ proxy tells what it has counted, and that in the end every other proxy knows. */
module DsfqTelling {
  import opened Options
  import opened FairQueue
  import opened FairShare
  import opened DsfqProxy
  import opened DsfqCluster
  import opened DsfqService
  import opened DsfqFront

  // ---------------------------------------------------------------- what is counted

  /** What each variant counts: bytes that arrive, bytes that are dispatched, or those of them no longer outstanding. */
  ghost predicate CountedRight(c: Config, v: Variant, s: Cluster, pushed: real, sent: nat, j: nat, a: nat)
    requires ClusterShaped(c, s) && j < |s.proxies| && a < |c.weight|
  {
    s.counted[j][a] ==
    match v
    case CountDispatches => sent as real
    case CountCompletions => (sent - Outstanding(s.proxies[j].sched.osQ, a)) as real
    case _ => pushed
  }

  lemma MoveCounts(c: Config, v: Variant, s: Cluster, m: Move, pushed: real, sent: nat, j: nat, a: nat)
    requires ClusterShaped(c, s) && Allowed(c, s, m) && ClusterShaped(c, MoveTo(c, v, s, m))
    requires j < |s.proxies| && a < |c.weight| && CountedRight(c, v, s, pushed, sent, j, a)
    ensures |MoveTo(c, v, s, m).proxies| == |s.proxies|
    ensures CountedRight(c, v, MoveTo(c, v, s, m), pushed + PushedBy(m, j, a), sent + DispatchedBy(c, s, m, j, a), j, a)
  {
    hide Homed, Outstanding, FindJob;
    if m.At? && m.j == j {
      StepConserves(c, s.proxies[j].sched, m.e, a);
      CountsHome(c, v, s.proxies[j].sched, m.e);
    } else if m.Deliver? && s.flight[m.k].dst == j {
      StepConserves(c, s.proxies[j].sched, Charge(v, s.flight[m.k].lengths), a);
    }
  }

  /** In every run, what a proxy has counted of an application is what has arrived there, what it has dispatched, or what
      of that has been completed, by variant. */
  lemma {:induction false} RunCounts(c: Config, v: Variant, n: nat, states: seq<Cluster>, moves: seq<Move>,
                                     i: nat, j: nat, a: nat)
    requires c.Valid() && IsRun(c, v, states, moves) && states[0] == Start(c, n) && i < |states|
    requires j < n && a < |c.weight|
    ensures ClusterShaped(c, states[i]) && |states[i].proxies| == n
    ensures CountedRight(c, v, states[i], Pushed(moves[..i], j, a), DispatchedAt(c, v, states, moves, 0, i, j, a), j, a)
  {
    Conservation(c, v, n, states, moves, i);
    hide MoveTo, Conserving, CountedRight, ClusterShaped, DispatchedBy;
    if i == 0 {
      StartCounts(c, v, n, j, a);
    } else {
      RunCounts(c, v, n, states, moves, i - 1, j, a);
      Conservation(c, v, n, states, moves, i - 1);
      assert moves[..i][..i - 1] == moves[..i - 1];
      MoveCounts(c, v, states[i - 1], moves[i - 1], Pushed(moves[..i - 1], j, a),
                 DispatchedAt(c, v, states, moves, 0, i - 1, j, a), j, a);
    }
  }

  lemma StartCounts(c: Config, v: Variant, n: nat, j: nat, a: nat)
    requires c.Valid() && j < n && a < |c.weight| && ClusterShaped(c, Start(c, n))
    ensures CountedRight(c, v, Start(c, n), 0.0, 0, j, a) && |Start(c, n).proxies| == n
  {
  }

  // ---------------------------------------------------------------- when a proxy tells

  /** The move makes proxy `j` count a packet, and under DSFQ-ALB the application's unsent bytes reach the load. */
  ghost predicate Raises(c: Config, v: Variant, s: Cluster, m: Move, j: nat)
    requires ClusterShaped(c, s) && Allowed(c, s, m)
  {
    m.At? && m.j == j &&
    var counted := Counts(c, v, s.proxies[j].sched, m.e);
    CountsHome(c, v, s.proxies[j].sched, m.e);
    counted.Some? &&
    (v.CountArrivalsBatched? ==> s.proxies[j].unsent[counted.value.app] + counted.value.size as real >= v.load)
  }

  /** Since proxy `j` last told, or since the start, some move has raised it. */
  ghost predicate MustTell(c: Config, v: Variant, states: seq<Cluster>, moves: seq<Move>, i: nat, j: nat)
    requires IsRun(c, v, states, moves) && i < |states|
  {
    i > 0 && moves[i - 1] != Propagate(j)
    && (Raises(c, v, states[i - 1], moves[i - 1], j) || MustTell(c, v, states, moves, i - 1, j))
  }

  lemma MoveActivates(c: Config, v: Variant, s: Cluster, m: Move, j: nat)
    requires ClusterShaped(c, s) && Allowed(c, s, m) && j < |s.proxies|
    ensures var t := MoveTo(c, v, s, m);
            && |t.proxies| == |s.proxies|
            && (t.proxies[j].src >= 0 <==> m != Propagate(j) && (Raises(c, v, s, m, j) || s.proxies[j].src >= 0))
  {
    hide Homed, Step, Counts;
    if m.At? && m.j == j {
      CountsHome(c, v, s.proxies[j].sched, m.e);
    }
  }

  /** A proxy is active exactly if it must tell. */
  lemma {:induction false} ActiveExactly(c: Config, v: Variant, n: nat, states: seq<Cluster>, moves: seq<Move>, i: nat, j: nat)
    requires c.Valid() && IsRun(c, v, states, moves) && states[0] == Start(c, n) && i < |states| && j < n
    ensures |states[i].proxies| == n
    ensures states[i].proxies[j].src >= 0 <==> MustTell(c, v, states, moves, i, j)
  {
    hide MoveTo, Raises, ClusterShaped;
    if i > 0 {
      ActiveExactly(c, v, n, states, moves, i - 1, j);
      MoveActivates(c, v, states[i - 1], moves[i - 1], j);
    } else {
      StartInactive(c, n);
    }
  }

  lemma StartInactive(c: Config, n: nat)
    requires c.Valid()
    ensures var s := Start(c, n);
            && |s.proxies| == n
            && forall j :: 0 <= j < n ==> s.proxies[j].src < 0 && forall a :: 0 <= a < |s.proxies[j].unsent| ==> s.proxies[j].unsent[a] == 0.0
  {
  }

  /** An inactive proxy has nothing to tell; under DSFQ-ALB, less than the load of each application. */
  ghost predicate Patient(v: Variant, p: Proxy) {
    p.src < 0 ==>
      forall a :: 0 <= a < |p.unsent| ==> p.unsent[a] == 0.0 || (v.CountArrivalsBatched? && p.unsent[a] < v.load)
  }

  ghost predicate AllPatient(v: Variant, s: Cluster) {
    forall j :: 0 <= j < |s.proxies| ==> Patient(v, s.proxies[j])
  }

  lemma MovePatient(c: Config, v: Variant, s: Cluster, m: Move)
    requires ClusterShaped(c, s) && Allowed(c, s, m) && AllPatient(v, s)
    ensures AllPatient(v, MoveTo(c, v, s, m))
  {
    hide Homed, Step, Counts;
    if m.At? {
      CountsHome(c, v, s.proxies[m.j].sched, m.e);
    }
  }

  /** In every reachable state, a proxy that has something to tell is active, under its own ID; under DSFQ-ALB, if it has
      the load of some application. */
  lemma {:induction false} UntoldIsActive(c: Config, v: Variant, n: nat, states: seq<Cluster>, moves: seq<Move>, i: nat)
    requires c.Valid() && IsRun(c, v, states, moves) && states[0] == Start(c, n) && i < |states|
    ensures AllPatient(v, states[i])
    ensures forall j :: 0 <= j < |states[i].proxies| && states[i].proxies[j].src >= 0 ==> states[i].proxies[j].src == j
  {
    Conservation(c, v, n, states, moves, i);
    if i > 0 {
      hide MoveTo, AllPatient, ClusterShaped;
      UntoldIsActive(c, v, n, states, moves, i - 1);
      MovePatient(c, v, states[i - 1], moves[i - 1]);
    } else {
      StartInactive(c, n);
    }
  }

  // ---------------------------------------------------------------- what everyone knows in the end

  /** Nobody has anything to tell that it may tell, and no message is on its way. */
  ghost predicate Settled(s: Cluster) {
    s.flight == [] && forall j :: 0 <= j < |s.proxies| ==> s.proxies[j].src < 0
  }

  /** How many rows there are besides row `j`. */
  function Besides(n: nat, j: nat): nat {
    if n == 0 then 0 else Besides(n - 1, j) + if n - 1 == j then 0 else 1
  }

  lemma {:induction false} OthersAreZero(rows: seq<seq<real>>, j: nat, a: nat)
    requires forall k :: 0 <= k < |rows| ==> a < |rows[k]| && rows[k][a] == 0.0
    ensures Others(rows, j, a) == 0.0
  {
    if rows != [] {
      OthersAreZero(rows[..|rows| - 1], j, a);
    }
  }

  lemma {:induction false} OthersAreLess(rows: seq<seq<real>>, j: nat, a: nat, x: real)
    requires x > 0.0 && forall k :: 0 <= k < |rows| ==> a < |rows[k]| && 0.0 <= rows[k][a] < x
    ensures var others := Besides(|rows|, j);
            0.0 <= Others(rows, j, a) <= Times(others, x) && (others > 0 ==> Others(rows, j, a) < Times(others, x))
  {
    if rows != [] {
      OthersAreLess(rows[..|rows| - 1], j, a, x);
    }
  }

  lemma {:induction false} BesidesIs(n: nat, j: nat)
    ensures Besides(n, j) == if j < n then n - 1 else n
  {
    if n > 0 {
      BesidesIs(n - 1, j);
    }
  }

  /** What the others have counted and proxy `j` has not been charged. */
  ghost function Missing(c: Config, s: Cluster, j: nat, a: nat): real
    requires ClusterShaped(c, s) && j < |s.proxies| && a < |c.weight|
  {
    Others(s.counted, j, a) - s.charged[j][a]
  }

  lemma MissingIsUnsent(c: Config, s: Cluster, j: nat, a: nat)
    requires Conserving(c, s) && Settled(s) && j < |s.proxies| && a < |c.weight|
    ensures Missing(c, s, j, a) == Others(Unsent(s), j, a)
  {
    hide Others, Homed;
    assert Balanced(c, s, j, a);
  }

  lemma MissingIsSmall(c: Config, v: Variant, s: Cluster, j: nat, a: nat)
    requires Conserving(c, s) && Sensible(c, s) && AllPatient(v, s) && Settled(s) && j < |s.proxies| && a < |c.weight|
    ensures var (n, missing) := (|s.proxies|, Missing(c, s, j, a));
            if v.CountArrivalsBatched? && v.load > 0.0 then
              0.0 <= missing && (if n > 1 then missing < (n - 1) as real * v.load else missing == 0.0)
            else missing == 0.0
  {
    hide Others, Ahead, Homed, Missing, Times, Balanced;
    MissingIsUnsent(c, s, j, a);
    var n := |s.proxies|;
    forall k | 0 <= k < n
      ensures 0.0 <= Unsent(s)[k][a]
      ensures Unsent(s)[k][a] == 0.0 || (v.CountArrivalsBatched? && Unsent(s)[k][a] < v.load)
    {
      assert Patient(v, s.proxies[k]) && Nonnegative(s.proxies[k].unsent);
    }
    if v.CountArrivalsBatched? && v.load > 0.0 {
      OthersAreLess(Unsent(s), j, a, v.load);
      BesidesIs(n, j);
      TimesIsProduct(n - 1, v.load);
    } else {
      OthersAreZero(Unsent(s), j, a);
    }
  }

  /** Once a reachable state is settled, each proxy has been charged exactly what the others have counted; under DSFQ-ALB,
      less than the load short of it for each of the others. */
  lemma SettledKnowsAll(c: Config, v: Variant, n: nat, states: seq<Cluster>, moves: seq<Move>, i: nat, j: nat, a: nat)
    requires c.Valid() && IsRun(c, v, states, moves) && states[0] == Start(c, n) && i < |states|
    requires Settled(states[i]) && j < n && a < |c.weight|
    ensures ClusterShaped(c, states[i]) && |states[i].proxies| == n
    ensures var missing := Others(states[i].counted, j, a) - states[i].charged[j][a];
            if v.CountArrivalsBatched? && v.load > 0.0 then
              0.0 <= missing && (if n > 1 then missing < (n - 1) as real * v.load else missing == 0.0)
            else missing == 0.0
  {
    hide MoveTo, Sensible, AllPatient, Settled;
    Conservation(c, v, n, states, moves, i);
    VirtualTimeGrows(c, v, n, states, moves, i, i, j);
    UntoldIsActive(c, v, n, states, moves, i);
    MissingIsSmall(c, v, states[i], j, a);
  }

  // ---------------------------------------------------------------- how long that takes

  function Actives(ps: seq<Proxy>): nat {
    if ps == [] then 0 else Actives(ps[1..]) + if ps[0].src >= 0 then 1 else 0
  }

  /** How many moves it takes to copy and deliver what is on its way among `n` proxies. */
  function Hops(flight: seq<Message>, n: nat): nat {
    if flight == [] then 0 else Hops(flight[1..], n) + if flight[0].dst == EVERYONE then n else 1
  }

  /** How many moves it takes to tell everything that is to be told. */
  function ToDo(s: Cluster): nat {
    Actives(s.proxies) * (|s.proxies| + 1) + Hops(s.flight, |s.proxies|)
  }

  lemma {:induction false} ActivesUpdate(ps: seq<Proxy>, j: nat, p: Proxy)
    requires j < |ps|
    ensures Actives(ps[j := p]) == Actives(ps) + (if p.src >= 0 then 1 else 0) - (if ps[j].src >= 0 then 1 else 0)
  {
    if j == 0 {
      assert ps[j := p][1..] == ps[1..];
    } else {
      assert ps[j := p][1..] == ps[1..][j - 1 := p];
      ActivesUpdate(ps[1..], j - 1, p);
    }
  }

  lemma {:induction false} HopsSplit(x: seq<Message>, y: seq<Message>, n: nat)
    ensures Hops(x + y, n) == Hops(x, n) + Hops(y, n)
  {
    if x == [] {
      assert x + y == y;
    } else {
      HopsSplit(x[1..], y, n);
      assert (x + y)[1..] == x[1..] + y;
    }
  }

  lemma HopsWithout(flight: seq<Message>, k: nat, n: nat)
    requires k < |flight|
    ensures Hops(Without(flight, k), n) == Hops(flight, n) - if flight[k].dst == EVERYONE then n else 1
  {
    var rest := [flight[k]] + flight[k + 1..];
    assert flight == flight[..k] + rest;
    HopsSplit(flight[..k], rest, n);
    HopsSplit([flight[k]], flight[k + 1..], n);
    HopsSplit(flight[..k], flight[k + 1..], n);
  }

  lemma {:induction false} HopsOfCopies(m: Message, i: nat, n: nat)
    requires i <= n
    ensures Hops(CopiesFrom(m, i, n), n) == n - i - if i <= m.src < n then 1 else 0
    decreases n - i
  {
    if i < n {
      HopsOfCopies(m, i + 1, n);
      var head := if m.src != i then [m.(dst := i)] else [];
      HopsSplit(head, CopiesFrom(m, i + 1, n), n);
    }
  }

  /** An active proxy tells, the router copies a message, or a copy is delivered. */
  ghost predicate Settles(s: Cluster, m: Move) {
    match m
    case At(_, _) => false
    case Propagate(j) => j < |s.proxies| && s.proxies[j].src >= 0
    case _ => true
  }

  /** Each such move is one less to do, in whatever order they are made. */
  lemma MoveSettles(c: Config, v: Variant, s: Cluster, m: Move)
    requires ClusterShaped(c, s) && Allowed(c, s, m) && Settles(s, m)
    ensures var t := MoveTo(c, v, s, m);
            ToDo(t) == ToDo(s) - 1 && t.counted == s.counted && |t.proxies| == |s.proxies|
  {
    hide Homed, Step, Hops, Actives;
    var n := |s.proxies|;
    match m
    case Propagate(j) =>
      ActivesUpdate(s.proxies, j, Told(s.proxies[j]));
      HopsSplit(s.flight, [Message(s.proxies[j].src, EVERYONE, s.proxies[j].unsent)], n);
      OneMessage(Message(s.proxies[j].src, EVERYONE, s.proxies[j].unsent), n);
      assert (Actives(s.proxies) - 1) * (n + 1) == Actives(s.proxies) * (n + 1) - (n + 1);
    case Broadcast(k) =>
      HopsWithout(s.flight, k, n);
      HopsOfCopies(s.flight[k], 0, n);
      HopsSplit(Without(s.flight, k), CopiesFrom(s.flight[k], 0, n), n);
    case Deliver(k) =>
      HopsWithout(s.flight, k, n);
      var j := s.flight[k].dst;
      ActivesUpdate(s.proxies, j, Receive(c, v, s.proxies[j], s.flight[k].lengths));
  }

  lemma OneMessage(m: Message, n: nat)
    ensures Hops([m], n) == if m.dst == EVERYONE then n else 1
  {
    assert [m][1..] == [];
  }

  /** There is nothing to do exactly if the state is settled; else some such move is allowed. */
  lemma SomethingToDo(c: Config, s: Cluster) returns (m: Move)
    requires ClusterShaped(c, s)
    ensures ToDo(s) == 0 <==> Settled(s)
    ensures !Settled(s) ==> Allowed(c, s, m) && Settles(s, m)
  {
    hide Homed;
    m := Propagate(0);
    if s.flight != [] {
      HasHops(s.flight, |s.proxies|);
      m := if s.flight[0].dst == EVERYONE then Broadcast(0) else Deliver(0);
    } else {
      var k := FirstActive(s.proxies);
      m := Propagate(k);
    }
  }

  lemma HasHops(flight: seq<Message>, n: nat)
    requires flight != []
    ensures n > 0 ==> Hops(flight, n) > 0
  {
  }

  lemma {:induction false} FirstActive(ps: seq<Proxy>) returns (k: nat)
    ensures Actives(ps) == 0 <==> forall j :: 0 <= j < |ps| ==> ps[j].src < 0
    ensures Actives(ps) > 0 ==> k < |ps| && ps[k].src >= 0
  {
    k := 0;
    if ps != [] && ps[0].src < 0 {
      k := FirstActive(ps[1..]);
      k := k + 1;
    }
  }

  /** From every reachable state, as many moves as there are to do, in whatever order, bring all proxies to know what
      the others had counted: such moves can neither go on longer nor get stuck before. */
  lemma {:induction false} Settling(c: Config, v: Variant, n: nat, states: seq<Cluster>, moves: seq<Move>, lo: nat, hi: nat)
    requires c.Valid() && IsRun(c, v, states, moves) && states[0] == Start(c, n) && lo <= hi < |states|
    requires forall i :: lo <= i < hi ==> Settles(states[i], moves[i])
    ensures ToDo(states[hi]) == ToDo(states[lo]) - (hi - lo) && states[hi].counted == states[lo].counted
    ensures hi - lo == ToDo(states[lo]) <==> Settled(states[hi])
    decreases hi
  {
    hide MoveTo, ToDo, Settled, Settles, ClusterShaped;
    Conservation(c, v, n, states, moves, hi);
    var m := SomethingToDo(c, states[hi]);
    if lo < hi {
      Settling(c, v, n, states, moves, lo, hi - 1);
      MoveSettles(c, v, states[hi - 1], moves[hi - 1]);
    }
  }
}
