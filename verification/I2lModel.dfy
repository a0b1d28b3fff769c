/** The two-level scheduler: per-application token buckets (SARC) in front of one deadline queue (AVATAR). */
module I2lModel {
  import opened Basics
  import opened Options
  import opened JobQueues

  /** The tokens each application gets at a replenishment, and the delay it wants. */
  datatype Config = Config(max: seq<real>, delay: seq<real>)

  /** `buckets` hold what waits for tokens; `edf` and `os` are the deadline queue and what has been sent to the
      server.  `spare` is the server's spareness as the upper level last saw it, `idle` as the lower level sees it,
      and `limit` how many outstanding requests the lower level allows. */
  datatype State = State(tokens: seq<real>, buckets: seq<seq<Packet>>, edf: seq<Packet>, os: seq<Packet>,
                         spare: bool, idle: bool, limit: real)

  ghost predicate Shaped(c: Config, s: State) {
    |s.tokens| == |s.buckets| == |c.max| == |c.delay|
  }

  function Init(c: Config, limit: real): State {
    State(c.max, seq(|c.max|, _ => []), [], [], true, false, limit)
  }

  /** The first application with a request waiting and a token left. */
  function Ready(s: State, i: nat): (a: nat)
    requires |s.tokens| == |s.buckets| && i <= |s.buckets|
    ensures i <= a <= |s.buckets| && (a < |s.buckets| ==> s.buckets[a] != [] && s.tokens[a] > 0.0)
    ensures forall h :: i <= h < a ==> s.buckets[h] == [] || s.tokens[h] <= 0.0
    decreases |s.buckets| - i
  {
    if i == |s.buckets| || (s.buckets[i] != [] && s.tokens[i] > 0.0) then i else Ready(s, i + 1)
  }

  function Queued(q: seq<seq<Packet>>): nat {
    if q == [] then 0 else |q[0]| + Queued(q[1..])
  }

  lemma {:induction false} QueuedLess(q: seq<seq<Packet>>, a: nat)
    requires a < |q| && q[a] != []
    ensures Queued(q[a := q[a][1..]]) == Queued(q) - 1
  {
    if a > 0 {
      QueuedLess(q[1..], a - 1);
      assert q[a := q[a][1..]][1..] == q[1..][a - 1 := q[a][1..]];
    }
  }

  /** One request passes from its bucket to the deadline queue. */
  function Pass(c: Config, s: State, a: nat): State
    requires Shaped(c, s) && a < |s.buckets| && s.buckets[a] != []
  {
    s.(tokens := s.tokens[a := s.tokens[a] - 1.0], buckets := s.buckets[a := s.buckets[a][1..]],
       edf := InsertByDeadline(c.delay, s.edf, s.buckets[a][0]))
  }

  /** Requests pass as long as some application has both a request and a token; the second result is what passed. */
  function Drain(c: Config, s: State): (r: (State, seq<Packet>))
    requires Shaped(c, s)
    ensures Shaped(c, r.0)
    decreases Queued(s.buckets)
  {
    var a := Ready(s, 0);
    if a == |s.buckets| then (s, [])
    else
      QueuedLess(s.buckets, a);
      var (s', rest) := Drain(c, Pass(c, s, a));
      (s', [s.buckets[a][0]] + rest)
  }

  function Replenished(c: Config, s: State): State {
    s.(tokens := c.max)
  }

  /** A request arrives: it passes at once if there is a token, else it waits; with capacity to spare the buckets are
      replenished. */
  function Arrive(c: Config, s: State, p: Packet): (r: (State, seq<Packet>))
    requires Shaped(c, s) && p.app < |c.max|
    ensures Shaped(c, r.0)
  {
    if s.tokens[p.app] > 0.0 then
      (s.(tokens := s.tokens[p.app := s.tokens[p.app] - 1.0], edf := InsertByDeadline(c.delay, s.edf, p)), [p])
    else
      var queued := s.(buckets := s.buckets[p.app := s.buckets[p.app] + [p]]);
      if s.spare then Drain(c, Replenished(c, queued)) else (queued, [])
  }

  /** The lower level sends its first request if one has missed its deadline or the server has room. */
  function Send(c: Config, s: State, now: real): (State, Option<Packet>) {
    if DueBefore(c.delay, s.edf, now) != 0 || |s.os| as real < s.limit then
      if s.edf != [] then (s.(edf := s.edf[1..], os := s.os + [s.edf[0]]), Some(s.edf[0]))
      else (s.(idle := s.idle || |s.os| as real < s.limit * 0.9), None)
    else (s.(idle := false), None)
  }

  /** Nothing sent, and the server has become spare: replenish, and try again. */
  function Ask(c: Config, s: State, now: real): (r: (State, Option<Packet>, seq<Packet>))
    requires Shaped(c, s)
    ensures Shaped(c, r.0)
  {
    var (s1, r) := Send(c, s, now);
    if r.Some? then (s1, r, [])
    else if !s.spare && s1.idle then
      var (s2, passed) := Drain(c, Replenished(c, s1));
      var (s3, r3) := Send(c, s2, now);
      (s3.(spare := s3.idle), r3, passed)
    else (s1.(spare := s1.idle), None, [])
  }

  function Replenish(c: Config, s: State): (r: (State, seq<Packet>))
    requires Shaped(c, s)
    ensures Shaped(c, r.0)
  {
    Drain(c, Replenished(c, s))
  }

  /** The end of a lower-level window: a new limit, and no spareness if a deadline was missed. */
  function Window(s: State, limit: real, missed: bool): State {
    s.(limit := limit, idle := s.idle && !missed)
  }

  function Pop(s: State, id: nat): (State, Option<Packet>) {
    var k := Find(s.os, id);
    if k < |s.os| then (s.(os := s.os[..k] + s.os[k + 1..]), Some(s.os[k])) else (s, None)
  }

  // ---------------------------------------------------------------- what every step keeps

  /** No application has both tokens and requests waiting for them. */
  ghost predicate Inv(c: Config, s: State) {
    && Shaped(c, s)
    && (forall a :: 0 <= a < |s.tokens| ==> s.tokens[a] <= 0.0 || s.buckets[a] == [])
    && (forall a, p :: 0 <= a < |s.buckets| && p in s.buckets[a] ==> p.app == a)
    && ByDeadline(c.delay, s.edf)
  }

  ghost predicate Ordered(c: Config, s: State) {
    && Shaped(c, s)
    && (forall a, p :: 0 <= a < |s.buckets| && p in s.buckets[a] ==> p.app == a)
    && ByDeadline(c.delay, s.edf)
  }

  /** The packets of one application, in order. */
  function Of(ps: seq<Packet>, a: nat): seq<Packet> {
    if ps == [] then [] else (if ps[0].app == a then [ps[0]] else []) + Of(ps[1..], a)
  }

  lemma {:induction false} OfAppend(x: seq<Packet>, y: seq<Packet>, a: nat)
    ensures Of(x + y, a) == Of(x, a) + Of(y, a)
  {
    if x == [] {
      assert x + y == y;
    } else {
      OfAppend(x[1..], y, a);
      assert (x + y)[1..] == x[1..] + y;
      Associative(if x[0].app == a then [x[0]] else [], Of(x[1..], a), Of(y, a));
    }
  }

  /** What a step does to the buckets and the deadline queue when `passed` went from one to the other. */
  ghost predicate Moved(s: State, s': State, passed: seq<Packet>) {
    && |s'.buckets| == |s.buckets|
    && (forall a :: 0 <= a < |s.buckets| ==> Of(passed, a) + s'.buckets[a] == s.buckets[a])
    && multiset(s'.edf) == multiset(s.edf) + multiset(passed)
  }

  /** Each request that passes takes one token of its application. */
  ghost predicate Paid(s: State, s': State, passed: seq<Packet>) {
    && |s'.tokens| == |s.tokens|
    && forall a :: 0 <= a < |s.tokens| ==>
         && s'.tokens[a] == s.tokens[a] - |Of(passed, a)| as real
         && (Of(passed, a) != [] ==> s'.tokens[a] > -1.0)
  }

  lemma PassKeeps(c: Config, s: State, a: nat)
    requires Ordered(c, s) && a < |s.buckets| && s.buckets[a] != [] && s.tokens[a] > 0.0
    ensures Ordered(c, Pass(c, s, a)) && Moved(s, Pass(c, s, a), [s.buckets[a][0]]) && Paid(s, Pass(c, s, a), [s.buckets[a][0]])
  {
    hide InsertByDeadline, ByDeadline;
    var p := s.buckets[a][0];
    InsertKeepsOrder(c.delay, s.edf, p);
    InsertKeepsPackets(c.delay, s.edf, p);
    assert p.app == a;
    OfOne(p);
  }

  lemma OfOne(p: Packet)
    ensures forall a :: Of([p], a) == if p.app == a then [p] else []
  {
    assert [p][1..] == [];
  }

  /** Draining keeps the order of each application's requests, pays a token for each that passes, and ends with no
      application having both tokens and requests. */
  lemma {:induction false} DrainKeeps(c: Config, s: State)
    requires Ordered(c, s)
    ensures var (s', passed) := Drain(c, s);
            && Inv(c, s') && Moved(s, s', passed) && Paid(s, s', passed)
            && s'.os == s.os && s'.spare == s.spare && s'.idle == s.idle && s'.limit == s.limit
    decreases Queued(s.buckets)
  {
    hide InsertByDeadline, ByDeadline, Of;
    var a := Ready(s, 0);
    if a == |s.buckets| {
      NothingPassed();
    } else {
      QueuedLess(s.buckets, a);
      PassKeeps(c, s, a);
      var s1 := Pass(c, s, a);
      DrainKeeps(c, s1);
      var (s', rest) := Drain(c, s1);
      PassedMore(s, s1, s', s.buckets[a][0], rest);
    }
  }

  lemma NothingPassed()
    ensures forall a :: Of([], a) == []
  {
  }

  lemma PassedMore(s: State, s1: State, s': State, p: Packet, rest: seq<Packet>)
    requires Moved(s, s1, [p]) && Paid(s, s1, [p]) && Moved(s1, s', rest) && Paid(s1, s', rest)
    requires |s.buckets| == |s.tokens|
    ensures Moved(s, s', [p] + rest) && Paid(s, s', [p] + rest)
  {
    hide Of;
    forall a | 0 <= a < |s.buckets|
      ensures Of([p] + rest, a) + s'.buckets[a] == s.buckets[a]
      ensures s'.tokens[a] == s.tokens[a] - |Of([p] + rest, a)| as real
      ensures Of([p] + rest, a) != [] ==> s'.tokens[a] > -1.0
    {
      OfAppend([p], rest, a);
      Associative(Of([p], a), Of(rest, a), s'.buckets[a]);
    }
  }

  // ---------------------------------------------------------------- whole runs

  /** A request arrives; the next one to send is asked for; the time to replenish comes; a window ends with whatever
      limit the controller computes; a request completes. */
  datatype Event = Arrival(p: Packet) | Asked(now: real) | Timer | WindowEnd(limit: real, missed: bool) | Complete(id: nat)

  /** The state after an event, the requests that passed to the deadline queue, what was sent, what completed, and
      whether the tokens were replenished on the way. */
  datatype Effect = Effect(state: State, passed: seq<Packet>, sent: Option<Packet>, popped: Option<Packet>, refilled: bool)

  ghost predicate Legal(c: Config, s: State, e: Event) {
    Shaped(c, s) && (e.Arrival? ==> e.p.app < |c.max|)
  }

  ghost function Step(c: Config, s: State, e: Event): (r: Effect)
    requires Legal(c, s, e)
  {
    match e
    case Arrival(p) =>
      var (s', passed) := Arrive(c, s, p);
      Effect(s', passed, None, None, s.tokens[p.app] <= 0.0 && s.spare)
    case Asked(now) =>
      var (s', r, passed) := Ask(c, s, now);
      Effect(s', passed, r, None, Send(c, s, now).1 == None && !s.spare && Send(c, s, now).0.idle)
    case Timer =>
      var (s', passed) := Replenish(c, s);
      Effect(s', passed, None, None, true)
    case WindowEnd(limit, missed) => Effect(Window(s, limit, missed), [], None, None, false)
    case Complete(id) => Effect(Pop(s, id).0, [], None, Pop(s, id).1, false)
  }

  function Seq(o: Option<Packet>): seq<Packet> {
    if o.Some? then [o.value] else []
  }

  function Arrived(e: Event): seq<Packet> {
    if e.Arrival? then [e.p] else []
  }

  /** Each application's requests pass in the order they arrived. */
  ghost predicate OrderOk(s: State, e: Event, f: Effect) {
    && |f.state.buckets| == |s.buckets|
    && forall a :: 0 <= a < |s.buckets| ==>
         Of(f.passed, a) + f.state.buckets[a] == s.buckets[a] + Of(Arrived(e), a)
  }

  /** Every request that has passed is in the deadline queue or at the server until it completes. */
  ghost predicate PartsOk(s: State, f: Effect) {
    multiset(f.state.edf) + multiset(f.state.os) + multiset(Seq(f.popped))
      == multiset(s.edf) + multiset(s.os) + multiset(f.passed)
  }

  /** Each request that passes takes a token, counted from the replenishment if there was one. */
  ghost predicate TokensOk(c: Config, s: State, f: Effect) {
    && |f.state.tokens| == |s.tokens| == |c.max|
    && forall a :: 0 <= a < |c.max| ==>
         && f.state.tokens[a] == (if f.refilled then c.max[a] else s.tokens[a]) - |Of(f.passed, a)| as real
         && (Of(f.passed, a) != [] ==> f.state.tokens[a] > -1.0)
  }

  ghost predicate StepOk(c: Config, s: State, e: Event, f: Effect) {
    Inv(c, f.state) && OrderOk(s, e, f) && PartsOk(s, f) && TokensOk(c, s, f)
  }

  lemma HeadMoves(q: seq<Packet>, os: seq<Packet>)
    requires q != []
    ensures multiset(q[1..]) + multiset(os + [q[0]]) == multiset(q) + multiset(os)
  {
    assert q == [q[0]] + q[1..];
  }

  lemma TailOrdered(delay: seq<real>, q: seq<Packet>)
    requires ByDeadline(delay, q) && q != []
    ensures ByDeadline(delay, q[1..])
  {
  }

  lemma SendMoves(c: Config, s: State, now: real)
    requires Ordered(c, s)
    ensures var (s', r) := Send(c, s, now);
            && Ordered(c, s') && s'.tokens == s.tokens && s'.buckets == s.buckets && s'.spare == s.spare
            && multiset(s'.edf) + multiset(s'.os) == multiset(s.edf) + multiset(s.os)
  {
    hide ByDeadline, DueBefore;
    if s.edf != [] {
      HeadMoves(s.edf, s.os);
      TailOrdered(c.delay, s.edf);
    }
  }

  lemma ArrivalOk(c: Config, s: State, p: Packet)
    requires Inv(c, s) && Legal(c, s, Arrival(p))
    ensures StepOk(c, s, Arrival(p), Step(c, s, Arrival(p)))
  {
    hide InsertByDeadline, ByDeadline, Of, Drain;
    OfOne(p);
    NothingPassed();
    if s.tokens[p.app] > 0.0 {
      PassesAtOnce(c, s, p);
    } else {
      var queued := s.(buckets := s.buckets[p.app := s.buckets[p.app] + [p]]);
      if s.spare {
        DrainKeeps(c, Replenished(c, queued));
      }
    }
  }

  lemma PassesAtOnce(c: Config, s: State, p: Packet)
    requires Inv(c, s) && p.app < |c.max| && s.tokens[p.app] > 0.0
    ensures StepOk(c, s, Arrival(p), Step(c, s, Arrival(p)))
  {
    hide InsertByDeadline, ByDeadline, Of;
    OfOne(p);
    InsertKeepsOrder(c.delay, s.edf, p);
    InsertKeepsPackets(c.delay, s.edf, p);
    assert s.buckets[p.app] == [];
  }

  lemma AskOk(c: Config, s: State, now: real)
    requires Inv(c, s)
    ensures StepOk(c, s, Asked(now), Step(c, s, Asked(now)))
  {
    hide InsertByDeadline, ByDeadline, Of, Drain, Send;
    NothingPassed();
    SendMoves(c, s, now);
    var (s1, r) := Send(c, s, now);
    if r == None && !s.spare && s1.idle {
      DrainKeeps(c, Replenished(c, s1));
      SendMoves(c, Drain(c, Replenished(c, s1)).0, now);
    }
  }

  lemma Removed(os: seq<Packet>, k: nat)
    requires k < |os|
    ensures multiset(os[..k] + os[k + 1..]) + multiset([os[k]]) == multiset(os)
  {
    assert os == os[..k] + [os[k]] + os[k + 1..];
  }

  lemma PopParts(s: State, id: nat)
    ensures PartsOk(s, Effect(Pop(s, id).0, [], None, Pop(s, id).1, false))
  {
    hide Find;
    var k := Find(s.os, id);
    if k < |s.os| {
      Removed(s.os, k);
    }
  }

  lemma PopOk(c: Config, s: State, id: nat)
    requires Inv(c, s)
    ensures StepOk(c, s, Complete(id), Step(c, s, Complete(id)))
  {
    hide ByDeadline, Of, Inv, PartsOk;
    NothingPassed();
    InvIsShaped(c, s);
    PopParts(s, id);
    SameQueues(c, s, Pop(s, id).0);
  }

  lemma InvIsShaped(c: Config, s: State)
    requires Inv(c, s)
    ensures Shaped(c, s)
  {
  }

  lemma SameQueues(c: Config, s: State, s': State)
    requires Inv(c, s) && s'.tokens == s.tokens && s'.buckets == s.buckets && s'.edf == s.edf
    ensures Inv(c, s')
  {
  }

  lemma StepIsOk(c: Config, s: State, e: Event)
    requires Inv(c, s) && Legal(c, s, e)
    ensures StepOk(c, s, e, Step(c, s, e))
  {
    hide ByDeadline, Of, Drain, Arrive, Ask, Pop, Send;
    match e
    case Arrival(p) => ArrivalOk(c, s, p);
    case Asked(now) => AskOk(c, s, now);
    case Timer =>
      NothingPassed();
      DrainKeeps(c, Replenished(c, s));
    case WindowEnd(limit, missed) =>
      NothingPassed();
    case Complete(id) => PopOk(c, s, id);
  }

  ghost predicate LegalRun(c: Config, s: State, events: seq<Event>)
    decreases |events|
  {
    events != [] ==> Legal(c, s, events[0]) && LegalRun(c, Step(c, s, events[0]).state, events[1..])
  }

  ghost function Run(c: Config, s: State, events: seq<Event>): State
    requires LegalRun(c, s, events)
    decreases |events|
  {
    if events == [] then s else Run(c, Step(c, s, events[0]).state, events[1..])
  }

  /** All that arrive, pass and complete in a run, in order. */
  ghost function Arrivals(events: seq<Event>): seq<Packet> {
    if events == [] then [] else Arrived(events[0]) + Arrivals(events[1..])
  }

  ghost function Passed(c: Config, s: State, events: seq<Event>): seq<Packet>
    requires LegalRun(c, s, events)
    decreases |events|
  {
    if events == [] then []
    else var f := Step(c, s, events[0]); f.passed + Passed(c, f.state, events[1..])
  }

  ghost function Completed(c: Config, s: State, events: seq<Event>): seq<Packet>
    requires LegalRun(c, s, events)
    decreases |events|
  {
    if events == [] then []
    else var f := Step(c, s, events[0]); Seq(f.popped) + Completed(c, f.state, events[1..])
  }

  /** Over every run the requests of an application reach the deadline queue in the order they arrived: those that have
      passed and those that still wait are exactly the arrivals, in order. */
  lemma {:induction false} PassedInOrder(c: Config, s: State, events: seq<Event>, a: nat)
    requires Inv(c, s) && LegalRun(c, s, events) && a < |c.max|
    ensures var s' := Run(c, s, events);
            && Inv(c, s')
            && Of(Passed(c, s, events), a) + s'.buckets[a] == s.buckets[a] + Of(Arrivals(events), a)
    decreases |events|
  {
    hide Step, Of;
    NothingPassed();
    if events == [] {
      assert [] + s.buckets[a] == s.buckets[a] + [];
    } else {
      var (e, f) := (events[0], Step(c, s, events[0]));
      StepIsOk(c, s, e);
      PassedInOrder(c, f.state, events[1..], a);
      var (rest, later) := (Passed(c, f.state, events[1..]), Arrivals(events[1..]));
      OfAppend(f.passed, rest, a);
      OfAppend(Arrived(e), later, a);
      Associative(Of(f.passed, a), Of(rest, a), Run(c, s, events).buckets[a]);
      Associative(Of(f.passed, a), f.state.buckets[a], Of(later, a));
      Associative(s.buckets[a], Of(Arrived(e), a), Of(later, a));
    }
  }

  /** Over every run each request that has passed is in the deadline queue, at the server or completed, and in only
      one of them. */
  lemma {:induction false} NothingLost(c: Config, s: State, events: seq<Event>)
    requires Inv(c, s) && LegalRun(c, s, events)
    ensures var s' := Run(c, s, events);
            multiset(s'.edf) + multiset(s'.os) + multiset(Completed(c, s, events))
              == multiset(s.edf) + multiset(s.os) + multiset(Passed(c, s, events))
    decreases |events|
  {
    if events != [] {
      hide Step, Of, Inv, OrderOk, TokensOk, PartsOk;
      var f := Step(c, s, events[0]);
      var s' := Run(c, s, events);
      StepIsOk(c, s, events[0]);
      NothingLost(c, f.state, events[1..]);
      PartsChain(s, f, s', Completed(c, f.state, events[1..]), Passed(c, f.state, events[1..]));
    }
  }

  lemma PartsChain(s: State, f: Effect, s': State, completed: seq<Packet>, passed: seq<Packet>)
    requires PartsOk(s, f)
    requires multiset(s'.edf) + multiset(s'.os) + multiset(completed)
               == multiset(f.state.edf) + multiset(f.state.os) + multiset(passed)
    ensures multiset(s'.edf) + multiset(s'.os) + multiset(Seq(f.popped) + completed)
              == multiset(s.edf) + multiset(s.os) + multiset(f.passed + passed)
  {
    hide Seq;
    Sums(multiset(s'.edf) + multiset(s'.os), multiset(completed), multiset(f.state.edf) + multiset(f.state.os),
         multiset(passed), multiset(Seq(f.popped)), multiset(s.edf) + multiset(s.os), multiset(f.passed));
  }

  lemma Sums(x: multiset<Packet>, c: multiset<Packet>, y: multiset<Packet>, p: multiset<Packet>,
             d: multiset<Packet>, z: multiset<Packet>, q: multiset<Packet>)
    requires x + c == y + p && y + d == z + q
    ensures x + (d + c) == z + (q + p)
  {
    assert x + (d + c) == (x + c) + d;
    assert (y + p) + d == (y + d) + p;
  }

  /** How many requests of an application have passed since the last replenishment, given how many had before. */
  ghost function Since(c: Config, s: State, events: seq<Event>, a: nat, before: nat): nat
    requires LegalRun(c, s, events)
    decreases |events|
  {
    if events == [] then before
    else
      var f := Step(c, s, events[0]);
      Since(c, f.state, events[1..], a, (if f.refilled then 0 else before) + |Of(f.passed, a)|)
  }

  /** Between two replenishments an application gets no more requests through than its tokens, rounded up. */
  lemma {:induction false} TokensBound(c: Config, s: State, events: seq<Event>, a: nat, before: nat)
    requires Inv(c, s) && LegalRun(c, s, events) && a < |c.max| && |s.tokens| == |c.max|
    requires s.tokens[a] == c.max[a] - before as real && (before > 0 ==> s.tokens[a] > -1.0)
    ensures var (s', n) := (Run(c, s, events), Since(c, s, events, a, before));
            |s'.tokens| == |c.max| && s'.tokens[a] == c.max[a] - n as real && (n > 0 ==> n as real < c.max[a] + 1.0)
    decreases |events|
  {
    hide Step, Of, Inv, StepOk, TokensOk, Legal;
    if events != [] {
      var (e, f) := (events[0], Step(c, s, events[0]));
      var n := (if f.refilled then 0 else before) + |Of(f.passed, a)|;
      StepTokens(c, s, e);
      TokensAfter(c, s, f, a, before);
      TokensBound(c, f.state, events[1..], a, n);
    }
  }

  lemma StepTokens(c: Config, s: State, e: Event)
    requires Inv(c, s) && Legal(c, s, e)
    ensures Inv(c, Step(c, s, e).state) && TokensOk(c, s, Step(c, s, e))
  {
    hide Step, Of, Inv, OrderOk, PartsOk, TokensOk, Legal;
    StepIsOk(c, s, e);
  }

  lemma TokensAfter(c: Config, s: State, f: Effect, a: nat, before: nat)
    requires TokensOk(c, s, f) && a < |c.max| && s.tokens[a] == c.max[a] - before as real
    requires before > 0 ==> s.tokens[a] > -1.0
    ensures var n := (if f.refilled then 0 else before) + |Of(f.passed, a)|;
            && |f.state.tokens| == |c.max| && f.state.tokens[a] == c.max[a] - n as real
            && (n > 0 ==> f.state.tokens[a] > -1.0)
  {
  }

  lemma InitIsInv(c: Config, limit: real)
    requires |c.max| == |c.delay|
    ensures Inv(c, Init(c, limit))
  {
  }
}
