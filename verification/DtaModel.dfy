/** Deadline- and lag-aware dispatching over many servers (DTA), as functions from one state to the next. */
module DtaModel {
  import opened Options
  import opened JobQueues
  import opened RequestIds

  /** The request a packet belongs to. */
  function Rid(p: Packet): nat {
    p.id / CID_OFFSET * CID_OFFSET + p.subid
  }

  /** `lag` is the share of a request's packets that counts as postponed, `delay` the delay each application wants. */
  datatype Config = Config(servers: nat, degree: int, lag: real, delay: seq<real>)

  const NO_PACKET := -1

  /** One request: its deadline, its packets by progress, and per server a packet waiting there, if any. */
  datatype Request = Request(deadline: real, total: int, waiting: int, serving: int, served: int, slots: seq<int>)

  /** Service statistics of one server; `last` is negative before the first packet has finished. */
  datatype Timing = Timing(service: real, interval: real, last: real)

  datatype State = State(requests: map<int, Request>, waiting: map<int, Packet>, dispatched: map<int, Packet>,
                         edf: seq<seq<Packet>>, lr: seq<seq<Packet>>, degrees: seq<int>)

  ghost predicate Shaped(c: Config, s: State) {
    |s.edf| == |s.lr| == |s.degrees| == c.servers
  }

  function Init(c: Config): (s: State)
    ensures Shaped(c, s)
  {
    State(map[], map[], map[], seq(c.servers, _ => []), seq(c.servers, _ => []), seq(c.servers, _ => 0))
  }

  /** Conversion from floating point to integer drops the fraction. */
  function Truncate(x: real): int {
    if x >= 0.0 then x.Floor else -((-x).Floor)
  }

  function Threshold(c: Config, total: int): int {
    Truncate(total as real * c.lag)
  }

  /** So few packets of the request are still to be dispatched that it counts as lagging behind. */
  predicate Lagging(c: Config, r: Request) {
    r.total - r.serving - r.served <= Threshold(c, r.total)
  }

  // ---------------------------------------------------------------- push

  function Arriving(c: Config, s: State, p: Packet, now: real): Request {
    if Rid(p) in s.requests then s.requests[Rid(p)]
    else Request(now + (if p.app < |c.delay| then c.delay[p.app] else 0.0), p.totalSubreqs, 0, 0, 0,
                 seq(c.servers, _ => NO_PACKET))
  }

  ghost predicate Pushable(c: Config, s: State, p: Packet) {
    && Shaped(c, s) && p.server < c.servers && p.app < |c.delay|
    && (Rid(p) in s.requests ==> |s.requests[Rid(p)].slots| == c.servers)
  }

  function Push(c: Config, s: State, p: Packet, now: real): (s': State)
    requires Pushable(c, s, p)
    ensures Shaped(c, s')
  {
    var r := Arriving(c, s, p, now);
    var r' := r.(waiting := r.waiting + 1, slots := r.slots[p.server := p.id]);
    s.(requests := s.requests[Rid(p) := r'],
       waiting := s.waiting[p.id := p],
       edf := s.edf[p.server := InsertByDeadline(c.delay, Live(s.edf[p.server], s.waiting.Keys), p)],
       lr := if Lagging(c, r') then s.lr[p.server := s.lr[p.server] + [p]] else s.lr)
  }

  // ---------------------------------------------------------------- dispatch

  /** The queue from its first packet of interest on. */
  function Purged(q: seq<Packet>, ids: set<int>): seq<Packet> {
    if q == [] || q[0].id in ids then q else Purged(q[1..], ids)
  }

  /** Puts the packets in the slots from `i` on at the end of the lag queues. */
  function Release(lr: seq<seq<Packet>>, waiting: map<int, Packet>, slots: seq<int>, i: nat): (lr': seq<seq<Packet>>)
    ensures |lr'| == |lr|
    decreases |slots| - i
  {
    if i >= |slots| then lr
    else if slots[i] >= 0 && slots[i] in waiting && waiting[slots[i]].server < |lr| then
      var w := waiting[slots[i]];
      Release(lr[w.server := lr[w.server] + [w]], waiting, slots, i + 1)
    else Release(lr, waiting, slots, i + 1)
  }

  /** The bookkeeping when packet `p` goes to its server. */
  function Sent(c: Config, s: State, p: Packet): (s': State)
    requires Shaped(c, s) && p.server < c.servers && Rid(p) in s.requests && |s.requests[Rid(p)].slots| == c.servers
    ensures Shaped(c, s')
  {
    var waiting := s.waiting - {p.id};
    var r := s.requests[Rid(p)];
    var r' := r.(waiting := r.waiting - 1, serving := r.serving + 1, slots := r.slots[p.server := NO_PACKET]);
    var s' := s.(degrees := s.degrees[p.server := s.degrees[p.server] + 1], waiting := waiting,
                 dispatched := s.dispatched[p.id := p]);
    if Lagging(c, r') then
      s'.(requests := s.requests[Rid(p) := r'.(slots := seq(c.servers, _ => NO_PACKET))],
          lr := Release(s.lr, waiting, r'.slots, 0))
    else
      s'.(requests := s.requests[Rid(p) := r'])
  }

  /** The deadline leaves no time to serve another packet first. */
  predicate Urgent(c: Config, r: Request, t: Timing, degree: int, now: real) {
    r.deadline <= now + t.service || (degree == c.degree - 1 && r.deadline <= now + t.service + t.interval)
  }

  ghost predicate Sendable(c: Config, s: State) {
    && Shaped(c, s)
    && forall q, p :: (q in s.edf || q in s.lr) && p in q && p.id in s.waiting ==>
         p.server < c.servers && Rid(p) in s.requests && |s.requests[Rid(p)].slots| == c.servers
  }

  lemma {:induction false} PurgedParts(q: seq<Packet>, ids: set<int>)
    ensures var r := Purged(q, ids);
            && |r| <= |q| && r == q[|q| - |r|..]
            && (forall i :: 0 <= i < |q| - |r| ==> q[i].id !in ids)
            && (r != [] ==> r[0] in q && r[0].id in ids)
  {
    if q != [] && q[0].id !in ids {
      PurgedParts(q[1..], ids);
    }
  }

  /** Sends the first waiting packet by deadline, unless there is time to send one that lags behind. */
  function Dispatch(c: Config, s: State, i: nat, t: Timing, now: real): (r: (State, Option<Packet>))
    requires Sendable(c, s) && i < c.servers
    ensures Shaped(c, r.0)
  {
    var ids := s.waiting.Keys;
    PurgedParts(s.edf[i], ids);
    PurgedParts(s.lr[i], ids);
    if s.degrees[i] >= c.degree && c.degree > 0 then (s, None)
    else
      var edf := Purged(s.edf[i], ids);
      if edf == [] then (s.(edf := s.edf[i := edf]), None)
      else if Urgent(c, s.requests[Rid(edf[0])], t, s.degrees[i], now) then
        (Sent(c, s.(edf := s.edf[i := edf[1..]]), edf[0]), Some(edf[0]))
      else
        var lr := Purged(s.lr[i], ids);
        if lr == [] then (Sent(c, s.(edf := s.edf[i := edf[1..]], lr := s.lr[i := lr]), edf[0]), Some(edf[0]))
        else (Sent(c, s.(edf := s.edf[i := edf], lr := s.lr[i := lr[1..]]), lr[0]), Some(lr[0]))
  }

  /** Tries the servers in order, from `i` on. */
  function DispatchFrom(c: Config, s: State, i: nat, timing: seq<Timing>, now: real): (r: (State, Option<Packet>))
    requires Sendable(c, s) && |timing| == c.servers
    decreases c.servers - i
  {
    if i >= c.servers then (s, None)
    else if s.edf[i] != [] && s.degrees[i] < c.degree && c.degree > 0 then
      var r := Dispatch(c, s, i, timing[i], now);
      if r.1.Some? then r
      else
        DispatchNothing(c, s, i, timing[i], now);
        DispatchFrom(c, r.0, i + 1, timing, now)
    else DispatchFrom(c, s, i + 1, timing, now)
  }

  lemma DispatchNothing(c: Config, s: State, i: nat, t: Timing, now: real)
    requires Sendable(c, s) && i < c.servers && Dispatch(c, s, i, t, now).1 == None
    ensures Sendable(c, Dispatch(c, s, i, t, now).0)
  {
  }

  // ---------------------------------------------------------------- completion

  function Finish(c: Config, s: State, id: nat): (r: (State, Option<Packet>))
    requires Shaped(c, s)
    ensures Shaped(c, r.0)
  {
    if id !in s.dispatched then (s, None)
    else
      var p := s.dispatched[id];
      if p.server >= c.servers || Rid(p) !in s.requests then (s, None)
      else
        var r := s.requests[Rid(p)];
        var r' := r.(serving := r.serving - 1, served := r.served + 1);
        var requests := if r'.served == r'.total then s.requests - {Rid(p)} else s.requests[Rid(p) := r'];
        (State(requests, s.waiting, s.dispatched - {id},
               s.edf[p.server := Live(s.edf[p.server], s.waiting.Keys)],
               s.lr[p.server := Live(s.lr[p.server], s.waiting.Keys)],
               s.degrees[p.server := s.degrees[p.server] - 1]),
         Some(p))
  }

  // ---------------------------------------------------------------- what every step keeps

  /** The packets of a map that belong to a request, and those on a server. */
  function Of(m: map<int, Packet>, rid: nat): set<int> {
    set id | id in m && Rid(m[id]) == rid
  }

  function On(m: map<int, Packet>, i: nat): set<int> {
    set id | id in m && m[id].server == i
  }

  ghost predicate PacketsOk(c: Config, s: State) {
    && Shaped(c, s)
    && s.waiting.Keys !! s.dispatched.Keys
    && (forall id :: id in s.waiting ==>
          s.waiting[id].id == id && s.waiting[id].server < c.servers && Rid(s.waiting[id]) in s.requests)
    && (forall id :: id in s.dispatched ==>
          s.dispatched[id].id == id && s.dispatched[id].server < c.servers && Rid(s.dispatched[id]) in s.requests)
  }

  /** A request counts exactly its packets, and it is forgotten once all are served. */
  ghost predicate CountsOk(c: Config, s: State) {
    forall rid :: rid in s.requests ==>
      var r := s.requests[rid];
      && r.waiting == |Of(s.waiting, rid)| && r.serving == |Of(s.dispatched, rid)|
      && 0 <= r.served < r.total && r.waiting + r.serving + r.served <= r.total
  }

  /** A slot names a packet of the request that waits at that server, or none. */
  ghost predicate SlotsOk(c: Config, s: State) {
    forall rid :: rid in s.requests ==>
      && |s.requests[rid].slots| == c.servers
      && forall i :: 0 <= i < c.servers ==> SlotOk(s, rid, i)
  }

  ghost predicate SlotOk(s: State, rid: nat, i: nat)
    requires rid in s.requests && i < |s.requests[rid].slots|
  {
    var id := s.requests[rid].slots[i];
    id == NO_PACKET || (id >= 0 && id in s.waiting && s.waiting[id].server == i && Rid(s.waiting[id]) == rid)
  }

  /** Each server is sent no more than it may have. */
  ghost predicate DegreesOk(c: Config, s: State) {
    && Shaped(c, s)
    && forall i :: 0 <= i < c.servers ==>
         s.degrees[i] == |On(s.dispatched, i)| && (c.degree > 0 ==> s.degrees[i] <= c.degree)
  }

  /** A packet in some queue is waiting or being served: none has finished. */
  ghost predicate Known(s: State, p: Packet) {
    (p.id in s.waiting && s.waiting[p.id] == p) || (p.id in s.dispatched && s.dispatched[p.id] == p)
  }

  ghost predicate QueuesOk(c: Config, s: State) {
    && Shaped(c, s)
    && (forall i, p :: 0 <= i < c.servers && p in s.edf[i] ==> p.server == i && Known(s, p))
    && (forall i, p :: 0 <= i < c.servers && p in s.lr[i] ==> p.server == i && Known(s, p))
    && (forall id :: id in s.waiting && s.waiting[id].server < c.servers ==>
          s.waiting[id] in s.edf[s.waiting[id].server])
    && (forall i, j, k :: 0 <= i < c.servers && 0 <= j < k < |s.edf[i]| ==> s.edf[i][j].id != s.edf[i][k].id)
    && (forall i :: 0 <= i < c.servers ==> ByDeadline(c.delay, s.edf[i]))
  }

  /** Waiting packets in the lag queues belong to requests that lag behind. */
  ghost predicate LagOk(c: Config, s: State) {
    && Shaped(c, s)
    && forall i, p :: 0 <= i < c.servers && p in s.lr[i] && p.id in s.waiting && Rid(p) in s.requests ==>
         Lagging(c, s.requests[Rid(p)])
  }

  ghost predicate Inv(c: Config, s: State) {
    PacketsOk(c, s) && CountsOk(c, s) && SlotsOk(c, s) && DegreesOk(c, s) && QueuesOk(c, s) && LagOk(c, s)
  }

  /** What callers owe: a new packet, for a server and an application there is, of a request that still has
      packets to come; and ID numbers that fit the integer the request ID is kept in. */
  ghost predicate MayPush(c: Config, s: State, p: Packet) {
    && Pushable(c, s, p)
    && p.id !in s.waiting && p.id !in s.dispatched
    && Rid(p) < 0x8000_0000
    && if Rid(p) in s.requests then
         var r := s.requests[Rid(p)]; r.waiting + r.serving + r.served < r.total
       else p.totalSubreqs > 0
  }
}
