/** Start-time fair queueing (SFQ) and the tag shifts of its distributed form (DSFQ),
    as functions from one scheduler state to the next.  Tags and virtual time are reals. */
module FairQueue {
  import opened Options

  const MAX_APP := 8

  datatype Packet = Packet(id: int, subid: int, app: nat, size: nat)

  datatype Job = Job(pkt: Packet, stag: real, ftag: real)

  /** What the constructor fixes: one weight per application, and the depth limit. */
  datatype Config = Config(weight: seq<real>, degree: int) {
    ghost predicate Valid() {
      && 0 < |weight| <= MAX_APP
      && forall a :: 0 <= a < |weight| ==> weight[a] > 0.0
    }
  }

  datatype State = State(waitQ: seq<seq<Job>>, osQ: seq<Job>, maxftags: seq<real>, vtime: real, startpos: nat)

  ghost predicate Shaped(c: Config, s: State) {
    && c.Valid()
    && |s.waitQ| == |c.weight| == |s.maxftags|
    && s.startpos < |c.weight|
  }

  function Init(c: Config): State {
    State(seq(|c.weight|, _ => []), [], seq(|c.weight|, _ => 0.0), 0.0, 0)
  }

  function Max(x: real, y: real): real {
    if x > y then x else y
  }

  // ---------------------------------------------------------------- push

  /** The start tag that a job arriving for application `a` gets. */
  function ArrivalTag(c: Config, s: State, a: nat): real
    requires Shaped(c, s) && a < |c.weight|
  {
    if s.waitQ[a] == [] then Max(s.maxftags[a], s.vtime)
    else s.waitQ[a][|s.waitQ[a]| - 1].ftag
  }

  function Push(c: Config, s: State, pkt: Packet): State
    requires Shaped(c, s) && pkt.app < |c.weight|
  {
    var stag := ArrivalTag(c, s, pkt.app);
    var job := Job(pkt, stag, stag + pkt.size as real / c.weight[pkt.app]);
    s.(waitQ := s.waitQ[pkt.app := s.waitQ[pkt.app] + [job]])
  }

  // ---------------------------------------------------------------- dispatch

  /** The application looked at in position `k` of the rotating scan. */
  function Slot(n: nat, startpos: nat, k: nat): (a: nat)
    requires startpos < n && k < n
    ensures a < n
  {
    if startpos + k < n then startpos + k else startpos + k - n
  }

  /** The scan's best candidate after `k` positions. */
  function Scan(waitQ: seq<seq<Job>>, startpos: nat, k: nat): (best: Option<nat>)
    requires startpos < |waitQ| && k <= |waitQ|
    ensures best.Some? ==> best.value < |waitQ| && waitQ[best.value] != []
  {
    if k == 0 then None
    else
      var best := Scan(waitQ, startpos, k - 1);
      var a := Slot(|waitQ|, startpos, k - 1);
      if waitQ[a] == [] then best
      else if best.None? || waitQ[best.value][0].stag > waitQ[a][0].stag then Some(a)
      else best
  }

  function Choice(s: State): (best: Option<nat>)
    requires s.startpos < |s.waitQ|
    ensures best.Some? ==> best.value < |s.waitQ| && s.waitQ[best.value] != []
  {
    Scan(s.waitQ, s.startpos, |s.waitQ|)
  }

  /** Every queued job starts where the one before it finishes. */
  ghost predicate Chained(queue: seq<Job>) {
    forall i :: 0 < i < |queue| ==> queue[i].stag == queue[i - 1].ftag
  }

  /** `next` after `job` left the queue in front of it: its tags start where `job` finished. */
  function Repaired(job: Job, next: Job): Job {
    next.(stag := job.ftag, ftag := next.ftag + (job.ftag - next.stag))
  }

  /** Takes the front job of application `a` into service. */
  function Serve(s: State, a: nat): State
    requires a < |s.waitQ| == |s.maxftags| && s.waitQ[a] != []
  {
    var job := s.waitQ[a][0];
    var rest := s.waitQ[a][1..];
    State(
      s.waitQ[a := if rest == [] then [] else [Repaired(job, rest[0])] + rest[1..]],
      s.osQ + [job],
      if rest == [] then s.maxftags[a := job.ftag] else s.maxftags,
      job.stag,
      if a + 1 >= |s.waitQ| then 0 else a + 1)
  }

  /** The application served by a dispatch, or none when the depth limit or an empty queue forbids it. */
  function Dispatched(c: Config, s: State): (served: Option<nat>)
    requires Shaped(c, s)
    ensures served.Some? ==> served.value < |s.waitQ| && s.waitQ[served.value] != []
  {
    if |s.osQ| >= c.degree then None else Choice(s)
  }

  function Dispatch(c: Config, s: State): State
    requires Shaped(c, s)
  {
    match Dispatched(c, s)
    case None => s
    case Some(a) => Serve(s, a)
  }

  // ---------------------------------------------------------------- completion

  /** Position of the first outstanding job with this packet ID. */
  function FindJob(osQ: seq<Job>, id: int): (i: Option<nat>)
    ensures i.Some? ==> i.value < |osQ| && osQ[i.value].pkt.id == id
                        && forall k :: 0 <= k < i.value ==> osQ[k].pkt.id != id
    ensures i.None? ==> forall k :: 0 <= k < |osQ| ==> osQ[k].pkt.id != id
  {
    if osQ == [] then None
    else if osQ[0].pkt.id == id then Some(0)
    else match FindJob(osQ[1..], id)
      case None =>
        assert forall k :: 0 < k < |osQ| ==> osQ[k] == osQ[1..][k - 1];
        None
      case Some(i) =>
        assert forall k :: 0 < k <= i + 1 ==> osQ[k] == osQ[1..][k - 1];
        Some(i + 1)
  }

  function Pop(s: State, id: int): State {
    match FindJob(s.osQ, id)
    case None => s
    case Some(i) => s.(osQ := s.osQ[..i] + s.osQ[i + 1..])
  }

  // ---------------------------------------------------------------- tag shifts from other schedulers

  /** Charging the last job of a queue (DSFQ-A and its variants, DSFQ-D). */
  function ChargeBack(queue: seq<Job>, shift: real): seq<Job> {
    if queue == [] then []
    else
      var last := |queue| - 1;
      queue[last := queue[last].(ftag := queue[last].ftag + shift)]
  }

  /** Charging the first job of a queue (DSFQ-F). */
  function ChargeFront(queue: seq<Job>, shift: real): seq<Job> {
    if queue == [] then []
    else queue[0 := queue[0].(stag := queue[0].stag + shift, ftag := queue[0].ftag + shift)]
  }

  function Shift(c: Config, lengths: seq<real>, a: nat): real
    requires c.Valid() && a < |c.weight| == |lengths|
  {
    lengths[a] / c.weight[a]
  }

  function ChargedTags(c: Config, s: State, lengths: seq<real>): (tags: seq<real>)
    requires Shaped(c, s) && |lengths| == |c.weight|
    ensures |tags| == |c.weight|
    ensures forall a :: 0 <= a < |tags| ==>
      tags[a] == if s.waitQ[a] == [] then s.maxftags[a] + Shift(c, lengths, a) else s.maxftags[a]
  {
    seq(|c.weight|, a requires 0 <= a < |c.weight| =>
      if s.waitQ[a] == [] then s.maxftags[a] + Shift(c, lengths, a) else s.maxftags[a])
  }

  function InsertBack(c: Config, s: State, lengths: seq<real>): State
    requires Shaped(c, s) && |lengths| == |c.weight|
  {
    s.(waitQ := seq(|c.weight|, a requires 0 <= a < |c.weight| => ChargeBack(s.waitQ[a], Shift(c, lengths, a))),
       maxftags := ChargedTags(c, s, lengths))
  }

  function InsertFront(c: Config, s: State, lengths: seq<real>): State
    requires Shaped(c, s) && |lengths| == |c.weight|
  {
    s.(waitQ := seq(|c.weight|, a requires 0 <= a < |c.weight| => ChargeFront(s.waitQ[a], Shift(c, lengths, a))),
       maxftags := ChargedTags(c, s, lengths))
  }

  // ---------------------------------------------------------------- runs

  datatype Event =
    | Arrive(pkt: Packet)
    | Issue
    | Finish(id: int)
    | ShiftBack(lengths: seq<real>)
    | ShiftFront(lengths: seq<real>)

  ghost predicate Legal(c: Config, e: Event) {
    match e
    case Arrive(pkt) => pkt.app < |c.weight|
    case ShiftBack(lengths) => |lengths| == |c.weight|
    case ShiftFront(lengths) => |lengths| == |c.weight|
    case _ => true
  }

  function Step(c: Config, s: State, e: Event): (t: State)
    requires Shaped(c, s) && Legal(c, e)
    ensures Shaped(c, t)
  {
    match e
    case Arrive(pkt) => Push(c, s, pkt)
    case Issue => Dispatch(c, s)
    case Finish(id) => Pop(s, id)
    case ShiftBack(lengths) => InsertBack(c, s, lengths)
    case ShiftFront(lengths) => InsertFront(c, s, lengths)
  }

  ghost predicate LegalRun(c: Config, es: seq<Event>) {
    forall i :: 0 <= i < |es| ==> Legal(c, es[i])
  }

  function Run(c: Config, s: State, es: seq<Event>): (t: State)
    requires Shaped(c, s) && LegalRun(c, es)
    ensures Shaped(c, t)
    decreases |es|
  {
    if es == [] then s else Run(c, Step(c, s, es[0]), es[1..])
  }

  /** The packet an event sends to the server. */
  function Sent(c: Config, s: State, e: Event): (sent: Option<Packet>)
    requires Shaped(c, s)
  {
    if e.Issue? && Dispatched(c, s).Some? then Some(s.waitQ[Dispatched(c, s).value][0].pkt) else None
  }

  // ---------------------------------------------------------------- what the scan means

  /** When the rotation looks at application `a`. */
  function Position(n: nat, startpos: nat, a: nat): (k: nat)
    requires startpos < n && a < n
    ensures k < n && Slot(n, startpos, k) == a
  {
    if a >= startpos then a - startpos else a + n - startpos
  }

  /** `a` is the best candidate among the first `k` positions of the rotation. */
  ghost predicate Best(waitQ: seq<seq<Job>>, startpos: nat, k: nat, a: nat)
    requires startpos < |waitQ| && k <= |waitQ|
  {
    && a < |waitQ| && Position(|waitQ|, startpos, a) < k && waitQ[a] != []
    && forall b :: 0 <= b < |waitQ| && waitQ[b] != [] && Position(|waitQ|, startpos, b) < k ==>
         if Position(|waitQ|, startpos, b) < Position(|waitQ|, startpos, a)
         then waitQ[a][0].stag < waitQ[b][0].stag
         else waitQ[a][0].stag <= waitQ[b][0].stag
  }

  lemma {:induction false} ScanPicks(waitQ: seq<seq<Job>>, startpos: nat, k: nat)
    requires startpos < |waitQ| && k <= |waitQ|
    ensures Scan(waitQ, startpos, k).None? ==>
      forall b :: 0 <= b < |waitQ| && Position(|waitQ|, startpos, b) < k ==> waitQ[b] == []
    ensures Scan(waitQ, startpos, k).Some? ==> Best(waitQ, startpos, k, Scan(waitQ, startpos, k).value)
  {
    if k > 0 {
      ScanPicks(waitQ, startpos, k - 1);
      assert Position(|waitQ|, startpos, Slot(|waitQ|, startpos, k - 1)) == k - 1;
    }
  }

  /** The scan returns the lowest start tag among the queue fronts; of equal tags, the first in the
      rotation; and nothing exactly when every queue is empty. */
  lemma ChoiceIsLowestTag(s: State)
    requires s.startpos < |s.waitQ|
    ensures Choice(s).None? <==> forall a :: 0 <= a < |s.waitQ| ==> s.waitQ[a] == []
    ensures Choice(s).Some? ==>
      var a := Choice(s).value;
      forall b :: 0 <= b < |s.waitQ| && s.waitQ[b] != [] ==>
        && s.waitQ[a][0].stag <= s.waitQ[b][0].stag
        && (s.waitQ[a][0].stag == s.waitQ[b][0].stag ==>
             Position(|s.waitQ|, s.startpos, a) <= Position(|s.waitQ|, s.startpos, b))
  {
    ScanPicks(s.waitQ, s.startpos, |s.waitQ|);
  }
}
