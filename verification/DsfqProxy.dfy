/** One DSFQ proxy: an SFQ scheduler, the service it has counted since it last told the other proxies,
    and the five variants of when it counts, when it tells, and whom it charges. */
module DsfqProxy {
  import opened Options
  import opened FairQueue
  import SfqScheduler

  datatype Variant =
    | CountArrivals                       // DSFQ-A
    | CountArrivalsBatched(load: real)    // DSFQ-ALB: tells once an application's load reaches a threshold
    | CountArrivalsTimed                  // DSFQ-ATB: tells on a timer
    | CountDispatches                     // DSFQ-D
    | CountCompletions                    // DSFQ-F

  const INACTIVE := -1

  datatype Proxy = Proxy(sched: State, unsent: seq<real>, src: int)

  ghost predicate ProxyShaped(c: Config, p: Proxy) {
    Shaped(c, p.sched) && |p.unsent| == |c.weight|
  }

  function Fresh(c: Config): (p: Proxy)
    requires c.Valid()
    ensures ProxyShaped(c, p)
  {
    Proxy(Init(c), seq(|c.weight|, _ => 0.0), INACTIVE)
  }

  /** The packet whose service this event makes the proxy count. */
  function Counts(c: Config, v: Variant, s: State, e: Event): (counted: Option<Packet>)
    requires Shaped(c, s) && Legal(c, e)
  {
    match e
    case Arrive(pkt) => if v.CountDispatches? || v.CountCompletions? then None else Some(pkt)
    case Issue => if v.CountDispatches? then Sent(c, s, Issue) else None
    case Finish(id) =>
      if v.CountCompletions? && FindJob(s.osQ, id).Some? then Some(s.osQ[FindJob(s.osQ, id).value].pkt) else None
    case _ => None
  }

  /** Adds a counted packet to what the proxy has to tell, and marks it active when it may tell. */
  function Count(v: Variant, id: nat, p: Proxy, counted: Option<Packet>): Proxy
    requires counted.Some? ==> counted.value.app < |p.unsent|
  {
    if counted.None? then p
    else
      var a := counted.value.app;
      var total := p.unsent[a] + counted.value.size as real;
      Proxy(p.sched, p.unsent[a := total],
            if v.CountArrivalsBatched? && total < v.load then p.src else id)
  }

  /** Every job of the scheduler belongs to one of its applications. */
  ghost predicate Homed(c: Config, s: State)
    requires Shaped(c, s)
  {
    && (forall a, i :: 0 <= a < |c.weight| && 0 <= i < |s.waitQ[a]| ==> s.waitQ[a][i].pkt.app == a)
    && (forall i :: 0 <= i < |s.osQ| ==> s.osQ[i].pkt.app < |c.weight|)
  }

  lemma InitHomed(c: Config)
    requires c.Valid()
    ensures Homed(c, Init(c))
  {
  }

  lemma StepHomed(c: Config, s: State, e: Event)
    requires Shaped(c, s) && Homed(c, s) && Legal(c, e)
    ensures Homed(c, Step(c, s, e))
  {
  }

  lemma CountsHome(c: Config, v: Variant, s: State, e: Event)
    requires Shaped(c, s) && Homed(c, s) && Legal(c, e)
    ensures Counts(c, v, s, e).Some? ==> Counts(c, v, s, e).value.app < |c.weight|
  {
  }

  /** The proxy after an arrival, a dispatch or a completion. */
  function Local(c: Config, v: Variant, id: nat, p: Proxy, e: Event): (q: Proxy)
    requires ProxyShaped(c, p) && Homed(c, p.sched) && Legal(c, e)
    ensures ProxyShaped(c, q)
  {
    Count(v, id, p.(sched := Step(c, p.sched, e)), Counts(c, v, p.sched, e))
  }

  /** A charge arriving from another proxy: to the front job under DSFQ-F, else to the back. */
  function Charge(v: Variant, lengths: seq<real>): Event {
    if v.CountCompletions? then ShiftFront(lengths) else ShiftBack(lengths)
  }

  function Receive(c: Config, v: Variant, p: Proxy, lengths: seq<real>): (q: Proxy)
    requires ProxyShaped(c, p) && |lengths| == |c.weight|
    ensures ProxyShaped(c, q)
  {
    p.(sched := Step(c, p.sched, Charge(v, lengths)))
  }

  /** What an active proxy tells the others, if it is active. */
  function Tells(p: Proxy): Option<seq<real>> {
    if p.src < 0 then None else Some(p.unsent)
  }

  function Told(p: Proxy): (q: Proxy)
    ensures |q.unsent| == |p.unsent|
  {
    if p.src < 0 then p else Proxy(p.sched, seq(|p.unsent|, _ => 0.0), INACTIVE)
  }

  // ---------------------------------------------------------------- the object

  class Dsfq {
    const base: SfqScheduler.Sfq
    const variant: Variant
    const myID: nat
    const unsent: array<real>
    var src: int

    ghost predicate Valid()
      reads this, base, base.waitQ, base.maxftags, unsent
    {
      && base.Valid() && unsent != base.maxftags && unsent.Length == base.appNum
      && Homed(base.Settings(), base.Model())
    }

    ghost function Model(): (p: Proxy)
      reads this, base, base.waitQ, base.maxftags, unsent
      requires Valid()
      ensures ProxyShaped(base.Settings(), p) && Homed(base.Settings(), p.sched)
    {
      Proxy(base.Model(), unsent[..], src)
    }

    constructor (id: nat, weight: seq<real>, degree: int, variant: Variant)
      requires Config(weight, degree).Valid()
      ensures Valid() && fresh(base) && fresh(base.waitQ) && fresh(base.maxftags) && fresh(unsent)
      ensures base.Settings() == Config(weight, degree) && this.variant == variant && myID == id
      ensures Model() == Fresh(base.Settings())
    {
      this.variant, this.myID, this.src := variant, id, INACTIVE;
      base := new SfqScheduler.Sfq(weight, degree);
      unsent := new real[|weight|](_ => 0.0);
    }

    method Counted(pkt: Packet)
      requires unsent.Length > pkt.app
      modifies unsent, this`src
      ensures forall s :: var p := Proxy(s, old(unsent[..]), old(src));
                          Proxy(s, unsent[..], src) == Count(variant, myID, p, Some(pkt))
      ensures src == if variant.CountArrivalsBatched? && unsent[pkt.app] < variant.load then old(src) else myID
    {
      unsent[pkt.app] := unsent[pkt.app] + pkt.size as real;
      if !variant.CountArrivalsBatched? || unsent[pkt.app] >= variant.load {
        src := myID;
      }
    }

    method PushWaitQ(pkt: Packet)
      requires Valid() && pkt.app < base.appNum
      modifies base.waitQ, unsent, this`src
      ensures Valid() && Model() == Local(base.Settings(), variant, myID, old(Model()), Arrive(pkt))
      ensures src == match variant
                     case CountDispatches => old(src)
                     case CountCompletions => old(src)
                     case CountArrivalsBatched(load) => if unsent[pkt.app] < load then old(src) else myID
                     case _ => myID
    {
      StepHomed(base.Settings(), base.Model(), Arrive(pkt));
      CountsHome(base.Settings(), variant, base.Model(), Arrive(pkt));
      hide Homed;
      base.PushWaitQ(pkt);
      if !variant.CountDispatches? && !variant.CountCompletions? {
        Counted(pkt);
      }
    }

    method DispatchNext() returns (r: Option<Packet>)
      requires Valid()
      modifies base, base.waitQ, base.maxftags, unsent, this`src
      ensures Valid() && Model() == Local(base.Settings(), variant, myID, old(Model()), Issue)
      ensures r == Sent(base.Settings(), old(Model().sched), Issue)
      ensures src == if variant.CountDispatches? && r.Some? then myID else old(src)
    {
      StepHomed(base.Settings(), base.Model(), Issue);
      CountsHome(base.Settings(), variant, base.Model(), Issue);
      hide Homed;
      r := base.DispatchNext();
      if variant.CountDispatches? && r.Some? {
        Counted(r.value);
      }
    }

    method PopOsQ(id: int) returns (r: Option<Packet>)
      requires Valid()
      modifies base`osQ, unsent, this`src
      ensures Valid() && Model() == Local(base.Settings(), variant, myID, old(Model()), Finish(id))
      ensures r.Some? ==> r.value.id == id
      ensures src == if variant.CountCompletions? && r.Some? then myID else old(src)
    {
      StepHomed(base.Settings(), base.Model(), Finish(id));
      CountsHome(base.Settings(), variant, base.Model(), Finish(id));
      hide Homed;
      r := base.PopOsQ(id);
      if variant.CountCompletions? && r.Some? {
        Counted(r.value);
      }
    }

    method ReceiveSPacket(lengths: seq<real>)
      requires Valid() && |lengths| == base.appNum
      modifies base.waitQ, base.maxftags
      ensures Valid() && Model() == Receive(base.Settings(), variant, old(Model()), lengths)
    {
      StepHomed(base.Settings(), base.Model(), Charge(variant, lengths));
      if variant.CountCompletions? {
        base.ReceiveInsertFront(lengths);
      } else {
        base.ReceiveInsertBack(lengths);
      }
    }

    method PropagateSPacket() returns (r: Option<seq<real>>)
      requires Valid()
      modifies unsent, this`src
      ensures Valid() && r == Tells(old(Model())) && Model() == Told(old(Model()))
    {
      if src < 0 {
        return None;
      }
      r := Some(unsent[..]);
      for i := 0 to unsent.Length
        invariant base.Valid() && base.Model() == old(base.Model())
        invariant forall a :: 0 <= a < unsent.Length ==> unsent[a] == if a < i then 0.0 else old(unsent[a])
      {
        unsent[i] := 0.0;
      }
      src := INACTIVE;
    }
  }
}
