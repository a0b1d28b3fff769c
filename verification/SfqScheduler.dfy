/** The SFQ scheduler object and the two tag-shifting operations its distributed form adds. */
module SfqScheduler {
  import opened Options
  import opened FairQueue

  const MAX_TAG_VALUE := 10000000.0

  class Sfq {
    const weight: seq<real>
    const degree: int
    const appNum: nat
    var waitQ: array<seq<Job>>
    var osQ: seq<Job>
    var maxftags: array<real>
    var vtime: real
    var startpos: nat

    ghost function Settings(): Config {
      Config(weight, degree)
    }

    ghost predicate Valid()
      reads this, waitQ, maxftags
    {
      && Settings().Valid()
      && appNum == |weight| == waitQ.Length == maxftags.Length
      && startpos < appNum
    }

    ghost function Model(): (s: State)
      reads this, waitQ, maxftags
      requires Valid()
      ensures Shaped(Settings(), s)
    {
      State(waitQ[..], osQ, maxftags[..], vtime, startpos)
    }

    constructor (weight: seq<real>, degree: int)
      requires Config(weight, degree).Valid()
      ensures Valid() && fresh(waitQ) && fresh(maxftags)
      ensures Settings() == Config(weight, degree) && Model() == Init(Settings())
    {
      this.weight, this.degree, this.appNum := weight, degree, |weight|;
      waitQ := new seq<Job>[|weight|](_ => []);
      maxftags := new real[|weight|](_ => 0.0);
      osQ, vtime, startpos := [], 0.0, 0;
    }

    method PushWaitQ(pkt: Packet)
      requires Valid() && pkt.app < appNum
      modifies waitQ
      ensures Valid() && Model() == Push(Settings(), old(Model()), pkt)
    {
      var app := pkt.app;
      var stag;
      if waitQ[app] == [] {
        stag := if maxftags[app] > vtime then maxftags[app] else vtime;
      } else {
        stag := waitQ[app][|waitQ[app]| - 1].ftag;
      }
      var job := Job(pkt, stag, stag + pkt.size as real / weight[app]);
      waitQ[app] := waitQ[app] + [job];
    }

    /** The scan loop of `DispatchNext`: the application to serve, or -1. */
    method LowestTag() returns (minindex: int)
      requires Valid()
      ensures -1 <= minindex < appNum
      ensures minindex == (match Choice(Model()) case None => -1 case Some(a) => a)
    {
      var mintag := MAX_TAG_VALUE;
      minindex := -1;
      var firstround := true;
      var i := startpos;
      ghost var k := 0;
      ghost var queues := waitQ[..];
      while true
        invariant 0 <= k <= appNum && firstround == (k == 0)
        invariant i == if k == 0 then startpos else Slot(appNum, startpos, k - 1) + 1
        invariant minindex == (match Scan(queues, startpos, k) case None => -1 case Some(a) => a)
        invariant minindex >= 0 ==> mintag == queues[minindex][0].stag
        decreases appNum - k
      {
        if i >= appNum {
          i := 0;
        }
        if i == startpos {
          if firstround {
            firstround := false;
          } else {
            break;
          }
        }
        assert i == Slot(appNum, startpos, k);
        k := k + 1;
        if waitQ[i] == [] {
          i := i + 1;
          continue;
        }
        if minindex == -1 || mintag > waitQ[i][0].stag {
          minindex := i;
          mintag := waitQ[i][0].stag;
        }
        i := i + 1;
      }
    }

    method DispatchNext() returns (r: Option<Packet>)
      requires Valid()
      modifies this`osQ, this`vtime, this`startpos, waitQ, maxftags
      ensures Valid() && Model() == Dispatch(Settings(), old(Model()))
      ensures r == Sent(Settings(), old(Model()), Issue)
    {
      hide Scan;
      if |osQ| >= degree {
        return None;
      }
      var minindex := LowestTag();
      if minindex == -1 {
        return None;
      }
      ghost var s := Model();
      var job := waitQ[minindex][0];
      waitQ[minindex] := waitQ[minindex][1..];
      osQ := osQ + [job];
      startpos := minindex;
      startpos := startpos + 1;
      if startpos >= appNum {
        startpos := 0;
      }
      vtime := job.stag;
      if waitQ[minindex] == [] {
        maxftags[minindex] := job.ftag;
      } else {
        var next := waitQ[minindex][0];
        next := next.(ftag := next.ftag + (job.ftag - next.stag));
        next := next.(stag := job.ftag);
        waitQ[minindex] := [next] + waitQ[minindex][1..];
      }
      assert waitQ[..] == Serve(s, minindex).waitQ;
      r := Some(job.pkt);
    }

    method PopOsQ(id: int) returns (r: Option<Packet>)
      requires Valid()
      modifies this`osQ
      ensures Valid() && Model() == Pop(old(Model()), id)
      ensures r == match FindJob(old(osQ), id) case None => None case Some(k) => Some(old(osQ)[k].pkt)
    {
      var k := 0;
      while k < |osQ|
        invariant 0 <= k <= |osQ|
        invariant forall j :: 0 <= j < k ==> osQ[j].pkt.id != id
      {
        if osQ[k].pkt.id == id {
          assert FindJob(osQ, id) == Some(k);
          r := Some(osQ[k].pkt);
          osQ := osQ[..k] + osQ[k + 1..];
          return;
        }
        k := k + 1;
      }
      assert FindJob(osQ, id) == None;
      r := None;
    }

    method ReceiveInsertBack(lengths: seq<real>)
      requires Valid() && |lengths| == appNum
      modifies waitQ, maxftags
      ensures Valid() && Model() == InsertBack(Settings(), old(Model()), lengths)
    {
      ghost var s, c := Model(), Settings();
      for i := 0 to appNum
        invariant Valid()
        invariant forall a :: 0 <= a < appNum ==>
          waitQ[a] == if a < i then ChargeBack(s.waitQ[a], Shift(c, lengths, a)) else s.waitQ[a]
        invariant forall a :: 0 <= a < appNum ==>
          maxftags[a] == if a < i then ChargedTags(c, s, lengths)[a] else s.maxftags[a]
      {
        if lengths[i] == 0.0 {
          NoShift(c, s.waitQ[i], lengths, i);
          continue;
        }
        if waitQ[i] == [] {
          maxftags[i] := maxftags[i] + lengths[i] / weight[i];
        } else {
          var last := |waitQ[i]| - 1;
          waitQ[i] := waitQ[i][last := waitQ[i][last].(ftag := waitQ[i][last].ftag + lengths[i] / weight[i])];
        }
      }
      assert waitQ[..] == InsertBack(c, s, lengths).waitQ;
      assert maxftags[..] == InsertBack(c, s, lengths).maxftags;
    }

    method ReceiveInsertFront(lengths: seq<real>)
      requires Valid() && |lengths| == appNum
      modifies waitQ, maxftags
      ensures Valid() && Model() == InsertFront(Settings(), old(Model()), lengths)
    {
      ghost var s, c := Model(), Settings();
      for i := 0 to appNum
        invariant Valid()
        invariant forall a :: 0 <= a < appNum ==>
          waitQ[a] == if a < i then ChargeFront(s.waitQ[a], Shift(c, lengths, a)) else s.waitQ[a]
        invariant forall a :: 0 <= a < appNum ==>
          maxftags[a] == if a < i then ChargedTags(c, s, lengths)[a] else s.maxftags[a]
      {
        if lengths[i] == 0.0 {
          NoShift(c, s.waitQ[i], lengths, i);
          continue;
        }
        if waitQ[i] == [] {
          maxftags[i] := maxftags[i] + lengths[i] / weight[i];
        } else {
          var front := waitQ[i][0];
          front := front.(stag := front.stag + lengths[i] / weight[i]);
          front := front.(ftag := front.ftag + lengths[i] / weight[i]);
          waitQ[i] := [front] + waitQ[i][1..];
        }
      }
      assert waitQ[..] == InsertFront(c, s, lengths).waitQ;
      assert maxftags[..] == InsertFront(c, s, lengths).maxftags;
    }
  }

  /** A zero length shifts nothing, which is why the loops may skip it. */
  lemma NoShift(c: Config, queue: seq<Job>, lengths: seq<real>, a: nat)
    requires c.Valid() && a < |c.weight| == |lengths| && lengths[a] == 0.0
    ensures Shift(c, lengths, a) == 0.0
    ensures ChargeBack(queue, 0.0) == queue && ChargeFront(queue, 0.0) == queue
  {
    assert 0.0 / c.weight[a] == 0.0;
    if queue != [] {
      assert ChargeBack(queue, 0.0)[|queue| - 1] == queue[|queue| - 1];
      assert ChargeFront(queue, 0.0)[0] == queue[0];
    }
  }
}
