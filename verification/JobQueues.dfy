/** The first-in-first-out queue and its variant ordered by deadline, which other schedulers are built from. */
module JobQueues {
  import opened Basics
  import opened Options

  /** A packet with the time it rose and the server it is for. */
  datatype Packet = Packet(id: nat, subid: nat, app: nat, server: nat, rise: real, totalSubreqs: int)

  function Due(delay: seq<real>, p: Packet): real {
    if p.app < |delay| then p.rise + delay[p.app] else p.rise
  }

  ghost predicate ByDeadline(delay: seq<real>, q: seq<Packet>) {
    forall i, j :: 0 <= i < j < |q| ==> Due(delay, q[i]) <= Due(delay, q[j])
  }

  /** Where a new packet goes: in front of the first packet with a later deadline. */
  function Place(delay: seq<real>, q: seq<Packet>, p: Packet): (k: nat)
    ensures k <= |q|
  {
    if q == [] || Due(delay, p) < Due(delay, q[0]) then 0 else 1 + Place(delay, q[1..], p)
  }

  function InsertByDeadline(delay: seq<real>, q: seq<Packet>, p: Packet): seq<Packet> {
    q[..Place(delay, q, p)] + [p] + q[Place(delay, q, p)..]
  }

  lemma {:induction false} PlaceIsFirstLater(delay: seq<real>, q: seq<Packet>, p: Packet)
    ensures var k := Place(delay, q, p);
            && (forall i :: 0 <= i < k ==> Due(delay, q[i]) <= Due(delay, p))
            && (k < |q| ==> Due(delay, p) < Due(delay, q[k]))
  {
    if q != [] && !(Due(delay, p) < Due(delay, q[0])) {
      PlaceIsFirstLater(delay, q[1..], p);
    }
  }

  /** In numbers: those in front rose early enough, given the delays their applications want, and the one behind did not. */
  lemma PlaceByTime(delay: seq<real>, q: seq<Packet>, p: Packet)
    requires p.app < |delay| && forall i :: 0 <= i < |q| ==> q[i].app < |delay|
    ensures var k := Place(delay, q, p);
            && (forall i :: 0 <= i < k ==> q[i].rise + delay[q[i].app] <= p.rise + delay[p.app])
            && (k < |q| ==> p.rise + delay[p.app] < q[k].rise + delay[q[k].app])
            && InsertByDeadline(delay, q, p) == q[..k] + [p] + q[k..]
  {
    PlaceIsFirstLater(delay, q, p);
  }

  lemma InsertAt(delay: seq<real>, q: seq<Packet>, p: Packet)
    ensures |InsertByDeadline(delay, q, p)| == |q| + 1
    ensures forall i {:trigger InsertByDeadline(delay, q, p)[i]} :: 0 <= i <= |q| ==>
              InsertByDeadline(delay, q, p)[i] == if i < Place(delay, q, p) then q[i]
                                                  else if i == Place(delay, q, p) then p else q[i - 1]
  {
  }

  /** The queue stays ordered: the new packet is behind all that are due no later and in front of all others. */
  lemma InsertKeepsOrder(delay: seq<real>, q: seq<Packet>, p: Packet)
    requires ByDeadline(delay, q)
    ensures ByDeadline(delay, InsertByDeadline(delay, q, p))
  {
    hide InsertByDeadline, Place, Due;
    PlaceIsFirstLater(delay, q, p);
    InsertAt(delay, q, p);
    var (k, r) := (Place(delay, q, p), InsertByDeadline(delay, q, p));
    forall i, j | 0 <= i < j < |r|
      ensures Due(delay, r[i]) <= Due(delay, r[j])
    {
      if i == k {
        assert Due(delay, p) < Due(delay, q[k]) && (k == j - 1 || Due(delay, q[k]) <= Due(delay, q[j - 1]));
      } else if j != k {
        assert r[i] == q[if i < k then i else i - 1] && r[j] == q[if j < k then j else j - 1];
      }
    }
  }

  lemma InsertKeepsPackets(delay: seq<real>, q: seq<Packet>, p: Packet)
    ensures multiset(InsertByDeadline(delay, q, p)) == multiset(q) + multiset{p}
    ensures forall x :: x in InsertByDeadline(delay, q, p) <==> x == p || x in q
  {
    var (k, r) := (Place(delay, q, p), InsertByDeadline(delay, q, p));
    assert q == q[..k] + q[k..];
    assert forall x :: x in r <==> x in multiset(r);
    assert forall x :: x in q <==> x in multiset(q);
  }

  /** The packets whose ID is still of interest, in order. */
  function Live(q: seq<Packet>, ids: set<int>): (r: seq<Packet>) {
    if q == [] then []
    else (if q[0].id in ids then [q[0]] else []) + Live(q[1..], ids)
  }

  lemma {:induction false} LiveKeeps(q: seq<Packet>, ids: set<int>, x: Packet)
    ensures x in Live(q, ids) <==> x in q && x.id in ids
  {
    if q != [] {
      LiveKeeps(q[1..], ids, x);
    }
  }

  lemma {:induction false} LiveAppend(x: seq<Packet>, y: seq<Packet>, ids: set<int>)
    ensures Live(x + y, ids) == Live(x, ids) + Live(y, ids)
  {
    if x == [] {
      assert x + y == y;
    } else {
      LiveAppend(x[1..], y, ids);
      assert (x + y)[1..] == x[1..] + y && (x + y)[0] == x[0];
      Associative(if x[0].id in ids then [x[0]] else [], Live(x[1..], ids), Live(y, ids));
    }
  }

  /** Dropping a packet that is no longer of interest makes no difference to what stays. */
  lemma LiveWithout(q: seq<Packet>, ids: set<int>, k: nat)
    requires k < |q| && q[k].id !in ids
    ensures Live(q[..k] + q[k + 1..], ids) == Live(q, ids)
  {
    assert q == q[..k] + [q[k]] + q[k + 1..];
    LiveAppend(q[..k] + [q[k]], q[k + 1..], ids);
    LiveAppend(q[..k], [q[k]], ids);
    LiveAppend(q[..k], q[k + 1..], ids);
    assert Live(q[..k], ids) + [] == Live(q[..k], ids);
  }

  lemma {:induction false} AllLive(q: seq<Packet>, ids: set<int>)
    requires forall i :: 0 <= i < |q| ==> q[i].id in ids
    ensures Live(q, ids) == q
  {
    if q != [] {
      AllLive(q[1..], ids);
    }
  }

  /** `l` is `q` with some packets left out, so an ordered queue stays ordered. */
  lemma {:induction false} LiveKeepsOrder(delay: seq<real>, q: seq<Packet>, ids: set<int>)
    requires ByDeadline(delay, q)
    ensures ByDeadline(delay, Live(q, ids))
  {
    if q != [] {
      LiveKeepsOrder(delay, q[1..], ids);
      forall x | x in Live(q[1..], ids)
        ensures Due(delay, q[0]) <= Due(delay, x)
      {
        LiveKeeps(q[1..], ids, x);
      }
    }
  }

  /** How many packets are due before the deadline. */
  function DueBefore(delay: seq<real>, q: seq<Packet>, deadline: real): nat {
    if q == [] then 0
    else DueBefore(delay, q[..|q| - 1], deadline) + if Due(delay, q[|q| - 1]) < deadline then 1 else 0
  }

  /** The positions of the packets that rose so early that the delay their application wants is over. */
  ghost function Overdue(delay: seq<real>, q: seq<Packet>, deadline: real): set<int> {
    set i | 0 <= i < |q| && (if q[i].app < |delay| then q[i].rise + delay[q[i].app] else q[i].rise) < deadline
  }

  /** Those are the packets counted; there are none exactly if no delay is over. */
  lemma {:induction false} CountsOverdue(delay: seq<real>, q: seq<Packet>, deadline: real)
    ensures DueBefore(delay, q, deadline) == |Overdue(delay, q, deadline)|
    ensures DueBefore(delay, q, deadline) != 0 <==> exists i :: i in Overdue(delay, q, deadline)
  {
    if q == [] {
      assert Overdue(delay, q, deadline) == {};
    } else {
      var last := |q| - 1;
      CountsOverdue(delay, q[..last], deadline);
      assert Overdue(delay, q, deadline)
          == Overdue(delay, q[..last], deadline) + if Due(delay, q[last]) < deadline then {last} else {};
    }
    if |Overdue(delay, q, deadline)| != 0 {
      var i :| i in Overdue(delay, q, deadline);
    }
  }

  lemma {:induction false} NoneDueAfter(delay: seq<real>, q: seq<Packet>, k: nat, deadline: real)
    requires ByDeadline(delay, q) && k < |q| && !(Due(delay, q[k]) < deadline)
    ensures DueBefore(delay, q, deadline) == DueBefore(delay, q[..k], deadline)
  {
    var front := q[..|q| - 1];
    if k < |q| - 1 {
      NoneDueAfter(delay, front, k, deadline);
      assert front[..k] == q[..k];
    }
  }

  /** The position of the first packet with an ID, or the length. */
  function Find(q: seq<Packet>, id: nat): (k: nat)
    ensures k <= |q| && (forall i :: 0 <= i < k ==> q[i].id != id) && (k < |q| ==> q[k].id == id)
  {
    if q == [] || q[0].id == id then 0 else 1 + Find(q[1..], id)
  }

  lemma FindIs(q: seq<Packet>, id: nat, k: nat)
    requires k <= |q| && (forall i :: 0 <= i < k ==> q[i].id != id) && (k < |q| ==> q[k].id == id)
    ensures Find(q, id) == k
  {
    var f := Find(q, id);
    assert f < |q| && k < |q| ==> q[f].id == id && q[k].id == id;
  }

  class JobQueue {
    const degree: int
    const delay: seq<real>
    var waitQ: seq<Packet>
    var osQ: seq<Packet>

    constructor (degree: int, delay: seq<real>)
      ensures this.degree == degree && this.delay == delay && waitQ == [] && osQ == []
    {
      this.degree, this.delay, waitQ, osQ := degree, delay, [], [];
    }

    /** First in, first out. */
    method PushBack(p: Packet)
      modifies this`waitQ
      ensures waitQ == old(waitQ) + [p]
    {
      waitQ := waitQ + [p];
    }

    /** Earliest deadline first. */
    method PushByDeadline(p: Packet)
      modifies this`waitQ
      ensures waitQ == InsertByDeadline(delay, old(waitQ), p)
    {
      var i := 0;
      while i < |waitQ|
        invariant 0 <= i <= |waitQ| && waitQ == old(waitQ)
        invariant Place(delay, waitQ, p) == i + Place(delay, waitQ[i..], p)
      {
        if Due(delay, p) < Due(delay, waitQ[i]) {
          waitQ := waitQ[..i] + [p] + waitQ[i..];
          return;
        }
        assert waitQ[i..][1..] == waitQ[i + 1..];
        i := i + 1;
      }
      waitQ := waitQ + [p];
      assert waitQ == old(waitQ)[..i] + [p] + old(waitQ)[i..];
    }

    method DispatchNext() returns (r: Option<Packet>)
      modifies this`waitQ, this`osQ
      ensures if old(waitQ) == [] || (degree >= 0 && |old(osQ)| >= degree) then
                r == None && waitQ == old(waitQ) && osQ == old(osQ)
              else
                r == Some(old(waitQ)[0]) && waitQ == old(waitQ)[1..] && osQ == old(osQ) + [old(waitQ)[0]]
    {
      if waitQ == [] || (|osQ| >= degree && degree >= 0) {
        return None;
      }
      r := Some(waitQ[0]);
      osQ := osQ + [waitQ[0]];
      waitQ := waitQ[1..];
    }

    method QueryJob(id: nat) returns (r: Option<Packet>)
      ensures r == if Find(osQ, id) < |osQ| then Some(osQ[Find(osQ, id)]) else None
    {
      var i := 0;
      while i < |osQ|
        invariant 0 <= i <= |osQ| && forall h :: 0 <= h < i ==> osQ[h].id != id
      {
        if osQ[i].id == id {
          FindIs(osQ, id, i);
          return Some(osQ[i]);
        }
        i := i + 1;
      }
      FindIs(osQ, id, i);
      return None;
    }

    method PopOsQ(id: nat) returns (r: Option<Packet>)
      modifies this`osQ
      ensures var k := Find(old(osQ), id);
              if k < |old(osQ)| then r == Some(old(osQ)[k]) && osQ == old(osQ)[..k] + old(osQ)[k + 1..]
              else r == None && osQ == old(osQ)
    {
      var i := 0;
      while i < |osQ|
        invariant 0 <= i <= |osQ| && osQ == old(osQ) && forall h :: 0 <= h < i ==> osQ[h].id != id
      {
        if osQ[i].id == id {
          FindIs(osQ, id, i);
          r := Some(osQ[i]);
          osQ := osQ[..i] + osQ[i + 1..];
          return;
        }
        i := i + 1;
      }
      FindIs(osQ, id, i);
      return None;
    }

    /** Erases one packet after the other until all that are left are still of interest (`refineWaitQ`). */
    method Refine(ids: set<int>)
      modifies this`waitQ
      ensures waitQ == Live(old(waitQ), ids)
    {
      var again := true;
      while again
        invariant Live(waitQ, ids) == Live(old(waitQ), ids)
        invariant !again ==> forall i :: 0 <= i < |waitQ| ==> waitQ[i].id in ids
        decreases |waitQ|, again
      {
        again := false;
        ghost var was := waitQ;
        var i := 0;
        while i < |waitQ|
          invariant 0 <= i <= |waitQ| && waitQ == was && !again
          invariant forall h :: 0 <= h < i ==> waitQ[h].id in ids
        {
          if waitQ[i].id !in ids {
            LiveWithout(waitQ, ids, i);
            waitQ := waitQ[..i] + waitQ[i + 1..];
            again := true;
            break;
          }
          i := i + 1;
        }
      }
      AllLive(waitQ, ids);
    }

    /** Counts up to the first packet that is due later; in an ordered queue these are all. */
    method CountDueBefore(deadline: real) returns (count: nat)
      requires ByDeadline(delay, waitQ)
      ensures count == DueBefore(delay, waitQ, deadline) == |Overdue(delay, waitQ, deadline)|
    {
      CountsOverdue(delay, waitQ, deadline);
      count := 0;
      var i := 0;
      while i < |waitQ|
        invariant 0 <= i <= |waitQ| && count == DueBefore(delay, waitQ[..i], deadline)
      {
        assert waitQ[..i + 1][..i] == waitQ[..i];
        if Due(delay, waitQ[i]) < deadline {
          count := count + 1;
        } else {
          NoneDueAfter(delay, waitQ, i, deadline);
          return;
        }
        i := i + 1;
      }
      assert waitQ[..i] == waitQ;
    }
  }
}
