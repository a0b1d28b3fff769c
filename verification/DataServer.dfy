/** The data server's request object: file requests made of the requests that arrive, served one at a time. */
module DataServer {
  import opened Options
  import opened Fragments
  import opened ReadChain

  class Pvfs2Dsd {
    const c: Config
    var reqs: seq<GPacket>
    var waiting: seq<GPacket>
    var serving: seq<GPacket>
    var infos: map<int, Info>

    ghost function Abs(): State
      reads this
    {
      State(reqs, waiting, serving, infos)
    }

    ghost predicate Valid()
      reads this
    {
      Inv(c, Abs())
    }

    constructor (degree: int, subreqSize: int)
      requires subreqSize > 0
      ensures Valid() && c == Config(degree, subreqSize) && Abs() == State([], [], [], map[])
    {
      c := Config(degree, subreqSize);
      reqs, waiting, serving, infos := [], [], [], map[];
    }

    /** Takes up a request: a write packet as it is, a read with its first piece. */
    method NewReq(g: GPacket)
      requires Valid() && MayArrive(c, Abs(), g)
      modifies this
      ensures Valid() && Abs() == ReadChain.NewReq(c, old(Abs()), g)
    {
      hide Inv, Piece;
      NewReqKeeps(c, Abs(), g);
      reqs := reqs + [g];
      if !g.read {
        infos := infos[g.id := Info(g.loff, g.loff + g.size, g.kind == WriteDataLast)];
        waiting := waiting + [g];
        return;
      }
      var (loff, lub) := (g.loff, g.loff + g.size);
      infos := infos[g.id := Info(loff, lub, g.kind == WriteDataLast)];
      var piece := NextPiece(g.id, g.id + 1, loff, lub);
      waiting := waiting + [piece];
    }

    method NextPiece(id: nat, next: nat, loff: int, lub: int) returns (p: GPacket)
      ensures p == Piece(c, id, next, loff, lub)
    {
      if lub - loff <= c.subreqSize {
        p := GPacket(id, FileReq, true, loff, lub - loff);
      } else {
        p := GPacket(next, FileReq, true, loff, c.subreqSize);
      }
    }

    method DispatchNext() returns (r: Option<GPacket>)
      requires Valid()
      modifies this`waiting, this`serving
      ensures Valid() && (Abs(), r) == Dispatch(old(Abs()))
    {
      hide Inv;
      DispatchKeeps(c, Abs());
      if waiting == [] || |serving| >= 1 {
        return None;
      }
      r := Some(waiting[0]);
      serving := serving + [waiting[0]];
      waiting := waiting[1..];
    }

    /** Takes the packet with an ID out of a list. */
    static method Pop(q: seq<GPacket>, id: nat) returns (rest: seq<GPacket>)
      ensures rest == if Find(q, id) < |q| then Without(q, Find(q, id)) else q
    {
      var k := 0;
      while k < |q| && q[k].id != id
        invariant 0 <= k <= |q| && forall i :: 0 <= i < k ==> q[i].id != id
      {
        k := k + 1;
      }
      FindIs(q, id, k);
      rest := if k < |q| then q[..k] + q[k + 1..] else q;
    }

    /** A file request has been served: replies to a read at once, and goes on with its next piece; reports a write
        when its last packet is done. */
    method FinishedReq(p: GPacket) returns (r: Option<GPacket>)
      requires Valid() && serving == [p]
      modifies this
      ensures Valid()
      ensures Legal(c, old(Abs()), Served) && (Abs(), r) == Finish(c, old(Abs()), p)
    {
      hide LiveOk, ReqsOk, Finish, Original, Find;
      FinishIsRight(c, Abs());
      r := Complete(p);
    }

    method Complete(p: GPacket) returns (r: Option<GPacket>)
      requires serving == [p] && Legal(c, Abs(), Served)
      modifies this
      ensures (Abs(), r) == Finish(c, old(Abs()), p)
    {
      hide Piece, Find, NextNumber, Without, Original;
      var id := Original(p);
      serving := Pop(serving, p.id);
      var info := infos[id];
      if !p.read {
        reqs := Pop(reqs, id);
        infos := infos - {id};
        return if info.last then Some(p.(kind := WriteFin)) else None;
      }
      if info.lub <= p.loff + p.size {
        reqs := Pop(reqs, id);
        infos := infos - {id};
        return Some(p.(kind := ReadDataLast));
      }
      var loff := p.loff + p.size;
      var piece := NextPiece(id, NextNumber(id, p.id), loff, info.lub);
      waiting := waiting + [piece];
      r := Some(p.(kind := ReadData));
    }
  }
}
