/** Splitting one transfer into packets of limited size: read replies at the server, write data at the client. */
module Fragments {
  import opened Basics
  import opened RequestIds

  datatype Kind = WriteData | WriteDataLast | WriteFin | FileReq | ReadData | ReadDataLast

  /** A packet of a read or a write, for `size` bytes from `loff` on. */
  datatype GPacket = GPacket(id: nat, kind: Kind, read: bool, loff: int, size: int)

  /** The packets cover the bytes from `s` up to `e` in order, without gap or overlap, none of them empty or larger
      than the limit. */
  ghost predicate Tiles(ps: seq<GPacket>, s: int, e: int, limit: int)
    decreases |ps|
  {
    if ps == [] then s == e
    else ps[0].loff == s && 0 < ps[0].size <= limit && Tiles(ps[1..], s + ps[0].size, e, limit)
  }

  lemma {:induction false} TilesAppend(x: seq<GPacket>, y: seq<GPacket>, s: int, m: int, e: int, limit: int)
    requires Tiles(x, s, m, limit) && Tiles(y, m, e, limit)
    ensures Tiles(x + y, s, e, limit)
    decreases |x|
  {
    if x == [] {
      assert x + y == y;
    } else {
      TilesAppend(x[1..], y, s + x[0].size, m, e, limit);
      assert (x + y)[1..] == x[1..] + y;
    }
  }

  lemma TilesNone(s: int, limit: int)
    ensures Tiles([], s, s, limit)
  {
  }

  lemma TilesOne(p: GPacket, limit: int)
    requires 0 < p.size <= limit
    ensures Tiles([p], p.loff, p.loff + p.size, limit)
  {
    assert [p][1..] == [];
  }

  /** Only the last packet has a kind for which `last` holds. */
  ghost predicate OneLast(ps: seq<GPacket>, last: Kind) {
    && ps != [] && ps[|ps| - 1].kind == last
    && forall i :: 0 <= i < |ps| - 1 ==> ps[i].kind != last
  }

  /** The IDs count up by one. */
  ghost predicate Numbered(ps: seq<GPacket>, first: nat) {
    forall i :: 0 <= i < |ps| ==> ps[i].id == first + i
  }

  /** The fragments of a read reply: plain read data of full size, and at the end the reply itself with what is left. */
  ghost predicate IsSplit(reply: GPacket, sent: seq<GPacket>, limit: int) {
    && sent != [] && Tiles(sent, reply.loff, reply.loff + reply.size, limit)
    && (forall i :: 0 <= i < |sent| - 1 ==> sent[i].kind == ReadData && sent[i].size == limit)
    && sent[|sent| - 1].kind == reply.kind && sent[|sent| - 1].id == reply.id
    && Numbered(sent[..|sent| - 1], reply.id + 1)
  }

  /** A read reply is sent in fragments of at most `limit` bytes.  The last fragment is the reply itself and keeps its
      ID and its kind; the ones before it are plain read data.  An empty reply is not sent at all. */
  method SplitReadReply(reply: GPacket, limit: int) returns (sent: seq<GPacket>)
    requires limit > 0 && reply.read && (reply.kind == ReadData || reply.kind == ReadDataLast)
    ensures reply.size <= 0 ==> sent == []
    ensures reply.size > 0 ==> IsSplit(reply, sent, limit)
  {
    sent := [];
    var id := reply.id + 1;
    var size, loff := reply.size, reply.loff;
    while size > 0
      invariant size >= 0 || size == reply.size
      invariant reply.size <= 0 ==> sent == [] && size == reply.size
      invariant size > 0 ==>
                  && loff + size == reply.loff + reply.size && id == reply.id + 1 + |sent|
                  && Tiles(sent, reply.loff, loff, limit) && Numbered(sent, reply.id + 1)
                  && forall i :: 0 <= i < |sent| ==> sent[i].kind == ReadData && sent[i].size == limit
      invariant size == 0 && reply.size > 0 ==>
                  IsSplit(reply, sent, limit)
      decreases size
    {
      if size <= limit {
        var packet := reply.(size := size, loff := loff);
        TilesOne(packet, limit);
        TilesAppend(sent, [packet], reply.loff, loff, loff + size, limit);
        assert (sent + [packet])[..|sent|] == sent;
        sent := sent + [packet];
        size := 0;
      } else {
        var packet := GPacket(id, ReadData, true, loff, limit);
        TilesOne(packet, limit);
        TilesAppend(sent, [packet], reply.loff, loff, loff + limit, limit);
        sent := sent + [packet];
        id := id + 1;
        size := size - limit;
        loff := loff + limit;
      }
    }
  }

  function Flat(parts: seq<seq<GPacket>>): seq<GPacket> {
    if parts == [] then [] else parts[0] + Flat(parts[1..])
  }

  /** The replies to a read, each one split: together the fragments still cover the read in order, and only the very
      last of them is marked as the last. */
  lemma {:induction false} FragmentsTile(rs: seq<GPacket>, parts: seq<seq<GPacket>>, s: int, e: int, piece: int, limit: int)
    requires Tiles(rs, s, e, piece) && |parts| == |rs| && OneLast(rs, ReadDataLast)
    requires forall i :: 0 <= i < |rs| ==> IsSplit(rs[i], parts[i], limit)
    ensures Tiles(Flat(parts), s, e, limit) && OneLast(Flat(parts), ReadDataLast)
    decreases |rs|
  {
    var (first, rest) := (parts[0], parts[1..]);
    assert IsSplit(rs[0], first, limit);
    var m := s + rs[0].size;
    if |rs| == 1 {
      assert Flat(rest) == [] && first + [] == first;
    } else {
      assert rs[1..][|rs| - 2] == rs[|rs| - 1];
      FragmentsTile(rs[1..], rest, m, e, piece, limit);
      TilesAppend(first, Flat(rest), s, m, e, limit);
      var all := first + Flat(rest);
      forall i | 0 <= i < |all| - 1
        ensures all[i].kind != ReadDataLast
      {
        if i < |first| {
          assert first[|first| - 1].kind == rs[0].kind;
        }
      }
    }
  }

  /** Once a write is granted its data goes out in packets of at most `limit` bytes, numbered from the ID of the grant
      on, only the last one marked as the last. */
  method SplitWrite(grant: GPacket, limit: int) returns (sent: seq<GPacket>)
    requires limit > 0
    ensures OneLast(sent, WriteDataLast) && Numbered(sent, grant.id + 1)
    ensures grant.read || grant.size <= 0 ==> sent == [grant.(id := grant.id + 1, kind := WriteDataLast)]
    ensures !grant.read && grant.size > 0 ==>
              Tiles(sent, grant.loff, grant.loff + grant.size, limit) && |sent| == (grant.size + limit - 1) / limit
  {
    hide Tiles;
    TilesNone(grant.loff, limit);
    var pktid := grant.id + 1;
    var loff := grant.loff;
    var ub := loff + grant.size;
    sent := [];
    while true
      invariant grant.loff <= loff && Tiles(sent, grant.loff, loff, limit)
      invariant sent == [] || (loff < ub && !grant.read)
      invariant Numbered(sent, grant.id + 1) && pktid == grant.id + 1 + |sent|
      invariant forall i :: 0 <= i < |sent| ==> sent[i].kind == WriteData
      invariant loff == grant.loff + |sent| * limit
      decreases ub - loff
    {
      if loff + limit >= ub || grant.read {
        var packet := GPacket(pktid, WriteDataLast, grant.read, loff, ub - loff);
        if !grant.read && grant.size > 0 {
          LastPiece(sent, packet, grant, limit);
        }
        sent := sent + [packet];
        return;
      } else {
        var packet := GPacket(pktid, WriteData, grant.read, loff, limit);
        TilesOne(packet, limit);
        TilesAppend(sent, [packet], grant.loff, loff, loff + limit, limit);
        sent := sent + [packet];
        OneMore(|sent| - 1, limit);
        loff := loff + limit;
        pktid := pktid + 1;
      }
    }
  }

  lemma LastPiece(sent: seq<GPacket>, packet: GPacket, grant: GPacket, limit: int)
    requires limit > 0 && Tiles(sent, grant.loff, packet.loff, limit) && packet.loff == grant.loff + |sent| * limit
    requires 0 < packet.size <= limit && packet.loff + packet.size == grant.loff + grant.size
    ensures Tiles(sent + [packet], grant.loff, grant.loff + grant.size, limit)
    ensures |sent + [packet]| == (grant.size + limit - 1) / limit
  {
    TilesOne(packet, limit);
    TilesAppend(sent, [packet], grant.loff, packet.loff, packet.loff + packet.size, limit);
    Pieces(|sent|, grant.size, limit);
  }

  lemma OneMore(n: int, limit: int)
    ensures (n + 1) * limit == n * limit + limit
  {
  }

  lemma Pieces(n: nat, size: int, limit: int)
    requires limit > 0 && n * limit < size <= n * limit + limit
    ensures n + 1 == (size + limit - 1) / limit
  {
    var x := size + limit - 1;
    var d := x / limit - (n + 1);
    assert x == x / limit * limit + x % limit;
    assert d * limit == x / limit * limit - (n + 1) * limit;
    assert (n + 1) * limit == n * limit + limit;
    NoMultiple(d, limit);
  }

  /** All data packets of a write carry ID numbers of its own block exactly when there are fewer than a block holds. */
  lemma NumbersFit(ps: seq<GPacket>, id: nat)
    requires Numbered(ps, id + 1) && id % RID_OFFSET == 0
    ensures (forall i :: 0 <= i < |ps| ==> ps[i].id / RID_OFFSET * RID_OFFSET == id) <==> |ps| < RID_OFFSET
  {
    if |ps| >= RID_OFFSET {
      assert ps[RID_OFFSET - 1].id == id + RID_OFFSET;
    }
  }
}
