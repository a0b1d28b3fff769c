/** A client request that is sent window by window, one packet to each server and window. */
module WindowTrace {
  import opened Basics
  import opened Options
  import opened Striping

  const MAX_DS := 32
  const LOWOFFSET_RANGE := 0x10000000

  /** A file's servers and the size of its stripe on each. */
  datatype Layout = Layout(servers: seq<int>, stripes: seq<nat>) {
    ghost predicate Ok() {
      && |servers| == |stripes| <= MAX_DS && Size(stripes) > 0
      && forall i, j :: 0 <= i < j < |servers| ==> servers[i] != servers[j]
    }
  }

  datatype DataPacket = DataPacket(server: int, low: int, high: int, size: int, aggregate: int, totalSubreqs: int)

  datatype Status = Invalid | NeedWait | MoreToSend | AllDone

  const SW_NULL := 0
  const SW_RECEIVED := -1
  const SW_SENT := -2

  /** The first server in the list with an ID, or -1. */
  method FindServerIndex(layout: Layout, id: int) returns (index: int)
    ensures index == -1 <==> id !in layout.servers
    ensures index != -1 ==> 0 <= index < |layout.servers| && layout.servers[index] == id
    ensures forall h :: 0 <= h < index ==> layout.servers[h] != id
  {
    for i := 0 to |layout.servers|
      invariant forall h :: 0 <= h < i ==> layout.servers[h] != id
    {
      if layout.servers[i] == id {
        return i;
      }
    }
    return -1;
  }

  class WindowBasedTrace {
    const offset: nat
    const total: nat
    var layout: Option<Layout>
    const dsoffsets: array<int>
    const dataSizeInWindow: array<int>
    const sentPktSize: array<int>
    var unProcessedSize: int
    var aggregateSize: int
    var startServer: nat
    var startPosition: int
    var totalSubreqs: int
    ghost var window: nat

    ghost predicate Arrays() {
      && dsoffsets.Length == dataSizeInWindow.Length == sentPktSize.Length == MAX_DS
      && dsoffsets != dataSizeInWindow && dsoffsets != sentPktSize && dataSizeInWindow != sentPktSize
    }

    constructor (offset: nat, total: nat)
      ensures this.offset == offset && this.total == total && layout == None && Arrays()
      ensures unProcessedSize == total && fresh(dsoffsets) && fresh(dataSizeInWindow) && fresh(sentPktSize)
    {
      this.offset, this.total, unProcessedSize := offset, total, total;
      layout, window := None, 0;
      dsoffsets, dataSizeInWindow, sentPktSize := new int[MAX_DS], new int[MAX_DS], new int[MAX_DS];
      aggregateSize, startServer, startPosition, totalSubreqs := 0, 0, 0, 0;
    }

    /** Where the request starts in the stripe window. */
    ghost predicate Begins(l: Layout)
      reads this`startServer, this`startPosition
    {
      && l.Ok() && startServer < |l.stripes| && 0 <= startPosition <= l.stripes[startServer]
      && Before(l.stripes, startServer) + startPosition == offset % Size(l.stripes)
    }

    /** A server's packet of this window: still to be sent or not needed, sent, or answered. */
    ghost predicate SlotOk(l: Layout, i: nat)
      reads this`window, dsoffsets, dataSizeInWindow, sentPktSize
      requires Arrays() && l.Ok() && i < |l.stripes|
    {
      var (start, share) := (WindowStart(l.stripes, i, offset, window), WindowShare(l.stripes, i, offset, total, window));
      var d := dataSizeInWindow[i];
      || (d == share >= 0 && dsoffsets[i] == start)
      || (d == SW_SENT && share > 0 && sentPktSize[i] == share && dsoffsets[i] == start)
      || (d == SW_RECEIVED && share > 0 && dsoffsets[i] == start + share)
    }

    ghost predicate Valid()
      reads this, dsoffsets, dataSizeInWindow, sentPktSize
    {
      && Arrays() && layout.Some? && layout.value.Ok() && Begins(layout.value)
      && window * MAX_WINDOW_SIZE + Aggregate(total, window) + unProcessedSize == total && unProcessedSize >= 0
      && (total > 0 ==> window * MAX_WINDOW_SIZE < total && aggregateSize == Aggregate(total, window))
      && (total == 0 ==> window == 0)
      && forall i :: 0 <= i < |layout.value.stripes| ==> SlotOk(layout.value, i)
    }

    /** Finds where the request starts: on which server, and from where on each. */
    method SetStart(l: Layout)
      requires Arrays() && l.Ok()
      modifies this`startServer, this`startPosition, dsoffsets
      ensures Begins(l)
      ensures forall i :: 0 <= i < |l.stripes| ==> dsoffsets[i] == Part(l.stripes, i, offset)
    {
      var s := l.stripes;
      var jumps := offset / Size(s);
      var remainder: int := offset % Size(s);
      ghost var b := offset % Size(s);
      BeforeAll(s);
      for i := 0 to |s|
        invariant remainder == -1 ==> Begins(l) && b <= Before(s, i)
        invariant remainder != -1 ==> remainder >= 0 && remainder == b - Before(s, i) && (i > 0 ==> remainder > 0)
        invariant forall j :: 0 <= j < i ==> dsoffsets[j] == Part(s, j, offset)
      {
        BeforeNext(s, i);
        dsoffsets[i] := jumps * s[i];
        if remainder != -1 {
          if remainder <= s[i] {
            startServer := i;
            startPosition := remainder;
            dsoffsets[i] := dsoffsets[i] + remainder;
            remainder := -1;
          } else {
            dsoffsets[i] := dsoffsets[i] + s[i];
            remainder := remainder - s[i];
          }
        }
      }
    }

    /** So far the bytes from the origin up to `x` have been dealt out. */
    ghost predicate Dealt(l: Layout, x: nat)
      reads dataSizeInWindow
      requires Arrays() && l.Ok()
    {
      forall j :: 0 <= j < |l.stripes| ==> dataSizeInWindow[j] == Part(l.stripes, j, x) - Part(l.stripes, j, offset)
    }

    /** Some bytes more for server `i`, all in its stripe. */
    method Deal(l: Layout, i: nat, inc: nat, ghost round: nat, ghost a: nat, ghost x: nat)
      requires Arrays() && l.Ok() && Dealt(l, x) && i < |l.stripes|
      requires x == round * Size(l.stripes) + a
      requires Before(l.stripes, i) <= a <= a + inc <= Before(l.stripes, i) + l.stripes[i]
      modifies dataSizeInWindow
      ensures Dealt(l, x + inc)
    {
      hide Part, Size, Before;
      dataSizeInWindow[i] := dataSizeInWindow[i] + inc;
      forall j | 0 <= j < |l.stripes|
        ensures Part(l.stripes, j, x + inc) - Part(l.stripes, j, x) == if j == i then inc else 0
      {
        StripeIsLocal(l.stripes, i, j, round, a, a + inc);
      }
    }

    /** Deals out `agg` bytes stripe by stripe from the start position on, around the servers as often as needed. */
    method Distribute(l: Layout, agg: nat)
      requires Arrays() && Begins(l)
      modifies dataSizeInWindow
      ensures forall i :: 0 <= i < |l.stripes| ==> dataSizeInWindow[i] == Share(l.stripes, i, offset, agg)
    {
      hide Part, Size, Before, Holder;
      var s := l.stripes;
      ghost var w := Size(s);
      for i := 0 to |s|
        invariant forall j :: 0 <= j < i ==> dataSizeInWindow[j] == SW_NULL
      {
        dataSizeInWindow[i] := SW_NULL;
      }
      var left: int := agg;
      var firstTime := true;
      var i := startServer;
      ghost var full := Holder(s, 0);
      ghost var round: nat, x: nat := offset / w, offset;
      Rounds(offset, w);
      BeforeAll(s);
      while true
        invariant 0 <= i <= |s| && left == offset + agg - x && left >= 0 && Dealt(l, x)
        invariant left > 0 ==> x == round * w + Before(s, i) + if firstTime then startPosition else 0
        invariant firstTime ==> i == startServer
        decreases left, if firstTime then 2 * |s| + 2 else if i <= full then full - i else |s| - i + full + 1
      {
        if i == |s| {
          i := 0;
          round := round + 1;
          NextRound(round, w);
        }
        if left == 0 {
          break;
        }
        var sizeInc: int := s[i];
        ghost var a := Before(s, i);
        if i == startServer && firstTime {
          sizeInc := sizeInc - startPosition;
          a := a + startPosition;
          firstTime := false;
        }
        BeforeNext(s, i);
        if sizeInc < left {
          Deal(l, i, sizeInc, round, a, x);
          x := x + sizeInc;
          left := left - sizeInc;
        } else {
          Deal(l, i, left, round, a, x);
          x := x + left;
          left := 0;
        }
        i := i + 1;
      }
    }

    static lemma NextRound(round: nat, w: nat)
      requires round > 0
      ensures (round - 1) * w + w == round * w
    {
    }

    /** Opens the next window, unless everything is in a window already. */
    method OpenNewWindow() returns (ok: bool)
      requires Arrays() && layout.Some? && Begins(layout.value) && unProcessedSize >= 0
      modifies this`unProcessedSize, this`aggregateSize, this`totalSubreqs, dataSizeInWindow
      ensures ok <==> old(unProcessedSize) != 0
      ensures !ok ==>
                && unProcessedSize == old(unProcessedSize) && aggregateSize == old(aggregateSize)
                && totalSubreqs == old(totalSubreqs) && dataSizeInWindow[..] == old(dataSizeInWindow[..])
      ensures ok ==>
                && aggregateSize == Min(old(unProcessedSize), MAX_WINDOW_SIZE)
                && unProcessedSize == old(unProcessedSize) - aggregateSize
                && totalSubreqs == |layout.value.stripes|
                && forall i :: 0 <= i < |layout.value.stripes| ==>
                     dataSizeInWindow[i] == Share(layout.value.stripes, i, offset, aggregateSize)
      ensures ok ==>
                var (l, agg) := (layout.value.stripes, aggregateSize);
                totalSubreqs == Busy(l, |l|, offset, agg) <==> forall i :: 0 <= i < |l| ==> Share(l, i, offset, agg) > 0
    {
      if unProcessedSize == 0 {
        return false;
      }
      if unProcessedSize > MAX_WINDOW_SIZE {
        aggregateSize := MAX_WINDOW_SIZE;
        unProcessedSize := unProcessedSize - MAX_WINDOW_SIZE;
      } else {
        aggregateSize := unProcessedSize;
        unProcessedSize := 0;
      }
      Distribute(layout.value, aggregateSize);
      // The test is on the array and not on its elements, so it always holds.
      totalSubreqs := 0;
      for i := 0 to |layout.value.stripes|
        invariant totalSubreqs == i
        modifies this`totalSubreqs
      {
        totalSubreqs := totalSubreqs + 1;
      }
      AllBusy(layout.value.stripes, |layout.value.stripes|, offset, aggregateSize);
      ok := true;
    }

    /** Sets the offset on each server and opens the first window. */
    method SetLayout(l: Layout)
      requires Arrays() && l.Ok() && unProcessedSize == total
      modifies this, dsoffsets, dataSizeInWindow
      ensures Valid() && layout == Some(l) && window == 0
      ensures forall i :: 0 <= i < |l.stripes| ==>
                dsoffsets[i] == Part(l.stripes, i, offset) && dataSizeInWindow[i] == WindowShare(l.stripes, i, offset, total, 0)
    {
      hide Part, Size, Before;
      layout := Some(l);
      window := 0;
      SetStart(l);
      for i := 0 to |l.stripes|
        invariant forall j :: 0 <= j < i ==> dataSizeInWindow[j] == SW_NULL
        modifies dataSizeInWindow
      {
        dataSizeInWindow[i] := SW_NULL;
      }
      var ok := OpenNewWindow();
      forall i | 0 <= i < |l.stripes|
        ensures Share(l.stripes, i, offset, Aggregate(total, 0)) >= 0
      {
        PartGrows(l.stripes, i, offset, offset + Aggregate(total, 0));
      }
    }

    /** The packet of a server and window. */
    function PacketFor(l: Layout, i: nat): DataPacket
      reads this`aggregateSize, this`totalSubreqs, dsoffsets, dataSizeInWindow
      requires Arrays() && i < |l.servers| && i < MAX_DS
    {
      DataPacket(l.servers[i], dsoffsets[i] % LOWOFFSET_RANGE, dsoffsets[i] / LOWOFFSET_RANGE, dataSizeInWindow[i],
                 aggregateSize, totalSubreqs)
    }

    /** The packet carries exactly the server's share of this window, and it is the first one not sent yet. */
    ghost predicate Sends(l: Layout, i: nat, p: DataPacket, before: seq<int>)
      reads this`window, dataSizeInWindow
      requires Arrays() && l.Ok()
    {
      && i < |l.stripes| && |before| == MAX_DS && before[i] > 0 && (forall h :: 0 <= h < i ==> before[h] <= 0)
      && p.server == l.servers[i]
      && p.high * LOWOFFSET_RANGE + p.low == WindowStart(l.stripes, i, offset, window) && 0 <= p.low < LOWOFFSET_RANGE
      && p.size == WindowShare(l.stripes, i, offset, total, window) > 0
      && dataSizeInWindow[..] == before[i := SW_SENT]
    }

    /** The slot of server `i` is marked as sent. */
    method MarkSent(i: nat)
      requires Valid() && i < |layout.value.stripes| && dataSizeInWindow[i] > 0
      modifies dataSizeInWindow, sentPktSize
      ensures Valid() && dataSizeInWindow[..] == old(dataSizeInWindow[..])[i := SW_SENT]
    {
      hide WindowStart, WindowShare, Aggregate, Size;
      var l := layout.value;
      forall k | 0 <= k < |l.stripes|
        ensures SlotOk(l, k)
      {
      }
      sentPktSize[i] := dataSizeInWindow[i];
      dataSizeInWindow[i] := SW_SENT;
      forall k | 0 <= k < |l.stripes|
        ensures SlotOk(l, k)
      {
        assert old(SlotOk(l, k));
      }
    }

    /** Sends the packet of the first server whose packet of this window is still to be sent. */
    method NextPacketFromWindow() returns (p: Option<DataPacket>, ghost i: nat)
      requires Valid()
      modifies dataSizeInWindow, sentPktSize
      ensures Valid()
      ensures p == None ==>
                && dataSizeInWindow[..] == old(dataSizeInWindow[..])
                && forall h :: 0 <= h < |layout.value.stripes| ==> dataSizeInWindow[h] <= 0
      ensures p.Some? ==> Sends(layout.value, i, p.value, old(dataSizeInWindow[..]))
    {
      hide WindowStart, WindowShare, Aggregate, Size;
      var l := layout.value;
      var h := 0;
      while h < |l.servers| && dataSizeInWindow[h] <= 0
        invariant 0 <= h <= |l.servers| && forall k :: 0 <= k < h ==> dataSizeInWindow[k] <= 0
      {
        h := h + 1;
      }
      i := h;
      if h == |l.servers| {
        return None, i;
      }
      assert SlotOk(l, h);
      p := Some(PacketFor(l, h));
      HighAndLow(dsoffsets[h]);
      MarkSent(h);
    }

    static lemma HighAndLow(x: int)
      ensures x / LOWOFFSET_RANGE * LOWOFFSET_RANGE + x % LOWOFFSET_RANGE == x && 0 <= x % LOWOFFSET_RANGE < LOWOFFSET_RANGE
    {
    }

    /** Every packet of this window has been answered. */
    ghost predicate Answered(l: Layout)
      reads dataSizeInWindow
      requires Arrays() && |l.stripes| <= MAX_DS
    {
      forall h :: 0 <= h < |l.stripes| ==> dataSizeInWindow[h] <= 0 && dataSizeInWindow[h] != SW_SENT
    }

    /** With all packets of a full window answered, every server is where its next window starts. */
    lemma WindowDone(l: Layout, i: nat)
      requires Valid() && layout == Some(l) && Answered(l) && unProcessedSize > 0 && i < |l.stripes|
      ensures dsoffsets[i] == WindowStart(l.stripes, i, offset, window + 1)
      ensures (window + 1) * MAX_WINDOW_SIZE < total
      ensures Aggregate(total, window + 1) == Min(unProcessedSize, MAX_WINDOW_SIZE)
    {
      hide Part, Size;
      assert SlotOk(l, i);
      Striping.Distribute(Share(l.stripes, i, offset, MAX_WINDOW_SIZE), window, 1);
    }

    /** Moves on to the next window. */
    method AdvanceWindow() returns (ok: bool)
      requires Valid() && Answered(layout.value)
      modifies this`unProcessedSize, this`aggregateSize, this`totalSubreqs, this`window, dataSizeInWindow
      ensures Valid() && layout == old(layout) && dsoffsets[..] == old(dsoffsets[..])
      ensures ok <==> old(unProcessedSize) > 0
      ensures !ok ==> window == old(window) && unProcessedSize == 0 && dataSizeInWindow[..] == old(dataSizeInWindow[..])
      ensures ok ==>
                && window == old(window) + 1 && totalSubreqs == |layout.value.stripes|
                && (exists i :: 0 <= i < |layout.value.stripes| && dataSizeInWindow[i] > 0)
                && forall i :: 0 <= i < |layout.value.stripes| ==>
                     dataSizeInWindow[i] == WindowShare(layout.value.stripes, i, offset, total, window)
    {
      hide Part, Size, Before, WindowStart;
      ghost var l := layout.value;
      if unProcessedSize > 0 {
        forall i | 0 <= i < |l.stripes|
          ensures dsoffsets[i] == WindowStart(l.stripes, i, offset, window + 1)
          ensures (window + 1) * MAX_WINDOW_SIZE < total
          ensures Aggregate(total, window + 1) == Min(unProcessedSize, MAX_WINDOW_SIZE)
        {
          WindowDone(l, i);
        }
        assert startServer < |l.stripes|;
        assert Aggregate(total, window + 1) == Min(unProcessedSize, MAX_WINDOW_SIZE);
      }
      ok := OpenNewWindow();
      if ok {
        window := window + 1;
        forall i | 0 <= i < |l.stripes|
          ensures WindowShare(l.stripes, i, offset, total, window) >= 0
        {
          PartGrows(l.stripes, i, offset, offset + Aggregate(total, window));
        }
        SharesAddUp(l.stripes, offset, aggregateSize);
        ghost var i := SomeShare(l.stripes, |l.stripes|, offset, aggregateSize);
      } else {
        forall k | 0 <= k < |l.stripes|
          ensures SlotOk(l, k)
        {
          assert old(SlotOk(l, k)) && dataSizeInWindow[..][k] == old(dataSizeInWindow[..])[k];
        }
      }
    }

    /** The next packet to send: of this window, or of the next one once all of this one have been answered. */
    method NextPacket() returns (p: Option<DataPacket>, ghost i: nat)
      requires layout.Some? ==> Valid()
      modifies this`unProcessedSize, this`aggregateSize, this`totalSubreqs, this`window, dataSizeInWindow, sentPktSize
      ensures layout == old(layout) && (layout.Some? ==> Valid()) && (layout == None ==> p == None)
      ensures layout.Some? ==>
                var waiting := exists h :: 0 <= h < |layout.value.stripes| && old(dataSizeInWindow[..])[h] == SW_SENT;
                var unsent := exists h :: 0 <= h < |layout.value.stripes| && old(dataSizeInWindow[..])[h] > 0;
                && (p == None <==> !unsent && (waiting || old(unProcessedSize) == 0))
                && window == old(window) + (if p.Some? && !unsent then 1 else 0)
                && (p.Some? ==> exists before :: Sends(layout.value, i, p.value, before)
                                                 && (unsent ==> before == old(dataSizeInWindow[..])))
    {
      i := 0;
      if layout == None {
        return None, i;
      }
      hide WindowStart, WindowShare, Aggregate, Size, Part;
      var l := layout.value;
      p, i := NextPacketFromWindow();
      if p.Some? {
        assert old(dataSizeInWindow[..])[i] > 0;
        return;
      }
      for h := 0 to |l.servers|
        invariant forall k :: 0 <= k < h ==> dataSizeInWindow[k] != SW_SENT
      {
        if dataSizeInWindow[h] == SW_SENT {
          assert old(dataSizeInWindow[..])[h] == SW_SENT;
          return None, i;
        }
      }
      var ok := AdvanceWindow();
      if !ok {
        return None, i;
      }
      p, i := NextPacketFromWindow();
    }

    /** A packet has been answered. */
    method FinishedPacket(server: int) returns (status: Status)
      requires Valid()
      requires forall i :: 0 <= i < |layout.value.servers| && layout.value.servers[i] == server ==> dataSizeInWindow[i] == SW_SENT
      modifies dsoffsets, dataSizeInWindow
      ensures Valid()
      ensures status == Invalid <==> server !in layout.value.servers
      ensures status == Invalid ==> dsoffsets[..] == old(dsoffsets[..]) && dataSizeInWindow[..] == old(dataSizeInWindow[..])
      ensures status != Invalid ==>
                exists i :: 0 <= i < |layout.value.servers| && layout.value.servers[i] == server
                            && dataSizeInWindow[..] == old(dataSizeInWindow[..])[i := SW_RECEIVED]
                            && dsoffsets[..] == old(dsoffsets[..])[i :=
                                 WindowStart(layout.value.stripes, i, offset, window)
                                 + WindowShare(layout.value.stripes, i, offset, total, window)]
      ensures status != Invalid ==>
                && (status == NeedWait <==> !Answered(layout.value))
                && (status == AllDone <==> Answered(layout.value) && unProcessedSize == 0)
    {
      hide WindowStart, WindowShare, Aggregate, Size;
      var l := layout.value;
      var index := FindServerIndex(l, server);
      if index < 0 {
        return Invalid;
      }
      assert SlotOk(l, index);
      MarkReceived(index);
      for h := 0 to |l.servers|
        invariant forall k :: 0 <= k < h ==> dataSizeInWindow[k] <= 0 && dataSizeInWindow[k] != SW_SENT
        modifies {}
      {
        if dataSizeInWindow[h] > 0 || dataSizeInWindow[h] == SW_SENT {
          return NeedWait;
        }
      }
      status := if unProcessedSize == 0 then AllDone else MoreToSend;
    }

    method MarkReceived(i: nat)
      requires Valid() && i < |layout.value.stripes| && dataSizeInWindow[i] == SW_SENT
      modifies dsoffsets, dataSizeInWindow
      ensures Valid() && dataSizeInWindow[..] == old(dataSizeInWindow[..])[i := SW_RECEIVED]
      ensures dsoffsets[..] == old(dsoffsets[..])[i := WindowStart(layout.value.stripes, i, offset, window)
                                                       + WindowShare(layout.value.stripes, i, offset, total, window)]
    {
      hide WindowStart, WindowShare, Aggregate, Size;
      ghost var l := layout.value;
      assert SlotOk(l, i);
      dataSizeInWindow[i] := SW_RECEIVED;
      dsoffsets[i] := dsoffsets[i] + sentPktSize[i];
      forall k | 0 <= k < |l.stripes|
        ensures SlotOk(l, k)
      {
        assert old(SlotOk(l, k));
      }
    }
  }
}
