/** The counter of dirty pages against the pages that are dirty: when they go together, and when they do not. */
module DirtyPages {
  import opened Options
  import opened PageRanges
  import opened PageReclaim
  import opened LruOrder
  import opened PageAccess

  const CACHE_WRITTEN := Op(false, false, false)
  const WRITE_BACK := Op(true, true, false)

  /** A page that is dirty and not under write-back. */
  predicate Waits(f: Flags) {
    f.dirty && !f.writeback
  }

  /** How many pages are dirty and not under write-back. */
  function Awaiting(list: seq<Range>): int {
    if list == [] then 0
    else Awaiting(list[1..]) + if Waits(list[0].flags) then list[0].end - list[0].start else 0
  }

  /** What a walk adds to the counter of dirty pages. */
  function Change(op: Op, inserted: int, touched: int): int {
    (if op.read then 0 else inserted) - (if op.preop && op.disk && !op.read then touched else 0)
  }

  /** A cached page for which the counter goes along.  Before and after a write to the cache, and before a write-back,
      the page must be dirty and not under write-back; after a write-back it must not be that; and a read must not meet
      a dirty page under write-back. */
  predicate Neutral(op: Op, f: Flags) {
    if op.read then !(f.dirty && f.writeback)
    else if op.disk && !op.preop then !Waits(f)
    else Waits(f)
  }

  /** So it is for every cached page asked for. */
  ghost predicate AllNeutral(op: Op, list: seq<Range>, s: int, e: int) {
    forall p :: s <= p < e && At(list, p).Some? ==> Neutral(op, At(list, p).value)
  }

  /** How far the counter and the pages drift apart. */
  function Drift(op: Op, before: seq<Range>, after: seq<Range>, inserted: int, touched: int): int {
    Change(op, inserted, touched) - (Awaiting(after) - Awaiting(before))
  }

  /** It is always to the same side: upward after a write-back, else downward. */
  predicate Sided(op: Op, d: int) {
    if !op.read && op.disk && !op.preop then d >= 0 else d <= 0
  }

  lemma {:induction false} AwaitingAppend(x: seq<Range>, y: seq<Range>)
    ensures Awaiting(x + y) == Awaiting(x) + Awaiting(y)
  {
    if x == [] {
      assert x + y == y;
    } else {
      AwaitingAppend(x[1..], y);
      assert (x + y)[1..] == x[1..] + y;
    }
  }

  lemma AwaitingOne(x: Range)
    ensures Awaiting([x]) == if Waits(x.flags) then x.end - x.start else 0
  {
    assert [x][1..] == [];
  }

  lemma AwaitingFew(x: Range, y: Range, z: Range)
    ensures Awaiting([x, y]) == Awaiting([x]) + Awaiting([y])
    ensures Awaiting([x, y, z]) == Awaiting([x]) + Awaiting([y]) + Awaiting([z])
  {
    AwaitingAppend([x], [y]);
    AwaitingAppend([x, y], [z]);
    assert [x] + [y] == [x, y] && [x, y] + [z] == [x, y, z];
  }

  lemma FlagsDrift(op: Op, f: Flags)
    ensures Waits(MissFlags(op)) <==> !op.read
    ensures MayHit(op) ==> (Neutral(op, f) <==>
                              (if op.preop && op.disk && !op.read then -1 else 0)
                                == (if Waits(HitFlags(op, f)) then 1 else 0) - (if Waits(f) then 1 else 0))
    ensures MayHit(op) ==> Sided(op, (if op.preop && op.disk && !op.read then -1 else 0)
                                       - ((if Waits(HitFlags(op, f)) then 1 else 0) - (if Waits(f) then 1 else 0)))
  {
  }

  /** One node: nothing drifts apart exactly if no page of it is changed, or its pages are neutral. */
  lemma HitDrift(op: Op, c: Range, s: int, e: int)
    requires c.start < c.end && c.start <= s < e && !Hit(op, c, s, e).refused
    ensures var v := Hit(op, c, s, e);
            var d := Drift(op, [c], v.out, v.inserted, v.touched);
            Sided(op, d) && (d == 0 <==> s >= c.end || Neutral(op, c.flags))
  {
    hide HitFlags, Neutral, Waits, Awaiting;
    if s < c.end {
      FlagsDrift(op, c.flags);
      var f := HitFlags(op, c.flags);
      var m := if e < c.end then e else c.end;
      var (left, hit, right) := (Range(c.start, s, c.flags), Range(s, m, f), Range(e, c.end, c.flags));
      AwaitingOne(c);
      AwaitingOne(left);
      AwaitingOne(hit);
      AwaitingOne(right);
      AwaitingFew(left, hit, right);
      AwaitingFew(hit, right, right);
      AwaitingFew(left, hit, hit);
      assert Hit(op, c, s, e).out == if s == c.start then if e < c.end then [hit, right] else [hit]
                                     else if e < c.end then [left, hit, right] else [left, hit];
    }
  }

  lemma VisitDrift(op: Op, c: Range, s: int, e: int)
    requires c.start < c.end && s < e && !VisitNode(op, c, s, e).refused
    ensures var v := VisitNode(op, c, s, e);
            var d := Drift(op, [c], v.out, v.inserted, v.touched);
            Sided(op, d) && (d == 0 <==> s >= c.end || e <= c.start || Neutral(op, c.flags))
  {
    hide Hit, HitFlags, MissFlags, Neutral, Waits, Awaiting;
    FlagsDrift(op, c.flags);
    if s >= c.start {
      HitDrift(op, c, s, e);
    } else {
      var first := Range(s, if e <= c.start then e else c.start, MissFlags(op));
      AwaitingOne(first);
      if e <= c.start {
        AwaitingFew(first, c, c);
      } else {
        HitDrift(op, c, c.start, e);
        HitInsertsNothing(op, c, c.start, e);
        AwaitingAppend([first], Hit(op, c, c.start, e).out);
      }
    }
  }

  /** The pages of a node that the visit changes, and those of the rest of the list. */
  lemma NeutralParts(op: Op, list: seq<Range>, s: int, e: int, next: int)
    requires Sorted(list) && list != [] && s < e && s <= next <= e && (next == e || next == if s < list[0].end then list[0].end else s)
    requires next == e ==> e <= list[0].end
    ensures var c := list[0];
            AllNeutral(op, list, s, e) <==>
              (s >= c.end || e <= c.start || Neutral(op, c.flags)) && (next < e ==> AllNeutral(op, list[1..], next, e))
  {
    hide Neutral, At;
    var (c, rest) := (list[0], list[1..]);
    forall p
      ensures c.start <= p < c.end ==> At(list, p) == Some(c.flags)
      ensures p < c.start ==> At(list, p) == None
      ensures c.end <= p ==> At(list, p) == At(rest, p)
    {
      FirstNode(list, p);
      if p < c.start {
        AtAbove(list, c.start, p);
      }
    }
    if s < c.end && c.start < e {
      assert At(list, if s < c.start then c.start else s) == Some(c.flags);
    }
  }

  /** For a whole walk: the counter and the pages drift to one side only, and stay together exactly if every cached
      page asked for is neutral. */
  lemma {:induction false} WalkDrift(op: Op, list: seq<Range>, s: int, e: int)
    requires Sorted(list) && s < e && !CacheReadStart(op) && !Update(op, list, s, e).refused
    ensures var u := Update(op, list, s, e);
            var d := Drift(op, list, u.list, u.inserted, u.touched);
            Sided(op, d) && (d == 0 <==> AllNeutral(op, list, s, e))
  {
    hide HitFlags, MissFlags, Neutral, Awaiting, AllNeutral, Waits;
    if list == [] {
      NothingCachedIsNeutral(op, s, e);
    } else {
      hide VisitNode;
      var (c, rest) := (list[0], list[1..]);
      var v := VisitNode(op, c, s, e);
      SortedTail(list);
      VisitShape(op, c, s, e);
      VisitDrift(op, c, s, e);
      StopsAtEnd(op, c, s, e);
      NeutralParts(op, list, s, e, v.next);
      AwaitingAppend([c], rest);
      assert [c] + rest == list;
      if v.stop {
        AwaitingAppend(v.out, rest);
      } else {
        WalkDrift(op, rest, v.next, e);
        AwaitingAppend(v.out, Update(op, rest, v.next, e).list);
      }
    }
  }

  lemma NothingCachedIsNeutral(op: Op, s: int, e: int)
    requires s < e && MayInsert(op)
    ensures AllNeutral(op, [], s, e)
    ensures var u := Update(op, [], s, e); Drift(op, [], u.list, u.inserted, u.touched) == 0
  {
    FlagsDrift(op, Flags(0, false, false, false, false, false, false));
    AwaitingOne(Range(s, e, MissFlags(op)));
  }

  /** The counter keeps its distance to the number of pages that are dirty and not under write-back, over a walk from
      any position it may start at, exactly if every cached page asked for is neutral for the operation. */
  lemma CounterExact(op: Op, list: seq<Range>, k: nat, s: int, e: int)
    requires Sorted(list) && s < e && !CacheReadStart(op) && (k == 0 || (k < |list| && list[k].start < s))
    requires !UpdateFrom(op, list, k, s, e).refused
    ensures var u := UpdateFrom(op, list, k, s, e);
            (Change(op, u.inserted, u.touched) == Awaiting(u.list) - Awaiting(list)) <==> AllNeutral(op, list, s, e)
  {
    hide Awaiting, Neutral, Update, UpdateFrom, Absent, Pointwise, Meets;
    UpdateFromIsPointwise(op, list, k, s, e);
    var u := UpdateFrom(op, list, k, s, e);
    assert u == Update(op, list, s, e);
    WalkDrift(op, list, s, e);
  }

  /** Before a cache read the walk looks at one record only, and so it is with its pages. */
  lemma CounterExactForRead(op: Op, list: seq<Range>, s: int, e: int)
    requires Sorted(list) && s < e && CacheReadStart(op) && list != [] && list[0].start <= s
    ensures var u := Update(op, list, s, e);
            && !u.refused
            && ((Change(op, u.inserted, u.touched) == Awaiting(u.list) - Awaiting(list)) <==>
                (s >= list[0].end || Neutral(op, list[0].flags)))
  {
    hide HitFlags, MissFlags, Neutral, Awaiting, Waits;
    var (c, rest) := (list[0], list[1..]);
    HitDrift(op, c, s, e);
    HitInsertsNothing(op, c, s, e);
    AwaitingAppend([c], rest);
    AwaitingAppend(VisitNode(op, c, s, e).out, rest);
    assert [c] + rest == list;
  }

  // ---------------------------------------------------------------- what the counter is not

  const CLEAN := Flags(0, false, false, false, true, false, false)

  /** A clean cached page is written, the write is completed, and the page is written back: the counter goes from 0 to
      -1, though one page was dirty in between and none is in the end. */
  lemma CounterBelowZero()
    ensures var list := [Range(0, 1, CLEAN)];
            var w := Update(CACHE_WRITE, list, 0, 1);
            var d := Update(CACHE_WRITTEN, w.list, 0, 1);
            var b := Update(WRITE_BACK, d.list, 0, 1);
            && !w.refused && !d.refused && !b.refused
            && Awaiting(list) == 0 && Awaiting(w.list) == 1 && Awaiting(d.list) == 1 && Awaiting(b.list) == 0
            && Change(CACHE_WRITE, w.inserted, w.touched) == 0 && Change(CACHE_WRITTEN, d.inserted, d.touched) == 0
            && Change(WRITE_BACK, b.inserted, b.touched) == -1
  {
    AwaitingOne(Range(0, 1, CLEAN));
    var f := HitFlags(CACHE_WRITE, CLEAN);
    assert Update(CACHE_WRITE, [Range(0, 1, CLEAN)], 0, 1) == Outcome([Range(0, 1, f)], false, 0, 1);
    AwaitingOne(Range(0, 1, f));
    var g := HitFlags(CACHE_WRITTEN, f);
    assert Update(CACHE_WRITTEN, [Range(0, 1, f)], 0, 1) == Outcome([Range(0, 1, g)], false, 0, 1);
    AwaitingOne(Range(0, 1, g));
    var h := HitFlags(WRITE_BACK, g);
    assert Update(WRITE_BACK, [Range(0, 1, g)], 0, 1) == Outcome([Range(0, 1, h)], false, 0, 1);
    AwaitingOne(Range(0, 1, h));
  }

  /** However many clean cached pages are written, the counter does not move: a bound on it bounds nothing. */
  lemma BoundSaysNothing(n: int)
    requires n > 0
    ensures var list := [Range(0, n, CLEAN)];
            var u := Update(CACHE_WRITE, list, 0, n);
            !u.refused && Change(CACHE_WRITE, u.inserted, u.touched) == 0 && Awaiting(list) == 0 && Awaiting(u.list) == n
  {
    AwaitingOne(Range(0, n, CLEAN));
    var f := HitFlags(CACHE_WRITE, CLEAN);
    assert Update(CACHE_WRITE, [Range(0, n, CLEAN)], 0, n) == Outcome([Range(0, n, f)], false, 0, n);
    AwaitingOne(Range(0, n, f));
  }

  // ---------------------------------------------------------------- a record taken from under the walk

  /** A cache whose one page, page 5 of file 7, is clean and in no use, and that has no free page.  A write of the pages
      from 0 up to 10 meets the record of page 5 and has five pages to insert in front of it.  Reclaiming a batch of
      32 pages for them takes that record, at which the walk goes on. */
  lemma CursorTaken()
    ensures var (c, l) := (Range(5, 6, CLEAN), [Entry(7, Range(5, 6, CLEAN))]);
            && VisitNode(CACHE_WRITE, c, 0, 10).inserted == 5 && !VisitNode(CACHE_WRITE, c, 0, 10).stop
            && !NoCold([c]) && Evicted(l, 32, 0) && !Has(Reclaim(l, 32).0, 7, 5)
  {
    var (c, l) := (Range(5, 6, CLEAN), [Entry(7, Range(5, 6, CLEAN))]);
    OneCold(l[0]);
    assert l[0..] == l && [c][0] == c;
    Survives(l, 32, 0);
  }
}
