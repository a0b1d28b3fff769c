/** The page table of one file as a sorted list of page ranges, and the walk that updates it. */
module PageRanges {
  import opened Options

  datatype Flags = Flags(count: int, dirty: bool, writeback: bool, locked: bool,
                         referenced: bool, modified: bool, lru: bool)

  /** Pages start up to but not including end, all with the same flags. */
  datatype Range = Range(start: int, end: int, flags: Flags)

  /** The eight ways the walk is called: before or after, on disk or in cache, read or write. */
  datatype Op = Op(preop: bool, disk: bool, read: bool)

  ghost predicate Sorted(list: seq<Range>) {
    && (forall i :: 0 <= i < |list| ==> list[i].start < list[i].end)
    && (forall i, j :: 0 <= i < j < |list| ==> list[i].end <= list[j].start)
  }

  /** The flags of page `p`, if it is cached. */
  function At(list: seq<Range>, p: int): Option<Flags> {
    if list == [] then None
    else if list[0].start <= p < list[0].end then Some(list[0].flags)
    else At(list[1..], p)
  }

  // ---------------------------------------------------------------- what an operation does to one page

  /** The flags of the range record built for a request. */
  function Requested(op: Op): Flags {
    Flags(1, !op.read, false, !op.read, true, !op.read, false)
  }

  function MissFlags(op: Op): Flags {
    Requested(op).(locked := true, dirty := !op.read)
  }

  function HitFlags(op: Op, was: Flags): Flags {
    var f0 := Requested(op);
    var f1 := if !op.disk && !op.read then f0.(dirty := true, locked := op.preop) else f0;
    var f2 := if !(op.disk && !op.read) then f1
              else if op.preop then f1.(writeback := true)
              else f1.(writeback := false, dirty := false, locked := false);
    var f3 := if !op.preop && op.disk && op.read then f2.(locked := false) else f2;
    var f4 := if !op.preop then f3.(count := f3.count - 1) else f3;
    if op.disk && !op.read && !op.preop then f4
    else f4.(dirty := f4.dirty || was.dirty, modified := f4.modified || was.modified)
  }

  /** A cached page after an operation that met it. */
  ghost predicate ChangedBy(op: Op, was: Flags, now: Flags) {
    && now.count == (if op.preop then 1 else 0)
    && (now.locked <==> op.preop && !op.read)
    && (now.writeback <==> op.preop && op.disk && !op.read)
    && (now.modified <==> !op.read || was.modified)
    && (now.dirty <==> if op.read then was.dirty else op.preop || !op.disk)
    && now.referenced && !now.lru
  }

  /** A page that an operation brought into the cache. */
  ghost predicate BroughtBy(op: Op, now: Flags) {
    now == Flags(1, !op.read, false, true, true, !op.read, false)
  }

  lemma FlagsLeft(op: Op, was: Flags)
    ensures ChangedBy(op, was, HitFlags(op, was)) && BroughtBy(op, MissFlags(op))
  {
  }

  /** Only reading from disk and writing to cache, before the fact, may enlarge the cache. */
  predicate MayInsert(op: Op) {
    op.preop && op.disk == op.read
  }

  /** Reading from disk what is cached already is an error. */
  predicate MayHit(op: Op) {
    !(op.preop && op.disk && op.read)
  }

  predicate CacheReadStart(op: Op) {
    op.preop && !op.disk && op.read
  }

  /** A page after the operation, given the page before. */
  function PageAfter(op: Op, before: Option<Flags>): Flags {
    match before
    case None => MissFlags(op)
    case Some(f) => HitFlags(op, f)
  }

  // ---------------------------------------------------------------- the walk

  /** One visit of the walk: the ranges that take the node's place, where the request now starts, whether
      the walk goes on, and how many pages it inserted and how many it found cached and changed. */
  datatype Visit = Visit(out: seq<Range>, next: int, stop: bool, refused: bool, inserted: nat, touched: int)

  /** The part of the request that reaches into the node. */
  function Hit(op: Op, c: Range, s: int, e: int): Visit
    requires c.start < c.end && s < e && c.start <= s
  {
    if s >= c.end then Visit([c], s, CacheReadStart(op), false, 0, 0)
    else if !MayHit(op) then Visit([c], s, true, true, 0, 0)
    else
      var f := HitFlags(op, c.flags);
      var left := if s == c.start then [] else [Range(c.start, s, c.flags)];
      if e < c.end then Visit(left + [Range(s, e, f), Range(e, c.end, c.flags)], e, true, false, 0, e - s)
      else Visit(left + [Range(s, c.end, f)], c.end, c.end == e || CacheReadStart(op), false, 0, c.end - s)
  }

  function VisitNode(op: Op, c: Range, s: int, e: int): Visit
    requires c.start < c.end && s < e
  {
    if s >= c.start then Hit(op, c, s, e)
    else if !MayInsert(op) then Visit([c], s, true, true, 0, 0)
    else if e <= c.start then Visit([Range(s, e, MissFlags(op)), c], e, true, false, e - s, 0)
    else
      var v := Hit(op, c, c.start, e);
      v.(out := [Range(s, c.start, MissFlags(op))] + v.out, inserted := c.start - s)
  }

  datatype Outcome = Outcome(list: seq<Range>, refused: bool, inserted: nat, touched: int)

  function Update(op: Op, list: seq<Range>, s: int, e: int): Outcome
    requires Sorted(list) && s < e
  {
    if list == [] then
      if MayInsert(op) then Outcome([Range(s, e, MissFlags(op))], false, e - s, 0) else Outcome([], true, 0, 0)
    else
      var v := VisitNode(op, list[0], s, e);
      if v.stop then Outcome(v.out + list[1..], v.refused, v.inserted, v.touched)
      else
        var rest := Update(op, list[1..], v.next, e);
        Outcome(v.out + rest.list, rest.refused, v.inserted + rest.inserted, v.touched + rest.touched)
  }

  // ---------------------------------------------------------------- lookups

  ghost predicate Above(list: seq<Range>, p: int) {
    forall i :: 0 <= i < |list| ==> p <= list[i].start
  }

  ghost predicate Below(list: seq<Range>, p: int) {
    forall i :: 0 <= i < |list| ==> list[i].end <= p
  }

  lemma {:induction false} AtAppend(x: seq<Range>, y: seq<Range>, p: int)
    ensures At(x + y, p) == if At(x, p).Some? then At(x, p) else At(y, p)
  {
    if x == [] {
      assert x + y == y;
    } else {
      AtAppend(x[1..], y, p);
      assert (x + y)[1..] == x[1..] + y;
    }
  }

  lemma {:induction false} AtAbove(list: seq<Range>, bound: int, p: int)
    requires Above(list, bound) && p < bound
    ensures At(list, p) == None
  {
    if list != [] {
      AtAbove(list[1..], bound, p);
    }
  }

  lemma {:induction false} AtBelow(list: seq<Range>, bound: int, p: int)
    requires Below(list, bound) && bound <= p
    ensures At(list, p) == None
  {
    if list != [] {
      AtBelow(list[1..], bound, p);
    }
  }

  /** A page is cached when some range covers it, with the flags of that range. */
  lemma {:induction false} AtCovered(list: seq<Range>, p: int) returns (i: nat)
    requires At(list, p).Some?
    ensures i < |list| && list[i].start <= p < list[i].end && At(list, p).value == list[i].flags
  {
    i := 0;
    if !(list[0].start <= p < list[0].end) {
      i := AtCovered(list[1..], p);
      i := i + 1;
    }
  }

  lemma {:induction false} CoveredIsAt(list: seq<Range>, i: nat, p: int)
    requires Sorted(list) && i < |list| && list[i].start <= p < list[i].end
    ensures At(list, p) == Some(list[i].flags)
  {
    if i > 0 {
      SortedTail(list);
      CoveredIsAt(list[1..], i - 1, p);
    }
  }

  lemma SortedTail(list: seq<Range>)
    requires Sorted(list) && list != []
    ensures Sorted(list[1..]) && Above(list[1..], list[0].end)
  {
  }

  lemma SortedAppend(x: seq<Range>, y: seq<Range>, bound: int)
    requires Sorted(x) && Sorted(y) && Below(x, bound) && Above(y, bound)
    ensures Sorted(x + y)
  {
  }

  // ---------------------------------------------------------------- the walk, page by page

  /** The operation must not meet this page. */
  predicate Forbidden(op: Op, page: Option<Flags>) {
    if page.None? then !MayInsert(op) else !MayHit(op)
  }

  ghost predicate Meets(op: Op, list: seq<Range>, s: int, e: int) {
    exists p :: s <= p < e && Forbidden(op, At(list, p))
  }

  /** The pages asked for, changed one by one; all others as they were. */
  ghost predicate Pointwise(op: Op, before: seq<Range>, after: seq<Range>, s: int, e: int) {
    forall p :: At(after, p) == if s <= p < e then Some(PageAfter(op, At(before, p))) else At(before, p)
  }

  /** What every visit leaves behind: sorted ranges within the node and the request, moved past in order. */
  ghost predicate Tidy(op: Op, c: Range, s: int, e: int, v: Visit) {
    && v.out != [] && Sorted(v.out) && Below(v.out, c.end)
    && Above(v.out, if s < c.start then s else c.start)
    && s <= v.next <= e && (v.stop || (v.next < e && c.end <= v.next))
    && (v.next <= s || v.next <= c.end)
    && (v.stop && !CacheReadStart(op) && !v.refused ==> v.next == e)
  }

  /** The pages between `s` and where the visit ends are changed, the node's others are not. */
  ghost predicate Changes(op: Op, c: Range, s: int, v: Visit, p: int) {
    At(v.out, p) == if s <= p < v.next then Some(PageAfter(op, At([c], p))) else At([c], p)
  }

  lemma AtOne(x: Range, p: int)
    ensures At([x], p) == if x.start <= p < x.end then Some(x.flags) else None
  {
  }

  lemma HitShape(op: Op, c: Range, s: int, e: int)
    requires c.start < c.end && s < e && c.start <= s
    ensures Tidy(op, c, s, e, Hit(op, c, s, e))
  {
    hide HitFlags;
  }

  lemma HitPages(op: Op, c: Range, s: int, e: int, p: int)
    requires c.start < c.end && s < e && c.start <= s && !Hit(op, c, s, e).refused
    ensures Changes(op, c, s, Hit(op, c, s, e), p)
  {
    hide HitFlags, At;
    AtOne(c, p);
    if s < c.end {
      var left := if s == c.start then [] else [Range(c.start, s, c.flags)];
      var mid := Range(s, if e < c.end then e else c.end, HitFlags(op, c.flags));
      var right := Range(e, c.end, c.flags);
      AtEmpty(p);
      AtOne(Range(c.start, s, c.flags), p);
      AtOne(mid, p);
      AtOne(right, p);
      AtAppend([mid], [right], p);
      assert [mid] + [right] == [mid, right];
      AtAppend(left, [mid, right], p);
      AtAppend(left, [mid], p);
    }
  }

  lemma AtEmpty(p: int)
    ensures At([], p) == None
  {
  }

  lemma VisitShape(op: Op, c: Range, s: int, e: int)
    requires c.start < c.end && s < e
    ensures Tidy(op, c, s, e, VisitNode(op, c, s, e))
  {
    hide HitFlags, MissFlags, Hit;
    if s >= c.start {
      HitShape(op, c, s, e);
    } else if MayInsert(op) && c.start < e {
      HitShape(op, c, c.start, e);
      var v := Hit(op, c, c.start, e);
      SortedAppend([Range(s, c.start, MissFlags(op))], v.out, c.start);
      assert VisitNode(op, c, s, e).out == [Range(s, c.start, MissFlags(op))] + v.out;
    }
  }

  /** One visit changes exactly the pages it moves past. */
  lemma VisitPages(op: Op, c: Range, s: int, e: int, p: int)
    requires c.start < c.end && s < e && !VisitNode(op, c, s, e).refused
    ensures Changes(op, c, s, VisitNode(op, c, s, e), p)
  {
    hide HitFlags, MissFlags, Hit, At;
    AtOne(c, p);
    if s >= c.start {
      HitPages(op, c, s, e, p);
    } else {
      var inserted := Range(s, if e <= c.start then e else c.start, MissFlags(op));
      AtOne(inserted, p);
      if e <= c.start {
        assert [inserted] + [c] == [inserted, c];
        AtAppend([inserted], [c], p);
      } else {
        HitPages(op, c, c.start, e, p);
        HitShape(op, c, c.start, e);
        AtAppend([inserted], Hit(op, c, c.start, e).out, p);
      }
    }
  }

  /** A visit is refused exactly when the request has a page in or before the node that it must not meet. */
  lemma VisitRefusal(op: Op, c: Range, s: int, e: int)
    requires c.start < c.end && s < e
    ensures VisitNode(op, c, s, e).refused <==> Meets(op, [c], s, if e < c.end then e else c.end)
  {
    hide HitFlags, MissFlags, At;
    var v := VisitNode(op, c, s, e);
    forall p
      ensures At([c], p) == if c.start <= p < c.end then Some(c.flags) else None
    {
      AtOne(c, p);
    }
    if v.refused {
      var p := if s < c.start && MayInsert(op) then c.start else s;
      assert Forbidden(op, At([c], p));
    }
  }

  lemma {:induction false} WalkSorted(op: Op, list: seq<Range>, s: int, e: int, bound: int)
    requires Sorted(list) && s < e && Above(list, bound) && bound <= s
    ensures Sorted(Update(op, list, s, e).list) && Above(Update(op, list, s, e).list, bound)
  {
    if list != [] {
      hide VisitNode;
      var v := VisitNode(op, list[0], s, e);
      SortedTail(list);
      VisitShape(op, list[0], s, e);
      if v.stop {
        SortedAppend(v.out, list[1..], list[0].end);
      } else {
        WalkSorted(op, list[1..], v.next, e, list[0].end);
        SortedAppend(v.out, Update(op, list[1..], v.next, e).list, list[0].end);
      }
    }
  }

  lemma {:induction false} WalkRefusal(op: Op, list: seq<Range>, s: int, e: int)
    requires Sorted(list) && s < e && !CacheReadStart(op)
    ensures Update(op, list, s, e).refused <==> Meets(op, list, s, e)
  {
    hide HitFlags, MissFlags;
    if list == [] {
      assert MayInsert(op) <==> !Forbidden(op, At(list, s));
    } else {
      hide VisitNode, At;
      var (c, rest) := (list[0], list[1..]);
      var v := VisitNode(op, c, s, e);
      SortedTail(list);
      VisitShape(op, c, s, e);
      VisitRefusal(op, c, s, e);
      forall p
        ensures p < c.end ==> At(list, p) == At([c], p)
        ensures c.end <= p ==> At(list, p) == At(rest, p)
      {
        AtOne(c, p);
        AtAppend([c], rest, p);
        assert [c] + rest == list;
        if p < c.end {
          AtAbove(rest, c.end, p);
        }
      }
      if !v.stop {
        WalkRefusal(op, rest, v.next, e);
      }
      StopsAtEnd(op, c, s, e);
    }
  }

  /** A walk that stops has nothing left of the request beyond the node. */
  lemma StopsAtEnd(op: Op, c: Range, s: int, e: int)
    requires c.start < c.end && s < e && !CacheReadStart(op)
    ensures var v := VisitNode(op, c, s, e); v.stop && !v.refused ==> e <= c.end
    ensures var v := VisitNode(op, c, s, e); !v.stop ==> v.next == if s < c.end then c.end else s
  {
    hide HitFlags, MissFlags;
  }

  lemma {:induction false} WalkPages(op: Op, list: seq<Range>, s: int, e: int, p: int)
    requires Sorted(list) && s < e && !CacheReadStart(op) && !Update(op, list, s, e).refused
    ensures At(Update(op, list, s, e).list, p)
         == if s <= p < e then Some(PageAfter(op, At(list, p))) else At(list, p)
  {
    hide PageAfter, HitFlags, MissFlags;
    if list == [] {
      AtOne(Range(s, e, MissFlags(op)), p);
      PageAfterMiss(op);
    } else {
      hide VisitNode, At;
      var (c, rest) := (list[0], list[1..]);
      var v := VisitNode(op, c, s, e);
      SortedTail(list);
      VisitShape(op, c, s, e);
      VisitPages(op, c, s, e, p);
      StopsAtEnd(op, c, s, e);
      AtOne(c, p);
      AtAppend([c], rest, p);
      assert [c] + rest == list;
      if p < c.end {
        AtAbove(rest, c.end, p);
      }
      if c.end <= p {
        AtBelow(v.out, c.end, p);
      }
      if v.stop {
        AtAppend(v.out, rest, p);
      } else {
        WalkPages(op, rest, v.next, e, p);
        AtAppend(v.out, Update(op, rest, v.next, e).list, p);
      }
    }
  }

  lemma PageAfterMiss(op: Op)
    ensures PageAfter(op, None) == MissFlags(op)
  {
  }

  /** The whole walk changes the requested pages one by one, leaves all other pages alone and keeps the list
      sorted; it is refused exactly when some requested page is one the operation must not meet. */
  lemma WalkIsPointwise(op: Op, list: seq<Range>, s: int, e: int)
    requires Sorted(list) && s < e && !CacheReadStart(op)
    ensures Update(op, list, s, e).refused <==> Meets(op, list, s, e)
    ensures !Update(op, list, s, e).refused ==> Pointwise(op, list, Update(op, list, s, e).list, s, e)
    ensures Sorted(Update(op, list, s, e).list)
  {
    WalkRefusal(op, list, s, e);
    WalkSorted(op, list, s, e, if list == [] || s < list[0].start then s else list[0].start);
    if !Update(op, list, s, e).refused {
      forall p {
        WalkPages(op, list, s, e, p);
      }
    }
  }

  // ---------------------------------------------------------------- where the walk may start

  lemma SkipNode(op: Op, c: Range, s: int, e: int)
    requires c.start < c.end <= s < e
    ensures VisitNode(op, c, s, e) == Visit([c], s, CacheReadStart(op), false, 0, 0)
  {
  }

  /** Nodes before one that starts below the request are skipped unchanged, so the walk may as well start
      there: this is why the last position may be remembered. */
  lemma {:induction false} WalkFromLast(op: Op, list: seq<Range>, k: nat, s: int, e: int)
    requires Sorted(list) && s < e && !CacheReadStart(op) && k < |list| && list[k].start < s
    ensures Sorted(list[k..])
    ensures Update(op, list, s, e) == Update(op, list[k..], s, e).(list := list[..k] + Update(op, list[k..], s, e).list)
  {
    hide VisitNode;
    if k == 0 {
      assert list[0..] == list;
    } else {
      SkipNode(op, list[0], s, e);
      WalkFromLast(op, list[1..], k - 1, s, e);
      assert list[1..][k - 1..] == list[k..];
      assert list[..k] == [list[0]] + list[1..][..k - 1];
    }
  }

  /** Flags a cache read leaves as they are. */
  predicate Settled(f: Flags) {
    f.count == 1 && !f.writeback && !f.locked && f.referenced && !f.lru
  }

  /** Beyond the first node the request meets only pages that a cache read would not change anyway. */
  ghost predicate RestSettled(list: seq<Range>, s: int, e: int)
    requires list != []
  {
    forall p :: s <= p < e && list[0].end <= p ==> At(list, p).Some? && Settled(At(list, p).value)
  }

  lemma SettledIsUnchanged(op: Op, f: Flags)
    requires CacheReadStart(op)
    ensures HitFlags(op, f) == f <==> Settled(f)
  {
  }

  /** Before a cache read the walk looks at one node only.  So it has the pointwise effect exactly when that
      node reaches back to the start of the request and the rest of the request needs no change. */
  lemma CacheReadExact(op: Op, list: seq<Range>, s: int, e: int)
    requires Sorted(list) && s < e && CacheReadStart(op)
    ensures var u := Update(op, list, s, e);
            (!u.refused && Pointwise(op, list, u.list, s, e))
            <==> (list != [] && list[0].start <= s && RestSettled(list, s, e))
  {
    hide HitFlags;
    var u := Update(op, list, s, e);
    if list != [] && list[0].start <= s {
      var (c, rest) := (list[0], list[1..]);
      var v := VisitNode(op, c, s, e);
      SortedTail(list);
      VisitShape(op, c, s, e);
      assert v.stop && !v.refused && u.list == v.out + rest;
      assert v.next == if s >= c.end then s else if e < c.end then e else c.end;
      forall p
        ensures At(u.list, p) == if s <= p < e && p < c.end then Some(PageAfter(op, At(list, p))) else At(list, p)
        ensures s <= p && At(list, p).None? ==> c.end <= p
      {
        VisitPages(op, c, s, e, p);
        AtOne(c, p);
        AtAppend([c], rest, p);
        AtAppend(v.out, rest, p);
        assert [c] + rest == list;
        if p < c.end {
          AtAbove(rest, c.end, p);
        } else {
          AtBelow(v.out, c.end, p);
        }
      }
      forall p | s <= p < e && c.end <= p
        ensures At(u.list, p) == Some(PageAfter(op, At(list, p))) <==> At(list, p).Some? && Settled(At(list, p).value)
      {
        if At(list, p).Some? {
          SettledIsUnchanged(op, At(list, p).value);
        }
      }
    }
  }

  // ---------------------------------------------------------------- counting pages

  /** How many pages from `s` up to `e` are not cached. */
  function Absent(list: seq<Range>, s: int, e: int): (n: nat)
    ensures s <= e ==> n <= e - s
    decreases e - s
  {
    if s >= e then 0 else Absent(list, s, e - 1) + if At(list, e - 1).None? then 1 else 0
  }

  function Total(list: seq<Range>): int {
    if list == [] then 0 else list[0].end - list[0].start + Total(list[1..])
  }

  lemma {:induction false} TotalAppend(x: seq<Range>, y: seq<Range>)
    ensures Total(x + y) == Total(x) + Total(y)
  {
    if x == [] {
      assert x + y == y;
    } else {
      TotalAppend(x[1..], y);
      assert (x + y)[1..] == x[1..] + y;
    }
  }

  lemma {:induction false} AbsentSplit(list: seq<Range>, s: int, m: int, e: int)
    requires s <= m <= e
    ensures Absent(list, s, e) == Absent(list, s, m) + Absent(list, m, e)
    decreases e - m
  {
    if m < e {
      AbsentSplit(list, s, m, e - 1);
    }
  }

  lemma {:induction false} AbsentAll(list: seq<Range>, s: int, e: int)
    requires s <= e && forall p :: s <= p < e ==> At(list, p).None?
    ensures Absent(list, s, e) == e - s
    decreases e - s
  {
    if s < e {
      AbsentAll(list, s, e - 1);
    }
  }

  lemma {:induction false} AbsentNone(list: seq<Range>, s: int, e: int)
    requires s <= e && forall p :: s <= p < e ==> At(list, p).Some?
    ensures Absent(list, s, e) == 0
    decreases e - s
  {
    if s < e {
      AbsentNone(list, s, e - 1);
    }
  }

  lemma {:induction false} AbsentSame(x: seq<Range>, y: seq<Range>, s: int, e: int)
    requires s <= e && forall p :: s <= p < e ==> At(x, p) == At(y, p)
    ensures Absent(x, s, e) == Absent(y, s, e)
    decreases e - s
  {
    if s < e {
      AbsentSame(x, y, s, e - 1);
    }
  }

  lemma NoneAbsent(list: seq<Range>, s: int)
    ensures Absent(list, s, s) == 0
  {
  }

  lemma NothingCached(list: seq<Range>, s: int, e: int)
    requires list == [] && s <= e
    ensures Absent(list, s, e) == e - s
  {
    AbsentAll(list, s, e);
  }

  /** The first node decides which pages up to its end are cached, the others which pages from there. */
  lemma AbsentNode(list: seq<Range>, s: int, e: int)
    requires Sorted(list) && list != [] && s <= e
    ensures var c := list[0];
            && (e <= c.start ==> Absent(list, s, e) == e - s)
            && (c.start <= s && e <= c.end ==> Absent(list, s, e) == 0)
            && (c.end <= s ==> Absent(list, s, e) == Absent(list[1..], s, e))
  {
    var (c, rest) := (list[0], list[1..]);
    SortedTail(list);
    forall p
      ensures p < c.start ==> At(list, p).None?
      ensures c.start <= p < c.end ==> At(list, p).Some?
      ensures c.end <= p ==> At(list, p) == At(rest, p)
    {
      if p < c.end {
        AtAbove(rest, c.end, p);
      }
    }
    if e <= c.start {
      AbsentAll(list, s, e);
    }
    if c.start <= s && e <= c.end {
      AbsentNone(list, s, e);
    }
    if c.end <= s {
      AbsentSame(list, rest, s, e);
    }
  }

  lemma HitTotal(op: Op, c: Range, s: int, e: int)
    requires c.start < c.end && s < e && c.start <= s
    ensures Total(Hit(op, c, s, e).out) == c.end - c.start
  {
    hide HitFlags;
    if s < c.end && MayHit(op) {
      var left := if s == c.start then [] else [Range(c.start, s, c.flags)];
      var mid := Range(s, if e < c.end then e else c.end, HitFlags(op, c.flags));
      var right := Range(e, c.end, c.flags);
      assert [mid] + [right] == [mid, right];
      TotalAppend([mid], [right]);
      TotalAppend(left, [mid, right]);
      TotalAppend(left, [mid]);
    }
  }

  /** One visit accounts for the pages it moves past. */
  lemma VisitCounts(op: Op, list: seq<Range>, s: int, e: int)
    requires Sorted(list) && list != [] && s < e && !VisitNode(op, list[0], s, e).refused
    ensures var v := VisitNode(op, list[0], s, e);
            && v.inserted == Absent(list, s, v.next) && v.touched == v.next - s - v.inserted
            && Total(v.out) == list[0].end - list[0].start + v.inserted
  {
    hide HitFlags, MissFlags;
    var (c, v) := (list[0], VisitNode(op, list[0], s, e));
    VisitShape(op, c, s, e);
    if s < c.start {
      if c.start < e {
        HitTotal(op, c, c.start, e);
        AbsentSplit(list, s, c.start, v.next);
        AbsentNode(list, s, c.start);
        AbsentNode(list, c.start, v.next);
        TotalAppend([Range(s, c.start, MissFlags(op))], Hit(op, c, c.start, e).out);
      } else {
        AbsentNode(list, s, e);
        TotalAppend([Range(s, e, MissFlags(op))], [c]);
        assert [Range(s, e, MissFlags(op))] + [c] == v.out;
      }
    } else {
      HitTotal(op, c, s, e);
      AbsentNode(list, s, v.next);
    }
  }

  /** A walk that is not refused inserts exactly the requested pages that were absent, changes exactly those
      that were cached, and the list grows by what it inserted. */
  lemma {:induction false} WalkCounts(op: Op, list: seq<Range>, s: int, e: int)
    requires Sorted(list) && s < e && !CacheReadStart(op) && !Update(op, list, s, e).refused
    ensures var u := Update(op, list, s, e);
            && u.inserted == Absent(list, s, e) && u.touched == e - s - u.inserted
            && Total(u.list) == Total(list) + u.inserted
  {
    hide HitFlags, MissFlags;
    if list == [] {
      AbsentAll(list, s, e);
    } else {
      hide VisitNode;
      var (c, rest) := (list[0], list[1..]);
      var v := VisitNode(op, c, s, e);
      SortedTail(list);
      VisitShape(op, c, s, e);
      VisitCounts(op, list, s, e);
      StopsAtEnd(op, c, s, e);
      if v.stop {
        TotalAppend(v.out, rest);
      } else {
        WalkCounts(op, rest, v.next, e);
        TotalAppend(v.out, Update(op, rest, v.next, e).list);
        AbsentSplit(list, s, v.next, e);
        AbsentNode(list, v.next, e);
      }
    }
  }

  lemma VisitTotal(op: Op, c: Range, s: int, e: int)
    requires c.start < c.end && s < e
    ensures var v := VisitNode(op, c, s, e); Total(v.out) == c.end - c.start + v.inserted
  {
    hide HitFlags, MissFlags, Hit;
    if s >= c.start {
      HitTotal(op, c, s, e);
      HitInsertsNothing(op, c, s, e);
    } else if MayInsert(op) && e <= c.start {
      TotalAppend([Range(s, e, MissFlags(op))], [c]);
      assert [Range(s, e, MissFlags(op))] + [c] == VisitNode(op, c, s, e).out;
    } else if MayInsert(op) {
      HitTotal(op, c, c.start, e);
      TotalAppend([Range(s, c.start, MissFlags(op))], Hit(op, c, c.start, e).out);
    }
  }

  lemma HitInsertsNothing(op: Op, c: Range, s: int, e: int)
    requires c.start < c.end && s < e && c.start <= s
    ensures Hit(op, c, s, e).inserted == 0
  {
  }

  /** Whatever becomes of a walk, the list grows by exactly the pages it inserted. */
  lemma {:induction false} WalkTotal(op: Op, list: seq<Range>, s: int, e: int)
    requires Sorted(list) && s < e
    ensures Total(Update(op, list, s, e).list) == Total(list) + Update(op, list, s, e).inserted
  {
    hide HitFlags, MissFlags;
    if list != [] {
      hide VisitNode;
      var v := VisitNode(op, list[0], s, e);
      SortedTail(list);
      VisitShape(op, list[0], s, e);
      VisitTotal(op, list[0], s, e);
      if v.stop {
        TotalAppend(v.out, list[1..]);
      } else {
        WalkTotal(op, list[1..], v.next, e);
        TotalAppend(v.out, Update(op, list[1..], v.next, e).list);
      }
    }
  }

  lemma UpdateFromTotal(op: Op, list: seq<Range>, k: nat, s: int, e: int)
    requires Sorted(list) && k <= |list| && s < e
    ensures Total(UpdateFrom(op, list, k, s, e).list) == Total(list) + UpdateFrom(op, list, k, s, e).inserted
  {
    hide Update, Total;
    SortedSuffix(list, k);
    WalkTotal(op, list[k..], s, e);
    TotalAppend(list[..k], list[k..]);
    TotalAppend(list[..k], Update(op, list[k..], s, e).list);
    assert list[..k] + list[k..] == list;
  }

  // ---------------------------------------------------------------- one visit within the whole walk

  /** The request has moved past everything before position `k`. */
  ghost predicate Reached(list: seq<Range>, k: nat, s: int) {
    k <= |list| && (k > 0 ==> list[k - 1].end <= s)
  }

  function Splice(list: seq<Range>, k: nat, out: seq<Range>): (after: seq<Range>)
    requires k < |list|
    ensures |after| == |list| + |out| - 1
  {
    list[..k] + out + list[k + 1..]
  }

  lemma SpliceParts(list: seq<Range>, k: nat, out: seq<Range>)
    requires k < |list|
    ensures Splice(list, k, out)[..k + |out|] == list[..k] + out
    ensures Splice(list, k, out) == list[..k] + (out + list[k + 1..])
  {
  }

  lemma Reassociate(x: seq<Range>, y: seq<Range>, z: seq<Range>)
    ensures x + (y + z) == (x + y) + z
  {
  }

  lemma SpliceSelf(list: seq<Range>, k: nat)
    requires k < |list|
    ensures list == Splice(list, k, [list[k]])
  {
  }

  /** Replacing the visited node by what the visit leaves keeps the list sorted. */
  lemma VisitKeepsSorted(op: Op, list: seq<Range>, k: nat, s: int, e: int)
    requires Sorted(list) && k < |list| && s < e && Reached(list, k, s)
    ensures Sorted(Splice(list, k, VisitNode(op, list[k], s, e).out))
  {
    hide VisitNode;
    var v := VisitNode(op, list[k], s, e);
    VisitShape(op, list[k], s, e);
    var low := if s < list[k].start then s else list[k].start;
    assert Below(list[..k], low);
    SortedAppend(list[..k], v.out, low);
    SortedAppend(list[..k] + v.out, list[k + 1..], list[k].end);
  }

  /** The walk from position `k` is this visit and then the walk from the next position. */
  lemma VisitThenWalk(op: Op, list: seq<Range>, k: nat, s: int, e: int)
    requires Sorted(list) && k < |list| && s < e && Reached(list, k, s)
    ensures var v := VisitNode(op, list[k], s, e);
            var next := k + |v.out|;
            && Sorted(list[k..]) && v.out != []
            && (v.stop ==> Update(op, list[k..], s, e)
                             == Outcome(v.out + list[k + 1..], v.refused, v.inserted, v.touched))
            && (!v.stop ==>
                  && v.next < e && Reached(Splice(list, k, v.out), next, v.next)
                  && Sorted(Splice(list, k, v.out)[next..])
                  && var rest := Update(op, Splice(list, k, v.out)[next..], v.next, e);
                     Update(op, list[k..], s, e)
                       == Outcome(v.out + rest.list, rest.refused, v.inserted + rest.inserted, v.touched + rest.touched))
  {
    hide VisitNode, Sorted;
    SortedSuffix(list, k);
    var v := VisitNode(op, list[k], s, e);
    VisitShape(op, list[k], s, e);
    assert list[k..][0] == list[k] && list[k..][1..] == list[k + 1..];
    if !v.stop {
      SortedSuffix(list, k + 1);
      assert Splice(list, k, v.out)[k + |v.out|..] == list[k + 1..];
      assert Splice(list, k, v.out)[k + |v.out| - 1] == v.out[|v.out| - 1];
    }
  }

  lemma SortedSuffix(list: seq<Range>, k: nat)
    requires Sorted(list) && k <= |list|
    ensures Sorted(list[k..])
  {
  }

  /** The walk from position `k` on, as an outcome for the whole list. */
  function UpdateFrom(op: Op, list: seq<Range>, k: nat, s: int, e: int): Outcome
    requires Sorted(list) && k <= |list| && s < e
  {
    SortedSuffix(list, k);
    var u := Update(op, list[k..], s, e);
    u.(list := list[..k] + u.list)
  }

  function Plus(u: Outcome, inserted: nat, touched: int): Outcome {
    u.(inserted := u.inserted + inserted, touched := u.touched + touched)
  }

  lemma UpdateFromVisit(op: Op, list: seq<Range>, k: nat, s: int, e: int)
    requires Sorted(list) && k < |list| && s < e && Reached(list, k, s)
    ensures var v := VisitNode(op, list[k], s, e);
            var after := Splice(list, k, v.out);
            && Sorted(after) && v.out != [] && |after| == |list| + |v.out| - 1
            && (v.stop ==> UpdateFrom(op, list, k, s, e) == Outcome(after, v.refused, v.inserted, v.touched))
            && (!v.stop ==>
                  && v.next < e && Reached(after, k + |v.out|, v.next)
                  && UpdateFrom(op, list, k, s, e)
                       == Plus(UpdateFrom(op, after, k + |v.out|, v.next, e), v.inserted, v.touched))
  {
    assert list[k].start < list[k].end;
    hide VisitNode, Update, Sorted, Splice;
    var v := VisitNode(op, list[k], s, e);
    var after := Splice(list, k, v.out);
    VisitKeepsSorted(op, list, k, s, e);
    VisitThenWalk(op, list, k, s, e);
    SpliceParts(list, k, v.out);
    if !v.stop {
      SortedSuffix(after, k + |v.out|);
      Reassociate(list[..k], v.out, Update(op, after[k + |v.out|..], v.next, e).list);
    }
  }

  lemma UpdateFromEnd(op: Op, list: seq<Range>, s: int, e: int)
    requires Sorted(list) && s < e && Reached(list, |list|, s)
    ensures UpdateFrom(op, list, |list|, s, e)
         == if MayInsert(op) then Outcome(list + [Range(s, e, MissFlags(op))], false, e - s, 0) else Outcome(list, true, 0, 0)
    ensures Sorted(list + [Range(s, e, MissFlags(op))])
  {
    assert list[|list|..] == [];
    hide MissFlags;
    SortedAppend(list, [Range(s, e, MissFlags(op))], s);
  }

  /** The walk may start at the head or at any node below the request; either way a walk that is not refused has
      the pointwise effect, inserts exactly the pages that were absent and changes exactly those that were cached. */
  lemma UpdateFromIsPointwise(op: Op, list: seq<Range>, k: nat, s: int, e: int)
    requires Sorted(list) && s < e && !CacheReadStart(op) && (k == 0 || (k < |list| && list[k].start < s))
    ensures var u := UpdateFrom(op, list, k, s, e);
            && u == Update(op, list, s, e)
            && (u.refused <==> Meets(op, list, s, e))
            && (!u.refused ==>
                  && Pointwise(op, list, u.list, s, e)
                  && u.inserted == Absent(list, s, e) && u.touched == e - s - u.inserted)
  {
    hide Update, Meets, Pointwise, Absent, Total, At;
    SortedSuffix(list, k);
    if k == 0 {
      assert list[0..] == list && list[..0] == [];
    } else {
      WalkFromLast(op, list, k, s, e);
    }
    WalkIsPointwise(op, list, s, e);
    if !Update(op, list, s, e).refused {
      WalkCounts(op, list, s, e);
    }
  }
}
