/** The flags a page goes through from the start of an operation to its completion, flag by flag, and what they mean
    for reading, writing back and reclaiming it. */
module PageLife {
  import opened Options
  import opened PageRanges
  import opened PageAccess
  import opened PageReclaim
  import opened DirtyPages

  const DISK_HAS_READ := Op(false, true, true)
  const CACHE_HAS_READ := Op(false, false, true)
  const WRITTEN_BACK := Op(false, true, false)

  // ---------------------------------------------------------------- one walk, flag by flag

  /** The operation goes wrong at this page: it is absent and the operation must not enlarge the cache, or it is to be
      read from disk although it is cached. */
  ghost predicate WrongAt(op: Op, page: Option<Flags>) {
    match page
    case None => !op.preop || op.disk != op.read
    case Some(_) => op.preop && op.disk && op.read
  }

  lemma WrongIsForbidden(op: Op)
    ensures forall page :: Forbidden(op, page) <==> WrongAt(op, page)
  {
  }

  lemma MeetsWrong(op: Op, list: seq<Range>, s: int, e: int)
    ensures Meets(op, list, s, e) <==> exists p :: s <= p < e && WrongAt(op, At(list, p))
  {
    hide At;
    WrongIsForbidden(op);
    if Meets(op, list, s, e) {
      var p :| s <= p < e && Forbidden(op, At(list, p));
      assert WrongAt(op, At(list, p));
    }
    if exists p :: s <= p < e && WrongAt(op, At(list, p)) {
      var p :| s <= p < e && WrongAt(op, At(list, p));
      assert Forbidden(op, At(list, p));
    }
  }

  /** A walk goes wrong exactly if it meets such a page.  Else each page asked for is left as the operation demands, and
      no other page is touched. */
  lemma WalkLeaves(op: Op, list: seq<Range>, s: int, e: int)
    requires Sorted(list) && s < e && !CacheReadStart(op)
    ensures var u := Update(op, list, s, e);
            && Sorted(u.list)
            && (u.refused <==> exists p :: s <= p < e && WrongAt(op, At(list, p)))
            && (!u.refused ==>
                  && (forall p :: p < s || e <= p ==> At(u.list, p) == At(list, p))
                  && (forall p :: s <= p < e ==> At(u.list, p).Some?)
                  && (forall p :: s <= p < e && At(list, p).Some? ==>
                        ChangedBy(op, At(list, p).value, At(u.list, p).value))
                  && (forall p :: s <= p < e && At(list, p).None? ==> BroughtBy(op, At(u.list, p).value)))
  {
    hide Update, HitFlags, MissFlags, At, Meets;
    WalkIsPointwise(op, list, s, e);
    MeetsWrong(op, list, s, e);
    FlagsLeft(op, MissFlags(op));
    forall was
      ensures ChangedBy(op, was, HitFlags(op, was)) && BroughtBy(op, MissFlags(op))
    {
      FlagsLeft(op, was);
    }
  }

  /** Before a cache read the pages of the record that the walk starts at are held, as far as it reaches; they stay
      dirty if they were, and lose their other marks. */
  lemma CacheReadHolds(list: seq<Range>, k: nat, s: int, e: int, p: int)
    requires Sorted(list) && k < |list| && list[k].start <= s < e
    ensures var (u, was) := (UpdateFrom(CACHE_READ, list, k, s, e), list[k].flags);
            && !u.refused && Sorted(u.list)
            && At(u.list, p) == if s <= p < e && p < list[k].end then
                                  Some(Flags(1, was.dirty, false, false, true, was.modified, false))
                                else At(list, p)
  {
    hide HitFlags, At, VisitNode, UpdateFrom;
    var (c, before, after) := (list[k], list[..k], list[k + 1..]);
    StopsAtRecord(c, s, e);
    UpdateFromVisit(CACHE_READ, list, k, s, e);
    var v := VisitNode(CACHE_READ, c, s, e);
    VisitPages(CACHE_READ, c, s, e, p);
    VisitShape(CACHE_READ, c, s, e);
    assert Splice(list, k, v.out) == before + (v.out + after);
    assert list == before + ([c] + after);
    AtAppend(before, v.out + after, p);
    AtAppend(before, [c] + after, p);
    AtAppend(v.out, after, p);
    AtAppend([c], after, p);
    AtOne(c, p);
    FlagsLeft(CACHE_READ, c.flags);
    if c.start <= p {
      AtBelow(before, c.start, p);
    }
  }

  lemma StopsAtRecord(c: Range, s: int, e: int)
    requires c.start < c.end && c.start <= s < e
    ensures var v := VisitNode(CACHE_READ, c, s, e);
            v.stop && !v.refused && v.next == if c.end <= s then s else if e < c.end then e else c.end
  {
    hide HitFlags;
  }

  // ---------------------------------------------------------------- from the start to the completion

  /** All pages from `s` up to `e` are cached. */
  ghost predicate Cached(list: seq<Range>, s: int, e: int) {
    forall p :: s <= p < e ==> At(list, p).Some?
  }

  /** Nothing changed outside. */
  ghost predicate SameOutside(before: seq<Range>, after: seq<Range>, s: int, e: int) {
    forall p :: p < s || e <= p ==> At(after, p) == At(before, p)
  }

  /** A request that starts at an unlocked cached page reads from the cache. */
  lemma {:induction false} ReadsFromCache(list: seq<Range>, s: int, e: int, batch: int)
    requires Sorted(list) && s < e && At(list, s).Some? && !At(list, s).value.locked
    ensures NextAccess(list, s, e, batch).FromCache? && NextAccess(list, s, e, batch).start == s
  {
    hide At;
    AtEmpty(s);
    FirstNode(list, s);
    SortedTail(list);
    if list[0].end <= s {
      ReadsFromCache(list[1..], s, e, batch);
    } else if s < list[0].start {
      assert false;
    }
  }

  /** Writing to the cache and its completion are never refused.  In between the pages are locked and held; afterwards
      they may be read from the cache and are ready to be written back. */
  lemma CacheWriteLife(list: seq<Range>, s: int, e: int)
    requires Sorted(list) && s < e
    ensures var u := Update(CACHE_WRITE, list, s, e);
            && !u.refused && Sorted(u.list)
            && (forall p :: s <= p < e ==>
                  At(u.list, p).Some? && var f := At(u.list, p).value; f.dirty && f.locked && f.count == 1)
            && var v := Update(CACHE_WRITTEN, u.list, s, e);
               && !v.refused && Sorted(v.list) && SameOutside(list, v.list, s, e)
               && (forall p :: s <= p < e ==>
                     && At(v.list, p).Some?
                     && var f := At(v.list, p).value; f.dirty && !f.writeback && !f.locked && f.count == 0)
               && forall a, b, batch :: s <= a < e && a < b ==> NextAccess(v.list, a, b, batch).FromCache?
  {
    hide Update, At, NextAccess;
    WalkLeaves(CACHE_WRITE, list, s, e);
    var u := Update(CACHE_WRITE, list, s, e);
    WalkLeaves(CACHE_WRITTEN, u.list, s, e);
    var v := Update(CACHE_WRITTEN, u.list, s, e);
    forall a, b, batch | s <= a < e && a < b
      ensures NextAccess(v.list, a, b, batch).FromCache?
    {
      ReadsFromCache(v.list, a, b, batch);
    }
  }

  /** Writing cached pages back and its completion are not refused.  In between the pages are locked, held and marked;
      afterwards they are clean and nobody holds them, so that they may be read and reclaimed. */
  lemma WriteBackLife(list: seq<Range>, s: int, e: int)
    requires Sorted(list) && s < e && Cached(list, s, e)
    ensures var u := Update(WRITE_BACK, list, s, e);
            && !u.refused && Sorted(u.list)
            && (forall p :: s <= p < e ==>
                  && At(u.list, p).Some?
                  && var f := At(u.list, p).value; f.dirty && f.writeback && f.locked && f.count == 1)
            && var v := Update(WRITTEN_BACK, u.list, s, e);
               && !v.refused && Sorted(v.list) && SameOutside(list, v.list, s, e)
               && (forall p :: s <= p < e ==>
                     && At(v.list, p).Some?
                     && var f := At(v.list, p).value; !f.dirty && !f.writeback && !f.locked && f.count == 0)
               && forall a, b, batch :: s <= a < e && a < b ==> NextAccess(v.list, a, b, batch).FromCache?
  {
    hide Update, At, NextAccess;
    WalkLeaves(WRITE_BACK, list, s, e);
    var u := Update(WRITE_BACK, list, s, e);
    WalkLeaves(WRITTEN_BACK, u.list, s, e);
    var v := Update(WRITTEN_BACK, u.list, s, e);
    forall a, b, batch | s <= a < e && a < b
      ensures NextAccess(v.list, a, b, batch).FromCache?
    {
      ReadsFromCache(v.list, a, b, batch);
    }
  }

  /** Reading absent pages from disk and its completion are not refused.  In between the pages are locked and held, so
      that whoever wants them waits; afterwards they are clean and nobody holds them. */
  lemma DiskReadLife(list: seq<Range>, s: int, e: int)
    requires Sorted(list) && s < e && forall p :: s <= p < e ==> At(list, p).None?
    ensures var u := Update(DISK_READ, list, s, e);
            && !u.refused && Sorted(u.list)
            && (forall p :: s <= p < e ==>
                  At(u.list, p).Some? && var f := At(u.list, p).value; !f.dirty && f.locked && f.count == 1)
            && (forall a, b, batch :: s <= a < e && a < b ==> NextAccess(u.list, a, b, batch) == Wait)
            && var v := Update(DISK_HAS_READ, u.list, s, e);
               && !v.refused && Sorted(v.list) && SameOutside(list, v.list, s, e)
               && (forall p :: s <= p < e ==>
                     && At(v.list, p).Some?
                     && var f := At(v.list, p).value; !f.dirty && !f.writeback && !f.locked && f.count == 0)
               && forall a, b, batch :: s <= a < e && a < b ==> NextAccess(v.list, a, b, batch).FromCache?
  {
    hide Update, At, NextAccess;
    WalkLeaves(DISK_READ, list, s, e);
    var u := Update(DISK_READ, list, s, e);
    forall a, b, batch | s <= a < e && a < b
      ensures NextAccess(u.list, a, b, batch) == Wait
    {
      WaitsForLockedPage(u.list, a, b, batch);
      assert LockedFirst(u.list, a, b, a);
    }
    WalkLeaves(DISK_HAS_READ, u.list, s, e);
    var v := Update(DISK_HAS_READ, u.list, s, e);
    forall a, b, batch | s <= a < e && a < b
      ensures NextAccess(v.list, a, b, batch).FromCache?
    {
      ReadsFromCache(v.list, a, b, batch);
    }
  }

  /** Reading from a record of the cache: in between its pages are held, afterwards nobody holds them, and they are as
      dirty as before. */
  lemma CacheReadLife(list: seq<Range>, k: nat, s: int, e: int)
    requires Sorted(list) && k < |list| && list[k].start <= s < e <= list[k].end
    ensures var u := UpdateFrom(CACHE_READ, list, k, s, e);
            && !u.refused && Sorted(u.list)
            && (forall p :: s <= p < e ==> At(u.list, p).Some? && At(u.list, p).value.count == 1)
            && var v := Update(CACHE_HAS_READ, u.list, s, e);
               && !v.refused && Sorted(v.list) && SameOutside(list, v.list, s, e)
               && forall p :: s <= p < e ==>
                    && At(v.list, p).Some?
                    && var f := At(v.list, p).value;
                       f.count == 0 && !f.locked && !f.writeback && (f.dirty <==> list[k].flags.dirty)
  {
    hide Update, UpdateFrom, At;
    var (u, was) := (UpdateFrom(CACHE_READ, list, k, s, e), list[k].flags);
    CacheReadHolds(list, k, s, e, s);
    forall p
      ensures At(u.list, p) == if s <= p < e then Some(Flags(1, was.dirty, false, false, true, was.modified, false))
                               else At(list, p)
    {
      CacheReadHolds(list, k, s, e, p);
    }
    WalkLeaves(CACHE_HAS_READ, u.list, s, e);
  }

  // ---------------------------------------------------------------- runs

  /** What happens to the pages of a file: a walk from position `k`, or pages being reclaimed. */
  datatype Event = Walk(op: Op, k: nat, s: int, e: int) | Reclaimed

  ghost predicate OnlyFreeGo(before: seq<Range>, after: seq<Range>) {
    forall p :: DroppedIfCold(At(before, p), At(after, p))
  }

  ghost predicate Happens(x: Event, before: seq<Range>, after: seq<Range>) {
    && Sorted(before) && Sorted(after)
    && match x
       case Walk(op, k, s, e) =>
         && s < e && (k == 0 || (k < |before| && before[k].start < s))
         && !UpdateFrom(op, before, k, s, e).refused && after == UpdateFrom(op, before, k, s, e).list
       case Reclaimed => OnlyFreeGo(before, after)
  }

  ghost predicate IsHistory(lists: seq<seq<Range>>, events: seq<Event>) {
    && |lists| == |events| + 1
    && forall i :: 0 <= i < |events| ==> Happens(events[i], lists[i], lists[i + 1])
  }

  /** An operation on page `p` is completed. */
  predicate Completes(x: Event, p: int) {
    x.Walk? && !x.op.preop && x.s <= p < x.e
  }

  ghost predicate Held(list: seq<Range>, p: int) {
    At(list, p).Some? && At(list, p).value.count != 0
  }

  lemma WalkHolds(op: Op, list: seq<Range>, k: nat, s: int, e: int, p: int)
    requires Sorted(list) && s < e && (k == 0 || (k < |list| && list[k].start < s))
    requires !UpdateFrom(op, list, k, s, e).refused && Held(list, p) && (op.preop || p < s || e <= p)
    ensures Held(UpdateFrom(op, list, k, s, e).list, p)
  {
    hide Update, At, HitFlags, MissFlags;
    if !CacheReadStart(op) {
      UpdateFromIsPointwise(op, list, k, s, e);
      WalkLeaves(op, list, s, e);
    } else {
      AtEmpty(p);
      assert op == CACHE_READ && k < |list|;
      NotBefore(list, k, s, e);
      CacheReadHolds(list, k, s, e, p);
    }
  }

  /** A cache read is refused in front of the first record. */
  lemma NotBefore(list: seq<Range>, k: nat, s: int, e: int)
    requires Sorted(list) && k < |list| && s < e && !UpdateFrom(CACHE_READ, list, k, s, e).refused
    ensures list[k].start <= s
  {
    hide HitFlags, MissFlags;
    SortedSuffix(list, k);
    assert list[k..][0] == list[k];
  }

  /** A page that is held stays cached and held, whatever is read, written or reclaimed, until some operation on it is
      completed. */
  lemma {:induction false} HeldUntilCompleted(lists: seq<seq<Range>>, events: seq<Event>, i: nat, p: int)
    requires IsHistory(lists, events) && i < |lists| && Held(lists[0], p)
    requires forall j :: 0 <= j < i ==> !Completes(events[j], p)
    ensures Held(lists[i], p)
  {
    hide UpdateFrom, At;
    if i > 0 {
      HeldUntilCompleted(lists, events, i - 1, p);
      var (x, before) := (events[i - 1], lists[i - 1]);
      assert Happens(x, before, lists[i]) && !Completes(x, p);
      if x.Walk? {
        WalkHolds(x.op, before, x.k, x.s, x.e, p);
      } else {
        assert At(lists[i], p) == At(before, p);
      }
    }
  }

  /** The first completion releases the page for all: of two reads of the same page from the cache, the second may find
      it reclaimed. */
  lemma SecondReaderLosesPage()
    ensures var idle := [Range(0, 1, Flags(0, false, false, false, true, false, false))];
            var held := [Range(0, 1, Flags(1, false, false, false, true, false, false))];
            && Update(CACHE_READ, idle, 0, 1).list == held && Update(CACHE_READ, held, 0, 1).list == held
            && Update(CACHE_HAS_READ, held, 0, 1).list == idle
            && Held(held, 0) && Reclaim([Entry(7, held[0])], 1) == ([Entry(7, held[0])], 1)
            && !Held(idle, 0) && Reclaim([Entry(7, idle[0])], 1) == ([], 0)
  {
    var idle := [Range(0, 1, Flags(0, false, false, false, true, false, false))];
    var held := [Range(0, 1, Flags(1, false, false, false, true, false, false))];
    var (x, y) := (Entry(7, idle[0]), Entry(7, held[0]));
    assert [x][..0] == [] && [y][..0] == [];
    assert Reclaim([y][..0], 1) == ([], 1) && [] + [y] == [y];
    assert Reclaim([y], 1) == (Reclaim([y][..0], 1).0 + [y], Reclaim([y][..0], 1).1);
  }
}
