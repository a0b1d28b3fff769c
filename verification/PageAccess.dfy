/** What the cache does next for a read request: wait, read from disk or read from the cache. */
module PageAccess {
  import opened Basics
  import opened Options
  import opened PageRanges

  datatype Access = Wait | FromDisk(start: int, end: int) | FromCache(start: int, end: int)

  const DISK_READ := Op(true, true, true)
  const CACHE_READ := Op(true, false, true)
  const CACHE_WRITE := Op(true, false, false)

  /** The next access for the pages from `s` up to `e`, reading at most `batch` pages from disk at a time. */
  function NextAccess(list: seq<Range>, s: int, e: int, batch: int): Access {
    if list == [] || e <= list[0].start then FromDisk(s, Min(e, s + batch))
    else if list[0].end <= s then NextAccess(list[1..], s, e, batch)
    else if list[0].flags.locked then Wait
    else if s < list[0].start then FromDisk(s, Min(Min(e, list[0].start), s + batch))
    else FromCache(s, Min(list[0].end, e))
  }

  /** Where the cache read ends: in the range, which holds all of it and is not locked. */
  ghost predicate WithinOneRange(list: seq<Range>, i: int, s: int, e: int, b: int) {
    0 <= i < |list| && list[i].start <= s && b == Min(e, list[i].end) && s < b && !list[i].flags.locked
  }

  lemma FirstNode(list: seq<Range>, p: int)
    requires Sorted(list) && list != []
    ensures At(list, p) == if p < list[0].start then None
                           else if p < list[0].end then Some(list[0].flags) else At(list[1..], p)
  {
    SortedTail(list);
    if p < list[0].start {
      AtAbove(list[1..], list[0].end, p);
    }
  }

  /** A disk read covers only absent pages and stops at the batch, at the end of the request or in front of a
      cached page. */
  lemma {:induction false} DiskReadIsSafe(list: seq<Range>, s: int, e: int, batch: int)
    requires Sorted(list) && s < e && batch > 0 && NextAccess(list, s, e, batch).FromDisk?
    ensures var FromDisk(a, b) := NextAccess(list, s, e, batch);
            && a == s && s < b <= e && b - s <= batch
            && (forall p :: s <= p < b ==> At(list, p) == None)
            && (b == e || b - s == batch || At(list, b).Some?)
  {
    if list != [] {
      hide At;
      var b := NextAccess(list, s, e, batch).end;
      SortedTail(list);
      forall p
        ensures At(list, p) == if p < list[0].start then None
                               else if p < list[0].end then Some(list[0].flags) else At(list[1..], p)
      {
        FirstNode(list, p);
      }
      if list[0].start < e && list[0].end <= s {
        DiskReadIsSafe(list[1..], s, e, batch);
      }
    }
  }

  /** A cache read stays in one unlocked range and ends with it or with the request. */
  lemma {:induction false} CacheReadIsSafe(list: seq<Range>, s: int, e: int, batch: int) returns (i: nat)
    requires Sorted(list) && s < e && NextAccess(list, s, e, batch).FromCache?
    ensures var FromCache(a, b) := NextAccess(list, s, e, batch);
            a == s && WithinOneRange(list, i, s, e, b)
  {
    i := 0;
    if list[0].end <= s {
      SortedTail(list);
      i := CacheReadIsSafe(list[1..], s, e, batch);
      i := i + 1;
    }
  }

  /** Page `p` is the first cached page of the request, and it is locked. */
  ghost predicate LockedFirst(list: seq<Range>, s: int, e: int, p: int) {
    s <= p < e && At(list, p).Some? && At(list, p).value.locked && forall q :: s <= q < p ==> At(list, q) == None
  }

  /** The request waits exactly when the first cached page it meets is locked. */
  lemma {:induction false} WaitsForLockedPage(list: seq<Range>, s: int, e: int, batch: int)
    requires Sorted(list) && s < e
    ensures NextAccess(list, s, e, batch).Wait? <==>
            exists p :: LockedFirst(list, s, e, p)
  {
    if list != [] {
      hide At;
      SortedTail(list);
      forall p
        ensures At(list, p) == if p < list[0].start then None
                               else if p < list[0].end then Some(list[0].flags) else At(list[1..], p)
      {
        FirstNode(list, p);
      }
      if list[0].start < e && list[0].end <= s {
        WaitsForLockedPage(list[1..], s, e, batch);
        assert forall p :: LockedFirst(list, s, e, p) <==> LockedFirst(list[1..], s, e, p);
      } else if list[0].start < e {
        var p := if s < list[0].start then list[0].start else s;
        assert At(list, p) == Some(list[0].flags);
        assert list[0].flags.locked <==> LockedFirst(list, s, e, p);
      }
    }
  }

  /** The walk that prepares a disk read chosen this way is not refused, wherever it may start. */
  lemma DiskReadIsNotRefused(list: seq<Range>, k: nat, s: int, e: int, batch: int)
    requires Sorted(list) && s < e && batch > 0 && (k == 0 || (k < |list| && list[k].start < s))
    requires NextAccess(list, s, e, batch).FromDisk?
    ensures var FromDisk(a, b) := NextAccess(list, s, e, batch);
            a < b && var u := UpdateFrom(DISK_READ, list, k, a, b);
                     !u.refused && u.inserted == b - a <= Absent(list, s, e) && Pointwise(DISK_READ, list, u.list, a, b)
  {
    hide NextAccess, UpdateFrom, At, Pointwise, Absent;
    DiskReadIsSafe(list, s, e, batch);
    var FromDisk(a, b) := NextAccess(list, s, e, batch);
    UpdateFromIsPointwise(DISK_READ, list, k, a, b);
    AbsentAll(list, a, b);
    AbsentSplit(list, s, b, e);
  }

  /** Nor is the walk that prepares a cache read. */
  lemma CacheReadIsNotRefused(list: seq<Range>, k: nat, s: int, e: int, batch: int)
    requires Sorted(list) && s < e && (k == 0 || (k < |list| && list[k].start < s))
    requires NextAccess(list, s, e, batch).FromCache?
    ensures var FromCache(a, b) := NextAccess(list, s, e, batch);
            a < b && var u := UpdateFrom(CACHE_READ, list, k, a, b); !u.refused && u.inserted == 0
  {
    hide NextAccess, HitFlags;
    var i := CacheReadIsSafe(list, s, e, batch);
    var FromCache(a, b) := NextAccess(list, s, e, batch);
    assert list[k..][0] == list[k] && list[k].start <= s;
    SortedSuffix(list, k);
  }

  /** Whatever a read decides on, the walk that prepares it is not refused. */
  lemma ReadIsNotRefused(list: seq<Range>, k: nat, s: int, e: int, batch: int)
    requires Sorted(list) && s < e && batch > 0 && (k == 0 || (k < |list| && list[k].start < s))
    requires NextAccess(list, s, e, batch) != Wait
    ensures var choice := NextAccess(list, s, e, batch);
            && choice.start == s < choice.end
            && var u := UpdateFrom(if choice.FromDisk? then DISK_READ else CACHE_READ, list, k, s, choice.end);
               && !u.refused
               && u.inserted == (if choice.FromDisk? then choice.end - s else 0) <= Absent(list, s, e)
               && (choice.FromDisk? ==> Pointwise(DISK_READ, list, u.list, s, choice.end))
  {
    hide NextAccess, UpdateFrom, Pointwise, Absent;
    if NextAccess(list, s, e, batch).FromDisk? {
      DiskReadIsSafe(list, s, e, batch);
      DiskReadIsNotRefused(list, k, s, e, batch);
    } else {
      var i := CacheReadIsSafe(list, s, e, batch);
      CacheReadIsNotRefused(list, k, s, e, batch);
    }
  }

  /** A write to the cache is never refused. */
  lemma CacheWriteIsNotRefused(list: seq<Range>, k: nat, s: int, e: int)
    requires Sorted(list) && s < e && (k == 0 || (k < |list| && list[k].start < s))
    ensures var u := UpdateFrom(CACHE_WRITE, list, k, s, e);
            !u.refused && u.inserted == Absent(list, s, e) && Pointwise(CACHE_WRITE, list, u.list, s, e)
  {
    hide UpdateFrom, At, Pointwise, Absent;
    UpdateFromIsPointwise(CACHE_WRITE, list, k, s, e);
  }
}
