/** Facts about the page cache's lists: positions, splices, removals and merges, and the LRU list as values. */
module CacheLists {
  import opened Basics
  import opened Options
  import opened PageRanges
  import opened PageNodes
  import opened CacheWalk
  import opened PageReclaim
  import opened LruOrder

  /** `others` are the records of other files. */
  ghost predicate Apart(file: CachedFile, others: set<PageRange>) {
    forall n :: n in others ==> n.fileid != file.id
  }

  /** The last position, when set, is on the list. */
  ghost predicate LastOk(file: CachedFile)
    reads file`prLast, file`nodes
  {
    file.prLast != null ==> file.prLast in file.nodes
  }

  /** No two records have the same range of the same file. */
  lemma RecordsDiffer(file: CachedFile, lru: LruList, k: nat, j: nat)
    requires Distinct(lru.nodes) && (forall n :: n in lru.nodes ==> n in file.nodes || n.fileid != file.id)
    requires (forall i :: 0 <= i < |file.nodes| ==> file.nodes[i].fileid == file.id) && Sorted(Ranges(file.nodes))
    requires k < |file.nodes| && j < |lru.nodes| && lru.nodes[j] == file.nodes[k]
    ensures Alone(lru, j)
  {
    RangesAre(file.nodes);
    forall i | 0 <= i < |lru.nodes| && i != j
      ensures !Same(lru.nodes[i], lru.nodes[j])
    {
      if lru.nodes[i] in file.nodes {
        var h :| 0 <= h < |file.nodes| && file.nodes[h] == lru.nodes[i];
        assert Ranges(file.nodes)[h].start != Ranges(file.nodes)[k].start;
      }
    }
  }

  lemma RangesSelf(nodes: seq<PageRange>, k: nat)
    requires k < |nodes|
    ensures Ranges(nodes) == Splice(Ranges(nodes), k, [nodes[k].Value()])
  {
    hide Ranges, Splice;
    RangesAre(nodes);
    SpliceSelf(Ranges(nodes), k);
  }

  /** The four ways a request can reach into a node. */
  lemma HitCases(op: Op, c: Range, s: int, e: int)
    requires c.start <= s < c.end && s < e && MayHit(op)
    ensures var (v, f) := (Hit(op, c, s, e), HitFlags(op, c.flags));
            && v.next == (if e < c.end then e else c.end) && v.touched == v.next - s && !v.refused && v.inserted == 0
            && (v.stop <==> e <= c.end || CacheReadStart(op))
            && v.out == if s == c.start then
                          if e < c.end then [Range(s, e, f), Range(e, c.end, c.flags)] else [Range(s, c.end, f)]
                        else
                          if e < c.end then [Range(c.start, s, c.flags), Range(s, e, f), Range(e, c.end, c.flags)]
                          else [Range(c.start, s, c.flags), Range(s, c.end, f)]
  {
    hide HitFlags;
  }

  lemma HitToEnd(write: bool, l: seq<Entry>, j: nat, s: int, e: int, f: Flags)
    requires j < |l| && l[j].range.end <= e
    ensures HitEntries(write, l, j, s, l[j].range.end, f) == HitEntries(write, l, j, s, e, f)
  {
  }

  /** Otherwise nothing happens to it. */
  lemma HitNothing(op: Op, c: Range, s: int, e: int)
    requires c.start < c.end && c.start <= s < e && (c.end <= s || !MayHit(op))
    ensures Hit(op, c, s, e) == if c.end <= s then Visit([c], s, CacheReadStart(op), false, 0, 0)
                                else Visit([c], s, true, true, 0, 0)
  {
  }

  /** A request that meets a node leaves the list sorted, with as many pages as before. */
  lemma HitKeeps(op: Op, list: seq<Range>, k: nat, s: int, e: int)
    requires Sorted(list) && k < |list| && s < e && Reached(list, k, s) && list[k].start <= s
    ensures Sorted(Splice(list, k, Hit(op, list[k], s, e).out))
    ensures Total(Splice(list, k, Hit(op, list[k], s, e).out)) == Total(list)
  {
    hide Hit, Total, Sorted;
    VisitKeepsSorted(op, list, k, s, e);
    NodeAt(list, k);
    VisitIsHit(op, list[k], s, e);
    HitTotal(op, list[k], s, e);
    SpliceTotal(list, k, Hit(op, list[k], s, e).out);
  }

  lemma NodeAt(list: seq<Range>, k: nat)
    requires Sorted(list) && k < |list|
    ensures list[k].start < list[k].end
  {
  }

  lemma VisitIsHit(op: Op, c: Range, s: int, e: int)
    requires c.start < c.end && s < e && c.start <= s
    ensures VisitNode(op, c, s, e) == Hit(op, c, s, e)
  {
    hide Hit;
  }

  lemma SpliceTotal(list: seq<Range>, k: nat, out: seq<Range>)
    requires k < |list|
    ensures Total(Splice(list, k, out)) == Total(list) - (list[k].end - list[k].start) + Total(out)
  {
    hide Total;
    TotalAppend(list[..k], out);
    TotalAppend(list[..k] + out, list[k + 1..]);
    TotalAppend(list[..k], [list[k]]);
    TotalAppend(list[..k] + [list[k]], list[k + 1..]);
    TotalOne(list[k]);
    assert list == list[..k] + [list[k]] + list[k + 1..];
  }

  lemma TotalOne(x: Range)
    ensures Total([x]) == x.end - x.start
  {
    assert [x][1..] == [];
  }

  lemma SpliceInserted(list: seq<Range>, k: nat, x: Range, out: seq<Range>)
    requires k < |list|
    ensures Insert(list, k, x) == Splice(list, k, [x, list[k]])
    ensures Insert(list, k, x)[k + 1] == list[k]
    ensures Splice(Insert(list, k, x), k + 1, out) == Splice(list, k, [x] + out)
  {
  }

  lemma MembersAre(nodes: seq<PageRange>)
    ensures forall n :: n in Members(nodes) <==> n in nodes
  {
  }

  lemma FileIds(file: CachedFile)
    requires file.Ok()
    ensures forall i :: 0 <= i < |file.nodes| ==> file.nodes[i].fileid == file.id
  {
  }

  lemma RecordNonEmpty(file: CachedFile, k: nat)
    requires Sorted(Ranges(file.nodes)) && k < |file.nodes|
    ensures file.nodes[k].start < file.nodes[k].end && Ranges(file.nodes)[k] == file.nodes[k].Value()
  {
    RangesAre(file.nodes);
  }

  lemma ReachedAtStart(file: CachedFile, k: nat, s: int)
    requires Sorted(Ranges(file.nodes)) && k <= |file.nodes|
    requires k == 0 || (k < |file.nodes| && file.nodes[k].start < s)
    ensures Reached(Ranges(file.nodes), k, s)
  {
    RangesAre(file.nodes);
  }

  /** The pages from `s` up to `e` fit between the ranges at positions `k - 1` and `k`. */
  ghost predicate Gap(list: seq<Range>, k: nat, s: int, e: int) {
    k <= |list| && (k > 0 ==> list[k - 1].end <= s) && (k < |list| ==> e <= list[k].start)
  }

  lemma InsertedInGap(list: seq<Range>, k: nat, x: Range)
    requires Sorted(list) && Gap(list, k, x.start, x.end) && x.start < x.end
    ensures Sorted(Insert(list, k, x)) && Total(Insert(list, k, x)) == Total(list) + x.end - x.start
  {
    InsertIs(list, k, x);
    assert Sorted(Insert(list, k, x)) by {
      hide Insert;
    }
    TotalAppend(list[..k], list[k..]);
    TotalAppend(list[..k], [x]);
    TotalAppend(list[..k] + [x], list[k..]);
    assert list == list[..k] + list[k..];
  }

  lemma NoColdInserted(list: seq<Range>, k: nat, x: Range)
    requires NoCold(list) && !Cold(x.flags) && k <= |list|
    ensures NoCold(Insert(list, k, x))
  {
    InsertIs(list, k, x);
    hide Insert, Cold;
  }

  lemma GapNotCached(list: seq<Range>, k: nat, s: int, e: int, p: int)
    requires Sorted(list) && Gap(list, k, s, e) && s <= p < e
    ensures At(list, p) == None
  {
    if At(list, p).Some? {
      var i := AtCovered(list, p);
    }
  }

  lemma InFront<T>(l: seq<T>, x: T)
    ensures Insert(l, 0, x) == [x] + l
  {
  }

  lemma InsertAtEnd(list: seq<Range>, x: Range)
    ensures Insert(list, |list|, x) == list + [x]
  {
  }

  function Sum(ids: seq<int>, sizes: map<int, int>): int {
    if ids == [] then 0
    else Sum(ids[1..], sizes) + if ids[0] in sizes then sizes[ids[0]] else 0
  }

  lemma {:induction false} SumUpdate(ids: seq<int>, sizes: map<int, int>, id: int, x: int)
    requires Distinct(ids) && id in sizes
    ensures Sum(ids, sizes[id := x]) == Sum(ids, sizes) + if id in ids then x - sizes[id] else 0
  {
    if ids != [] {
      SumUpdate(ids[1..], sizes, id, x);
      assert ids[0] !in ids[1..];
    }
  }

  lemma {:induction false} SumUnknown(ids: seq<int>, sizes: map<int, int>, id: int, x: int)
    requires id !in ids
    ensures Sum(ids, sizes[id := x]) == Sum(ids, sizes)
  {
    if ids != [] {
      SumUnknown(ids[1..], sizes, id, x);
    }
  }

  lemma {:induction false} SumAppend(ids: seq<int>, sizes: map<int, int>, id: int)
    ensures Sum(ids + [id], sizes) == Sum(ids, sizes) + if id in sizes then sizes[id] else 0
  {
    if ids == [] {
      assert [] + [id] == [id];
    } else {
      SumAppend(ids[1..], sizes, id);
      assert (ids + [id])[1..] == ids[1..] + [id];
    }
  }

  lemma KnownTwice(ids: seq<int>, id: int)
    requires Distinct(ids) && id !in ids
    ensures Distinct(ids + [id]) && forall i :: i in ids + [id] <==> i in ids || i == id
  {
  }

  lemma EntriesSplit(nodes: seq<PageRange>, k: nat)
    requires k < |nodes|
    ensures var x := Entry(nodes[k].fileid, nodes[k].Value());
            && Entries(nodes[..k + 1]) == Entries(nodes[..k]) + [x]
            && Entries(nodes[k..]) == [x] + Entries(nodes[k + 1..])
  {
    EntriesAre(nodes[..k + 1]);
    EntriesAre(nodes[..k]);
    EntriesAre(nodes[k..]);
    EntriesAre(nodes[k + 1..]);
  }

  lemma EntriesWhole(nodes: seq<PageRange>, k: nat)
    requires k <= |nodes|
    ensures Entries(nodes) == Entries(nodes[..k]) + Entries(nodes[k..])
    ensures k == |nodes| ==> Entries(nodes[..k]) == Entries(nodes) && Entries(nodes[k..]) == []
  {
    EntriesAre(nodes);
    EntriesAre(nodes[..k]);
    EntriesAre(nodes[k..]);
  }

  lemma RemoveParts<T>(s: seq<T>, k: nat)
    requires k < |s|
    ensures Remove(s, k)[..k] == s[..k] && Remove(s, k)[k..] == s[k + 1..]
  {
  }

  lemma InRemoved<T>(s: seq<T>, k: nat)
    requires k < |s| && Distinct(s)
    ensures forall x :: x in Remove(s, k) <==> x in s && x != s[k]
  {
    forall x | x in s && x != s[k]
      ensures x in Remove(s, k)
    {
      var i :| 0 <= i < |s| && s[i] == x;
      assert Remove(s, k)[if i < k then i else i - 1] == x;
    }
  }

  lemma RangesRemove(nodes: seq<PageRange>, k: nat)
    requires k < |nodes|
    ensures Ranges(Remove(nodes, k)) == Remove(Ranges(nodes), k)
  {
    RangesAre(nodes);
    RangesAre(Remove(nodes, k));
    RemoveIs(nodes, k);
    RemoveIs(Ranges(nodes), k);
    hide Ranges, Remove;
  }

  lemma SortedRemove(list: seq<Range>, k: nat)
    requires k < |list| && Sorted(list)
    ensures Sorted(Remove(list, k))
  {
    RemoveIs(list, k);
    hide Remove;
  }

  lemma TotalRemove(list: seq<Range>, k: nat)
    requires k < |list|
    ensures Total(Remove(list, k)) == Total(list) - (list[k].end - list[k].start)
  {
    TotalAppend(list[..k], list[k + 1..]);
    TotalAppend(list[..k], [list[k]]);
    TotalAppend(list[..k] + [list[k]], list[k + 1..]);
    assert list == list[..k] + [list[k]] + list[k + 1..];
  }

  /** Likewise when one of its ranges loses its first pages. */
  lemma RangesShortened(list: seq<Range>, k: nat, n: int)
    requires k < |list| && Sorted(list) && 0 <= n < list[k].end - list[k].start
    ensures var x := list[k].(start := list[k].start + n);
            Sorted(list[k := x]) && Total(list[k := x]) == Total(list) - n
  {
    var x := list[k].(start := list[k].start + n);
    TotalAppend(list[..k], [list[k]]);
    TotalAppend(list[..k] + [list[k]], list[k + 1..]);
    TotalAppend(list[..k], [x]);
    TotalAppend(list[..k] + [x], list[k + 1..]);
    assert list == list[..k] + [list[k]] + list[k + 1..];
    assert list[k := x] == list[..k] + [x] + list[k + 1..];
  }

  /** Two neighbours as one range. */
  ghost function Joined(list: seq<Range>, k: nat): seq<Range>
    requires k + 1 < |list|
  {
    Remove(list, k + 1)[k := Range(list[k].start, list[k + 1].end, list[k].flags)]
  }

  lemma JoinedSorted(list: seq<Range>, k: nat)
    requires k + 1 < |list| && Sorted(list)
    ensures Sorted(Joined(list, k))
  {
    RemoveIs(list, k + 1);
    hide Remove;
  }

  lemma JoinedTotal(list: seq<Range>, k: nat)
    requires k + 1 < |list| && list[k].end == list[k + 1].start
    ensures Total(Joined(list, k)) == Total(list)
  {
    var x := Range(list[k].start, list[k + 1].end, list[k].flags);
    assert list == list[..k] + [list[k], list[k + 1]] + list[k + 2..];
    assert Joined(list, k) == list[..k] + [x] + list[k + 2..];
    TotalAppend(list[..k], [list[k], list[k + 1]]);
    TotalAppend(list[..k] + [list[k], list[k + 1]], list[k + 2..]);
    TotalAppend(list[..k], [x]);
    TotalAppend(list[..k] + [x], list[k + 2..]);
    TotalAppend([list[k]], [list[k + 1]]);
    assert [list[k]] + [list[k + 1]] == [list[k], list[k + 1]];
  }

  lemma JoinedRanges(nodes: seq<PageRange>, list: seq<Range>, k: nat)
    requires k + 1 < |list| == |nodes|
    requires forall i :: 0 <= i < |nodes| && i != k ==> nodes[i].Value() == list[i]
    requires nodes[k].Value() == Range(list[k].start, list[k + 1].end, list[k].flags)
    ensures Ranges(Remove(nodes, k + 1)) == Joined(list, k)
  {
    RangesAre(Remove(nodes, k + 1));
    RemoveIs(nodes, k + 1);
    RemoveIs(list, k + 1);
    hide Ranges, Remove;
  }

  lemma MergedEntries(nodes: seq<PageRange>, l: seq<Entry>, j: nat)
    requires 0 < j < |l| == |nodes|
    requires forall i :: 0 <= i < |nodes| && i != j ==> Entry(nodes[i].fileid, nodes[i].Value()) == l[i]
    requires nodes[j].fileid == l[j].file
    requires nodes[j].Value() == Range(l[j].range.start, l[j - 1].range.end, l[j].range.flags)
    ensures Entries(Remove(nodes, j - 1)) == Merged(l, j)
  {
    EntriesAre(Remove(nodes, j - 1));
    RemoveIs(nodes, j - 1);
    hide Entries, Remove;
  }

  /** Records of one file with the same range are the same record. */
  lemma SameIsSelf(file: CachedFile, k: nat)
    requires file.Ok() && Sorted(Ranges(file.nodes)) && k < |file.nodes|
    ensures forall i :: 0 <= i < |file.nodes| && i != k ==> !Same(file.nodes[i], file.nodes[k])
  {
    RangesAre(file.nodes);
    hide Ranges;
    forall i | 0 <= i < |file.nodes| && i != k
      ensures !Same(file.nodes[i], file.nodes[k])
    {
      assert Ranges(file.nodes)[i].start != Ranges(file.nodes)[k].start;
    }
  }
}
