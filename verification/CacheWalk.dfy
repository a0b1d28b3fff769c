/** The steps of the walk over the linked page table: what happens to one node and the LRU list. */
module CacheWalk {
  import opened PageRanges
  import opened PageNodes
  import opened PageReclaim
  import opened LruOrder

  ghost function Members(nodes: seq<PageRange>): set<PageRange> {
    set n | n in nodes
  }

  lemma MembersInsert(s: seq<PageRange>, k: nat, x: PageRange)
    requires k <= |s|
    ensures Members(Insert(s, k, x)) == Members(s) + {x}
  {
    var r := Insert(s, k, x);
    InsertIs(s, k, x);
    forall n | n in s
      ensures n in r
    {
      var i :| 0 <= i < |s| && s[i] == n;
      assert r[if i < k then i else i + 1] == n;
    }
    assert r[k] == x;
  }

  lemma {:induction false} MembersCount(s: seq<PageRange>)
    requires Distinct(s)
    ensures |Members(s)| == |s|
  {
    if s != [] {
      var (front, last) := (s[..|s| - 1], s[|s| - 1]);
      MembersCount(front);
      assert Members(s) == Members(front) + {last};
    }
  }

  lemma MembersInsertTwo(s: seq<PageRange>, k: nat, x: PageRange, i: nat, y: PageRange)
    requires k <= |s| && i <= |s| + 1
    ensures Members(Insert(Insert(s, k, x), i, y)) == Members(s) + {x, y}
  {
    MembersInsert(s, k, x);
    MembersInsert(Insert(s, k, x), i, y);
  }

  lemma MembersRemove(s: seq<PageRange>, k: nat)
    requires k < |s| && Distinct(s)
    ensures Members(Remove(s, k)) == Members(s) - {s[k]}
  {
    var r := Remove(s, k);
    RemoveIs(s, k);
    forall n | n in s && n != s[k]
      ensures n in r
    {
      var i :| 0 <= i < |s| && s[i] == n;
      assert r[if i < k then i else i - 1] == n;
    }
  }

  lemma MembersReplace(s: seq<PageRange>, k: nat, x: PageRange)
    requires k < |s| && Distinct(s) && x !in s
    ensures Members(s[k := x]) == Members(s) - {s[k]} + {x}
  {
    var r := s[k := x];
    assert r[k] == x;
    forall n | n in s && n != s[k]
      ensures n in r
    {
      var i :| 0 <= i < |s| && s[i] == n;
      assert r[i] == n;
    }
  }

  lemma RangesInsert(s: seq<PageRange>, k: nat, x: PageRange)
    requires k <= |s|
    ensures |Ranges(s)| == |s| && Ranges(Insert(s, k, x)) == Insert(Ranges(s), k, x.Value())
  {
    RangesAre(s);
    RangesAre(Insert(s, k, x));
    InsertIs(s, k, x);
    InsertIs(Ranges(s), k, x.Value());
    hide Ranges, Insert;
  }

  lemma RangesReplace(s: seq<PageRange>, k: nat, x: PageRange)
    requires k < |s|
    ensures |Ranges(s)| == |s| && Ranges(s[k := x]) == Ranges(s)[k := x.Value()]
  {
    RangesAre(s);
    RangesAre(s[k := x]);
    hide Ranges;
  }

  // ---------------------------------------------------------------- the LRU list as values

  ghost function AsEntry(n: PageRange): Entry
    reads n`start, n`end, n`flags
  {
    Entry(n.fileid, n.Value())
  }

  ghost function Entries(nodes: seq<PageRange>): (l: seq<Entry>)
    reads nodes`start, nodes`end, nodes`flags
    ensures |l| == |nodes|
  {
    if nodes == [] then []
    else
      var last := |nodes| - 1;
      assert forall i :: 0 <= i < last ==> nodes[i] in nodes;
      Entries(nodes[..last]) + [AsEntry(nodes[last])]
  }

  lemma {:induction false} EntriesAre(nodes: seq<PageRange>)
    ensures forall i :: 0 <= i < |nodes| ==> Entries(nodes)[i] == AsEntry(nodes[i])
  {
    if nodes != [] {
      EntriesAre(nodes[..|nodes| - 1]);
    }
  }

  /** `before` lists what the nodes were; all but the one at `j` still are. */
  ghost predicate StillThere(nodes: seq<PageRange>, before: seq<Entry>, j: nat)
    reads nodes`start, nodes`end, nodes`flags
  {
    && |before| == |nodes| && j < |nodes|
    && forall i :: 0 <= i < |nodes| && i != j ==> AsEntry(nodes[i]) == before[i]
  }

  lemma StillThereSelf(nodes: seq<PageRange>, j: nat)
    requires j < |nodes|
    ensures StillThere(nodes, Entries(nodes), j)
  {
    EntriesAre(nodes);
  }

  lemma EntriesNow(nodes: seq<PageRange>, before: seq<Entry>, j: nat)
    requires StillThere(nodes, before, j)
    ensures Entries(nodes) == before[j := AsEntry(nodes[j])]
  {
    EntriesAre(nodes);
    hide Entries;
  }

  lemma EntriesInsert(nodes: seq<PageRange>, k: nat, x: PageRange)
    requires k <= |nodes|
    ensures Entries(Insert(nodes, k, x)) == Insert(Entries(nodes), k, AsEntry(x))
  {
    EntriesAre(nodes);
    EntriesAre(Insert(nodes, k, x));
    InsertIs(nodes, k, x);
    InsertIs(Entries(nodes), k, AsEntry(x));
    hide Entries, Insert;
  }

  lemma PutOne(l: seq<Entry>, j: nat, x: Entry, y: Entry)
    requires j < |l|
    ensures Insert(l[j := y], 0, x) == [x] + Put(l, j, [y])
    ensures Insert(l[j := y], j, x) == Put(l, j, [x, y])
  {
  }

  lemma PutTwo(l: seq<Entry>, j: nat, x: Entry, y: Entry, z: Entry)
    requires j < |l|
    ensures Insert(Put(l, j, [y, z]), 0, x) == [x] + Put(l, j, [y, z])
    ensures Insert(Put(l, j, [y, z]), j, x) == Put(l, j, [x, y, z])
  {
  }

  /** The new record in front, or in front of the one that was met. */
  lemma EntriesWithOne(write: bool, nodes: seq<PageRange>, before: seq<Entry>, j: nat, x: PageRange)
    requires StillThere(nodes, before, j)
    ensures Entries(Insert(nodes, if write then 0 else j, x))
              == if write then [AsEntry(x)] + Put(before, j, [AsEntry(nodes[j])])
                 else Put(before, j, [AsEntry(x), AsEntry(nodes[j])])
  {
    hide Entries, Insert, Put, AsEntry;
    EntriesNow(nodes, before, j);
    EntriesInsert(nodes, if write then 0 else j, x);
    PutOne(before, j, AsEntry(x), AsEntry(nodes[j]));
  }

  lemma EntriesReplaced(nodes: seq<PageRange>, before: seq<Entry>, j: nat, x: PageRange)
    requires StillThere(nodes, before, j)
    ensures Entries(nodes[j := x]) == Put(before, j, [AsEntry(x)])
  {
    EntriesAre(nodes[j := x]);
    hide Entries;
  }

  lemma EntriesMoved(nodes: seq<PageRange>, before: seq<Entry>, j: nat, x: PageRange)
    requires StillThere(nodes, before, j)
    ensures Entries(Insert(Remove(nodes, j), 0, x)) == [AsEntry(x)] + Put(before, j, [])
  {
    EntriesAre(Insert(Remove(nodes, j), 0, x));
    RemoveIs(nodes, j);
    InsertIs(Remove(nodes, j), 0, x);
    hide Entries, Insert, Remove;
  }

  /** Two new records, of the requested pages and of those behind them. */
  lemma EntriesWithTwo(write: bool, nodes: seq<PageRange>, before: seq<Entry>, j: nat, x: PageRange, y: PageRange)
    requires StillThere(nodes, before, j)
    ensures write ==> Entries(Insert(Insert(nodes, j, y), 0, x))
                        == [AsEntry(x)] + Put(before, j, [AsEntry(y), AsEntry(nodes[j])])
    ensures !write ==> Entries(Insert(Insert(nodes, j, x), j, y))
                         == Put(before, j, [AsEntry(y), AsEntry(x), AsEntry(nodes[j])])
  {
    hide Entries, Insert, Put, AsEntry;
    var (first, second) := if write then (y, x) else (x, y);
    EntriesWithOne(false, nodes, before, j, first);
    EntriesInsert(Insert(nodes, j, first), if write then 0 else j, second);
    PutTwo(before, j, AsEntry(second), AsEntry(first), AsEntry(nodes[j]));
  }

  /** The LRU list holds exactly the nodes of this file and `others`. */
  ghost predicate Threaded(lru: LruList, file: CachedFile, others: set<PageRange>)
    reads lru`nodes, file`nodes
  {
    && Members(lru.nodes) == others + Members(file.nodes)
    && others !! Members(file.nodes)
  }

  ghost predicate IsCacheWrite(op: Op) {
    op.preop && !op.read && !op.disk
  }

  /** The flags of a node that takes over requested pages that are cached already. */
  method FlagsOnHit(op: Op, was: Flags) returns (tmp: Flags)
    ensures tmp == HitFlags(op, was) && ChangedBy(op, was, tmp)
  {
    var (preop, disk, read) := (op.preop, op.disk, op.read);
    tmp := Requested(op);
    if !disk && !read {
      tmp := tmp.(dirty := true);
      if preop {
        tmp := tmp.(locked := true);
      } else {
        tmp := tmp.(locked := false);
      }
    }
    if disk && !read {
      if preop {
        tmp := tmp.(writeback := true);
      } else {
        tmp := tmp.(writeback := false);
        tmp := tmp.(dirty := false);
        tmp := tmp.(locked := false);
      }
    }
    if !preop && disk && read {
      tmp := tmp.(locked := false);
    }
    if !preop {
      tmp := tmp.(count := tmp.count - 1);
    }
    if !(disk && !read && !preop) {
      tmp := tmp.(dirty := tmp.dirty || was.dirty);
      tmp := tmp.(modified := tmp.modified || was.modified);
    }
  }

  // ---------------------------------------------------------------- relinking, branch by branch

  /** [{++}++]: a new node goes in front of `cur`. */
  method RelinkPrefix(file: CachedFile, lru: LruList, op: Op, tmp: PageRange, pre: PageRange?, cur: PageRange,
                      ghost k: nat, ghost j: nat)
    requires file.Ok() && lru.Ok() && tmp !in file.nodes && tmp !in lru.nodes
    requires tmp.fileid == file.id && tmp.next == null && tmp.prev == null
    requires k < |file.nodes| && file.nodes[k] == cur && file.Precedes(pre, k)
    requires j < |lru.nodes| && lru.nodes[j] == cur
    modifies file`prHead, file`nodes, file.nodes`next, file.nodes`prev, tmp`next, tmp`prev
    modifies lru, lru.nodes`lruNext, lru.nodes`lruPrev, tmp`lruNext, tmp`lruPrev
    ensures file.Ok() && lru.Ok()
    ensures file.nodes == Insert(old(file.nodes), k, tmp)
    ensures lru.nodes == Insert(old(lru.nodes), if IsCacheWrite(op) then 0 else j, tmp)
  {
    hide LruList.Ok, CachedFile.Ok;
    file.LinkBefore(tmp, pre, cur, k);
    if op.preop && !op.read && !op.disk {
      lru.Push(tmp);
    } else {
      lru.InsertBefore(tmp, cur, j);
    }
  }

  /** [{+++]...: a new node takes the place of `cur`. */
  method RelinkWhole(file: CachedFile, lru: LruList, op: Op, tmp: PageRange, pre: PageRange?, cur: PageRange,
                     ghost k: nat, ghost j: nat)
    requires file.Ok() && lru.Ok() && tmp !in file.nodes && tmp !in lru.nodes
    requires tmp.fileid == file.id && tmp.prev == null
    requires k < |file.nodes| && file.nodes[k] == cur && file.Precedes(pre, k)
    requires j < |lru.nodes| && lru.nodes[j] == cur
    requires forall i :: 0 <= i < |lru.nodes| && i != j ==> !Same(lru.nodes[i], cur)
    modifies file`prHead, file`nodes, file.nodes`next, file.nodes`prev, tmp`next, tmp`prev
    modifies lru, lru.nodes`lruNext, lru.nodes`lruPrev, tmp`lruNext, tmp`lruPrev
    ensures file.Ok() && lru.Ok()
    ensures file.nodes == old(file.nodes)[k := tmp]
    ensures lru.nodes == if IsCacheWrite(op) then Insert(Remove(old(lru.nodes), j), 0, tmp) else old(lru.nodes)[j := tmp]
  {
    hide LruList.Ok, CachedFile.Ok;
    file.Replace(tmp, pre, cur, k);
    if op.preop && !op.read && !op.disk {
      var _ := lru.Delete(cur, j);
      lru.Push(tmp);
    } else {
      lru.Substitute(tmp, cur, j);
    }
  }

  /** [+++{+++}++]: two new nodes go behind `cur`. */
  method RelinkMiddle(file: CachedFile, lru: LruList, op: Op, tmp: PageRange, tmp2: PageRange, cur: PageRange,
                      ghost k: nat, ghost j: nat)
    requires file.Ok() && lru.Ok() && tmp !in file.nodes && tmp !in lru.nodes && tmp2 !in file.nodes && tmp2 !in lru.nodes
    requires tmp.fileid == tmp2.fileid == file.id && tmp != tmp2
    requires k < |file.nodes| && file.nodes[k] == cur
    requires j < |lru.nodes| && lru.nodes[j] == cur
    modifies file`nodes, file.nodes`next, file.nodes`prev, tmp`next, tmp`prev, tmp2`next, tmp2`prev
    modifies lru, lru.nodes`lruNext, lru.nodes`lruPrev, tmp`lruNext, tmp`lruPrev, tmp2`lruNext, tmp2`lruPrev
    ensures file.Ok() && lru.Ok()
    ensures file.nodes == Insert(Insert(old(file.nodes), k + 1, tmp), k + 2, tmp2)
    ensures lru.nodes == if IsCacheWrite(op) then Insert(Insert(old(lru.nodes), j, tmp2), 0, tmp)
                         else Insert(Insert(old(lru.nodes), j, tmp), j, tmp2)
  {
    hide LruList.Ok, CachedFile.Ok;
    LinkMiddle(file, tmp, tmp2, cur, k);
    ThreadMiddle(lru, op, tmp, tmp2, cur, j);
  }

  method LinkMiddle(file: CachedFile, tmp: PageRange, tmp2: PageRange, cur: PageRange, ghost k: nat)
    requires file.Ok() && k < |file.nodes| && file.nodes[k] == cur
    requires tmp !in file.nodes && tmp2 !in file.nodes && tmp != tmp2 && tmp.fileid == tmp2.fileid == file.id
    modifies file`nodes, file.nodes`next, file.nodes`prev, tmp`next, tmp`prev, tmp2`next, tmp2`prev
    ensures file.Ok()
    ensures file.nodes == Insert(Insert(old(file.nodes), k + 1, tmp), k + 2, tmp2)
  {
    hide CachedFile.Ok;
    NotInInsert(file.nodes, k + 1, tmp, tmp2);
    file.LinkAfter(tmp, cur, k);
    file.LinkAfter(tmp2, tmp, k + 1);
  }

  method ThreadMiddle(lru: LruList, op: Op, tmp: PageRange, tmp2: PageRange, cur: PageRange, ghost j: nat)
    requires lru.Ok() && j < |lru.nodes| && lru.nodes[j] == cur
    requires tmp !in lru.nodes && tmp2 !in lru.nodes && tmp != tmp2
    modifies lru, lru.nodes`lruNext, lru.nodes`lruPrev, tmp`lruNext, tmp`lruPrev, tmp2`lruNext, tmp2`lruPrev
    ensures lru.Ok()
    ensures lru.nodes == if IsCacheWrite(op) then Insert(Insert(old(lru.nodes), j, tmp2), 0, tmp)
                         else Insert(Insert(old(lru.nodes), j, tmp), j, tmp2)
  {
    hide LruList.Ok;
    NotInInsert(lru.nodes, j, tmp2, tmp);
    NotInInsert(lru.nodes, j, tmp, tmp2);
    if op.preop && !op.read && !op.disk {
      lru.InsertBefore(tmp2, cur, j);
      lru.Push(tmp);
    } else {
      lru.InsertBefore(tmp, cur, j);
      lru.InsertBefore(tmp2, tmp, j);
    }
  }

  lemma NotInInsert(s: seq<PageRange>, k: nat, x: PageRange, y: PageRange)
    requires k <= |s| && y !in s && y != x
    ensures y !in Insert(s, k, x)
  {
  }

  /** [+++{+++]...: a new node goes behind `cur`. */
  method RelinkSuffix(file: CachedFile, lru: LruList, op: Op, tmp: PageRange, cur: PageRange, ghost k: nat, ghost j: nat)
    requires file.Ok() && lru.Ok() && tmp !in file.nodes && tmp !in lru.nodes && tmp.fileid == file.id
    requires k < |file.nodes| && file.nodes[k] == cur
    requires j < |lru.nodes| && lru.nodes[j] == cur
    modifies file`nodes, file.nodes`next, file.nodes`prev, tmp`next, tmp`prev
    modifies lru, lru.nodes`lruNext, lru.nodes`lruPrev, tmp`lruNext, tmp`lruPrev
    ensures file.Ok() && lru.Ok()
    ensures file.nodes == Insert(old(file.nodes), k + 1, tmp)
    ensures lru.nodes == Insert(old(lru.nodes), if IsCacheWrite(op) then 0 else j, tmp)
  {
    hide LruList.Ok, CachedFile.Ok;
    file.LinkAfter(tmp, cur, k);
    if op.preop && !op.read && !op.disk {
      lru.Push(tmp);
    } else {
      lru.InsertBefore(tmp, cur, j);
    }
  }

  // ---------------------------------------------------------------- cutting a node

  /** `before` lists the values the nodes had; all but the one at `k` still have them. */
  ghost predicate Kept(nodes: seq<PageRange>, before: seq<Range>, k: nat)
    reads nodes`start, nodes`end, nodes`flags
  {
    && |before| == |nodes| && k < |nodes|
    && forall i :: 0 <= i < |nodes| && i != k ==> nodes[i].Value() == before[i]
  }

  /** Allocates the record of the requested part of a node and takes that part from the node itself. */
  method Cut(file: CachedFile, lru: LruList, f: Flags, cur: PageRange, s: int, e: int, left: int, right: int,
             ghost k: nat, ghost j: nat)
    returns (tmp: PageRange)
    requires Distinct(file.nodes) && k < |file.nodes| && file.nodes[k] == cur
    requires Distinct(lru.nodes) && j < |lru.nodes| && lru.nodes[j] == cur
    modifies cur`start, cur`end
    ensures fresh(tmp) && tmp.fileid == file.id && tmp.next == null && tmp.prev == null
    ensures tmp.Value() == Range(s, e, f) && cur.Value() == Range(left, right, old(cur.flags))
    ensures Kept(file.nodes, old(Ranges(file.nodes)), k) && StillThere(lru.nodes, old(Entries(lru.nodes)), j)
  {
    RangesAre(file.nodes);
    EntriesAre(lru.nodes);
    hide Ranges, Entries;
    tmp := new PageRange(file.id, s, e, f);
    cur.start := left;
    cur.end := right;
  }

  // ---------------------------------------------------------------- what relinking does to the contents

  lemma KeptSelf(nodes: seq<PageRange>, k: nat)
    requires k < |nodes|
    ensures Kept(nodes, Ranges(nodes), k)
  {
    RangesAre(nodes);
  }

  lemma RangesKept(nodes: seq<PageRange>, before: seq<Range>, k: nat)
    requires Kept(nodes, before, k)
    ensures Ranges(nodes) == before[k := nodes[k].Value()]
  {
    RangesAre(nodes);
    hide Ranges;
  }

  lemma SpliceFront(nodes: seq<PageRange>, before: seq<Range>, k: nat, x: PageRange)
    requires Kept(nodes, before, k)
    ensures Ranges(Insert(nodes, k, x)) == Splice(before, k, [x.Value(), nodes[k].Value()])
  {
    RangesKept(nodes, before, k);
    RangesInsert(nodes, k, x);
    hide Ranges, Kept;
  }

  lemma SpliceBehind(nodes: seq<PageRange>, before: seq<Range>, k: nat, x: PageRange)
    requires Kept(nodes, before, k)
    ensures Ranges(Insert(nodes, k + 1, x)) == Splice(before, k, [nodes[k].Value(), x.Value()])
  {
    RangesKept(nodes, before, k);
    RangesInsert(nodes, k + 1, x);
    hide Ranges, Kept;
  }

  lemma SpliceMiddle(nodes: seq<PageRange>, before: seq<Range>, k: nat, x: PageRange, y: PageRange)
    requires Kept(nodes, before, k)
    ensures Ranges(Insert(Insert(nodes, k + 1, x), k + 2, y)) == Splice(before, k, [nodes[k].Value(), x.Value(), y.Value()])
  {
    RangesKept(nodes, before, k);
    RangesInsert(nodes, k + 1, x);
    RangesInsert(Insert(nodes, k + 1, x), k + 2, y);
    hide Ranges, Kept;
  }

  lemma SpliceWhole(nodes: seq<PageRange>, before: seq<Range>, k: nat, x: PageRange)
    requires Kept(nodes, before, k)
    ensures Ranges(nodes[k := x]) == Splice(before, k, [x.Value()])
  {
    RangesKept(nodes, before, k);
    RangesReplace(nodes, k, x);
    hide Ranges, Kept;
  }

  // ---------------------------------------------------------------- one cached node

  /** No other node on the LRU list has the range of the node at `j`. */
  ghost predicate Alone(lru: LruList, j: nat)
    reads lru`nodes, lru.nodes`start, lru.nodes`end
  {
    j < |lru.nodes| && forall i :: 0 <= i < |lru.nodes| && i != j ==> !Same(lru.nodes[i], lru.nodes[j])
  }

  lemma OwnRecord(file: CachedFile, k: nat)
    requires file.Ok() && k < |file.nodes|
    ensures file.nodes[k].fileid == file.id
  {
  }

  lemma ListsDistinct(file: CachedFile, lru: LruList)
    requires file.Ok() && lru.Ok()
    ensures Distinct(file.nodes) && Distinct(lru.nodes)
  {
  }

  /** The request starts with the node and ends inside it. */
  method HitPrefix(file: CachedFile, lru: LruList, op: Op, s: int, e: int, f: Flags, pre: PageRange?, cur: PageRange,
                   ghost k: nat, ghost j: nat)
    returns (tmp: PageRange)
    requires file.Ok() && lru.Ok()
    requires k < |file.nodes| && file.nodes[k] == cur && j < |lru.nodes| && lru.nodes[j] == cur
    requires file.Precedes(pre, k) && s == cur.start < e < cur.end
    modifies file`prHead, file`nodes, file.nodes`next, file.nodes`prev, cur`start, cur`end
    modifies lru, lru.nodes`lruNext, lru.nodes`lruPrev
    ensures file.Ok() && lru.Ok() && fresh(tmp)
    ensures Members(file.nodes) == old(Members(file.nodes)) + {tmp}
    ensures Members(lru.nodes) == old(Members(lru.nodes)) + {tmp}
    ensures Ranges(file.nodes) == Splice(old(Ranges(file.nodes)), k, [Range(s, e, f), Range(e, old(cur.end), cur.flags)])
    ensures Entries(lru.nodes) == HitEntries(IsCacheWrite(op), old(Entries(lru.nodes)), j, s, e, f)
  {
    hide LruList.Ok, CachedFile.Ok, Ranges, Entries, Total, Insert, Remove, Put, Members, Kept, StillThere;
    ghost var (nodes, threads) := (file.nodes, lru.nodes);
    ghost var (before, l) := (Ranges(nodes), Entries(threads));
    OwnRecord(file, k);
    EntriesAre(threads);
    ListsDistinct(file, lru);
    ghost var i := if IsCacheWrite(op) then 0 else j;
    tmp := Cut(file, lru, f, cur, s, e, e, cur.end, k, j);
    RelinkPrefix(file, lru, op, tmp, pre, cur, k, j);
    MembersInsert(nodes, k, tmp);
    MembersInsert(threads, i, tmp);
    SpliceFront(nodes, before, k, tmp);
    EntriesWithOne(IsCacheWrite(op), threads, l, j, tmp);
  }

  /** The request covers the node. */
  method HitWhole(file: CachedFile, lru: LruList, op: Op, f: Flags, pre: PageRange?, cur: PageRange,
                  ghost k: nat, ghost j: nat)
    returns (tmp: PageRange)
    requires file.Ok() && lru.Ok()
    requires k < |file.nodes| && file.nodes[k] == cur && j < |lru.nodes| && lru.nodes[j] == cur
    requires file.Precedes(pre, k) && Alone(lru, j)
    modifies file`prHead, file`nodes, file.nodes`next, file.nodes`prev
    modifies lru, lru.nodes`lruNext, lru.nodes`lruPrev
    ensures file.Ok() && lru.Ok() && fresh(tmp)
    ensures Members(file.nodes) == old(Members(file.nodes)) - {cur} + {tmp}
    ensures Members(lru.nodes) == old(Members(lru.nodes)) - {cur} + {tmp}
    ensures Ranges(file.nodes) == Splice(old(Ranges(file.nodes)), k, [Range(cur.start, cur.end, f)])
    ensures k < |file.nodes| && file.nodes[k] == tmp
    ensures Entries(lru.nodes) == HitEntries(IsCacheWrite(op), old(Entries(lru.nodes)), j, cur.start, cur.end, f)
  {
    hide LruList.Ok, CachedFile.Ok, Ranges, Entries, Total, Insert, Remove, Put, Members, Kept, StillThere;
    ghost var (nodes, threads) := (file.nodes, lru.nodes);
    ghost var (before, l) := (Ranges(nodes), Entries(threads));
    OwnRecord(file, k);
    EntriesAre(threads);
    ListsDistinct(file, lru);
    tmp := new PageRange(file.id, cur.start, cur.end, f);
    KeptSelf(nodes, k);
    StillThereSelf(threads, j);
    RelinkWhole(file, lru, op, tmp, pre, cur, k, j);
    MembersReplace(nodes, k, tmp);
    SpliceWhole(nodes, before, k, tmp);
    if IsCacheWrite(op) {
      EntriesMoved(threads, l, j, tmp);
      MembersRemove(threads, j);
      MembersInsert(Remove(threads, j), 0, tmp);
    } else {
      EntriesReplaced(threads, l, j, tmp);
      MembersReplace(threads, j, tmp);
    }
  }

  /** The request lies inside the node. */
  method HitMiddle(file: CachedFile, lru: LruList, op: Op, s: int, e: int, f: Flags, cur: PageRange,
                   ghost k: nat, ghost j: nat)
    returns (tmp: PageRange, tmp2: PageRange)
    requires file.Ok() && lru.Ok()
    requires k < |file.nodes| && file.nodes[k] == cur && j < |lru.nodes| && lru.nodes[j] == cur
    requires cur.start < s < e < cur.end
    modifies file`nodes, file.nodes`next, file.nodes`prev, cur`start, cur`end
    modifies lru, lru.nodes`lruNext, lru.nodes`lruPrev
    ensures file.Ok() && lru.Ok() && fresh(tmp) && fresh(tmp2)
    ensures Members(file.nodes) == old(Members(file.nodes)) + {tmp, tmp2}
    ensures Members(lru.nodes) == old(Members(lru.nodes)) + {tmp, tmp2}
    ensures Ranges(file.nodes) == Splice(old(Ranges(file.nodes)), k,
                                         [Range(old(cur.start), s, cur.flags), Range(s, e, f), Range(e, old(cur.end), cur.flags)])
    ensures Entries(lru.nodes) == HitEntries(IsCacheWrite(op), old(Entries(lru.nodes)), j, s, e, f)
  {
    hide LruList.Ok, CachedFile.Ok, Ranges, Entries, Total, Insert, Remove, Put, Members, Kept, StillThere, Splice, Distinct;
    ghost var (nodes, threads) := (file.nodes, lru.nodes);
    ghost var (before, l) := (Ranges(nodes), Entries(threads));
    OwnRecord(file, k);
    EntriesAre(threads);
    ListsDistinct(file, lru);
    tmp2 := new PageRange(file.id, e, cur.end, cur.flags);
    tmp := Cut(file, lru, f, cur, s, e, cur.start, s, k, j);
    RelinkMiddle(file, lru, op, tmp, tmp2, cur, k, j);
    MembersInsertTwo(nodes, k + 1, tmp, k + 2, tmp2);
    SpliceMiddle(nodes, before, k, tmp, tmp2);
    EntriesWithTwo(IsCacheWrite(op), threads, l, j, tmp, tmp2);
    if IsCacheWrite(op) {
      MembersInsertTwo(threads, j, tmp2, 0, tmp);
    } else {
      MembersInsertTwo(threads, j, tmp, j, tmp2);
    }
  }

  /** The request starts inside the node and reaches its end. */
  method HitSuffix(file: CachedFile, lru: LruList, op: Op, s: int, f: Flags, cur: PageRange, ghost k: nat, ghost j: nat)
    returns (tmp: PageRange)
    requires file.Ok() && lru.Ok()
    requires k < |file.nodes| && file.nodes[k] == cur && j < |lru.nodes| && lru.nodes[j] == cur
    requires cur.start < s < cur.end
    modifies file`nodes, file.nodes`next, file.nodes`prev, cur`start, cur`end
    modifies lru, lru.nodes`lruNext, lru.nodes`lruPrev
    ensures file.Ok() && lru.Ok() && fresh(tmp)
    ensures Members(file.nodes) == old(Members(file.nodes)) + {tmp}
    ensures Members(lru.nodes) == old(Members(lru.nodes)) + {tmp}
    ensures Ranges(file.nodes) == Splice(old(Ranges(file.nodes)), k,
                                         [Range(old(cur.start), s, cur.flags), Range(s, old(cur.end), f)])
    ensures k + 1 < |file.nodes| && file.nodes[k + 1] == tmp
    ensures Entries(lru.nodes) == HitEntries(IsCacheWrite(op), old(Entries(lru.nodes)), j, s, old(cur.end), f)
  {
    hide LruList.Ok, CachedFile.Ok, Ranges, Entries, Total, Insert, Remove, Put, Members, Kept, StillThere;
    ghost var (nodes, threads) := (file.nodes, lru.nodes);
    ghost var (before, l) := (Ranges(nodes), Entries(threads));
    OwnRecord(file, k);
    EntriesAre(threads);
    ListsDistinct(file, lru);
    ghost var i := if IsCacheWrite(op) then 0 else j;
    tmp := Cut(file, lru, f, cur, s, cur.end, cur.start, s, k, j);
    RelinkSuffix(file, lru, op, tmp, cur, k, j);
    MembersInsert(nodes, k + 1, tmp);
    MembersInsert(threads, i, tmp);
    SpliceBehind(nodes, before, k, tmp);
    EntriesWithOne(IsCacheWrite(op), threads, l, j, tmp);
  }
}
