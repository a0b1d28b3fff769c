/** The page cache object: the page tables of all files, the LRU list, and the page counters. */
module PageCache {
  import opened Basics
  import opened Options
  import opened PageRanges
  import opened PageNodes
  import opened CacheWalk
  import opened PageAccess
  import opened PageReclaim
  import opened LruOrder
  import opened CacheLists

  class DiskCache {
    const totalUsable: int
    const dirtyThreshold: int
    const diskReadBatch: int
    const lru: LruList
    var files: map<int, CachedFile>
    var fileIDs: seq<int>
    var freePages: int
    var dirtyPages: int

    constructor (totalUsable: int, dirtyThreshold: int, diskReadBatch: int)
      ensures this.dirtyThreshold == dirtyThreshold && this.diskReadBatch == diskReadBatch
      ensures Healthy() && fresh(lru) && this.totalUsable == totalUsable
      ensures freePages == totalUsable && dirtyPages == 0 && files == map[] && lru.nodes == []
    {
      this.totalUsable, this.dirtyThreshold, this.diskReadBatch := totalUsable, dirtyThreshold, diskReadBatch;
      freePages, dirtyPages := totalUsable, 0;
      files, fileIDs := map[], [];
      lru := new LruList();
    }

    /** The records of all files. */
    ghost function Records(): set<PageRange>
      reads this`files, files.Values`nodes
    {
      set id, i | id in files && 0 <= i < |files[id].nodes| :: files[id].nodes[i]
    }

    static ghost predicate ListOk(f: CachedFile, id: int)
      reads f`nodes, f`prHead, f.nodes`start, f.nodes`end, f.nodes`flags, f.nodes`next, f.nodes`prev
    {
      f.id == id && f.Ok() && Sorted(Ranges(f.nodes))
    }

    ghost predicate FileOk(id: int)
      reads this`files, files.Values`nodes, files.Values`prHead
      reads Records()`start, Records()`end, Records()`flags, Records()`next, Records()`prev
      requires id in files
    {
      ListOk(files[id], id)
    }

    /** How many pages of a file are cached. */
    ghost function Pages(id: int): int
      reads this`files, files.Values`nodes, files.Values`prHead
      reads Records()`start, Records()`end, Records()`flags, Records()`next, Records()`prev
      requires id in files
    {
      Total(Ranges(files[id].nodes))
    }

    ghost function Sizes(): (sizes: map<int, int>)
      reads this`files, files.Values`nodes, files.Values`prHead
      reads Records()`start, Records()`end, Records()`flags, Records()`next, Records()`prev
    {
      map id | id in files :: Pages(id)
    }

    /** Every file's list is linked and sorted, the LRU list is linked and holds exactly the records of all files but
        those in `held`, and `free` pages and cached pages add up. */
    ghost predicate Consistent(free: int, held: set<PageRange>)
      reads this`files, this`fileIDs, files.Values`nodes, files.Values`prHead
      reads lru`head, lru`end, lru`nodes, lru.nodes`lruNext, lru.nodes`lruPrev
      reads Records()`start, Records()`end, Records()`flags, Records()`next, Records()`prev
    {
      && lru.Ok() && held <= Records() && Members(lru.nodes) == Records() - held
      && (forall id :: id in files ==> FileOk(id))
      && Distinct(fileIDs) && (forall id :: id in fileIDs <==> id in files)
      && free + Sum(fileIDs, Sizes()) == totalUsable
    }

    ghost predicate Healthy()
      reads this`files, this`fileIDs, this`freePages, files.Values`nodes, files.Values`prHead
      reads lru`head, lru`end, lru`nodes, lru.nodes`lruNext, lru.nodes`lruPrev
      reads Records()`start, Records()`end, Records()`flags, Records()`next, Records()`prev
    {
      Consistent(freePages, {})
    }

    /** A file that is not known yet is entered with an empty list. */
    method OpenFile(id: int)
      requires Healthy()
      modifies this`files, this`fileIDs
      ensures Healthy() && id in files && (forall other :: other in old(files) ==> other in files && files[other] == old(files)[other])
      ensures id in old(files) ==> files == old(files)
      ensures id !in old(files) ==> files.Keys == old(files).Keys + {id} && fresh(files[id]) && files[id].nodes == [] && LastOk(files[id])
    {
      if id !in files {
        EnterFile(id);
      }
    }

    method EnterFile(id: int)
      requires Healthy() && id !in files
      modifies this`files, this`fileIDs
      ensures Healthy() && files.Keys == old(files).Keys + {id}
      ensures forall other :: other in old(files) ==> other in files && files[other] == old(files)[other]
      ensures fresh(files[id]) && files[id].nodes == [] && LastOk(files[id])
    {
      hide LruList.Ok, CachedFile.Ok, Total, Ranges, Sum, Members, Records, Sizes, Distinct, Consistent, ListOk, FileOk, Pages, Sorted;
      ghost var (was, ids, sizes) := (files, fileIDs, Sizes());
      NotListed(id);
      FilesAre(sizes);
      var file := new CachedFile(id);
      files := files[id := file];
      fileIDs := fileIDs + [id];
      Entered(id, was, ids, sizes);
    }

    lemma FilesAre(sizes: map<int, int>)
      requires Healthy() && sizes == Sizes()
      ensures sizes.Keys == files.Keys && lru.Ok() && Distinct(fileIDs)
      ensures forall id :: id in files ==> ListOk(files[id], id) && Total(Ranges(files[id].nodes)) == sizes[id]
      ensures Members(lru.nodes) == set h, i | h in files && 0 <= i < |files[h].nodes| :: files[h].nodes[i]
      ensures freePages + Sum(fileIDs, sizes) == totalUsable && forall i :: i in fileIDs <==> i in files
    {
      hide Ranges, Sorted, LruList.Ok, ListOk, Total, Sum;
      forall id | id in files
        ensures FileOk(id)
      {
      }
    }

    lemma NotListed(id: int)
      requires Healthy() && id !in files
      ensures id !in fileIDs
    {
    }

    /** With one more file, which has no records yet, the cache is as healthy as it was. */
    lemma Entered(id: int, was: map<int, CachedFile>, ids: seq<int>, sizes: map<int, int>)
      requires id !in was && id in files && files == was[id := files[id]] && fileIDs == ids + [id] && id !in ids
      requires sizes.Keys == was.Keys && lru.Ok() && Distinct(ids) && files[id].id == id && files[id].Ok() && files[id].nodes == []
      requires forall other :: other in was ==>
                 ListOk(was[other], other) && Total(Ranges(was[other].nodes)) == sizes[other]
      requires Members(lru.nodes) == set h, i | h in was && 0 <= i < |was[h].nodes| :: was[h].nodes[i]
      requires freePages + Sum(ids, sizes) == totalUsable && forall i :: i in ids <==> i in was
      ensures Healthy()
    {
      hide Sorted, LruList.Ok, CachedFile.Ok, Total, Ranges, Sum, Distinct, Members;
      var sizes' := sizes[id := 0];
      NoRanges(files[id]);
      KnownTwice(ids, id);
      SumUnknown(ids, sizes, id, 0);
      SumAppend(ids, sizes', id);
      assert Sizes() == sizes';
      OldRecords(id, was);
    }

    /** The records are those of the files there were before. */
    lemma OldRecords(id: int, was: map<int, CachedFile>)
      requires id in files && files[id].nodes == [] && was == files - {id}
      ensures Records() == set h, i | h in was && 0 <= i < |was[h].nodes| :: was[h].nodes[i]
    {
      forall n | n in Records()
        ensures exists h, i :: h in was && 0 <= i < |was[h].nodes| && was[h].nodes[i] == n
      {
        var h, i :| h in files && 0 <= i < |files[h].nodes| && n == files[h].nodes[i];
        assert h in was && was[h] == files[h];
      }
    }

    lemma NoRanges(file: CachedFile)
      requires file.nodes == []
      ensures Sorted(Ranges(file.nodes)) && Total(Ranges(file.nodes)) == 0
    {
    }

    // -------------------------------------------------------------- one file and the others

    lemma RecordsOf(id: int)
      requires id in files && FileOk(id)
      ensures files[id].id == id && files[id].Ok() && Sorted(Ranges(files[id].nodes))
      ensures forall n :: n in files[id].nodes ==> n.fileid == id && n in Records()
    {
    }

    /** The records of one file and of the others share the LRU list. */
    lemma Separate(id: int, others: set<PageRange>, free: int, held: set<PageRange>)
      requires Consistent(free, held) && id in files && others == Records() - Members(files[id].nodes)
      ensures ListOk(files[id], id) && Apart(files[id], others)
      ensures Members(lru.nodes) == others + Members(files[id].nodes) - held
      ensures forall n :: n in files[id].nodes && n !in held ==> n in lru.nodes
      ensures forall n :: n in others <==> exists other :: other in files && other != id && n in files[other].nodes
    {
      hide Ranges, Sorted, LruList.Ok, CachedFile.Ok, Sum, Sizes;
      var file := files[id];
      assert FileOk(id);
      RecordsOf(id);
      forall n | n in file.nodes && n !in held
        ensures n in lru.nodes
      {
        assert n in Members(lru.nodes);
      }
      forall other, n | other in files && other != id && n in files[other].nodes
        ensures n in others
      {
        assert FileOk(other);
        RecordsOf(other);
      }
      forall n | n in others
        ensures n.fileid != id && exists other :: other in files && other != id && n in files[other].nodes
      {
        var h :| h in files && n in files[h].nodes;
        assert FileOk(h);
        RecordsOf(h);
      }
    }

    /** The records and pages of all other files are as they were. */
    twostate predicate OthersKept(id: int)
      reads this, files.Values, Records()
    {
      && files == old(files) && fileIDs == old(fileIDs)
      && forall other :: other in files && other != id ==> FileKept(files[other])
    }

    static twostate predicate FileKept(f: CachedFile)
      reads f, f.nodes
    {
      && f.prHead == old(f.prHead) && f.prLast == old(f.prLast) && f.nodes == old(f.nodes)
      && Ranges(f.nodes) == old(Ranges(f.nodes))
    }

    /** The records are those of the changed file and the others. */
    lemma RecordsSplit(id: int, others: set<PageRange>)
      requires id in files
      requires forall n :: n in others <==> exists other :: other in files && other != id && n in files[other].nodes
      ensures Records() == others + Members(files[id].nodes)
    {
    }

    /** The cache is consistent when one file is, given that the others were and the pages add up. */
    lemma ConsistentAgain(id: int, others: set<PageRange>, sizes: map<int, int>, free: int, held: set<PageRange>)
      requires id in files && FileOk(id) && lru.Ok() && sizes.Keys == files.Keys
      requires held <= others + Members(files[id].nodes)
      requires Members(lru.nodes) == others + Members(files[id].nodes) - held
      requires forall n :: n in others <==> exists other :: other in files && other != id && n in files[other].nodes
      requires forall other :: other in files && other != id ==> FileOk(other) && Pages(other) == sizes[other]
      requires Distinct(fileIDs) && (forall i :: i in fileIDs <==> i in files)
      requires free + Sum(fileIDs, sizes) - sizes[id] + Pages(id) == totalUsable
      ensures Consistent(free, held)
    {
      hide Pages, Sum, LruList.Ok, ListOk, Ranges, Total;
      assert Sizes() == sizes[id := Pages(id)];
      SumUpdate(fileIDs, sizes, id, Pages(id));
      RecordsSplit(id, others);
    }

    /** Where a record of the LRU list is in its file. */
    lemma Home(i: nat, free: int, held: set<PageRange>) returns (k: nat)
      requires Consistent(free, held) && i < |lru.nodes|
      ensures var pr := lru.nodes[i];
              && pr.fileid in files && FileOk(pr.fileid)
              && k < |files[pr.fileid].nodes| && files[pr.fileid].nodes[k] == pr
              && Alone(lru, i)
    {
      hide Ranges, Sorted, CachedFile.Ok, Sum, Sizes;
      var pr := lru.nodes[i];
      assert pr in Members(lru.nodes);
      var id :| id in files && pr in files[id].nodes;
      assert FileOk(id);
      RecordsOf(id);
      var file := files[id];
      k :| 0 <= k < |file.nodes| && file.nodes[k] == pr;
      Separate(id, Records() - Members(file.nodes), free, held);
      assert forall n :: n in lru.nodes ==> n in Members(lru.nodes);
      FileIds(file);
      RecordsDiffer(file, lru, k, i);
    }

    // -------------------------------------------------------------- reclaiming

    /** Takes a record off its file's list and off the LRU list. */
    method Unhook(file: CachedFile, pr: PageRange, ghost i: nat, ghost k: nat)
      requires lru.Ok() && i < |lru.nodes| && lru.nodes[i] == pr && Alone(lru, i)
      requires ListOk(file, file.id) && k < |file.nodes| && file.nodes[k] == pr
      modifies lru, Members(lru.nodes)`lruNext, Members(lru.nodes)`lruPrev
      modifies file`prHead, file`nodes, file.nodes`next, file.nodes`prev
      ensures lru.Ok() && lru.nodes == Remove(old(lru.nodes), i)
      ensures ListOk(file, file.id) && file.nodes == Remove(old(file.nodes), k)
      ensures Members(lru.nodes) == old(Members(lru.nodes)) - {pr} && Members(file.nodes) == old(Members(file.nodes)) - {pr}
      ensures Total(Ranges(file.nodes)) == old(Total(Ranges(file.nodes))) - (pr.end - pr.start)
    {
      hide Ranges, Sorted, CachedFile.Ok, LruList.Ok, Remove, Total;
      ghost var rest := Remove(file.nodes, k);
      RangesRemove(file.nodes, k);
      SortedRemove(Ranges(file.nodes), k);
      TotalRemove(Ranges(file.nodes), k);
      RangesAre(file.nodes);
      ghost var left := Ranges(rest);
      SameIsSelf(file, k);
      ListsDistinct(file, lru);
      MembersRemove(file.nodes, k);
      MembersRemove(lru.nodes, i);
      var found := file.Delete(pr, k);
      assert forall j :: 0 <= j < |lru.nodes| ==> lru.nodes[j] in Members(lru.nodes);
      found := lru.Delete(pr, i);
      assert Ranges(rest) == left;
    }

    /** What taking out record `i` of the LRU list needs to know. */
    lemma Evictable(id: int, others: set<PageRange>, i: nat, free: int, held: set<PageRange>)
      requires Consistent(free, held) && i < |lru.nodes| && lru.nodes[i].fileid == id && id in files
      requires (forall n :: n in held ==> n.fileid != id) && others == Records() - Members(files[id].nodes)
      ensures lru.Ok() && files[id].id == id && held <= others && lru.nodes[i] !in others
      ensures Members(lru.nodes) == others + Members(files[id].nodes) - held
      ensures forall n :: n in files[id].nodes ==> n in Members(lru.nodes)
      ensures forall n :: n in others <==> exists other :: other in files && other != id && n in files[other].nodes
      ensures forall other :: other in files ==> ListOk(files[other], other)
      ensures forall other, n :: other in files && other != id && n in files[other].nodes ==> n !in files[id].nodes
      ensures Distinct(fileIDs) && (forall h :: h in fileIDs <==> h in files)
      ensures free + Sum(fileIDs, Sizes()) == totalUsable
      ensures Sizes().Keys == files.Keys && forall h :: h in files ==> Sizes()[h] == Pages(h)
    {
      hide Ranges, Sorted, LruList.Ok, CachedFile.Ok, Sum;
      Separate(id, others, free, held);
      RecordsOf(id);
      forall other | other in files
        ensures ListOk(files[other], other)
      {
        assert FileOk(other);
      }
    }

    /** Drops a record from its file and from the LRU list; the other files are not touched. */
    method Evict(pr: PageRange, ghost i: nat, ghost free: int, ghost held: set<PageRange>)
      requires Consistent(free, held) && i < |lru.nodes| && lru.nodes[i] == pr
      requires forall n :: n in held ==> n.fileid != pr.fileid
      modifies lru, Members(lru.nodes)`next, Members(lru.nodes)`prev, Members(lru.nodes)`lruNext, Members(lru.nodes)`lruPrev
      modifies files.Values`prHead, files.Values`nodes
      ensures Consistent(free + (pr.end - pr.start), held) && lru.nodes == Remove(old(lru.nodes), i)
      ensures forall id :: id in files && id != pr.fileid ==> FileKept(files[id])
    {
      hide Ranges, Sorted, CachedFile.Ok, LruList.Ok, Sum, Sizes, Total, Remove, Alone, Consistent, Distinct;
      ghost var k := Home(i, free, held);
      var id := pr.fileid;
      var file := files[id];
      ghost var others := Records() - Members(file.nodes);
      Evictable(id, others, i, free, held);
      Unhook(file, pr, i, k);
      forall other | other in files && other != id
        ensures FileOk(other) && Pages(other) == old(Pages(other)) && FileKept(files[other])
      {
        assert old(ListOk(files[other], other)) && files[other] != file;
        assert forall n :: n in files[other].nodes ==> n !in old(file.nodes);
        assert Ranges(files[other].nodes) == old(Ranges(files[other].nodes));
        assert forall n :: n in files[other].nodes ==> n.next == old(n.next) && n.prev == old(n.prev);
        assert files[other].Ok() == old(files[other].Ok());
      }
      assert forall other :: other in files && other != id ==> files[other].nodes == old(files[other].nodes);
      ConsistentAgain(id, others, old(Sizes()), free + (pr.end - pr.start), held);
    }

    /** Drops the first pages of a record. */
    method Shorten(pr: PageRange, n: int, ghost i: nat, ghost free: int, ghost held: set<PageRange>)
      requires Consistent(free, held) && i < |lru.nodes| && lru.nodes[i] == pr && 0 < n < pr.end - pr.start
      requires forall h :: h in held ==> h.fileid != pr.fileid
      modifies pr`start
      ensures Consistent(free + n, held) && pr.start == old(pr.start) + n
      ensures forall id :: id in files && id != pr.fileid ==> FileKept(files[id])
    {
      hide Ranges, Sorted, CachedFile.Ok, LruList.Ok, Sum, Sizes, Total, Alone, Consistent, Distinct;
      ghost var k := Home(i, free, held);
      var id := pr.fileid;
      ghost var file := files[id];
      ghost var others := Records() - Members(file.nodes);
      ghost var list := Ranges(file.nodes);
      Evictable(id, others, i, free, held);
      RangesAre(file.nodes);
      RangesShortened(list, k, n);
      FileDistinct(id);
      pr.start := pr.start + n;
      RangesAre(file.nodes);
      assert Ranges(file.nodes) == list[k := list[k].(start := list[k].start + n)];
      assert file.Ok() == old(file.Ok()) && lru.Ok() == old(lru.Ok());
      forall other | other in files && other != id
        ensures FileOk(other) && Pages(other) == old(Pages(other)) && FileKept(files[other])
      {
        assert old(ListOk(files[other], other)) && files[other] != file;
        assert forall h :: h in files[other].nodes ==> h != pr;
        assert Ranges(files[other].nodes) == old(Ranges(files[other].nodes));
        assert forall n :: n in files[other].nodes ==> n.next == old(n.next) && n.prev == old(n.prev);
        assert files[other].Ok() == old(files[other].Ok());
      }
      ConsistentAgain(id, others, old(Sizes()), free + n, held);
    }

    lemma FileDistinct(id: int)
      requires id in files && FileOk(id)
      ensures Distinct(files[id].nodes)
    {
    }

    /** A record of the LRU list holds at least one page. */
    lemma RecordHasPages(i: nat, free: int, held: set<PageRange>)
      requires Consistent(free, held) && i < |lru.nodes|
      ensures lru.nodes[i].start < lru.nodes[i].end
    {
      var k := Home(i, free, held);
      RecordNonEmpty(files[lru.nodes[i].fileid], k);
    }

    lemma LruLinks(i: nat, free: int, held: set<PageRange>)
      requires Consistent(free, held) && i < |lru.nodes|
      ensures lru.nodes[i].lruPrev == (if i > 0 then lru.nodes[i - 1] else null) && Distinct(lru.nodes)
    {
    }

    lemma LruEnd(free: int, held: set<PageRange>)
      requires Consistent(free, held)
      ensures lru.end == (if lru.nodes == [] then null else lru.nodes[|lru.nodes| - 1]) && Distinct(lru.nodes)
    {
    }

    /** A file in which nothing may be reclaimed. */
    ghost predicate Safe(id: int)
      reads this`files, files.Values`nodes, files.Values`prHead
      reads Records()`start, Records()`end, Records()`flags, Records()`next, Records()`prev
      requires id in files
    {
      NoCold(Ranges(files[id].nodes))
    }

    lemma SafeRecord(id: int, k: nat)
      requires id in files && k < |files[id].nodes| && Safe(id)
      ensures !Cold(files[id].nodes[k].flags)
    {
      RangesAre(files[id].nodes);
    }

    ghost predicate AllSafe(held: set<PageRange>)
      reads this`files, files.Values`nodes, files.Values`prHead
      reads Records()`start, Records()`end, Records()`flags, Records()`next, Records()`prev
    {
      forall h :: h in held ==> h.fileid in files && Safe(h.fileid)
    }

    /** A record that may be reclaimed is of a file that is not safe. */
    lemma ColdIsUnsafe(i: nat, free: int, held: set<PageRange>)
      requires Consistent(free, held) && AllSafe(held) && i < |lru.nodes| && Cold(lru.nodes[i].flags)
      ensures lru.nodes[i].fileid in files && !Safe(lru.nodes[i].fileid)
      ensures forall h :: h in held ==> h.fileid != lru.nodes[i].fileid
    {
      hide Cold, Ranges, CachedFile.Ok;
      var k := Home(i, free, held);
      if Safe(lru.nodes[i].fileid) {
        SafeRecord(lru.nodes[i].fileid, k);
      }
    }

    /** One record of the scan for pages to free. */
    method FreeRecord(pr: PageRange, ghost i: nat, left: int, ghost l: seq<Entry>, ghost n: int, ghost free: int,
                      ghost held: set<PageRange>)
      returns (left': int, prevPr: PageRange?)
      requires Consistent(free, held) && AllSafe(held)
      requires i < |lru.nodes| && lru.nodes[i] == pr && left > 0
      requires Reclaiming(l, n, Entries(lru.nodes[..i + 1]), Entries(lru.nodes[i + 1..]), left)
      modifies lru, Members(lru.nodes), files.Values`prHead, files.Values`nodes
      ensures Consistent(free + left - left', held)
      ensures var size := old(pr.end - pr.start);
              && left' == left - (if Cold(old(pr.flags)) then Min(size, left) else 0)
              && lru.nodes == if Cold(old(pr.flags)) && size <= left then Remove(old(lru.nodes), i) else old(lru.nodes)
      ensures i <= |lru.nodes| && prevPr == if i > 0 then lru.nodes[i - 1] else null
      ensures Entries(lru.nodes[..i]) == old(Entries(lru.nodes[..i]))
      ensures Reclaiming(l, n, Entries(lru.nodes[..i]), Entries(lru.nodes[i..]), left')
      ensures Members(lru.nodes) <= old(Members(lru.nodes))
      ensures forall id :: id in files && old(Safe(id)) ==> FileKept(files[id])
    {
      hide Entries, Reclaim, Reclaiming, Consistent, Remove, Safe, Records, ListOk, Sizes, Sum;
      ghost var x := AsEntry(pr);
      ghost var (before, after) := (lru.nodes[..i], lru.nodes[i + 1..]);
      ghost var (ahead, done) := (Entries(before), Entries(after));
      prevPr, left' := pr.lruPrev, left;
      LruLinks(i, free, held);
      RecordHasPages(i, free, held);
      EntriesSplit(lru.nodes, i);
      ReclaimingStep(l, n, ahead, x, done, left);
      RemoveParts(lru.nodes, i);
      MembersRemove(lru.nodes, i);
      if !(pr.flags.dirty || pr.flags.locked || pr.flags.count != 0) {
        ColdIsUnsafe(i, free, held);
        if pr.end - pr.start <= left {
          left' := left - (pr.end - pr.start);
          Evict(pr, i, free, held);
        } else {
          Shorten(pr, left, i, free, held);
          left' := 0;
          EntriesSplit(lru.nodes, i);
        }
        assert Entries(before) == ahead && Entries(after) == done;
      }
    }

    /** The LRU list holds the same pages as the page tables, each once; but not those of files with a record in hand. */
    lemma LruHoldsPages(free: int, held: set<PageRange>)
      requires Consistent(free, held)
      ensures NonEmpty(Entries(lru.nodes)) && Disjoint(Entries(lru.nodes))
      ensures forall id, p :: id in files && (forall h :: h in held ==> h.fileid != id) ==>
                At(Ranges(files[id].nodes), p) == PageOf(Entries(lru.nodes), id, p)
    {
      var l := Entries(lru.nodes);
      EntriesAre(lru.nodes);
      hide Entries, Ranges, Sorted, CachedFile.Ok, LruList.Ok, Sum, Sizes, At, PageOf;
      forall i | 0 <= i < |l|
        ensures Size(l[i]) > 0
      {
        RecordHasPages(i, free, held);
      }
      forall i, j, p | 0 <= i < j < |l| && Covers(l[i], l[i].file, p)
        ensures !Covers(l[j], l[i].file, p)
      {
        if l[j].file == l[i].file {
          RecordsApart(i, j, p, free, held);
        }
      }
      forall id, p | id in files && (forall h :: h in held ==> h.fileid != id)
        ensures At(Ranges(files[id].nodes), p) == PageOf(l, id, p)
      {
        PageAgrees(id, p, free, held);
      }
    }

    lemma RecordsApart(i: nat, j: nat, p: int, free: int, held: set<PageRange>)
      requires Consistent(free, held) && i < j < |lru.nodes| && lru.nodes[i].start <= p < lru.nodes[i].end
      requires lru.nodes[i].fileid == lru.nodes[j].fileid
      ensures !(lru.nodes[j].start <= p < lru.nodes[j].end)
    {
      hide Ranges, CachedFile.Ok, Sum, Sizes, Alone;
      var a := Home(i, free, held);
      var b := Home(j, free, held);
      LruLinks(i, free, held);
      RangesAre(files[lru.nodes[i].fileid].nodes);
    }

    lemma PageAgrees(id: int, p: int, free: int, held: set<PageRange>)
      requires Consistent(free, held) && id in files && forall h :: h in held ==> h.fileid != id
      ensures At(Ranges(files[id].nodes), p) == PageOf(Entries(lru.nodes), id, p)
    {
      hide Ranges, Entries, CachedFile.Ok, LruList.Ok, Sum, Sizes, At, PageOf, Alone, Sorted;
      var (list, l) := (Ranges(files[id].nodes), Entries(lru.nodes));
      RangesAre(files[id].nodes);
      EntriesAre(lru.nodes);
      assert FileOk(id);
      if PageOf(l, id, p).Some? {
        var i := PageOfCovered(l, id, p);
        var k := Home(i, free, held);
        CoveredIsAt(list, k, p);
      } else if At(list, p).Some? {
        var k := AtCovered(list, p);
        RecordsOf(id);
        assert files[id].nodes[k] in Members(lru.nodes);
        var i :| 0 <= i < |lru.nodes| && lru.nodes[i] == files[id].nodes[k];
        CoveredHasPage(l, i, id, p);
      }
    }

    /** The pages of a file before and after reclaiming. */
    lemma PagesDropped(id: int, p: int, l: seq<Entry>, n: int, before: Option<Flags>, free: int, held: set<PageRange>)
      requires Consistent(free, held) && id in files && (forall h :: h in held ==> h.fileid != id) && n >= 0
      requires NonEmpty(l) && Disjoint(l) && before == PageOf(l, id, p) && Entries(lru.nodes) == Reclaim(l, n).0
      ensures DroppedIfCold(before, At(Ranges(files[id].nodes), p))
    {
      hide Reclaim, PageOf, At, Ranges, Entries, Consistent, DroppedIfCold;
      PageAgrees(id, p, free, held);
      ReclaimsOnlyColdPages(l, n, id, p);
    }

    /** The records that are left: those that reclaiming does not evict. */
    ghost predicate Survivors(was: seq<PageRange>, l: seq<Entry>, n: int)
      reads lru`nodes
      requires |was| == |l|
    {
      forall k :: 0 <= k < |was| ==> (was[k] in lru.nodes <==> !Evicted(l, n, k))
    }

    /** The scan has come to position `i`; `was` is the LRU list it began with and `l` the same as values. */
    ghost predicate Scanned(was: seq<PageRange>, l: seq<Entry>, n: int, i: nat, left: int)
      reads lru`nodes, lru.nodes`start, lru.nodes`end, lru.nodes`flags
    {
      && i <= |lru.nodes| && i <= |was| == |l| && Distinct(was)
      && lru.nodes[..i] == was[..i] && Entries(lru.nodes[..i]) == l[..i]
      && Seen(l, n, i, left) && Reclaiming(l, n, l[..i], Entries(lru.nodes[i..]), left)
      && forall k :: i <= k < |was| ==> (was[k] in lru.nodes <==> !Evicted(l, n, k))
    }

    lemma ScanStarts(n: int, free: int, held: set<PageRange>)
      requires Consistent(free, held) && n >= 0
      ensures Scanned(lru.nodes, Entries(lru.nodes), n, |lru.nodes|, n)
    {
      hide Entries, Reclaim, Reclaiming, Consistent, Seen, Evicted;
      var l := Entries(lru.nodes);
      LruEnd(free, held);
      EntriesWhole(lru.nodes, |lru.nodes|);
      assert l[..|l|] == l && lru.nodes[..|lru.nodes|] == lru.nodes;
      ReclaimingStarts(l, n);
      SeenStarts(l, n);
    }

    lemma ScanEnds(was: seq<PageRange>, l: seq<Entry>, n: int, i: nat, left: int)
      requires Scanned(was, l, n, i, left) && (i == 0 || left == 0) && NonEmpty(l)
      ensures Reclaim(l, n) == (Entries(lru.nodes), left) && Survivors(was, l, n)
    {
      hide Entries, Reclaim, Seen, Evicted, NonEmpty;
      EntriesWhole(lru.nodes, i);
      ReclaimingEnds(l, n, l[..i], Entries(lru.nodes[i..]), left);
      forall k | 0 <= k < |was|
        ensures was[k] in lru.nodes <==> !Evicted(l, n, k)
      {
        if k < i {
          SeenEnough(l, n, i, k);
          assert lru.nodes[..i][k] == was[k];
        }
      }
    }

    /** The scan over the records before, with record `i` gone or not. */
    lemma ScanStep(was: seq<PageRange>, nodes: seq<PageRange>, l: seq<Entry>, n: int, i: nat)
      requires i < |nodes| && i < |was| == |l| && Distinct(was) && Distinct(nodes) && nodes[..i + 1] == was[..i + 1]
      requires forall k :: i < k < |was| ==> (was[k] in nodes <==> !Evicted(l, n, k))
      requires lru.nodes == if Evicted(l, n, i) then Remove(nodes, i) else nodes
      ensures i <= |lru.nodes| && lru.nodes[..i] == was[..i]
      ensures forall k :: i <= k < |was| ==> (was[k] in lru.nodes <==> !Evicted(l, n, k))
    {
      hide Evicted, Remove;
      assert nodes[i] == nodes[..i + 1][i] == was[i];
      assert nodes[..i] == nodes[..i + 1][..i] == was[..i];
      RemoveParts(nodes, i);
      InRemoved(nodes, i);
    }

    /** One record of the scan, and how far the scan has come then. */
    method FreeNext(pr: PageRange, ghost i: nat, left: int, ghost was: seq<PageRange>, ghost l: seq<Entry>, ghost n: int,
                    ghost free: int, ghost held: set<PageRange>)
      returns (left': int, prevPr: PageRange?)
      requires Consistent(free, held) && AllSafe(held) && NonEmpty(l)
      requires i < |lru.nodes| && lru.nodes[i] == pr && left > 0 && Scanned(was, l, n, i + 1, left)
      modifies lru, Members(lru.nodes), files.Values`prHead, files.Values`nodes
      ensures Consistent(free + left - left', held) && left' >= 0
      ensures i <= |lru.nodes| && prevPr == if i > 0 then lru.nodes[i - 1] else null
      ensures Scanned(was, l, n, i, left') && Members(lru.nodes) <= old(Members(lru.nodes))
      ensures forall id :: id in files && old(Safe(id)) ==> FileKept(files[id])
    {
      hide Entries, Reclaim, Cold, Reclaiming, Consistent, Safe, Records, NonEmpty, Seen, Evicted, Remove, AllSafe, Members, FileKept;
      ghost var nodes := lru.nodes;
      LruEnd(free, held);
      SeenStep(l, n, i + 1, left);
      EntriesSplit(lru.nodes, i);
      assert l[i] == l[..i + 1][i] == AsEntry(pr);
      assert l[..i] == l[..i + 1][..i];
      left', prevPr := FreeRecord(pr, i, left, l, n, free, held);
      ScanStep(was, nodes, l, n, i);
    }

    /** The scan for `n` pages to free; the counter is set afterwards. */
    method FreeRecords(n: int, ghost free: int, ghost held: set<PageRange>) returns (left: int)
      requires Consistent(free, held) && AllSafe(held) && n >= 0
      modifies lru, Members(lru.nodes), files.Values`prHead, files.Values`nodes
      ensures Consistent(free + n - left, held) && Members(lru.nodes) <= old(Members(lru.nodes))
      ensures Reclaim(old(Entries(lru.nodes)), n) == (Entries(lru.nodes), left)
      ensures Survivors(old(lru.nodes), old(Entries(lru.nodes)), n)
      ensures forall id :: id in files && old(Safe(id)) ==> FileKept(files[id])
    {
      hide Entries, Reclaim, Consistent, Records, NonEmpty, Disjoint, Scanned, Survivors, Members, Ranges, NoCold;
      ghost var (l, was) := (Entries(lru.nodes), lru.nodes);
      LruHoldsPages(free, held);
      left := n;
      LruEnd(free, held);
      ScanStarts(n, free, held);
      var pr := lru.end;
      ghost var i := |lru.nodes|;
      while pr != null && left != 0
        invariant 0 <= i <= |lru.nodes| && pr == (if i > 0 then lru.nodes[i - 1] else null) && left >= 0
        invariant Consistent(free + n - left, held) && Members(lru.nodes) <= old(Members(lru.nodes))
        invariant Scanned(was, l, n, i, left)
        invariant forall id :: id in files && old(Safe(id)) ==> FileKept(files[id]) && Safe(id)
        decreases i
      {
        var prevPr: PageRange?;
        left, prevPr := FreeNext(pr, i - 1, left, was, l, n, free + n - left, held);
        pr := prevPr;
        i := i - 1;
      }
      ScanEnds(was, l, n, i, left);
    }

    lemma LastRecord(id: int, free: int, held: set<PageRange>)
      requires Consistent(free, held) && id in files && LastOk(files[id])
      ensures files[id].prLast != null && files[id].prLast in lru.nodes ==>
                files[id].prLast.fileid == id && files[id].prLast !in held
    {
      hide Ranges, Sorted, CachedFile.Ok, LruList.Ok, Sum, Sizes;
      assert FileOk(id);
      RecordsOf(id);
      assert forall n :: n in lru.nodes ==> n in Members(lru.nodes);
    }

    /** The remembered position of a file is still good exactly if its record has not been evicted. */
    lemma LastSurvives(id: int, k: nat, was: seq<PageRange>, l: seq<Entry>, n: int, free: int, held: set<PageRange>)
      requires Consistent(free, held) && id in files && k < |was| == |l| && Survivors(was, l, n)
      requires was[k] == files[id].prLast && was[k].fileid == id && was[k] !in held
      ensures LastOk(files[id]) <==> !Evicted(l, n, k)
    {
      hide Ranges, Sorted, CachedFile.Ok, LruList.Ok, Sum, Sizes, Evicted;
      assert FileOk(id);
      RecordsOf(id);
      assert was[k] in lru.nodes <==> was[k] in Members(lru.nodes);
      if was[k] in lru.nodes {
        var h :| h in files && was[k] in files[h].nodes;
        assert FileOk(h);
        RecordsOf(h);
      }
    }

    /** Frees `n` pages from the least recent end, if that many are cold (`lru_free_pages`).  Records in `held` are linked
        in their file but not on the LRU list yet, and their `size` pages are not counted. */
    method LruFreePages(n: int, ghost size: int, ghost held: set<PageRange>) returns (ok: bool)
      requires Consistent(freePages - size, held) && AllSafe(held) && n >= 0
      modifies this`freePages, lru, Members(lru.nodes), files.Values`prHead, files.Values`nodes
      ensures Consistent(freePages - size, held) && Members(lru.nodes) <= old(Members(lru.nodes))
      ensures var (kept, left) := Reclaim(old(Entries(lru.nodes)), n);
              Entries(lru.nodes) == kept && freePages == old(freePages) + n - left
      ensures var available := old(Free(Entries(lru.nodes)));
              (ok <==> n <= available) && freePages == old(freePages) + Min(n, available)
      ensures forall id :: id in files && old(Safe(id)) ==> FileKept(files[id])
      ensures forall id, p :: id in files ==>
                DroppedIfCold(old(At(Ranges(files[id].nodes), p)), At(Ranges(files[id].nodes), p))
      ensures forall id, k ::
                (id in files && 0 <= k < |old(lru.nodes)| && old(lru.nodes)[k] == files[id].prLast && old(LastOk(files[id])))
                ==> (LastOk(files[id]) <==> !Evicted(old(Entries(lru.nodes)), n, k))
    {
      hide Entries, Reclaim, At, DroppedIfCold, Ranges, FileOk, ListOk, Records, Sizes, Sum, Members, LastOk, PageOf, Evicted,
        Survivors, NoCold, NonEmpty, Disjoint, Free, PagesIn;
      ghost var (l, was, free) := (Entries(lru.nodes), lru.nodes, freePages - size);
      LruHoldsPages(free, held);
      ReclaimFrees(l, n);
      forall id | id in files && LastOk(files[id])
        ensures files[id].prLast != null && files[id].prLast in was ==>
                  files[id].prLast.fileid == id && files[id].prLast !in held
      {
        LastRecord(id, free, held);
      }
      var left := FreeRecords(n, free, held);
      freePages := freePages + n - left;
      ok := left == 0;
      forall id, p | id in files
        ensures DroppedIfCold(old(At(Ranges(files[id].nodes), p)), At(Ranges(files[id].nodes), p))
      {
        if old(Safe(id)) {
          assert FileKept(files[id]);
          assert Ranges(files[id].nodes) == old(Ranges(files[id].nodes));
          Undropped(At(Ranges(files[id].nodes), p));
        } else {
          PagesDropped(id, p, l, n, old(At(Ranges(files[id].nodes), p)), free + n - left, held);
        }
      }
      forall id, k | id in files && 0 <= k < |was| && was[k] == files[id].prLast && old(LastOk(files[id]))
        ensures LastOk(files[id]) <==> !Evicted(l, n, k)
      {
        LastSurvives(id, k, was, l, n, free + n - left, held);
      }
    }

    lemma Undropped(x: Option<Flags>)
      ensures DroppedIfCold(x, x)
    {
    }

    // -------------------------------------------------------------- the walk: pages that are not cached

    const MIN_PAGES_FREED := 32

    method NewMissing(id: int, op: Op, s: int, e: int) returns (tmp: PageRange)
      ensures fresh(tmp) && tmp.fileid == id && tmp.Value() == Range(s, e, MissFlags(op))
      ensures tmp.next == null && tmp.prev == null
    {
      tmp := new PageRange(id, s, e, Requested(op));
      tmp.flags := tmp.flags.(locked := true);
      if !op.read {
        tmp.flags := tmp.flags.(dirty := true);
      }
    }

    /** A record for pages that are not cached is linked into its file. */
    static method LinkNew(file: CachedFile, tmp: PageRange, pre: PageRange?, cur: PageRange?, ghost k: nat)
      requires ListOk(file, file.id) && k <= |file.nodes| && file.Holds(cur, k) && file.Precedes(pre, k)
      requires tmp !in file.nodes && tmp.fileid == file.id && tmp.next == null && tmp.prev == null
      requires tmp.start < tmp.end && Gap(Ranges(file.nodes), k, tmp.start, tmp.end)
      modifies file`prHead, file`nodes, file.nodes`next, file.nodes`prev, tmp`next, tmp`prev
      ensures ListOk(file, file.id) && file.nodes == Insert(old(file.nodes), k, tmp)
      ensures Members(file.nodes) == old(Members(file.nodes)) + {tmp}
      ensures Ranges(file.nodes) == Insert(old(Ranges(file.nodes)), k, tmp.Value())
      ensures Total(Ranges(file.nodes)) == old(Total(Ranges(file.nodes))) + tmp.end - tmp.start
    {
      hide CachedFile.Ok, Insert, Ranges, Sorted, Members, CachedFile.Holds, CachedFile.Precedes, Total, Gap;
      ghost var (nodes, list) := (file.nodes, Ranges(file.nodes));
      file.LinkBefore(tmp, pre, cur, k);
      MembersInsert(nodes, k, tmp);
      RangesInsert(nodes, k, tmp);
      InsertedInGap(list, k, tmp.Value());
    }

    /** The other files are not touched by that. */
    method LinkBeside(file: CachedFile, op: Op, s: int, e: int, pre: PageRange?, cur: PageRange?, ghost k: nat)
      returns (tmp: PageRange)
      requires Healthy() && file.id in files && files[file.id] == file && s < e && k <= |file.nodes|
      requires file.Holds(cur, k) && file.Precedes(pre, k) && Gap(Ranges(file.nodes), k, s, e)
      modifies file`prHead, file`nodes, file.nodes`next, file.nodes`prev
      ensures fresh(tmp) && tmp.fileid == file.id && tmp.Value() == Range(s, e, MissFlags(op))
      ensures lru.Ok() && FileOk(file.id) && file.nodes == Insert(old(file.nodes), k, tmp)
      ensures Members(file.nodes) == old(Members(file.nodes)) + {tmp}
      ensures Ranges(file.nodes) == Insert(old(Ranges(file.nodes)), k, Range(s, e, MissFlags(op)))
      ensures Total(Ranges(file.nodes)) == old(Total(Ranges(file.nodes))) + e - s
      ensures OthersKept(file.id) && tmp !in Members(lru.nodes)
      ensures forall other :: other in files && other != file.id ==> FileOk(other) && Pages(other) == old(Pages(other))
    {
      hide LruList.Ok, CachedFile.Ok, Insert, Ranges, Sorted, CachedFile.Holds, CachedFile.Precedes, Sum, Sizes, Total,
        Consistent, Distinct, Gap, MissFlags;
      var id := file.id;
      Linkable(id, Records() - Members(file.nodes));
      tmp := NewMissing(id, op, s, e);
      LinkNew(file, tmp, pre, cur, k);
      forall other | other in files && other != id
        ensures FileOk(other) && Pages(other) == old(Pages(other)) && FileKept(files[other])
      {
        assert old(ListOk(files[other], other)) && files[other] != file;
        assert forall n :: n in files[other].nodes ==> n !in old(file.nodes);
        assert Ranges(files[other].nodes) == old(Ranges(files[other].nodes));
        assert forall n :: n in files[other].nodes ==> n.next == old(n.next) && n.prev == old(n.prev);
        assert files[other].Ok() == old(files[other].Ok());
      }
      assert forall n :: n in Members(lru.nodes) ==> n in old(lru.nodes);
    }

    /** It is not on the LRU list yet. */
    method LinkMissing(file: CachedFile, op: Op, s: int, e: int, pre: PageRange?, cur: PageRange?, ghost k: nat)
      returns (tmp: PageRange)
      requires Healthy() && file.id in files && files[file.id] == file && s < e && k <= |file.nodes|
      requires file.Holds(cur, k) && file.Precedes(pre, k) && Gap(Ranges(file.nodes), k, s, e)
      modifies file`prHead, file`nodes, file.nodes`next, file.nodes`prev
      ensures fresh(tmp) && tmp.fileid == file.id && tmp.Value() == Range(s, e, MissFlags(op))
      ensures Consistent(freePages - (e - s), {tmp}) && OthersKept(file.id)
      ensures file.nodes == Insert(old(file.nodes), k, tmp)
      ensures Ranges(file.nodes) == Insert(old(Ranges(file.nodes)), k, Range(s, e, MissFlags(op)))
    {
      hide LruList.Ok, ListOk, Insert, Ranges, CachedFile.Holds, CachedFile.Precedes, Sum, Sizes, Total,
        Consistent, Distinct, Gap, MissFlags;
      ghost var others := Records() - Members(file.nodes);
      Linkable(file.id, others);
      tmp := LinkBeside(file, op, s, e, pre, cur, k);
      assert forall other :: other in files && other != file.id ==> files[other].nodes == old(files[other].nodes);
      assert Members(lru.nodes) == others + Members(file.nodes) - {tmp};
      ConsistentAgain(file.id, others, old(Sizes()), freePages - (e - s), {tmp});
    }

    lemma Linkable(id: int, others: set<PageRange>)
      requires Healthy() && id in files && others == Records() - Members(files[id].nodes)
      ensures lru.Ok() && files[id].id == id && files[id].Ok() && Sorted(Ranges(files[id].nodes))
      ensures Members(lru.nodes) == others + Members(files[id].nodes)
      ensures forall n :: n in others <==> exists other :: other in files && other != id && n in files[other].nodes
      ensures forall other :: other in files ==> ListOk(files[other], other)
      ensures forall other, n :: other in files && other != id && n in files[other].nodes ==> n !in files[id].nodes
      ensures Distinct(fileIDs) && (forall h :: h in fileIDs <==> h in files)
      ensures freePages + Sum(fileIDs, Sizes()) == totalUsable
      ensures Sizes().Keys == files.Keys && forall h :: h in files ==> Sizes()[h] == Pages(h)
    {
      hide Ranges, Sorted, LruList.Ok, CachedFile.Ok, Sum;
      Separate(id, others, freePages, {});
      RecordsOf(id);
      forall other | other in files
        ensures ListOk(files[other], other)
      {
        assert FileOk(other);
      }
    }

    lemma SameSizes(sizes: map<int, int>)
      requires sizes.Keys == files.Keys && forall id :: id in files ==> Pages(id) == sizes[id]
      ensures Sizes() == sizes
    {
    }

    /** The record in hand goes on the LRU list. */
    method ThreadMissing(tmp: PageRange, ghost free: int)
      requires Consistent(free, {tmp})
      modifies lru, lru.nodes`lruPrev, tmp`lruNext, tmp`lruPrev
      ensures Consistent(free, {}) && Entries(lru.nodes) == [AsEntry(tmp)] + old(Entries(lru.nodes))
      ensures Members(lru.nodes) == old(Members(lru.nodes)) + {tmp}
    {
      hide Ranges, Sorted, CachedFile.Ok, LruList.Ok, Sum, Entries, Insert, Total;
      ghost var nodes := lru.nodes;
      assert tmp !in Members(lru.nodes);
      MembersInsert(nodes, 0, tmp);
      lru.Push(tmp);
      EntriesInsert(nodes, 0, tmp);
      InFront(Entries(nodes), AsEntry(tmp));
      forall id | id in files
        ensures FileOk(id) && Pages(id) == old(Pages(id))
      {
        assert old(FileOk(id));
        assert files[id].Ok() == old(files[id].Ok());
      }
      SameSizes(old(Sizes()));
      assert Records() == old(Records());
    }

    /** What happened to the other files: nothing, or pages were dropped that may be. */
    twostate predicate OthersDropped(id: int)
      reads this, files.Values, Records()
    {
      && files == old(files) && fileIDs == old(fileIDs)
      && forall other, p :: other in files && other != id ==>
           DroppedIfCold(old(At(Ranges(files[other].nodes), p)), At(Ranges(files[other].nodes), p))
    }

    lemma NoColdMiss(op: Op)
      ensures !Cold(MissFlags(op))
    {
    }

    lemma InHand(tmp: PageRange, free: int)
      requires Consistent(free, {tmp})
      ensures tmp !in Members(lru.nodes)
    {
    }

    /** Pages are reclaimed, at least a batch of them, if there are not enough free ones for the record in hand. */
    method MakeRoom(file: CachedFile, tmp: PageRange, ghost l: seq<Entry>) returns (ghost n: nat)
      requires file.id in files && files[file.id] == file && tmp.fileid == file.id && tmp.start < tmp.end
      requires Consistent(freePages - (tmp.end - tmp.start), {tmp}) && l == Entries(lru.nodes)
      requires tmp.end - tmp.start > freePages ==> Safe(file.id)
      modifies this`freePages, lru, Members(lru.nodes), files.Values`prHead, files.Values`nodes
      ensures Consistent(freePages - (tmp.end - tmp.start), {tmp}) && Members(lru.nodes) <= old(Members(lru.nodes))
      ensures n == if tmp.end - tmp.start <= old(freePages) then 0 else if tmp.end - tmp.start > 32 then tmp.end - tmp.start else 32
      ensures n == 0 ==> OthersKept(file.id)
      ensures n > 0 ==> old(Safe(file.id))
      ensures freePages == old(freePages) + n - Reclaim(l, n).1 && Entries(lru.nodes) == Reclaim(l, n).0
      ensures tmp.Value() == old(tmp.Value()) && FileKept(file) && OthersDropped(file.id) && Safe(file.id) == old(Safe(file.id))
    {
      hide Entries, Reclaim, At, Ranges, ListOk, Records, Sizes, Sum, Members, LastOk, Evicted, NoCold, Consistent;
      n := 0;
      NothingReclaimed(l);
      InHand(tmp, freePages - (tmp.end - tmp.start));
      var size := tmp.end - tmp.start;
      if freePages < size {
        n := if size > MIN_PAGES_FREED then size else MIN_PAGES_FREED;
        var ok := LruFreePages(if size > MIN_PAGES_FREED then size else MIN_PAGES_FREED, size, {tmp});
      }
    }

    /** What is known of the LRU list when pages that are not cached are asked for. */
    lemma BeforeAdding(id: int, k: nat, s: int, e: int)
      requires Healthy() && id in files && Gap(Ranges(files[id].nodes), k, s, e)
      ensures files[id].id == id && var l := Entries(lru.nodes);
              && NonEmpty(l) && Disjoint(l) && (Safe(id) ==> NoColdOf(l, id))
              && forall p :: s <= p < e ==> !Has(l, id, p)
    {
      hide Ranges, Entries, CachedFile.Ok, LruList.Ok, Sum, Sizes, At, PageOf, Alone, Sorted, Gap, Has, Cold;
      var l := Entries(lru.nodes);
      assert FileOk(id);
      LruHoldsPages(freePages, {});
      forall p | s <= p < e
        ensures !Has(l, id, p)
      {
        GapNotCached(Ranges(files[id].nodes), k, s, e, p);
        HasPage(l, id, p);
      }
      EntriesAre(lru.nodes);
      forall i | 0 <= i < |l| && l[i].file == id && Safe(id)
        ensures !Cold(l[i].range.flags)
      {
        var h := Home(i, freePages, {});
        SafeRecord(id, h);
      }
    }

    /** A new record is linked and room is made for it. */
    method PlaceRecord(file: CachedFile, op: Op, s: int, e: int, pre: PageRange?, cur: PageRange?, ghost k: nat)
      returns (tmp: PageRange, ghost n: nat)
      requires Healthy() && file.id in files && files[file.id] == file && s < e && k <= |file.nodes|
      requires file.Holds(cur, k) && file.Precedes(pre, k) && Gap(Ranges(file.nodes), k, s, e)
      requires e - s > freePages ==> Safe(file.id)
      modifies this`freePages, lru, Members(lru.nodes), files.Values`prHead, files.Values`nodes
      modifies file.nodes`next, file.nodes`prev
      ensures Consistent(freePages - (e - s), {tmp}) && fresh(tmp) && Members(lru.nodes) <= old(Members(lru.nodes))
      ensures OthersDropped(file.id) && (e - s <= old(freePages) ==> n == 0 && OthersKept(file.id))
      ensures n > 0 ==> old(Safe(file.id))
      ensures file.nodes == Insert(old(file.nodes), k, tmp) && file.prLast == old(file.prLast)
      ensures Ranges(file.nodes) == Insert(old(Ranges(file.nodes)), k, Range(s, e, MissFlags(op)))
      ensures AsEntry(tmp) == Entry(file.id, Range(s, e, MissFlags(op)))
      ensures var r := Reclaim(old(Entries(lru.nodes)), n);
              freePages == old(freePages) + n - r.1 && Entries(lru.nodes) == r.0
    {
      hide Entries, Reclaim, At, Ranges, ListOk, Records, Sizes, Sum, Members, NoCold, Consistent, Insert, MissFlags, Gap,
        LastOk, LruList.Ok, DroppedIfCold;
      ghost var l := Entries(lru.nodes);
      NoColdMiss(op);
      if Safe(file.id) {
        NoColdInserted(Ranges(file.nodes), k, Range(s, e, MissFlags(op)));
      }
      tmp := LinkMissing(file, op, s, e, pre, cur, k);
      n := MakeRoom(file, tmp, l);
    }

    method Settle(tmp: PageRange, op: Op)
      requires Consistent(freePages - (tmp.end - tmp.start), {tmp})
      modifies this`freePages, this`dirtyPages, lru, lru.nodes`lruPrev, tmp`lruNext, tmp`lruPrev
      ensures Healthy() && Entries(lru.nodes) == [AsEntry(tmp)] + old(Entries(lru.nodes))
      ensures Members(lru.nodes) == old(Members(lru.nodes)) + {tmp}
      ensures freePages == old(freePages) - (tmp.end - tmp.start)
      ensures dirtyPages == old(dirtyPages) + if op.read then 0 else tmp.end - tmp.start
    {
      hide Entries, ListOk, Records, Sizes, Sum, Members, Consistent, LruList.Ok;
      freePages := freePages - (tmp.end - tmp.start);
      if !op.read {
        dirtyPages := dirtyPages + (tmp.end - tmp.start);
      }
      ThreadMissing(tmp, freePages);
    }

    /** Then it is counted and goes on the LRU list. */
    method AddRecord(file: CachedFile, op: Op, s: int, e: int, pre: PageRange?, cur: PageRange?, ghost k: nat)
      returns (tmp: PageRange, ghost n: nat)
      requires Healthy() && file.id in files && files[file.id] == file && s < e && k <= |file.nodes|
      requires file.Holds(cur, k) && file.Precedes(pre, k) && Gap(Ranges(file.nodes), k, s, e)
      requires e - s > freePages ==> Safe(file.id)
      modifies this`freePages, this`dirtyPages, lru, Members(lru.nodes), files.Values`prHead, files.Values`nodes
      modifies file.nodes`next, file.nodes`prev
      ensures Healthy() && OthersDropped(file.id) && (e - s <= old(freePages) ==> n == 0 && OthersKept(file.id))
      ensures n > 0 ==> old(Safe(file.id))
      ensures fresh(tmp) && file.nodes == Insert(old(file.nodes), k, tmp) && file.prLast == old(file.prLast)
      ensures Ranges(file.nodes) == Insert(old(Ranges(file.nodes)), k, Range(s, e, MissFlags(op)))
      ensures AsEntry(tmp) == Entry(file.id, Range(s, e, MissFlags(op)))
      ensures var r := Reclaim(old(Entries(lru.nodes)), n);
              freePages == old(freePages) + n - r.1 - (e - s) && Entries(lru.nodes) == [AsEntry(tmp)] + r.0
      ensures dirtyPages == old(dirtyPages) + if op.read then 0 else e - s
      ensures Members(lru.nodes) <= old(Members(lru.nodes)) + {tmp}
    {
      hide Entries, Reclaim, At, Ranges, ListOk, Records, Sizes, Sum, Members, NoCold, Consistent, Insert, MissFlags, Gap,
        LastOk, LruList.Ok, DroppedIfCold, Safe, CachedFile.Holds, CachedFile.Precedes;
      MembersAre(lru.nodes);
      tmp, n := PlaceRecord(file, op, s, e, pre, cur, k);
      MembersAre(lru.nodes);
      Settle(tmp, op);
    }

    /** Pages that are not cached are given a record (the insertion in `walkCache_update`). */
    method AddMissing(id: int, op: Op, s: int, e: int, pre: PageRange?, cur: PageRange?, ghost k: nat)
      returns (tmp: PageRange, ghost freed: nat)
      requires Healthy() && id in files && s < e && k <= |files[id].nodes|
      requires files[id].Holds(cur, k) && files[id].Precedes(pre, k) && Gap(Ranges(files[id].nodes), k, s, e)
      requires e - s > freePages ==> Safe(id)
      modifies this`freePages, this`dirtyPages, lru, Members(lru.nodes), files.Values
      ensures Healthy() && OthersDropped(id) && (e - s <= old(freePages) ==> freed == 0 && OthersKept(id))
      ensures fresh(tmp) && files[id].nodes == Insert(old(files[id].nodes), k, tmp) && files[id].prLast == pre
      ensures Ranges(files[id].nodes) == Insert(old(Ranges(files[id].nodes)), k, Range(s, e, MissFlags(op)))
      ensures freePages == old(freePages) + freed - (e - s)
      ensures dirtyPages == old(dirtyPages) + if op.read then 0 else e - s
      ensures Derived(IsCacheWrite(op), id, s, e, old(Entries(lru.nodes)), Entries(lru.nodes))
      ensures Members(lru.nodes) <= old(Members(lru.nodes)) + {tmp}
    {
      hide Entries, Reclaim, Ranges, ListOk, Records, Sizes, Sum, NoCold, Consistent, Derived, Insert, MissFlags, Gap,
        IsCacheWrite, LruList.Ok, Has, NonEmpty, Disjoint, CachedFile.Holds, CachedFile.Precedes;
      var file := files[id];
      ghost var l := Entries(lru.nodes);
      BeforeAdding(id, k, s, e);
      assert forall n :: n in file.nodes ==> n in Members(lru.nodes) by {
        OnTheList(id);
      }
      ghost var n;
      tmp, n := AddRecord(file, op, s, e, pre, cur, k);
      ReclaimLeft(l, n);
      AddedDerived(IsCacheWrite(op), l, n, AsEntry(tmp));
      freed := n - Reclaim(l, n).1;
      file.prLast := pre;
    }

    lemma OnTheList(id: int)
      requires Healthy() && id in files
      ensures forall n :: n in files[id].nodes ==> n in Members(lru.nodes)
    {
      assert FileOk(id);
      RecordsOf(id);
    }

    // -------------------------------------------------------------- the walk: pages that are cached

    /** The request starts with the node. */
    method HitFromStart(file: CachedFile, op: Op, s: int, e: int, f: Flags, pre: PageRange?, cur: PageRange,
                  ghost k: nat, ghost j: nat)
      returns (next: int, precachedp: PageRange?, last: PageRange, ghost added: set<PageRange>, ghost gone: set<PageRange>)
      requires file.Ok() && lru.Ok() && Alone(lru, j) && j < |lru.nodes| && lru.nodes[j] == cur
      requires k < |file.nodes| && file.nodes[k] == cur
      requires s == cur.start && file.Precedes(pre, k) && s < cur.end && s < e
      modifies file`prHead, file`nodes, file.nodes`next, file.nodes`prev, cur`start, cur`end
      modifies lru, lru.nodes`lruNext, lru.nodes`lruPrev
      ensures file.Ok() && lru.Ok() && fresh(added) && gone <= {cur}
      ensures Members(file.nodes) == old(Members(file.nodes)) - gone + added
      ensures Members(lru.nodes) == old(Members(lru.nodes)) - gone + added
      ensures precachedp == pre
      ensures Entries(lru.nodes) == HitEntries(IsCacheWrite(op), old(Entries(lru.nodes)), j, s, e, f)
      ensures var (rest, was) := (old(cur.end), old(cur.flags));
              if e < rest then
                && next == e && gone == {}
                && Ranges(file.nodes) == Splice(old(Ranges(file.nodes)), k, [Range(s, e, f), Range(e, rest, was)])
              else
                && next == rest && k < |file.nodes| && last == file.nodes[k]
                && Ranges(file.nodes) == Splice(old(Ranges(file.nodes)), k, [Range(s, rest, f)])
    {
      hide Splice, LruList.Ok, CachedFile.Ok, Alone, Ranges, Members, Entries, HitEntries;
      precachedp, last, gone := pre, cur, {};
      EntriesAre(lru.nodes);
      if cur.end <= e {
        HitToEnd(IsCacheWrite(op), Entries(lru.nodes), j, s, e, f);
      }
      if e < cur.end {
        next := e;
        var tmp := HitPrefix(file, lru, op, s, e, f, pre, cur, k, j);
        added := {tmp};
      } else {
        next := cur.end;
        last := HitWhole(file, lru, op, f, pre, cur, k, j);
        added, gone := {last}, {cur};
      }
    }

    /** The request starts inside the node. */
    method HitInside(file: CachedFile, op: Op, s: int, e: int, f: Flags, pre: PageRange?, cur: PageRange,
                  ghost k: nat, ghost j: nat)
      returns (next: int, precachedp: PageRange?, last: PageRange, ghost added: set<PageRange>, ghost gone: set<PageRange>)
      requires file.Ok() && lru.Ok() && Alone(lru, j) && j < |lru.nodes| && lru.nodes[j] == cur
      requires k < |file.nodes| && file.nodes[k] == cur
      requires cur.start < s && s < cur.end && s < e
      modifies file`prHead, file`nodes, file.nodes`next, file.nodes`prev, cur`start, cur`end
      modifies lru, lru.nodes`lruNext, lru.nodes`lruPrev
      ensures file.Ok() && lru.Ok() && fresh(added) && gone <= {cur}
      ensures Members(file.nodes) == old(Members(file.nodes)) - gone + added
      ensures Members(lru.nodes) == old(Members(lru.nodes)) - gone + added
      ensures gone == {}
      ensures Entries(lru.nodes) == HitEntries(IsCacheWrite(op), old(Entries(lru.nodes)), j, s, e, f)
      ensures var (first, rest, was) := (old(cur.start), old(cur.end), old(cur.flags));
              if e < rest then
                && next == e && precachedp == pre
                && Ranges(file.nodes) == Splice(old(Ranges(file.nodes)), k,
                                                [Range(first, s, was), Range(s, e, f), Range(e, rest, was)])
              else
                && next == rest && k + 1 < |file.nodes| && last == file.nodes[k + 1] && precachedp == cur
                && Ranges(file.nodes) == Splice(old(Ranges(file.nodes)), k, [Range(first, s, was), Range(s, rest, f)])
    {
      hide Splice, LruList.Ok, CachedFile.Ok, Alone, Ranges, Members, Entries, HitEntries;
      precachedp, last, gone := pre, cur, {};
      EntriesAre(lru.nodes);
      if cur.end <= e {
        HitToEnd(IsCacheWrite(op), Entries(lru.nodes), j, s, e, f);
      }
      if e < cur.end {
        next := e;
        var tmp, tmp2 := HitMiddle(file, lru, op, s, e, f, cur, k, j);
        added := {tmp, tmp2};
      } else {
        next := cur.end;
        last := HitSuffix(file, lru, op, s, f, cur, k, j);
        precachedp := cur;
        added := {last};
      }
    }

    /** The part of the walk for a node the request reaches into.  `last` is the node to go on from. */
    method HitNode(file: CachedFile, op: Op, s: int, e: int, pre: PageRange?, cur: PageRange, ghost k: nat, ghost j: nat)
      returns (ghost v: Visit, next: int, last: PageRange, ghost added: set<PageRange>, ghost gone: set<PageRange>)
      requires file.Ok() && lru.Ok() && Alone(lru, j) && j < |lru.nodes| && lru.nodes[j] == cur
      requires k < |file.nodes| && file.nodes[k] == cur && (s == cur.start ==> file.Precedes(pre, k))
      requires cur.start <= s < cur.end && s < e && MayHit(op)
      modifies this`dirtyPages
      modifies file`prHead, file`prLast, file`nodes, file.nodes`next, file.nodes`prev, cur`start, cur`end
      modifies lru, lru.nodes`lruNext, lru.nodes`lruPrev
      ensures file.Ok() && lru.Ok() && fresh(added) && gone <= {cur}
      ensures Members(file.nodes) == old(Members(file.nodes)) - gone + added
      ensures Members(lru.nodes) == old(Members(lru.nodes)) - gone + added
      ensures gone == {} || file.prLast == pre
      ensures file.prLast == old(file.prLast) || file.prLast == pre || file.prLast == cur
      ensures Entries(lru.nodes) == HitEntries(IsCacheWrite(op), old(Entries(lru.nodes)), j, s, e, HitFlags(op, old(cur.flags)))
      ensures v == Hit(op, old(cur.Value()), s, e)
      ensures && Ranges(file.nodes) == Splice(old(Ranges(file.nodes)), k, v.out)
              && next == v.next
              && (e >= old(cur.end) ==> k + |v.out| - 1 < |file.nodes| && last == file.nodes[k + |v.out| - 1])
              && dirtyPages == old(dirtyPages) - if op.preop && op.disk && !op.read then v.touched else 0
    {
      hide Splice, Hit, LruList.Ok, CachedFile.Ok, Alone, Ranges, Members, HitFlags, Entries, HitEntries,
        IsCacheWrite, MayHit;
      HitCases(op, cur.Value(), s, e);
      v := Hit(op, cur.Value(), s, e);
      var f := FlagsOnHit(op, cur.flags);
      if op.preop && op.disk && !op.read {
        dirtyPages := dirtyPages - ((if e < cur.end then e else cur.end) - s);
      }
      file.prLast := if s > cur.start && e >= cur.end then cur else pre;
      var precachedp;
      if s == cur.start {
        next, precachedp, last, added, gone := HitFromStart(file, op, s, e, f, pre, cur, k, j);
        return;
      } else {
        next, precachedp, last, added, gone := HitInside(file, op, s, e, f, pre, cur, k, j);
        return;
      }
    }

    /** One round of the walk from the point where the request starts no earlier than the node. */
    method VisitCached(file: CachedFile, op: Op, s: int, e: int, pre: PageRange?, cur: PageRange, ghost k: nat, ghost j: nat)
      returns (ghost v: Visit, next: int, stop: bool, refused: bool, last: PageRange, ghost added: set<PageRange>, ghost gone: set<PageRange>)
      requires file.Ok() && lru.Ok() && Alone(lru, j) && j < |lru.nodes| && lru.nodes[j] == cur
      requires k < |file.nodes| && file.nodes[k] == cur && (s == cur.start ==> file.Precedes(pre, k))
      requires cur.start < cur.end && cur.start <= s < e
      modifies this`dirtyPages
      modifies file`prHead, file`prLast, file`nodes, file.nodes`next, file.nodes`prev, cur`start, cur`end
      modifies lru, lru.nodes`lruNext, lru.nodes`lruPrev
      ensures file.Ok() && lru.Ok() && fresh(added) && gone <= {cur}
      ensures Members(file.nodes) == old(Members(file.nodes)) - gone + added
      ensures Members(lru.nodes) == old(Members(lru.nodes)) - gone + added
      ensures gone == {} || file.prLast == pre
      ensures file.prLast == old(file.prLast) || file.prLast == pre || file.prLast == cur
      ensures Entries(lru.nodes)
                == if s < old(cur.end) && MayHit(op) then
                     HitEntries(IsCacheWrite(op), old(Entries(lru.nodes)), j, s, e, HitFlags(op, old(cur.flags)))
                   else old(Entries(lru.nodes))
      ensures v == Hit(op, old(cur.Value()), s, e) && v.inserted == 0
      ensures && Ranges(file.nodes) == Splice(old(Ranges(file.nodes)), k, v.out)
              && next == v.next && stop == v.stop && refused == v.refused
              && (!stop ==> Stands(file, k + |v.out| - 1, last))
              && dirtyPages == old(dirtyPages) - if op.preop && op.disk && !op.read then v.touched else 0
    {
      hide Splice, Hit, LruList.Ok, CachedFile.Ok, Alone, Ranges, Members, HitFlags, Entries, HitEntries;
      v := Hit(op, cur.Value(), s, e);
      next, stop, refused, last, added, gone := s, false, false, cur, {}, {};
      if s >= cur.end || !MayHit(op) {
        RangesSelf(file.nodes, k);
        HitNothing(op, cur.Value(), s, e);
      } else {
        HitCases(op, cur.Value(), s, e);
      }
      if s < cur.end {
        if !MayHit(op) {
          stop, refused := true, true;
          return;
        }
        stop := e < cur.end;
        v, next, last, added, gone := HitNode(file, op, s, e, pre, cur, k, j);
        if stop {
          return;
        }
      }
      if next == e {
        stop := true;
      } else if op.preop && !op.disk && op.read {
        stop := true;
      }
    }

    /** Where a record is on the LRU list. */
    lemma Locate(id: int, k: nat) returns (j: nat)
      requires Healthy() && id in files && k < |files[id].nodes|
      ensures j < |lru.nodes| && lru.nodes[j] == files[id].nodes[k] && Alone(lru, j)
    {
      hide Alone, Consistent;
      OnTheList(id);
      MembersAre(lru.nodes);
      assert files[id].nodes[k] in lru.nodes;
      j :| 0 <= j < |lru.nodes| && lru.nodes[j] == files[id].nodes[k];
      var h := Home(j, freePages, {});
    }

    /** Some records of a file are replaced, with as many pages in all. */
    twostate predicate Swapped(file: CachedFile, new added: set<PageRange>, new gone: set<PageRange>)
      reads lru, file, file.nodes
    {
      && Members(file.nodes) == old(Members(file.nodes)) - gone + added
      && Members(lru.nodes) == old(Members(lru.nodes)) - gone + added
      && fresh(added) && gone <= old(Members(file.nodes))
      && Total(Ranges(file.nodes)) == old(Total(Ranges(file.nodes)))
    }

    /** What meeting record `k` of a file, which is record `j` of the LRU list, does to both lists. */
    twostate predicate Met(file: CachedFile, op: Op, s: int, e: int, cur: PageRange, k: nat, j: nat, v: Visit)
      reads this, lru, lru.nodes, file, file.nodes, cur
    {
      && old(cur.start) < old(cur.end) && old(cur.start) <= s < e && v == Hit(op, old(cur.Value()), s, e)
      && k < |old(file.nodes)| && Ranges(file.nodes) == Splice(old(Ranges(file.nodes)), k, v.out)
      && dirtyPages == old(dirtyPages) - (if op.preop && op.disk && !op.read then v.touched else 0)
      && j < |old(lru.nodes)|
      && Entries(lru.nodes)
           == if s < old(cur.end) && MayHit(op) then
                HitEntries(IsCacheWrite(op), old(Entries(lru.nodes)), j, s, e, HitFlags(op, old(cur.flags)))
              else old(Entries(lru.nodes))
    }

    /** The request meets a record that starts no later: what that keeps of the file. */
    method MeetInFile(file: CachedFile, op: Op, s: int, e: int, pre: PageRange?, cur: PageRange, ghost k: nat, ghost j: nat)
      returns (ghost v: Visit, next: int, stop: bool, refused: bool, last: PageRange, ghost added: set<PageRange>, ghost gone: set<PageRange>)
      requires ListOk(file, file.id) && LastOk(file)
      requires lru.Ok() && j < |lru.nodes| && lru.nodes[j] == cur && Alone(lru, j)
      requires k < |file.nodes| && file.nodes[k] == cur && (s == cur.start ==> file.Precedes(pre, k))
      requires pre == null || (pre in file.nodes && pre != cur)
      requires cur.start < cur.end && cur.start <= s < e && Reached(Ranges(file.nodes), k, s)
      modifies this`dirtyPages
      modifies file`prHead, file`prLast, file`nodes, file.nodes`next, file.nodes`prev, cur`start, cur`end
      modifies lru, lru.nodes`lruNext, lru.nodes`lruPrev
      ensures lru.Ok() && ListOk(file, file.id) && LastOk(file) && Met(file, op, s, e, cur, k, j, v) && Swapped(file, added, gone)
      ensures next == v.next && stop == v.stop && refused == v.refused
      ensures !stop ==> Stands(file, k + |v.out| - 1, last)
    {
      hide Splice, Hit, LruList.Ok, CachedFile.Ok, Alone, Ranges, Sorted, Total, Members, HitFlags, Entries, HitEntries,
        CachedFile.Precedes, Reached;
      RangesAre(file.nodes);
      HitKeeps(op, Ranges(file.nodes), k, s, e);
      MembersAre(file.nodes);
      ghost var was := file.prLast;
      v, next, stop, refused, last, added, gone := VisitCached(file, op, s, e, pre, cur, k, j);
      MembersAre(file.nodes);
    }

    /** The other files are not touched. */
    method MeetBeside(file: CachedFile, op: Op, s: int, e: int, pre: PageRange?, cur: PageRange, ghost k: nat, ghost j: nat)
      returns (ghost v: Visit, next: int, stop: bool, refused: bool, last: PageRange, ghost added: set<PageRange>, ghost gone: set<PageRange>)
      requires Healthy() && file.id in files && files[file.id] == file && LastOk(file)
      requires j < |lru.nodes| && lru.nodes[j] == cur && Alone(lru, j)
      requires k < |file.nodes| && file.nodes[k] == cur && (s == cur.start ==> file.Precedes(pre, k))
      requires pre == null || (pre in file.nodes && pre != cur)
      requires cur.start < cur.end && cur.start <= s < e && Reached(Ranges(file.nodes), k, s)
      modifies this`dirtyPages
      modifies file`prHead, file`prLast, file`nodes, file.nodes`next, file.nodes`prev, cur`start, cur`end
      modifies lru, lru.nodes`lruNext, lru.nodes`lruPrev
      ensures lru.Ok() && FileOk(file.id) && LastOk(file) && Met(file, op, s, e, cur, k, j, v) && Swapped(file, added, gone)
      ensures next == v.next && stop == v.stop && refused == v.refused
      ensures !stop ==> Stands(file, k + |v.out| - 1, last)
      ensures OthersKept(file.id)
      ensures forall other :: other in files && other != file.id ==> FileOk(other) && Pages(other) == old(Pages(other))
    {
      hide Met, Swapped, LruList.Ok, CachedFile.Ok, Alone, Ranges, Sorted, Total, Sum, Sizes, Consistent, Distinct, CachedFile.Precedes,
        Reached, LastOk;
      ghost var id := file.id;
      Linkable(id, Records() - Members(file.nodes));
      v, next, stop, refused, last, added, gone := MeetInFile(file, op, s, e, pre, cur, k, j);
      assert cur in old(file.nodes);
      forall other | other in files && other != id
        ensures FileOk(other) && Pages(other) == old(Pages(other)) && FileKept(files[other])
      {
        assert old(ListOk(files[other], other)) && files[other] != file;
        assert forall n :: n in files[other].nodes ==> n !in old(file.nodes);
        assert forall n :: n in files[other].nodes ==> n != cur;
        assert Ranges(files[other].nodes) == old(Ranges(files[other].nodes));
        assert forall n :: n in files[other].nodes ==> n.next == old(n.next) && n.prev == old(n.prev);
        assert files[other].Ok() == old(files[other].Ok());
      }
    }

    /** So the cache stays healthy. */
    method MeetHealthy(file: CachedFile, op: Op, s: int, e: int, pre: PageRange?, cur: PageRange, ghost k: nat, ghost j: nat)
      returns (ghost v: Visit, next: int, stop: bool, refused: bool, last: PageRange, ghost added: set<PageRange>, ghost gone: set<PageRange>)
      requires Healthy() && file.id in files && files[file.id] == file && LastOk(file)
      requires j < |lru.nodes| && lru.nodes[j] == cur && Alone(lru, j)
      requires k < |file.nodes| && file.nodes[k] == cur && (s == cur.start ==> file.Precedes(pre, k))
      requires pre == null || (pre in file.nodes && pre != cur)
      requires cur.start < cur.end && cur.start <= s < e && Reached(Ranges(file.nodes), k, s)
      modifies this`dirtyPages
      modifies file`prHead, file`prLast, file`nodes, file.nodes`next, file.nodes`prev, cur`start, cur`end
      modifies lru, lru.nodes`lruNext, lru.nodes`lruPrev
      ensures Healthy() && LastOk(file) && OthersKept(file.id) && Met(file, op, s, e, cur, k, j, v) && Swapped(file, added, gone)
      ensures next == v.next && stop == v.stop && refused == v.refused
      ensures !stop ==> Stands(file, k + |v.out| - 1, last)
    {
      hide Met, LruList.Ok, ListOk, Alone, Ranges, Total, Sum, Sizes, Consistent, Distinct, CachedFile.Precedes, Reached, LastOk;
      ghost var id := file.id;
      ghost var others := Records() - Members(file.nodes);
      Linkable(id, others);
      v, next, stop, refused, last, added, gone := MeetBeside(file, op, s, e, pre, cur, k, j);
      assert forall other :: other in files && other != id ==> files[other].nodes == old(files[other].nodes);
      ConsistentAgain(id, others, old(Sizes()), freePages, {});
    }

    method MeetRecord(id: int, op: Op, s: int, e: int, pre: PageRange?, cur: PageRange, ghost k: nat)
      returns (ghost v: Visit, next: int, stop: bool, refused: bool, last: PageRange)
      requires Healthy() && id in files && LastOk(files[id])
      requires k < |files[id].nodes| && files[id].nodes[k] == cur && (s == cur.start ==> files[id].Precedes(pre, k))
      requires pre == null || (pre in files[id].nodes && pre != cur)
      requires cur.start < cur.end && cur.start <= s < e && Reached(Ranges(files[id].nodes), k, s)
      modifies this`dirtyPages, lru, Members(lru.nodes), files[id]
      ensures Healthy() && LastOk(files[id]) && OthersKept(id)
      ensures forall n :: n in Members(lru.nodes) ==> n in old(Members(lru.nodes)) || fresh(n)
      ensures v == Hit(op, old(cur.Value()), s, e)
      ensures Derived(IsCacheWrite(op), id, s, v.next, old(Entries(lru.nodes)), Entries(lru.nodes))
      ensures NonEmpty(Entries(lru.nodes))
      ensures Ranges(files[id].nodes) == Splice(old(Ranges(files[id].nodes)), k, v.out)
      ensures next == v.next && stop == v.stop && refused == v.refused
      ensures !stop ==> Stands(files[id], k + |v.out| - 1, last)
      ensures dirtyPages == old(dirtyPages) - if op.preop && op.disk && !op.read then v.touched else 0
    {
      hide Splice, Hit, Alone, Ranges, HitFlags, Entries, HitEntries, Consistent, CachedFile.Precedes, Reached, Derived, NonEmpty,
        IsCacheWrite, LastOk, Records, OthersKept, Total;
      var file := files[id];
      FileId(id);
      OnTheList(id);
      ghost var j := Locate(id, k);
      MetDerived(id, op, s, e, j);
      MembersAre(lru.nodes);
      ghost var added, gone;
      v, next, stop, refused, last, added, gone := MeetHealthy(file, op, s, e, pre, cur, k, j);
    }

    lemma FileId(id: int)
      requires Healthy() && id in files
      ensures files[id].id == id && forall n :: n in files[id].nodes ==> n.fileid == id
    {
      assert FileOk(id);
      RecordsOf(id);
    }

    /** What meeting record `j` of the LRU list does to the order of the list. */
    lemma MetDerived(id: int, op: Op, s: int, e: int, j: nat)
      requires Healthy() && j < |lru.nodes| && lru.nodes[j].fileid == id
      requires lru.nodes[j].start < lru.nodes[j].end && lru.nodes[j].start <= s < e
      ensures var (l, c) := (Entries(lru.nodes), lru.nodes[j].Value());
              var r := if s < c.end && MayHit(op) then HitEntries(IsCacheWrite(op), l, j, s, e, HitFlags(op, c.flags)) else l;
              Derived(IsCacheWrite(op), id, s, Hit(op, c, s, e).next, l, r) && NonEmpty(r)
    {
      hide Hit, HitFlags, Entries, HitEntries, Derived, Disjoint, NonEmpty, Consistent;
      var (l, c) := (Entries(lru.nodes), lru.nodes[j].Value());
      LruHoldsPages(freePages, {});
      EntriesAre(lru.nodes);
      if s < c.end && MayHit(op) {
        HitCases(op, c, s, e);
        HitDerived(IsCacheWrite(op), l, j, s, e, HitFlags(op, c.flags));
      } else {
        HitNothing(op, c, s, e);
        DerivedSelf(IsCacheWrite(op), id, s, l);
      }
    }

    // -------------------------------------------------------------- the walk

    /** What a walk on file `id` has done to the cache when it has come from `lo` to `hi`, with so many pages inserted,
        changed and reclaimed; `all` are the pages it inserts in the end. */
    twostate predicate Walked(id: int, op: Op, lo: int, hi: int, inserted: int, touched: int, freed: nat, all: int)
      reads this, lru, lru.nodes, files.Values, Records()
    {
      && id in old(files) && files == old(files) && fileIDs == old(fileIDs)
      && Healthy() && LastOk(files[id]) && OthersDropped(id)
      && (all <= old(freePages) || all == 0 ==> freed == 0 && OthersKept(id))
      && Counted(op, inserted, touched, freed)
      && Derived(IsCacheWrite(op), id, lo, hi, old(Entries(lru.nodes)), Entries(lru.nodes))
      && forall n :: n in Members(lru.nodes) ==> n in old(Members(lru.nodes)) || fresh(n)
    }

    /** What one round of the walk, which visits record `k` of file `id`, does to the cache. */
    twostate predicate Visited(id: int, op: Op, s: int, k: nat, v: Visit, freed: nat)
      reads this, lru, lru.nodes, files.Values, Records()
    {
      && Walked(id, op, s, v.next, v.inserted, v.touched, freed, v.inserted)
      && k < |old(files[id].nodes)| && Ranges(files[id].nodes) == Splice(old(Ranges(files[id].nodes)), k, v.out)
    }

    /** The page counters after so many pages were inserted, changed and reclaimed. */
    twostate predicate Counted(op: Op, inserted: int, touched: int, freed: int)
      reads this`freePages, this`dirtyPages
    {
      && freePages == old(freePages) + freed - inserted
      && dirtyPages == old(dirtyPages) + (if op.read then 0 else inserted)
                         - (if op.preop && op.disk && !op.read then touched else 0)
    }

    /** Record `last` is at position `i` of the file. */
    static ghost predicate Stands(file: CachedFile, i: int, last: PageRange)
      reads file`nodes
    {
      0 <= i < |file.nodes| && file.nodes[i] == last
    }

    lemma SomeLast(id: int, pre: PageRange?, k: nat)
      requires Healthy() && id in files && k < |files[id].nodes| && files[id].Precedes(pre, k)
      ensures pre == null || (pre in files[id].nodes && pre != files[id].nodes[k])
    {
      assert FileOk(id);
      RecordsOf(id);
    }

    /** A request that starts no earlier than the record. */
    method RoundInside(id: int, op: Op, s: int, e: int, pre: PageRange?, cur: PageRange, ghost k: nat)
      returns (ghost v: Visit, next: int, stop: bool, refused: bool, last: PageRange)
      requires Healthy() && id in files && LastOk(files[id]) && k < |files[id].nodes| && files[id].nodes[k] == cur
      requires files[id].Precedes(pre, k) || (pre == null && cur.start < s)
      requires cur.start < cur.end && cur.start <= s < e && Reached(Ranges(files[id].nodes), k, s)
      modifies this`dirtyPages, lru, Members(lru.nodes), files[id]
      ensures v == VisitNode(op, old(cur.Value()), s, e) && next == v.next && stop == v.stop && refused == v.refused
      ensures !stop ==> Stands(files[id], k + |v.out| - 1, last)
      ensures Visited(id, op, s, k, v, 0) && NonEmpty(Entries(lru.nodes))
    {
      hide Splice, Hit, Ranges, Entries, Consistent, CachedFile.Precedes, Reached, Derived, NonEmpty, IsCacheWrite, LastOk, At,
        Records, Members;
      if files[id].Precedes(pre, k) {
        SomeLast(id, pre, k);
      }
      VisitIsHit(op, cur.Value(), s, e);
      HitInsertsNothing(op, cur.Value(), s, e);
      v, next, stop, refused, last := MeetRecord(id, op, s, e, pre, cur, k);
    }

    /** A request that ends before the record. */
    method RoundBefore(id: int, op: Op, s: int, e: int, pre: PageRange?, cur: PageRange, ghost k: nat)
      returns (ghost v: Visit, ghost freed: nat)
      requires Healthy() && id in files && k < |files[id].nodes| && files[id].nodes[k] == cur
      requires files[id].Precedes(pre, k) && Reached(Ranges(files[id].nodes), k, s)
      requires cur.start < cur.end && s < e <= cur.start && MayInsert(op) && (e - s > freePages ==> Safe(id))
      modifies this`freePages, this`dirtyPages, lru, Members(lru.nodes), files.Values
      ensures v == VisitNode(op, old(cur.Value()), s, e) && Visited(id, op, s, k, v, freed) && v.inserted == e - s
    {
      hide Ranges, Entries, Consistent, CachedFile.Precedes, Derived, IsCacheWrite, At, Records, Members, Insert, Splice, MissFlags, Safe;
      v := VisitNode(op, cur.Value(), s, e);
      ghost var (list, nodes) := (Ranges(files[id].nodes), files[id].nodes);
      RangesAre(nodes);
      LastBefore(id, pre, k);
      var tmp;
      tmp, freed := AddMissing(id, op, s, e, pre, cur, k);
      SpliceInserted(list, k, Range(s, e, MissFlags(op)), []);
      LastAfter(files[id], nodes, pre, k, tmp);
      hide LastOk;
    }

    lemma LastBefore(id: int, pre: PageRange?, k: nat)
      requires id in files && k <= |files[id].nodes| && files[id].Precedes(pre, k)
      ensures pre == null || pre in files[id].nodes
    {
    }

    lemma LastAfter(file: CachedFile, nodes: seq<PageRange>, pre: PageRange?, k: nat, tmp: PageRange)
      requires k <= |nodes| && file.nodes == Insert(nodes, k, tmp) && file.prLast == pre && (pre == null || pre in nodes)
      ensures LastOk(file)
    {
      InsertIs(nodes, k, tmp);
      hide Insert;
      if pre != null {
        var i :| 0 <= i < |nodes| && nodes[i] == pre;
        assert file.nodes[if i < k then i else i + 1] == pre;
      }
    }

    /** What adding a record for missing pages, at position `k` of file `id`, does to the cache. */
    twostate predicate Added(id: int, op: Op, s: int, e: int, k: nat, new tmp: PageRange, freed: nat)
      reads this, lru, lru.nodes, files.Values, Records(), tmp
    {
      && id in old(files) && files == old(files) && fileIDs == old(fileIDs)
      && Healthy() && LastOk(files[id]) && OthersDropped(id)
      && (e - s <= old(freePages) ==> freed == 0 && OthersKept(id))
      && k <= |old(files[id].nodes)| && files[id].nodes == Insert(old(files[id].nodes), k, tmp) && fresh(tmp)
      && Ranges(files[id].nodes) == Insert(old(Ranges(files[id].nodes)), k, Range(s, e, MissFlags(op)))
      && Counted(op, e - s, 0, freed)
      && Derived(IsCacheWrite(op), id, s, e, old(Entries(lru.nodes)), Entries(lru.nodes))
      && Members(lru.nodes) <= old(Members(lru.nodes)) + {tmp}
    }

    method AddBefore(id: int, op: Op, s: int, e: int, pre: PageRange?, cur: PageRange?, ghost k: nat)
      returns (tmp: PageRange, ghost freed: nat)
      requires Healthy() && id in files && s < e && k <= |files[id].nodes|
      requires files[id].Holds(cur, k) && files[id].Precedes(pre, k) && Gap(Ranges(files[id].nodes), k, s, e)
      requires e - s > freePages ==> Safe(id)
      modifies this`freePages, this`dirtyPages, lru, Members(lru.nodes), files.Values
      ensures Added(id, op, s, e, k, tmp, freed)
    {
      hide Ranges, Entries, Consistent, CachedFile.Precedes, CachedFile.Holds, Derived, IsCacheWrite, At, Records, Members, Insert,
        MissFlags, Safe, Gap, OthersDropped, OthersKept;
      ghost var nodes := files[id].nodes;
      LastBefore(id, pre, k);
      tmp, freed := AddMissing(id, op, s, e, pre, cur, k);
      LastAfter(files[id], nodes, pre, k, tmp);
    }

    /** The record that the new one was put in front of is still the next one. */
    lemma NextIsCur(id: int, nodes: seq<PageRange>, list: seq<Range>, k: nat, tmp: PageRange, x: Range)
      requires id in files && k < |nodes| == |list| && files[id].nodes == Insert(nodes, k, tmp)
      requires Ranges(files[id].nodes) == Insert(list, k, x)
      ensures k + 1 < |files[id].nodes| && files[id].nodes[k + 1] == nodes[k] && nodes[k].Value() == list[k]
      ensures files[id].Precedes(tmp, k + 1) && Reached(Ranges(files[id].nodes), k + 1, x.end)
    {
      RangesAre(files[id].nodes);
      InsertIs(nodes, k, tmp);
      InsertIs(list, k, x);
      hide Ranges, Insert;
    }

    /** A request that begins before the record and reaches into it: the missing pages first, then the record. */
    method RoundThrough(id: int, op: Op, s: int, e: int, pre: PageRange?, cur: PageRange, ghost k: nat)
      returns (ghost v: Visit, next: int, stop: bool, refused: bool, last: PageRange, ghost freed: nat)
      requires Healthy() && id in files && k < |files[id].nodes| && files[id].nodes[k] == cur
      requires files[id].Precedes(pre, k) && Reached(Ranges(files[id].nodes), k, s)
      requires s < cur.start < cur.end && cur.start < e && MayInsert(op) && (cur.start - s > freePages ==> Safe(id))
      modifies this`freePages, this`dirtyPages, lru, Members(lru.nodes), files.Values
      ensures v == VisitNode(op, old(cur.Value()), s, e) && next == v.next && stop == v.stop && refused == v.refused
      ensures !stop ==> Stands(files[id], k + |v.out| - 1, last)
      ensures v.inserted == old(cur.start) - s && Visited(id, op, s, k, v, freed)
    {
      hide Ranges, Entries, Consistent, CachedFile.Precedes, CachedFile.Holds, Derived, IsCacheWrite, At, Records, Members, Insert,
        MissFlags, Safe, Gap, Reached, Splice, Hit, LastOk, NonEmpty;
      ghost var (list, nodes, l, c) := (Ranges(files[id].nodes), files[id].nodes, Entries(lru.nodes), cur.Value());
      RangesAre(nodes);
      v := VisitNode(op, c, s, e);
      HitInsertsNothing(op, c, c.start, e);
      VisitShape(op, c, c.start, e);
      VisitIsHit(op, c, c.start, e);
      assert Gap(list, k, s, c.start) by {
        GapBefore(list, k, s);
      }
      HereIs(files[id], k);
      ghost var w;
      var tmp;
      tmp, freed := AddBefore(id, op, s, cur.start, pre, cur, k);
      ghost var (m, all) := (Entries(lru.nodes), Members(lru.nodes));
      NextIsCur(id, nodes, list, k, tmp, Range(s, c.start, MissFlags(op)));
      w, next, stop, refused, last := RoundInside(id, op, cur.start, e, tmp, cur, k + 1);
      SpliceInserted(list, k, Range(s, c.start, MissFlags(op)), w.out);
      DerivedTwice(IsCacheWrite(op), id, s, c.start, w.next, l, m, Entries(lru.nodes));
      assert forall n :: n in Members(lru.nodes) ==> n in all || fresh(n);
    }

    lemma HereIs(file: CachedFile, k: nat)
      requires k < |file.nodes|
      ensures file.Holds(file.nodes[k], k)
    {
    }

    lemma GapBefore(list: seq<Range>, k: nat, s: int)
      requires k < |list| && Reached(list, k, s)
      ensures Gap(list, k, s, list[k].start)
    {
    }

    /** A request that begins before the record, but may not insert pages. */
    method RoundRefused(id: int, op: Op, s: int, e: int, cur: PageRange, ghost k: nat) returns (ghost v: Visit)
      requires Healthy() && id in files && LastOk(files[id]) && k < |files[id].nodes| && files[id].nodes[k] == cur
      requires s < cur.start < cur.end && s < e && !MayInsert(op)
      ensures v == VisitNode(op, cur.Value(), s, e) && v.stop && v.refused && v.next == s && Visited(id, op, s, k, v, 0)
    {
      hide Ranges, Entries, Consistent, Derived, IsCacheWrite, At, Records, Members, Splice, LastOk;
      v := VisitNode(op, cur.Value(), s, e);
      RangesSelf(files[id].nodes, k);
      DerivedSelf(IsCacheWrite(op), id, s, Entries(lru.nodes));
    }

    /** One round of the walk: pages missing in front of the record first, then the record itself. */
    method Round(id: int, op: Op, s: int, e: int, pre: PageRange?, cur: PageRange, ghost k: nat)
      returns (ghost v: Visit, next: int, stop: bool, refused: bool, last: PageRange, ghost freed: nat)
      requires Healthy() && id in files && LastOk(files[id]) && k < |files[id].nodes| && files[id].nodes[k] == cur
      requires files[id].Precedes(pre, k) || (pre == null && cur.start < s)
      requires Reached(Ranges(files[id].nodes), k, s) && cur.start < cur.end && s < e
      requires MayInsert(op) && VisitNode(op, cur.Value(), s, e).inserted > freePages ==> Safe(id)
      modifies this`freePages, this`dirtyPages, lru, Members(lru.nodes), files.Values
      ensures v == VisitNode(op, old(cur.Value()), s, e) && next == v.next && stop == v.stop && refused == v.refused
      ensures !stop ==> Stands(files[id], k + |v.out| - 1, last)
      ensures Visited(id, op, s, k, v, freed)
    {
      hide Ranges, Entries, Consistent, CachedFile.Precedes, Derived, IsCacheWrite, At, Records, Members, MissFlags, Safe,
        Reached, Splice, Hit, LastOk, NonEmpty, HitFlags, Visited;
      freed, last := 0, cur;
      if s >= cur.start {
        v, next, stop, refused, last := RoundInside(id, op, s, e, pre, cur, k);
      } else if !MayInsert(op) {
        next, stop, refused := s, true, true;
        v := RoundRefused(id, op, s, e, cur, k);
      } else if e <= cur.start {
        next, stop, refused := e, true, false;
        v, freed := RoundBefore(id, op, s, e, pre, cur, k);
      } else {
        v, next, stop, refused, last, freed := RoundThrough(id, op, s, e, pre, cur, k);
      }
    }

    lemma HasPages()
      requires Healthy()
      ensures NonEmpty(Entries(lru.nodes))
    {
      LruHoldsPages(freePages, {});
    }

    lemma NextIs(id: int, k: nat)
      requires Healthy() && id in files && k < |files[id].nodes|
      ensures files[id].Holds(files[id].nodes[k].next, k + 1)
    {
      assert FileOk(id);
      RecordsOf(id);
    }

    lemma HeadIs(id: int)
      requires Healthy() && id in files
      ensures files[id].Holds(files[id].prHead, 0) && Sorted(Ranges(files[id].nodes))
    {
      assert FileOk(id);
      RecordsOf(id);
    }

    /** Where the walk starts: the last position if it is below the request, else the head. */
    ghost predicate StartsAt(file: CachedFile, s: int, k: nat)
      reads file`prLast, file.prLast, file`nodes
    {
      if file.prLast != null && file.prLast.start < s then k < |file.nodes| && file.nodes[k] == file.prLast else k == 0
    }

    /** Where the walk is, and what is left of it. */
    ghost predicate Going(id: int, op: Op, s: int, e: int, pre: PageRange?, cur: PageRange?, k: nat, u: Outcome,
                          inserted: nat, touched: int)
      reads this`files, files.Values`nodes, Records()`start, Records()`end, Records()`flags, if cur != null then {cur} else {}
    {
      && id in files && k <= |files[id].nodes| && s < e && Sorted(Ranges(files[id].nodes))
      && Reached(Ranges(files[id].nodes), k, s) && files[id].Holds(cur, k)
      && (files[id].Precedes(pre, k) || (pre == null && cur != null && cur.start < s))
      && u == Plus(UpdateFrom(op, Ranges(files[id].nodes), k, s, e), inserted, touched)
    }

    /** One round of the walk at a record, as a step of the whole walk. */
    method AdvanceRecord(id: int, op: Op, s: int, e: int, pre: PageRange?, cur: PageRange, ghost k: nat, ghost u: Outcome,
                         ghost inserted: nat, ghost touched: int)
      returns (next: int, stop: bool, refused: bool, precachedp: PageRange?, cachedp: PageRange?, ghost k': nat,
               ghost ins: nat, ghost hits: int, ghost freed: nat)
      requires Healthy() && id in files && LastOk(files[id]) && Going(id, op, s, e, pre, cur, k, u, inserted, touched)
      requires MayInsert(op) && u.inserted - inserted > freePages ==> Safe(id)
      modifies this`freePages, this`dirtyPages, lru, Members(lru.nodes), files.Values
      ensures Standing(id, op, next, e, stop, refused, precachedp, cachedp, k', u, inserted + ins, touched + hits)
      ensures s <= next <= e && ins <= u.inserted - inserted
      ensures !stop ==> k' <= |files[id].nodes| && |files[id].nodes| - k' < old(|files[id].nodes|) - k
      ensures MayInsert(op) && old(Safe(id)) ==> Safe(id)
      ensures Walked(id, op, s, next, ins, hits, freed, ins)
    {
      hide LruList.Ok, CachedFile.Ok, Ranges, UpdateFrom, VisitNode, Splice, Members, LastOk, Entries, Consistent, Derived, At,
        Records, Sorted, NoCold;
      ghost var list := Ranges(files[id].nodes);
      UpdateFromVisit(op, list, k, s, e);
      AtRecord(id, k);
      VisitShape(op, cur.Value(), s, e);
      WriteGoesOn(op, cur.Value(), s, e);
      AsLong(files[id].nodes);
      precachedp, cachedp, k' := null, null, 0;
      ghost var v;
      var last;
      v, next, stop, refused, last, freed := Round(id, op, s, e, pre, cur, k);
      ins, hits := v.inserted, v.touched;
      SafeAfter(op, list, k, s, e);
      AsLong(files[id].nodes);
      if !stop {
        k' := k + |v.out|;
        precachedp := last;
        NextIs(id, k' - 1);
        cachedp := last.next;
      }
    }

    /** The request reaches beyond the last record: a new record, or the walk is refused. */
    method AdvanceBeyond(id: int, op: Op, s: int, e: int, pre: PageRange?, ghost k: nat, ghost u: Outcome,
                         ghost inserted: nat, ghost touched: int)
      returns (next: int, refused: bool, ghost ins: nat, ghost freed: nat)
      requires Healthy() && id in files && LastOk(files[id]) && Going(id, op, s, e, pre, null, k, u, inserted, touched)
      requires MayInsert(op) && u.inserted - inserted > freePages ==> Safe(id)
      modifies this`freePages, this`dirtyPages, lru, Members(lru.nodes), files.Values
      ensures Standing(id, op, next, e, true, refused, null, null, 0, u, inserted + ins, touched)
      ensures s <= next <= e && ins <= u.inserted - inserted
      ensures MayInsert(op) && old(Safe(id)) ==> Safe(id)
      ensures Walked(id, op, s, next, ins, 0, freed, ins)
    {
      hide LruList.Ok, CachedFile.Ok, Ranges, UpdateFrom, Members, LastOk, Entries, Consistent, Derived, At, Records, Sorted,
        NoCold, Insert;
      ghost var list := Ranges(files[id].nodes);
      AsLong(files[id].nodes);
      AtEnd(id, k);
      UpdateFromEnd(op, list, s, e);
      next, refused, ins, freed := s, true, 0, 0;
      if MayInsert(op) {
        InsertAtEnd(list, Range(s, e, MissFlags(op)));
        NoColdMiss(op);
        if Safe(id) {
          NoColdInserted(list, k, Range(s, e, MissFlags(op)));
        }
        next, refused, ins := e, false, e - s;
        var tmp;
        tmp, freed := AddBefore(id, op, s, e, pre, null, k);
      } else {
        DerivedSelf(IsCacheWrite(op), id, s, Entries(lru.nodes));
      }
    }

    /** Where the walk is, or how it ended. */
    ghost predicate Standing(id: int, op: Op, s: int, e: int, stop: bool, refused: bool, pre: PageRange?, cur: PageRange?,
                             k: nat, u: Outcome, inserted: nat, touched: int)
      reads this`files, files.Values`nodes, Records()`start, Records()`end, Records()`flags, if cur != null then {cur} else {}
    {
      if stop then
        && id in files && u == Outcome(Ranges(files[id].nodes), refused, inserted, touched)
        && (s == e || (s <= e && !IsCacheWrite(op)))
      else Going(id, op, s, e, pre, cur, k, u, inserted, touched)
    }

    lemma AsLong(nodes: seq<PageRange>)
      ensures |Ranges(nodes)| == |nodes|
    {
    }

    /** A cache write stops at the end of the request only. */
    lemma WriteGoesOn(op: Op, c: Range, s: int, e: int)
      requires c.start < c.end && s < e
      ensures var v := VisitNode(op, c, s, e); v.stop && IsCacheWrite(op) ==> v.next == e
    {
      hide HitFlags, MissFlags;
    }

    lemma AtEnd(id: int, k: nat)
      requires id in files && k <= |files[id].nodes| && files[id].Holds(null, k)
      ensures k == |files[id].nodes|
    {
    }

    lemma AtRecord(id: int, k: nat)
      requires Healthy() && id in files && k < |files[id].nodes|
      ensures var c := files[id].nodes[k]; c.start < c.end && Ranges(files[id].nodes)[k] == c.Value()
    {
      assert FileOk(id);
      RecordNonEmpty(files[id], k);
    }

    lemma SafeAfter(op: Op, list: seq<Range>, k: nat, s: int, e: int)
      requires k < |list| && list[k].start < list[k].end && s < e
      ensures MayInsert(op) && NoCold(list) ==> NoCold(Splice(list, k, VisitNode(op, list[k], s, e).out))
    {
      if MayInsert(op) && NoCold(list) {
        var out := VisitNode(op, list[k], s, e).out;
        assert NoCold(out);
        hide VisitNode, Cold;
        forall i | 0 <= i < |Splice(list, k, out)|
          ensures !Cold(Splice(list, k, out)[i].flags)
        {
          assert Splice(list, k, out)[i] == if i < k then list[i] else if i < k + |out| then out[i - k] else list[i - |out| + 1];
        }
      }
    }

    /** One round of the walk as a step of the whole walk. */
    method Advance(id: int, op: Op, s: int, e: int, pre: PageRange?, cur: PageRange?, ghost k: nat, ghost u: Outcome,
                   ghost inserted: nat, ghost touched: int)
      returns (next: int, stop: bool, refused: bool, precachedp: PageRange?, cachedp: PageRange?, ghost k': nat,
               ghost ins: nat, ghost hits: int, ghost freed: nat)
      requires Healthy() && id in files && LastOk(files[id]) && Standing(id, op, s, e, false, false, pre, cur, k, u, inserted, touched)
      requires MayInsert(op) && u.inserted - inserted > freePages ==> Safe(id)
      modifies this`freePages, this`dirtyPages, lru, Members(lru.nodes), files.Values
      ensures Standing(id, op, next, e, stop, refused, precachedp, cachedp, k', u, inserted + ins, touched + hits)
      ensures s <= next <= e && ins <= u.inserted - inserted
      ensures !stop ==> k' <= |files[id].nodes| && |files[id].nodes| - k' < old(|files[id].nodes|) - k
      ensures MayInsert(op) && old(Safe(id)) ==> Safe(id)
      ensures Walked(id, op, s, next, ins, hits, freed, ins)
    {
      hide LruList.Ok, CachedFile.Ok, Ranges, UpdateFrom, LastOk, Entries, Consistent, Derived, At, Records, Sorted, Members,
        Reached, NonEmpty, Safe, Going, Walked;
      precachedp, cachedp, k', hits := null, null, 0, 0;
      if cur == null {
        stop := true;
        next, refused, ins, freed := AdvanceBeyond(id, op, s, e, pre, k, u, inserted, touched);
      } else {
        next, stop, refused, precachedp, cachedp, k', ins, hits, freed := AdvanceRecord(id, op, s, e, pre, cur, k, u, inserted, touched);
      }
    }

    lemma StartsGoing(id: int, op: Op, s: int, e: int, k: nat, cur: PageRange?, u: Outcome)
      requires Healthy() && id in files && s < e && StartsAt(files[id], s, k) && FileOk(id) && k <= |files[id].nodes|
      requires u == UpdateFrom(op, Ranges(files[id].nodes), k, s, e)
      requires cur == if files[id].prLast != null && files[id].prLast.start < s then files[id].prLast else files[id].prHead
      ensures Standing(id, op, s, e, false, false, null, cur, k, u, 0, 0)
    {
      hide Ranges, CachedFile.Ok;
      HeadIs(id);
      ReachedAtStart(files[id], k, s);
    }

    /** The walk over the linked records (`walkCache_update`). */
    method Walk(id: int, op: Op, start: int, e: int, ghost k0: nat)
      returns (ghost u: Outcome, refused: bool, ghost freed: nat)
      requires Healthy() && id in files && LastOk(files[id]) && start < e && StartsAt(files[id], start, k0)
      requires FileOk(id) && k0 <= |files[id].nodes|
      requires MayInsert(op) && UpdateFrom(op, Ranges(files[id].nodes), k0, start, e).inserted > freePages ==> Safe(id)
      modifies this`freePages, this`dirtyPages, lru, Members(lru.nodes), files.Values
      ensures u == UpdateFrom(op, old(Ranges(files[id].nodes)), k0, start, e)
      ensures refused == u.refused && Ranges(files[id].nodes) == u.list
      ensures MayInsert(op) && old(Safe(id)) ==> Safe(id)
      ensures Walked(id, op, start, e, u.inserted, u.touched, freed, u.inserted)
    {
      hide LruList.Ok, CachedFile.Ok, Ranges, UpdateFrom, LastOk, Entries, Consistent, Derived, At, Records, Sorted, Members,
        Reached, NonEmpty, Safe, Going;
      u := UpdateFrom(op, Ranges(files[id].nodes), k0, start, e);
      var s := start;
      var file := files[id];
      var cur := if file.prLast != null && file.prLast.start < start then file.prLast else file.prHead;
      var pre: PageRange? := null;
      ghost var k: nat := k0;
      ghost var inserted: nat, touched := 0, 0;
      var stop := false;
      refused, freed := false, 0;
      StartsGoing(id, op, start, e, k, cur, u);
      DerivedSelf(IsCacheWrite(op), id, s, Entries(lru.nodes));
      while !stop
        invariant Walked(id, op, start, s, inserted, touched, freed, u.inserted) && start <= s <= e
        invariant Standing(id, op, s, e, stop, refused, pre, cur, k, u, inserted, touched) && (!stop ==> k <= |files[id].nodes|)
        invariant MayInsert(op) && old(Safe(id)) ==> Safe(id)
        decreases if stop then 0 else |files[id].nodes| - k + 1
      {
        ghost var l := Entries(lru.nodes);
        ghost var lo, ins, hits, more := s, 0, 0, 0;
        MembersAre(lru.nodes);
        s, stop, refused, pre, cur, k, ins, hits, more := Advance(id, op, s, e, pre, cur, k, u, inserted, touched);
        HasPages();
        DerivedTwice(IsCacheWrite(op), id, start, lo, s, old(Entries(lru.nodes)), l, Entries(lru.nodes));
        inserted, touched, freed := inserted + ins, touched + hits, freed + more;
      }
      if s != e {
        DerivedWider(id, start, s, e, old(Entries(lru.nodes)), Entries(lru.nodes));
      }
    }

    /** Updates the pages from `s` up to `e` of file `id` (`walkCache_update`).  Pages are inserted, and others reclaimed if
        there are not enough free ones; then nothing of this file may be reclaimed.  Among the pages on the LRU list,
        those written or inserted become most recent, and the others keep their order. */
    method WalkCacheUpdate(id: int, op: Op, s: int, e: int, ghost k0: nat) returns (ghost u: Outcome, ok: bool, ghost freed: nat)
      requires Healthy() && s < e && id in files && LastOk(files[id]) && StartsAt(files[id], s, k0)
      requires FileOk(id) && k0 <= |files[id].nodes|
      requires MayInsert(op) && UpdateFrom(op, Ranges(files[id].nodes), k0, s, e).inserted > freePages ==> Safe(id)
      modifies this`freePages, this`dirtyPages, lru, Members(lru.nodes), files.Values
      ensures u == UpdateFrom(op, old(Ranges(files[id].nodes)), k0, s, e)
      ensures Healthy() && files == old(files) && LastOk(files[id])
      ensures ok == !u.refused && Ranges(files[id].nodes) == u.list
      ensures freePages == old(freePages) + freed - u.inserted
      ensures dirtyPages == old(dirtyPages) + (if op.read then 0 else u.inserted)
                              - (if op.preop && op.disk && !op.read then u.touched else 0)
      ensures MayInsert(op) && old(Safe(id)) ==> Safe(id)
      ensures OthersDropped(id) && (u.inserted <= old(freePages) || u.inserted == 0 ==> freed == 0 && OthersKept(id))
      ensures Recency(op == CACHE_WRITE, id, s, e, old(Entries(lru.nodes)), Entries(lru.nodes))
    {
      hide Ranges, ListOk, UpdateFrom, LruList.Ok, Entries, Consistent, Derived, Recency, At, Records, Members, Safe, StartsAt,
        NonEmpty, Disjoint, OthersKept, OthersDropped, LastOk;
      LruHoldsPages(freePages, {});
      var bad;
      u, bad, freed := Walk(id, op, s, e, k0);
      ok := !bad;
      LruHoldsPages(freePages, {});
      DerivedOrder(IsCacheWrite(op), id, s, e, old(Entries(lru.nodes)), Entries(lru.nodes));
    }

    /** Counts the requested pages that are not cached (`walkCache_countMissing`). */
    method CountMissing(id: int, start: int, e: int) returns (missing: int)
      requires Healthy() && id in files && FileOk(id) && start <= e
      ensures Healthy() && missing == Absent(Ranges(files[id].nodes), start, e)
    {
      hide Ranges, Sorted, Absent, Consistent;
      var cur, s := files[id].prHead, start;
      ghost var nodes, k := files[id].nodes, 0;
      ghost var list := Ranges(nodes);
      RangesAre(nodes);
      assert list[0..] == list;
      missing := 0;
      while cur != null
        invariant 0 <= k <= |nodes| && cur == (if k < |nodes| then nodes[k] else null) && start <= s <= e
        invariant missing + Absent(list[k..], s, e) == Absent(list, start, e)
        invariant Healthy()
        decreases |nodes| - k
      {
        SortedSuffix(list, k);
        assert list[k..][0] == cur.Value() && list[k..][1..] == list[k + 1..];
        if s < cur.start {
          AbsentNode(list[k..], s, if e <= cur.start then e else cur.start);
          if e <= cur.start {
            missing := missing + (e - s);
            return;
          }
          AbsentSplit(list[k..], s, cur.start, e);
          missing := missing + (cur.start - s);
          s := cur.start;
        }
        if s < cur.end {
          RecordNonEmpty(files[id], k);
          AbsentNode(list[k..], s, if e < cur.end then e else cur.end);
          if e < cur.end {
            return;
          }
          AbsentSplit(list[k..], s, cur.end, e);
          s := cur.end;
        }
        AbsentNode(list[k..], s, e);
        if s == e {
          NoneAbsent(list[k..], s);
          return;
        }
        cur := cur.next;
        k := k + 1;
      }
      NothingCached(list[k..], s, e);
      missing := missing + (e - s);
    }

    /** Searches the list for the next access of a read request (`readCache`, without read-ahead). */
    method FindAccess(id: int, s: int, e: int) returns (choice: Access)
      requires Healthy() && id in files && FileOk(id) && s < e
      ensures Healthy() && choice == NextAccess(Ranges(files[id].nodes), s, e, diskReadBatch)
    {
      hide Ranges, Sorted, Consistent;
      var cur := files[id].prHead;
      ghost var nodes, k := files[id].nodes, 0;
      ghost var list := Ranges(nodes);
      RangesAre(nodes);
      assert list[0..] == list;
      while cur != null
        invariant 0 <= k <= |nodes| && cur == (if k < |nodes| then nodes[k] else null)
        invariant NextAccess(list[k..], s, e, diskReadBatch) == NextAccess(list, s, e, diskReadBatch)
        invariant Healthy()
        decreases |nodes| - k
      {
        assert list[k..][0] == cur.Value() && list[k..][1..] == list[k + 1..];
        if !(cur.start >= e || cur.end <= s) {
          if cur.flags.locked {
            return Wait;
          }
          if s < cur.start {
            return FromDisk(s, Min(if e < cur.start then e else cur.start, s + diskReadBatch));
          }
          return FromCache(s, if cur.end < e then cur.end else e);
        } else if cur.end <= s {
          RecordNonEmpty(files[id], k);
          cur := cur.next;
          k := k + 1;
        } else {
          return FromDisk(s, Min(e, s + diskReadBatch));
        }
      }
      return FromDisk(s, Min(e, s + diskReadBatch));
    }

    /** Decides on the next access of a read and prepares it: never refused. */
    method ReadCache(id: int, s: int, e: int, ghost k0: nat) returns (choice: Access, ghost freed: nat)
      requires Healthy() && s < e && id in files && LastOk(files[id]) && StartsAt(files[id], s, k0) && FileOk(id)
      requires diskReadBatch > 0 && (Absent(Ranges(files[id].nodes), s, e) > freePages ==> Safe(id))
      modifies this`freePages, this`dirtyPages, lru, Members(lru.nodes), files.Values
      ensures Healthy() && files == old(files) && LastOk(files[id]) && OthersDropped(id)
      ensures choice == NextAccess(old(Ranges(files[id].nodes)), s, e, diskReadBatch)
      ensures dirtyPages == old(dirtyPages)
      ensures match choice
              case Wait => Ranges(files[id].nodes) == old(Ranges(files[id].nodes)) && freePages == old(freePages)
              case FromDisk(a, b) =>
                && Pointwise(DISK_READ, old(Ranges(files[id].nodes)), Ranges(files[id].nodes), a, b)
                && freePages == old(freePages) + freed - (b - a) && (b - a <= old(freePages) ==> freed == 0)
                && Recency(false, id, a, b, old(Entries(lru.nodes)), Entries(lru.nodes))
              case FromCache(a, b) =>
                && a < b && Ranges(files[id].nodes) == UpdateFrom(CACHE_READ, old(Ranges(files[id].nodes)), k0, a, b).list
                && freePages == old(freePages) && Recency(false, id, a, b, old(Entries(lru.nodes)), Entries(lru.nodes))
      ensures choice.FromDisk? || OthersKept(id)
    {
      hide Ranges, ListOk, LruList.Ok, UpdateFrom, Pointwise, NextAccess, Absent, Records, Entries, Consistent,
        Recency, At, Members, NoCold, LastOk;
      ghost var list := Ranges(files[id].nodes);
      choice := FindAccess(id, s, e);
      freed := 0;
      StartBelow(id, s, k0);
      assert Healthy();
      HealthyFile(id);
      if choice == Wait {
        return;
      }
      ReadIsNotRefused(list, k0, s, e, diskReadBatch);
      ghost var u;
      var ok;
      u, ok, freed := WalkCacheUpdate(id, if choice.FromDisk? then DISK_READ else CACHE_READ, choice.start, choice.end, k0);
    }

    lemma HealthyFile(id: int)
      requires Healthy() && id in files
      ensures FileOk(id) && Sorted(Ranges(files[id].nodes))
    {
    }

    lemma StartBelow(id: int, s: int, k0: nat)
      requires id in files && FileOk(id) && StartsAt(files[id], s, k0)
      ensures k0 == 0 || (k0 < |Ranges(files[id].nodes)| && Ranges(files[id].nodes)[k0].start < s)
      ensures k0 <= |files[id].nodes|
    {
      RangesAre(files[id].nodes);
    }

    /** Writes to the cache unless that would bring the dirty pages to the threshold. */
    method WriteCache(id: int, s: int, e: int, ghost k0: nat) returns (cached: bool, ghost freed: nat)
      requires Healthy() && s < e && id in files && LastOk(files[id]) && StartsAt(files[id], s, k0) && FileOk(id)
      requires Absent(Ranges(files[id].nodes), s, e) > freePages ==> Safe(id)
      modifies this`freePages, this`dirtyPages, lru, Members(lru.nodes), files.Values
      ensures Healthy() && files == old(files) && LastOk(files[id]) && OthersDropped(id)
      ensures var missing := Absent(old(Ranges(files[id].nodes)), s, e);
              && (cached <==> old(dirtyPages) + missing < dirtyThreshold)
              && (missing <= old(freePages) ==> freed == 0 && OthersKept(id))
              && (cached ==>
                    && Pointwise(CACHE_WRITE, old(Ranges(files[id].nodes)), Ranges(files[id].nodes), s, e)
                    && freePages == old(freePages) + freed - missing && dirtyPages == old(dirtyPages) + missing < dirtyThreshold
                    && Recency(true, id, s, e, old(Entries(lru.nodes)), Entries(lru.nodes)))
              && (!cached ==>
                    && Ranges(files[id].nodes) == old(Ranges(files[id].nodes))
                    && freePages == old(freePages) && dirtyPages == old(dirtyPages))
    {
      hide Ranges, ListOk, LruList.Ok, UpdateFrom, Pointwise, Absent, Records, Entries, Consistent, Recency, At,
        Members, NoCold, LastOk;
      ghost var list := Ranges(files[id].nodes);
      var dirtyIncrease := CountMissing(id, s, e);
      StartBelow(id, s, k0);
      assert Healthy();
      HealthyFile(id);
      cached, freed := dirtyPages + dirtyIncrease < dirtyThreshold, 0;
      if cached {
        CacheWriteIsNotRefused(list, k0, s, e);
        ghost var u;
        var ok;
        u, ok, freed := WalkCacheUpdate(id, CACHE_WRITE, s, e, k0);
      }
    }

    /** `cur` takes over the pages of the next record of its file, which is just before it on the LRU list. */
    method JoinNext(file: CachedFile, cur: PageRange, nxt: PageRange, ghost k: nat, ghost j: nat, ghost others: set<PageRange>)
      requires file.Ok() && Sorted(Ranges(file.nodes)) && lru.Ok() && Threaded(lru, file, others)
      requires k + 1 < |file.nodes| && file.nodes[k] == cur && file.nodes[k + 1] == nxt
      requires 0 < j < |lru.nodes| && lru.nodes[j] == cur && lru.nodes[j - 1] == nxt
      requires cur.flags == nxt.flags && cur.end == nxt.start
      modifies cur`end, cur`next, cur`lruPrev, file`nodes, file.nodes`prev, lru`head, lru`nodes, Members(lru.nodes)`lruNext
      ensures file.Ok() && Sorted(Ranges(file.nodes)) && lru.Ok()
      ensures file.nodes == Remove(old(file.nodes), k + 1) && lru.nodes == Remove(old(lru.nodes), j - 1)
      ensures Members(lru.nodes) == others + Members(file.nodes)
      ensures Total(Ranges(file.nodes)) == old(Total(Ranges(file.nodes)))
      ensures Entries(lru.nodes) == Merged(old(Entries(lru.nodes)), j)
    {
      hide Ranges, Sorted, CachedFile.Ok, LruList.Ok, Remove, Total, Joined, Merged, Entries;
      ghost var (list, l) := (Ranges(file.nodes), Entries(lru.nodes));
      ghost var (fewer, threads) := (Remove(file.nodes, k + 1), Remove(lru.nodes, j - 1));
      JoinedSorted(list, k);
      RangesAre(file.nodes);
      EntriesAre(lru.nodes);
      JoinedTotal(list, k);
      ListsDistinct(file, lru);
      MembersRemove(file.nodes, k + 1);
      MembersRemove(lru.nodes, j - 1);
      cur.end := nxt.end;
      JoinedRanges(file.nodes, list, k);
      MergedEntries(lru.nodes, l, j);
      assert file.Ok() == old(file.Ok());
      file.Absorb(cur, nxt, k);
      assert forall i :: 0 <= i < |lru.nodes| ==> lru.nodes[i] in Members(lru.nodes);
      lru.Absorb(cur, nxt, j);
      assert Ranges(fewer) == Joined(list, k) && Entries(threads) == Merged(l, j);
    }

    lemma MoreRecent(i: nat, free: int)
      requires Consistent(free, {}) && i < |lru.nodes| && lru.nodes[i].lruPrev != null
      ensures i > 0 && lru.nodes[i].lruPrev == lru.nodes[i - 1] && Adjacent(Entries(lru.nodes), i) ==
                 (lru.nodes[i].fileid == lru.nodes[i - 1].fileid && lru.nodes[i].end == lru.nodes[i - 1].start
                  && lru.nodes[i].flags == lru.nodes[i - 1].flags)
    {
      hide Entries;
      EntriesAre(lru.nodes);
    }

    lemma InFileAndLru(id: int, k: nat)
      requires Healthy() && id in files && k < |files[id].nodes|
      ensures files[id].nodes[k] in Members(lru.nodes) && Distinct(files[id].nodes)
    {
      hide Ranges, Sorted, LruList.Ok, Sum, Sizes;
      assert FileOk(id);
      RecordsOf(id);
    }

    /** One merge; the other files are not touched. */
    method MergeRecords(file: CachedFile, cur: PageRange, nxt: PageRange, ghost k: nat, ghost others: set<PageRange>)
      requires Healthy() && file.id in files && files[file.id] == file && k + 1 < |file.nodes|
      requires file.nodes[k] == cur && file.nodes[k + 1] == nxt
      requires cur.lruPrev == nxt && cur.flags == nxt.flags && cur.end == nxt.start
      requires others == Records() - Members(file.nodes)
      modifies cur`end, cur`next, cur`lruPrev, file`nodes, file.nodes`prev, lru`head, lru`nodes
      modifies Members(lru.nodes)`lruNext
      ensures FileOk(file.id) && lru.Ok() && file.nodes == Remove(old(file.nodes), k + 1)
      ensures Members(lru.nodes) == others + Members(file.nodes) && Members(file.nodes) <= old(Members(file.nodes))
      ensures Total(Ranges(file.nodes)) == old(Total(Ranges(file.nodes)))
      ensures Tidier(old(Entries(lru.nodes)), Entries(lru.nodes))
    {
      hide Ranges, Sorted, CachedFile.Ok, LruList.Ok, Sum, Total, Remove, Alone, Entries, Merged, Tidier, Adjacent, Sizes;
      Linkable(file.id, others);
      InFileAndLru(file.id, k);
      ghost var j :| 0 <= j < |lru.nodes| && lru.nodes[j] == cur;
      assert FileOk(file.id);
      RecordsOf(file.id);
      assert nxt in file.nodes && cur in file.nodes;
      MoreRecent(j, freePages);
      LruHoldsPages(freePages, {});
      MergedIsTidier(Entries(lru.nodes), j);
      MembersRemove(file.nodes, k + 1);
      JoinNext(file, cur, nxt, k, j, others);
    }

    /** The other files are not touched by it. */
    method MergeBeside(file: CachedFile, cur: PageRange, nxt: PageRange, ghost k: nat, ghost others: set<PageRange>)
      requires Healthy() && file.id in files && files[file.id] == file && k + 1 < |file.nodes|
      requires file.nodes[k] == cur && file.nodes[k + 1] == nxt && others == Records() - Members(file.nodes)
      requires cur.lruPrev == nxt && cur.flags == nxt.flags && cur.end == nxt.start
      modifies cur`end, cur`next, cur`lruPrev, file`nodes, file.nodes`prev, lru`head, lru`nodes
      modifies Members(lru.nodes)`lruNext
      ensures FileOk(file.id) && lru.Ok() && file.nodes == Remove(old(file.nodes), k + 1)
      ensures Members(lru.nodes) == others + Members(file.nodes) && Members(file.nodes) <= old(Members(file.nodes))
      ensures Total(Ranges(file.nodes)) == old(Total(Ranges(file.nodes))) && OthersInPlace(file.id)
      ensures Tidier(old(Entries(lru.nodes)), Entries(lru.nodes))
      ensures forall other :: other in files && other != file.id ==> FileOk(other) && Pages(other) == old(Pages(other))
    {
      hide Ranges, Sorted, CachedFile.Ok, LruList.Ok, Sum, Total, Remove, Entries, Tidier, Distinct, Consistent, Sizes;
      ghost var id := file.id;
      Linkable(id, others);
      MergeRecords(file, cur, nxt, k, others);
      assert cur in old(file.nodes);
      forall other | other in files && other != id
        ensures FileOk(other) && Pages(other) == old(Pages(other)) && FileKept(files[other])
      {
        assert old(ListOk(files[other], other)) && files[other] != file;
        assert forall n :: n in files[other].nodes ==> n !in old(file.nodes);
        assert Ranges(files[other].nodes) == old(Ranges(files[other].nodes));
        assert forall n :: n in files[other].nodes ==> n.next == old(n.next) && n.prev == old(n.prev);
        assert files[other].Ok() == old(files[other].Ok());
      }
    }

    /** One merge, and what it keeps. */
    method MergeNext(file: CachedFile, cur: PageRange, nxt: PageRange, ghost k: nat)
      requires Healthy() && file.id in files && files[file.id] == file && k + 1 < |file.nodes|
      requires file.nodes[k] == cur && file.nodes[k + 1] == nxt
      requires cur.lruPrev == nxt && cur.flags == nxt.flags && cur.end == nxt.start
      modifies cur`end, cur`next, cur`lruPrev, file`nodes, Members(lru.nodes)`prev, lru`head, lru`nodes
      modifies Members(lru.nodes)`lruNext
      ensures Healthy() && file.nodes == Remove(old(file.nodes), k + 1) && OthersInPlace(file.id)
      ensures Tidier(old(Entries(lru.nodes)), Entries(lru.nodes)) && Members(lru.nodes) <= old(Members(lru.nodes))
    {
      hide Ranges, ListOk, LruList.Ok, Sum, Total, Remove, Entries, Tidier, Distinct, Consistent, Sizes;
      ghost var id := file.id;
      ghost var others := Records() - Members(file.nodes);
      Linkable(id, others);
      OnTheList(id);
      MergeBeside(file, cur, nxt, k, others);
      assert forall other :: other in files && other != id ==> files[other].nodes == old(files[other].nodes);
      ConsistentAgain(id, others, old(Sizes()), freePages, {});
    }

    /** Two neighbours in the file that could be one record. */
    ghost predicate Joinable(cur: PageRange, nxt: PageRange)
      reads cur`flags, cur`end, cur`lruPrev, nxt`flags, nxt`start
    {
      cur.fileid == nxt.fileid && cur.flags == nxt.flags && cur.end == nxt.start && cur.lruPrev == nxt
    }

    /** No two neighbours in the file are left that could be one record. */
    ghost predicate Trimmed(file: CachedFile)
      reads file`nodes, file.nodes`start, file.nodes`end, file.nodes`flags, file.nodes`lruPrev
    {
      var list := Ranges(file.nodes);
      forall i {:trigger list[i]} :: 0 <= i < |file.nodes| - 1 ==>
        !(list[i].flags == list[i + 1].flags && list[i].end == list[i + 1].start && file.nodes[i].lruPrev == file.nodes[i + 1])
    }

    lemma NoneJoinable(file: CachedFile)
      requires Healthy() && file.id in files && files[file.id] == file
      requires forall i :: 0 <= i < |file.nodes| - 1 ==> !Joinable(file.nodes[i], file.nodes[i + 1])
      ensures Trimmed(file)
    {
      assert FileOk(file.id);
      RangesAre(file.nodes);
      FileIds(file);
      hide Ranges, CachedFile.Ok;
      forall i | 0 <= i < |file.nodes| - 1
        ensures var list := Ranges(file.nodes);
                !(list[i].flags == list[i + 1].flags && list[i].end == list[i + 1].start
                  && file.nodes[i].lruPrev == file.nodes[i + 1])
      {
        assert !Joinable(file.nodes[i], file.nodes[i + 1]);
      }
    }

    /** Other files are left alone, also in where their records are on the LRU list. */
    twostate predicate OthersInPlace(id: int)
      reads this, files.Values, Records()
    {
      && OthersKept(id)
      && forall other, n :: other in files && other != id && n in files[other].nodes ==> n.lruPrev == old(n.lruPrev)
    }

    lemma FilesDiffer()
      requires Healthy()
      ensures forall id :: id in files ==> files[id].id == id
    {
      forall id | id in files
        ensures files[id].id == id
      {
        assert FileOk(id);
      }
    }

    lemma FileHead(id: int)
      requires Healthy() && id in files
      ensures files[id].id == id && files[id].Holds(files[id].prHead, 0)
    {
      assert FileOk(id);
    }

    lemma FileNext(id: int, k: nat)
      requires Healthy() && id in files && k < |files[id].nodes|
      ensures files[id].Holds(files[id].nodes[k].next, k + 1) && files[id].nodes[k].fileid == id
    {
      assert FileOk(id);
    }

    lemma FileEnd(id: int, k: nat)
      requires Healthy() && id in files && k <= |files[id].nodes|
      requires k < |files[id].nodes| ==> files[id].nodes[k].next == null
      ensures k >= |files[id].nodes| - 1
    {
      assert FileOk(id);
    }

    /** Merges neighbours of one file that are also neighbours on the LRU list (`trimCache`). */
    method TrimCache(id: int)
      requires Healthy() && id in files
      modifies lru, Members(lru.nodes), files[id]
      ensures Healthy() && files == old(files) && files[id].prLast == null
      ensures Tidier(old(Entries(lru.nodes)), Entries(lru.nodes))
      ensures |files[id].nodes| <= |old(files[id].nodes)| && Members(lru.nodes) <= old(Members(lru.nodes))
      ensures Trimmed(files[id]) && OthersInPlace(id)
    {
      hide Ranges, Remove, Entries, Tidier, FileOk, Sizes, Members, CachedFile.Ok, LruList.Ok, Sum, Consistent, Sorted;
      var file := files[id];
      FilesDiffer();
      file.prLast := null;
      var cur := file.prHead;
      ghost var k := 0;
      TidierSelf(Entries(lru.nodes));
      FileHead(id);
      while cur != null && cur.next != null
        invariant Healthy() && 0 <= k <= |file.nodes| <= |old(file.nodes)| && file.Holds(cur, k) && file.prLast == null
        invariant Tidier(old(Entries(lru.nodes)), Entries(lru.nodes)) && Members(lru.nodes) <= old(Members(lru.nodes))
        invariant forall i :: 0 <= i < k && i + 1 < |file.nodes| ==> !Joinable(file.nodes[i], file.nodes[i + 1])
        invariant OthersInPlace(id)
        decreases |file.nodes| - k
      {
        FileNext(id, k);
        var nxt := cur.next;
        if cur.fileid == nxt.fileid && cur.flags == nxt.flags && cur.end == nxt.start && cur.lruPrev == nxt {
          ghost var (l, was) := (Entries(lru.nodes), file.nodes);
          RemoveIs(was, k + 1);
          InFileAndLru(id, k);
          InFileAndLru(id, k + 1);
          MergeNext(file, cur, nxt, k);
          forall i | 0 <= i < k && i + 1 < |file.nodes|
            ensures !Joinable(file.nodes[i], file.nodes[i + 1])
          {
            assert file.nodes[i] == was[i] && was[i] != cur && file.nodes[i + 1] == was[i + 1];
          }
          TidierTwice(old(Entries(lru.nodes)), l, Entries(lru.nodes));
        } else {
          cur := cur.next;
          k := k + 1;
        }
      }
      FileEnd(id, k);
      NoneJoinable(file);
    }

    lemma KnownIDs()
      requires Healthy()
      ensures forall h :: 0 <= h < |fileIDs| ==> fileIDs[h] in files
      ensures forall id :: id in files ==> exists h :: 0 <= h < |fileIDs| && fileIDs[h] == id
    {
      forall h | 0 <= h < |fileIDs|
        ensures fileIDs[h] in files
      {
        var id := fileIDs[h];
        assert id in fileIDs;
        assert id in files;
      }
      forall id | id in files
        ensures exists h :: 0 <= h < |fileIDs| && fileIDs[h] == id
      {
        assert id in fileIDs;
      }
    }

    ghost predicate TrimmedFile(file: CachedFile)
      reads file`prLast, file`nodes, file.nodes`start, file.nodes`end, file.nodes`flags, file.nodes`lruPrev
    {
      file.prLast == null && Trimmed(file)
    }

    /** Trims the lists of all files (`trimAllCache`). */
    method TrimAllCache()
      requires Healthy()
      modifies lru, Members(lru.nodes), files.Values
      ensures Healthy() && Tidier(old(Entries(lru.nodes)), Entries(lru.nodes))
      ensures forall id :: id in files ==> files[id].prLast == null && Trimmed(files[id])
    {
      hide Ranges, Entries, Tidier, FileOk, Sizes, CachedFile.Ok, LruList.Ok, Sum, Consistent, Sorted;
      TidierSelf(Entries(lru.nodes));
      KnownIDs();
      NotTwice();
      FilesDiffer();
      for i := 0 to |fileIDs|
        invariant Healthy() && Tidier(old(Entries(lru.nodes)), Entries(lru.nodes))
        invariant Members(lru.nodes) <= old(Members(lru.nodes))
        invariant forall h :: 0 <= h < i ==> fileIDs[h] in files && TrimmedFile(files[fileIDs[h]])
      {
        ghost var l := Entries(lru.nodes);
        label Before:
        TrimCache(fileIDs[i]);
        forall h | 0 <= h < i
          ensures TrimmedFile(files[fileIDs[h]])
        {
          ghost var f := files[fileIDs[h]];
          assert fileIDs[h] != fileIDs[i] && FileKept@Before(f) && old@Before(TrimmedFile(f));
          assert forall n :: n in f.nodes ==> n.lruPrev == old@Before(n.lruPrev);
        }
        TidierTwice(old(Entries(lru.nodes)), l, Entries(lru.nodes));
      }
    }

    /** The records of the listed files. */
    ghost function RecordsOfAll(ids: seq<int>): set<PageRange>
      reads this`files, files.Values`nodes
      requires forall i :: 0 <= i < |ids| ==> ids[i] in files
    {
      if ids == [] then {} else RecordsOfAll(ids[..|ids| - 1]) + Members(files[ids[|ids| - 1]].nodes)
    }

    ghost function Count(ids: seq<int>): nat
      reads this`files, files.Values`nodes
      requires forall i :: 0 <= i < |ids| ==> ids[i] in files
    {
      if ids == [] then 0 else Count(ids[..|ids| - 1]) + |files[ids[|ids| - 1]].nodes|
    }

    lemma {:induction false} RecordsOfAllAre(ids: seq<int>, n: PageRange)
      requires forall i :: 0 <= i < |ids| ==> ids[i] in files
      ensures n in RecordsOfAll(ids) <==> exists i :: 0 <= i < |ids| && n in files[ids[i]].nodes
    {
      if ids != [] {
        var front := ids[..|ids| - 1];
        RecordsOfAllAre(front, n);
        assert forall i :: 0 <= i < |front| ==> front[i] == ids[i];
        assert n in files[ids[|ids| - 1]].nodes || n !in files[ids[|ids| - 1]].nodes;
      }
    }

    lemma {:induction false} CountIs(ids: seq<int>)
      requires forall id :: id in files ==> FileOk(id)
      requires Distinct(ids) && forall i :: 0 <= i < |ids| ==> ids[i] in files
      ensures |RecordsOfAll(ids)| == Count(ids)
    {
      hide Ranges, Sorted, CachedFile.Ok;
      if ids != [] {
        var (front, last) := (ids[..|ids| - 1], ids[|ids| - 1]);
        CountIs(front);
        FileDistinct(last);
        MembersCount(files[last].nodes);
        RecordsOf(last);
        forall n | n in RecordsOfAll(front)
          ensures n !in files[last].nodes
        {
          RecordsOfAllAre(front, n);
          var i :| 0 <= i < |front| && n in files[front[i]].nodes;
          RecordsOf(front[i]);
        }
        assert RecordsOfAll(front) !! Members(files[last].nodes);
      }
    }

    /** There are as many records in the files as on the LRU list. */
    lemma AsManyRecords()
      requires Healthy()
      ensures (forall i :: 0 <= i < |fileIDs| ==> fileIDs[i] in files) && Count(fileIDs) == |lru.nodes|
    {
      hide Ranges, Sorted, CachedFile.Ok, LruList.Ok, Sizes, Sum, RecordsOfAll, Count;
      KnownIDs();
      NotTwice();
      CountIs(fileIDs);
      MembersCount(lru.nodes);
      forall n | n in RecordsOfAll(fileIDs)
        ensures n in Members(lru.nodes)
      {
        RecordsOfAllAre(fileIDs, n);
        var i :| 0 <= i < |fileIDs| && n in files[fileIDs[i]].nodes;
        RecordsOf(fileIDs[i]);
      }
      forall n | n in Members(lru.nodes)
        ensures n in RecordsOfAll(fileIDs)
      {
        RecordListed(n);
        RecordsOfAllAre(fileIDs, n);
      }
      assert RecordsOfAll(fileIDs) == Members(lru.nodes);
    }

    lemma NotTwice()
      requires Healthy()
      ensures Distinct(fileIDs) && Distinct(lru.nodes) && forall id :: id in files ==> FileOk(id)
    {
    }

    lemma RecordListed(n: PageRange)
      requires Healthy() && n in Members(lru.nodes)
      ensures exists i :: 0 <= i < |fileIDs| && fileIDs[i] in files && n in files[fileIDs[i]].nodes
    {
      KnownIDs();
      var id :| id in files && n in files[id].nodes;
      var i :| 0 <= i < |fileIDs| && fileIDs[i] == id;
    }

    /** The list of a file as far as its forward links say. */
    static ghost predicate Forward(file: CachedFile)
      reads file`prHead, file`nodes, file.nodes`next
    {
      && file.prHead == (if file.nodes == [] then null else file.nodes[0])
      && forall i {:trigger file.nodes[i].next} :: 0 <= i < |file.nodes| ==>
           file.nodes[i].next == if i + 1 < |file.nodes| then file.nodes[i + 1] else null
    }

    /** What the health check tests of a file: every record is linked both ways with its neighbours, and what is before
        it leads to it. */
    static ghost predicate BackLinked(file: CachedFile)
      reads file, file.nodes, set n | n in file.nodes && n.prev != null :: n.prev
    {
      && (forall i :: 0 <= i < |file.nodes| && file.nodes[i].prev != null ==> file.nodes[i].prev.next == file.nodes[i])
      && (forall i {:trigger file.nodes[i + 1]} :: 0 <= i < |file.nodes| - 1 ==> file.nodes[i + 1].prev == file.nodes[i])
    }

    static ghost predicate LruForward(lru: LruList)
      reads lru`head, lru`nodes, lru.nodes`lruNext
    {
      && lru.head == (if lru.nodes == [] then null else lru.nodes[0])
      && forall i {:trigger lru.nodes[i].lruNext} :: 0 <= i < |lru.nodes| ==>
           lru.nodes[i].lruNext == if i + 1 < |lru.nodes| then lru.nodes[i + 1] else null
    }

    static ghost predicate LruBackLinked(lru: LruList)
      reads lru`nodes, lru.nodes`lruPrev
    {
      forall i {:trigger lru.nodes[i + 1]} :: 0 <= i < |lru.nodes| - 1 ==> lru.nodes[i + 1].lruPrev == lru.nodes[i]
    }

    /** Follows the links of one file and counts its records. */
    static method CheckFile(file: CachedFile) returns (ok: bool, count: nat)
      requires Forward(file)
      ensures ok <==> BackLinked(file)
      ensures ok ==> count == |file.nodes|
    {
      var pr := file.prHead;
      count := 0;
      while pr != null
        invariant count <= |file.nodes| && pr == if count < |file.nodes| then file.nodes[count] else null
        invariant forall i :: 0 <= i < count && file.nodes[i].prev != null ==> file.nodes[i].prev.next == file.nodes[i]
        invariant forall i {:trigger file.nodes[i + 1]} :: 0 <= i < count && i < |file.nodes| - 1 ==>
                    file.nodes[i + 1].prev == file.nodes[i]
        decreases |file.nodes| - count
      {
        if pr.prev != null && pr.prev.next != pr {
          return false, count;
        }
        if pr.next != null && pr.next.prev != pr {
          assert file.nodes[count + 1].prev != file.nodes[count];
          return false, count;
        }
        count := count + 1;
        pr := pr.next;
      }
      ok := true;
    }

    static method CheckLru(lru: LruList) returns (ok: bool, count: nat)
      requires LruForward(lru)
      ensures ok <==> LruBackLinked(lru)
      ensures ok ==> count == |lru.nodes|
    {
      var pr := lru.head;
      count := 0;
      while pr != null
        invariant count <= |lru.nodes| && pr == if count < |lru.nodes| then lru.nodes[count] else null
        invariant forall i {:trigger lru.nodes[i + 1]} :: 0 <= i < count && i < |lru.nodes| - 1 ==>
                    lru.nodes[i + 1].lruPrev == lru.nodes[i]
        decreases |lru.nodes| - count
      {
        if pr.lruNext != null && pr.lruNext.lruPrev != pr {
          assert lru.nodes[count + 1].lruPrev != lru.nodes[count];
          return false, count;
        }
        count := count + 1;
        pr := pr.lruNext;
      }
      ok := true;
    }

    /** What the health check finds out: whether all lists are linked both ways, and the files have as many records as
        the LRU list. */
    ghost predicate Sane()
      reads *
      requires forall i :: 0 <= i < |fileIDs| ==> fileIDs[i] in files
    {
      && (forall i :: 0 <= i < |fileIDs| ==> BackLinked(files[fileIDs[i]]))
      && LruBackLinked(lru) && Count(fileIDs) == |lru.nodes|
    }

    /** The files one after the other. */
    method CheckFiles() returns (ok: bool, total: int)
      requires forall i :: 0 <= i < |fileIDs| ==> fileIDs[i] in files && Forward(files[fileIDs[i]])
      ensures ok <==> forall i :: 0 <= i < |fileIDs| ==> BackLinked(files[fileIDs[i]])
      ensures ok ==> total == Count(fileIDs)
    {
      hide BackLinked, Forward;
      total := 0;
      for i := 0 to |fileIDs|
        invariant total == Count(fileIDs[..i])
        invariant forall h :: 0 <= h < i ==> BackLinked(files[fileIDs[h]])
      {
        assert fileIDs[..i + 1][..i] == fileIDs[..i];
        var fine, count := CheckFile(files[fileIDs[i]]);
        if !fine {
          return false, total;
        }
        total := total + count;
      }
      assert fileIDs[..|fileIDs|] == fileIDs;
      ok := true;
    }

    /** The cache's own health check (`checkListHealth`), on lists that end. */
    method CheckListHealth() returns (ok: bool)
      requires forall i :: 0 <= i < |fileIDs| ==> fileIDs[i] in files && Forward(files[fileIDs[i]])
      requires LruForward(lru)
      ensures ok <==> Sane()
    {
      hide BackLinked, LruBackLinked, Forward, LruForward, Count;
      var fine, total := CheckFiles();
      if !fine {
        return false;
      }
      var count;
      fine, count := CheckLru(lru);
      ok := fine && total - count == 0;
    }

    /** Every healthy cache passes. */
    lemma HealthyIsSane()
      requires Healthy()
      ensures forall i :: 0 <= i < |fileIDs| ==> fileIDs[i] in files && Forward(files[fileIDs[i]])
      ensures LruForward(lru) && Sane()
    {
      hide Ranges, Sorted, Records, Sizes, Sum, Count;
      AsManyRecords();
      NotTwice();
      forall i | 0 <= i < |fileIDs|
        ensures Forward(files[fileIDs[i]]) && BackLinked(files[fileIDs[i]])
      {
        assert FileOk(fileIDs[i]);
      }
    }

    ghost function EntriesOf(id: int): seq<Entry>
      reads this`files, files.Values`nodes, Records()
      requires id in files
    {
      Entries(files[id].nodes)
    }

    /** The records of the files, file by file. */
    ghost function Listings(ids: seq<int>): (parts: seq<seq<Entry>>)
      reads this`files, files.Values`nodes, Records()
      requires forall i :: 0 <= i < |ids| ==> ids[i] in files
      ensures |parts| == |ids|
    {
      if ids == [] then [] else Listings(ids[..|ids| - 1]) + [EntriesOf(ids[|ids| - 1])]
    }

    lemma {:induction false} ListingsAre(ids: seq<int>)
      requires forall i :: 0 <= i < |ids| ==> ids[i] in files
      ensures forall i :: 0 <= i < |ids| ==> Listings(ids)[i] == Entries(files[ids[i]].nodes)
    {
      if ids != [] {
        ListingsAre(ids[..|ids| - 1]);
      }
    }

    lemma FileHasPages(id: int)
      requires id in files && FileOk(id)
      ensures NonEmpty(Entries(files[id].nodes)) && files[id].Ok()
    {
      EntriesAre(files[id].nodes);
      RangesAre(files[id].nodes);
    }

    /** Chooses up to `n` pages of one file; `left` are still wanted. */
    method WriteoutOf(file: CachedFile, n: int) returns (out: seq<Entry>, left: int)
      requires file.Ok() && NonEmpty(Entries(file.nodes)) && n > 0
      ensures var l := Entries(file.nodes);
              out == Writeout(l, n) && left == if EligiblePages(l) >= n then 0 else n - EligiblePages(l)
    {
      hide Entries, Eligible, Writeout, EligiblePages, Ranges, Sorted;
      out, left := [], n;
      var cur := file.prHead;
      ghost var k := 0;
      ghost var l := Entries(file.nodes);
      EntriesAre(file.nodes);
      assert l[0..] == l && [] + Writeout(l, n) == Writeout(l, n);
      while cur != null
        invariant 0 <= k <= |l| == |file.nodes| && cur == (if k < |file.nodes| then file.nodes[k] else null) && left > 0
        invariant out + Writeout(l[k..], left) == Writeout(l, n)
        invariant n - left == EligiblePages(l) - EligiblePages(l[k..])
        decreases |file.nodes| - k
      {
        WriteoutNext(l, k, left);
        if Eligible(cur.flags) {
          var tmp := Entry(cur.fileid, Range(cur.start, cur.end, cur.flags));
          if cur.end - cur.start >= left {
            out := out + [FirstPages(tmp, left)];
            left := 0;
            return;
          }
          Associative(out, [tmp], Writeout(l[k + 1..], left - Size(tmp)));
          out := out + [tmp];
          left := left - (cur.end - cur.start);
        }
        cur := cur.next;
        k := k + 1;
      }
      NothingChosen(out, l[k..], left);
    }

    static lemma NothingChosen(out: seq<Entry>, l: seq<Entry>, left: int)
      requires l == []
      ensures out + Writeout(l, left) == out && EligiblePages(l) == 0
    {
    }

    /** The files from the one at `start` on, all around. */
    ghost function Rotation(ids: seq<int>, start: nat): (r: seq<int>)
      requires start < |ids|
      ensures |r| == |ids|
    {
      ids[start..] + ids[..start]
    }

    /** Where a file is in the list of files. */
    ghost function PlaceOf(ids: seq<int>, id: int): (i: nat)
      requires id in ids
      ensures i < |ids| && ids[i] == id
    {
      if ids[0] == id then 0 else 1 + PlaceOf(ids[1..], id)
    }

    lemma RotationIs(ids: seq<int>, start: nat, j: nat)
      requires start < |ids| && j <= |ids| && Distinct(ids)
      ensures var i := if start + j < |ids| then start + j else start + j - |ids|;
              && (j < |ids| ==> Rotation(ids, start)[j] == ids[i])
              && (0 < j ==> (i < |ids| && ids[i] == ids[start] <==> j == |ids|))
    {
    }

    method FindFile(fid: int) returns (i: nat)
      requires fid in fileIDs && Distinct(fileIDs)
      ensures i == PlaceOf(fileIDs, fid)
    {
      i := 0;
      while fileIDs[i] != fid
        invariant i <= PlaceOf(fileIDs, fid)
        decreases |fileIDs| - i
      {
        i := i + 1;
      }
    }

    /** Chooses `n` pages to write back, or all there are: file by file, starting with file `fid` (`setWriteout`). */
    method SetWriteout(fid: int, n: int) returns (out: seq<Entry>)
      requires Healthy() && fid in files && n > 0
      ensures fid in fileIDs
      ensures forall i :: 0 <= i < |fileIDs| ==> Rotation(fileIDs, PlaceOf(fileIDs, fid))[i] in files
      ensures out == Writeout(Concat(Listings(Rotation(fileIDs, PlaceOf(fileIDs, fid)))), n)
    {
      hide Entries, Ranges, Sorted, CachedFile.Ok, LruList.Ok, Sizes, Sum, Eligible, Writeout, Rotation, Distinct, Consistent, Records,
        EligiblePages, Concat, NonEmpty;
      KnownIDs();
      NotTwice();
      assert fid in fileIDs;
      var start := FindFile(fid);
      ghost var rot := Rotation(fileIDs, start);
      RotationIs(fileIDs, start, 0);
      FilesOfRotation(start);
      ghost var parts := Listings(rot);
      ListingsAre(rot);
      forall h | 0 <= h < |rot|
        ensures files[rot[h]].Ok() && NonEmpty(parts[h]) && parts[h] == Entries(files[rot[h]].nodes)
      {
        FileHasPages(rot[h]);
      }
      out := WriteoutRound(start, n, rot, parts, start);
      ListingsAre(rot);
      assert Listings(rot) == parts;
    }

    method WriteoutRound(first: nat, n: int, ghost rot: seq<int>, ghost parts: seq<seq<Entry>>, ghost start: nat)
      returns (out: seq<Entry>)
      requires first == start < |fileIDs| && Distinct(fileIDs) && rot == Rotation(fileIDs, start) && |parts| == |rot| && n > 0
      requires forall h :: 0 <= h < |fileIDs| ==> fileIDs[h] in files
      requires forall h :: 0 <= h < |rot| ==> rot[h] in files && files[rot[h]].Ok() && NonEmpty(parts[h])
      requires forall h :: 0 <= h < |rot| ==> parts[h] == Entries(files[rot[h]].nodes)
      ensures out == Writeout(Concat(parts), n)
      ensures forall h :: 0 <= h < |rot| ==> parts[h] == Entries(files[rot[h]].nodes)
    {
      hide Entries, CachedFile.Ok, Eligible, Writeout, Rotation, Distinct, EligiblePages, Concat, NonEmpty;
      var i, left := first, n;
      ghost var j := 0;
      out := [];
      assert parts[0..] == parts;
      NothingYet(Writeout(Concat(parts), n));
      while true
        invariant 0 <= j < |rot| == |fileIDs| && left > 0
        invariant i == (if start + j < |fileIDs| then start + j else start + j - |fileIDs|)
        invariant out + Writeout(Concat(parts[j..]), left) == Writeout(Concat(parts), n)
        decreases |rot| - j
      {
        RotationIs(fileIDs, start, j);
        ConcatNext(parts, j, left);
        var more, still := WriteoutOf(files[fileIDs[i]], left);
        Associative(out, more, Writeout(Concat(parts[j + 1..]), still));
        out := out + more;
        left := still;
        if left == 0 {
          return;
        }
        i := i + 1;
        if i == |fileIDs| {
          i := 0;
        }
        j := j + 1;
        RotationIs(fileIDs, start, j);
        if fileIDs[i] == fileIDs[first] {
          NothingListed(out, parts, j, left);
          return;
        }
      }
    }

    lemma FilesOfRotation(start: nat)
      requires start < |fileIDs| && (forall i :: 0 <= i < |fileIDs| ==> fileIDs[i] in files)
      ensures forall i :: 0 <= i < |fileIDs| ==> Rotation(fileIDs, start)[i] in files
    {
    }

    lemma NothingYet(x: seq<Entry>)
      ensures [] + x == x
    {
    }

    /** Back at the first file the whole round is done. */
    lemma NothingListed(out: seq<Entry>, parts: seq<seq<Entry>>, j: nat, left: int)
      requires j == |parts|
      ensures out + Writeout(Concat(parts[j..]), left) == out
    {
    }
  }
}
