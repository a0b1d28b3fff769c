/** The linked records of the page cache: each node is on its file's list and on the global LRU list. */
module PageNodes {
  import opened PageRanges

  class PageRange {
    const fileid: int
    var start: int
    var end: int
    var flags: Flags
    var next: PageRange?
    var prev: PageRange?
    var lruNext: PageRange?
    var lruPrev: PageRange?

    constructor (fileid: int, start: int, end: int, flags: Flags)
      ensures this.fileid == fileid && Value() == Range(start, end, flags)
      ensures next == null && prev == null && lruNext == null && lruPrev == null
    {
      this.fileid, this.start, this.end, this.flags := fileid, start, end, flags;
      next, prev, lruNext, lruPrev := null, null, null, null;
    }

    ghost function Value(): Range
      reads this`start, this`end, this`flags
    {
      Range(start, end, flags)
    }
  }

  ghost predicate Distinct<T>(s: seq<T>) {
    forall i, j :: 0 <= i < j < |s| ==> s[i] != s[j]
  }

  ghost function Ranges(nodes: seq<PageRange>): (r: seq<Range>)
    reads nodes`start, nodes`end, nodes`flags
    ensures |r| == |nodes|
  {
    if nodes == [] then []
    else
      var last := |nodes| - 1;
      assert forall i :: 0 <= i < last ==> nodes[i] in nodes;
      Ranges(nodes[..last]) + [nodes[last].Value()]
  }

  lemma {:induction false} RangesAre(nodes: seq<PageRange>)
    ensures forall i :: 0 <= i < |nodes| ==> Ranges(nodes)[i] == nodes[i].Value()
  {
    if nodes != [] {
      RangesAre(nodes[..|nodes| - 1]);
    }
  }

  /** `s` with `x` at position `k`. */
  ghost function Insert<T>(s: seq<T>, k: nat, x: T): (r: seq<T>)
    requires k <= |s|
    ensures |r| == |s| + 1 && r[k] == x
  {
    s[..k] + [x] + s[k..]
  }

  lemma InsertIs<T>(s: seq<T>, k: nat, x: T)
    requires k <= |s|
    ensures forall i {:trigger Insert(s, k, x)[i]} :: 0 <= i <= |s| ==>
      Insert(s, k, x)[i] == if i < k then s[i] else if i == k then x else s[i - 1]
  {
  }

  /** `s` without its element at position `k`. */
  ghost function Remove<T>(s: seq<T>, k: nat): (r: seq<T>)
    requires k < |s|
    ensures |r| == |s| - 1
  {
    s[..k] + s[k + 1..]
  }

  lemma RemoveIs<T>(s: seq<T>, k: nat)
    requires k < |s|
    ensures forall i {:trigger Remove(s, k)[i]} :: 0 <= i < |s| - 1 ==>
      Remove(s, k)[i] == if i < k then s[i] else s[i + 1]
  {
  }

  lemma InsertDistinct<T>(s: seq<T>, k: nat, x: T)
    requires Distinct(s) && x !in s && k <= |s|
    ensures Distinct(Insert(s, k, x))
  {
  }

  // ---------------------------------------------------------------- the LRU list

  /** The most recent node is first. */
  class LruList {
    var head: PageRange?
    var end: PageRange?
    ghost var nodes: seq<PageRange>

    ghost predicate Ok()
      reads this`head, this`end, this`nodes, nodes`lruNext, nodes`lruPrev
    {
      && Distinct(nodes)
      && head == (if nodes == [] then null else nodes[0])
      && end == (if nodes == [] then null else nodes[|nodes| - 1])
      && (forall i {:trigger nodes[i].lruNext} :: 0 <= i < |nodes| ==>
           nodes[i].lruNext == if i + 1 < |nodes| then nodes[i + 1] else null)
      && (forall i {:trigger nodes[i].lruPrev} :: 0 <= i < |nodes| ==>
           nodes[i].lruPrev == if i > 0 then nodes[i - 1] else null)
    }

    constructor ()
      ensures Ok() && nodes == []
    {
      head, end, nodes := null, null, [];
    }

    method Push(p: PageRange)
      requires Ok() && p !in nodes
      modifies this, nodes`lruPrev, p`lruNext, p`lruPrev
      ensures Ok() && nodes == Insert(old(nodes), 0, p)
    {
      p.lruPrev := null;
      p.lruNext := head;
      if head != null {
        head.lruPrev := p;
      } else {
        end := p;
      }
      head := p;
      InsertIs(nodes, 0, p);
      hide Insert;
      nodes := Insert(nodes, 0, p);
    }

    /** Puts `p` just before `q`, on the more recent side. */
    method InsertBefore(p: PageRange, q: PageRange, ghost k: nat)
      requires Ok() && p !in nodes && k < |nodes| && nodes[k] == q
      modifies this, nodes`lruNext, nodes`lruPrev, p`lruNext, p`lruPrev
      ensures Ok() && nodes == Insert(old(nodes), k, p)
    {
      assert q.lruPrev == if k > 0 then nodes[k - 1] else null;
      InsertDistinct(nodes, k, p);
      p.lruPrev := q.lruPrev;
      q.lruPrev := p;
      p.lruNext := q;
      if p.lruPrev != null {
        p.lruPrev.lruNext := p;
      } else {
        head := p;
      }
      ghost var was := nodes;
      nodes := Insert(nodes, k, p);
      InsertIs(was, k, p);
      hide Insert;
      forall i | 0 <= i < |nodes|
        ensures nodes[i].lruNext == if i + 1 < |nodes| then nodes[i + 1] else null
        ensures nodes[i].lruPrev == if i > 0 then nodes[i - 1] else null
      {
        if i != k {
          assert nodes[i] == was[if i < k then i else i - 1];
        }
      }
    }

    /** Puts `p` where `q` is. */
    method Substitute(p: PageRange, q: PageRange, ghost k: nat)
      requires Ok() && p !in nodes && k < |nodes| && nodes[k] == q
      modifies this, nodes`lruNext, nodes`lruPrev, p`lruNext, p`lruPrev
      ensures Ok() && nodes == old(nodes)[k := p]
    {
      p.lruNext := q.lruNext;
      p.lruPrev := q.lruPrev;
      if p.lruNext == null {
        end := p;
      } else {
        p.lruNext.lruPrev := p;
      }
      if p.lruPrev == null {
        head := p;
      } else {
        p.lruPrev.lruNext := p;
      }
      nodes := nodes[k := p];
    }

    method Unlink(q: PageRange, ghost k: nat)
      requires Ok() && k < |nodes| && nodes[k] == q
      modifies this, nodes`lruNext, nodes`lruPrev
      ensures Ok() && nodes == Remove(old(nodes), k)
    {
      if q.lruPrev != null {
        q.lruPrev.lruNext := q.lruNext;
      } else {
        head := q.lruNext;
      }
      if q.lruNext != null {
        q.lruNext.lruPrev := q.lruPrev;
      } else {
        end := q.lruPrev;
      }
      RemoveIs(nodes, k);
      hide Remove;
      nodes := Remove(nodes, k);
    }

    /** `cur` takes over from the node just before it. */
    method Absorb(cur: PageRange, nxt: PageRange, ghost k: nat)
      requires Ok() && 0 < k < |nodes| && nodes[k] == cur && nodes[k - 1] == nxt
      modifies this`head, this`nodes, nodes`lruNext, cur`lruPrev
      ensures Ok() && nodes == Remove(old(nodes), k - 1)
    {
      cur.lruPrev := nxt.lruPrev;
      if nxt.lruPrev != null {
        nxt.lruPrev.lruNext := cur;
      } else {
        head := cur;
      }
      RemoveIs(nodes, k - 1);
      hide Remove;
      nodes := Remove(nodes, k - 1);
    }

    /** Searches for the node with the file and range of `p` from the least recent end and unlinks it. */
    method Delete(p: PageRange, ghost k: nat) returns (found: bool)
      requires Ok() && k < |nodes| && nodes[k] == p
      requires forall i :: 0 <= i < |nodes| && i != k ==> !Same(nodes[i], p)
      modifies this, nodes`lruNext, nodes`lruPrev
      ensures Ok() && found && nodes == Remove(old(nodes), k)
    {
      var q := end;
      ghost var i := |nodes| - 1;
      while q != null
        invariant Ok() && k <= i < |nodes| && q == nodes[i]
        decreases i
      {
        if Same(q, p) {
          Unlink(q, i);
          return true;
        }
        q := q.lruPrev;
        i := i - 1;
      }
      return false;
    }
  }

  // ---------------------------------------------------------------- the list of one file

  /** With a record put in at position `k`, and its neighbours linked to it, the list is linked both ways. */
  lemma LinkedIn(was: seq<PageRange>, k: nat, tmp: PageRange)
    requires Distinct(was) && k <= |was| && tmp !in was
    requires forall i {:trigger was[i].next} :: 0 <= i < |was| ==>
               was[i].next == if i + 1 == k then tmp else if i + 1 < |was| then was[i + 1] else null
    requires forall i {:trigger was[i].prev} :: 0 <= i < |was| ==>
               was[i].prev == if i == k then tmp else if i > 0 then was[i - 1] else null
    requires tmp.next == (if k < |was| then was[k] else null) && tmp.prev == (if k > 0 then was[k - 1] else null)
    ensures var nodes := Insert(was, k, tmp);
            && Distinct(nodes)
            && (forall i {:trigger nodes[i].next} :: 0 <= i < |nodes| ==>
                  nodes[i].next == if i + 1 < |nodes| then nodes[i + 1] else null)
            && (forall i {:trigger nodes[i].prev} :: 0 <= i < |nodes| ==>
                  nodes[i].prev == if i > 0 then nodes[i - 1] else null)
  {
    InsertIs(was, k, tmp);
    InsertDistinct(was, k, tmp);
    hide Insert;
    var nodes := Insert(was, k, tmp);
    forall i | 0 <= i < |nodes|
      ensures nodes[i].next == if i + 1 < |nodes| then nodes[i + 1] else null
      ensures nodes[i].prev == if i > 0 then nodes[i - 1] else null
    {
      if i != k {
        assert nodes[i] == was[if i < k then i else i - 1];
      }
    }
  }

  class CachedFile {
    const id: int
    var prHead: PageRange?
    var prLast: PageRange?  // where the last walk was, to start the next one from
    ghost var nodes: seq<PageRange>

    /** The list is doubly linked and holds exactly `nodes`, all of this file. */
    ghost predicate Ok()
      reads this`prHead, this`nodes, nodes`next, nodes`prev
    {
      && Distinct(nodes)
      && (forall i :: 0 <= i < |nodes| ==> nodes[i].fileid == id)
      && prHead == (if nodes == [] then null else nodes[0])
      && (forall i {:trigger nodes[i].next} :: 0 <= i < |nodes| ==>
           nodes[i].next == if i + 1 < |nodes| then nodes[i + 1] else null)
      && (forall i {:trigger nodes[i].prev} :: 0 <= i < |nodes| ==>
           nodes[i].prev == if i > 0 then nodes[i - 1] else null)
    }

    ghost predicate Holds(p: PageRange?, k: nat)
      reads this`nodes
    {
      p == if k < |nodes| then nodes[k] else null
    }

    /** The node before position `k`. */
    ghost predicate Precedes(p: PageRange?, k: nat)
      reads this`nodes
      requires k <= |nodes|
    {
      p == if k > 0 then nodes[k - 1] else null
    }

    constructor (id: int)
      ensures Ok() && this.id == id && nodes == [] && prLast == null
    {
      this.id, prHead, prLast, nodes := id, null, null, [];
    }

    /** Links a new node in front of `cur`, which may be the end of the list. */
    method LinkBefore(tmp: PageRange, pre: PageRange?, cur: PageRange?, ghost k: nat)
      requires Ok() && k <= |nodes| && Holds(cur, k) && Precedes(pre, k)
      requires tmp !in nodes && tmp.fileid == id && tmp.next == null && tmp.prev == null
      modifies this`prHead, this`nodes, nodes`next, nodes`prev, tmp`next, tmp`prev
      ensures Ok() && nodes == Insert(old(nodes), k, tmp)
    {
      if cur != null {
        tmp.next := cur;
        cur.prev := tmp;
      }
      if pre != null {
        tmp.prev := pre;
        pre.next := tmp;
      } else {
        prHead := tmp;
      }
      ghost var was := nodes;
      nodes := Insert(was, k, tmp);
      LinkedIn(was, k, tmp);
    }

    /** Links a new node in the place of `cur`. */
    method Replace(tmp: PageRange, pre: PageRange?, cur: PageRange, ghost k: nat)
      requires Ok() && k < |nodes| && nodes[k] == cur && Precedes(pre, k)
      requires tmp !in nodes && tmp.fileid == id && tmp.prev == null
      modifies this`prHead, this`nodes, nodes`next, nodes`prev, tmp`next, tmp`prev
      ensures Ok() && nodes == old(nodes)[k := tmp]
    {
      if pre != null {
        tmp.prev := pre;
        pre.next := tmp;
      } else {
        prHead := tmp;
      }
      tmp.next := cur.next;
      if tmp.next != null {
        tmp.next.prev := tmp;
      }
      nodes := nodes[k := tmp];
    }

    /** Links a new node behind `cur`. */
    method LinkAfter(tmp: PageRange, cur: PageRange, ghost k: nat)
      requires Ok() && k < |nodes| && nodes[k] == cur
      requires tmp !in nodes && tmp.fileid == id
      modifies this`nodes, nodes`next, nodes`prev, tmp`next, tmp`prev
      ensures Ok() && nodes == Insert(old(nodes), k + 1, tmp)
    {
      assert cur.next == if k + 1 < |nodes| then nodes[k + 1] else null;
      ghost var was := nodes;
      tmp.prev := cur;
      tmp.next := cur.next;
      cur.next := tmp;
      if tmp.next != null {
        tmp.next.prev := tmp;
      }
      nodes := Insert(was, k + 1, tmp);
      LinkedIn(was, k + 1, tmp);
    }

    method Unlink(cur: PageRange, ghost k: nat)
      requires Ok() && k < |nodes| && nodes[k] == cur
      modifies this`prHead, this`nodes, nodes`next, nodes`prev
      ensures Ok() && nodes == Remove(old(nodes), k)
    {
      if cur.prev != null {
        cur.prev.next := cur.next;
      } else {
        prHead := cur.next;
      }
      if cur.next != null {
        cur.next.prev := cur.prev;
      }
      RemoveIs(nodes, k);
      hide Remove;
      nodes := Remove(nodes, k);
    }

    /** `cur` takes over from the node just behind it. */
    method Absorb(cur: PageRange, nxt: PageRange, ghost k: nat)
      requires Ok() && k + 1 < |nodes| && nodes[k] == cur && nodes[k + 1] == nxt
      modifies this`nodes, nodes`prev, cur`next
      ensures Ok() && nodes == Remove(old(nodes), k + 1)
    {
      cur.next := nxt.next;
      if nxt.next != null {
        nxt.next.prev := cur;
      }
      RemoveIs(nodes, k + 1);
      hide Remove;
      nodes := Remove(nodes, k + 1);
    }

    /** Searches for the node with the range of `p` from the head and unlinks it (`pagetable_delete`). */
    method Delete(p: PageRange, ghost k: nat) returns (found: bool)
      requires Ok() && k < |nodes| && nodes[k] == p
      requires forall i :: 0 <= i < |nodes| && i != k ==> !Same(nodes[i], p)
      modifies this`prHead, this`nodes, nodes`next, nodes`prev
      ensures Ok() && found && nodes == Remove(old(nodes), k)
    {
      var cur := prHead;
      ghost var i := 0;
      while cur != null
        invariant Ok() && 0 <= i <= k && cur == nodes[i]
        decreases k - i
      {
        if cur.start == p.start && cur.end == p.end {
          assert Same(nodes[i], p);
          Unlink(cur, i);
          return true;
        }
        cur := cur.next;
        i := i + 1;
      }
      return false;
    }
  }

  /** Two records of the same range of the same file. */
  predicate Same(p: PageRange, q: PageRange)
    reads p`start, p`end, q`start, q`end
  {
    p.start == q.start && p.end == q.end && p.fileid == q.fileid
  }
}
