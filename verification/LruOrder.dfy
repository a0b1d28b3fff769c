/** The order of the LRU list as values: where a walk and a reclaim put records, and what that means for pages. */
module LruOrder {
  import opened Options
  import opened PageRanges
  import opened PageReclaim

  /** `x` has been put together from pages of `y`. */
  predicate Inside(x: Entry, y: Entry) {
    x.file == y.file && y.range.start <= x.range.start && x.range.end <= y.range.end
  }

  ghost predicate Has(l: seq<Entry>, file: int, p: int) {
    exists i :: 0 <= i < |l| && Covers(l[i], file, p)
  }

  /** A record with requested pages only; unless the operation writes to the cache, pages that were not cached. */
  ghost predicate Front(write: bool, id: int, lo: int, hi: int, l: seq<Entry>, x: Entry) {
    && x.file == id && lo <= x.range.start && x.range.end <= hi
    && (!write ==> forall p :: x.range.start <= p < x.range.end ==> !Has(l, id, p))
  }

  /** A record whose pages were in record `y`; if the operation writes to the cache, no requested pages. */
  predicate Stays(write: bool, id: int, lo: int, hi: int, y: Entry, x: Entry) {
    && Inside(x, y)
    && (write && x.file == id ==> x.range.end <= lo || hi <= x.range.start || lo >= hi)
  }

  /** `org` says of each record of `r` which record of `l` its pages were in, or -1 for one that is new in front; the
      order is kept. */
  ghost predicate Traced(write: bool, id: int, lo: int, hi: int, l: seq<Entry>, r: seq<Entry>, org: seq<int>) {
    && |org| == |r|
    && (forall i :: 0 <= i < |r| ==>
          if org[i] < 0 then Front(write, id, lo, hi, l, r[i])
          else org[i] < |l| && Stays(write, id, lo, hi, l[org[i]], r[i]))
    && (forall i, j :: 0 <= i < j < |r| && org[i] >= 0 ==> org[i] <= org[j])
  }

  /** No page of the file has gone. */
  ghost predicate Keeps(id: int, l: seq<Entry>, r: seq<Entry>) {
    forall p :: Has(l, id, p) ==> Has(r, id, p)
  }

  /** `r` comes from `l` by requesting the pages from `lo` up to `hi` of file `id`. */
  ghost predicate Derived(write: bool, id: int, lo: int, hi: int, l: seq<Entry>, r: seq<Entry>) {
    Keeps(id, l, r) && exists org :: Traced(write, id, lo, hi, l, r, org)
  }

  // ---------------------------------------------------------------- what it means for pages

  /** The pages that become most recent. */
  ghost predicate Recent(write: bool, id: int, lo: int, hi: int, l: seq<Entry>, file: int, p: int) {
    file == id && lo <= p < hi && (write || !Has(l, id, p))
  }

  /** Among cached pages, those that become most recent are more recent than all others, and of the others none falls
      behind one that it was ahead of. */
  ghost predicate Recency(write: bool, id: int, lo: int, hi: int, l: seq<Entry>, r: seq<Entry>) {
    forall f, p, g, q :: Has(r, f, p) && Has(r, g, q) && !Recent(write, id, lo, hi, l, g, q) ==>
      (Recent(write, id, lo, hi, l, f, p) || Rank(l, f, p) < Rank(l, g, q)) ==> Rank(r, f, p) < Rank(r, g, q)
  }

  lemma RankOf(l: seq<Entry>, i: nat, file: int, p: int)
    requires Disjoint(l) && i < |l| && Covers(l[i], file, p)
    ensures Rank(l, file, p) == i
  {
    FirstIsRank(l, i, file, p);
  }

  /** Where a cached page of the new list comes from. */
  lemma Origin(write: bool, id: int, lo: int, hi: int, l: seq<Entry>, r: seq<Entry>, org: seq<int>, file: int, p: int)
    returns (i: nat)
    requires Traced(write, id, lo, hi, l, r, org) && Disjoint(l) && Disjoint(r) && Has(r, file, p)
    ensures i < |r| == |org| && Rank(r, file, p) == i
    ensures org[i] < 0 <==> Recent(write, id, lo, hi, l, file, p)
    ensures org[i] >= 0 ==> Rank(l, file, p) == org[i]
  {
    i :| 0 <= i < |r| && Covers(r[i], file, p);
    RankOf(r, i, file, p);
    if org[i] >= 0 {
      assert Covers(l[org[i]], file, p);
      RankOf(l, org[i], file, p);
    }
  }

  lemma DerivedOrder(write: bool, id: int, lo: int, hi: int, l: seq<Entry>, r: seq<Entry>)
    requires Derived(write, id, lo, hi, l, r) && Disjoint(l) && Disjoint(r)
    ensures Recency(write, id, lo, hi, l, r)
  {
    hide Rank, Recent, Disjoint, Has, Front, Stays;
    var org :| Traced(write, id, lo, hi, l, r, org);
    forall f, p, g, q | Has(r, f, p) && Has(r, g, q) && !Recent(write, id, lo, hi, l, g, q)
      && (Recent(write, id, lo, hi, l, f, p) || Rank(l, f, p) < Rank(l, g, q))
      ensures Rank(r, f, p) < Rank(r, g, q)
    {
      var i := Origin(write, id, lo, hi, l, r, org, f, p);
      var j := Origin(write, id, lo, hi, l, r, org, g, q);
    }
  }

  // ---------------------------------------------------------------- one after the other

  lemma DerivedSelf(write: bool, id: int, lo: int, l: seq<Entry>)
    ensures Derived(write, id, lo, lo, l, l)
  {
    var org := seq(|l|, i => i);
    assert Traced(write, id, lo, lo, l, l, org);
  }

  /** Unless the operation writes to the cache, a larger request may be named. */
  lemma DerivedWider(id: int, lo: int, mid: int, hi: int, l: seq<Entry>, r: seq<Entry>)
    requires Derived(false, id, lo, mid, l, r) && mid <= hi
    ensures Derived(false, id, lo, hi, l, r)
  {
    hide Has;
    var org :| Traced(false, id, lo, mid, l, r, org);
    assert Traced(false, id, lo, hi, l, r, org);
  }

  ghost function Back(first: seq<int>, second: seq<int>): (org: seq<int>)
    requires forall i :: 0 <= i < |second| ==> second[i] < |first|
    ensures |org| == |second|
    ensures forall i :: 0 <= i < |org| ==> org[i] == if second[i] < 0 then -1 else first[second[i]]
  {
    seq(|second|, i requires 0 <= i < |second| => if second[i] < 0 then -1 else first[second[i]])
  }

  lemma DerivedTwice(write: bool, id: int, lo: int, mid: int, hi: int, l: seq<Entry>, m: seq<Entry>, r: seq<Entry>)
    requires Derived(write, id, lo, mid, l, m) && Derived(write, id, mid, hi, m, r)
    requires lo <= mid <= hi && NonEmpty(r)
    ensures Derived(write, id, lo, hi, l, r)
  {
    hide Has;
    var first :| Traced(write, id, lo, mid, l, m, first);
    var second :| Traced(write, id, mid, hi, m, r, second);
    var org := Back(first, second);
    forall i | 0 <= i < |r|
      ensures if org[i] < 0 then Front(write, id, lo, hi, l, r[i])
              else org[i] < |l| && Stays(write, id, lo, hi, l[org[i]], r[i])
    {
      assert Size(r[i]) > 0;
      if second[i] >= 0 {
        assert Stays(write, id, mid, hi, m[second[i]], r[i]);
      }
    }
    assert Traced(write, id, lo, hi, l, r, org);
  }

  // ---------------------------------------------------------------- the single steps

  /** A record of pages that were not cached goes in front. */
  lemma PushDerived(write: bool, id: int, l: seq<Entry>, x: Entry)
    requires x.file == id && NonEmpty(l) && (forall p :: x.range.start <= p < x.range.end ==> !Has(l, id, p))
    ensures Derived(write, id, x.range.start, x.range.end, l, [x] + l)
  {
    hide Rank, Has, Front;
    var r := [x] + l;
    var (lo, hi) := (x.range.start, x.range.end);
    var org := seq(|r|, i => i - 1);
    assert Front(write, id, lo, hi, l, x) by {
      IsFront(write, id, l, x);
    }
    forall i | 0 <= i < |r|
      ensures if org[i] < 0 then Front(write, id, lo, hi, l, r[i])
              else org[i] < |l| && Stays(write, id, lo, hi, l[org[i]], r[i])
    {
      if i > 0 {
        NotWithin(l, i - 1, id, lo, hi);
      }
    }
    assert Traced(write, id, lo, hi, l, r, org);
    forall p | Has(l, id, p)
      ensures Has(r, id, p)
    {
      FrontHas(x, l, id, p);
    }
  }

  lemma IsFront(write: bool, id: int, l: seq<Entry>, x: Entry)
    requires x.file == id && (forall p :: x.range.start <= p < x.range.end ==> !Has(l, id, p))
    ensures Front(write, id, x.range.start, x.range.end, l, x)
  {
    hide Has;
  }

  lemma NotWithin(l: seq<Entry>, i: nat, id: int, lo: int, hi: int)
    requires i < |l| && NonEmpty(l) && (forall p :: lo <= p < hi ==> !Has(l, id, p))
    ensures l[i].file == id ==> l[i].range.end <= lo || hi <= l[i].range.start || lo >= hi
  {
    assert Size(l[i]) > 0;
    if l[i].file == id && l[i].range.end > lo && hi > l[i].range.start && lo < hi {
      var p := if lo < l[i].range.start then l[i].range.start else lo;
      assert Covers(l[i], id, p);
      assert Has(l, id, p);
    }
  }

  /** `pieces` in the place of record `j`. */
  function Put(l: seq<Entry>, j: nat, pieces: seq<Entry>): (r: seq<Entry>)
    requires j < |l|
    ensures |r| == |l| + |pieces| - 1
  {
    l[..j] + pieces + l[j + 1..]
  }

  lemma PutIs(l: seq<Entry>, j: nat, pieces: seq<Entry>)
    requires j < |l|
    ensures |Put(l, j, pieces)| == |l| + |pieces| - 1
    ensures forall i {:trigger Put(l, j, pieces)[i]} :: 0 <= i < |l| + |pieces| - 1 ==>
      Put(l, j, pieces)[i] == if i < j then l[i] else if i < j + |pieces| then pieces[i - j] else l[i - |pieces| + 1]
  {
  }

  /** The LRU list after a request for the pages from `s` up to `e` has met record `j`, which then has flags `f` for
      them: what is written to the cache goes in front, all else stays in its place. */
  function HitEntries(write: bool, l: seq<Entry>, j: nat, s: int, e: int, f: Flags): seq<Entry>
    requires j < |l|
  {
    var (x, c) := (l[j], l[j].range);
    var hit := x.(range := Range(s, if e < c.end then e else c.end, f));
    var left := x.(range := Range(c.start, s, c.flags));
    var right := x.(range := Range(e, c.end, c.flags));
    if write then
      [hit] + Put(l, j, if s == c.start then if e < c.end then [right] else []
                        else if e < c.end then [right, left] else [left])
    else
      Put(l, j, if s == c.start then if e < c.end then [hit, right] else [hit]
                else if e < c.end then [right, hit, left] else [hit, left])
  }

  /** `pieces` hold pages of `x`, and all of them but those of `hit`. */
  ghost predicate Cuts(x: Entry, pieces: seq<Entry>, lo: int, hi: int) {
    && (forall i :: 0 <= i < |pieces| ==> Inside(pieces[i], x) && Size(pieces[i]) > 0)
    && (forall p :: Covers(x, x.file, p) && !(lo <= p < hi) ==> Has(pieces, x.file, p))
  }

  lemma PutKeeps(l: seq<Entry>, j: nat, pieces: seq<Entry>, lo: int, hi: int, id: int, p: int)
    requires j < |l| && Cuts(l[j], pieces, lo, hi) && Has(l, id, p) && !(id == l[j].file && lo <= p < hi)
    ensures Has(Put(l, j, pieces), id, p)
  {
    PutIs(l, j, pieces);
    hide Put;
    var r := Put(l, j, pieces);
    var i :| 0 <= i < |l| && Covers(l[i], id, p);
    if i == j {
      assert Has(pieces, id, p);
      var h :| 0 <= h < |pieces| && Covers(pieces[h], id, p);
      assert r[j + h] == pieces[h];
    } else {
      assert Covers(r[if i < j then i else i + |pieces| - 1], id, p);
    }
  }

  /** The other records do not reach into the requested part of record `j`. */
  lemma OthersOutside(write: bool, l: seq<Entry>, i: nat, j: nat, lo: int, hi: int)
    requires Disjoint(l) && NonEmpty(l) && i < |l| && j < |l| && i != j
    requires l[j].range.start <= lo < hi <= l[j].range.end
    ensures Stays(write, l[j].file, lo, hi, l[i], l[i])
  {
    assert Size(l[i]) > 0;
    if l[i].file == l[j].file && l[i].range.end > lo && hi > l[i].range.start {
      var p := if lo < l[i].range.start then l[i].range.start else lo;
      assert Covers(l[i], l[i].file, p) && Covers(l[j], l[i].file, p);
      assert false;
    }
  }

  ghost function PutOrigin(l: seq<Entry>, j: nat, n: nat): (org: seq<int>)
    requires j < |l|
    ensures |org| == |l| + n - 1
    ensures forall i :: 0 <= i < |org| ==> org[i] == if i < j then i else if i < j + n then j else i - n + 1
  {
    seq(|l| + n - 1, i => if i < j then i else if i < j + n then j else i - n + 1)
  }

  /** Requested pages that stay in their place. */
  lemma InPlaceDerived(l: seq<Entry>, j: nat, pieces: seq<Entry>, lo: int, hi: int)
    requires Disjoint(l) && NonEmpty(l) && j < |l| && l[j].range.start <= lo < hi <= l[j].range.end
    requires Cuts(l[j], pieces, lo, lo)
    ensures Derived(false, l[j].file, lo, hi, l, Put(l, j, pieces)) && NonEmpty(Put(l, j, pieces))
  {
    PutIs(l, j, pieces);
    hide Put, Has;
    var (id, r) := (l[j].file, Put(l, j, pieces));
    var org := PutOrigin(l, j, |pieces|);
    forall p | Has(l, id, p)
      ensures Has(r, id, p)
    {
      PutKeeps(l, j, pieces, lo, lo, id, p);
    }
    assert Traced(false, id, lo, hi, l, r, org);
  }

  /** Requested pages that go in front. */
  lemma ToFrontDerived(l: seq<Entry>, j: nat, pieces: seq<Entry>, hit: Entry)
    requires Disjoint(l) && NonEmpty(l) && j < |l| && Inside(hit, l[j]) && Size(hit) > 0
    requires Cuts(l[j], pieces, hit.range.start, hit.range.end)
    requires forall i :: 0 <= i < |pieces| ==> pieces[i].range.end <= hit.range.start || hit.range.end <= pieces[i].range.start
    ensures Derived(true, l[j].file, hit.range.start, hit.range.end, l, [hit] + Put(l, j, pieces))
    ensures NonEmpty([hit] + Put(l, j, pieces))
  {
    PutIs(l, j, pieces);
    hide Put, Has;
    var (id, lo, hi) := (l[j].file, hit.range.start, hit.range.end);
    var tail := Put(l, j, pieces);
    var r := [hit] + tail;
    var org := [-1] + PutOrigin(l, j, |pieces|);
    forall p | Has(l, id, p)
      ensures Has(r, id, p)
    {
      FrontHas(hit, tail, id, p);
      if !(lo <= p < hi) {
        PutKeeps(l, j, pieces, lo, hi, id, p);
      }
    }
    forall i | 1 <= i < |r|
      ensures 0 <= org[i] < |l| && Stays(true, id, lo, hi, l[org[i]], r[i])
    {
      assert r[i] == tail[i - 1];
      if org[i] != j {
        OthersOutside(true, l, org[i], j, lo, hi);
      }
    }
    assert Traced(true, id, lo, hi, l, r, org);
  }

  lemma FrontHas(x: Entry, l: seq<Entry>, id: int, p: int)
    ensures Covers(x, id, p) || Has(l, id, p) ==> Has([x] + l, id, p)
  {
    assert ([x] + l)[0] == x;
    if Has(l, id, p) {
      var i :| 0 <= i < |l| && Covers(l[i], id, p);
      assert ([x] + l)[i + 1] == l[i];
    }
  }

  lemma HitDerived(write: bool, l: seq<Entry>, j: nat, s: int, e: int, f: Flags)
    requires Disjoint(l) && NonEmpty(l) && j < |l| && l[j].range.start <= s < l[j].range.end && s < e
    ensures var hi := if e < l[j].range.end then e else l[j].range.end;
            Derived(write, l[j].file, s, hi, l, HitEntries(write, l, j, s, e, f))
    ensures NonEmpty(HitEntries(write, l, j, s, e, f))
  {
    hide Derived, Put, Disjoint, NonEmpty;
    var (x, c) := (l[j], l[j].range);
    var hi := if e < c.end then e else c.end;
    var hit := x.(range := Range(s, hi, f));
    var left := x.(range := Range(c.start, s, c.flags));
    var right := x.(range := Range(e, c.end, c.flags));
    if write {
      var pieces := if s == c.start then if e < c.end then [right] else []
                    else if e < c.end then [right, left] else [left];
      CutsInto(x, pieces, left, right, hit, s, hi);
      ToFrontDerived(l, j, pieces, hit);
    } else {
      var pieces := if s == c.start then if e < c.end then [hit, right] else [hit]
                    else if e < c.end then [right, hit, left] else [hit, left];
      CutsInto(x, pieces, left, right, hit, s, s);
      InPlaceDerived(l, j, pieces, s, hi);
    }
  }

  lemma CutsInto(x: Entry, pieces: seq<Entry>, left: Entry, right: Entry, hit: Entry, lo: int, hi: int)
    requires forall i :: 0 <= i < |pieces| ==> Inside(pieces[i], x) && Size(pieces[i]) > 0
    requires left.file == right.file == hit.file == x.file && lo == hit.range.start
    requires left.range.start <= x.range.start && left.range.end == hit.range.start
    requires (right.range.start <= hit.range.end && x.range.end <= right.range.end) || x.range.end <= hit.range.end
    requires x.range.start < lo ==> left in pieces
    requires hit.range.end < x.range.end ==> right in pieces
    requires hi == lo ==> hit in pieces
    requires hi == lo || hi == hit.range.end
    ensures Cuts(x, pieces, lo, hi)
  {
    forall p | Covers(x, x.file, p) && !(lo <= p < hi)
      ensures Has(pieces, x.file, p)
    {
      var y := if p < lo then left else if p < hit.range.end then hit else right;
      assert y in pieces && Covers(y, x.file, p);
    }
  }

  // ---------------------------------------------------------------- reclaiming

  /** Which record each one that is left comes from. */
  ghost function ReclaimOrigin(l: seq<Entry>, n: int): (org: seq<int>)
  {
    if l == [] || n == 0 then seq(|l|, i => i)
    else
      var (front, last) := (l[..|l| - 1], l[|l| - 1]);
      if !Cold(last.range.flags) then ReclaimOrigin(front, n) + [|l| - 1]
      else if Size(last) <= n then ReclaimOrigin(front, n - Size(last))
      else seq(|l|, i => i)
  }

  /** Every record of `r` is part of one of `l`, in the same order. */
  ghost predicate InOrder(l: seq<Entry>, r: seq<Entry>, org: seq<int>) {
    && |org| == |r|
    && (forall i :: 0 <= i < |r| ==> 0 <= org[i] < |l| && Inside(r[i], l[org[i]]))
    && (forall i, j :: 0 <= i < j < |r| ==> org[i] <= org[j])
  }

  lemma InOrderMore(front: seq<Entry>, last: Entry, r: seq<Entry>, org: seq<int>)
    requires InOrder(front, r, org)
    ensures InOrder(front + [last], r, org)
    ensures InOrder(front + [last], r + [last], org + [|front|])
  {
    hide Inside;
    assert Inside(last, last) by {
      LastInside(last);
    }
    assert (front + [last])[|front|] == last;
    assert forall i :: 0 <= i < |front| ==> (front + [last])[i] == front[i];
  }

  lemma LastInside(x: Entry)
    ensures Inside(x, x)
  {
  }

  lemma InOrderShortened(front: seq<Entry>, last: Entry, n: int)
    requires n >= 0
    ensures var l := front + [last];
            InOrder(l, front + [WithoutFirst(last, n)], seq(|l|, i => i))
  {
  }

  lemma {:induction false} ReclaimInOrder(l: seq<Entry>, n: int)
    requires n >= 0 && NonEmpty(l)
    ensures InOrder(l, Reclaim(l, n).0, ReclaimOrigin(l, n)) && NonEmpty(Reclaim(l, n).0)
  {
    hide Cold, InOrder;
    if l == [] || n == 0 {
      AllInOrder(l);
      return;
    }
    var (front, last) := (l[..|l| - 1], l[|l| - 1]);
    assert Size(last) > 0 && front + [last] == l;
    var size := if Cold(last.range.flags) then Size(last) else 0;
    if size <= n {
      ReclaimInOrder(front, n - size);
      InOrderMore(front, last, Reclaim(front, n - size).0, ReclaimOrigin(front, n - size));
    } else {
      InOrderShortened(front, last, n);
    }
  }

  lemma AllInOrder(l: seq<Entry>)
    ensures InOrder(l, l, seq(|l|, i => i))
  {
  }

  /** Reclaiming keeps the order, and all pages of a file that it drops none of. */
  lemma ReclaimDerived(write: bool, id: int, lo: int, l: seq<Entry>, n: int)
    requires n >= 0 && NonEmpty(l) && Keeps(id, l, Reclaim(l, n).0)
    ensures Derived(write, id, lo, lo, l, Reclaim(l, n).0) && NonEmpty(Reclaim(l, n).0)
  {
    hide Reclaim, Has;
    ReclaimInOrder(l, n);
    assert Traced(write, id, lo, lo, l, Reclaim(l, n).0, ReclaimOrigin(l, n));
  }

  /** A file without cold pages loses none. */
  lemma ReclaimKeepsFile(l: seq<Entry>, n: int, id: int)
    requires NonEmpty(l) && Disjoint(l) && n >= 0 && NoColdOf(l, id)
    ensures Keeps(id, l, Reclaim(l, n).0)
  {
    hide Reclaim, Has, PageOf;
    forall p | Has(l, id, p)
      ensures Has(Reclaim(l, n).0, id, p)
    {
      HasPage(l, id, p);
      HasPage(Reclaim(l, n).0, id, p);
      ReclaimsOnlyColdPages(l, n, id, p);
      var i := PageOfCovered(l, id, p);
    }
  }

  lemma ReclaimAddsNothing(l: seq<Entry>, n: int, id: int, p: int)
    requires NonEmpty(l) && n >= 0 && Has(Reclaim(l, n).0, id, p)
    ensures Has(l, id, p)
  {
    hide Reclaim;
    ReclaimInOrder(l, n);
    var (r, org) := (Reclaim(l, n).0, ReclaimOrigin(l, n));
    var i :| 0 <= i < |r| && Covers(r[i], id, p);
    assert Covers(l[org[i]], id, p);
  }

  /** Reclaiming, perhaps of nothing, and then a new record in front. */
  lemma AddedDerived(write: bool, l: seq<Entry>, n: int, x: Entry)
    requires NonEmpty(l) && Disjoint(l) && n >= 0 && Size(x) > 0 && (n > 0 ==> NoColdOf(l, x.file))
    requires forall p :: x.range.start <= p < x.range.end ==> !Has(l, x.file, p)
    ensures Derived(write, x.file, x.range.start, x.range.end, l, [x] + Reclaim(l, n).0)
    ensures NonEmpty([x] + Reclaim(l, n).0)
  {
    hide Reclaim, Has, Derived, Cold;
    var m := Reclaim(l, n).0;
    if n > 0 {
      ReclaimKeepsFile(l, n, x.file);
    } else {
      NothingReclaimed(l);
    }
    ReclaimDerived(write, x.file, x.range.start, l, n);
    forall p | x.range.start <= p < x.range.end
      ensures !Has(m, x.file, p)
    {
      if Has(m, x.file, p) {
        ReclaimAddsNothing(l, n, x.file, p);
      }
    }
    PushDerived(write, x.file, m, x);
    DerivedTwice(write, x.file, x.range.start, x.range.start, x.range.end, l, m, [x] + m);
  }

  lemma NothingReclaimed(l: seq<Entry>)
    ensures Reclaim(l, 0) == (l, 0)
  {
  }

  lemma HasPage(l: seq<Entry>, file: int, p: int)
    ensures Has(l, file, p) <==> PageOf(l, file, p).Some?
  {
    if Has(l, file, p) {
      var i :| 0 <= i < |l| && Covers(l[i], file, p);
      CoveredHasPage(l, i, file, p);
    }
    if PageOf(l, file, p).Some? {
      var i := PageOfCovered(l, file, p);
    }
  }

  // ---------------------------------------------------------------- which records survive

  lemma EvictedInFront(l: seq<Entry>, n: int, k: nat)
    requires k < |l| - 1 && n >= 0 && NonEmpty(l)
    ensures var (front, last) := (l[..|l| - 1], l[|l| - 1]);
            var size := if Cold(last.range.flags) then Size(last) else 0;
            Evicted(l, n, k) <==> Evicted(front, n - size, k)
  {
    hide Cold, ColdPages;
    SuffixCounts(l, k);
    PrefixOfFront(l, k);
  }

  /** When pages are reclaimed, the last page of a record stays exactly if the record is not evicted. */
  lemma {:induction false} Survives(l: seq<Entry>, n: int, k: nat)
    requires NonEmpty(l) && Disjoint(l) && n >= 0 && k < |l|
    ensures Has(Reclaim(l, n).0, l[k].file, l[k].range.end - 1) <==> !Evicted(l, n, k)
  {
    hide Cold, ColdPages, Reclaim, Has;
    var (front, last, p) := (l[..|l| - 1], l[|l| - 1], l[k].range.end - 1);
    var size := if Cold(last.range.flags) then Size(last) else 0;
    assert Size(l[k]) > 0 && Size(last) > 0 && Covers(l[k], l[k].file, p);
    ReclaimLast(l, n);
    if k == |l| - 1 {
      LastSurvives(l, n);
    } else {
      EvictedInFront(l, n, k);
      assert front[k] == l[k];
      if size <= n {
        Survives(front, n - size, k);
        HasBoth(Reclaim(front, n - size).0, last, l[k].file, p);
      } else {
        HasAt(front + [WithoutFirst(last, n)], k, l[k].file, p);
        ColdFrom(l, k);
        ColdFrom(l, |l| - 1);
        NotEvicted(l, n, k);
      }
    }
  }

  lemma HasAt(l: seq<Entry>, k: nat, file: int, p: int)
    requires k < |l| && Covers(l[k], file, p)
    ensures Has(l, file, p)
  {
  }

  lemma HasBoth(l: seq<Entry>, x: Entry, file: int, p: int)
    requires !Covers(x, file, p)
    ensures Has(l + [x], file, p) <==> Has(l, file, p)
  {
    if Has(l, file, p) {
      var i :| 0 <= i < |l| && Covers(l[i], file, p);
      assert (l + [x])[i] == l[i];
    }
  }

  /** More is wanted of the last record than there is to take. */
  lemma NotEvicted(l: seq<Entry>, n: int, k: nat)
    requires NonEmpty(l) && k < |l| && Cold(l[|l| - 1].range.flags) && Size(l[|l| - 1]) > n
    ensures !Evicted(l, n, k)
  {
    hide Cold, ColdPages;
    assert l[k..] == l[k..|l| - 1] + [l[|l| - 1]];
    OneMore(l[k..|l| - 1], l[|l| - 1]);
    assert NonEmpty(l[k..|l| - 1]);
    ColdPagesNatural(l[k..|l| - 1]);
  }

  lemma LastSurvives(l: seq<Entry>, n: int)
    requires NonEmpty(l) && Disjoint(l) && n >= 0 && l != []
    ensures var last := l[|l| - 1];
            Has(Reclaim(l, n).0, last.file, last.range.end - 1) <==> !Evicted(l, n, |l| - 1)
  {
    hide Cold, Reclaim, Has;
    var (front, last) := (l[..|l| - 1], l[|l| - 1]);
    var p := last.range.end - 1;
    assert Size(last) > 0;
    ReclaimLast(l, n);
    ColdFrom(l, |l| - 1);
    assert l[|l|..] == [];
    if !Cold(last.range.flags) {
      HasAt(Reclaim(front, n).0 + [last], |Reclaim(front, n).0|, last.file, p);
    } else if n < Size(last) {
      HasAt(front + [WithoutFirst(last, n)], |front|, last.file, p);
    } else if Has(Reclaim(front, n - Size(last)).0, last.file, p) {
      ReclaimAddsNothing(front, n - Size(last), last.file, p);
      NotTwice(l, p);
    }
  }

  lemma NotTwice(l: seq<Entry>, p: int)
    requires l != [] && Disjoint(l) && Covers(l[|l| - 1], l[|l| - 1].file, p)
    ensures !Has(l[..|l| - 1], l[|l| - 1].file, p)
  {
  }
}
