/** What reclaiming pages does to the LRU list, seen as a list of values. */
module PageReclaim {
  import opened Basics
  import opened Options
  import opened PageRanges

  /** A record of the LRU list; the most recent one is first. */
  datatype Entry = Entry(file: int, range: Range)

  /** Pages nobody holds and that are not to be written back. */
  predicate Cold(f: Flags) {
    !(f.dirty || f.locked || f.count != 0)
  }

  function Size(x: Entry): int {
    x.range.end - x.range.start
  }

  function WithoutFirst(x: Entry, n: int): Entry {
    x.(range := x.range.(start := x.range.start + n))
  }

  /** Takes `n` pages away, least recent records first, and says how many could not be had. */
  function Reclaim(l: seq<Entry>, n: int): (r: (seq<Entry>, int)) {
    if l == [] || n == 0 then (l, n)
    else
      var (front, last) := (l[..|l| - 1], l[|l| - 1]);
      if !Cold(last.range.flags) then var (kept, left) := Reclaim(front, n); (kept + [last], left)
      else if Size(last) <= n then Reclaim(front, n - Size(last))
      else (front + [WithoutFirst(last, n)], 0)
  }

  ghost predicate NonEmpty(l: seq<Entry>) {
    forall i :: 0 <= i < |l| ==> Size(l[i]) > 0
  }

  function ColdPages(l: seq<Entry>): int {
    if l == [] then 0 else ColdPages(l[1..]) + if Cold(l[0].range.flags) then Size(l[0]) else 0
  }

  function Hot(l: seq<Entry>): seq<Entry> {
    if l == [] then [] else (if Cold(l[0].range.flags) then [] else [l[0]]) + Hot(l[1..])
  }

  lemma {:induction false} ColdPagesAppend(x: seq<Entry>, y: seq<Entry>)
    ensures ColdPages(x + y) == ColdPages(x) + ColdPages(y)
  {
    if x == [] {
      assert x + y == y;
    } else {
      ColdPagesAppend(x[1..], y);
      assert (x + y)[1..] == x[1..] + y;
    }
  }

  lemma {:induction false} HotAppend(x: seq<Entry>, y: seq<Entry>)
    ensures Hot(x + y) == Hot(x) + Hot(y)
  {
    hide Cold;
    if x == [] {
      assert x + y == y;
    } else {
      HotAppend(x[1..], y);
      assert (x + y)[1..] == x[1..] + y && (x + y)[0] == x[0];
      Associative(if Cold(x[0].range.flags) then [] else [x[0]], Hot(x[1..]), Hot(y));
    }
  }

  lemma {:induction false} ColdPagesNatural(l: seq<Entry>)
    requires NonEmpty(l)
    ensures ColdPages(l) >= 0
  {
    if l != [] {
      ColdPagesNatural(l[1..]);
    }
  }

  /** Where reclaiming stops: everything cold behind position `k` is gone, and so are the first pages of the record
      there, as many as are still wanted; everything in front of it is untouched. */
  ghost predicate StopsAt(l: seq<Entry>, n: int, k: nat) {
    && k < |l| && Cold(l[k].range.flags)
    && ColdPages(l[k + 1..]) <= n < ColdPages(l[k..])
    && Reclaim(l, n) == (l[..k] + [WithoutFirst(l[k], n - ColdPages(l[k + 1..]))] + Hot(l[k + 1..]), 0)
  }

  lemma OneCold(x: Entry)
    ensures ColdPages([x]) == if Cold(x.range.flags) then Size(x) else 0
    ensures Hot([x]) == if Cold(x.range.flags) then [] else [x]
  {
    hide Cold;
    assert [x][1..] == [];
  }

  lemma OneMore(x: seq<Entry>, last: Entry)
    ensures ColdPages(x + [last]) == ColdPages(x) + if Cold(last.range.flags) then Size(last) else 0
    ensures Hot(x + [last]) == if Cold(last.range.flags) then Hot(x) else Hot(x) + [last]
  {
    hide ColdPages, Hot, Cold;
    ColdPagesAppend(x, [last]);
    HotAppend(x, [last]);
    OneCold(last);
    NothingMore(Hot(x));
  }

  lemma NothingMore(x: seq<Entry>)
    ensures x + [] == x
  {
  }

  lemma FrontAndLast(l: seq<Entry>)
    requires l != []
    ensures l == l[..|l| - 1] + [l[|l| - 1]]
  {
  }

  lemma LastCold(l: seq<Entry>)
    requires l != []
    ensures var (front, last) := (l[..|l| - 1], l[|l| - 1]);
            ColdPages(l) == ColdPages(front) + if Cold(last.range.flags) then Size(last) else 0
    ensures var (front, last) := (l[..|l| - 1], l[|l| - 1]);
            Hot(l) == if Cold(last.range.flags) then Hot(front) else Hot(front) + [last]
  {
    var (front, last) := (l[..|l| - 1], l[|l| - 1]);
    FrontAndLast(l);
    OneMore(front, last);
  }

  /** When not enough pages are cold, all cold pages go and nothing else. */
  lemma {:induction false} ReclaimsAllCold(l: seq<Entry>, n: int)
    requires NonEmpty(l) && n >= ColdPages(l)
    ensures Reclaim(l, n) == (Hot(l), n - ColdPages(l))
  {
    if l != [] {
      LastCold(l);
      var front := l[..|l| - 1];
      ColdPagesNatural(front);
      if n != 0 {
        if Cold(l[|l| - 1].range.flags) {
          ReclaimsAllCold(front, n - Size(l[|l| - 1]));
        } else {
          ReclaimsAllCold(front, n);
        }
      } else {
        ReclaimsAllCold(front, 0);
        assert l == front + [l[|l| - 1]];
      }
    }
  }

  lemma ReclaimLast(l: seq<Entry>, n: int)
    requires l != [] && Size(l[|l| - 1]) > 0 && n >= 0
    ensures var (front, last) := (l[..|l| - 1], l[|l| - 1]);
            Reclaim(l, n) == if !Cold(last.range.flags) then (Reclaim(front, n).0 + [last], Reclaim(front, n).1)
                             else if n < Size(last) then (front + [WithoutFirst(last, n)], 0)
                             else Reclaim(front, n - Size(last))
  {
    assert l == l[..|l| - 1] + [l[|l| - 1]];
  }

  lemma SuffixOfFront(l: seq<Entry>, k: nat)
    requires k < |l|
    ensures l[k..] == l[..|l| - 1][k..] + [l[|l| - 1]]
    ensures l[k..][..|l[k..]| - 1] == l[..|l| - 1][k..] && l[k..][|l[k..]| - 1] == l[|l| - 1]
  {
  }

  /** What is true of the list but for its last record carries over to the whole list. */
  lemma StopsFurther(l: seq<Entry>, n: int, k: nat)
    requires l != [] && Size(l[|l| - 1]) > 0 && k < |l| - 1
    requires var last := l[|l| - 1];
             var size := if Cold(last.range.flags) then Size(last) else 0;
             n >= size && n >= 0 && StopsAt(l[..|l| - 1], n - size, k)
    ensures StopsAt(l, n, k)
  {
    hide Reclaim, Hot, ColdPages, Cold, Size, WithoutFirst;
    var (front, last) := (l[..|l| - 1], l[|l| - 1]);
    var size := if Cold(last.range.flags) then Size(last) else 0;
    PrefixOfFront(l, k);
    SuffixCounts(l, k);
    SuffixCounts(l, k + 1);
    ReclaimLast(l, n);
    Associative(l[..k] + [WithoutFirst(l[k], n - size - ColdPages(front[k + 1..]))], Hot(front[k + 1..]), [last]);
  }

  lemma SuffixCounts(l: seq<Entry>, k: nat)
    requires k < |l|
    ensures var (front, last) := (l[..|l| - 1], l[|l| - 1]);
            && ColdPages(l[k..]) == ColdPages(front[k..]) + (if Cold(last.range.flags) then Size(last) else 0)
            && Hot(l[k..]) == if Cold(last.range.flags) then Hot(front[k..]) else Hot(front[k..]) + [last]
  {
    hide ColdPages, Hot, Cold;
    SuffixOfFront(l, k);
    LastCold(l[k..]);
  }

  lemma PrefixOfFront(l: seq<Entry>, k: nat)
    requires k < |l| - 1
    ensures l[..|l| - 1][..k] == l[..k] && l[..|l| - 1][k] == l[k]
  {
  }

  /** Otherwise exactly `n` pages go, from the least recent end. */
  lemma {:induction false} ReclaimsLeastRecent(l: seq<Entry>, n: int) returns (k: nat)
    requires NonEmpty(l) && 0 <= n < ColdPages(l)
    ensures StopsAt(l, n, k)
  {
    LastCold(l);
    hide Reclaim, Hot, Cold;
    var (front, last) := (l[..|l| - 1], l[|l| - 1]);
    var size := if Cold(last.range.flags) then Size(last) else 0;
    if n < size {
      k := |l| - 1;
      assert l[k + 1..] == [] && l[k..] == [last] && l[..k] == front;
      ReclaimLast(l, n);
      NoneHot();
      assert front + [WithoutFirst(last, n)] + [] == front + [WithoutFirst(last, n)];
    } else {
      k := ReclaimsLeastRecent(front, n - size);
      StopsFurther(l, n, k);
    }
  }

  lemma NoneHot()
    ensures Hot([]) == []
  {
  }

  /** How far reclaiming has come: the records behind position `i` are done, those in front of it are to be seen,
      with `left` pages still wanted. */
  ghost predicate Reclaiming(l: seq<Entry>, n: int, ahead: seq<Entry>, done: seq<Entry>, left: int) {
    left >= 0 && Reclaim(l, n) == (Reclaim(ahead, left).0 + done, Reclaim(ahead, left).1)
  }

  lemma Shift(ahead: seq<Entry>, x: Entry, done: seq<Entry>)
    ensures (ahead + [x]) + done == ahead + ([x] + done)
  {
  }

  lemma ReclaimingStep(l: seq<Entry>, n: int, ahead: seq<Entry>, x: Entry, done: seq<Entry>, left: int)
    requires Reclaiming(l, n, ahead + [x], done, left) && left > 0 && Size(x) > 0
    ensures !Cold(x.range.flags) ==> Reclaiming(l, n, ahead, [x] + done, left)
    ensures Cold(x.range.flags) && Size(x) <= left ==> Reclaiming(l, n, ahead, done, left - Size(x))
    ensures Cold(x.range.flags) && left < Size(x) ==> Reclaiming(l, n, ahead, [WithoutFirst(x, left)] + done, 0)
  {
    assert (ahead + [x])[..|ahead|] == ahead;
    ReclaimLast(ahead + [x], left);
    assert Reclaim(ahead, 0) == (ahead, 0);
    Shift(Reclaim(ahead, left).0, x, done);
    Shift(ahead, WithoutFirst(x, left), done);
  }

  lemma ReclaimingStarts(l: seq<Entry>, n: int)
    requires n >= 0
    ensures Reclaiming(l, n, l, [], n)
  {
    assert Reclaim(l, n).0 + [] == Reclaim(l, n).0;
  }

  lemma ReclaimingEnds(l: seq<Entry>, n: int, ahead: seq<Entry>, done: seq<Entry>, left: int)
    requires Reclaiming(l, n, ahead, done, left) && (ahead == [] || left == 0)
    ensures Reclaim(l, n) == (ahead + done, left)
  {
  }

  // ---------------------------------------------------------------- which records go

  /** Record `k` goes when `n` pages are reclaimed: it is cold, and no more than `n` cold pages are in it and in less
      recent records. */
  predicate Evicted(l: seq<Entry>, n: int, k: nat)
    requires k < |l|
  {
    Cold(l[k].range.flags) && ColdPages(l[k..]) <= n
  }

  /** The records from `i` on have been seen, and `left` pages are still wanted. */
  ghost predicate Seen(l: seq<Entry>, n: int, i: nat, left: int) {
    && i <= |l| && left >= 0
    && if left > 0 then ColdPages(l[i..]) == n - left else ColdPages(l[i..]) >= n
  }

  lemma ColdFrom(l: seq<Entry>, k: nat)
    requires k < |l|
    ensures ColdPages(l[k..]) == ColdPages(l[k + 1..]) + if Cold(l[k].range.flags) then Size(l[k]) else 0
  {
    assert l[k..][0] == l[k] && l[k..][1..] == l[k + 1..];
  }

  lemma SeenStarts(l: seq<Entry>, n: int)
    requires n >= 0
    ensures Seen(l, n, |l|, n)
  {
    assert l[|l|..] == [];
  }

  lemma SeenStep(l: seq<Entry>, n: int, i: nat, left: int)
    requires NonEmpty(l) && 0 < i <= |l| && Seen(l, n, i, left) && left > 0
    ensures var x := l[i - 1];
            && Seen(l, n, i - 1, left - if Cold(x.range.flags) then Min(Size(x), left) else 0)
            && (Evicted(l, n, i - 1) <==> Cold(x.range.flags) && Size(x) <= left)
  {
    hide Cold, ColdPages;
    assert Size(l[i - 1]) > 0;
    ColdFrom(l, i - 1);
  }

  /** When no more pages are wanted, no further record goes. */
  lemma {:induction false} SeenEnough(l: seq<Entry>, n: int, i: nat, k: nat)
    requires NonEmpty(l) && Seen(l, n, i, 0) && k < i
    ensures !Evicted(l, n, k)
    decreases i
  {
    hide Cold, ColdPages;
    assert Size(l[i - 1]) > 0;
    ColdFrom(l, i - 1);
    if k < i - 1 {
      SeenEnough(l, n, i - 1, k);
    }
  }

  lemma {:induction false} ReclaimLeft(l: seq<Entry>, n: int)
    requires NonEmpty(l) && n >= 0
    ensures 0 <= Reclaim(l, n).1 <= n
  {
    if l != [] && n != 0 {
      var (front, last) := (l[..|l| - 1], l[|l| - 1]);
      assert Size(last) > 0;
      if !Cold(last.range.flags) {
        ReclaimLeft(front, n);
      } else if Size(last) <= n {
        ReclaimLeft(front, n - Size(last));
      }
    }
  }

  /** None of the pages may be reclaimed. */
  ghost predicate NoCold(list: seq<Range>) {
    forall i :: 0 <= i < |list| ==> !Cold(list[i].flags)
  }

  ghost predicate NoColdOf(l: seq<Entry>, file: int) {
    forall i :: 0 <= i < |l| && l[i].file == file ==> !Cold(l[i].range.flags)
  }

  // ---------------------------------------------------------------- page by page

  predicate Covers(x: Entry, file: int, p: int) {
    x.file == file && x.range.start <= p < x.range.end
  }

  /** No page is in two records. */
  ghost predicate Disjoint(l: seq<Entry>) {
    forall i, j, p :: 0 <= i < j < |l| && Covers(l[i], l[i].file, p) ==> !Covers(l[j], l[i].file, p)
  }

  /** The flags of a page of a file, if some record covers it. */
  function PageOf(l: seq<Entry>, file: int, p: int): Option<Flags> {
    if l == [] then None
    else if PageOf(l[..|l| - 1], file, p).Some? then PageOf(l[..|l| - 1], file, p)
    else if Covers(l[|l| - 1], file, p) then Some(l[|l| - 1].range.flags)
    else None
  }

  lemma PageOfAppend(l: seq<Entry>, x: Entry, file: int, p: int)
    ensures PageOf(l + [x], file, p) == if PageOf(l, file, p).Some? then PageOf(l, file, p)
                                        else if Covers(x, file, p) then Some(x.range.flags) else None
  {
    assert (l + [x])[..|l|] == l;
  }

  lemma {:induction false} PageOfCovered(l: seq<Entry>, file: int, p: int) returns (i: nat)
    requires PageOf(l, file, p).Some?
    ensures i < |l| && Covers(l[i], file, p) && PageOf(l, file, p).value == l[i].range.flags
  {
    if PageOf(l[..|l| - 1], file, p).Some? {
      i := PageOfCovered(l[..|l| - 1], file, p);
    } else {
      i := |l| - 1;
    }
  }

  lemma {:induction false} CoveredHasPage(l: seq<Entry>, i: nat, file: int, p: int)
    requires i < |l| && Covers(l[i], file, p)
    ensures PageOf(l, file, p).Some?
  {
    if i < |l| - 1 {
      CoveredHasPage(l[..|l| - 1], i, file, p);
    }
  }

  /** A page is left as it is, or it was neither dirty nor locked nor held and is gone. */
  ghost predicate DroppedIfCold(before: Option<Flags>, after: Option<Flags>) {
    || after == before
    || (&& after == None && before.Some?
        && !before.value.dirty && !before.value.locked && before.value.count == 0)
  }

  /** Reclaiming leaves every page of every file as it is or drops it, and it drops only cold pages. */
  lemma {:induction false} ReclaimsOnlyColdPages(l: seq<Entry>, n: int, file: int, p: int)
    requires NonEmpty(l) && Disjoint(l) && n >= 0
    ensures DroppedIfCold(PageOf(l, file, p), PageOf(Reclaim(l, n).0, file, p))
  {
    if l != [] && n != 0 {
      hide PageOf, Reclaim;
      var (front, last) := (l[..|l| - 1], l[|l| - 1]);
      assert front + [last] == l;
      ReclaimLast(l, n);
      PageOfAppend(front, last, file, p);
      if Covers(last, file, p) && PageOf(front, file, p).Some? {
        var i := PageOfCovered(front, file, p);
        assert false;
      }
      if !Cold(last.range.flags) {
        ReclaimsOnlyColdPages(front, n, file, p);
        PageOfAppend(Reclaim(front, n).0, last, file, p);
      } else if n < Size(last) {
        PageOfAppend(front, WithoutFirst(last, n), file, p);
      } else {
        ReclaimsOnlyColdPages(front, n - Size(last), file, p);
      }
    }
  }

  // ---------------------------------------------------------------- merging records

  /** Record `j` and the more recent one in front of it, as one. */
  function Merged(l: seq<Entry>, j: nat): seq<Entry>
    requires 0 < j < |l|
  {
    l[..j - 1] + [Entry(l[j].file, Range(l[j].range.start, l[j - 1].range.end, l[j].range.flags))] + l[j + 1..]
  }

  /** They are of one file, adjacent in it, and have the same flags. */
  ghost predicate Adjacent(l: seq<Entry>, j: nat) {
    && 0 < j < |l| && l[j].file == l[j - 1].file
    && l[j].range.end == l[j - 1].range.start && l[j].range.flags == l[j - 1].range.flags
  }

  /** How recent the record of a page is: the position of the first record that covers it. */
  function Rank(l: seq<Entry>, file: int, p: int): (r: nat)
    ensures r <= |l|
  {
    if l == [] then 0 else if Covers(l[0], file, p) then 0 else 1 + Rank(l[1..], file, p)
  }

  lemma {:induction false} RankIsFirst(l: seq<Entry>, file: int, p: int)
    ensures var r := Rank(l, file, p);
            (forall i :: 0 <= i < r ==> !Covers(l[i], file, p)) && (r < |l| ==> Covers(l[r], file, p))
  {
    if l != [] {
      RankIsFirst(l[1..], file, p);
    }
  }

  lemma FirstIsRank(l: seq<Entry>, r: nat, file: int, p: int)
    requires r <= |l| && (forall i :: 0 <= i < r ==> !Covers(l[i], file, p)) && (r < |l| ==> Covers(l[r], file, p))
    ensures Rank(l, file, p) == r
  {
    RankIsFirst(l, file, p);
  }

  lemma {:induction false} PageAtRank(l: seq<Entry>, file: int, p: int)
    ensures var r := Rank(l, file, p);
            PageOf(l, file, p) == if r < |l| then Some(l[r].range.flags) else None
  {
    RankIsFirst(l, file, p);
    if l != [] {
      var (front, last) := (l[..|l| - 1], l[|l| - 1]);
      PageAtRank(front, file, p);
      RankIsFirst(front, file, p);
    }
  }

  /** No more records, the same pages with the same flags, and no page more recent than one it was not more
      recent than before. */
  ghost predicate Tidier(before: seq<Entry>, after: seq<Entry>) {
    && |after| <= |before|
    && (forall file, p :: PageOf(after, file, p) == PageOf(before, file, p))
    && (forall file, p, other, q :: Rank(after, file, p) < Rank(after, other, q)
                                    ==> Rank(before, file, p) < Rank(before, other, q))
  }

  lemma RankMerged(l: seq<Entry>, j: nat, file: int, p: int)
    requires Adjacent(l, j) && Size(l[j]) > 0 && Size(l[j - 1]) > 0
    ensures var r := Rank(l, file, p); Rank(Merged(l, j), file, p) == if r < j then r else r - 1
    ensures PageOf(Merged(l, j), file, p) == PageOf(l, file, p)
  {
    hide Rank, PageOf;
    var (m, r) := (Merged(l, j), Rank(l, file, p));
    RankIsFirst(l, file, p);
    assert forall i :: 0 <= i < |m| ==> i < j - 1 ==> m[i] == l[i];
    assert forall i :: j <= i < |m| ==> m[i] == l[i + 1];
    assert Covers(m[j - 1], file, p) <==> Covers(l[j - 1], file, p) || Covers(l[j], file, p);
    FirstIsRank(m, if r < j then r else r - 1, file, p);
    PageAtRank(l, file, p);
    PageAtRank(m, file, p);
  }

  lemma MergedIsTidier(l: seq<Entry>, j: nat)
    requires Adjacent(l, j) && Size(l[j]) > 0 && Size(l[j - 1]) > 0
    ensures Tidier(l, Merged(l, j))
  {
    hide Rank, PageOf;
    forall file, p
      ensures var r := Rank(l, file, p); Rank(Merged(l, j), file, p) == if r < j then r else r - 1
      ensures PageOf(Merged(l, j), file, p) == PageOf(l, file, p)
    {
      RankMerged(l, j, file, p);
    }
  }

  lemma TidierSelf(l: seq<Entry>)
    ensures Tidier(l, l)
  {
    hide Rank, PageOf;
  }

  lemma TidierTwice(l: seq<Entry>, m: seq<Entry>, n: seq<Entry>)
    requires Tidier(l, m) && Tidier(m, n)
    ensures Tidier(l, n)
  {
    hide Rank, PageOf;
  }

  // ---------------------------------------------------------------- choosing what to write back

  predicate Eligible(f: Flags) {
    f.dirty && !f.writeback && !f.locked && f.count == 0
  }

  function FirstPages(x: Entry, n: int): Entry {
    x.(range := x.range.(end := x.range.start + n))
  }

  /** The first `n` pages that may be written back, record by record. */
  function Writeout(l: seq<Entry>, n: int): (out: seq<Entry>) {
    if l == [] then []
    else if !Eligible(l[0].range.flags) then Writeout(l[1..], n)
    else if Size(l[0]) >= n then [FirstPages(l[0], n)]
    else [l[0]] + Writeout(l[1..], n - Size(l[0]))
  }

  function EligiblePages(l: seq<Entry>): int {
    if l == [] then 0 else EligiblePages(l[1..]) + if Eligible(l[0].range.flags) then Size(l[0]) else 0
  }

  function PagesIn(l: seq<Entry>): int {
    if l == [] then 0 else Size(l[0]) + PagesIn(l[1..])
  }

  lemma {:induction false} EligibleNatural(l: seq<Entry>)
    requires NonEmpty(l)
    ensures EligiblePages(l) >= 0
  {
    if l != [] {
      EligibleNatural(l[1..]);
    }
  }

  lemma {:induction false} WriteoutCounts(l: seq<Entry>, n: int)
    requires NonEmpty(l) && n > 0
    ensures PagesIn(Writeout(l, n)) == Min(n, EligiblePages(l)) && NonEmpty(Writeout(l, n))
  {
    hide Eligible;
    if l != [] {
      EligibleNatural(l[1..]);
      if !Eligible(l[0].range.flags) {
        WriteoutCounts(l[1..], n);
      } else if Size(l[0]) < n {
        WriteoutCounts(l[1..], n - Size(l[0]));
        assert ([l[0]] + Writeout(l[1..], n - Size(l[0])))[1..] == Writeout(l[1..], n - Size(l[0]));
      } else {
        assert [FirstPages(l[0], n)][1..] == [];
      }
    }
  }

  /** `x` are the first pages of a record whose pages may be written back. */
  ghost predicate Chosen(l: seq<Entry>, x: Entry) {
    Eligible(x.range.flags) && exists y :: y in l && x == FirstPages(y, Size(x)) && Size(x) <= Size(y)
  }

  lemma ChosenFrom(l: seq<Entry>, y: Entry, n: int)
    requires y in l && Eligible(y.range.flags) && n <= Size(y)
    ensures Chosen(l, FirstPages(y, n))
  {
    assert Size(FirstPages(y, n)) == n;
  }

  lemma {:induction false} WriteoutFrom(l: seq<Entry>, n: int, x: Entry)
    requires x in Writeout(l, n)
    ensures Chosen(l, x)
  {
    hide Eligible;
    if !Eligible(l[0].range.flags) {
      WriteoutFrom(l[1..], n, x);
    } else if Size(l[0]) >= n {
      ChosenFrom(l, l[0], n);
    } else if x == l[0] {
      ChosenFrom(l, l[0], Size(l[0]));
    } else {
      WriteoutFrom(l[1..], n - Size(l[0]), x);
    }
  }

  /** `n` pages are chosen, or all there are; each is part of a record whose pages may be written back. */
  lemma WriteoutIsRight(l: seq<Entry>, n: int)
    requires NonEmpty(l) && n > 0
    ensures PagesIn(Writeout(l, n)) == Min(n, EligiblePages(l)) && NonEmpty(Writeout(l, n))
    ensures forall x :: x in Writeout(l, n) ==> Chosen(l, x)
  {
    hide Writeout, Chosen, EligiblePages, PagesIn;
    WriteoutCounts(l, n);
    forall x | x in Writeout(l, n)
      ensures Chosen(l, x)
    {
      WriteoutFrom(l, n, x);
    }
  }

  /** Choosing from two lists one after the other, as long as the first does not have enough. */
  lemma {:induction false} WriteoutAppend(x: seq<Entry>, y: seq<Entry>, n: int)
    requires NonEmpty(x) && n > 0
    ensures Writeout(x + y, n) == if EligiblePages(x) >= n then Writeout(x, n) else Writeout(x, n) + Writeout(y, n - EligiblePages(x))
  {
    if x == [] {
      assert x + y == y;
    } else {
      EligibleNatural(x[1..]);
      assert (x + y)[1..] == x[1..] + y && (x + y)[0] == x[0];
      if !Eligible(x[0].range.flags) {
        WriteoutAppend(x[1..], y, n);
      } else if Size(x[0]) < n {
        WriteoutAppend(x[1..], y, n - Size(x[0]));
        Associative([x[0]], Writeout(x[1..], n - Size(x[0])), Writeout(y, n - EligiblePages(x)));
      }
    }
  }

  /** The choice goes on from record `k`. */
  lemma WriteoutNext(l: seq<Entry>, k: nat, left: int)
    requires NonEmpty(l) && k < |l| && left > 0
    ensures var (x, rest) := (l[k], l[k + 1..]);
            && Writeout(l[k..], left) == (if !Eligible(x.range.flags) then Writeout(rest, left)
                                          else if Size(x) >= left then [FirstPages(x, left)]
                                          else [x] + Writeout(rest, left - Size(x)))
            && EligiblePages(l[k..]) == EligiblePages(rest) + (if Eligible(x.range.flags) then Size(x) else 0)
            && EligiblePages(rest) >= 0 && Size(x) > 0
  {
    assert l[k..][0] == l[k] && l[k..][1..] == l[k + 1..] && NonEmpty(l[k + 1..]);
    EligibleNatural(l[k + 1..]);
  }

  function Concat(parts: seq<seq<Entry>>): seq<Entry> {
    if parts == [] then [] else parts[0] + Concat(parts[1..])
  }

  /** What is chosen from several lists: from the first as much as it has, then from the others. */
  lemma ConcatNext(parts: seq<seq<Entry>>, j: nat, left: int)
    requires j < |parts| && NonEmpty(parts[j]) && left > 0
    ensures var (l, rest) := (parts[j], Concat(parts[j + 1..]));
            Writeout(Concat(parts[j..]), left)
              == if EligiblePages(l) >= left then Writeout(l, left)
                 else Writeout(l, left) + Writeout(rest, left - EligiblePages(l))
  {
    assert parts[j..][0] == parts[j] && parts[j..][1..] == parts[j + 1..];
    WriteoutAppend(parts[j], Concat(parts[j + 1..]), left);
  }

  // ---------------------------------------------------------------- what may be reclaimed or written back

  /** How many pages are clean, unlocked and not held. */
  function Free(l: seq<Entry>): int {
    if l == [] then 0
    else
      var f := l[0].range.flags;
      Free(l[1..]) + if !f.dirty && !f.locked && f.count == 0 then Size(l[0]) else 0
  }

  lemma {:induction false} FreeIsCold(l: seq<Entry>)
    ensures Free(l) == ColdPages(l)
  {
    if l != [] {
      FreeIsCold(l[1..]);
    }
  }

  /** As many pages go as are wanted, or all that are clean, unlocked and not held; and the list has lost that many. */
  lemma {:induction false} ReclaimFrees(l: seq<Entry>, n: int)
    requires NonEmpty(l) && n >= 0
    ensures n - Reclaim(l, n).1 == Min(n, Free(l)) == PagesIn(l) - PagesIn(Reclaim(l, n).0)
    decreases |l|
  {
    FreeIsCold(l);
    if l != [] && n != 0 {
      var (front, last) := (l[..|l| - 1], l[|l| - 1]);
      hide Reclaim, Cold, PagesIn, ColdPages, Free;
      ReclaimLast(l, n);
      LastCold(l);
      FrontAndLast(l);
      FreeIsCold(front);
      ColdPagesNatural(front);
      PagesInOneMore(front, last);
      if !Cold(last.range.flags) {
        ReclaimFrees(front, n);
        PagesInOneMore(Reclaim(front, n).0, last);
      } else if n < Size(last) {
        PagesInOneMore(front, WithoutFirst(last, n));
      } else {
        ReclaimFrees(front, n - Size(last));
      }
    } else {
      ColdPagesNatural(l);
    }
  }

  lemma {:induction false} PagesInOneMore(x: seq<Entry>, last: Entry)
    ensures PagesIn(x + [last]) == PagesIn(x) + Size(last)
  {
    if x != [] {
      PagesInOneMore(x[1..], last);
      assert (x + [last])[1..] == x[1..] + [last];
    } else {
      assert [last][1..] == [];
    }
  }

  /** How many pages are dirty but neither under write-back nor locked nor held. */
  function Writable(l: seq<Entry>): int {
    if l == [] then 0
    else
      var f := l[0].range.flags;
      Writable(l[1..]) + if f.dirty && !f.writeback && !f.locked && f.count == 0 then Size(l[0]) else 0
  }

  lemma {:induction false} WritableIsEligible(l: seq<Entry>)
    ensures Writable(l) == EligiblePages(l)
  {
    if l != [] {
      WritableIsEligible(l[1..]);
    }
  }

  /** As many pages are chosen as are wanted, or all that may be written back, and each of them may be. */
  lemma WriteoutChooses(l: seq<Entry>, n: int)
    requires NonEmpty(l) && n > 0
    ensures PagesIn(Writeout(l, n)) == Min(n, Writable(l))
    ensures forall x :: x in Writeout(l, n) ==>
              var f := x.range.flags; f.dirty && !f.writeback && !f.locked && f.count == 0
  {
    hide Writeout, EligiblePages, PagesIn;
    WriteoutIsRight(l, n);
    WritableIsEligible(l);
    assert forall x :: x in Writeout(l, n) ==> Chosen(l, x);
  }
}
