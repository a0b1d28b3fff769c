/** The extents of a file in the local file system, and the accesses a request for logical blocks becomes. */
module Extents {
  import opened Basics

  /** `length` logical blocks from `logistart` on lie at `phystart` on disk, with the extent's metadata in the block
      before; `accessed` says whether that has been read. */
  datatype Extent = Extent(logistart: int, phystart: int, length: int, accessed: bool)

  ghost predicate Contiguous(ext: seq<Extent>) {
    && ext != [] && ext[0].logistart == 0
    && (forall i :: 0 <= i < |ext| ==> ext[i].length > 0)
    && (forall i :: 0 <= i < |ext| - 1 ==> ext[i + 1].logistart == ext[i].logistart + ext[i].length)
  }

  function FileEnd(ext: seq<Extent>): int
    requires ext != []
  {
    var last := ext[|ext| - 1]; last.logistart + last.length
  }

  predicate Holds(x: Extent, addr: int) {
    x.logistart <= addr < x.logistart + x.length
  }

  lemma {:induction false} Ordered(ext: seq<Extent>, i: nat, j: nat)
    requires Contiguous(ext) && i < j < |ext|
    ensures 0 <= ext[i].logistart && ext[i].logistart + ext[i].length <= ext[j].logistart
    decreases j
  {
    if i > 0 {
      Ordered(ext, 0, i);
    }
    if i < j - 1 {
      Ordered(ext, i, j - 1);
    }
  }

  /** At most one extent holds a block. */
  lemma OnlyOne(ext: seq<Extent>, i: nat, j: nat, addr: int)
    requires Contiguous(ext) && i < |ext| && j < |ext| && Holds(ext[i], addr) && Holds(ext[j], addr)
    ensures i == j
  {
    if i < j {
      Ordered(ext, i, j);
    } else if j < i {
      Ordered(ext, j, i);
    }
  }

  /** Binary search for the extent of a block; the number of extents if the block is the next one of the file, and
      -1 if it is out of range. */
  method FindExtEntry(ext: seq<Extent>, addr: int) returns (index: int)
    requires Contiguous(ext)
    ensures index == -1 <==> addr < 0 || addr > FileEnd(ext)
    ensures index == |ext| <==> addr == FileEnd(ext)
    ensures index != -1 && index != |ext| ==> 0 <= index < |ext| && Holds(ext[index], addr)
  {
    var start, end := 0, |ext| - 1;
    if |ext| > 1 {
      Ordered(ext, 0, |ext| - 1);
    }
    if addr < 0 || addr > ext[end].logistart + ext[end].length {
      return -1;
    }
    if addr == ext[end].logistart + ext[end].length {
      return |ext|;
    }
    while true
      invariant 0 <= start <= end < |ext|
      invariant ext[start].logistart <= addr < ext[end].logistart + ext[end].length
      decreases end - start
    {
      var middle := (start + end) / 2;
      if addr < ext[middle].logistart {
        Below(ext, start, middle, addr);
        end := middle - 1;
      } else if addr >= ext[middle].logistart + ext[middle].length {
        Above(ext, middle, end, addr);
        start := middle + 1;
      } else {
        return middle;
      }
    }
  }

  lemma Below(ext: seq<Extent>, start: nat, middle: nat, addr: int)
    requires Contiguous(ext) && start <= middle < |ext| && ext[start].logistart <= addr < ext[middle].logistart
    ensures start < middle && addr < ext[middle - 1].logistart + ext[middle - 1].length
  {
  }

  lemma Above(ext: seq<Extent>, middle: nat, end: nat, addr: int)
    requires Contiguous(ext) && middle <= end < |ext|
    requires ext[middle].logistart + ext[middle].length <= addr < ext[end].logistart + ext[end].length
    ensures middle < end && ext[middle + 1].logistart <= addr
  {
  }

  function IndexFrom(ext: seq<Extent>, addr: int, i: nat): (k: nat)
    requires i <= |ext|
    ensures i <= k <= |ext| && (k < |ext| ==> Holds(ext[k], addr))
    decreases |ext| - i
  {
    if i == |ext| || Holds(ext[i], addr) then i else IndexFrom(ext, addr, i + 1)
  }

  /** The extent that holds a block. */
  function IndexOf(ext: seq<Extent>, addr: int): (k: nat)
    ensures k <= |ext| && (k < |ext| ==> Holds(ext[k], addr))
  {
    IndexFrom(ext, addr, 0)
  }

  lemma {:induction false} SomeHolds(ext: seq<Extent>, addr: int, n: nat)
    requires Contiguous(ext) && 0 < n <= |ext| && 0 <= addr < ext[n - 1].logistart + ext[n - 1].length
    ensures exists i :: 0 <= i < n && Holds(ext[i], addr)
  {
    if n > 1 && addr < ext[n - 1].logistart {
      SomeHolds(ext, addr, n - 1);
    } else {
      assert Holds(ext[n - 1], addr);
    }
  }

  lemma {:induction false} FromIsFirst(ext: seq<Extent>, addr: int, i: nat, k: nat)
    requires i <= k < |ext| && Holds(ext[k], addr)
    ensures IndexFrom(ext, addr, i) < |ext|
    decreases |ext| - i
  {
    if i < k && !Holds(ext[i], addr) {
      FromIsFirst(ext, addr, i + 1, k);
    }
  }

  /** The extent a block is in is the one that holds it. */
  lemma IndexIs(ext: seq<Extent>, addr: int, k: nat)
    requires Contiguous(ext) && k < |ext| && Holds(ext[k], addr)
    ensures IndexOf(ext, addr) == k
  {
    FromIsFirst(ext, addr, 0, k);
    OnlyOne(ext, IndexOf(ext, addr), k, addr);
  }

  lemma IndexInRange(ext: seq<Extent>, addr: int)
    requires Contiguous(ext) && 0 <= addr < FileEnd(ext)
    ensures IndexOf(ext, addr) < |ext|
  {
    SomeHolds(ext, addr, |ext|);
    var i :| 0 <= i < |ext| && Holds(ext[i], addr);
    IndexIs(ext, addr, i);
  }

  // ---------------------------------------------------------------- one access

  datatype Policy = Policy(size: int, gap: int)

  /** A new extent for the next block of the file. */
  function Appended(p: Policy, ext: seq<Extent>, start: int): seq<Extent> {
    ext + [Extent(start, if ext == [] then p.gap else ext[|ext| - 1].phystart + p.gap, p.size, false)]
  }

  lemma AppendedIsContiguous(p: Policy, ext: seq<Extent>)
    requires Contiguous(ext) && p.size > 0
    ensures Contiguous(Appended(p, ext, FileEnd(ext)))
    ensures FileEnd(Appended(p, ext, FileEnd(ext))) == FileEnd(ext) + p.size
  {
  }

  /** The disk blocks of an extent, its metadata included. */
  predicate Occupies(x: Extent, block: int) {
    x.phystart - 1 <= block < x.phystart + x.length
  }

  /** A new extent keeps off the one before it exactly when the gap is larger than that extent. */
  lemma AppendedIsApart(p: Policy, ext: seq<Extent>, start: int)
    requires Contiguous(ext) && p.size > 0 && p.gap >= 0
    ensures var (last, next) := (ext[|ext| - 1], Appended(p, ext, start)[|ext|]);
            (forall b :: !(Occupies(last, b) && Occupies(next, b))) <==> p.gap > last.length
  {
    var (last, next) := (ext[|ext| - 1], Appended(p, ext, start)[|ext|]);
    assert p.gap <= last.length ==> Occupies(last, next.phystart - 1) && Occupies(next, next.phystart - 1);
  }

  /** An extent's metadata, or blocks `start` up to `end` of the disk in it. */
  datatype Access = Meta(index: nat) | Data(index: nat, start: int, end: int)

  /** The next access for the logical blocks from `s` up to `e`. */
  function Next(ext: seq<Extent>, s: int, e: int): (a: Access)
    requires IndexOf(ext, s) < |ext|
    ensures a.index == IndexOf(ext, s)
  {
    var i := IndexOf(ext, s);
    var x := ext[i];
    if !x.accessed then Meta(i)
    else
      var start := x.phystart + (s - x.logistart);
      Data(i, start, Min(e - s + start, x.phystart + x.length))
  }

  // ---------------------------------------------------------------- all accesses of one request

  /** The same extents, some of them accessed since. */
  ghost predicate SameExtents(x: seq<Extent>, y: seq<Extent>) {
    && |x| <= |y|
    && forall i :: 0 <= i < |x| ==> y[i] == x[i] || y[i] == x[i].(accessed := true)
  }

  lemma {:induction false} Marked(ext: seq<Extent>, i: nat)
    requires Contiguous(ext) && i < |ext|
    ensures var ext' := ext[i := ext[i].(accessed := true)];
            Contiguous(ext') && FileEnd(ext') == FileEnd(ext) && SameExtents(ext, ext')
  {
  }

  function Open(p: Policy, ext: seq<Extent>, s: int): (ext': seq<Extent>)
    requires Contiguous(ext) && p.size > 0 && 0 <= s <= FileEnd(ext)
    ensures Contiguous(ext') && s < FileEnd(ext') && IndexOf(ext', s) < |ext'|
  {
    if s == FileEnd(ext) then
      AppendedIsContiguous(p, ext);
      IndexInRange(Appended(p, ext, s), s);
      Appended(p, ext, s)
    else
      IndexInRange(ext, s);
      ext
  }

  lemma DataAdvances(ext: seq<Extent>, s: int, e: int)
    requires Contiguous(ext) && 0 <= s < FileEnd(ext) && s <= e && IndexOf(ext, s) < |ext| && ext[IndexOf(ext, s)].accessed
    ensures var Data(i, a, b) := Next(ext, s, e);
            && a == Physical(ext, s) && 0 <= b - a <= e - s && s + (b - a) <= FileEnd(ext) && (s < e ==> a < b)
            && Places(ext, s, s + (b - a), Span(a, b))
  {
    var i := IndexOf(ext, s);
    if i < |ext| - 1 {
      Ordered(ext, i, |ext| - 1);
    }
    var Data(_, a, b) := Next(ext, s, e);
    forall x | s <= x < s + (b - a)
      ensures IndexOf(ext, x) == i
    {
      IndexIs(ext, x, i);
    }
  }

  /** `blocks` are the places on disk of the logical blocks from `s` up to `e`, in order. */
  ghost predicate Places(ext: seq<Extent>, s: int, e: int, blocks: seq<int>) {
    && |blocks| == e - s
    && forall x :: s <= x < e ==> IndexOf(ext, x) < |ext| && blocks[x - s] == Physical(ext, x)
  }

  lemma PlacesAppend(ext: seq<Extent>, after: seq<Extent>, s: int, m: int, e: int, x: seq<int>, y: seq<int>)
    requires Contiguous(ext) && Contiguous(after) && SameExtents(ext, after) && s <= m <= e
    requires Places(ext, s, m, x) && Places(after, m, e, y)
    ensures Places(after, s, e, x + y)
  {
    hide IndexOf, Physical, Contiguous;
    forall addr | s <= addr < e
      ensures IndexOf(after, addr) < |after| && (x + y)[addr - s] == Physical(after, addr)
    {
      if addr < m {
        SamePlace(ext, after, addr);
      }
    }
  }

  /** Where a logical block is on disk. */
  function Physical(ext: seq<Extent>, addr: int): int
    requires IndexOf(ext, addr) < |ext|
  {
    var x := ext[IndexOf(ext, addr)]; x.phystart + (addr - x.logistart)
  }

  /** The accesses one request makes when nothing else is going on, and the extents afterwards. */
  function Accesses(p: Policy, ext: seq<Extent>, s: int, e: int): (r: (seq<Extent>, seq<Access>))
    requires Contiguous(ext) && p.size > 0 && 0 <= s < FileEnd(ext) && s <= e && IndexOf(ext, s) < |ext|
    decreases e - s, if ext[IndexOf(ext, s)].accessed then 0 else 1
  {
    match Next(ext, s, e)
    case Meta(i) =>
      Marked(ext, i);
      var ext' := ext[i := ext[i].(accessed := true)];
      IndexIs(ext', s, i);
      var (after, rest) := Accesses(p, ext', s, e);
      (after, [Meta(i)] + rest)
    case Data(i, a, b) =>
      DataAdvances(ext, s, e);
      if s + (b - a) == e then (ext, [Data(i, a, b)])
      else
        var (after, rest) := Accesses(p, Open(p, ext, s + (b - a)), s + (b - a), e);
        (after, [Data(i, a, b)] + rest)
  }

  function Span(a: int, b: int): (r: seq<int>)
    ensures |r| == if a < b then b - a else 0
    ensures forall k :: 0 <= k < |r| ==> r[k] == a + k
  {
    if a < b then seq(b - a, k => a + k) else []
  }

  /** The disk blocks read or written for data, in order. */
  function DataBlocks(t: seq<Access>): seq<int> {
    if t == [] then []
    else (if t[0].Data? then Span(t[0].start, t[0].end) else []) + DataBlocks(t[1..])
  }

  lemma SameExtentsTwice(x: seq<Extent>, y: seq<Extent>, z: seq<Extent>)
    requires SameExtents(x, y) && SameExtents(y, z)
    ensures SameExtents(x, z)
  {
  }

  lemma SamePlace(x: seq<Extent>, y: seq<Extent>, addr: int)
    requires Contiguous(x) && Contiguous(y) && SameExtents(x, y) && IndexOf(x, addr) < |x|
    ensures IndexOf(y, addr) == IndexOf(x, addr) && IndexOf(y, addr) < |y| && Physical(y, addr) == Physical(x, addr)
  {
    IndexIs(y, addr, IndexOf(x, addr));
  }

  lemma OpenIsSame(p: Policy, ext: seq<Extent>, s: int)
    requires Contiguous(ext) && p.size > 0 && 0 <= s <= FileEnd(ext)
    ensures SameExtents(ext, Open(p, ext, s))
  {
  }

  /** The data of a request is accessed block by block, each logical block once and in order, at the place its
      extent gives it; the file is extended where needed and stays contiguous. */
  lemma {:induction false} EachBlockOnce(p: Policy, ext: seq<Extent>, s: int, e: int)
    requires Contiguous(ext) && p.size > 0 && 0 <= s < FileEnd(ext) && s <= e && IndexOf(ext, s) < |ext|
    ensures var (ext', t) := Accesses(p, ext, s, e);
            && Contiguous(ext') && SameExtents(ext, ext') && e <= FileEnd(ext')
            && Places(ext', s, e, DataBlocks(t))
    decreases e - s, if ext[IndexOf(ext, s)].accessed then 0 else 1
  {
    hide Physical, IndexOf, Contiguous, FileEnd, Places;
    match Next(ext, s, e)
    case Meta(i) =>
      Marked(ext, i);
      var ext' := ext[i := ext[i].(accessed := true)];
      IndexIs(ext', s, i);
      EachBlockOnce(p, ext', s, e);
      var (after, rest) := Accesses(p, ext', s, e);
      SameExtentsTwice(ext, ext', after);
      FirstBlocks(Meta(i), rest);
    case Data(i, a, b) =>
      DataAdvances(ext, s, e);
      if s + (b - a) == e {
        FirstBlocks(Data(i, a, b), []);
      } else {
        var (s', grown) := (s + (b - a), Open(p, ext, s + (b - a)));
        EachBlockOnce(p, grown, s', e);
        OpenIsSame(p, ext, s');
        var (after, rest) := Accesses(p, grown, s', e);
        SameExtentsTwice(ext, grown, after);
        FirstBlocks(Data(i, a, b), rest);
        PlacesAppend(ext, after, s, s', e, Span(a, b), DataBlocks(rest));
      }
  }

  lemma FirstBlocks(a: Access, rest: seq<Access>)
    ensures DataBlocks([a] + rest) == (if a.Data? then Span(a.start, a.end) else []) + DataBlocks(rest)
    ensures a.Meta? ==> DataBlocks([a] + rest) == DataBlocks(rest)
    ensures a.Data? && rest == [] ==> DataBlocks([a]) == Span(a.start, a.end)
  {
    assert ([a] + rest)[1..] == rest;
    assert [a] + [] == [a];
    assert a.Data? ==> Span(a.start, a.end) + [] == Span(a.start, a.end);
  }

  /** How often the metadata of extent `i` is read. */
  function MetaReads(t: seq<Access>, i: nat): nat {
    if t == [] then 0 else MetaReads(t[1..], i) + if t[0] == Meta(i) then 1 else 0
  }

  /** No data of an extent before its metadata, unless that had been read before. */
  ghost predicate MetaFirst(ext: seq<Extent>, t: seq<Access>) {
    forall k :: 0 <= k < |t| && t[k].Data? ==>
      || (t[k].index < |ext| && ext[t[k].index].accessed)
      || exists j :: 0 <= j < k && t[j] == Meta(t[k].index)
  }

  predicate WasAccessed(ext: seq<Extent>, i: nat) {
    i < |ext| && ext[i].accessed
  }

  lemma MetaFirstCons(ext: seq<Extent>, ext': seq<Extent>, a: Access, rest: seq<Access>)
    requires MetaFirst(ext', rest)
    requires forall i :: WasAccessed(ext', i) ==> WasAccessed(ext, i) || a == Meta(i)
    requires a.Data? ==> WasAccessed(ext, a.index)
    ensures MetaFirst(ext, [a] + rest)
  {
    var t := [a] + rest;
    forall k | 0 <= k < |t| && t[k].Data?
      ensures WasAccessed(ext, t[k].index) || exists j :: 0 <= j < k && t[j] == Meta(t[k].index)
    {
      if k > 0 {
        if WasAccessed(ext', rest[k - 1].index) {
          assert t[0] == a;
        } else {
          var j :| 0 <= j < k - 1 && rest[j] == Meta(rest[k - 1].index);
          assert t[j + 1] == Meta(t[k].index);
        }
      }
    }
  }

  /** The metadata of each extent that a request reaches is read exactly once, before the first access to its data,
      unless it had been read before; it never has to be read again. */
  lemma {:induction false} MetadataOnce(p: Policy, ext: seq<Extent>, s: int, e: int, i: nat)
    requires Contiguous(ext) && p.size > 0 && 0 <= s < FileEnd(ext) && s <= e && IndexOf(ext, s) < |ext|
    ensures var (ext', t) := Accesses(p, ext, s, e);
            && MetaReads(t, i) == (if WasAccessed(ext', i) && !WasAccessed(ext, i) then 1 else 0)
            && (WasAccessed(ext, i) ==> WasAccessed(ext', i))
            && MetaFirst(ext, t)
            && forall k :: 0 <= k < |t| && t[k].index == i ==> WasAccessed(ext', i)
    decreases e - s, if ext[IndexOf(ext, s)].accessed then 0 else 1
  {
    hide IndexOf, Contiguous, FileEnd;
    match Next(ext, s, e)
    case Meta(h) =>
      Marked(ext, h);
      var ext' := ext[h := ext[h].(accessed := true)];
      IndexIs(ext', s, h);
      MetadataOnce(p, ext', s, e, i);
      MetadataOnce(p, ext', s, e, h);
      var rest := Accesses(p, ext', s, e).1;
      assert ([Meta(h)] + rest)[1..] == rest;
      MetaFirstCons(ext, ext', Meta(h), rest);
    case Data(h, a, b) =>
      DataAdvances(ext, s, e);
      if s + (b - a) == e {
        assert [Data(h, a, b)][1..] == [];
      } else {
        var (s', grown) := (s + (b - a), Open(p, ext, s + (b - a)));
        MetadataOnce(p, grown, s', e, i);
        MetadataOnce(p, grown, s', e, h);
        var rest := Accesses(p, grown, s', e).1;
        assert ([Data(h, a, b)] + rest)[1..] == rest;
        MetaFirstCons(ext, grown, Data(h, a, b), rest);
      }
  }
}
