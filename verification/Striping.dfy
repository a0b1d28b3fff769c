/** How the bytes of a file are striped over servers, and what the client's windows make of it. */
module Striping {
  import opened Basics

  const MAX_WINDOW_SIZE := 0xa00000

  function Sum(s: seq<nat>): nat {
    if s == [] then 0 else Sum(s[..|s| - 1]) + s[|s| - 1]
  }

  /** The size of one stripe window. */
  function Size(l: seq<nat>): nat {
    Sum(l)
  }

  /** The bytes of a stripe window in front of server `i`. */
  function Before(l: seq<nat>, i: nat): nat
    requires i <= |l|
  {
    Sum(l[..i])
  }

  function Clamp(x: int, high: nat): (y: nat) {
    if x < 0 then 0 else if x > high then high else x
  }

  /** How many of the first `b` bytes of a stripe window are on server `i`. */
  function Within(l: seq<nat>, i: nat, b: int): nat
    requires i < |l|
  {
    Clamp(b - Before(l, i), l[i])
  }

  /** How many of the first `x` bytes of a file are on server `i`: the offset on that server of what follows. */
  function Part(l: seq<nat>, i: nat, x: nat): nat
    requires i < |l| && Size(l) > 0
  {
    x / Size(l) * l[i] + Within(l, i, x % Size(l))
  }

  lemma {:induction false} BeforeNext(l: seq<nat>, i: nat)
    requires i < |l|
    ensures Before(l, i + 1) == Before(l, i) + l[i]
  {
    assert l[..i + 1][..i] == l[..i];
  }

  lemma BeforeAll(l: seq<nat>)
    ensures Before(l, 0) == 0 && Before(l, |l|) == Size(l)
  {
    assert l[..|l|] == l;
  }

  lemma {:induction false} BeforeGrows(l: seq<nat>, i: nat, j: nat)
    requires i <= j <= |l|
    ensures Before(l, i) <= Before(l, j)
    decreases j - i
  {
    if i < j {
      BeforeGrows(l, i, j - 1);
      BeforeNext(l, j - 1);
    }
  }

  lemma WithinEnds(l: seq<nat>, i: nat)
    requires i < |l|
    ensures Within(l, i, 0) == 0 && Within(l, i, Size(l)) == l[i]
  {
    BeforeNext(l, i);
    BeforeGrows(l, i + 1, |l|);
    BeforeAll(l);
  }

  /** Round `q` of the stripe windows, and `b` bytes of it, up to and including a whole round. */
  lemma PartIs(l: seq<nat>, i: nat, q: nat, b: nat)
    requires i < |l| && Size(l) > 0 && b <= Size(l)
    ensures Part(l, i, q * Size(l) + b) == q * l[i] + Within(l, i, b)
  {
    var w := Size(l);
    WithinEnds(l, i);
    if b < w {
      DivMod(q, w, b);
    } else {
      DivMod(q + 1, w, 0);
      assert q * w + b == (q + 1) * w + 0;
      assert (q + 1) * l[i] == q * l[i] + l[i];
    }
  }

  lemma DivMod(q: nat, w: nat, b: nat)
    requires w > 0 && b < w
    ensures (q * w + b) / w == q && (q * w + b) % w == b
  {
    var x := q * w + b;
    var d := x / w - q;
    assert x == (x / w) * w + x % w;
    assert d * w == (x / w) * w - q * w;
    NoMultiple(d, w);
  }

  /** A stretch of bytes inside the stripe of server `i` is on that server and on no other. */
  lemma StripeIsLocal(l: seq<nat>, i: nat, j: nat, q: nat, a: nat, b: nat)
    requires i < |l| && j < |l| && Size(l) > 0 && Before(l, i) <= a <= b <= Before(l, i) + l[i]
    ensures a <= b <= Size(l)
    ensures Part(l, j, q * Size(l) + b) - Part(l, j, q * Size(l) + a) == if i == j then b - a else 0
  {
    BeforeNext(l, i);
    BeforeGrows(l, i + 1, |l|);
    BeforeAll(l);
    PartIs(l, j, q, a);
    PartIs(l, j, q, b);
    BeforeNext(l, j);
    if j < i {
      BeforeGrows(l, j + 1, i);
    } else if i < j {
      BeforeGrows(l, i + 1, j);
    }
  }

  // ---------------------------------------------------------------- all servers together

  function PartSum(l: seq<nat>, n: nat, x: nat): nat
    requires n <= |l| && Size(l) > 0
  {
    if n == 0 then 0 else PartSum(l, n - 1, x) + Part(l, n - 1, x)
  }

  lemma {:induction false} WithinSum(l: seq<nat>, n: nat, q: nat, b: nat)
    requires n <= |l| && Size(l) > 0 && b <= Size(l)
    ensures PartSum(l, n, q * Size(l) + b) == q * Before(l, n) + if b < Before(l, n) then b else Before(l, n)
  {
    BeforeAll(l);
    if n > 0 {
      hide Part, Before, Size;
      WithinSum(l, n - 1, q, b);
      PartIs(l, n - 1, q, b);
      BeforeNext(l, n - 1);
      Distribute(q, Before(l, n - 1), l[n - 1]);
    }
  }

  lemma Distribute(q: int, x: int, y: int)
    ensures q * (x + y) == q * x + q * y
    ensures (x + y) * q == x * q + y * q
  {
  }

  /** Every byte is on exactly one server: the parts add up. */
  lemma PartsAddUp(l: seq<nat>, x: nat)
    requires Size(l) > 0
    ensures PartSum(l, |l|, x) == x
  {
    var (q, b) := (x / Size(l), x % Size(l));
    WithinSum(l, |l|, q, b);
    BeforeAll(l);
    assert x == q * Size(l) + b;
  }

  // ---------------------------------------------------------------- the windows

  /** The size of transfer window `n` of a request of `total` bytes. */
  function Aggregate(total: nat, n: nat): nat {
    if total < n * MAX_WINDOW_SIZE then 0 else Min(total - n * MAX_WINDOW_SIZE, MAX_WINDOW_SIZE)
  }

  /** What a window starting at `origin` and of size `agg` gives to server `i`. */
  function Share(l: seq<nat>, i: nat, origin: nat, agg: nat): int
    requires i < |l| && Size(l) > 0
  {
    Part(l, i, origin + agg) - Part(l, i, origin)
  }

  /** Every window is laid out as if it began where the first one did.  So server `i` gets in window `n` the bytes
      from `WindowStart` on, as many as the share of a window of that size at the origin. */
  function WindowStart(l: seq<nat>, i: nat, origin: nat, n: nat): int
    requires i < |l| && Size(l) > 0
  {
    Part(l, i, origin) + n * Share(l, i, origin, MAX_WINDOW_SIZE)
  }

  function WindowShare(l: seq<nat>, i: nat, origin: nat, total: nat, n: nat): int
    requires i < |l| && Size(l) > 0
  {
    Share(l, i, origin, Aggregate(total, n))
  }

  /** Window `n` is sent where it belongs: each server gets exactly its part of the window's bytes. */
  ghost predicate WindowOk(l: seq<nat>, origin: nat, total: nat, n: nat)
    requires Size(l) > 0
  {
    forall i :: 0 <= i < |l| ==>
      && WindowStart(l, i, origin, n) == Part(l, i, origin + n * MAX_WINDOW_SIZE)
      && WindowShare(l, i, origin, total, n) == Share(l, i, origin + n * MAX_WINDOW_SIZE, Aggregate(total, n))
  }

  ghost predicate Exact(l: seq<nat>, origin: nat, total: nat)
    requires Size(l) > 0
  {
    forall n {:trigger WindowOk(l, origin, total, n)} :: n >= 0 && n * MAX_WINDOW_SIZE < total ==> WindowOk(l, origin, total, n)
  }

  ghost predicate OneServer(l: seq<nat>) {
    exists i :: 0 <= i < |l| && l[i] == Size(l)
  }

  /** The first window is always right, and so is every request of a single window. */
  lemma FirstWindowOk(l: seq<nat>, origin: nat, total: nat)
    requires Size(l) > 0
    ensures WindowOk(l, origin, total, 0)
    ensures 0 < total <= MAX_WINDOW_SIZE ==> Exact(l, origin, total)
  {
  }

  /** Whole rounds shift every server's part by as many stripes. */
  lemma WholeRounds(l: seq<nat>, i: nat, x: nat, m: nat)
    requires i < |l| && Size(l) > 0
    ensures Part(l, i, x + m * Size(l)) == Part(l, i, x) + m * l[i]
  {
    var (w, q, b) := (Size(l), x / Size(l), x % Size(l));
    assert x + m * w == (q + m) * w + b;
    PartIs(l, i, q + m, b);
    PartIs(l, i, q, b);
    assert x == q * w + b;
    assert (q + m) * l[i] == q * l[i] + m * l[i];
  }

  // ---------------------------------------------------------------- when all windows are right

  /** If the stripe window divides the transfer window, every request is striped exactly. */
  lemma DividingIsExact(l: seq<nat>, origin: nat, total: nat)
    requires Size(l) > 0 && MAX_WINDOW_SIZE % Size(l) == 0
    ensures Exact(l, origin, total)
  {
    var m := MAX_WINDOW_SIZE / Size(l);
    assert MAX_WINDOW_SIZE == m * Size(l);
    forall n, i | n >= 0 && 0 <= i < |l|
      ensures WindowStart(l, i, origin, n) == Part(l, i, origin + n * MAX_WINDOW_SIZE)
      ensures WindowShare(l, i, origin, total, n) == Share(l, i, origin + n * MAX_WINDOW_SIZE, Aggregate(total, n))
    {
      ShiftedWindow(l, i, origin, total, n, m);
    }
  }

  lemma ShiftedWindow(l: seq<nat>, i: nat, origin: nat, total: nat, n: nat, m: nat)
    requires Size(l) > 0 && i < |l| && MAX_WINDOW_SIZE == m * Size(l)
    ensures WindowStart(l, i, origin, n) == Part(l, i, origin + n * MAX_WINDOW_SIZE)
    ensures WindowShare(l, i, origin, total, n) == Share(l, i, origin + n * MAX_WINDOW_SIZE, Aggregate(total, n))
  {
    hide Part, Size;
    var agg := Aggregate(total, n);
    Rescale(n, m, Size(l));
    Rescale(n, m, l[i]);
    WholeRounds(l, i, origin, m);
    WholeRounds(l, i, origin, n * m);
    WholeRounds(l, i, origin + agg, n * m);
  }

  lemma Rescale(n: nat, m: nat, w: nat)
    ensures n * (m * w) == (n * m) * w
  {
  }

  /** With all bytes on one server the window's start does not matter. */
  lemma OneServerIsExact(l: seq<nat>, origin: nat, total: nat)
    requires Size(l) > 0 && OneServer(l)
    ensures Exact(l, origin, total)
  {
    var k :| 0 <= k < |l| && l[k] == Size(l);
    forall i, x: nat | 0 <= i < |l|
      ensures Part(l, i, x) == if i == k then x else 0
    {
      AllOnOne(l, k, i, x);
    }
  }

  lemma AllOnOne(l: seq<nat>, k: nat, i: nat, x: nat)
    requires k < |l| && i < |l| && Size(l) > 0 && l[k] == Size(l)
    ensures Part(l, i, x) == if i == k then x else 0
  {
    BeforeNext(l, k);
    BeforeNext(l, i);
    BeforeGrows(l, k + 1, |l|);
    BeforeAll(l);
    if i < k {
      BeforeGrows(l, i + 1, k);
    } else if k < i {
      BeforeGrows(l, k + 1, i);
      BeforeGrows(l, i + 1, |l|);
    }
    assert x == x / Size(l) * Size(l) + x % Size(l);
  }

  /** The server that holds a byte of the stripe window. */
  function Holder(l: seq<nat>, b: nat): (i: nat)
    requires b < Size(l)
    ensures i < |l| && Before(l, i) <= b < Before(l, i) + l[i]
  {
    BeforeAll(l);
    HolderFrom(l, b, |l|)
  }

  function HolderFrom(l: seq<nat>, b: nat, n: nat): (i: nat)
    requires n <= |l| && b < Before(l, n)
    ensures i < n && Before(l, i) <= b < Before(l, i) + l[i]
  {
    BeforeNext(l, n - 1);
    if Before(l, n - 1) <= b then n - 1 else HolderFrom(l, b, n - 1)
  }

  /** One byte at position `b` of round `q` is on the server that holds it, and on no other. */
  lemma OneByte(l: seq<nat>, j: nat, q: nat, b: nat)
    requires j < |l| && b < Size(l)
    ensures Share(l, j, q * Size(l) + b, 1) == if j == Holder(l, b) then 1 else 0
  {
    hide Part;
    StripeIsLocal(l, Holder(l, b), j, q, b, b + 1);
    assert q * Size(l) + b + 1 == q * Size(l) + (b + 1);
  }

  /** The second window of a request goes wrong when its first byte should be on another server than the first
      byte of the request. */
  lemma WrongWindow(l: seq<nat>, origin: nat, a: nat)
    requires Size(l) > 0 && origin < Size(l) && a == Holder(l, origin)
    requires Holder(l, (origin + MAX_WINDOW_SIZE) % Size(l)) != a
    ensures !Exact(l, origin, MAX_WINDOW_SIZE + 1)
  {
    hide Part, Size, Holder, Share;
    var x := origin + MAX_WINDOW_SIZE;
    OneByte(l, a, 0, origin);
    OneByte(l, a, x / Size(l), x % Size(l));
    assert x == x / Size(l) * Size(l) + x % Size(l);
    assert 0 * Size(l) + origin == origin;
    assert Aggregate(MAX_WINDOW_SIZE + 1, 1) == 1;
    assert Share(l, a, origin, 1) == 1 && Share(l, a, x, 1) == 0;
    assert origin + 1 * MAX_WINDOW_SIZE == x && 1 * MAX_WINDOW_SIZE < MAX_WINDOW_SIZE + 1;
    assert WindowShare(l, a, origin, MAX_WINDOW_SIZE + 1, 1) != Share(l, a, x, 1);
    assert !WindowOk(l, origin, MAX_WINDOW_SIZE + 1, 1);
  }

  lemma HolderIsOnly(l: seq<nat>, b: nat, a: nat)
    requires b < Size(l) && a < |l| && b >= Before(l, a) + l[a]
    ensures Holder(l, b) != a
  {
  }

  lemma FirstServer(l: seq<nat>) returns (a: nat)
    requires Size(l) > 0 && !OneServer(l)
    ensures a < |l| && Before(l, a) == 0 && 0 < l[a] < Size(l)
  {
    a := Holder(l, 0);
    BeforeNext(l, a);
    BeforeGrows(l, a + 1, |l|);
    BeforeAll(l);
  }

  /** Otherwise some request is striped wrongly: one that starts in the first server's stripe. */
  lemma OthersAreNotExact(l: seq<nat>) returns (origin: nat)
    requires Size(l) > 0 && MAX_WINDOW_SIZE % Size(l) != 0 && !OneServer(l)
    ensures !Exact(l, origin, MAX_WINDOW_SIZE + 1)
  {
    hide Size, Before, Holder, Exact;
    var (w, r) := (Size(l), MAX_WINDOW_SIZE % Size(l));
    var a := FirstServer(l);
    origin := if r >= l[a] then 0 else l[a] - r;
    SameHolder(l, a, origin);
    Rounds(MAX_WINDOW_SIZE, w);
    ShiftedRemainder(MAX_WINDOW_SIZE / w, w, r, origin);
    HolderIsOnly(l, origin + r, a);
    WrongWindow(l, origin, a);
  }

  lemma ShiftedRemainder(q: nat, w: nat, r: nat, origin: nat)
    requires w > 0 && origin + r < w && MAX_WINDOW_SIZE == q * w + r
    ensures (origin + MAX_WINDOW_SIZE) % w == origin + r
  {
    DivMod(q, w, origin + r);
  }

  lemma SameHolder(l: seq<nat>, a: nat, b: nat)
    requires a < |l| && b < Size(l) && Before(l, a) <= b < Before(l, a) + l[a]
    ensures Holder(l, b) == a
  {
    var h := Holder(l, b);
    BeforeNext(l, a);
    BeforeNext(l, h);
    if h < a {
      BeforeGrows(l, h + 1, a);
    } else if a < h {
      BeforeGrows(l, a + 1, h);
    }
  }

  /** Striping is exact for every request precisely when the stripe window divides the transfer window, or one
      server holds everything. */
  lemma ExactForAll(l: seq<nat>)
    requires Size(l) > 0
    ensures (forall origin: nat, total: nat :: Exact(l, origin, total))
            <==> (MAX_WINDOW_SIZE % Size(l) == 0 || OneServer(l))
  {
    if MAX_WINDOW_SIZE % Size(l) == 0 {
      forall origin: nat, total: nat
        ensures Exact(l, origin, total)
      {
        DividingIsExact(l, origin, total);
      }
    } else if OneServer(l) {
      forall origin: nat, total: nat
        ensures Exact(l, origin, total)
      {
        OneServerIsExact(l, origin, total);
      }
    } else {
      var origin := OthersAreNotExact(l);
    }
  }

  // ---------------------------------------------------------------- what the packets cover

  function ShareSum(l: seq<nat>, n: nat, origin: nat, agg: nat): int
    requires n <= |l| && Size(l) > 0
  {
    if n == 0 then 0 else ShareSum(l, n - 1, origin, agg) + Share(l, n - 1, origin, agg)
  }

  /** The shares of a window add up to its size. */
  lemma SharesAddUp(l: seq<nat>, origin: nat, agg: nat)
    requires Size(l) > 0
    ensures ShareSum(l, |l|, origin, agg) == agg
  {
    SharesAre(l, |l|, origin, agg);
    PartsAddUp(l, origin + agg);
    PartsAddUp(l, origin);
  }

  lemma {:induction false} SharesAre(l: seq<nat>, n: nat, origin: nat, agg: nat)
    requires n <= |l| && Size(l) > 0
    ensures ShareSum(l, n, origin, agg) == PartSum(l, n, origin + agg) - PartSum(l, n, origin)
  {
    hide Part;
    if n > 0 {
      SharesAre(l, n - 1, origin, agg);
    }
  }

  /** So a window that is not empty has something for some server. */
  lemma {:induction false} SomeShare(l: seq<nat>, n: nat, origin: nat, agg: nat) returns (i: nat)
    requires Size(l) > 0 && n <= |l| && ShareSum(l, n, origin, agg) > 0
    ensures i < n && Share(l, i, origin, agg) > 0
  {
    i := n - 1;
    if Share(l, i, origin, agg) <= 0 {
      i := SomeShare(l, n - 1, origin, agg);
    }
  }

  /** How many of the first `n` servers a window has something for. */
  function Busy(l: seq<nat>, n: nat, origin: nat, agg: nat): (k: nat)
    requires n <= |l| && Size(l) > 0
    ensures k <= n
  {
    if n == 0 then 0 else Busy(l, n - 1, origin, agg) + if Share(l, n - 1, origin, agg) > 0 then 1 else 0
  }

  /** All servers count as busy exactly if every one has a share. */
  lemma {:induction false} AllBusy(l: seq<nat>, n: nat, origin: nat, agg: nat)
    requires n <= |l| && Size(l) > 0
    ensures Busy(l, n, origin, agg) == n <==> forall i :: 0 <= i < n ==> Share(l, i, origin, agg) > 0
  {
    hide Share;
    if n > 0 {
      AllBusy(l, n - 1, origin, agg);
    }
  }

  /** A window of one byte over two servers has something for one of them. */
  lemma NotAllBusy()
    ensures Size([4, 4]) == 8 && Busy([4, 4], 2, 0, 1) == 1
  {
    hide Part, Within, Sum;
    var l := [4, 4];
    TwoStripes();
    StripeIsLocal(l, 0, 0, 0, 0, 1);
    StripeIsLocal(l, 0, 1, 0, 0, 1);
    assert Busy(l, 1, 0, 1) == 1;
  }

  lemma TwoStripes()
    ensures Size([4, 4]) == 8 && Before([4, 4], 0) == 0
  {
    assert [4, 4][..1] == [4] && [4][..0] == [] && [4, 4][..0] == [];
    assert Sum([4]) == 4;
  }

  lemma NextByte(l: seq<nat>, i: nat, x: nat)
    requires i < |l| && Size(l) > 0
    ensures 0 <= Part(l, i, x + 1) - Part(l, i, x) <= 1
  {
    hide Part, Size, Holder;
    var (q, b) := (x / Size(l), x % Size(l));
    Rounds(x, Size(l));
    OneByte(l, i, q, b);
  }

  lemma Rounds(x: nat, w: nat)
    requires w > 0
    ensures x == x / w * w + x % w
  {
  }

  lemma {:induction false} PartGrows(l: seq<nat>, i: nat, x: nat, y: nat)
    requires i < |l| && Size(l) > 0 && x <= y
    ensures Part(l, i, x) <= Part(l, i, y)
    decreases y - x
  {
    if x < y {
      hide Part, Size, Holder;
      PartGrows(l, i, x, y - 1);
      NextByte(l, i, y - 1);
    }
  }

  /** What goes to a server over all windows is one stretch without gap or overlap: each window starts where the
      one before ended, and for an exactly striped request it runs from the server's part of the origin to its part
      of the end. */
  lemma WindowsTile(l: seq<nat>, i: nat, origin: nat, total: nat, n: nat)
    requires Size(l) > 0 && i < |l| && n * MAX_WINDOW_SIZE < total
    ensures WindowStart(l, i, origin, 0) == Part(l, i, origin)
    ensures (n + 1) * MAX_WINDOW_SIZE < total ==>
              WindowStart(l, i, origin, n + 1) == WindowStart(l, i, origin, n) + WindowShare(l, i, origin, total, n)
    ensures Exact(l, origin, total) && total <= (n + 1) * MAX_WINDOW_SIZE ==>
              WindowStart(l, i, origin, n) + WindowShare(l, i, origin, total, n) == Part(l, i, origin + total)
  {
    hide Part;
    Distribute(Share(l, i, origin, MAX_WINDOW_SIZE), n, 1);
    if Exact(l, origin, total) {
      assert WindowOk(l, origin, total, n);
    }
  }
}
