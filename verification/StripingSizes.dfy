/** For which sizes of a request striping is exact, wherever the request starts. */
module StripingSizes {
  import opened Basics
  import opened Striping

  function Mod(y: nat, w: nat): (r: nat)
    requires w > 0
  {
    y % w
  }

  /** Whether byte `y` of a file is in the first stripe, of length `first`. */
  function InFirst(w: nat, first: nat, y: nat): int
    requires w > 0
  {
    if Mod(y, w) < first then 1 else 0
  }

  lemma ByteAt(l: seq<nat>, a: nat, y: nat)
    requires Size(l) > 0 && a < |l| && Before(l, a) == 0 && 0 < l[a]
    ensures Part(l, a, y + 1) - Part(l, a, y) == InFirst(Size(l), l[a], y)
  {
    var (q, b) := (y / Size(l), y % Size(l));
    Rounds(y, Size(l));
    OneByte(l, a, q, b);
    hide Part, Holder, Size;
    if b < l[a] {
      SameHolder(l, a, b);
    } else {
      HolderIsOnly(l, b, a);
    }
  }

  /** If requests of a size are exact wherever they start, then the second window's share of the first server is the
      same as at the start of the request. */
  lemma SameShare(l: seq<nat>, a: nat, total: nat, o: nat)
    requires Size(l) > 0 && a < |l| && total > MAX_WINDOW_SIZE && Exact(l, o, total)
    ensures var agg := Aggregate(total, 1);
            Part(l, a, o + agg) - Part(l, a, o) == Part(l, a, o + MAX_WINDOW_SIZE + agg) - Part(l, a, o + MAX_WINDOW_SIZE)
  {
    hide Part, Size;
    assert WindowOk(l, o, total, 1) && o + 1 * MAX_WINDOW_SIZE == o + MAX_WINDOW_SIZE;
    assert WindowShare(l, a, o, total, 1) == Share(l, a, o + MAX_WINDOW_SIZE, Aggregate(total, 1));
  }

  /** So the first stripe looks the same from there, byte by byte. */
  lemma SameEdges(l: seq<nat>, a: nat, total: nat, o: nat)
    requires Size(l) > 0 && a < |l| && Before(l, a) == 0 && 0 < l[a] && total > MAX_WINDOW_SIZE
    requires Exact(l, o, total) && Exact(l, o + 1, total)
    ensures var (w, agg, m) := (Size(l), Aggregate(total, 1), MAX_WINDOW_SIZE);
            InFirst(w, l[a], o + agg) - InFirst(w, l[a], o) == InFirst(w, l[a], o + m + agg) - InFirst(w, l[a], o + m)
  {
    hide Part, Size, Exact, InFirst, Aggregate;
    var (agg, m) := (Aggregate(total, 1), MAX_WINDOW_SIZE);
    SameShare(l, a, total, o);
    SameShare(l, a, total, o + 1);
    ByteAt(l, a, o + agg);
    ByteAt(l, a, o);
    ByteAt(l, a, o + m + agg);
    ByteAt(l, a, o + m);
    assert o + 1 + agg == o + agg + 1 && o + 1 + m + agg == o + m + agg + 1 && o + 1 + m == o + m + 1;
  }

  /** Position `x` of the stripe window is outside the first stripe, and `step` further on is inside. */
  predicate Enters(w: nat, first: nat, step: nat, x: nat)
    requires w > 0
  {
    x >= first && Mod(x + step, w) < first
  }

  function Low(w: nat, first: nat, step: nat): int {
    if first > w - step then first else w - step
  }

  function High(w: nat, first: nat, step: nat): int {
    if w < w - step + first then w else w - step + first
  }

  /** Such positions form one stretch. */
  lemma EntersIs(w: nat, first: nat, step: nat, x: nat)
    requires 0 < first < w && 0 < step < w && x < w
    ensures Enters(w, first, step, x) <==> Low(w, first, step) <= x < High(w, first, step)
  {
    hide Mod;
    Turn(w, x, step);
  }

  /** One stretch of at most half the window does not look the same after a turn. */
  lemma NoTurn(w: nat, lo: int, hi: int, r: nat)
    requires 0 <= lo < hi <= w && 2 * (hi - lo) <= w && 0 < r < w
    ensures exists x: nat :: Turned(w, lo, hi, r, x)
  {
    var d := if 2 * r <= w then r else w - r;
    var y := if hi - 1 + d < w then hi - 1 + d else hi - 1 + d - w;
    assert !(lo <= y < hi);
    if 2 * r <= w {
      assert Turned(w, lo, hi, r, hi - 1);
    } else {
      assert Turned(w, lo, hi, r, y);
    }
  }

  ghost predicate Turned(w: nat, lo: int, hi: int, r: nat, x: nat) {
    x < w && (lo <= x < hi) != (lo <= (if x + r < w then x + r else x + r - w) < hi)
  }

  lemma SmallMod(w: nat, x: nat)
    requires x < w
    ensures Mod(x, w) == x && Mod(w + x, w) == x
  {
    DivMod(0, w, x);
    DivMod(1, w, x);
  }

  lemma Turn(w: nat, x: nat, r: nat)
    requires x < w && r < w
    ensures Mod(x + r, w) == (if x + r < w then x + r else x + r - w) && Mod(x, w) == x
  {
    hide Mod;
    SmallMod(w, x);
    SmallMod(w, if x + r < w then x + r else x + r - w);
  }

  lemma ModAdds(x: nat, y: nat, w: nat)
    requires w > 0
    ensures Mod(x + y, w) == Mod(x + Mod(y, w), w) && Mod(y, w) < w
  {
    Rounds(y, w);
    Rounds(x + y % w, w);
    var (q, b) := ((x + y % w) / w, (x + y % w) % w);
    assert x + y == (y / w + q) * w + b by {
      Distribute(w, y / w, q);
      assert (y / w + q) * w == y / w * w + q * w;
    }
    DivMod(y / w + q, w, b);
  }

  /** What `SameEdges` says of one position. */
  lemma EdgeTurns(w: nat, first: nat, agg: nat, m: nat, x: nat)
    requires 0 < first < w && x < w
    requires InFirst(w, first, x + agg) - InFirst(w, first, x) == InFirst(w, first, x + m + agg) - InFirst(w, first, x + m)
    ensures var r := Mod(m, w);
            var y := if x + r < w then x + r else x + r - w;
            Enters(w, first, Mod(agg, w), x) <==> y >= 0 && Enters(w, first, Mod(agg, w), y)
  {
    hide Mod;
    var r := Mod(m, w);
    ModAdds(x, agg, w);
    ModAdds(x, m, w);
    Turn(w, x, r);
    var y := Mod(x + m, w);
    ModAdds(agg, x + m, w);
    assert agg + (x + m) == x + m + agg && agg + y == y + agg;
    ModAdds(y, agg, w);
  }

  /** If a request of more than one window is exact wherever it starts, the stripe window divides the transfer window or
      the second window, or one server holds everything. */
  lemma OnlyThen(l: seq<nat>, total: nat)
    requires Size(l) > 0 && total > MAX_WINDOW_SIZE && forall origin: nat :: Exact(l, origin, total)
    ensures MAX_WINDOW_SIZE % Size(l) == 0 || Aggregate(total, 1) % Size(l) == 0 || OneServer(l)
  {
    var (w, agg) := (Size(l), Aggregate(total, 1));
    var (r, step) := (MAX_WINDOW_SIZE % w, agg % w);
    if r != 0 && step != 0 && !OneServer(l) {
      hide Size, Exact, OneServer, InFirst, Aggregate, Part;
      var a := FirstServer(l);
      var (lo, hi) := (Low(w, l[a], step), High(w, l[a], step));
      NoTurn(w, lo, hi, r);
      var x: nat :| Turned(w, lo, hi, r, x);
      var y := if x + r < w then x + r else x + r - w;
      SameEdges(l, a, total, x);
      EdgeTurns(w, l[a], agg, MAX_WINDOW_SIZE, x);
      EntersIs(w, l[a], step, x);
      EntersIs(w, l[a], step, y);
      assert false;
    }
  }

  /** A second window of whole stripe windows is right wherever the request starts. */
  lemma WholeSecondIsExact(l: seq<nat>, origin: nat, total: nat)
    requires Size(l) > 0 && MAX_WINDOW_SIZE < total <= 2 * MAX_WINDOW_SIZE && (total - MAX_WINDOW_SIZE) % Size(l) == 0
    ensures Exact(l, origin, total)
  {
    hide Part, Size;
    var m := (total - MAX_WINDOW_SIZE) / Size(l);
    Rounds(total - MAX_WINDOW_SIZE, Size(l));
    FirstWindowOk(l, origin, total);
    forall i | 0 <= i < |l|
      ensures WindowStart(l, i, origin, 1) == Part(l, i, origin + 1 * MAX_WINDOW_SIZE)
      ensures WindowShare(l, i, origin, total, 1) == Share(l, i, origin + 1 * MAX_WINDOW_SIZE, Aggregate(total, 1))
    {
      WholeRounds(l, i, origin, m);
      WholeRounds(l, i, origin + MAX_WINDOW_SIZE, m);
    }
    assert WindowOk(l, origin, total, 1);
  }

  /** A request of `total` bytes is striped exactly wherever it starts precisely when one window suffices, or the stripe
      window divides the transfer window, or one server holds everything, or there are two windows and the stripe window
      divides the second. */
  lemma ExactForSize(l: seq<nat>, total: nat)
    requires Size(l) > 0
    ensures (forall origin: nat :: Exact(l, origin, total)) <==>
              (|| total <= MAX_WINDOW_SIZE || MAX_WINDOW_SIZE % Size(l) == 0 || OneServer(l)
               || (total <= 2 * MAX_WINDOW_SIZE && (total - MAX_WINDOW_SIZE) % Size(l) == 0))
  {
    hide Size, OneServer, WindowOk;
    if forall origin: nat :: Exact(l, origin, total) {
      if total > MAX_WINDOW_SIZE {
        OnlyThen(l, total);
      }
    }
    forall origin: nat
      ensures total <= MAX_WINDOW_SIZE ==> Exact(l, origin, total)
      ensures MAX_WINDOW_SIZE % Size(l) == 0 || OneServer(l) ==> Exact(l, origin, total)
      ensures MAX_WINDOW_SIZE < total <= 2 * MAX_WINDOW_SIZE && (total - MAX_WINDOW_SIZE) % Size(l) == 0 ==> Exact(l, origin, total)
    {
      FirstWindowOk(l, origin, total);
      if MAX_WINDOW_SIZE % Size(l) == 0 {
        DividingIsExact(l, origin, total);
      } else if OneServer(l) {
        OneServerIsExact(l, origin, total);
      } else if MAX_WINDOW_SIZE < total <= 2 * MAX_WINDOW_SIZE && (total - MAX_WINDOW_SIZE) % Size(l) == 0 {
        WholeSecondIsExact(l, origin, total);
      }
    }
  }
}
