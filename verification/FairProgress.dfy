/** No starvation under SFQ: how many dispatches a waiting job can see before its own. */
module FairProgress {
  import opened Options
  import opened FairQueue
  import opened FairShare

  /** Every arriving job has at least `m` bytes. */
  ghost predicate AtLeast(m: nat, es: seq<Event>) {
    forall i :: 0 <= i < |es| && es[i].Arrive? ==> es[i].pkt.size >= m
  }

  ghost predicate Chunky(m: nat, s: State) {
    forall a, i :: 0 <= a < |s.waitQ| && 0 <= i < |s.waitQ[a]| ==> s.waitQ[a][i].pkt.size >= m
  }

  lemma StepChunky(c: Config, m: nat, s: State, e: Event)
    requires Shaped(c, s) && Chunky(m, s) && Legal(c, e) && !e.ShiftBack? && !e.ShiftFront?
    requires e.Arrive? ==> e.pkt.size >= m
    ensures Chunky(m, Step(c, s, e))
  {
  }

  lemma {:induction false} RunChunky(c: Config, cap: seq<nat>, m: nat, s: State, es: seq<Event>)
    requires Shaped(c, s) && Chunky(m, s) && PlainRun(c, cap, es) && AtLeast(m, es)
    ensures Chunky(m, Run(c, s, es))
    decreases |es|
  {
    if es != [] {
      assert Plain(c, cap, es[0]);
      StepChunky(c, m, s, es[0]);
      RunChunky(c, cap, m, Step(c, s, es[0]), es[1..]);
    }
  }

  /** How many jobs of at least `m` bytes an application of weight `w` fits between two tags. */
  function Fits(from: real, to: real, w: real, m: nat): (k: nat)
    requires w > 0.0 && m > 0
    ensures from <= to ==> k >= 1
  {
    if from > to then 0 else
      assert (to - from) * w / m as real >= 0.0;
      ((to - from) * w / m as real).Floor + 1
  }

  lemma FitsShrinks(from: real, later: real, to: real, w: real, m: nat)
    requires w > 0.0 && m > 0 && from <= later
    ensures Fits(later, to, w, m) <= Fits(from, to, w, m)
  {
    if later <= to {
      assert (to - later) * w <= (to - from) * w;
      assert (to - later) * w / m as real <= (to - from) * w / m as real;
    }
  }

  lemma DivideLess(x: real, d: real)
    requires d > 0.0
    ensures (x - d) / d == x / d - 1.0
  {
    assert (x - d) / d == x / d - d / d;
  }

  lemma DivideGrows(x: real, y: real, d: real)
    requires d > 0.0 && x <= y
    ensures x / d <= y / d
  {
  }

  lemma RoomLeft(from: real, size: nat, to: real, w: real)
    requires w > 0.0
    ensures (to - (from + Share(size, w))) * w == (to - from) * w - size as real
  {
    assert Share(size, w) * w == size as real;
    assert (to - (from + Share(size, w))) * w == (to - from) * w - Share(size, w) * w;
  }

  /** Serving one job uses up one place. */
  lemma FitsServed(from: real, size: nat, to: real, w: real, m: nat)
    requires w > 0.0 && 0 < m <= size && from <= to
    ensures Fits(from + Share(size, w), to, w, m) <= Fits(from, to, w, m) - 1
  {
    RoomLeft(from, size, to, w);
    OneLess((to - from) * w, (to - (from + Share(size, w))) * w, m as real);
  }

  lemma OneLess(x: real, y: real, d: real)
    requires d > 0.0 && y <= x - d
    ensures (y / d).Floor + 1 <= (x / d).Floor
  {
    DivideGrows(y, x - d, d);
    DivideLess(x, d);
  }

  // ---------------------------------------------------------------- the jobs that may go first

  /** The earliest tag the next job of an application can start at. */
  function NextTag(s: State, a: nat): real
    requires a < |s.waitQ| == |s.maxftags|
  {
    if s.waitQ[a] == [] then Max(s.maxftags[a], s.vtime) else s.waitQ[a][0].stag
  }

  /** Jobs of applications below `k`, other than `f`, that can start no later than tag `to`,
      given where each application's next job starts. */
  function Ahead(c: Config, from: seq<real>, f: nat, to: real, m: nat, k: nat): nat
    requires c.Valid() && |from| == |c.weight| && k <= |from| && m > 0
  {
    if k == 0 then 0
    else Ahead(c, from, f, to, m, k - 1) + if k - 1 == f then 0 else Fits(from[k - 1], to, c.weight[k - 1], m)
  }

  function NextTags(s: State): (tags: seq<real>)
    requires |s.waitQ| == |s.maxftags|
    ensures |tags| == |s.waitQ| && forall a :: 0 <= a < |tags| ==> tags[a] == NextTag(s, a)
  {
    seq(|s.waitQ|, a requires 0 <= a < |s.waitQ| => NextTag(s, a))
  }

  lemma {:induction false} AheadShrinks(c: Config, from: seq<real>, later: seq<real>, f: nat, to: real, m: nat, k: nat)
    requires c.Valid() && |from| == |later| == |c.weight| && k <= |from| && m > 0
    requires forall g :: 0 <= g < |from| && g != f ==> from[g] <= later[g]
    ensures Ahead(c, later, f, to, m, k) <= Ahead(c, from, f, to, m, k)
  {
    if k > 0 {
      AheadShrinks(c, from, later, f, to, m, k - 1);
      if k - 1 != f {
        FitsShrinks(from[k - 1], later[k - 1], to, c.weight[k - 1], m);
      }
    }
  }

  /** If the next job of `g` moves on by one job, one job fewer can go first. */
  lemma {:induction false} AheadServed(c: Config, from: seq<real>, later: seq<real>, f: nat, to: real, m: nat, k: nat,
                                       g: nat, size: nat)
    requires c.Valid() && |from| == |later| == |c.weight| && k <= |from| && 0 < m <= size
    requires forall h :: 0 <= h < |from| && h != f ==> from[h] <= later[h]
    requires g < k && g != f && from[g] <= to && from[g] + Share(size, c.weight[g]) <= later[g]
    ensures Ahead(c, later, f, to, m, k) <= Ahead(c, from, f, to, m, k) - 1
  {
    if k - 1 == g {
      AheadShrinks(c, from, later, f, to, m, k - 1);
      FitsServed(from[g], size, to, c.weight[g], m);
      FitsShrinks(from[g] + Share(size, c.weight[g]), later[g], to, c.weight[g], m);
    } else {
      AheadServed(c, from, later, f, to, m, k - 1, g, size);
      if k - 1 != f {
        FitsShrinks(from[k - 1], later[k - 1], to, c.weight[k - 1], m);
      }
    }
  }

  // ---------------------------------------------------------------- counting dispatches

  /** Dispatches over a run. */
  function Dispatches(c: Config, s: State, es: seq<Event>): nat
    requires Shaped(c, s) && LegalRun(c, es)
    decreases |es|
  {
    if es == [] then 0
    else (if Sent(c, s, es[0]).Some? then 1 else 0) + Dispatches(c, Step(c, s, es[0]), es[1..])
  }

  ghost predicate ServesIn(c: Config, s: State, e: Event, f: nat)
    requires Shaped(c, s)
  {
    e.Issue? && Dispatched(c, s) == Some(f)
  }

  /** Some dispatch of the run serves application `f`. */
  ghost predicate Serves(c: Config, s: State, es: seq<Event>, f: nat)
    requires Shaped(c, s) && LegalRun(c, es)
    decreases |es|
  {
    es != [] && (ServesIn(c, s, es[0], f) || Serves(c, Step(c, s, es[0]), es[1..], f))
  }

  /** The tags at which next jobs start never go back; a served application's goes up by its job. */
  lemma StepMovesTags(c: Config, cap: seq<nat>, s: State, e: Event, f: nat)
    requires Inv(c, cap, s) && Legal(c, e) && Plain(c, cap, e)
    requires f < |c.weight| && s.waitQ[f] != [] && !ServesIn(c, s, e, f)
    ensures var t := Step(c, s, e);
            && t.waitQ[f] != [] && t.waitQ[f][0] == s.waitQ[f][0]
            && (forall g :: 0 <= g < |c.weight| ==> NextTag(s, g) <= NextTag(t, g))
            && (Sent(c, s, e).Some? ==>
                  var g := Dispatched(c, s).value;
                  && g != f && NextTag(s, g) <= s.waitQ[f][0].stag
                  && NextTag(s, g) + Share(s.waitQ[g][0].pkt.size, c.weight[g]) <= NextTag(t, g))
  {
    StepInv(c, cap, s, e);
    ChoiceIsLowestTag(s);
    if Sent(c, s, e).Some? {
      var g := Dispatched(c, s).value;
      assert Sized(c, cap, g, s.waitQ[g][0]);
    }
  }

  lemma {:induction false} RunCounts(c: Config, cap: seq<nat>, m: nat, s: State, es: seq<Event>, f: nat)
    requires Inv(c, cap, s) && PlainRun(c, cap, es) && 0 < m && Chunky(m, s) && AtLeast(m, es)
    requires f < |c.weight| && s.waitQ[f] != [] && !Serves(c, s, es, f)
    ensures Dispatches(c, s, es) <= Ahead(c, NextTags(s), f, s.waitQ[f][0].stag, m, |c.weight|)
    decreases |es|
  {
    if es != [] {
      assert Plain(c, cap, es[0]);
      var t := Step(c, s, es[0]);
      var to := s.waitQ[f][0].stag;
      StepInv(c, cap, s, es[0]);
      StepChunky(c, m, s, es[0]);
      StepMovesTags(c, cap, s, es[0], f);
      RunCounts(c, cap, m, t, es[1..], f);
      if Sent(c, s, es[0]).Some? {
        var g := Dispatched(c, s).value;
        AheadServed(c, NextTags(s), NextTags(t), f, to, m, |c.weight|, g, s.waitQ[g][0].pkt.size);
      } else {
        AheadShrinks(c, NextTags(s), NextTags(t), f, to, m, |c.weight|);
      }
    }
  }

  /** What a caller can read off the scheduler: for every other application, the jobs of at least `m`
      bytes that fit between virtual time and the waiting job's start tag. */
  function WaitBound(c: Config, s: State, f: nat, m: nat): nat
    requires Shaped(c, s) && f < |c.weight| && s.waitQ[f] != [] && m > 0
  {
    Ahead(c, seq(|c.weight|, _ => s.vtime), f, s.waitQ[f][0].stag, m, |c.weight|)
  }

  /** No starvation: in any reachable state with a job of `f` in front of its queue, a continuation
      that does not serve `f` dispatches at most `WaitBound` jobs, whatever arrives meanwhile. */
  lemma NoStarvation(c: Config, cap: seq<nat>, m: nat, before: seq<Event>, es: seq<Event>, f: nat)
    requires c.Valid() && |cap| == |c.weight| && f < |cap| && m > 0
    requires PlainRun(c, cap, before) && PlainRun(c, cap, es) && AtLeast(m, before) && AtLeast(m, es)
    requires Run(c, Init(c), before).waitQ[f] != []
    requires !Serves(c, Run(c, Init(c), before), es, f)
    ensures var s := Run(c, Init(c), before); Dispatches(c, s, es) <= WaitBound(c, s, f, m)
  {
    var s := Run(c, Init(c), before);
    InitInv(c, cap);
    RunInv(c, cap, Init(c), before);
    RunChunky(c, cap, m, Init(c), before);
    RunCounts(c, cap, m, s, es, f);
    forall a | 0 <= a < |c.weight|
      ensures s.vtime <= NextTag(s, a)
    {
      assert InWindow(c, cap, s, a);
    }
    AheadShrinks(c, seq(|c.weight|, _ => s.vtime), NextTags(s), f, s.waitQ[f][0].stag, m, |c.weight|);
  }

  // ---------------------------------------------------------------- equal tags

  /** How many applications come between `a` and the next turn of `b`, going round. */
  function Between(n: nat, a: nat, b: nat): (k: nat)
    requires a < n && b < n
    ensures k < n && (k == n - 1 <==> a == b)
  {
    if b > a then b - a - 1 else b + n - a - 1
  }

  lemma {:induction false} NothingIssued(c: Config, s: State, es: seq<Event>)
    requires Shaped(c, s) && LegalRun(c, es) && forall i :: 0 <= i < |es| ==> !es[i].Issue?
    ensures Run(c, s, es).startpos == s.startpos
    decreases |es|
  {
    if es != [] {
      NothingIssued(c, Step(c, s, es[0]), es[1..]);
    }
  }

  /** Applications with equal tags take turns: between two dispatches, whatever arrives, completes or is charged, the second
      goes to the one that comes soonest after the first, going round, of those with the lowest tag.  So none is served
      twice in a row while another has the same tag. */
  lemma TiesTakeTurns(c: Config, s: State, es: seq<Event>)
    requires Shaped(c, s) && Dispatched(c, s).Some? && LegalRun(c, es) && forall i :: 0 <= i < |es| ==> !es[i].Issue?
    requires Dispatched(c, Run(c, Dispatch(c, s), es)).Some?
    ensures var t := Run(c, Dispatch(c, s), es);
            var (n, a, b) := (|c.weight|, Dispatched(c, s).value, Dispatched(c, t).value);
            && (forall x :: 0 <= x < n && t.waitQ[x] != [] && t.waitQ[x][0].stag == t.waitQ[b][0].stag ==>
                  Between(n, a, b) <= Between(n, a, x))
            && (a == b ==> forall x :: 0 <= x < n && x != a && t.waitQ[x] != [] ==>
                             t.waitQ[x][0].stag > t.waitQ[a][0].stag)
  {
    var s1 := Dispatch(c, s);
    assert s1 == Step(c, s, Issue);
    NothingIssued(c, s1, es);
    hide Run, Choice;
    var t := Run(c, s1, es);
    ChoiceIsLowestTag(t);
  }
}
