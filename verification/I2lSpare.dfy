/** When the two-level scheduler thinks the server has bandwidth to spare, and how it holds requests back when not. */
module I2lSpare {
  import opened Basics
  import opened Options
  import opened JobQueues
  import opened I2lModel

  /** As many requests are outstanding as the lower level allows, or more. */
  ghost predicate Full(s: State) {
    |s.os| as real >= s.limit
  }

  ghost predicate Late(c: Config, s: State, now: real) {
    Overdue(c.delay, s.edf, now) != {}
  }

  /** The tokens were replenished, `passed` went through, and the server counts as spare. */
  ghost predicate Refilled(c: Config, s: State, s': State, r: Option<Packet>, passed: seq<Packet>) {
    && s'.spare && s'.idle && s'.limit == s.limit
    && |s'.tokens| == |c.max|
    && (forall a :: 0 <= a < |c.max| ==> s'.tokens[a] == c.max[a] - |Of(passed, a)| as real)
    && (r == None <==> passed == [])
    && s'.os == s.os + Seq(r)
  }

  /** The answer to a request for the next packet.  The first of the deadline queue is sent if a deadline has passed or
      the server has room.  A full server with nothing late is not spare.  If nothing waits, a server that was not spare
      becomes so with less than nine tenths of the limit outstanding, and then the tokens are replenished. */
  ghost predicate Answered(c: Config, s: State, now: real, s': State, r: Option<Packet>, passed: seq<Packet>) {
    if s.edf != [] && (Late(c, s, now) || !Full(s)) then
      r == Some(s.edf[0]) && passed == [] && s' == s.(edf := s.edf[1..], os := s.os + [s.edf[0]])
    else if Full(s) then
      r == None && passed == [] && s' == s.(spare := false, idle := false)
    else if !s.idle && |s.os| as real >= s.limit * 0.9 then
      r == None && passed == [] && s' == s.(spare := false)
    else if s.spare then
      r == None && passed == [] && s' == s.(idle := true)
    else
      Refilled(c, s, s', r, passed)
  }

  lemma NothingLate(c: Config, s: State, now: real)
    ensures DueBefore(c.delay, s.edf, now) != 0 <==> Late(c, s, now)
    ensures s.edf == [] ==> !Late(c, s, now)
  {
    CountsOverdue(c.delay, s.edf, now);
    if s.edf == [] {
      assert Overdue(c.delay, s.edf, now) == {};
    }
  }

  lemma DrainedAnswers(c: Config, s: State, now: real)
    requires Inv(c, s) && s.edf == [] && !Full(s) && (s.idle || |s.os| as real < s.limit * 0.9) && !s.spare
    ensures var (s', r, passed) := Ask(c, s, now); Refilled(c, s, s', r, passed)
  {
    hide DueBefore, ByDeadline, Of, Drain;
    NothingPassed();
    var s1 := s.(idle := true);
    DrainKeeps(c, Replenished(c, s1));
    var (s2, passed) := Drain(c, Replenished(c, s1));
    assert multiset(s2.edf) == multiset(passed);
    assert s2.edf == [] <==> multiset(s2.edf) == multiset{};
    assert passed == [] <==> multiset(passed) == multiset{};
  }

  /** Asking for the next packet answers so. */
  lemma AskIsAnswered(c: Config, s: State, now: real)
    requires Inv(c, s)
    ensures var (s', r, passed) := Ask(c, s, now); Answered(c, s, now, s', r, passed)
  {
    NothingLate(c, s, now);
    hide DueBefore, Overdue, ByDeadline, Drain, Refilled, Late;
    if s.edf == [] && !Full(s) && (s.idle || |s.os| as real < s.limit * 0.9) && !s.spare {
      DrainedAnswers(c, s, now);
    }
  }

  /** After a call that sends nothing, the upper level sees the spareness that the lower level does; and if the server
      was full, that is none. */
  lemma NothingSent(c: Config, s: State, now: real)
    requires Inv(c, s) && Ask(c, s, now).1 == None
    ensures var s' := Ask(c, s, now).0;
            s'.spare == s'.idle && (Full(s') && !Late(c, s', now) ==> !s'.spare)
  {
    AskIsAnswered(c, s, now);
    hide Ask, Late;
    var (s', r, passed) := Ask(c, s, now);
    if Refilled(c, s, s', r, passed) {
      assert s'.os == s.os + [];
      assert s'.os == s.os;
    }
  }

  // ---------------------------------------------------------------- held back

  /** Neither level thinks that the server has bandwidth to spare. */
  ghost predicate Busy(s: State) {
    !s.spare && !s.idle
  }

  /** The timer replenishes the tokens, and so does a call that finds the server less than nine tenths full. */
  ghost predicate Relieves(s: State, e: Event) {
    e.Timer? || (e.Asked? && |s.os| as real < s.limit * 0.9)
  }

  /** Nothing passes but an arrival with a token, and no tokens are added; an arrival without a token just waits. */
  ghost predicate HeldBack(s: State, e: Event, f: Effect) {
    && |f.state.tokens| == |s.tokens| == |f.state.buckets| == |s.buckets|
    && (!e.Arrival? ==> f.passed == [] && f.state.tokens == s.tokens && f.state.buckets == s.buckets)
    && (e.Arrival? && e.p.app < |s.tokens| ==>
          var a := e.p.app;
          if s.tokens[a] > 0.0 then
            f.passed == [e.p] && f.state.buckets == s.buckets && f.state.tokens == s.tokens[a := s.tokens[a] - 1.0]
          else
            && f.passed == [] && f.state.tokens == s.tokens && f.state.edf == s.edf
            && f.state.buckets == s.buckets[a := s.buckets[a] + [e.p]])
  }

  lemma StepHeldBack(c: Config, s: State, e: Event)
    requires Inv(c, s) && Legal(c, s, e) && Busy(s) && !Relieves(s, e)
    ensures Busy(Step(c, s, e).state) && HeldBack(s, e, Step(c, s, e))
  {
    hide ByDeadline, DueBefore, InsertByDeadline, Drain, Ask, Find;
    if e.Asked? {
      AskIsAnswered(c, s, e.now);
      hide Refilled, Late;
    }
  }

  /** The server is busy, and nothing in the run relieves it. */
  ghost predicate Unrelieved(c: Config, s: State, events: seq<Event>)
    requires LegalRun(c, s, events)
    decreases |events|
  {
    events != [] ==> !Relieves(s, events[0]) && Unrelieved(c, Step(c, s, events[0]).state, events[1..])
  }

  /** Once the server is busy it stays so, and no application gets more requests through than it has tokens left,
      rounded up, until the timer fires or a call finds the server less than nine tenths full. */
  lemma {:induction false} BusyHoldsBack(c: Config, s: State, events: seq<Event>, a: nat)
    requires Inv(c, s) && Busy(s) && LegalRun(c, s, events) && Unrelieved(c, s, events) && a < |c.max| == |s.tokens|
    ensures var (s', n) := (Run(c, s, events), |Of(Passed(c, s, events), a)|);
            && Busy(s') && |s'.tokens| == |c.max| && s'.tokens[a] == s.tokens[a] - n as real
            && (n > 0 ==> n as real < s.tokens[a] + 1.0)
    decreases |events|
  {
    NothingPassed();
    if events != [] {
      hide Step, Of, Inv, Legal;
      var (e, f) := (events[0], Step(c, s, events[0]));
      LegalArrival(c, s, e);
      StepHeldBack(c, s, e);
      StepTokens(c, s, e);
      BusyHoldsBack(c, f.state, events[1..], a);
      OfAppend(f.passed, Passed(c, f.state, events[1..]), a);
      if e.Arrival? {
        OfOne(e.p);
      }
    }
  }

  lemma LegalArrival(c: Config, s: State, e: Event)
    requires Legal(c, s, e)
    ensures e.Arrival? ==> e.p.app < |c.max|
  {
  }

  // ---------------------------------------------------------------- missed deadlines

  ghost predicate FindsRoom(s: State, e: Event) {
    e.Asked? && |s.os| as real < s.limit * 0.9
  }

  ghost predicate NoRoomFound(c: Config, s: State, events: seq<Event>)
    requires LegalRun(c, s, events)
    decreases |events|
  {
    events != [] ==> !FindsRoom(s, events[0]) && NoRoomFound(c, Step(c, s, events[0]).state, events[1..])
  }

  lemma StepNotIdle(c: Config, s: State, e: Event)
    requires Inv(c, s) && Legal(c, s, e) && !s.idle && !FindsRoom(s, e)
    ensures !Step(c, s, e).state.idle
  {
    hide ByDeadline, DueBefore, InsertByDeadline, Drain, Ask, Find, Inv;
    match e
    case Arrival(p) =>
      if s.spare && s.tokens[p.app] <= 0.0 {
        var queued := s.(buckets := s.buckets[p.app := s.buckets[p.app] + [p]]);
        DrainKeepsIdle(c, Replenished(c, queued));
      }
    case Asked(now) =>
      AskIsAnswered(c, s, now);
      hide Late, Refilled;
    case Timer => DrainKeepsIdle(c, Replenished(c, s));
    case WindowEnd(_, _) =>
    case Complete(_) =>
  }

  lemma {:induction false} DrainKeepsIdle(c: Config, s: State)
    requires Shaped(c, s)
    ensures Drain(c, s).0.idle == s.idle
    decreases Queued(s.buckets)
  {
    var a := Ready(s, 0);
    if a != |s.buckets| {
      QueuedLess(s.buckets, a);
      DrainKeepsIdle(c, Pass(c, s, a));
    }
  }

  lemma {:induction false} RunNotIdle(c: Config, s: State, events: seq<Event>)
    requires Inv(c, s) && LegalRun(c, s, events) && !s.idle && NoRoomFound(c, s, events)
    ensures !Run(c, s, events).idle && Inv(c, Run(c, s, events))
    decreases |events|
  {
    hide Step, Inv, StepOk, Legal, FindsRoom;
    if events != [] {
      StepNotIdle(c, s, events[0]);
      StepTokens(c, s, events[0]);
      RunNotIdle(c, Step(c, s, events[0]).state, events[1..]);
    }
  }

  /** After a window in which a deadline was missed, under whatever limit, the server is not seen as spare: until a call
      finds it less than nine tenths full, each call that sends nothing leaves both levels busy. */
  lemma MissedWindowHolds(c: Config, s: State, limit: real, events: seq<Event>, now: real)
    requires Inv(c, s) && Shaped(c, s)
    requires var t := Step(c, s, WindowEnd(limit, true)).state; LegalRun(c, t, events) && NoRoomFound(c, t, events)
    ensures var t := Step(c, s, WindowEnd(limit, true)).state;
            && t.limit == limit && Shaped(c, Run(c, t, events))
            && (!FindsRoom(Run(c, t, events), Asked(now)) && Ask(c, Run(c, t, events), now).1 == None ==>
                  Busy(Ask(c, Run(c, t, events), now).0))
  {
    hide Inv, Ask, Late, StepOk, Run;
    var t := Step(c, s, WindowEnd(limit, true)).state;
    StepTokens(c, s, WindowEnd(limit, true));
    RunNotIdle(c, t, events);
    InvIsShaped(c, Run(c, t, events));
    AskIsAnswered(c, Run(c, t, events), now);
  }
}
