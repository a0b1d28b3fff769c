/** The data server's queue of file requests: a read is served piece by piece, a write packet as it comes. */
module ReadChain {
  import opened Basics
  import opened Options
  import opened Fragments
  import opened RequestIds

  /** What is kept of a request: the upper bound of a read, or whether a write packet is the last of its write. */
  datatype Info = Info(loff: int, lub: int, last: bool)

  /** `reqs` are the original requests taken up, `waiting` and `serving` the file requests made of them. */
  datatype State = State(reqs: seq<GPacket>, waiting: seq<GPacket>, serving: seq<GPacket>, infos: map<int, Info>)

  datatype Config = Config(degree: int, subreqSize: int)

  /** The ID of the request a file request belongs to. */
  function Original(p: GPacket): nat {
    if p.read then p.id / RID_OFFSET * RID_OFFSET else p.id
  }

  /** The piece of a read that starts at `loff`; the last piece goes by the ID of the request itself. */
  function Piece(c: Config, id: nat, next: nat, loff: int, lub: int): GPacket {
    if lub <= loff + c.subreqSize then GPacket(id, FileReq, true, loff, lub - loff)
    else GPacket(next, FileReq, true, loff, c.subreqSize)
  }

  /** A request arrives. */
  function NewReq(c: Config, s: State, g: GPacket): State {
    var infos := s.infos[g.id := Info(g.loff, g.loff + g.size, g.kind == WriteDataLast)];
    var first := if g.read then Piece(c, g.id, g.id + 1, g.loff, g.loff + g.size) else g;
    State(s.reqs + [g], s.waiting + [first], s.serving, infos)
  }

  /** One file request is served at a time, first come first served. */
  function Dispatch(s: State): (r: (State, Option<GPacket>)) {
    if s.waiting == [] || |s.serving| >= 1 then (s, None)
    else (s.(waiting := s.waiting[1..], serving := s.serving + [s.waiting[0]]), Some(s.waiting[0]))
  }

  /** The position of the first packet with an ID, or the length. */
  function Find(q: seq<GPacket>, id: int): (k: nat)
    ensures k <= |q| && (k < |q| ==> q[k].id == id) && forall i :: 0 <= i < k ==> q[i].id != id
  {
    if q == [] || q[0].id == id then 0 else 1 + Find(q[1..], id)
  }

  function Without(q: seq<GPacket>, k: nat): seq<GPacket>
    requires k < |q|
  {
    q[..k] + q[k + 1..]
  }

  /** The ID of the piece after one with ID `id`: the numbers of the request's block are used in turn. */
  function NextNumber(original: nat, id: nat): nat {
    if (id + 1) % RID_OFFSET == 0 then original + 1 else id + 1
  }

  /** A file request `p` has been served: the reply to send back, if any. */
  function Finish(c: Config, s: State, p: GPacket): (r: (State, Option<GPacket>))
    requires Original(p) in s.infos && Find(s.reqs, Original(p)) < |s.reqs| && Find(s.serving, p.id) < |s.serving|
  {
    var id := Original(p);
    var info := s.infos[id];
    var serving := Without(s.serving, Find(s.serving, p.id));
    var done := s.(serving := serving, reqs := Without(s.reqs, Find(s.reqs, id)), infos := s.infos - {id});
    if !p.read then
      (done, if info.last then Some(p.(kind := WriteFin)) else None)
    else if info.lub <= p.loff + p.size then
      (done, Some(p.(kind := ReadDataLast)))
    else
      var next := Piece(c, id, NextNumber(id, p.id), p.loff + p.size, info.lub);
      (s.(serving := serving, waiting := s.waiting + [next]), Some(p.(kind := ReadData)))
  }

  // ---------------------------------------------------------------- what every step keeps

  function Live(s: State): seq<GPacket> {
    s.serving + s.waiting
  }

  /** A file request is a piece of its read that is still to come, or a write packet. */
  ghost predicate PieceOk(c: Config, infos: map<int, Info>, p: GPacket) {
    && Original(p) in infos
    && (p.read ==>
          var info := infos[Original(p)];
          && info.loff <= p.loff < info.lub && p.size == Min(c.subreqSize, info.lub - p.loff))
    && (!p.read ==> (infos[Original(p)].last <==> p.kind == WriteDataLast))
  }

  /** Each request that is known has exactly one file request. */
  ghost predicate LiveOk(c: Config, live: seq<GPacket>, infos: map<int, Info>) {
    && (forall i :: 0 <= i < |live| ==> PieceOk(c, infos, live[i]))
    && (forall i, j :: 0 <= i < j < |live| ==> Original(live[i]) != Original(live[j]))
    && (forall id :: id in infos ==> HasPiece(live, id))
  }

  ghost predicate HasPiece(live: seq<GPacket>, id: int) {
    exists i :: 0 <= i < |live| && Original(live[i]) == id
  }

  /** The requests taken up are those that are known, each once. */
  ghost predicate ReqsOk(reqs: seq<GPacket>, infos: map<int, Info>) {
    && (forall i :: 0 <= i < |reqs| ==> reqs[i].id in infos)
    && (forall i, j :: 0 <= i < j < |reqs| ==> reqs[i].id != reqs[j].id)
    && (forall id :: id in infos ==> Find(reqs, id) < |reqs|)
  }

  ghost predicate Inv(c: Config, s: State) {
    c.subreqSize > 0 && |s.serving| <= 1 && LiveOk(c, Live(s), s.infos) && ReqsOk(s.reqs, s.infos)
  }

  /** What callers owe: room for the request, an ID of its own, and for a read an ID that starts a block and some
      bytes to read. */
  ghost predicate MayArrive(c: Config, s: State, g: GPacket) {
    && (c.degree < 0 || |s.reqs| < c.degree)
    && g.id !in s.infos
    && (g.read ==> g.id % RID_OFFSET == 0 && g.size > 0)
  }

  /** The pieces of a read are numbered within its block. */
  lemma NumbersOfBlock(id: nat, x: nat)
    requires id % RID_OFFSET == 0 && x / RID_OFFSET * RID_OFFSET == id
    ensures var n := NextNumber(id, x); n / RID_OFFSET * RID_OFFSET == id
    ensures id / RID_OFFSET * RID_OFFSET == id && (id + 1) / RID_OFFSET * RID_OFFSET == id
  {
  }

  lemma PieceIsOk(c: Config, id: nat, next: nat, loff: int, lub: int)
    requires c.subreqSize > 0 && id % RID_OFFSET == 0 && next / RID_OFFSET * RID_OFFSET == id && loff < lub
    ensures var p := Piece(c, id, next, loff, lub);
            && Original(p) == id && p.read && p.loff == loff && p.size == Min(c.subreqSize, lub - loff) > 0
  {
    NumbersOfBlock(id, next);
  }

  lemma FindAppend(q: seq<GPacket>, g: GPacket, id: int)
    ensures Find(q + [g], id) == if Find(q, id) < |q| then Find(q, id) else if g.id == id then |q| else |q| + 1
  {
    FindIs(q + [g], id, if Find(q, id) < |q| then Find(q, id) else if g.id == id then |q| else |q| + 1);
  }

  lemma FindIs(q: seq<GPacket>, id: int, k: nat)
    requires k <= |q| && (k < |q| ==> q[k].id == id) && forall i :: 0 <= i < k ==> q[i].id != id
    ensures Find(q, id) == k
  {
    var f := Find(q, id);
    assert f < |q| && k < |q| ==> q[f].id == id && q[k].id == id;
  }

  lemma FirstIsOk(c: Config, g: GPacket)
    requires c.subreqSize > 0 && (g.read ==> g.id % RID_OFFSET == 0 && g.size > 0)
    ensures var first := if g.read then Piece(c, g.id, g.id + 1, g.loff, g.loff + g.size) else g;
            && Original(first) == g.id && first.read == g.read
            && (g.read ==> first.loff == g.loff && first.size == Min(c.subreqSize, g.size))
  {
    if g.read {
      NumbersOfBlock(g.id, g.id);
      PieceIsOk(c, g.id, g.id + 1, g.loff, g.loff + g.size);
    }
  }

  lemma LiveAdd(c: Config, live: seq<GPacket>, infos: map<int, Info>, p: GPacket, info: Info)
    requires LiveOk(c, live, infos) && Original(p) !in infos && PieceOk(c, infos[Original(p) := info], p)
    ensures LiveOk(c, live + [p], infos[Original(p) := info])
  {
    hide Original, Min;
    var (live', infos') := (live + [p], infos[Original(p) := info]);
    forall i | 0 <= i < |live|
      ensures live'[i] == live[i] && PieceOk(c, infos, live[i]) && PieceOk(c, infos', live'[i])
    {
    }
    forall id | id in infos'
      ensures HasPiece(live', id)
    {
      if id in infos {
        var i :| 0 <= i < |live| && Original(live[i]) == id;
        assert Original(live'[i]) == id;
      } else {
        assert Original(live'[|live|]) == id;
      }
    }
  }

  lemma LiveRemoveFirst(c: Config, live: seq<GPacket>, infos: map<int, Info>)
    requires LiveOk(c, live, infos) && live != []
    ensures LiveOk(c, live[1..], infos - {Original(live[0])})
  {
    hide Original, Min;
    var (rest, infos') := (live[1..], infos - {Original(live[0])});
    forall i | 0 <= i < |rest|
      ensures rest[i] == live[i + 1] && PieceOk(c, infos', rest[i])
    {
      assert PieceOk(c, infos, live[i + 1]) && Original(live[0]) != Original(live[i + 1]);
    }
    forall id | id in infos'
      ensures HasPiece(rest, id)
    {
      assert HasPiece(live, id);
      var i :| 0 <= i < |live| && Original(live[i]) == id;
      assert Original(rest[i - 1]) == id;
    }
  }

  lemma ReqsAdd(reqs: seq<GPacket>, infos: map<int, Info>, g: GPacket, info: Info)
    requires ReqsOk(reqs, infos) && g.id !in infos
    ensures ReqsOk(reqs + [g], infos[g.id := info])
  {
    forall id | id in infos[g.id := info]
      ensures Find(reqs + [g], id) < |reqs + [g]|
    {
      FindAppend(reqs, g, id);
    }
  }

  lemma ReqsRemove(reqs: seq<GPacket>, infos: map<int, Info>, id: int)
    requires ReqsOk(reqs, infos) && id in infos
    ensures Find(reqs, id) < |reqs| && ReqsOk(Without(reqs, Find(reqs, id)), infos - {id})
  {
    hide Find;
    FindFirst(reqs, id);
    var k := Find(reqs, id);
    var r := Without(reqs, k);
    forall i | 0 <= i < |r|
      ensures r[i] == reqs[if i < k then i else i + 1] && r[i].id != id
    {
    }
    forall x | x in infos - {id}
      ensures Find(r, x) < |r|
    {
      FindRemoved(reqs, k, x);
    }
  }

  lemma FindFirst(q: seq<GPacket>, id: int)
    ensures Find(q, id) <= |q| && (Find(q, id) < |q| ==> q[Find(q, id)].id == id)
  {
  }

  lemma FindRemoved(q: seq<GPacket>, k: nat, id: int)
    requires k < |q| && q[k].id != id && Find(q, id) < |q|
    ensures Find(Without(q, k), id) < |Without(q, k)|
  {
    var f := Find(q, id);
    var r := Without(q, k);
    assert r[if f < k then f else f - 1] == q[f];
    SomeFound(r, if f < k then f else f - 1);
  }

  lemma {:induction false} SomeFound(q: seq<GPacket>, k: nat)
    requires k < |q|
    ensures Find(q, q[k].id) < |q|
  {
    if k > 0 && q[0].id != q[k].id {
      SomeFound(q[1..], k - 1);
    }
  }

  lemma NewReqKeeps(c: Config, s: State, g: GPacket)
    requires Inv(c, s) && MayArrive(c, s, g)
    ensures Inv(c, NewReq(c, s, g))
  {
    hide Piece, Original, LiveOk, ReqsOk;
    FirstIsOk(c, g);
    var first := if g.read then Piece(c, g.id, g.id + 1, g.loff, g.loff + g.size) else g;
    var info := Info(g.loff, g.loff + g.size, g.kind == WriteDataLast);
    LiveAdd(c, Live(s), s.infos, first, info);
    ReqsAdd(s.reqs, s.infos, g, info);
    assert Live(NewReq(c, s, g)) == Live(s) + [first];
  }

  lemma DispatchKeeps(c: Config, s: State)
    requires Inv(c, s)
    ensures Inv(c, Dispatch(s).0) && Live(Dispatch(s).0) == Live(s)
  {
    hide LiveOk, ReqsOk;
    assert Live(Dispatch(s).0) == Live(s);
  }

  lemma ServingIsFirst(c: Config, s: State)
    requires Inv(c, s) && s.serving != []
    ensures s.serving == [s.serving[0]] && Find(s.serving, s.serving[0].id) == 0 && Without(s.serving, 0) == []
    ensures Live(s) == [s.serving[0]] + s.waiting && Live(s)[1..] == s.waiting
    ensures PieceOk(c, s.infos, s.serving[0]) && Find(s.reqs, Original(s.serving[0])) < |s.reqs|
  {
    hide Original;
    assert Live(s)[0] == s.serving[0];
  }

  /** Serving the current file request: its reply, if any, covers just that piece, and unless the request ends there
      its next piece starts where this one ends. */
  lemma FinishIsRight(c: Config, s: State)
    requires Inv(c, s) && s.serving != []
    ensures var p := s.serving[0];
            && Original(p) in s.infos && Find(s.reqs, Original(p)) < |s.reqs| && Find(s.serving, p.id) < |s.serving|
            && var (s', r) := Finish(c, s, p);
               var (id, info) := (Original(p), s.infos[Original(p)]);
               && Inv(c, s')
               && (p.read ==> r == Some(p.(kind := if info.lub <= p.loff + p.size then ReadDataLast else ReadData)))
               && (!p.read ==> r == if info.last then Some(p.(kind := WriteFin)) else None)
               && if p.read && p.loff + p.size < info.lub then
                    && s'.infos == s.infos
                    && exists next :: Live(s') == Live(s)[1..] + [next] && Original(next) == id && next.read
                                      && next.loff == p.loff + p.size
                  else s'.infos == s.infos - {id} && Live(s') == Live(s)[1..]
  {
    hide Piece, LiveOk, ReqsOk, Find, Original, NextNumber;
    ServingIsFirst(c, s);
    var p := s.serving[0];
    var (id, info) := (Original(p), s.infos[Original(p)]);
    LiveRemoveFirst(c, Live(s), s.infos);
    ReqsRemove(s.reqs, s.infos, id);
    var s' := Finish(c, s, p).0;
    if p.read && p.loff + p.size < info.lub {
      NumberInBlock(p);
      var next := Piece(c, id, NextNumber(id, p.id), p.loff + p.size, info.lub);
      PieceIsOk(c, id, NextNumber(id, p.id), p.loff + p.size, info.lub);
      LiveAdd(c, s.waiting, s.infos - {id}, next, info);
      assert (s.infos - {id})[id := info] == s.infos;
      assert Live(s') == s.waiting + [next];
    } else {
      assert Live(s') == s.waiting;
    }
  }

  lemma NumberInBlock(p: GPacket)
    requires p.read
    ensures Original(p) % RID_OFFSET == 0 && NextNumber(Original(p), p.id) / RID_OFFSET * RID_OFFSET == Original(p)
  {
    NumbersOfBlock(Original(p), p.id);
  }

  // ---------------------------------------------------------------- whole runs

  /** A request arrives; the next file request is asked for; the one being served is done. */
  datatype Event = Arrive(g: GPacket) | Ask | Served

  ghost predicate Legal(c: Config, s: State, e: Event) {
    match e
    case Arrive(g) => MayArrive(c, s, g)
    case Ask => true
    case Served =>
      && s.serving != [] && Original(s.serving[0]) in s.infos
      && Find(s.reqs, Original(s.serving[0])) < |s.reqs| && Find(s.serving, s.serving[0].id) < |s.serving|
  }

  /** One event and the reply sent, if any. */
  ghost function Step(c: Config, s: State, e: Event): (State, Option<GPacket>)
    requires Legal(c, s, e)
  {
    match e
    case Arrive(g) => (NewReq(c, s, g), None)
    case Ask => (Dispatch(s).0, None)
    case Served => Finish(c, s, s.serving[0])
  }

  ghost predicate LegalRun(c: Config, s: State, events: seq<Event>)
    decreases |events|
  {
    events != [] ==> Legal(c, s, events[0]) && LegalRun(c, Step(c, s, events[0]).0, events[1..])
  }

  ghost function Run(c: Config, s: State, events: seq<Event>): State
    requires LegalRun(c, s, events)
    decreases |events|
  {
    if events == [] then s else Run(c, Step(c, s, events[0]).0, events[1..])
  }

  /** The replies of a run that belong to request `id`, in order. */
  ghost function Replies(c: Config, s: State, events: seq<Event>, id: nat): seq<GPacket>
    requires LegalRun(c, s, events)
    decreases |events|
  {
    if events == [] then []
    else
      var (s', r) := Step(c, s, events[0]);
      (if r.Some? && Original(r.value) == id then [r.value] else []) + Replies(c, s', events[1..], id)
  }

  ghost predicate ArrivesNot(events: seq<Event>, id: nat) {
    forall i :: 0 <= i < |events| && events[i].Arrive? ==> events[i].g.id != id
  }

  lemma StepKeeps(c: Config, s: State, e: Event)
    requires Inv(c, s) && Legal(c, s, e)
    ensures Inv(c, Step(c, s, e).0)
  {
    hide Inv, Finish, NewReq, Dispatch, Original, Live;
    match e
    case Arrive(g) => NewReqKeeps(c, s, g);
    case Ask => DispatchKeeps(c, s);
    case Served => FinishIsRight(c, s);
  }

  /** A reply belongs to the request being served. */
  lemma SameOriginal(p: GPacket, k: Kind)
    ensures Original(p.(kind := k)) == Original(p)
  {
  }

  /** A request that is gone and does not come again gets no more replies. */
  lemma {:induction false} NoMoreReplies(c: Config, s: State, events: seq<Event>, id: nat)
    requires Inv(c, s) && LegalRun(c, s, events) && id !in s.infos && ArrivesNot(events, id)
    ensures Replies(c, s, events, id) == [] && id !in Run(c, s, events).infos
    decreases |events|
  {
    if events != [] {
      hide Inv, Finish, Original, Live, Piece;
      var (e, s') := (events[0], Step(c, s, events[0]).0);
      StepKeeps(c, s, e);
      if e.Served? {
        FinishIsRight(c, s);
        SameOriginal(s.serving[0], ReadData);
        SameOriginal(s.serving[0], ReadDataLast);
        SameOriginal(s.serving[0], WriteFin);
      }
      assert id !in s'.infos;
      NoMoreReplies(c, s', events[1..], id);
    }
  }

  /** What a read has been sent so far: plain data up to where its live piece starts, or everything, with one last
      packet at the end. */
  ghost predicate SentUpTo(c: Config, sent: seq<GPacket>, loff: int, lub: int, s': State, id: nat) {
    if id in s'.infos then
      exists p' :: p' in Live(s') && Original(p') == id && p'.read && s'.infos[id].lub == lub
                   && Tiles(sent, loff, p'.loff, c.subreqSize)
                   && forall i :: 0 <= i < |sent| ==> sent[i].kind == ReadData
    else Tiles(sent, loff, lub, c.subreqSize) && OneLast(sent, ReadDataLast)
  }

  lemma SentCons(c: Config, p: GPacket, sent: seq<GPacket>, lub: int, s': State, id: nat)
    requires 0 < p.size <= c.subreqSize && p.kind == ReadData && SentUpTo(c, sent, p.loff + p.size, lub, s', id)
    ensures SentUpTo(c, [p] + sent, p.loff, lub, s', id)
  {
    assert ([p] + sent)[1..] == sent;
  }

  /** The first event sends nothing for the read, which goes on from the same piece. */
  ghost predicate Quiet(c: Config, s: State, e: Event, p: GPacket)
    requires Legal(c, s, e)
  {
    var (s', r) := Step(c, s, e);
    && p in Live(s') && Original(p) in s.infos && Original(p) in s'.infos && s'.infos[Original(p)] == s.infos[Original(p)]
    && !(r.Some? && Original(r.value) == Original(p))
  }

  lemma OthersAreQuiet(c: Config, s: State, e: Event, p: GPacket)
    requires Inv(c, s) && Legal(c, s, e) && p in Live(s) && p.read && (e.Arrive? ==> e.g.id != Original(p))
    requires e.Served? ==> p != s.serving[0]
    ensures Quiet(c, s, e, p)
  {
    hide Inv, Finish, Original, Live, Piece, NewReq, Dispatch;
    PieceOf(c, s, p);
    match e
    case Arrive(g) => NewReqAdds(c, s, g);
    case Ask =>
      DispatchKeeps(c, s);
      DispatchInfos(s);
    case Served =>
      FinishIsRight(c, s);
      SameOriginal(s.serving[0], ReadData);
      SameOriginal(s.serving[0], ReadDataLast);
      SameOriginal(s.serving[0], WriteFin);
      ServedFirst(c, s, p);
  }

  lemma FirstReply(c: Config, s: State, events: seq<Event>, id: nat)
    requires LegalRun(c, s, events) && events != []
    ensures var (s', r) := Step(c, s, events[0]);
            && Run(c, s, events) == Run(c, s', events[1..])
            && Replies(c, s, events, id) == if r.Some? && Original(r.value) == id then [r.value] + Replies(c, s', events[1..], id)
                                            else Replies(c, s', events[1..], id)
  {
  }

  /** In every run the replies to a read cover its bytes in order, piece by piece and none larger than the limit, and
      only the reply that ends the read is marked as the last. */
  lemma {:induction false} ReadIsTiled(c: Config, s: State, events: seq<Event>, p: GPacket)
    requires Inv(c, s) && LegalRun(c, s, events) && p in Live(s) && p.read && ArrivesNot(events, Original(p))
    ensures Original(p) in s.infos
    ensures SentUpTo(c, Replies(c, s, events, Original(p)), p.loff, s.infos[Original(p)].lub, Run(c, s, events), Original(p))
    decreases |events|
  {
    hide Inv, Finish, Original, Live, Piece, OneLast, NewReq, Dispatch, Step;
    var id := Original(p);
    PieceOf(c, s, p);
    if events != [] {
      var e := events[0];
      StepKeeps(c, s, e);
      FirstReply(c, s, events, id);
      if e.Served? && p == s.serving[0] {
        ReadServed(c, s, events, p);
      } else {
        assert e.Arrive? ==> events[0].g.id != id;
        OthersAreQuiet(c, s, e, p);
        ReadIsTiled(c, Step(c, s, e).0, events[1..], p);
      }
    }
  }

  /** The read's own piece is served. */
  lemma {:induction false} ReadServed(c: Config, s: State, events: seq<Event>, p: GPacket)
    requires Inv(c, s) && LegalRun(c, s, events) && p.read && ArrivesNot(events, Original(p))
    requires events != [] && events[0].Served? && s.serving != [] && p == s.serving[0] && Original(p) in s.infos
    ensures SentUpTo(c, Replies(c, s, events, Original(p)), p.loff, s.infos[Original(p)].lub, Run(c, s, events), Original(p))
    decreases |events|, 0
  {
    hide Inv, Finish, Original, Live, Piece, SentUpTo, NewReq, Dispatch, PieceOk;
    var (id, lub, s', r) := (Original(p), s.infos[Original(p)].lub, Step(c, s, Served).0, Step(c, s, Served).1);
    StepKeeps(c, s, Served);
    ServingIsFirst(c, s);
    PieceOf(c, s, p);
    FinishIsRight(c, s);
    FirstReply(c, s, events, id);
    SameOriginal(p, ReadData);
    SameOriginal(p, ReadDataLast);
    if p.loff + p.size < lub {
      var next := NextPiece(c, s);
      ReadIsTiled(c, s', events[1..], next);
      SentCons(c, r.value, Replies(c, s', events[1..], id), lub, Run(c, s, events), id);
    } else {
      NoMoreReplies(c, s', events[1..], id);
      AllSent(c, r.value, lub, Run(c, s', events[1..]), id);
    }
  }

  lemma NextPiece(c: Config, s: State) returns (next: GPacket)
    requires Inv(c, s) && s.serving != [] && Legal(c, s, Served) && s.serving[0].read
    requires var p := s.serving[0]; p.loff + p.size < s.infos[Original(p)].lub
    ensures var (p, s') := (s.serving[0], Step(c, s, Served).0);
            next in Live(s') && Original(next) == Original(p) && next.read && next.loff == p.loff + p.size
  {
    hide Inv, Finish, Original, Live, PieceOk;
    FinishIsRight(c, s);
    ServingIsFirst(c, s);
    var (p, s') := (s.serving[0], Step(c, s, Served).0);
    next :| Live(s') == Live(s)[1..] + [next] && Original(next) == Original(p) && next.read && next.loff == p.loff + p.size;
  }

  lemma AllSent(c: Config, r: GPacket, lub: int, s': State, id: nat)
    requires 0 < r.size <= c.subreqSize && r.loff + r.size == lub && r.kind == ReadDataLast && id !in s'.infos
    ensures SentUpTo(c, [r] + [], r.loff, lub, s', id)
  {
    LastReply(c, r, lub);
  }

  lemma PieceOf(c: Config, s: State, p: GPacket)
    requires Inv(c, s) && p in Live(s) && p.read
    ensures Original(p) in s.infos && 0 < p.size <= c.subreqSize
    ensures p.loff < s.infos[Original(p)].lub && p.loff + p.size <= s.infos[Original(p)].lub
  {
    hide Original;
    assert PieceOk(c, s.infos, p);
  }

  lemma NewReqAdds(c: Config, s: State, g: GPacket)
    ensures forall p :: p in Live(s) ==> p in Live(NewReq(c, s, g))
    ensures NewReq(c, s, g).infos == s.infos[g.id := Info(g.loff, g.loff + g.size, g.kind == WriteDataLast)]
  {
  }

  lemma DispatchInfos(s: State)
    ensures Dispatch(s).0.infos == s.infos
  {
  }

  lemma ServedFirst(c: Config, s: State, p: GPacket)
    requires Inv(c, s) && p in Live(s) && s.serving != []
    ensures p != s.serving[0] ==> p in Live(s)[1..] && Original(p) != Original(s.serving[0])
  {
    hide Original;
    ServingIsFirst(c, s);
    if p != s.serving[0] {
      var i :| 0 <= i < |Live(s)| && Live(s)[i] == p;
      assert Live(s)[1..][i - 1] == p;
    }
  }

  lemma LastReply(c: Config, r: GPacket, lub: int)
    requires 0 < r.size <= c.subreqSize && r.loff + r.size == lub && r.kind == ReadDataLast
    ensures Tiles([r] + [], r.loff, lub, c.subreqSize) && OneLast([r] + [], ReadDataLast)
  {
    assert ([r] + [])[1..] == [];
  }

  /** The file requests that one event puts into the queue, and the one it takes out. */
  ghost function Added(c: Config, s: State, e: Event): seq<GPacket>
    requires Legal(c, s, e)
  {
    var (live, kept) := (Live(Step(c, s, e).0), |Live(s)| - if e.Served? then 1 else 0);
    if kept <= |live| then live[kept..] else []
  }

  ghost function Taken(s: State, e: Event): seq<GPacket>
    requires e.Served? ==> s.serving != []
  {
    if e.Served? then [s.serving[0]] else []
  }

  /** All that enter the queue in a run, and all that are served, in order. */
  ghost function Entered(c: Config, s: State, events: seq<Event>): seq<GPacket>
    requires LegalRun(c, s, events)
    decreases |events|
  {
    if events == [] then [] else Added(c, s, events[0]) + Entered(c, Step(c, s, events[0]).0, events[1..])
  }

  ghost function Done(c: Config, s: State, events: seq<Event>): seq<GPacket>
    requires LegalRun(c, s, events)
    decreases |events|
  {
    if events == [] then [] else Taken(s, events[0]) + Done(c, Step(c, s, events[0]).0, events[1..])
  }

  lemma StepInOrder(c: Config, s: State, e: Event)
    requires Inv(c, s) && Legal(c, s, e)
    ensures Taken(s, e) + Live(Step(c, s, e).0) == Live(s) + Added(c, s, e)
  {
    hide Inv, Finish, Original, Live, Piece, NewReq, Dispatch;
    match e
    case Arrive(g) => ArrivesLast(c, s, g);
    case Ask =>
      DispatchKeeps(c, s);
    case Served =>
      FinishIsRight(c, s);
      ServingIsFirst(c, s);
  }

  /** File requests are served in the order they entered the queue. */
  lemma {:induction false} ServedInOrder(c: Config, s: State, events: seq<Event>)
    requires Inv(c, s) && LegalRun(c, s, events)
    ensures Done(c, s, events) + Live(Run(c, s, events)) == Live(s) + Entered(c, s, events)
    decreases |events|
  {
    if events == [] {
      assert [] + Live(s) == Live(s) + [];
    } else {
      hide Inv, Live, Step, Taken, Added;
      var (e, s') := (events[0], Step(c, s, events[0]).0);
      StepKeeps(c, s, e);
      StepInOrder(c, s, e);
      ServedInOrder(c, s', events[1..]);
      Chained(Taken(s, e), Live(s'), Live(s), Added(c, s, e),
              Done(c, s', events[1..]), Live(Run(c, s', events[1..])), Entered(c, s', events[1..]));
    }
  }

  /** A write is reported finished exactly when its last packet has been served; and by then every file request that
      entered the queue before that packet, and so every packet of the write that arrived before it, has been served. */
  lemma FinishAfterAll(c: Config, s: State, before: seq<Event>)
    requires Inv(c, s) && LegalRun(c, s, before) && Run(c, s, before).serving != []
    ensures var t := Run(c, s, before);
            var (p, done, came) := (t.serving[0], Done(c, s, before), Live(s) + Entered(c, s, before));
            && Legal(c, t, Served)
            && (Step(c, t, Served).1 == Some(p.(kind := WriteFin)) <==> !p.read && p.kind == WriteDataLast)
            && |done| < |came| && came[|done|] == p && forall i :: 0 <= i < |done| ==> came[i] == done[i]
  {
    hide Finish, Piece, Original, LiveOk, ReqsOk;
    var t := Run(c, s, before);
    RunKeeps(c, s, before);
    ServedInOrder(c, s, before);
    FinishIsRight(c, t);
    ServingIsFirst(c, t);
    InService(c, t);
  }

  lemma InService(c: Config, s: State)
    requires Inv(c, s) && s.serving != []
    ensures var p := s.serving[0];
            Original(p) in s.infos && (!p.read ==> (s.infos[Original(p)].last <==> p.kind == WriteDataLast))
  {
    assert PieceOk(c, s.infos, Live(s)[0]);
  }

  lemma {:induction false} RunKeeps(c: Config, s: State, events: seq<Event>)
    requires Inv(c, s) && LegalRun(c, s, events)
    ensures Inv(c, Run(c, s, events))
    decreases |events|
  {
    if events != [] {
      hide Inv, Step;
      StepKeeps(c, s, events[0]);
      RunKeeps(c, Step(c, s, events[0]).0, events[1..]);
    }
  }

  lemma Chained(taken: seq<GPacket>, mid: seq<GPacket>, first: seq<GPacket>, added: seq<GPacket>,
                done: seq<GPacket>, rest: seq<GPacket>, entered: seq<GPacket>)
    requires taken + mid == first + added && done + rest == mid + entered
    ensures (taken + done) + rest == first + (added + entered)
  {
    Associative(taken, done, rest);
    Associative(taken, mid, entered);
    Associative(first, added, entered);
  }

  lemma ArrivesLast(c: Config, s: State, g: GPacket)
    ensures |Live(NewReq(c, s, g))| > |Live(s)| && Live(NewReq(c, s, g))[..|Live(s)|] == Live(s)
    ensures Live(NewReq(c, s, g)) == Live(s) + Live(NewReq(c, s, g))[|Live(s)|..]
  {
  }
}
