/** The local file system as a state machine, and what it sends in a whole run with one block request at a time. */
module Ext3Model {
  import opened Options
  import opened Extents

  const MAX_EXT_ENTRY_NUM := 10000
  const VFS_SUB_ID_BASE := 10
  const LFS_SUB_ID_BASE := 1

  datatype PageRequest = PageRequest(id: int, subid: int, fid: int, pageStart: int, pageEnd: int, read: bool)

  datatype BlkRequest = BlkRequest(id: int, subid: int, fid: int, start: int, end: int, read: bool)

  /** A queued page request with its block range; `index` and `off` are where its last access went. */
  datatype Job = Job(req: PageRequest, pending: bool, start: int, end: int, index: int, off: int)

  /** The block request for an access. */
  function ToBlocks(req: PageRequest, ext: seq<Extent>, a: Access): BlkRequest
    requires a.index < |ext|
  {
    match a
    case Meta(i) => BlkRequest(req.id, req.subid, req.fid, ext[i].phystart - 1, ext[i].phystart, req.read)
    case Data(_, start, end) => BlkRequest(req.id, req.subid + LFS_SUB_ID_BASE, req.fid, start, end, req.read)
  }

  /** The first request in the queue that is not pending. */
  function Ready(q: seq<Job>): (k: nat)
    ensures k <= |q| && (k < |q| ==> !q[k].pending) && forall i :: 0 <= i < k ==> q[i].pending
  {
    if q == [] || !q[0].pending then 0 else 1 + Ready(q[1..])
  }

  lemma ReadyIs(q: seq<Job>, k: nat)
    requires k <= |q| && (k < |q| ==> !q[k].pending) && forall i :: 0 <= i < k ==> q[i].pending
    ensures Ready(q) == k
  {
    var r := Ready(q);
    assert r < |q| && k < |q| ==> !q[r].pending && !q[k].pending;
  }

  /** A queued request is of a known file. */
  ghost predicate JobOk(job: Job, extents: map<int, seq<Extent>>) {
    job.req.fid in extents && 0 <= job.start <= job.end && job.req.subid % VFS_SUB_ID_BASE == 0
  }

  ghost predicate JobsOk(q: seq<Job>, extents: map<int, seq<Extent>>) {
    && (forall i :: 0 <= i < |q| ==> JobOk(q[i], extents))
    && (forall i, j :: 0 <= i < j < |q| ==> !(q[i].req.id == q[j].req.id && q[i].req.subid == q[j].req.subid))
  }

  lemma JobsReplace(q: seq<Job>, extents: map<int, seq<Extent>>, k: nat, job: Job, extents': map<int, seq<Extent>>)
    requires JobsOk(q, extents) && extents.Keys <= extents'.Keys && k < |q|
    requires job.req == q[k].req && 0 <= job.start <= job.end
    ensures JobsOk(q[k := job], extents')
  {
  }

  lemma JobsRemove(q: seq<Job>, extents: map<int, seq<Extent>>, k: nat)
    requires JobsOk(q, extents) && k < |q|
    ensures JobsOk(q[..k] + q[k + 1..], extents)
  {
  }

  /** The first request in the queue with an ID. */
  function Find(q: seq<Job>, id: int, subid: int): (k: nat)
    ensures k <= |q| && (k < |q| ==> q[k].req.id == id && q[k].req.subid == subid)
    ensures forall i :: 0 <= i < k ==> !(q[i].req.id == id && q[i].req.subid == subid)
  {
    if q == [] || (q[0].req.id == id && q[0].req.subid == subid) then 0 else 1 + Find(q[1..], id, subid)
  }

  lemma FindIs(q: seq<Job>, id: int, subid: int, k: nat)
    requires k <= |q| && (k < |q| ==> q[k].req.id == id && q[k].req.subid == subid)
    requires forall i :: 0 <= i < k ==> !(q[i].req.id == id && q[i].req.subid == subid)
    ensures Find(q, id, subid) == k
  {
    var f := Find(q, id, subid);
    assert f < |q| && k < |q| ==> q[f].req.id == id && q[k].req.id == id;
  }

  // ---------------------------------------------------------------- steps

  datatype State = State(extents: map<int, seq<Extent>>, queue: seq<Job>, outstanding: int)

  ghost predicate ExtentsOk(p: Policy, extents: map<int, seq<Extent>>) {
    p.size > 0 && forall fid :: fid in extents ==> Contiguous(extents[fid])
  }

  ghost predicate Ok(p: Policy, s: State) {
    ExtentsOk(p, s.extents) && JobsOk(s.queue, s.extents)
  }

  /** A page request asks for the blocks of its pages; `n` is the number of blocks of a page. */
  function NewJob(req: PageRequest, n: int): Job {
    Job(req, false, req.pageStart * n, req.pageEnd * n, 0, 0)
  }

  function Enqueue(s: State, req: PageRequest, n: int): State {
    s.(queue := s.queue + [NewJob(req, n)])
  }

  /** What callers owe: a file that has extents, and ID numbers of its own. */
  ghost predicate MayEnqueue(s: State, req: PageRequest, n: int) {
    && req.fid in s.extents && 0 <= req.pageStart <= req.pageEnd && n > 0
    && req.subid % VFS_SUB_ID_BASE == 0
    && forall i :: 0 <= i < |s.queue| ==> !(s.queue[i].req.id == req.id && s.queue[i].req.subid == req.subid)
  }

  /** The next block request of the first request that is not pending: its next access, with a new extent for the file
      if it has come to the end.  A request that starts beyond the end of the file gets none and stays pending. */
  function Dispatch(p: Policy, degree: int, s: State): (State, Option<BlkRequest>)
    requires Ok(p, s)
  {
    var k := Ready(s.queue);
    if s.outstanding >= degree || k == |s.queue| then (s, None) else DispatchJob(p, s, k)
  }

  function DispatchJob(p: Policy, s: State, k: nat): (State, Option<BlkRequest>)
    requires Ok(p, s) && k < |s.queue|
  {
    var job := s.queue[k];
    var ext := s.extents[job.req.fid];
    if job.start > FileEnd(ext) then
      (State(s.extents, s.queue[k := job.(pending := true)], s.outstanding + 1), None)
    else
      var ext' := Open(p, ext, job.start);
      var a := Next(ext', job.start, job.end);
      var job' := job.(pending := true, index := a.index, off := job.start - ext'[a.index].logistart);
      (State(s.extents[job.req.fid := ext'], s.queue[k := job'], s.outstanding + 1), Some(ToBlocks(job.req, ext', a)))
  }

  /** The response is to the last access of the request. */
  ghost predicate InFlight(extents: map<int, seq<Extent>>, job: Job, b: BlkRequest) {
    && job.req.fid in extents && extents[job.req.fid] != [] && b.fid == job.req.fid && job.pending
    && var ext := extents[job.req.fid];
       && 0 <= job.start < FileEnd(ext) && 0 <= job.index < |ext| && IndexOf(ext, job.start) == job.index
       && job.off == job.start - ext[job.index].logistart
       && b == ToBlocks(job.req, ext, Next(ext, job.start, job.end))
  }

  /** The request a response belongs to, by the ID numbers the response carries. */
  function Answered(q: seq<Job>, b: BlkRequest): (k: nat)
    ensures k <= |q|
  {
    Find(q, b.id, b.subid / VFS_SUB_ID_BASE * VFS_SUB_ID_BASE)
  }

  /** A block request has been served.  Metadata marks the extent; data moves the request on, and completes it when it
      was the last. */
  function Finish(s: State, b: BlkRequest): (State, Option<PageRequest>)
    requires var k := Answered(s.queue, b); k < |s.queue| ==> InFlight(s.extents, s.queue[k], b)
  {
    var k := Answered(s.queue, b);
    if k == |s.queue| then (s, None) else FinishJob(s, k, b)
  }

  function FinishJob(s: State, k: nat, b: BlkRequest): (State, Option<PageRequest>)
    requires k < |s.queue| && InFlight(s.extents, s.queue[k], b)
  {
    var (job, n) := (s.queue[k], s.outstanding - 1);
    var ext := s.extents[job.req.fid];
    if !ext[job.index].accessed then
      var ext' := ext[job.index := ext[job.index].(accessed := true)];
      (State(s.extents[job.req.fid := ext'], s.queue[k := job.(pending := false)], n), None)
    else
      var job' := job.(pending := false, start := job.start + (b.end - b.start));
      if job'.start == job'.end then (State(s.extents, s.queue[..k] + s.queue[k + 1..], n), Some(job.req))
      else (State(s.extents, s.queue[k := job'], n), None)
  }

  /** A response finds its request by the ID numbers it carries. */
  lemma OnlyJob(q: seq<Job>, extents: map<int, seq<Extent>>, k: nat, b: BlkRequest)
    requires JobsOk(q, extents) && k < |q| && b.id == q[k].req.id
    requires b.subid == q[k].req.subid || b.subid == q[k].req.subid + LFS_SUB_ID_BASE
    ensures Answered(q, b) == k
  {
    FindIs(q, b.id, b.subid / VFS_SUB_ID_BASE * VFS_SUB_ID_BASE, k);
  }

  lemma EnqueueKeeps(p: Policy, s: State, req: PageRequest, n: int)
    requires Ok(p, s) && MayEnqueue(s, req, n)
    ensures Ok(p, Enqueue(s, req, n))
  {
    PagesToBlocks(req.pageStart, req.pageEnd, n);
  }

  lemma PagesToBlocks(s: int, e: int, n: int)
    requires 0 <= s <= e && n > 0
    ensures 0 <= s * n <= e * n
  {
  }

  /** A dispatched request is found again by its response. */
  lemma DispatchKeeps(p: Policy, s: State, k: nat)
    requires Ok(p, s) && k < |s.queue|
    ensures var (s', r) := DispatchJob(p, s, k);
            && Ok(p, s') && |s'.queue| == |s.queue|
            && (r.Some? ==> Answered(s'.queue, r.value) == k && InFlight(s'.extents, s'.queue[k], r.value))
  {
    hide Open, IndexOf, Contiguous;
    var (s', r) := DispatchJob(p, s, k);
    var job := s.queue[k];
    JobsReplace(s.queue, s.extents, k, s'.queue[k], s'.extents);
    if r.Some? {
      OnlyJob(s'.queue, s'.extents, k, r.value);
    }
  }

  lemma FinishKeeps(p: Policy, s: State, k: nat, b: BlkRequest)
    requires Ok(p, s) && k < |s.queue| && InFlight(s.extents, s.queue[k], b)
    ensures Ok(p, FinishJob(s, k, b).0)
  {
    hide IndexOf, JobsOk, Contiguous;
    var job := s.queue[k];
    var ext := s.extents[job.req.fid];
    JobIn(s.queue, s.extents, k);
    var (s', _) := FinishJob(s, k, b);
    if !ext[job.index].accessed {
      Marked(ext, job.index);
      JobsReplace(s.queue, s.extents, k, job.(pending := false), s'.extents);
    } else {
      DataAdvances(ext, job.start, job.end);
      JobsReplace(s.queue, s.extents, k, job.(pending := false, start := job.start + (b.end - b.start)), s'.extents);
      JobsRemove(s.queue, s.extents, k);
    }
  }

  lemma JobIn(q: seq<Job>, extents: map<int, seq<Extent>>, k: nat)
    requires JobsOk(q, extents) && k < |q|
    ensures JobOk(q[k], extents)
  {
  }

  // ---------------------------------------------------------------- what the queue will send

  lemma IndicesFit(p: Policy, ext: seq<Extent>, s: int, e: int)
    requires Contiguous(ext) && p.size > 0 && 0 <= s < FileEnd(ext) && s <= e && IndexOf(ext, s) < |ext|
    ensures var (after, t) := Accesses(p, ext, s, e);
            Contiguous(after) && SameExtents(ext, after) && IndicesIn(after, t)
  {
    hide Contiguous, IndexOf;
    EachBlockOnce(p, ext, s, e);
    var (after, t) := Accesses(p, ext, s, e);
    forall k | 0 <= k < |t|
      ensures t[k].index < |after|
    {
      MetadataOnce(p, ext, s, e, t[k].index);
    }
  }

  ghost predicate IndicesIn(ext: seq<Extent>, t: seq<Access>) {
    forall k :: 0 <= k < |t| ==> t[k].index < |ext|
  }

  /** The block requests for the accesses of one page request. */
  ghost function Requests(req: PageRequest, ext: seq<Extent>, t: seq<Access>): seq<BlkRequest>
    requires IndicesIn(ext, t)
  {
    if t == [] then [] else [ToBlocks(req, ext, t[0])] + Requests(req, ext, t[1..])
  }

  ghost predicate AllOk(q: seq<Job>, extents: map<int, seq<Extent>>) {
    forall i :: 0 <= i < |q| ==> JobOk(q[i], extents)
  }

  /** The block requests for all queued requests, one request after the other: each visits its blocks as `Accesses`
      says.  Nothing follows a request that starts beyond the end of its file. */
  ghost function Plan(p: Policy, extents: map<int, seq<Extent>>, q: seq<Job>): seq<BlkRequest>
    requires ExtentsOk(p, extents) && AllOk(q, extents)
    decreases |q|
  {
    if q == [] then []
    else
      var job := q[0];
      var ext := extents[job.req.fid];
      if job.start > FileEnd(ext) then []
      else
        var (after, t) := Accesses(p, Open(p, ext, job.start), job.start, job.end);
        IndicesFit(p, Open(p, ext, job.start), job.start, job.end);
        Requests(job.req, after, t) + Plan(p, extents[job.req.fid := after], q[1..])
  }

  /** The plan does not depend on what is noted of the last access. */
  lemma {:induction false} PlanSame(p: Policy, extents: map<int, seq<Extent>>, job: Job, job': Job, rest: seq<Job>)
    requires ExtentsOk(p, extents) && JobOk(job, extents) && AllOk(rest, extents)
    requires job'.req == job.req && job'.start == job.start && job'.end == job.end
    ensures AllOk([job] + rest, extents) && AllOk([job'] + rest, extents)
    ensures Plan(p, extents, [job'] + rest) == Plan(p, extents, [job] + rest)
  {
    hide Accesses, Open, FileEnd, Contiguous;
    var (q, q') := ([job] + rest, [job'] + rest);
    assert q[0] == job && q'[0] == job' && q[1..] == rest && q'[1..] == rest;
    assert forall i :: 1 <= i < |q| ==> q'[i] == q[i];
  }

  /** Nor on whether the extent for its next block has been made yet. */
  lemma {:induction false} PlanOpened(p: Policy, extents: map<int, seq<Extent>>, job: Job, rest: seq<Job>)
    requires ExtentsOk(p, extents) && JobOk(job, extents) && AllOk(rest, extents) && job.start <= FileEnd(extents[job.req.fid])
    ensures var extents' := extents[job.req.fid := Open(p, extents[job.req.fid], job.start)];
            && ExtentsOk(p, extents') && AllOk([job] + rest, extents) && AllOk([job] + rest, extents')
            && Plan(p, extents', [job] + rest) == Plan(p, extents, [job] + rest)
  {
    hide Accesses, IndexOf, Contiguous, Requests;
    var fid := job.req.fid;
    var (q, ext) := ([job] + rest, extents[fid]);
    var ext1 := Open(p, ext, job.start);
    var extents' := extents[fid := ext1];
    assert q[0] == job && q[1..] == rest;
    assert Open(p, ext1, job.start) == ext1;
    var (after, t) := Accesses(p, ext1, job.start, job.end);
    IndicesFit(p, ext1, job.start, job.end);
    assert extents'[fid := after] == extents[fid := after];
  }

  lemma SameBlocks(req: PageRequest, ext: seq<Extent>, after: seq<Extent>, a: Access)
    requires SameExtents(ext, after) && a.index < |ext|
    ensures ToBlocks(req, after, a) == ToBlocks(req, ext, a)
  {
  }

  lemma FirstRequest(req: PageRequest, ext: seq<Extent>, a: Access, t: seq<Access>)
    requires IndicesIn(ext, [a] + t)
    ensures a.index < |ext| && IndicesIn(ext, t)
    ensures Requests(req, ext, [a] + t) == [ToBlocks(req, ext, a)] + Requests(req, ext, t)
  {
    var u := [a] + t;
    assert u[0] == a && u[1..] == t;
    forall k | 0 <= k < |t|
      ensures t[k].index < |ext|
    {
      assert u[k + 1] == t[k];
    }
  }

  /** The plan of a request that has an extent for its next block. */
  lemma {:induction false} PlanOf(p: Policy, extents: map<int, seq<Extent>>, job: Job, rest: seq<Job>)
    requires ExtentsOk(p, extents) && JobOk(job, extents) && AllOk(rest, extents)
    requires job.start < FileEnd(extents[job.req.fid])
    ensures var ext := extents[job.req.fid];
            && AllOk([job] + rest, extents) && IndexOf(ext, job.start) < |ext|
            && var (after, t) := Accesses(p, ext, job.start, job.end);
               && IndicesIn(after, t) && SameExtents(ext, after)
               && ExtentsOk(p, extents[job.req.fid := after]) && AllOk(rest, extents[job.req.fid := after])
               && Plan(p, extents, [job] + rest)
                    == Requests(job.req, after, t) + Plan(p, extents[job.req.fid := after], rest)
  {
    hide Accesses, IndexOf, Contiguous, Requests;
    var ext := extents[job.req.fid];
    var q := [job] + rest;
    assert q[0] == job && q[1..] == rest;
    assert Open(p, ext, job.start) == ext;
    IndicesFit(p, ext, job.start, job.end);
  }

  /** The metadata in flight is the first of the plan; once it is marked, the rest is left. */
  lemma {:induction false} PlanMeta(p: Policy, extents: map<int, seq<Extent>>, job: Job, rest: seq<Job>, b: BlkRequest)
    requires ExtentsOk(p, extents) && JobOk(job, extents) && AllOk(rest, extents) && InFlight(extents, job, b)
    requires !extents[job.req.fid][job.index].accessed
    ensures var ext := extents[job.req.fid];
            var extents' := extents[job.req.fid := ext[job.index := ext[job.index].(accessed := true)]];
            && ExtentsOk(p, extents') && AllOk([job] + rest, extents) && AllOk([job] + rest, extents')
            && Plan(p, extents, [job] + rest) == [b] + Plan(p, extents', [job] + rest)
  {
    hide Accesses, IndexOf, Contiguous, Requests, Plan, FileEnd, ToBlocks;
    var (fid, i) := (job.req.fid, job.index);
    var ext := extents[fid];
    var ext' := ext[i := ext[i].(accessed := true)];
    var extents' := extents[fid := ext'];
    Marked(ext, i);
    MetaFirstAccess(p, ext, job.start, job.end);
    PlanOf(p, extents, job, rest);
    PlanOf(p, extents', job, rest);
    var (after, t) := Accesses(p, ext', job.start, job.end);
    assert extents'[fid := after] == extents[fid := after];
    FirstRequest(job.req, after, Meta(i), t);
    SameBlocks(job.req, ext, after, Meta(i));
    Joined([b], Requests(job.req, after, t), Plan(p, extents[fid := after], rest));
  }

  lemma MetaFirstAccess(p: Policy, ext: seq<Extent>, s: int, e: int)
    requires Contiguous(ext) && p.size > 0 && 0 <= s < FileEnd(ext) && s <= e && IndexOf(ext, s) < |ext|
    requires !ext[IndexOf(ext, s)].accessed
    ensures var i := IndexOf(ext, s);
            var ext' := ext[i := ext[i].(accessed := true)];
            && Next(ext, s, e) == Meta(i) && Contiguous(ext') && FileEnd(ext') == FileEnd(ext) && IndexOf(ext', s) == i
            && Accesses(p, ext, s, e)
                 == (Accesses(p, ext', s, e).0, [Meta(i)] + Accesses(p, ext', s, e).1)
  {
    hide Contiguous, IndexOf, FileEnd;
    var i := IndexOf(ext, s);
    var ext' := ext[i := ext[i].(accessed := true)];
    Marked(ext, i);
    IndexIs(ext', s, i);
  }

  /** The data in flight is the first of the plan; then the request goes on behind it, or the next one begins. */
  lemma {:induction false} PlanData(p: Policy, extents: map<int, seq<Extent>>, job: Job, rest: seq<Job>, b: BlkRequest)
    requires ExtentsOk(p, extents) && JobOk(job, extents) && AllOk(rest, extents) && InFlight(extents, job, b)
    requires extents[job.req.fid][job.index].accessed
    ensures var job' := job.(start := job.start + (b.end - b.start));
            && job'.start <= job.end && AllOk([job] + rest, extents) && AllOk([job'] + rest, extents)
            && Plan(p, extents, [job] + rest)
                 == [b] + if job'.start == job.end then Plan(p, extents, rest) else Plan(p, extents, [job'] + rest)
  {
    hide Accesses, IndexOf, Contiguous, Requests, Plan, FileEnd, Open;
    var fid := job.req.fid;
    var ext := extents[fid];
    var job' := job.(start := job.start + (b.end - b.start));
    var a := Next(ext, job.start, job.end);
    DataFirstAccess(p, ext, job.start, job.end);
    PlanOf(p, extents, job, rest);
    var (after, t) := Accesses(p, ext, job.start, job.end);
    SameBlocks(job.req, ext, after, a);
    if job'.start == job.end {
      FirstRequest(job.req, after, a, []);
      assert extents[fid := ext] == extents && [a] + [] == [a];
      NoRequests(job.req, after);
    } else {
      var ext' := Open(p, ext, job'.start);
      PlanOpened(p, extents, job', rest);
      PlanOf(p, extents[fid := ext'], job', rest);
      FirstRequest(job.req, after, a, t[1..]);
      assert extents[fid := ext'][fid := after] == extents[fid := after];
      Joined([b], Requests(job.req, after, t[1..]), Plan(p, extents[fid := after], rest));
    }
  }

  lemma DataFirstAccess(p: Policy, ext: seq<Extent>, s: int, e: int)
    requires Contiguous(ext) && p.size > 0 && 0 <= s < FileEnd(ext) && s <= e && IndexOf(ext, s) < |ext|
    requires ext[IndexOf(ext, s)].accessed
    ensures var a := Next(ext, s, e);
            && a.Data? && var m := s + (a.end - a.start);
            && s <= m <= e && m <= FileEnd(ext)
            && if m == e then Accesses(p, ext, s, e) == (ext, [a])
               else
                 var ext' := Open(p, ext, m);
                 && m < FileEnd(ext') && IndexOf(ext', m) < |ext'|
                 && Accesses(p, ext, s, e) == (Accesses(p, ext', m, e).0, [a] + Accesses(p, ext', m, e).1)
  {
    hide Contiguous, IndexOf, FileEnd, Open;
    DataAdvances(ext, s, e);
  }

  lemma NoRequests(req: PageRequest, ext: seq<Extent>)
    ensures Requests(req, ext, []) == []
  {
  }

  lemma Joined(x: seq<BlkRequest>, y: seq<BlkRequest>, z: seq<BlkRequest>)
    ensures (x + y) + z == x + (y + z)
  {
  }

  // ---------------------------------------------------------------- whole runs with one block request at a time

  /** A page request arrives, the next block request is asked for, or the one in flight is answered. */
  datatype Event = Arrive(req: PageRequest) | Ask | Reply(b: BlkRequest)

  /** At most the first request has a block request in flight. */
  ghost predicate Single(p: Policy, s: State) {
    && Ok(p, s)
    && (forall i :: 1 <= i < |s.queue| ==> !s.queue[i].pending)
    && s.outstanding == (if s.queue != [] && s.queue[0].pending then 1 else 0)
  }

  ghost predicate Legal(n: int, s: State, e: Event) {
    match e
    case Arrive(req) => MayEnqueue(s, req, n)
    case Ask => true
    case Reply(b) => s.queue != [] && InFlight(s.extents, s.queue[0], b)
  }

  /** One event, and the page request it completes. */
  ghost function Step(p: Policy, n: int, s: State, e: Event): (r: (State, Option<PageRequest>))
    requires Single(p, s) && Legal(n, s, e)
    ensures Single(p, r.0)
  {
    match e
    case Arrive(req) =>
      ArriveLeft(p, n, s, req, []);
      (Enqueue(s, req, n), None)
    case Ask =>
      AskLeft(p, s, []);
      (Dispatch(p, 1, s).0, None)
    case Reply(b) =>
      ReplyLeft(p, s, b, []);
      FinishJob(s, 0, b)
  }

  ghost function Come(e: Event, n: int): seq<Job> {
    if e.Arrive? then [NewJob(e.req, n)] else []
  }

  ghost function Served(e: Event): seq<BlkRequest> {
    if e.Reply? then [e.b] else []
  }

  ghost function Left(p: Policy, s: State, more: seq<Job>): seq<BlkRequest>
    requires Single(p, s) && AllOk(more, s.extents)
  {
    Plan(p, s.extents, s.queue + more)
  }

  lemma Split(q: seq<Job>, more: seq<Job>)
    requires q != []
    ensures q + more == [q[0]] + (q[1..] + more)
  {
  }

  lemma AskLeft(p: Policy, s: State, more: seq<Job>)
    requires Single(p, s) && AllOk(more, s.extents)
    ensures var s' := Dispatch(p, 1, s).0;
            Single(p, s') && s'.extents.Keys == s.extents.Keys && AllOk(more, s'.extents) && Left(p, s', more) == Left(p, s, more)
  {
    hide Open, IndexOf, Contiguous, Plan, FileEnd, Accesses, JobsOk, ToBlocks;
    var s' := Dispatch(p, 1, s).0;
    if s.outstanding == 0 && s.queue != [] {
      assert Ready(s.queue) == 0;
      DispatchKeeps(p, s, 0);
      var (job, job', rest) := (s.queue[0], s'.queue[0], s.queue[1..] + more);
      JobIn(s.queue, s.extents, 0);
      AllIn(s.queue, s.extents);
      Split(s.queue, more);
      Split(s'.queue, more);
      assert s'.queue[1..] == s.queue[1..];
      PlanSame(p, s.extents, job, job', rest);
      if Dispatch(p, 1, s).1.Some? {
        PlanOpened(p, s.extents, job', rest);
      }
    }
  }

  lemma AllIn(q: seq<Job>, extents: map<int, seq<Extent>>)
    requires JobsOk(q, extents)
    ensures AllOk(q, extents)
  {
  }

  lemma ReplyLeft(p: Policy, s: State, b: BlkRequest, more: seq<Job>)
    requires Single(p, s) && AllOk(more, s.extents) && s.queue != [] && InFlight(s.extents, s.queue[0], b)
    ensures var (s', r) := FinishJob(s, 0, b);
            && Single(p, s') && s'.extents.Keys == s.extents.Keys && AllOk(more, s'.extents)
            && Left(p, s, more) == [b] + Left(p, s', more)
            && Answered(s.queue, b) == 0
  {
    hide Open, IndexOf, Contiguous, Plan, FileEnd, Accesses, JobsOk, ToBlocks;
    var (s', r) := FinishJob(s, 0, b);
    var (job, rest) := (s.queue[0], s.queue[1..] + more);
    FinishKeeps(p, s, 0, b);
    JobIn(s.queue, s.extents, 0);
    AllIn(s.queue, s.extents);
    Split(s.queue, more);
    Numbers(job, s.extents, b);
    OnlyJob(s.queue, s.extents, 0, b);
    if !s.extents[job.req.fid][job.index].accessed {
      PlanMeta(p, s.extents, job, rest, b);
      Split(s'.queue, more);
      assert s'.queue[1..] == s.queue[1..];
      PlanSame(p, s'.extents, job, s'.queue[0], rest);
    } else {
      PlanData(p, s.extents, job, rest, b);
      var job' := job.(start := job.start + (b.end - b.start));
      if job'.start == job.end {
        assert s'.queue == s.queue[1..];
      } else {
        Split(s'.queue, more);
        assert s'.queue[1..] == s.queue[1..] && ([job'] + rest)[0] == job';
        PlanSame(p, s'.extents, job', s'.queue[0], rest);
      }
    }
  }

  lemma Numbers(job: Job, extents: map<int, seq<Extent>>, b: BlkRequest)
    requires InFlight(extents, job, b)
    ensures b.id == job.req.id && (b.subid == job.req.subid || b.subid == job.req.subid + LFS_SUB_ID_BASE)
  {
    hide IndexOf;
  }

  lemma ArriveLeft(p: Policy, n: int, s: State, req: PageRequest, more: seq<Job>)
    requires Single(p, s) && MayEnqueue(s, req, n) && AllOk(more, s.extents)
    ensures var s' := Enqueue(s, req, n);
            && Single(p, s') && AllOk([NewJob(req, n)] + more, s.extents)
            && Left(p, s', more) == Left(p, s, [NewJob(req, n)] + more)
  {
    hide Plan, Contiguous;
    EnqueueKeeps(p, s, req, n);
    PagesToBlocks(req.pageStart, req.pageEnd, n);
    assert Enqueue(s, req, n).queue + more == s.queue + ([NewJob(req, n)] + more);
  }

  ghost predicate LegalRun(p: Policy, n: int, s: State, events: seq<Event>)
    requires Single(p, s)
    decreases |events|
  {
    events != [] ==>
      Legal(n, s, events[0]) && LegalRun(p, n, Step(p, n, s, events[0]).0, events[1..])
  }

  ghost function Run(p: Policy, n: int, s: State, events: seq<Event>): (s': State)
    requires Single(p, s) && LegalRun(p, n, s, events)
    ensures Single(p, s')
    decreases |events|
  {
    if events == [] then s else Run(p, n, Step(p, n, s, events[0]).0, events[1..])
  }

  ghost function Coming(events: seq<Event>, n: int): seq<Job> {
    if events == [] then [] else Come(events[0], n) + Coming(events[1..], n)
  }

  ghost function Answers(events: seq<Event>): seq<BlkRequest> {
    if events == [] then [] else Served(events[0]) + Answers(events[1..])
  }

  /** One event: what was left before, with all that is to come, is what it answers and what is left then. */
  lemma StepLeft(p: Policy, n: int, s: State, e: Event, more: seq<Job>)
    requires Single(p, s) && Legal(n, s, e) && AllOk(more, s.extents)
    ensures var s' := Step(p, n, s, e).0;
            && Single(p, s') && s'.extents.Keys == s.extents.Keys
            && AllOk(more, s'.extents) && AllOk(Come(e, n) + more, s.extents)
            && Left(p, s, Come(e, n) + more) == Served(e) + Left(p, s', more)
  {
    hide Plan, Contiguous, Left, Single, Dispatch, FinishJob, InFlight;
    assert [] + more == more;
    match e
    case Arrive(req) => ArriveLeft(p, n, s, req, more);
    case Ask => AskLeft(p, s, more);
    case Reply(b) => ReplyLeft(p, s, b, more);
  }

  /** In any run with one block request at a time, the block requests answered so far and those that are left make up
      the plan for all page requests there were and that arrived, in that order: each is served to its end, block by
      block, before the next one begins. */
  lemma {:induction false} ServedAsPlanned(p: Policy, n: int, s: State, events: seq<Event>)
    requires Single(p, s) && LegalRun(p, n, s, events)
    ensures var s' := Run(p, n, s, events);
            && s'.extents.Keys == s.extents.Keys && AllOk(Coming(events, n), s.extents)
            && Answers(events) + Left(p, s', []) == Left(p, s, Coming(events, n))
    decreases |events|
  {
    hide Plan, Contiguous, Left, Single, Step, Served, Come;
    if events != [] {
      var e := events[0];
      var (s1, s') := (Step(p, n, s, e).0, Run(p, n, s, events));
      ServedAsPlanned(p, n, s1, events[1..]);
      SameKeys(p, n, s, e);
      var more := Coming(events[1..], n);
      StepLeft(p, n, s, e, more);
      Joined(Served(e), Answers(events[1..]), Left(p, s', []));
    }
  }

  lemma SameKeys(p: Policy, n: int, s: State, e: Event)
    requires Single(p, s) && Legal(n, s, e)
    ensures Step(p, n, s, e).0.extents.Keys == s.extents.Keys
    ensures forall q :: AllOk(q, Step(p, n, s, e).0.extents) <==> AllOk(q, s.extents)
  {
    hide Plan, Contiguous, Left;
    StepLeft(p, n, s, e, []);
  }

  /** The page requests of a queue. */
  ghost function Reqs(q: seq<Job>): (r: seq<PageRequest>)
    ensures |r| == |q| && forall i :: 0 <= i < |q| ==> r[i] == q[i].req
  {
    seq(|q|, i requires 0 <= i < |q| => q[i].req)
  }

  ghost function Only(r: Option<PageRequest>): seq<PageRequest> {
    if r.Some? then [r.value] else []
  }

  ghost function Requested(e: Event): seq<PageRequest> {
    if e.Arrive? then [e.req] else []
  }

  lemma StepInOrder(p: Policy, n: int, s: State, e: Event)
    requires Single(p, s) && Legal(n, s, e)
    ensures var (s', r) := Step(p, n, s, e);
            Only(r) + Reqs(s'.queue) == Reqs(s.queue) + Requested(e)
  {
    hide Contiguous, Open, FileEnd, IndexOf, JobsOk;
  }

  ghost function Completed(p: Policy, n: int, s: State, events: seq<Event>): seq<PageRequest>
    requires Single(p, s) && LegalRun(p, n, s, events)
    decreases |events|
  {
    if events == [] then []
    else Only(Step(p, n, s, events[0]).1) + Completed(p, n, Step(p, n, s, events[0]).0, events[1..])
  }

  ghost function Arrivals(events: seq<Event>): seq<PageRequest> {
    if events == [] then [] else Requested(events[0]) + Arrivals(events[1..])
  }

  /** Page requests complete in the order they arrived, none twice and none lost. */
  lemma {:induction false} CompletedInOrder(p: Policy, n: int, s: State, events: seq<Event>)
    requires Single(p, s) && LegalRun(p, n, s, events)
    ensures Completed(p, n, s, events) + Reqs(Run(p, n, s, events).queue) == Reqs(s.queue) + Arrivals(events)
    decreases |events|
  {
    hide Single, Legal, Step, Only, Requested, Reqs;
    if events != [] {
      var e := events[0];
      var (s1, r) := Step(p, n, s, e);
      StepInOrder(p, n, s, e);
      CompletedInOrder(p, n, s1, events[1..]);
      calc {
        Completed(p, n, s, events) + Reqs(Run(p, n, s, events).queue);
        Only(r) + (Completed(p, n, s1, events[1..]) + Reqs(Run(p, n, s1, events[1..]).queue));
        Only(r) + (Reqs(s1.queue) + Arrivals(events[1..]));
        (Only(r) + Reqs(s1.queue)) + Arrivals(events[1..]);
        Reqs(s.queue) + (Requested(e) + Arrivals(events[1..]));
      }
    }
  }
}
