/** The local file system object: page requests become block requests, extent by extent. */
module Ext3 {
  import opened Options
  import opened Extents
  import opened Ext3Model

  class Ext3 {
    const degree: int
    const blocksPerPage: int
    const policy: Policy
    var extents: map<int, seq<Extent>>
    var queue: seq<Job>
    var outstanding: int

    function Abs(): State
      reads this
    {
      State(extents, queue, outstanding)
    }

    ghost predicate Valid()
      reads this
    {
      Ok(policy, Abs())
    }

    constructor (degree: int, pageSize: int, blkSize: int, policy: Policy, extents: map<int, seq<Extent>>)
      requires blkSize > 0 && ExtentsOk(policy, extents)
      ensures Valid() && Abs() == State(extents, [], 0)
      ensures this.degree == degree && this.policy == policy && blocksPerPage == pageSize / blkSize
    {
      this.degree, this.policy, this.extents, queue, outstanding := degree, policy, extents, [], 0;
      blocksPerPage := pageSize / blkSize;
    }

    method NewReq(req: PageRequest)
      requires Valid() && MayEnqueue(Abs(), req, blocksPerPage)
      modifies this`queue
      ensures Valid() && Abs() == Enqueue(old(Abs()), req, blocksPerPage)
    {
      EnqueueKeeps(policy, Abs(), req, blocksPerPage);
      var start, end := req.pageStart * blocksPerPage, req.pageEnd * blocksPerPage;
      queue := queue + [Job(req, false, start, end, 0, 0)];
    }

    /** The extent of block `start`, a new one if the block is the next of the file. */
    method ExtentFor(fid: int, start: int) returns (index: int)
      requires policy.size > 0 && fid in extents && Contiguous(extents[fid])
      requires start >= 0 && |extents[fid]| < MAX_EXT_ENTRY_NUM
      modifies this`extents
      ensures var ext := old(extents)[fid];
              if start > FileEnd(ext) then index == -1 && extents == old(extents)
              else
                var ext' := Open(policy, ext, start);
                extents == old(extents)[fid := ext'] && index == IndexOf(ext', start)
    {
      hide IndexOf;
      var ext := extents[fid];
      index := FindExtEntry(ext, start);
      if index < 0 {
        return;
      }
      if index == |ext| {
        AppendedIsContiguous(policy, ext);
        var phystart := if index == 0 then policy.gap else ext[index - 1].phystart + policy.gap;
        extents := extents[fid := ext + [Extent(start, phystart, policy.size, false)]];
      }
      IndexIs(extents[fid], start, index);
      assert extents == old(extents)[fid := extents[fid]];
    }

    /** The request for the metadata of the extent, or for data once that has been read. */
    method RequestFor(job: Job, ghost ext: seq<Extent>, x: Extent) returns (r: BlkRequest)
      requires IndexOf(ext, job.start) < |ext| && x == ext[IndexOf(ext, job.start)]
      ensures r == ToBlocks(job.req, ext, Next(ext, job.start, job.end))
    {
      var off := job.start - x.logistart;
      var start, end, subid;
      if !x.accessed {
        start := x.phystart - 1;
        end := start + 1;
        subid := job.req.subid;
      } else {
        start := x.phystart + off;
        end := job.end - job.start + start;
        if end > x.phystart + x.length {
          end := x.phystart + x.length;
        }
        subid := job.req.subid + 1 * LFS_SUB_ID_BASE;
      }
      r := BlkRequest(job.req.id, subid, job.req.fid, start, end, job.req.read);
    }

    /** Takes up the first request that is not pending; the response to what it sends finds that request again. */
    method DispatchNext() returns (r: Option<BlkRequest>)
      requires Valid()
      requires forall fid :: fid in extents ==> |extents[fid]| < MAX_EXT_ENTRY_NUM
      modifies this
      ensures Valid() && (Abs(), r) == Dispatch(policy, degree, old(Abs()))
      ensures r.Some? ==>
                var k := Answered(queue, r.value);
                k == Ready(old(queue)) < |queue| && InFlight(extents, queue[k], r.value)
    {
      if outstanding >= degree {
        return None;
      }
      var k := FirstReady();
      if k == |queue| {
        return None;
      }
      DispatchKeeps(policy, Abs(), k);
      r := SendFor(k);
    }

    method FirstReady() returns (k: nat)
      ensures k == Ready(queue)
    {
      k := 0;
      while k < |queue| && queue[k].pending
        invariant 0 <= k <= |queue| && forall i :: 0 <= i < k ==> queue[i].pending
      {
        k := k + 1;
      }
      ReadyIs(queue, k);
    }

    method SendFor(k: nat) returns (r: Option<BlkRequest>)
      requires Valid() && k < |queue|
      requires forall fid :: fid in extents ==> |extents[fid]| < MAX_EXT_ENTRY_NUM
      modifies this
      ensures (Abs(), r) == DispatchJob(policy, old(Abs()), k)
    {
      hide Open, IndexOf, ToBlocks, JobsOk, Contiguous;
      JobIn(queue, extents, k);
      var job := queue[k];
      outstanding := outstanding + 1;
      job := job.(pending := true);
      var fid := job.req.fid;
      var index := ExtentFor(fid, job.start);
      if index < 0 {
        queue := queue[k := job];
        return None;
      }
      var x := extents[fid][index];
      var off := job.start - x.logistart;
      job := job.(index := index, off := off);
      var b := RequestFor(job, extents[fid], x);
      queue := queue[k := job];
      r := Some(b);
    }

    /** Takes a response; metadata is told from data by its place and size. */
    method FinishedReq(b: BlkRequest) returns (r: Option<PageRequest>)
      requires Valid()
      requires var k := Answered(queue, b); k < |queue| ==> InFlight(extents, queue[k], b)
      modifies this
      ensures Valid() && (Abs(), r) == Finish(old(Abs()), b)
    {
      var k := FindJob(b.id, b.subid / VFS_SUB_ID_BASE * VFS_SUB_ID_BASE);
      if k == |queue| {
        return None;
      }
      FinishKeeps(policy, Abs(), k, b);
      r := Complete(k, b);
    }

    method FindJob(id: int, subid: int) returns (k: nat)
      ensures k == Find(queue, id, subid)
    {
      k := 0;
      while k < |queue| && !(queue[k].req.id == id && queue[k].req.subid == subid)
        invariant 0 <= k <= |queue|
        invariant forall i :: 0 <= i < k ==> !(queue[i].req.id == id && queue[i].req.subid == subid)
      {
        k := k + 1;
      }
      FindIs(queue, id, subid, k);
    }

    method Complete(k: nat, b: BlkRequest) returns (r: Option<PageRequest>)
      requires Valid() && k < |queue| && InFlight(extents, queue[k], b)
      modifies this
      ensures (Abs(), r) == FinishJob(old(Abs()), k, b)
    {
      hide IndexOf, JobsOk, Contiguous;
      JobIn(queue, extents, k);
      var job := queue[k].(pending := false);
      outstanding := outstanding - 1;
      var fid := b.fid;
      var ext := extents[fid];
      if ext[job.index].accessed {
        DataAdvances(ext, job.start, job.end);
      }
      if ext[job.index].phystart - 1 == b.start && b.end - b.start == 1 {
        extents := extents[fid := ext[job.index := ext[job.index].(accessed := true)]];
        queue := queue[k := job];
        return None;
      }
      job := job.(start := job.start + (b.end - b.start));
      if job.start == job.end {
        queue := queue[..k] + queue[k + 1..];
        r := Some(job.req);
      } else {
        queue := queue[k := job];
        r := None;
      }
    }
  }
}
