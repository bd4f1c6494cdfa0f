/** The job bridge: an in-memory FIFO work queue through which a remote
    worker pulls conversion jobs. The store is a map from job id to job
    record plus the list of ids in submission order; jobs are never removed.
    Ids and timestamps, which the source draws from `uuid4` and the clock,
    are supplied by the caller. */
module JobBridge {
  import opened Common

  type JobId = string

  datatype JobState = Queued | Running | Done | Failed

  /** Position of a state in the lifecycle QUEUED -> RUNNING -> DONE | FAILED. */
  function Rank(s: JobState): nat
  {
    match s
    case Queued => 0
    case Running => 1
    case Done => 2
    case Failed => 2
  }

  datatype Job = Job(
    id: JobId,
    state: JobState,
    createdAt: string,
    updatedAt: string,
    assignedTo: Option<string>,
    cameraIpSuffix: string,
    workspace: string,
    outdir: string,
    scanIndex: Option<int>,
    ok: Option<bool>,
    exitCode: Option<int>,
    stdout: string,
    stderr: string,
    outputFiles: seq<string>)

  /** The body of a submission; `None` is a missing or null field, except
      for `cameraIpSuffix`, where it is a missing field and any given value
      arrives as its `str` text. */
  datatype Submission = Submission(
    cameraIpSuffix: Option<string>,
    workspace: Option<string>,
    outdir: Option<string>,
    scanIndex: Option<int>)

  /** The body of a completion report; `None` is a missing or null field. */
  datatype Report = Report(
    ok: Option<bool>,
    exitCode: Option<int>,
    stdout: Option<string>,
    stderr: Option<string>,
    outputFiles: Option<seq<string>>)

  datatype BridgeError = InvalidSpec | NotFound

  /** Cap on the stored length of a job's stdout and stderr. */
  const OutputCap: nat := 200000

  /** `s[:cap]` */
  function Truncate(s: string, cap: nat): (r: string)
    ensures |r| <= cap && r <= s
    ensures |s| <= cap ==> r == s
    ensures |s| > cap ==> |r| == cap
  {
    if |s| <= cap then s else s[..cap]
  }

  /** A submission is accepted when both `workspace` and `outdir` are given
      and non-empty. */
  predicate Accepts(sub: Submission)
  {
    sub.workspace.Some? && sub.workspace.value != "" && sub.outdir.Some? && sub.outdir.value != ""
  }

  /** The record of a job that nobody has claimed or completed. */
  predicate Pristine(j: Job)
  {
    && j.state == Queued
    && j.assignedTo == None
    && j.ok == None
    && j.exitCode == None
    && j.stdout == ""
    && j.stderr == ""
    && j.outputFiles == []
  }

  /** The fields fixed at submission. */
  predicate SameInputs(a: Job, b: Job)
  {
    && a.id == b.id
    && a.createdAt == b.createdAt
    && a.cameraIpSuffix == b.cameraIpSuffix
    && a.workspace == b.workspace
    && a.outdir == b.outdir
    && a.scanIndex == b.scanIndex
  }

  /** The job record `bridge_create_job` builds. */
  function NewJob(id: JobId, sub: Submission, now: string): (j: Job)
    requires Accepts(sub)
    ensures Pristine(j) && Consistent(j) && j.id == id
    ensures j.createdAt == now && j.updatedAt == now
    ensures sub.cameraIpSuffix.None? ==> j.cameraIpSuffix == "50"
    ensures sub.cameraIpSuffix.Some? ==> j.cameraIpSuffix == sub.cameraIpSuffix.value
    ensures j.workspace == sub.workspace.value && j.outdir == sub.outdir.value
    ensures j.scanIndex == sub.scanIndex
  {
    Job(id, Queued, now, now, None,
        if sub.cameraIpSuffix.None? then "50" else sub.cameraIpSuffix.value,
        sub.workspace.value, sub.outdir.value, sub.scanIndex,
        None, None, "", "", [])
  }

  /** A job flipped to RUNNING for `worker`. */
  function Claimed(j: Job, worker: string, now: string): (r: Job)
    ensures r.state == Running && r.assignedTo == Some(worker) && r.updatedAt == now
    ensures SameInputs(j, r)
    ensures r.(state := j.state, assignedTo := j.assignedTo, updatedAt := j.updatedAt) == j
  {
    j.(state := Running, assignedTo := Some(worker), updatedAt := now)
  }

  /** A job with the outcome of `rep` recorded, whatever its state was. */
  function Completed(j: Job, rep: Report, now: string): (r: Job)
    ensures SameInputs(j, r) && r.assignedTo == j.assignedTo
    ensures r.ok == Some(rep.ok == Some(true))
    ensures r.state == Done <==> rep.ok == Some(true)
    ensures r.state == Failed <==> rep.ok != Some(true)
    ensures r.exitCode == rep.exitCode
    ensures |r.stdout| <= OutputCap && r.stdout <= OrDefault(rep.stdout, "")
    ensures |r.stderr| <= OutputCap && r.stderr <= OrDefault(rep.stderr, "")
    ensures r.stdout == Truncate(OrDefault(rep.stdout, ""), OutputCap)
    ensures r.stderr == Truncate(OrDefault(rep.stderr, ""), OutputCap)
    ensures r.outputFiles == if rep.outputFiles.None? then [] else rep.outputFiles.value
    ensures r.updatedAt == now
    ensures Rank(j.state) <= Rank(r.state)
  {
    var ok := rep.ok == Some(true);
    j.(ok := Some(ok),
       exitCode := rep.exitCode,
       stdout := Truncate(OrDefault(rep.stdout, ""), OutputCap),
       stderr := Truncate(OrDefault(rep.stderr, ""), OutputCap),
       outputFiles := if rep.outputFiles.None? then [] else rep.outputFiles.value,
       state := if ok then Done else Failed,
       updatedAt := now)
  }

  /** The fields a job's state implies: a queued job is untouched, a running
      one has a worker and no outcome, a finished one has an outcome that
      agrees with its state. */
  predicate Consistent(j: Job)
  {
    && (j.state == Queued ==> Pristine(j))
    && (j.state == Running ==> j.assignedTo.Some? && j.ok == None)
    && (j.state == Done ==> j.ok == Some(true))
    && (j.state == Failed ==> j.ok == Some(false))
  }

  predicate Distinct(queue: seq<JobId>)
  {
    forall i, j :: 0 <= i < j < |queue| ==> queue[i] != queue[j]
  }

  /** Every queue entry names a job filed under that id. */
  predicate Filed(jobs: map<JobId, Job>, queue: seq<JobId>)
  {
    forall i :: 0 <= i < |queue| ==> queue[i] in jobs && jobs[queue[i]].id == queue[i]
  }

  /** The store's invariant: the queue lists every job exactly once (its
      entries are distinct ids of jobs, as many as there are jobs), each job
      is filed under its own id, and each record is consistent. */
  predicate WellFormed(jobs: map<JobId, Job>, queue: seq<JobId>)
  {
    && Filed(jobs, queue)
    && Distinct(queue)
    && |jobs| == |queue|
    && (forall id :: id in jobs ==> jobs[id].id == id && Consistent(jobs[id]))
  }

  /** Nothing went backwards: no job disappeared, none moved to an earlier
      state, and no submitted field changed. */
  predicate Advanced(before: map<JobId, Job>, after: map<JobId, Job>)
  {
    forall id :: id in before ==>
      id in after && Rank(before[id].state) <= Rank(after[id].state) && SameInputs(before[id], after[id])
  }

  predicate IsQueued(jobs: map<JobId, Job>, id: JobId)
  {
    id in jobs && jobs[id].state == Queued
  }

  /** `i` is the position of the first QUEUED job in queue order. */
  predicate FirstQueuedAt(jobs: map<JobId, Job>, queue: seq<JobId>, i: nat)
  {
    i < |queue| && IsQueued(jobs, queue[i]) && forall j :: 0 <= j < i ==> !IsQueued(jobs, queue[j])
  }

  /** The scan of `bridge_next_job` from position `from` on. */
  function FirstQueued(jobs: map<JobId, Job>, queue: seq<JobId>, from: nat): (r: Option<nat>)
    requires from <= |queue|
    ensures r.Some? ==> from <= r.value < |queue| && IsQueued(jobs, queue[r.value])
    ensures r.Some? ==> forall j :: from <= j < r.value ==> !IsQueued(jobs, queue[j])
    ensures r.None? <==> forall j :: from <= j < |queue| ==> !IsQueued(jobs, queue[j])
    decreases |queue| - from
  {
    if from == |queue| then None
    else if IsQueued(jobs, queue[from]) then Some(from)
    else FirstQueued(jobs, queue, from + 1)
  }

  /** One claim by `worker`: the new store and the job handed out, if any. */
  function ClaimStep(jobs: map<JobId, Job>, queue: seq<JobId>, worker: string, now: string)
    : (r: (map<JobId, Job>, Option<Job>))
    ensures r.1.None? <==> forall j :: 0 <= j < |queue| ==> !IsQueued(jobs, queue[j])
    ensures r.1.None? ==> r.0 == jobs
    ensures r.1.Some? ==> r.1.value.state == Running && r.1.value.assignedTo == Some(worker)
    ensures r.0.Keys == jobs.Keys
  {
    match FirstQueued(jobs, queue, 0)
    case None => (jobs, None)
    case Some(i) =>
      var j := Claimed(jobs[queue[i]], worker, now);
      (jobs[queue[i] := j], Some(j))
  }

  /** The `worker` query argument, "unknown" when absent. */
  function WorkerName(worker: Option<string>): (r: string)
    ensures worker.None? ==> r == "unknown"
    ensures worker.Some? ==> r == worker.value
  {
    if worker.None? then "unknown" else worker.value
  }

  /** A claim keeps the store well formed, hands out a job that was QUEUED
      as RUNNING for the claiming worker, and moves nothing backwards. */
  lemma ClaimStepPreserves(jobs: map<JobId, Job>, queue: seq<JobId>, worker: string, now: string)
    requires WellFormed(jobs, queue)
    ensures WellFormed(ClaimStep(jobs, queue, worker, now).0, queue)
    ensures Advanced(jobs, ClaimStep(jobs, queue, worker, now).0)
    ensures ClaimStep(jobs, queue, worker, now).1.Some? ==>
      var j := ClaimStep(jobs, queue, worker, now).1.value;
      && j.id in jobs && jobs[j.id].state == Queued
      && j.state == Running && j.assignedTo == Some(worker)
  {
    match FirstQueued(jobs, queue, 0)
    case None =>
    case Some(i) =>
      var j := Claimed(jobs[queue[i]], worker, now);
      var jobs' := jobs[queue[i] := j];
      assert j.id == queue[i];
      assert |jobs'| == |jobs|;
      forall id | id in jobs'
        ensures jobs'[id].id == id && Consistent(jobs'[id])
      {
      }
  }

  /** Completing a job keeps the store well formed and moves nothing back. */
  lemma CompletePreserves(jobs: map<JobId, Job>, queue: seq<JobId>, id: JobId, rep: Report, now: string)
    requires WellFormed(jobs, queue) && id in jobs
    ensures WellFormed(jobs[id := Completed(jobs[id], rep, now)], queue)
    ensures Advanced(jobs, jobs[id := Completed(jobs[id], rep, now)])
  {
  }

  /** A job handed out once is never handed out again: a second claim,
      whoever makes it, returns a different job or none. */
  lemma ClaimedNeverReclaimed(jobs: map<JobId, Job>, queue: seq<JobId>, w1: string, t1: string, w2: string, t2: string)
    requires WellFormed(jobs, queue)
    ensures
      var (jobs1, first) := ClaimStep(jobs, queue, w1, t1);
      var (_, second) := ClaimStep(jobs1, queue, w2, t2);
      first.Some? && second.Some? ==> first.value.id != second.value.id
  {
  }

  /** The claim takes the job at the first QUEUED position. */
  lemma ClaimAt(jobs: map<JobId, Job>, queue: seq<JobId>, k: nat, worker: string, now: string)
    requires FirstQueuedAt(jobs, queue, k)
    ensures ClaimStep(jobs, queue, worker, now)
      == (jobs[queue[k] := Claimed(jobs[queue[k]], worker, now)], Some(Claimed(jobs[queue[k]], worker, now)))
  {
  }

  /** One poll of `bridge_next_job`. */
  datatype Poll = Poll(worker: string, at: string)

  /** The id of the job a claim handed out, if any. */
  function IdOf(got: Option<Job>): Option<JobId>
  {
    if got.None? then None else Some(got.value.id)
  }

  /** The ids handed out by a sequence of polls, in order. */
  function ClaimedIds(jobs: map<JobId, Job>, queue: seq<JobId>, polls: seq<Poll>): (ids: seq<Option<JobId>>)
    ensures |ids| == |polls|
    decreases |polls|
  {
    if polls == [] then []
    else
      var (jobs', got) := ClaimStep(jobs, queue, polls[0].worker, polls[0].at);
      [IdOf(got)] + ClaimedIds(jobs', queue, polls[1..])
  }

  /** The ids of the QUEUED jobs, in queue order: the jobs still waiting. */
  function Pending(jobs: map<JobId, Job>, queue: seq<JobId>): (p: seq<JobId>)
    ensures |p| <= |queue|
  {
    if queue == [] then []
    else (if IsQueued(jobs, queue[0]) then [queue[0]] else []) + Pending(jobs, queue[1..])
  }

  /** The answers FIFO order prescribes for `n` polls when `pending` are the
      waiting ids: pending[0], pending[1], ... each once, then nothing. */
  function FifoOrder(pending: seq<JobId>, n: nat): (r: seq<Option<JobId>>)
    ensures |r| == n
    decreases n
  {
    if n == 0 then []
    else if pending != [] then [Some(pending[0])] + FifoOrder(pending[1..], n - 1)
    else [None] + FifoOrder(pending, n - 1)
  }

  /** The i-th answer FIFO order prescribes is pending[i], or nothing past
      the end of the waiting jobs. */
  lemma {:induction false} FifoOrderAt(pending: seq<JobId>, n: nat, i: nat)
    requires i < n
    ensures FifoOrder(pending, n)[i] == if i < |pending| then Some(pending[i]) else None
    decreases n
  {
    if i > 0 {
      var rest := if pending != [] then pending[1..] else pending;
      FifoOrderAt(rest, n - 1, i - 1);
      assert FifoOrder(pending, n)[i] == FifoOrder(rest, n - 1)[i - 1];
    }
  }

  /** No id is waiting exactly when no queued id names a QUEUED job. */
  lemma {:induction false} PendingEmpty(jobs: map<JobId, Job>, queue: seq<JobId>)
    ensures Pending(jobs, queue) == [] <==> forall j :: 0 <= j < |queue| ==> !IsQueued(jobs, queue[j])
  {
    if queue != [] {
      PendingEmpty(jobs, queue[1..]);
      assert forall j :: 1 <= j < |queue| ==> queue[j] == queue[1..][j - 1];
    }
  }

  /** Queue positions before the first QUEUED job add nothing. */
  lemma {:induction false} PendingSkip(jobs: map<JobId, Job>, queue: seq<JobId>, i: nat)
    requires i <= |queue| && forall j :: 0 <= j < i ==> !IsQueued(jobs, queue[j])
    ensures Pending(jobs, queue) == Pending(jobs, queue[i..])
  {
    if i > 0 {
      assert queue[1..][i - 1..] == queue[i..];
      PendingSkip(jobs, queue[1..], i - 1);
    }
  }

  /** Only the QUEUED flags of the listed ids matter. */
  lemma {:induction false} PendingSame(jobs: map<JobId, Job>, jobs': map<JobId, Job>, queue: seq<JobId>)
    requires forall j :: 0 <= j < |queue| ==> IsQueued(jobs, queue[j]) == IsQueued(jobs', queue[j])
    ensures Pending(jobs, queue) == Pending(jobs', queue)
  {
    if queue != [] {
      assert forall j :: 0 <= j < |queue[1..]| ==> queue[1..][j] == queue[j + 1];
      PendingSame(jobs, jobs', queue[1..]);
    }
  }

  lemma {:induction false} PendingAppend(jobs: map<JobId, Job>, a: seq<JobId>, b: seq<JobId>)
    ensures Pending(jobs, a + b) == Pending(jobs, a) + Pending(jobs, b)
  {
    if a == [] {
      assert a + b == b;
    } else {
      assert (a + b)[0] == a[0] && (a + b)[1..] == a[1..] + b;
      PendingAppend(jobs, a[1..], b);
    }
  }

  /** The first QUEUED position heads the waiting ids. */
  lemma PendingAtFirst(jobs: map<JobId, Job>, queue: seq<JobId>, k: nat)
    requires FirstQueuedAt(jobs, queue, k)
    ensures Pending(jobs, queue) == [queue[k]] + Pending(jobs, queue[k + 1..])
  {
    PendingSkip(jobs, queue, k);
    assert queue[k..][0] == queue[k] && queue[k..][1..] == queue[k + 1..];
  }

  /** Taking the first QUEUED job out of the QUEUED state leaves the ids
      after it waiting. */
  lemma PendingAfterFlip(jobs: map<JobId, Job>, queue: seq<JobId>, k: nat, c: Job)
    requires Distinct(queue) && FirstQueuedAt(jobs, queue, k) && c.state != Queued
    ensures Pending(jobs[queue[k] := c], queue) == Pending(jobs, queue[k + 1..])
  {
    var jobs' := jobs[queue[k] := c];
    assert forall j :: 0 <= j <= k ==> !IsQueued(jobs', queue[j]);
    PendingSkip(jobs', queue, k + 1);
    var rest := queue[k + 1..];
    forall j | 0 <= j < |rest|
      ensures IsQueued(jobs, rest[j]) == IsQueued(jobs', rest[j])
    {
      assert rest[j] == queue[k + 1 + j];
    }
    PendingSame(jobs, jobs', rest);
  }

  /** A claim on a well-formed store hands out the first waiting id and
      removes exactly that id from the waiting ones. */
  lemma ClaimTakesFirstPending(jobs: map<JobId, Job>, queue: seq<JobId>, worker: string, now: string)
    requires WellFormed(jobs, queue)
    ensures Pending(jobs, queue) == [] ==> ClaimStep(jobs, queue, worker, now) == (jobs, None)
    ensures Pending(jobs, queue) != [] ==>
      && IdOf(ClaimStep(jobs, queue, worker, now).1) == Some(Pending(jobs, queue)[0])
      && Pending(ClaimStep(jobs, queue, worker, now).0, queue) == Pending(jobs, queue)[1..]
  {
    PendingEmpty(jobs, queue);
    var first := FirstQueued(jobs, queue, 0);
    if first.Some? {
      var k := first.value;
      var c := Claimed(jobs[queue[k]], worker, now);
      ClaimAt(jobs, queue, k, worker, now);
      PendingAtFirst(jobs, queue, k);
      PendingAfterFlip(jobs, queue, k, c);
    }
  }

  /** One poll, then the rest. */
  lemma ClaimedIdsUnfold(jobs: map<JobId, Job>, queue: seq<JobId>, polls: seq<Poll>)
    requires polls != []
    ensures ClaimedIds(jobs, queue, polls)
      == [IdOf(ClaimStep(jobs, queue, polls[0].worker, polls[0].at).1)]
         + ClaimedIds(ClaimStep(jobs, queue, polls[0].worker, polls[0].at).0, queue, polls[1..])
  {
  }

  /** FIFO: on any well-formed store, successive polls, by
      any workers, receive the waiting ids in queue order, each once, and
      nothing once none is left. */
  lemma {:induction false} DrainInOrder(jobs: map<JobId, Job>, queue: seq<JobId>, polls: seq<Poll>)
    requires WellFormed(jobs, queue)
    ensures ClaimedIds(jobs, queue, polls) == FifoOrder(Pending(jobs, queue), |polls|)
    decreases |polls|
  {
    if polls != [] {
      var p := polls[0];
      var step := ClaimStep(jobs, queue, p.worker, p.at);
      ClaimTakesFirstPending(jobs, queue, p.worker, p.at);
      ClaimStepPreserves(jobs, queue, p.worker, p.at);
      DrainInOrder(step.0, queue, polls[1..]);
      ClaimedIdsUnfold(jobs, queue, polls);
      assert |polls[1..]| == |polls| - 1;
    }
  }

  /** When every queued job is still QUEUED (as after submissions alone),
      the waiting ids are the whole queue, so N polls on N fresh jobs hand
      them all out in submission order. */
  lemma {:induction false} AllWaiting(jobs: map<JobId, Job>, queue: seq<JobId>)
    requires forall j :: 0 <= j < |queue| ==> IsQueued(jobs, queue[j])
    ensures Pending(jobs, queue) == queue
  {
    if queue != [] {
      assert forall j :: 0 <= j < |queue[1..]| ==> queue[1..][j] == queue[j + 1];
      AllWaiting(jobs, queue[1..]);
    }
  }

  /** A submission joins the waiting ids at the tail. */
  lemma SubmitEnqueues(jobs: map<JobId, Job>, queue: seq<JobId>, id: JobId, job: Job)
    requires Filed(jobs, queue) && id !in jobs && job.state == Queued
    ensures Pending(jobs[id := job], queue + [id]) == Pending(jobs, queue) + [id]
  {
    PendingAppend(jobs[id := job], queue, [id]);
    assert forall j :: 0 <= j < |queue| ==> queue[j] != id;
    PendingSame(jobs, jobs[id := job], queue);
    assert [id][1..] == [];
  }

  /** Filing a new consistent job under a fresh id at the back of the queue
      keeps the store well formed and moves nothing back. */
  lemma SubmitPreserves(jobs: map<JobId, Job>, queue: seq<JobId>, id: JobId, job: Job)
    requires WellFormed(jobs, queue) && id !in jobs && job.id == id && Consistent(job)
    ensures WellFormed(jobs[id := job], queue + [id])
    ensures Advanced(jobs, jobs[id := job])
  {
    var jobs', queue' := jobs[id := job], queue + [id];
    assert forall i :: 0 <= i < |queue| ==> queue'[i] == queue[i] && queue[i] != id;
    assert Filed(jobs', queue');
    assert Distinct(queue');
    assert |jobs'| == |jobs| + 1;
  }

  /** Reporting twice keeps only the last report: a repeated completion of
      a DONE or FAILED job overwrites its outcome, even from DONE to FAILED. */
  lemma LastReportWins(j: Job, first: Report, second: Report, t1: string, t2: string)
    ensures Completed(Completed(j, first, t1), second, t2) == Completed(j, second, t2)
  {
  }

  /** The store of the job bridge, updated in place by the four endpoints. */
  class Bridge {
    var jobs: map<JobId, Job>
    var queue: seq<JobId>

    ghost predicate Valid()
      reads this
    {
      WellFormed(jobs, queue)
    }

    constructor ()
      ensures Valid() && jobs == map[] && queue == []
    {
      jobs := map[];
      queue := [];
    }

    /** `bridge_create_job`; `id` is the freshly drawn uuid. */
    method Submit(id: JobId, sub: Submission, now: string) returns (r: Result<Job, BridgeError>)
      requires Valid() && id !in jobs
      modifies this
      ensures Valid() && Advanced(old(jobs), jobs)
      ensures !Accepts(sub) ==> r == Failure(InvalidSpec) && jobs == old(jobs) && queue == old(queue)
      ensures Accepts(sub) ==>
        && r.Success? && r.value == NewJob(id, sub, now)
        && jobs == old(jobs)[id := r.value] && queue == old(queue) + [id]
        && Pending(jobs, queue) == Pending(old(jobs), old(queue)) + [id]
    {
      if sub.workspace.None? || sub.workspace.value == "" || sub.outdir.None? || sub.outdir.value == "" {
        return Failure(InvalidSpec);
      }
      var job := NewJob(id, sub, now);
      SubmitPreserves(jobs, queue, id, job);
      SubmitEnqueues(jobs, queue, id, job);
      jobs := jobs[id := job];
      queue := queue + [id];
      r := Success(job);
    }

    /** `bridge_next_job`: hand the first QUEUED job to `worker`. */
    method Claim(worker: Option<string>, now: string) returns (r: Option<Job>)
      requires Valid()
      modifies this
      ensures Valid() && queue == old(queue) && Advanced(old(jobs), jobs)
      ensures (jobs, r) == ClaimStep(old(jobs), queue, WorkerName(worker), now)
    {
      var name := WorkerName(worker);
      var i := 0;
      while i < |queue|
        invariant 0 <= i <= |queue|
        invariant forall j :: 0 <= j < i ==> !IsQueued(jobs, queue[j])
        invariant jobs == old(jobs)
      {
        var id := queue[i];
        if id in jobs && jobs[id].state == Queued {
          ClaimAt(jobs, queue, i, name, now);
          ClaimStepPreserves(jobs, queue, name, now);
          var job := Claimed(jobs[id], name, now);
          jobs := jobs[id := job];
          return Some(job);
        }
        i := i + 1;
      }
      ClaimStepPreserves(jobs, queue, name, now);
      return None;
    }

    /** `bridge_complete_job` */
    method Complete(id: JobId, rep: Report, now: string) returns (r: Result<Job, BridgeError>)
      requires Valid()
      modifies this
      ensures Valid() && queue == old(queue) && Advanced(old(jobs), jobs)
      ensures id !in old(jobs) ==> r == Failure(NotFound) && jobs == old(jobs)
      ensures id in old(jobs) ==>
        r == Success(Completed(old(jobs)[id], rep, now)) && jobs == old(jobs)[id := r.value]
    {
      if id !in jobs {
        return Failure(NotFound);
      }
      CompletePreserves(jobs, queue, id, rep, now);
      var job := Completed(jobs[id], rep, now);
      jobs := jobs[id := job];
      r := Success(job);
    }

    /** `bridge_get_job` */
    method Get(id: JobId) returns (r: Result<Job, BridgeError>)
      requires Valid()
      ensures r.Success? <==> id in jobs
      ensures r.Failure? ==> r.error == NotFound
      ensures r.Success? ==> r.value == jobs[id] && r.value.id == id
    {
      if id !in jobs {
        return Failure(NotFound);
      }
      r := Success(jobs[id]);
    }
  }
}
