/** The job table and its service. */
module Jobs {
  import Orders
  import opened JsonTree

  type JobId = nat
  type Time = int

  datatype Status = Pending | Running | Success | Failed

  datatype Job = Job(
    jobType: string, status: Status, createdAt: Time, startedAt: Option<Time>, finishedAt: Option<Time>)

  type Table = map<JobId, Job>

  /** A row of evidence. Discovery also writes progress rows, with status Running. */
  datatype Result = Result(jobId: JobId, status: Status, nodeId: Option<nat>, message: string)

  predicate IsPending(jobs: Table, id: JobId) {
    id in jobs && jobs[id].status == Pending
  }

  // ---------- what each statement does to the table ----------

  function Started(jobs: Table, id: JobId, now: Time): Table
    requires id in jobs
  {
    jobs[id := jobs[id].(status := Running, startedAt := Some(now))]
  }

  function Finished(jobs: Table, id: JobId, success: bool, now: Time): Table
    requires id in jobs
  {
    jobs[id := jobs[id].(status := if success then Success else Failed, finishedAt := Some(now))]
  }

  /** The compare-and-set: only a pending row changes. */
  function Claimed(jobs: Table, id: JobId, now: Time): Table {
    if IsPending(jobs, id) then Started(jobs, id, now) else jobs
  }

  function Anchor(job: Job): Time {
    if job.startedAt.Some? then job.startedAt.value else job.createdAt
  }

  /** Whether a recovery pass takes this job: with a cutoff, only when its anchor lies before it. */
  predicate Stale(job: Job, cutoff: Option<Time>, includePending: bool) {
    && (job.status == Running || (includePending && job.status == Pending))
    && (cutoff.Some? ==> Anchor(job) < cutoff.value)
  }

  function Recovered(jobs: Table, cutoff: Option<Time>, includePending: bool, now: Time): Table {
    map id | id in jobs ::
      if Stale(jobs[id], cutoff, includePending) then jobs[id].(status := Failed, finishedAt := Some(now)) else jobs[id]
  }

  // ---------- the candidate snapshot ----------

  const CANDIDATES: nat := 20

  /** The oldest pending jobs, at most twenty, oldest first; ties in any order. */
  ghost predicate IsSnapshot(jobs: Table, ids: seq<JobId>) {
    && Distinct(ids) && |ids| <= CANDIDATES
    && (forall i | 0 <= i < |ids| :: IsPending(jobs, ids[i]))
    && (forall i, j | 0 <= i < j < |ids| :: jobs[ids[i]].createdAt <= jobs[ids[j]].createdAt)
    && (forall id, i | IsPending(jobs, id) && id !in ids && 0 <= i < |ids| ::
        jobs[ids[i]].createdAt <= jobs[id].createdAt)
    && (|ids| < CANDIDATES ==> forall id | IsPending(jobs, id) :: id in ids)
  }

  lemma SnapshotIs(jobs: Table, ids: seq<JobId>)
    requires IsSnapshot(jobs, ids)
    ensures |ids| <= 20 && Distinct(ids) && forall id | id in ids :: id in jobs && jobs[id].status == Pending
    ensures |ids| < 20 ==> forall id | id in jobs && jobs[id].status == Pending :: id in ids
    ensures forall i, j | 0 <= i < j < |ids| :: jobs[ids[i]].createdAt <= jobs[ids[j]].createdAt
    ensures forall id, i | id in jobs && jobs[id].status == Pending && id !in ids && 0 <= i < |ids| ::
              jobs[ids[i]].createdAt <= jobs[id].createdAt
  {
    assert forall id | id in jobs && jobs[id].status == Pending :: IsPending(jobs, id);
  }

  lemma OldestExists(jobs: Table, among: set<JobId>)
    requires among != {} && among <= jobs.Keys
    ensures exists id :: id in among && forall other | other in among :: jobs[id].createdAt <= jobs[other].createdAt
  {
    var atMost := (a: JobId, b: JobId) => a in jobs && b in jobs && jobs[a].createdAt <= jobs[b].createdAt;
    Orders.LeastExists(among, atMost);
    var id :| id in among && forall other | other in among :: atMost(id, other);
    assert forall other | other in among :: atMost(id, other) && jobs[id].createdAt <= jobs[other].createdAt;
  }

  class JobsService {
    var jobs: Table
    var results: seq<Result>

    constructor ()
      ensures jobs == map[] && results == []
    {
      jobs, results := map[], [];
    }

    method Create(id: JobId, jobType: string, now: Time)
      requires id !in jobs
      modifies this`jobs
      ensures jobs == old(jobs)[id := Job(jobType, Pending, now, None, None)]
    {
      jobs := jobs[id := Job(jobType, Pending, now, None, None)];
    }

    method Start(id: JobId, now: Time) returns (found: bool)
      modifies this`jobs
      ensures found == (id in old(jobs))
      ensures jobs == if found then old(jobs)[id := old(jobs)[id].(status := Running, startedAt := Some(now))]
                      else old(jobs)
    {
      found := id in jobs;
      if found {
        jobs := Started(jobs, id, now);
      }
    }

    method Finish(id: JobId, success: bool, now: Time) returns (found: bool)
      modifies this`jobs
      ensures found == (id in old(jobs))
      ensures jobs == if !found then old(jobs)
                      else old(jobs)[id := old(jobs)[id].(status := if success then Success else Failed,
                                                          finishedAt := Some(now))]
    {
      found := id in jobs;
      if found {
        jobs := Finished(jobs, id, success, now);
      }
    }

    method AddResult(id: JobId, status: Status, nodeId: Option<nat>, message: string)
      modifies this`results
      ensures results == old(results) + [Result(id, status, nodeId, message)]
    {
      results := results + [Result(id, status, nodeId, message)];
    }

    method Candidates() returns (ids: seq<JobId>)
      ensures IsSnapshot(jobs, ids)
    {
      ids := [];
      var left := set id | id in jobs && IsPending(jobs, id);
      while left != {} && |ids| < CANDIDATES
        invariant Distinct(ids) && |ids| <= CANDIDATES
        invariant left <= jobs.Keys
        invariant forall id :: id in left <==> IsPending(jobs, id) && id !in ids
        invariant forall i | 0 <= i < |ids| :: IsPending(jobs, ids[i])
        invariant forall i, j | 0 <= i < j < |ids| :: jobs[ids[i]].createdAt <= jobs[ids[j]].createdAt
        invariant forall id, i | id in left && 0 <= i < |ids| :: jobs[ids[i]].createdAt <= jobs[id].createdAt
        decreases left
      {
        OldestExists(jobs, left);
        var next :| next in left && forall other | other in left :: jobs[next].createdAt <= jobs[other].createdAt;
        ids := ids + [next];
        left := left - {next};
      }
    }

    /** The statement of the claim loop: the number of rows it changed. */
    method TryClaim(id: JobId, now: Time) returns (rowcount: nat)
      modifies this`jobs
      ensures rowcount == 1 <==> id in old(jobs) && old(jobs)[id].status == Pending
      ensures rowcount == 1 ==> jobs == old(jobs)[id := old(jobs)[id].(status := Running, startedAt := Some(now))]
      ensures rowcount != 1 ==> rowcount == 0 && jobs == old(jobs)
    {
      rowcount := if IsPending(jobs, id) then 1 else 0;
      jobs := Claimed(jobs, id, now);
    }

    /** With nobody else at the table, a claim takes a job that no pending job is older than, and
        comes back empty-handed exactly when nothing is pending. */
    method ClaimNextPendingId(now: Time) returns (claimed: Option<JobId>)
      modifies this`jobs
      ensures claimed.None? <==> forall id | id in old(jobs) :: old(jobs)[id].status != Pending
      ensures claimed.None? ==> jobs == old(jobs)
      ensures claimed.Some? ==>
                && claimed.value in old(jobs) && old(jobs)[claimed.value].status == Pending
                && (forall id | id in old(jobs) && old(jobs)[id].status == Pending ::
                    old(jobs)[claimed.value].createdAt <= old(jobs)[id].createdAt)
                && jobs == old(jobs)[claimed.value := old(jobs)[claimed.value].(status := Running,
                                                                                startedAt := Some(now))]
    {
      var ids := Candidates();
      SnapshotIs(jobs, ids);
      for i := 0 to |ids|
        invariant i == 0 && jobs == old(jobs)
      {
        var rowcount := TryClaim(ids[i], now);
        if rowcount == 1 {
          forall id | IsPending(old(jobs), id)
            ensures old(jobs)[ids[0]].createdAt <= old(jobs)[id].createdAt
          {
            if id in ids {
              var j :| 0 <= j < |ids| && ids[j] == id;
            }
          }
          return Some(ids[i]);
        }
      }
      return None;
    }

    /** One failed evidence row for each job taken, and no other change; nothing is committed when
        no job was taken. */
    method RecoverStaleRunningJobs(cutoff: Option<Time>, includePending: bool, now: Time) returns (recovered: nat)
      modifies this
      ensures jobs == Recovered(old(jobs), cutoff, includePending, now)
      ensures jobs.Keys == old(jobs).Keys && forall id | id in old(jobs) ::
                var job := old(jobs)[id];
                var anchor := if job.startedAt.Some? then job.startedAt.value else job.createdAt;
                jobs[id] ==
                if (job.status == Running || (includePending && job.status == Pending)) &&
                   (cutoff.None? || anchor < cutoff.value)
                then job.(status := Failed, finishedAt := Some(now)) else job
      ensures var changed := Changed(old(jobs), jobs);
              && recovered == |changed| && |results| == |old(results)| + recovered && old(results) <= results
              && RecoveryRows(results[|old(results)|..], changed)
    {
      var table, rows := FailStale(jobs, cutoff, includePending, now);
      recovered := |rows|;
      RecoveredAreChanged(jobs, cutoff, includePending, now);
      assert (results + rows)[|results|..] == rows && results[|results|..] == [];
      if recovered > 0 {
        jobs, results := table, results + rows;
      }
    }
  }

  /** The recovery loop over the selected rows, before its commit. */
  method FailStale(jobs: Table, cutoff: Option<Time>, includePending: bool, now: Time)
    returns (table: Table, rows: seq<Result>)
    ensures table == Recovered(jobs, cutoff, includePending, now)
    ensures |rows| == |StaleJobs(jobs, cutoff, includePending)| &&
            RecoveryRows(rows, StaleJobs(jobs, cutoff, includePending))
    ensures rows == [] ==> table == jobs
  {
    table, rows := jobs, [];
    var left := Unfinished(jobs, includePending);
    ghost var stale := StaleJobs(jobs, cutoff, includePending);
    FailedNone(jobs, now);
    assert stale - left == {};
    while left != {}
      invariant left <= Unfinished(jobs, includePending)
      invariant Failing(jobs, stale - left, now, table, rows)
    {
      var id := Orders.AnyOf(left);
      TakenNext(jobs, cutoff, includePending, left, id);
      var anchor := Anchor(jobs[id]);
      if cutoff.None? || anchor < cutoff.value {
        FailedOneMore(jobs, stale - left, id, now, table, rows);
        table := table[id := jobs[id].(status := Failed, finishedAt := Some(now))];
        rows := rows + [Result(id, Failed, None, "Recovered stale job during startup")];
      }
      left := left - {id};
    }
    assert stale - left == stale;
    StaleAreRecovered(jobs, cutoff, includePending, now);
    assert rows == [] ==> stale == {};
  }

  lemma TakenNext(jobs: Table, cutoff: Option<Time>, includePending: bool, left: set<JobId>, id: JobId)
    requires left <= Unfinished(jobs, includePending) && id in left
    ensures var stale := StaleJobs(jobs, cutoff, includePending);
            stale - (left - {id}) ==
            if cutoff.None? || Anchor(jobs[id]) < cutoff.value then (stale - left) + {id} else stale - left
  {
    assert id in StaleJobs(jobs, cutoff, includePending) <==> Stale(jobs[id], cutoff, includePending);
  }

  /** The table and the evidence once the jobs in `taken` have been failed. */
  ghost predicate Failing(jobs: Table, taken: set<JobId>, now: Time, table: Table, rows: seq<Result>) {
    table == FailedJobs(jobs, taken, now) && |rows| == |taken| && RecoveryRows(rows, taken)
  }

  function Unfinished(jobs: Table, includePending: bool): set<JobId> {
    set id | id in jobs && (jobs[id].status == Running || (includePending && jobs[id].status == Pending))
  }

  function StaleJobs(jobs: Table, cutoff: Option<Time>, includePending: bool): set<JobId> {
    set id | id in jobs && Stale(jobs[id], cutoff, includePending)
  }

  function FailedJobs(jobs: Table, taken: set<JobId>, now: Time): Table {
    map id | id in jobs :: if id in taken then jobs[id].(status := Failed, finishedAt := Some(now)) else jobs[id]
  }

  lemma FailedNone(jobs: Table, now: Time)
    ensures FailedJobs(jobs, {}, now) == jobs
  {
  }

  lemma StaleAreRecovered(jobs: Table, cutoff: Option<Time>, includePending: bool, now: Time)
    ensures FailedJobs(jobs, StaleJobs(jobs, cutoff, includePending), now) ==
            Recovered(jobs, cutoff, includePending, now)
  {
  }

  function Changed(before: Table, after: Table): set<JobId> {
    set id | id in before && id in after && before[id] != after[id]
  }

  lemma RecoveredAreChanged(jobs: Table, cutoff: Option<Time>, includePending: bool, now: Time)
    ensures Changed(jobs, Recovered(jobs, cutoff, includePending, now)) == StaleJobs(jobs, cutoff, includePending)
  {
  }

  lemma RecoveryRowsOneMore(rows: seq<Result>, ids: set<JobId>, id: JobId)
    requires RecoveryRows(rows, ids) && id !in ids
    ensures RecoveryRows(rows + [Result(id, Failed, None, "Recovered stale job during startup")], ids + {id})
  {
    var next := rows + [Result(id, Failed, None, "Recovered stale job during startup")];
    forall other | other in ids + {id}
      ensures exists i :: 0 <= i < |next| && next[i].jobId == other
    {
      if other == id {
        assert next[|rows|].jobId == other;
      } else {
        var i :| 0 <= i < |rows| && rows[i].jobId == other;
        assert next[i].jobId == other;
      }
    }
  }

  lemma FailedOneMore(jobs: Table, taken: set<JobId>, id: JobId, now: Time, table: Table, rows: seq<Result>)
    requires id in jobs && id !in taken && Failing(jobs, taken, now, table, rows)
    ensures Failing(jobs, taken + {id}, now, table[id := jobs[id].(status := Failed, finishedAt := Some(now))],
                    rows + [Result(id, Failed, None, "Recovered stale job during startup")])
  {
    RecoveryRowsOneMore(rows, taken, id);
    assert FailedJobs(jobs, taken + {id}, now) == table[id := jobs[id].(status := Failed, finishedAt := Some(now))];
  }

  /** Exactly one failed row for each of the jobs. */
  ghost predicate RecoveryRows(rows: seq<Result>, ids: set<JobId>) {
    && (forall i | 0 <= i < |rows| :: rows[i].status == Failed && rows[i].jobId in ids)
    && (forall i, j | 0 <= i < j < |rows| :: rows[i].jobId != rows[j].jobId)
    && (forall id | id in ids :: exists i :: 0 <= i < |rows| && rows[i].jobId == id)
  }
}
