/** The job runners: what they write as evidence, and the status they end with. */
module Runners {
  import opened JsonTree
  import opened Jobs
  import opened Text

  /** What a call into another service came back with. */
  datatype Call<T> = Returned(value: T) | Raised(message: string)

  type NodeId = nat

  // ---------- evidence ----------

  predicate HasFailure(results: seq<Result>, id: JobId) {
    results != [] &&
    var n := |results| - 1;
    ((results[n].jobId == id && results[n].status == Failed) || HasFailure(results[..n], id))
  }

  lemma {:induction false} HasFailureMeans(results: seq<Result>, id: JobId)
    ensures HasFailure(results, id) <==> exists r :: r in results && r.jobId == id && r.status == Failed
  {
    if results != [] {
      var n := |results| - 1;
      HasFailureMeans(results[..n], id);
      assert results == results[..n] + [results[n]];
      if r :| r in results && r.jobId == id && r.status == Failed {
        assert r in results[..n] || r == results[n];
      }
    }
  }

  /** The job has ended, and in success exactly when no failed row speaks of it. */
  predicate Agrees(jobs: Table, results: seq<Result>, id: JobId) {
    id in jobs && jobs[id].status == if HasFailure(results, id) then Failed else Success
  }

  /** Evidence is only appended, and all that is new is about the job. */
  predicate Appends(results: seq<Result>, results': seq<Result>, id: JobId) {
    results <= results' && forall i | |results| <= i < |results'| :: results'[i].jobId == id
  }

  /** A runner touches one job and appends evidence for that job only. */
  predicate OnlyThisJob(jobs: Table, results: seq<Result>, jobs': Table, results': seq<Result>, id: JobId) {
    && jobs'.Keys == jobs.Keys && (forall other | other in jobs && other != id :: jobs'[other] == jobs[other])
    && Appends(results, results', id)
  }

  lemma RowsAppend(results: seq<Result>, rows: seq<Result>, id: JobId)
    requires forall i | 0 <= i < |rows| :: rows[i].jobId == id
    ensures Appends(results, results + rows, id)
  {
  }

  lemma FailureAppended(results: seq<Result>, row: Result, id: JobId)
    ensures HasFailure(results + [row], id) <==> HasFailure(results, id) || (row.jobId == id && row.status == Failed)
    ensures row.jobId == id ==> Appends(results, results + [row], id)
  {
    assert (results + [row])[..|results|] == results;
  }

  method Note(svc: JobsService, id: JobId, status: Status, nodeId: Option<NodeId>, message: string)
    modifies svc
    ensures svc.jobs == old(svc.jobs) && svc.results == old(svc.results) + [Result(id, status, nodeId, message)]
    ensures HasFailure(svc.results, id) == (HasFailure(old(svc.results), id) || status == Failed)
    ensures Appends(old(svc.results), svc.results, id)
  {
    svc.AddResult(id, status, nodeId, message);
    FailureAppended(old(svc.results), Result(id, status, nodeId, message), id);
  }

  /** The outer exception handler every runner has. */
  method Abandon(svc: JobsService, id: JobId, message: string, now: Time)
    requires id in svc.jobs
    modifies svc
    ensures Agrees(svc.jobs, svc.results, id)
    ensures svc.jobs == old(svc.jobs)[id := old(svc.jobs)[id].(status := Failed, finishedAt := Some(now))]
    ensures svc.results == old(svc.results) + [Result(id, Failed, None, message)]
    ensures OnlyThisJob(old(svc.jobs), old(svc.results), svc.jobs, svc.results, id)
  {
    Note(svc, id, Failed, None, message);
    var _ := svc.Finish(id, false, now);
  }

  /** `finish`, then the audit call, whose exception still lands in the outer handler. */
  method Conclude(svc: JobsService, id: JobId, success: bool, audit: Call<()>, now: Time)
    requires id in svc.jobs && success == !HasFailure(svc.results, id)
    modifies svc
    ensures Agrees(svc.jobs, svc.results, id)
    ensures OnlyThisJob(old(svc.jobs), old(svc.results), svc.jobs, svc.results, id)
    ensures var status := if success && audit.Returned? then Success else Failed;
            svc.jobs == old(svc.jobs)[id := old(svc.jobs)[id].(status := status, finishedAt := Some(now))]
    ensures svc.results == old(svc.results) + if audit.Raised? then [Result(id, Failed, None, audit.message)] else []
  {
    var _ := svc.Finish(id, success, now);
    if audit.Raised? {
      Abandon(svc, id, audit.message, now);
    }
  }

  /** A runner that leaves one row about its outcome. */
  method NoteAndConclude(svc: JobsService, id: JobId, success: bool, nodeId: Option<NodeId>, message: string,
                         audit: Call<()>, now: Time)
    requires id in svc.jobs && !HasFailure(svc.results, id)
    modifies svc
    ensures Agrees(svc.jobs, svc.results, id)
    ensures OnlyThisJob(old(svc.jobs), old(svc.results), svc.jobs, svc.results, id)
    ensures svc.jobs[id].status == Success <==> success && audit.Returned?
    ensures old(svc.results) + [Result(id, if success then Success else Failed, nodeId, message)] <= svc.results
  {
    Note(svc, id, if success then Success else Failed, nodeId, message);
    Conclude(svc, id, success, audit, now);
  }

  // ---------- node database mutations ----------

  /** One target's answer: done, a provider error (noted), or any other exception (propagated). */
  datatype Answer = Done | ProviderError(message: string) | OtherError(message: string)

  /** What the i-th target answers; beyond the list all goes well. */
  function AnswerTo(answers: seq<Answer>, i: nat): Answer {
    if i < |answers| then answers[i] else Done
  }

  datatype Mutation = Mutation(applied: seq<string>, failures: seq<string>)

  /** `whole` is made of `a` and `b`, each in its own order. */
  predicate Interleaves<T(==)>(a: seq<T>, b: seq<T>, whole: seq<T>)
    decreases |whole|
  {
    if whole == [] then a == [] && b == []
    else
      var n := |whole| - 1;
      || (a != [] && a[|a| - 1] == whole[n] && Interleaves(a[..|a| - 1], b, whole[..n]))
      || (b != [] && b[|b| - 1] == whole[n] && Interleaves(a, b[..|b| - 1], whole[..n]))
  }

  lemma InterleavesMore<T>(a: seq<T>, b: seq<T>, whole: seq<T>, x: T)
    requires Interleaves(a, b, whole)
    ensures Interleaves(a + [x], b, whole + [x]) && Interleaves(a, b + [x], whole + [x])
  {
    assert (whole + [x])[..|whole|] == whole;
    assert (a + [x])[..|a|] == a && (b + [x])[..|b|] == b;
  }

  lemma {:induction false} InterleavesCounts<T>(a: seq<T>, b: seq<T>, whole: seq<T>)
    requires Interleaves(a, b, whole)
    ensures |a| + |b| == |whole| && multiset(a) + multiset(b) == multiset(whole)
    decreases |whole|
  {
    if whole != [] {
      var n := |whole| - 1;
      assert whole == whole[..n] + [whole[n]];
      if a != [] && a[|a| - 1] == whole[n] && Interleaves(a[..|a| - 1], b, whole[..n]) {
        assert a == a[..|a| - 1] + [whole[n]];
        InterleavesCounts(a[..|a| - 1], b, whole[..n]);
      } else {
        assert b == b[..|b| - 1] + [whole[n]];
        InterleavesCounts(a, b[..|b| - 1], whole[..n]);
      }
    }
  }

  /** Where the first `n` targets are, none of which met any other error. */
  ghost predicate Sorted(targets: seq<string>, answers: seq<Answer>, n: nat, applied: seq<string>,
                         failures: seq<string>)
    requires n <= |targets|
  {
    && Interleaves(applied, failures, targets[..n])
    && (forall j | 0 <= j < n :: !AnswerTo(answers, j).OtherError?)
    && (failures == [] <==> forall j | 0 <= j < n :: AnswerTo(answers, j).Done?)
    && (forall t :: t in failures <==>
          exists j :: 0 <= j < n && targets[j] == t && AnswerTo(answers, j).ProviderError?)
  }

  lemma SortedNext(targets: seq<string>, answers: seq<Answer>, n: nat, applied: seq<string>, failures: seq<string>)
    requires n < |targets| && Sorted(targets, answers, n, applied, failures)
    ensures AnswerTo(answers, n).Done? ==> Sorted(targets, answers, n + 1, applied + [targets[n]], failures)
    ensures AnswerTo(answers, n).ProviderError? ==> Sorted(targets, answers, n + 1, applied, failures + [targets[n]])
  {
    InterleavesMore(applied, failures, targets[..n], targets[n]);
    assert targets[..n + 1] == targets[..n] + [targets[n]];
  }

  /** `OperationsService.mutate_node_db`, given what connecting, each target and the audit call do.
      When it returns, every target is in exactly one of the two lists, in the given order. */
  method MutateNodeDb(targets: seq<string>, connect: Call<()>, answers: seq<Answer>, audit: Call<()>)
    returns (r: Call<Mutation>)
    ensures r.Returned? <==> targets != [] && connect.Returned? && audit.Returned? &&
                             forall i | 0 <= i < |targets| :: !AnswerTo(answers, i).OtherError?
    ensures r.Returned? ==> Interleaves(r.value.applied, r.value.failures, targets)
    ensures r.Returned? ==> (r.value.failures == [] <==> forall i | 0 <= i < |targets| :: AnswerTo(answers, i).Done?)
    ensures r.Returned? ==> forall t :: t in r.value.failures <==>
            exists i :: 0 <= i < |targets| && targets[i] == t && AnswerTo(answers, i).ProviderError?
  {
    if targets == [] {
      return Raised("No target nodes provided");
    }
    if connect.Raised? {
      return Raised(connect.message);
    }
    var applied, failures: seq<string> := [], [];
    for i := 0 to |targets|
      invariant Sorted(targets, answers, i, applied, failures)
    {
      SortedNext(targets, answers, i, applied, failures);
      match AnswerTo(answers, i) {
        case Done => applied := applied + [targets[i]];
        case ProviderError(_) => failures := failures + [targets[i]];
        case OtherError(message) => return Raised(message);
      }
    }
    assert targets[..|targets|] == targets;
    if audit.Raised? {
      return Raised(audit.message);
    }
    return Returned(Mutation(applied, failures));
  }

  // ---------- target lists ----------

  /** `kept` is `whole` with every `x` left out: the others in order, each as often as it occurs. */
  predicate LeavesOut<T(==)>(kept: seq<T>, x: T, whole: seq<T>) {
    x !in kept && |kept| <= |whole| && Interleaves(kept, seq(|whole| - |kept|, _ => x), whole)
  }

  lemma LeftOutMore<T>(kept: seq<T>, x: T, whole: seq<T>, y: T)
    requires LeavesOut(kept, x, whole)
    ensures y == x ==> LeavesOut(kept, x, whole + [y])
    ensures y != x ==> LeavesOut(kept + [y], x, whole + [y])
  {
    var gaps := seq(|whole| - |kept|, _ => x);
    InterleavesMore(kept, gaps, whole, y);
    assert seq(|whole| + 1 - |kept|, _ => x) == gaps + [x];
  }

  function Stripped(ids: seq<string>): seq<string> {
    seq(|ids|, i requires 0 <= i < |ids| => Strip(ids[i]))
  }

  /** `[item.strip() for item in ids if item.strip()]` */
  function NonBlank(ids: seq<string>): (out: seq<string>)
    ensures LeavesOut(out, "", Stripped(ids))
  {
    if ids == [] then []
    else
      var n := |ids| - 1;
      var before := NonBlank(ids[..n]);
      LeftOutMore(before, "", Stripped(ids[..n]), Strip(ids[n]));
      assert Stripped(ids) == Stripped(ids[..n]) + [Strip(ids[n])];
      if Strip(ids[n]) == "" then before else before + [Strip(ids[n])]
  }

  lemma {:induction false} NonBlankIff(ids: seq<string>)
    ensures NonBlank(ids) != [] <==> exists k :: 0 <= k < |ids| && Strip(ids[k]) != ""
  {
    if ids != [] {
      var n := |ids| - 1;
      NonBlankIff(ids[..n]);
      if k :| 0 <= k < n && Strip(ids[..n][k]) != "" {
        assert Strip(ids[k]) != "";
      }
      if k :| 0 <= k < |ids| && Strip(ids[k]) != "" {
        assert k < n ==> Strip(ids[..n][k]) != "";
      }
    }
  }

  /** `[item for item in targets if item != self]` */
  function Except(targets: seq<string>, self: string): (out: seq<string>)
    ensures LeavesOut(out, self, targets)
    ensures forall t :: t in out <==> t in targets && t != self
  {
    if targets == [] then []
    else
      var n := |targets| - 1;
      var before := Except(targets[..n], self);
      LeftOutMore(before, self, targets[..n], targets[n]);
      assert targets == targets[..n] + [targets[n]];
      if targets[n] == self then before else before + [targets[n]]
  }

  lemma {:induction false} NothingToLeaveOut(targets: seq<string>, self: string)
    requires self !in targets
    ensures Except(targets, self) == targets
  {
    if targets != [] {
      var n := |targets| - 1;
      assert targets == targets[..n] + [targets[n]];
      NothingToLeaveOut(targets[..n], self);
    }
  }

  /** How one destination's mutation goes: the connection, each target by its place, the audit. */
  datatype Attempt = Attempt(connect: Call<()>, answers: seq<Answer>, audit: Call<()>)

  /** Nothing goes wrong with a mutation of `n` targets. */
  predicate Smooth(a: Attempt, n: nat) {
    a.connect.Returned? && a.audit.Returned? && forall j | 0 <= j < n :: AnswerTo(a.answers, j).Done?
  }

  /** `_run_node_nodedb_job`; `call` is the target list of the mutation it asks for, if any. */
  method RunNodeNodeDb(svc: JobsService, id: JobId, destination: Option<NodeId>, action: string, targetIds: seq<string>,
                       connect: Call<()>, answers: seq<Answer>, opAudit: Call<()>, audit: Call<()>, now: Time)
    returns (call: Option<seq<string>>)
    requires id in svc.jobs && !HasFailure(svc.results, id)
    modifies svc
    ensures Agrees(svc.jobs, svc.results, id)
    ensures OnlyThisJob(old(svc.jobs), old(svc.results), svc.jobs, svc.results, id)
    ensures call == if destination.Some? && Strip(action) != "" && NonBlank(targetIds) != [] then
                      Some(NonBlank(targetIds))
                    else None
    ensures svc.jobs[id].status == Success <==>
            call.Some? && Smooth(Attempt(connect, answers, opAudit), |call.value|) && audit.Returned?
  {
    var _ := svc.Start(id, now);
    var targets := NonBlank(targetIds);
    call := None;
    if destination.None? || Strip(action) == "" || targets == [] {
      Abandon(svc, id, "Invalid payload", now);
      return;
    }
    call := Some(targets);
    var r := MutateNodeDb(targets, connect, answers, opAudit);
    if r.Raised? {
      Abandon(svc, id, r.message, now);
      return;
    }
    NoteAndConclude(svc, id, r.value.failures == [], destination, "NodeDB mutation finished", audit, now);
  }

  datatype Bulk = Bulk(
    destinations: Call<seq<NodeId>>, action: string, targetIds: seq<string>,
    excludeSelf: bool, refreshMode: bool, dryRun: bool)

  /** A bulk job's validated payload with what is known and what will happen: `nodes` gives the
      provider id of each destination that exists, `attempts` how each listed destination goes. */
  datatype Plan = Plan(
    destinations: seq<NodeId>, targets: seq<string>, excludeSelf: bool, nodes: map<NodeId, string>,
    attempts: seq<Attempt>)

  function AttemptAt(attempts: seq<Attempt>, i: nat): Attempt {
    if i < |attempts| then attempts[i] else Attempt(Returned(()), [], Returned(()))
  }

  /** The targets the i-th destination is told about: with `excludeSelf`, never itself. */
  function OwnTargets(p: Plan, i: nat): seq<string>
    requires i < |p.destinations| && p.destinations[i] in p.nodes
  {
    var self := p.nodes[p.destinations[i]];
    if p.excludeSelf && self != "" then Except(p.targets, self) else p.targets
  }

  /** The target list of the mutation call for the i-th destination: none when the destination does not
      exist or nothing is left to tell it. */
  function CallFor(p: Plan, i: nat): Option<seq<string>>
    requires i < |p.destinations|
  {
    if p.destinations[i] !in p.nodes || OwnTargets(p, i) == [] then None else Some(OwnTargets(p, i))
  }

  /** The destination exists and nothing its mutation needs goes wrong. */
  predicate Succeeds(p: Plan, i: nat)
    requires i < |p.destinations|
  {
    && p.destinations[i] in p.nodes
    && (CallFor(p, i).Some? ==> Smooth(AttemptAt(p.attempts, i), |CallFor(p, i).value|))
  }

  /** With `excludeSelf` no destination is in its own target list, every other target is, in order and as
      often as it is listed; without it every target is. */
  lemma NoneIssuedToItself(p: Plan, i: nat)
    requires i < |p.destinations| && p.destinations[i] in p.nodes && "" !in p.targets
    ensures var own := if CallFor(p, i).Some? then CallFor(p, i).value else [];
            if p.excludeSelf then LeavesOut(own, p.nodes[p.destinations[i]], p.targets) else own == p.targets
  {
    NothingToLeaveOut(p.targets, "");
  }

  /** The row the i-th destination has earned. */
  predicate Earned(row: Result, id: JobId, p: Plan, i: nat)
    requires i < |p.destinations|
  {
    row.jobId == id && row.nodeId == Some(p.destinations[i]) && row.status == if Succeeds(p, i) then Success else Failed
  }

  /** One row for each of the first `|rows|` destinations, in order. */
  predicate BulkRows(rows: seq<Result>, id: JobId, p: Plan) {
    |rows| <= |p.destinations| && forall i | 0 <= i < |rows| :: Earned(rows[i], id, p, i)
  }

  lemma BulkRowMore(rows: seq<Result>, row: Result, id: JobId, p: Plan)
    requires BulkRows(rows, id, p) && |rows| < |p.destinations| && Earned(row, id, p, |rows|)
    ensures BulkRows(rows + [row], id, p)
  {
  }

  /** One destination: the call it issues, if any, and the row it is owed. */
  method MutateOne(p: Plan, i: nat, id: JobId) returns (row: Result, call: Option<seq<string>>)
    requires i < |p.destinations|
    ensures Earned(row, id, p, i) && (row.status == Success || row.status == Failed)
    ensures call == CallFor(p, i)
  {
    var destination, a := p.destinations[i], AttemptAt(p.attempts, i);
    if destination !in p.nodes {
      return Result(id, Failed, Some(destination), "Destination node not found"), None;
    }
    var self := p.nodes[destination];
    var own := if p.excludeSelf && self != "" then Except(p.targets, self) else p.targets;
    if own == [] {
      return Result(id, Success, Some(destination), "Skipped: no remaining targets after self exclusion"), None;
    }
    var r := MutateNodeDb(own, a.connect, a.answers, a.audit);
    row := Result(id, if r.Returned? && r.value.failures == [] then Success else Failed, Some(destination),
                  if r.Raised? then r.message else "NodeDB mutation finished");
    call := Some(own);
  }

  /** The calls for the first `|calls|` destinations. */
  predicate CallsMade(calls: seq<Option<seq<string>>>, p: Plan) {
    |calls| <= |p.destinations| && forall i | 0 <= i < |calls| :: calls[i] == CallFor(p, i)
  }

  lemma CallsMadeMore(calls: seq<Option<seq<string>>>, call: Option<seq<string>>, p: Plan)
    requires CallsMade(calls, p) && |calls| < |p.destinations| && call == CallFor(p, |calls|)
    ensures CallsMade(calls + [call], p)
  {
  }

  predicate AllSucceeded(rows: seq<Result>) {
    forall i | 0 <= i < |rows| :: rows[i].status == Success
  }

  predicate NoneSucceeded(rows: seq<Result>) {
    forall i | 0 <= i < |rows| :: rows[i].status != Success
  }

  lemma {:induction false} FailuresAreRows(before: seq<Result>, rows: seq<Result>, id: JobId)
    requires forall i | 0 <= i < |rows| ::
               rows[i].jobId == id && (rows[i].status == Success || rows[i].status == Failed)
    ensures HasFailure(before + rows, id) <==> HasFailure(before, id) || !AllSucceeded(rows)
  {
    if rows == [] {
      assert before + rows == before;
    } else {
      var n := |rows| - 1;
      FailuresAreRows(before, rows[..n], id);
      assert before + rows == (before + rows[..n]) + [rows[n]];
      FailureAppended(before + rows[..n], rows[n], id);
      assert AllSucceeded(rows) <==> AllSucceeded(rows[..n]) && rows[n].status == Success;
    }
  }

  method MutateAndNote(svc: JobsService, id: JobId, p: Plan, i: nat, ghost before: seq<Result>, ghost rows: seq<Result>)
    returns (row: Result, call: Option<seq<string>>, ghost rows': seq<Result>)
    requires i < |p.destinations| && |rows| == i && BulkRows(rows, id, p) && svc.results == before + rows
    modifies svc
    ensures svc.jobs == old(svc.jobs) && svc.results == before + rows' && rows' == rows + [row] &&
            BulkRows(rows', id, p)
    ensures Appends(old(svc.results), svc.results, id)
    ensures row.status == Success || row.status == Failed
    ensures HasFailure(svc.results, id) == (HasFailure(old(svc.results), id) || row.status == Failed)
    ensures call == CallFor(p, i)
  {
    row, call := MutateOne(p, i, id);
    Note(svc, id, row.status, row.nodeId, row.message);
    BulkRowMore(rows, row, id, p);
    AppendAssociates(before, rows, row);
    rows' := rows + [row];
  }

  /** The destination loop: one evidence row per listed destination, in order, a success exactly when
      earned; `calls` lists the mutation call made for each. */
  method MutateEach(svc: JobsService, id: JobId, p: Plan)
    returns (successes: nat, failures: nat, calls: seq<Option<seq<string>>>, ghost rows: seq<Result>)
    requires id in svc.jobs && !HasFailure(svc.results, id)
    modifies svc
    ensures svc.jobs == old(svc.jobs) && svc.results == old(svc.results) + rows
    ensures Appends(old(svc.results), svc.results, id)
    ensures |rows| == |p.destinations| && BulkRows(rows, id, p)
    ensures successes + failures == |p.destinations|
    ensures successes == 0 <==> NoneSucceeded(rows)
    ensures failures == 0 <==> !HasFailure(svc.results, id)
    ensures |calls| == |p.destinations| && CallsMade(calls, p)
  {
    successes, failures, calls, rows := 0, 0, [], [];
    for i := 0 to |p.destinations|
      invariant svc.jobs == old(svc.jobs) && svc.results == old(svc.results) + rows
      invariant |rows| == i && BulkRows(rows, id, p)
      invariant successes + failures == i
      invariant successes == 0 <==> NoneSucceeded(rows)
      invariant failures == 0 <==> !HasFailure(svc.results, id)
      invariant |calls| == i && CallsMade(calls, p)
    {
      var row, call;
      row, call, rows := MutateAndNote(svc, id, p, i, old(svc.results), rows);
      CallsMadeMore(calls, call, p);
      assert rows[i] == row && NoneSucceeded(rows) == (NoneSucceeded(rows[..i]) && row.status != Success);
      calls := calls + [call];
      if row.status == Success {
        successes := successes + 1;
      } else {
        failures := failures + 1;
      }
    }
    RowsAppend(old(svc.results), rows, id);
  }

  predicate UsableBulk(bulk: Bulk) {
    && Strip(bulk.action) != "" && (exists k :: 0 <= k < |bulk.targetIds| && Strip(bulk.targetIds[k]) != "")
    && bulk.destinations.Returned? && bulk.destinations.value != []
  }

  function PlanOf(bulk: Bulk, nodes: map<NodeId, string>, attempts: seq<Attempt>): Plan
    requires bulk.destinations.Returned?
  {
    Plan(bulk.destinations.value, NonBlank(bulk.targetIds), bulk.excludeSelf, nodes, attempts)
  }

  /** The ids a destination with id `self` is told, if any are left. */
  function ToldTo(bulk: Bulk, self: string): Option<seq<string>> {
    var all := NonBlank(bulk.targetIds);
    var own := if bulk.excludeSelf then Except(all, self) else all;
    if own == [] then None else Some(own)
  }

  /** What the i-th destination of a bulk job is told, and the row it leaves. */
  predicate Served(bulk: Bulk, nodes: map<NodeId, string>, a: Attempt, destination: NodeId, id: JobId, row: Result,
                   call: Option<seq<string>>) {
    && row.jobId == id && row.nodeId == Some(destination) && (row.status == Success || row.status == Failed)
    && (destination !in nodes ==> call.None? && row.status == Failed)
    && (destination in nodes ==>
        && call == ToldTo(bulk, nodes[destination])
        && (row.status == Success <==> call.None? || Smooth(a, |call.value|)))
  }

  lemma EarnedIsServed(bulk: Bulk, nodes: map<NodeId, string>, attempts: seq<Attempt>, i: nat, id: JobId, row: Result)
    requires bulk.destinations.Returned? && i < |bulk.destinations.value|
    requires Earned(row, id, PlanOf(bulk, nodes, attempts), i)
    ensures Served(bulk, nodes, AttemptAt(attempts, i), bulk.destinations.value[i], id, row,
                   CallFor(PlanOf(bulk, nodes, attempts), i))
  {
    NothingToLeaveOut(NonBlank(bulk.targetIds), "");
  }

  /** Every destination, in order. */
  predicate ServedAll(bulk: Bulk, nodes: map<NodeId, string>, attempts: seq<Attempt>, id: JobId, rows: seq<Result>,
                      calls: seq<Option<seq<string>>>)
    requires bulk.destinations.Returned? && |rows| == |calls| == |bulk.destinations.value|
  {
    forall i | 0 <= i < |rows| ::
      Served(bulk, nodes, AttemptAt(attempts, i), bulk.destinations.value[i], id, rows[i], calls[i])
  }

  method ServeEach(svc: JobsService, id: JobId, bulk: Bulk, nodes: map<NodeId, string>, attempts: seq<Attempt>)
    returns (successes: nat, failures: nat, calls: seq<Option<seq<string>>>, ghost rows: seq<Result>)
    requires id in svc.jobs && !HasFailure(svc.results, id) && bulk.destinations.Returned?
    modifies svc
    ensures svc.jobs == old(svc.jobs) && svc.results == old(svc.results) + rows
    ensures Appends(old(svc.results), svc.results, id)
    ensures |rows| == |calls| == |bulk.destinations.value| && ServedAll(bulk, nodes, attempts, id, rows, calls)
    ensures successes + failures == |rows|
    ensures failures == 0 <==> !HasFailure(svc.results, id)
    ensures failures == 0 <==> AllSucceeded(rows)
    ensures successes == 0 <==> NoneSucceeded(rows)
  {
    ghost var p := PlanOf(bulk, nodes, attempts);
    successes, failures, calls, rows := MutateEach(svc, id, PlanOf(bulk, nodes, attempts));
    forall i | 0 <= i < |rows|
      ensures Served(bulk, nodes, AttemptAt(attempts, i), bulk.destinations.value[i], id, rows[i], calls[i])
    {
      assert Earned(rows[i], id, p, i) && calls[i] == CallFor(p, i);
      EarnedIsServed(bulk, nodes, attempts, i, id, rows[i]);
    }
    FailuresAreRows(old(svc.results), rows, id);
  }

  /** `_run_bulk_nodedb_job`; `sync` is what the automatic sync afterwards reports as failed endpoints,
      `calls` the target list each destination is told, if any, `synced` whether that sync was due. */
  method RunBulkNodeDb(svc: JobsService, id: JobId, bulk: Bulk, nodes: map<NodeId, string>, attempts: seq<Attempt>,
                       sync: Call<nat>, audit: Call<()>, now: Time)
    returns (calls: seq<Option<seq<string>>>, synced: bool, ghost rows: seq<Result>)
    requires id in svc.jobs && !HasFailure(svc.results, id)
    modifies svc
    ensures Agrees(svc.jobs, svc.results, id)
    ensures OnlyThisJob(old(svc.jobs), old(svc.results), svc.jobs, svc.results, id)
    ensures !UsableBulk(bulk) ==> calls == [] && rows == []
    ensures UsableBulk(bulk) ==>
            && |rows| == |calls| == |bulk.destinations.value| && old(svc.results) + rows <= svc.results
            && ServedAll(bulk, nodes, attempts, id, rows, calls)
    ensures svc.jobs[id].status == Success <==>
            UsableBulk(bulk) && AllSucceeded(rows) &&
            (bulk.refreshMode && !bulk.dryRun ==> sync == Returned(0)) && audit.Returned?
    ensures synced <==> UsableBulk(bulk) && bulk.refreshMode && !bulk.dryRun && !NoneSucceeded(rows)
  {
    calls, synced, rows := [], false, [];
    var _ := svc.Start(id, now);
    StartedOnly(old(svc.jobs), svc.results, id, now);
    var targets := NonBlank(bulk.targetIds);
    NonBlankIff(bulk.targetIds);
    if Strip(bulk.action) == "" || bulk.destinations.Raised? || bulk.destinations.value == [] || targets == [] {
      AbandonStarted(svc, id, "Invalid payload", now, old(svc.jobs));
      return;
    }
    var successes, failures;
    successes, failures, calls, rows := ServeEach(svc, id, bulk, nodes, attempts);
    ghost var jobs, results := svc.jobs, svc.results;
    var due := bulk.refreshMode && !bulk.dryRun && successes > 0;
    synced := SyncAndConclude(svc, id, failures == 0, due, sync, audit, now);
    OnlyThisJobChain(old(svc.jobs), old(svc.results), jobs, results, svc.jobs, svc.results, id);
  }

  /** The tail that the bulk and the discovery runner share: perhaps a sync with its row, then the end. */
  method SyncAndConclude(svc: JobsService, id: JobId, success: bool, due: bool, sync: Call<nat>, audit: Call<()>,
                         now: Time)
    returns (synced: bool)
    requires id in svc.jobs && success == !HasFailure(svc.results, id)
    modifies svc
    ensures Agrees(svc.jobs, svc.results, id)
    ensures OnlyThisJob(old(svc.jobs), old(svc.results), svc.jobs, svc.results, id)
    ensures svc.jobs[id].status == Success <==> success && (due ==> sync == Returned(0)) && audit.Returned?
    ensures synced == due
  {
    var syncFailed := 0;
    synced := due;
    if due {
      if sync.Raised? {
        Abandon(svc, id, sync.message, now);
        return;
      }
      syncFailed := sync.value;
      Note(svc, id, if syncFailed == 0 then Success else Failed, None, "Auto-sync");
    }
    Conclude(svc, id, success && syncFailed == 0, audit, now);
  }

  // ---------- discovery and sync ----------

  method NoteProbes(svc: JobsService, id: JobId, probes: seq<string>)
    requires !HasFailure(svc.results, id)
    modifies svc
    ensures svc.jobs == old(svc.jobs) && Appends(old(svc.results), svc.results, id)
    ensures !HasFailure(svc.results, id)
  {
    for i := 0 to |probes|
      invariant svc.jobs == old(svc.jobs)
      invariant Appends(old(svc.results), svc.results, id)
      invariant !HasFailure(svc.results, id)
    {
      Note(svc, id, Running, None, probes[i]);
    }
  }

  /** `_run_discovery_job`: a started row, a row per probe, the outcome, and perhaps a sync. */
  method RunDiscovery(svc: JobsService, id: JobId, targets: Call<()>, probes: seq<string>, found: Call<nat>,
                      autoSync: bool, sync: Call<nat>, audit: Call<()>, now: Time)
    returns (synced: bool)
    requires id in svc.jobs && !HasFailure(svc.results, id)
    modifies svc
    ensures Agrees(svc.jobs, svc.results, id)
    ensures OnlyThisJob(old(svc.jobs), old(svc.results), svc.jobs, svc.results, id)
    ensures svc.jobs[id].status == Success <==>
            targets.Returned? && found.Returned? && found.value > 0 && (autoSync ==> sync == Returned(0)) &&
            audit.Returned?
    ensures synced <==> targets.Returned? && found.Returned? && found.value > 0 && autoSync
  {
    synced := false;
    var _ := svc.Start(id, now);
    if targets.Raised? {
      Abandon(svc, id, targets.message, now);
      return;
    }
    NoteProgress(svc, id, probes);
    ghost var jobs, results := svc.jobs, svc.results;
    synced := ReportScan(svc, id, found, autoSync, sync, audit, now);
    OnlyThisJobChain(old(svc.jobs), old(svc.results), jobs, results, svc.jobs, svc.results, id);
  }

  lemma StartedOnly(jobs: Table, results: seq<Result>, id: JobId, now: Time)
    requires id in jobs
    ensures OnlyThisJob(jobs, results, Started(jobs, id, now), results, id)
  {
  }

  lemma OnlyThisJobChain(jobs0: Table, results0: seq<Result>, jobs1: Table, results1: seq<Result>,
                         jobs2: Table, results2: seq<Result>, id: JobId)
    requires OnlyThisJob(jobs0, results0, jobs1, results1, id) && OnlyThisJob(jobs1, results1, jobs2, results2, id)
    ensures OnlyThisJob(jobs0, results0, jobs2, results2, id)
  {
  }

  /** The progress rows: one when the scan starts, and one for each probe. */
  method NoteProgress(svc: JobsService, id: JobId, probes: seq<string>)
    requires !HasFailure(svc.results, id)
    modifies svc
    ensures svc.jobs == old(svc.jobs) && !HasFailure(svc.results, id)
    ensures Appends(old(svc.results), svc.results, id)
  {
    Note(svc, id, Running, None, "Discovery started");
    NoteProbes(svc, id, probes);
  }

  method ReportScan(svc: JobsService, id: JobId, found: Call<nat>, autoSync: bool, sync: Call<nat>, audit: Call<()>,
                    now: Time)
    returns (synced: bool)
    requires id in svc.jobs && !HasFailure(svc.results, id)
    modifies svc
    ensures Agrees(svc.jobs, svc.results, id)
    ensures OnlyThisJob(old(svc.jobs), old(svc.results), svc.jobs, svc.results, id)
    ensures svc.jobs[id].status == Success <==>
            found.Returned? && found.value > 0 && (autoSync ==> sync == Returned(0)) && audit.Returned?
    ensures synced <==> found.Returned? && found.value > 0 && autoSync
  {
    synced := false;
    if found.Raised? {
      Abandon(svc, id, found.message, now);
      return;
    }
    Note(svc, id, if found.value > 0 then Success else Failed, None, "Discovery finished");
    synced := SyncAndConclude(svc, id, found.value > 0, found.value > 0 && autoSync, sync, audit, now);
  }

  /** `_run_sync_job` */
  method RunSync(svc: JobsService, id: JobId, sync: Call<nat>, audit: Call<()>, now: Time)
    requires id in svc.jobs && !HasFailure(svc.results, id)
    modifies svc
    ensures Agrees(svc.jobs, svc.results, id)
    ensures OnlyThisJob(old(svc.jobs), old(svc.results), svc.jobs, svc.results, id)
    ensures svc.jobs[id].status == Success <==> sync == Returned(0) && audit.Returned?
    ensures sync.Returned? ==>
              old(svc.results) + [Result(id, if sync.value == 0 then Success else Failed, None, "Sync finished")] <=
              svc.results
  {
    var _ := svc.Start(id, now);
    if sync.Raised? {
      Abandon(svc, id, sync.message, now);
      return;
    }
    NoteAndConclude(svc, id, sync.value == 0, None, "Sync finished", audit, now);
  }

  // ---------- configuration patches ----------

  function PatchResult(id: JobId, node: NodeId, outcome: Call<()>): Result {
    match outcome
    case Returned(_) => Result(id, Success, Some(node), "Patch applied")
    case Raised(message) => Result(id, Failed, Some(node), message)
  }

  /** How the i-th node's patch goes; beyond the list all goes well. */
  function OutcomeAt(outcomes: seq<Call<()>>, i: nat): Call<()> {
    if i < |outcomes| then outcomes[i] else Returned(())
  }

  /** None of the first `n` patches raises. */
  predicate AllReturn(n: nat, outcomes: seq<Call<()>>) {
    forall i | 0 <= i < n && i < |outcomes| :: outcomes[i].Returned?
  }

  lemma AllReturnNext(n: nat, outcomes: seq<Call<()>>)
    ensures AllReturn(n + 1, outcomes) <==> AllReturn(n, outcomes) && OutcomeAt(outcomes, n).Returned?
  {
  }

  /** One row for each of the first `|rows|` nodes, a failed one with the reason where its patch raised. */
  predicate PatchRows(rows: seq<Result>, id: JobId, nodes: seq<NodeId>, outcomes: seq<Call<()>>) {
    |rows| <= |nodes| && forall i | 0 <= i < |rows| ::
      && rows[i].jobId == id && rows[i].nodeId == Some(nodes[i])
      && (if i < |outcomes| && outcomes[i].Raised?
          then rows[i].status == Failed && rows[i].message == outcomes[i].message
          else rows[i].status == Success)
  }

  lemma AppendAssociates(results: seq<Result>, rows: seq<Result>, row: Result)
    ensures (results + rows) + [row] == results + (rows + [row])
  {
  }

  lemma PatchRowMore(rows: seq<Result>, id: JobId, nodes: seq<NodeId>, outcomes: seq<Call<()>>)
    requires PatchRows(rows, id, nodes, outcomes) && |rows| < |nodes|
    ensures PatchRows(rows + [PatchResult(id, nodes[|rows|], OutcomeAt(outcomes, |rows|))], id, nodes, outcomes)
  {
  }

  method PatchAndNote(svc: JobsService, id: JobId, nodes: seq<NodeId>, outcomes: seq<Call<()>>, i: nat,
                      ghost before: seq<Result>, ghost rows: seq<Result>)
    returns (failed: bool, ghost rows': seq<Result>)
    requires |rows| == i < |nodes| && PatchRows(rows, id, nodes, outcomes) && svc.results == before + rows
    modifies svc
    ensures svc.jobs == old(svc.jobs) && svc.results == before + rows' && |rows'| == i + 1 &&
            PatchRows(rows', id, nodes, outcomes)
    ensures Appends(old(svc.results), svc.results, id)
    ensures HasFailure(svc.results, id) == (HasFailure(old(svc.results), id) || failed)
    ensures failed == OutcomeAt(outcomes, i).Raised?
  {
    var row := PatchResult(id, nodes[i], OutcomeAt(outcomes, i));
    Note(svc, id, row.status, row.nodeId, row.message);
    AppendAssociates(before, rows, row);
    PatchRowMore(rows, id, nodes, outcomes);
    rows' := rows + [row];
    failed := row.status == Failed;
  }

  /** The loop of the group and the batch runner: a patch that raises costs its node a failed row. */
  method PatchEach(svc: JobsService, id: JobId, nodes: seq<NodeId>, outcomes: seq<Call<()>>)
    returns (failures: nat, ghost rows: seq<Result>)
    requires id in svc.jobs && !HasFailure(svc.results, id)
    modifies svc
    ensures svc.jobs == old(svc.jobs) && svc.results == old(svc.results) + rows
    ensures Appends(old(svc.results), svc.results, id)
    ensures |rows| == |nodes| && PatchRows(rows, id, nodes, outcomes)
    ensures failures == 0 <==> !HasFailure(svc.results, id)
    ensures failures == 0 <==> AllReturn(|nodes|, outcomes)
  {
    failures, rows := 0, [];
    for i := 0 to |nodes|
      invariant svc.jobs == old(svc.jobs) && svc.results == old(svc.results) + rows
      invariant |rows| == i && PatchRows(rows, id, nodes, outcomes)
      invariant failures == 0 <==> !HasFailure(svc.results, id)
      invariant failures == 0 <==> AllReturn(i, outcomes)
    {
      var failed;
      failed, rows := PatchAndNote(svc, id, nodes, outcomes, i, old(svc.results), rows);
      failures := if failed then failures + 1 else failures;
      AllReturnNext(i, outcomes);
    }
    RowsAppend(old(svc.results), rows, id);
  }

  /** The outer handler right after the start; `jobs` is the table before that. */
  method AbandonStarted(svc: JobsService, id: JobId, message: string, now: Time, ghost jobs: Table)
    requires id in svc.jobs && OnlyThisJob(jobs, svc.results, svc.jobs, svc.results, id)
    modifies svc
    ensures Agrees(svc.jobs, svc.results, id) && svc.jobs[id].status == Failed
    ensures OnlyThisJob(jobs, old(svc.results), svc.jobs, svc.results, id)
  {
    Abandon(svc, id, message, now);
    OnlyThisJobChain(jobs, old(svc.results), old(svc.jobs), old(svc.results), svc.jobs, svc.results, id);
  }

  /** Likewise, `jobs` is the table before the job was started. */
  method PatchAndConclude(svc: JobsService, id: JobId, nodes: seq<NodeId>, outcomes: seq<Call<()>>, audit: Call<()>,
                          now: Time, ghost jobs: Table)
    returns (ghost rows: seq<Result>)
    requires id in svc.jobs && !HasFailure(svc.results, id)
    requires OnlyThisJob(jobs, svc.results, svc.jobs, svc.results, id)
    modifies svc
    ensures Agrees(svc.jobs, svc.results, id)
    ensures OnlyThisJob(jobs, old(svc.results), svc.jobs, svc.results, id)
    ensures |rows| == |nodes| && PatchRows(rows, id, nodes, outcomes) && old(svc.results) + rows <= svc.results
    ensures svc.jobs[id].status == Success <==> AllReturn(|nodes|, outcomes) && audit.Returned?
  {
    var failures;
    failures, rows := PatchEach(svc, id, nodes, outcomes);
    ghost var jobs', results' := svc.jobs, svc.results;
    Conclude(svc, id, failures == 0, audit, now);
    OnlyThisJobChain(jobs, old(svc.results), jobs', results', svc.jobs, svc.results, id);
  }

  /** `_run_node_patch_job` */
  method RunNodePatch(svc: JobsService, id: JobId, node: Option<NodeId>, apply: Call<()>, audit: Call<()>, now: Time)
    requires id in svc.jobs && !HasFailure(svc.results, id)
    modifies svc
    ensures Agrees(svc.jobs, svc.results, id)
    ensures OnlyThisJob(old(svc.jobs), old(svc.results), svc.jobs, svc.results, id)
    ensures svc.jobs[id].status == Success <==> node.Some? && apply.Returned? && audit.Returned?
    ensures node.Some? && apply.Returned? ==>
              old(svc.results) + [Result(id, Success, node, "Node patch applied")] <= svc.results
  {
    var _ := svc.Start(id, now);
    if node.None? || apply.Raised? {
      Abandon(svc, id, if node.None? then "Missing node_id" else apply.message, now);
      return;
    }
    NoteAndConclude(svc, id, true, node, "Node patch applied", audit, now);
  }

  /** `_run_group_patch_job`; `members` raises when the group or the patch is unusable. */
  method RunGroupPatch(svc: JobsService, id: JobId, members: Call<seq<NodeId>>, outcomes: seq<Call<()>>,
                       audit: Call<()>, now: Time)
    returns (ghost rows: seq<Result>)
    requires id in svc.jobs && !HasFailure(svc.results, id)
    modifies svc
    ensures Agrees(svc.jobs, svc.results, id)
    ensures OnlyThisJob(old(svc.jobs), old(svc.results), svc.jobs, svc.results, id)
    ensures members.Returned? ==>
            |rows| == |members.value| && PatchRows(rows, id, members.value, outcomes) &&
            old(svc.results) + rows <= svc.results
    ensures svc.jobs[id].status == Success <==>
            members.Returned? && AllReturn(|members.value|, outcomes) && audit.Returned?
  {
    rows := [];
    var _ := svc.Start(id, now);
    StartedOnly(old(svc.jobs), svc.results, id, now);
    if members.Raised? {
      AbandonStarted(svc, id, members.message, now, old(svc.jobs));
      return;
    }
    rows := PatchAndConclude(svc, id, members.value, outcomes, audit, now, old(svc.jobs));
  }

  /** What a batch job's payload holds under `clone`: nothing usable as a dictionary, or settings that
      the runner can or cannot work with. */
  datatype CloneField = NoDictionary | Settings(usable: Call<()>)

  /** `_run_multi_node_patch_job`. The clone field is read before the handler is in place: when it is
      set and no dictionary the exception escapes, and the job stays running with no row about it. */
  method RunMultiNodePatch(svc: JobsService, id: JobId, nodes: Call<seq<NodeId>>, clone: CloneField,
                           outcomes: seq<Call<()>>, audit: Call<()>, now: Time)
    returns (escaped: bool, ghost rows: seq<Result>)
    requires id in svc.jobs && !HasFailure(svc.results, id)
    modifies svc
    ensures escaped == clone.NoDictionary?
    ensures escaped ==> svc.results == old(svc.results) &&
                        svc.jobs == old(svc.jobs)[id := old(svc.jobs)[id].(status := Running, startedAt := Some(now))]
    ensures !escaped ==> Agrees(svc.jobs, svc.results, id)
    ensures id in svc.jobs && (svc.jobs[id].status == Success <==>
            !escaped && nodes.Returned? && nodes.value != [] && clone.usable.Returned? &&
            AllReturn(|nodes.value|, outcomes) && audit.Returned?)
    ensures OnlyThisJob(old(svc.jobs), old(svc.results), svc.jobs, svc.results, id)
    ensures !escaped && nodes.Returned? && nodes.value != [] && clone.usable.Returned? ==>
            |rows| == |nodes.value| && PatchRows(rows, id, nodes.value, outcomes) &&
            old(svc.results) + rows <= svc.results
  {
    rows := [];
    escaped := clone.NoDictionary?;
    var _ := svc.Start(id, now);
    StartedOnly(old(svc.jobs), svc.results, id, now);
    if escaped {
      return;
    }
    if nodes.Raised? || nodes.value == [] || clone.usable.Raised? {
      AbandonStarted(svc, id, "No usable node selection", now, old(svc.jobs));
      return;
    }
    rows := PatchAndConclude(svc, id, nodes.value, outcomes, audit, now, old(svc.jobs));
  }

  // ---------- dispatch ----------

  /** A job's type with what its payload selects and what the services it calls will do. */
  datatype Work =
    | DiscoveryScan(targets: Call<()>, probes: seq<string>, found: Call<nat>, autoSync: bool, sync: Call<nat>)
    | SyncAll(sync: Call<nat>)
    | GroupApplyTemplate(members: Call<seq<NodeId>>, outcomes: seq<Call<()>>)
    | NodeConfigPatch(node: Option<NodeId>, patched: Call<()>)
    | MultiNodeConfigPatch(nodes: Call<seq<NodeId>>, clone: CloneField, outcomes: seq<Call<()>>)
    | NodeDbMutation(destination: Option<NodeId>, action: string, targetIds: seq<string>, attempt: Attempt)
    | BulkNodeDbMutation(bulk: Bulk, known: map<NodeId, string>, attempts: seq<Attempt>, sync: Call<nat>)
    | Unsupported(jobType: string)

  /** The work raises before its runner can catch anything. */
  predicate Unreadable(work: Work) {
    work.MultiNodeConfigPatch? && work.clone.NoDictionary?
  }

  /** The payload is usable and nothing the job calls goes wrong. */
  predicate GoesWell(work: Work) {
    match work
    case DiscoveryScan(targets, _, found, autoSync, sync) =>
      targets.Returned? && found.Returned? && found.value > 0 && (autoSync ==> sync == Returned(0))
    case SyncAll(sync) => sync == Returned(0)
    case GroupApplyTemplate(members, outcomes) => members.Returned? && AllReturn(|members.value|, outcomes)
    case NodeConfigPatch(node, patched) => node.Some? && patched.Returned?
    case MultiNodeConfigPatch(nodes, clone, outcomes) =>
      && nodes.Returned? && nodes.value != [] && AllReturn(|nodes.value|, outcomes)
      && clone.Settings? && clone.usable.Returned?
    case NodeDbMutation(destination, action, targetIds, attempt) =>
      && destination.Some? && Strip(action) != "" && NonBlank(targetIds) != []
      && Smooth(attempt, |NonBlank(targetIds)|)
    case BulkNodeDbMutation(bulk, known, attempts, sync) =>
      && UsableBulk(bulk)
      && (forall i | 0 <= i < |bulk.destinations.value| ::
            SucceedsAt(bulk, known, AttemptAt(attempts, i), bulk.destinations.value[i]))
      && (bulk.refreshMode && !bulk.dryRun ==> sync == Returned(0))
    case Unsupported(_) => false
  }

  lemma AllServed(bulk: Bulk, nodes: map<NodeId, string>, attempts: seq<Attempt>, id: JobId, rows: seq<Result>,
                  calls: seq<Option<seq<string>>>)
    requires bulk.destinations.Returned? && |rows| == |calls| == |bulk.destinations.value|
    requires ServedAll(bulk, nodes, attempts, id, rows, calls)
    ensures AllSucceeded(rows) <==>
            forall i | 0 <= i < |rows| :: SucceedsAt(bulk, nodes, AttemptAt(attempts, i), bulk.destinations.value[i])
  {
    forall i | 0 <= i < |rows|
      ensures rows[i].status == Success <==>
              SucceedsAt(bulk, nodes, AttemptAt(attempts, i), bulk.destinations.value[i])
    {
      assert Served(bulk, nodes, AttemptAt(attempts, i), bulk.destinations.value[i], id, rows[i], calls[i]);
    }
  }

  /** The destination exists, and whatever it is told goes well. */
  predicate SucceedsAt(bulk: Bulk, nodes: map<NodeId, string>, a: Attempt, destination: NodeId) {
    && destination in nodes
    && (ToldTo(bulk, nodes[destination]).Some? ==> Smooth(a, |ToldTo(bulk, nodes[destination]).value|))
  }

  /** `run_job`: for every kind of job, the job ends in success exactly when its payload is usable and
      nothing it calls goes wrong, and its status agrees with its evidence, except that one unreadable
      payload leaves the job running. */
  method RunJob(svc: JobsService, id: JobId, work: Work, audit: Call<()>, now: Time) returns (escaped: bool)
    requires !HasFailure(svc.results, id)
    modifies svc
    ensures id !in old(svc.jobs) ==> !escaped && svc.jobs == old(svc.jobs) && svc.results == old(svc.results)
    ensures id in old(svc.jobs) ==>
            escaped == Unreadable(work) && (Agrees(svc.jobs, svc.results, id) <==> !Unreadable(work))
    ensures escaped ==> svc.results == old(svc.results) &&
                        svc.jobs == old(svc.jobs)[id := old(svc.jobs)[id].(status := Running, startedAt := Some(now))]
    ensures id in old(svc.jobs) ==> (svc.jobs[id].status == Success <==> GoesWell(work) && audit.Returned?)
    ensures OnlyThisJob(old(svc.jobs), old(svc.results), svc.jobs, svc.results, id)
  {
    escaped := false;
    if id !in svc.jobs {
      return;
    }
    match work {
      case DiscoveryScan(targets, probes, found, autoSync, sync) =>
        var _ := RunDiscovery(svc, id, targets, probes, found, autoSync, sync, audit, now);
      case SyncAll(sync) => RunSync(svc, id, sync, audit, now);
      case GroupApplyTemplate(members, outcomes) => var _ := RunGroupPatch(svc, id, members, outcomes, audit, now);
      case NodeConfigPatch(node, patched) => RunNodePatch(svc, id, node, patched, audit, now);
      case MultiNodeConfigPatch(nodes, clone, outcomes) =>
        ghost var rows;
        escaped, rows := RunMultiNodePatch(svc, id, nodes, clone, outcomes, audit, now);
      case NodeDbMutation(destination, action, targetIds, a) =>
        var _ := RunNodeNodeDb(svc, id, destination, action, targetIds, a.connect, a.answers, a.audit, audit, now);
      case BulkNodeDbMutation(bulk, known, attempts, sync) =>
        var calls, synced, rows := RunBulkNodeDb(svc, id, bulk, known, attempts, sync, audit, now);
        if UsableBulk(bulk) {
          AllServed(bulk, known, attempts, id, rows, calls);
        }
      case Unsupported(jobType) => Abandon(svc, id, "Unsupported job type: " + jobType, now);
    }
  }
}
