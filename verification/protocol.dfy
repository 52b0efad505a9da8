/** Any number of external workers at one job table. */
module Protocol {
  import opened JsonTree
  import opened Jobs

  type WorkerId = nat

  /** Where a worker stands in its loop: polling; walking a snapshot, of which it has tried the
      first `tried` candidates (`since` is the number of claims there were when it was taken);
      holding a claimed job; or inside `run_job`. */
  datatype Phase =
    | Polling
    | Scanning(ids: seq<JobId>, tried: nat, since: nat)
    | Holding(job: JobId)
    | Working(job: JobId)

  datatype Claim = Claim(worker: WorkerId, job: JobId)

  datatype State = State(jobs: Table, workers: map<WorkerId, Phase>, claims: seq<Claim>, runs: seq<JobId>)

  datatype Step =
    | Create(id: JobId, jobType: string)
    | Snapshot(w: WorkerId, ids: seq<JobId>)
    | TryNext(w: WorkerId)
    | GiveUp(w: WorkerId)
    | EnterRun(w: WorkerId)
    | LeaveRun(w: WorkerId)
    | StartJob(id: JobId)
    | FinishJob(id: JobId, success: bool)
    | Recover(cutoff: Option<Time>, includePending: bool)

  function PhaseOf(s: State, w: WorkerId): Phase {
    if w in s.workers then s.workers[w] else Polling
  }

  /** One committed step at time `now`; a step that is not possible leaves the state as it is. */
  ghost function Apply(s: State, step: Step, now: Time): State {
    match step
    case Create(id, jobType) =>
      if id in s.jobs then s else s.(jobs := s.jobs[id := Job(jobType, Pending, now, None, None)])
    case Snapshot(w, ids) =>
      if PhaseOf(s, w).Polling? && IsSnapshot(s.jobs, ids) then
        s.(workers := s.workers[w := Scanning(ids, 0, |s.claims|)])
      else s
    case TryNext(w) =>
      var phase := PhaseOf(s, w);
      if phase.Scanning? && phase.tried < |phase.ids| then
        var id := phase.ids[phase.tried];
        if IsPending(s.jobs, id) then
          s.(jobs := Claimed(s.jobs, id, now), workers := s.workers[w := Holding(id)],
             claims := s.claims + [Claim(w, id)])
        else s.(workers := s.workers[w := phase.(tried := phase.tried + 1)])
      else s
    case GiveUp(w) =>
      if GivesUp(s, w) then s.(workers := s.workers[w := Polling]) else s
    case EnterRun(w) =>
      if PhaseOf(s, w).Holding? then
        s.(workers := s.workers[w := Working(PhaseOf(s, w).job)], runs := s.runs + [PhaseOf(s, w).job])
      else s
    case LeaveRun(w) =>
      if PhaseOf(s, w).Working? then s.(workers := s.workers[w := Polling]) else s
    case StartJob(id) =>
      if id in s.jobs then s.(jobs := Started(s.jobs, id, now)) else s
    case FinishJob(id, success) =>
      if id in s.jobs then s.(jobs := Finished(s.jobs, id, success, now)) else s
    case Recover(cutoff, includePending) =>
      s.(jobs := Recovered(s.jobs, cutoff, includePending, now))
  }

  /** The claim loop has tried every candidate: `claim_next_pending_id` returns None. */
  predicate GivesUp(s: State, w: WorkerId) {
    var phase := PhaseOf(s, w);
    phase.Scanning? && phase.tried >= |phase.ids|
  }

  datatype Event = Event(step: Step, now: Time)

  ghost function Run(s: State, events: seq<Event>): State {
    if events == [] then s
    else
      var n := |events| - 1;
      Apply(Run(s, events[..n]), events[n].step, events[n].now)
  }

  /** A job table nobody has claimed from yet. */
  predicate Initial(s: State) {
    s.workers == map[] && s.claims == [] && s.runs == []
  }

  // ---------- at most once ----------

  predicate WasClaimed(s: State, id: JobId) {
    exists i :: 0 <= i < |s.claims| && s.claims[i].job == id
  }

  /** A claimed job is never pending again, so nobody can claim it a second time; and a worker that
      still holds its job has not run it. */
  ghost predicate Inv(s: State) {
    && (forall i, j | 0 <= i < j < |s.claims| :: s.claims[i].job != s.claims[j].job)
    && (forall i | 0 <= i < |s.claims| :: s.claims[i].job in s.jobs && !IsPending(s.jobs, s.claims[i].job))
    && Distinct(s.runs)
    && (forall id | id in s.runs :: WasClaimed(s, id))
    && (forall w | w in s.workers && s.workers[w].Holding? ::
        WasClaimed(s, s.workers[w].job) && s.workers[w].job !in s.runs)
    && (forall v, w | v in s.workers && w in s.workers && v != w && s.workers[v].Holding? && s.workers[w].Holding? ::
          s.workers[v].job != s.workers[w].job)
    && (forall w | w in s.workers && s.workers[w].Scanning? :: ScanInv(s, w, s.workers[w]))
  }

  /** The candidates tried so far are no longer pending, no claim taken since the snapshot is this
      worker's own, and no candidate had been claimed when the snapshot was taken. */
  ghost predicate ScanInv(s: State, w: WorkerId, p: Phase)
    requires p.Scanning?
  {
    && p.tried <= |p.ids| && p.since <= |s.claims|
    && (forall i | 0 <= i < |p.ids| :: p.ids[i] in s.jobs)
    && (forall i | 0 <= i < p.tried :: !IsPending(s.jobs, p.ids[i]))
    && (forall i | p.since <= i < |s.claims| :: s.claims[i].worker != w)
    && (forall i, k | 0 <= i < p.since && 0 <= k < |p.ids| :: s.claims[i].job != p.ids[k])
  }

  ghost predicate Grows(s: Table, t: Table) {
    forall id | id in s :: id in t && (s[id].status != Pending ==> t[id].status != Pending)
  }

  lemma TableStepKeepsInv(s: State, t: State)
    requires Inv(s) && Grows(s.jobs, t.jobs) && t == s.(jobs := t.jobs)
    ensures Inv(t)
  {
    assert forall id :: WasClaimed(t, id) == WasClaimed(s, id);
    forall w | w in t.workers && t.workers[w].Scanning? ensures ScanInv(t, w, t.workers[w]) {
      assert ScanInv(s, w, s.workers[w]);
    }
  }

  /** A worker's move that neither claims nor runs: a new snapshot, a lost try, giving up, leaving. */
  lemma QuietMoveKeepsInv(s: State, w: WorkerId, phase: Phase)
    requires Inv(s) && !phase.Holding? && (phase.Scanning? ==> ScanInv(s, w, phase))
    ensures Inv(s.(workers := s.workers[w := phase]))
  {
    var t := s.(workers := s.workers[w := phase]);
    assert forall id :: WasClaimed(t, id) == WasClaimed(s, id);
    forall v | v in t.workers && t.workers[v].Scanning? ensures ScanInv(t, v, t.workers[v]) {
      assert ScanInv(s, v, t.workers[v]);
    }
  }

  lemma EnterRunKeepsInv(s: State, w: WorkerId)
    requires Inv(s) && w in s.workers && s.workers[w].Holding?
    ensures var id := s.workers[w].job; Inv(s.(workers := s.workers[w := Working(id)], runs := s.runs + [id]))
  {
    var id := s.workers[w].job;
    QuietMoveKeepsInv(s, w, Working(id));
    var mid := s.(workers := s.workers[w := Working(id)]);
    var t := mid.(runs := s.runs + [id]);
    assert forall x :: WasClaimed(t, x) == WasClaimed(mid, x) == WasClaimed(s, x);
    forall v | v in t.workers && t.workers[v].Scanning? ensures ScanInv(t, v, t.workers[v]) {
      assert ScanInv(mid, v, mid.workers[v]);
    }
  }

  lemma ClaimKeepsInv(s: State, w: WorkerId, id: JobId, now: Time)
    requires Inv(s) && w in s.workers && s.workers[w].Scanning? && id in s.workers[w].ids && IsPending(s.jobs, id)
    ensures Inv(State(Claimed(s.jobs, id, now), s.workers[w := Holding(id)], s.claims + [Claim(w, id)], s.runs))
  {
    var t := State(Claimed(s.jobs, id, now), s.workers[w := Holding(id)], s.claims + [Claim(w, id)], s.runs);
    assert !WasClaimed(s, id);
    forall x ensures WasClaimed(t, x) <==> x == id || WasClaimed(s, x) {
      if i :| 0 <= i < |s.claims| && s.claims[i].job == x {
        assert t.claims[i].job == x;
      }
      assert t.claims[|s.claims|].job == id;
    }
    forall v | v in t.workers && t.workers[v].Scanning? ensures ScanInv(t, v, t.workers[v]) {
      assert v != w && ScanInv(s, v, s.workers[v]);
    }
  }

  lemma SnapshotKeepsInv(s: State, w: WorkerId, ids: seq<JobId>, now: Time)
    requires Inv(s)
    ensures Inv(Apply(s, Snapshot(w, ids), now))
  {
    if PhaseOf(s, w).Polling? && IsSnapshot(s.jobs, ids) {
      forall i, k | 0 <= i < |s.claims| && 0 <= k < |ids| ensures s.claims[i].job != ids[k] {
        assert IsPending(s.jobs, ids[k]);
      }
      QuietMoveKeepsInv(s, w, Scanning(ids, 0, |s.claims|));
    }
  }

  lemma TryKeepsInv(s: State, w: WorkerId, now: Time)
    requires Inv(s)
    ensures Inv(Apply(s, TryNext(w), now))
  {
    var phase := PhaseOf(s, w);
    if phase.Scanning? && phase.tried < |phase.ids| {
      assert ScanInv(s, w, phase);
      var id := phase.ids[phase.tried];
      if IsPending(s.jobs, id) {
        ClaimKeepsInv(s, w, id, now);
      } else {
        QuietMoveKeepsInv(s, w, phase.(tried := phase.tried + 1));
      }
    }
  }

  lemma InvStep(s: State, step: Step, now: Time)
    requires Inv(s)
    ensures Inv(Apply(s, step, now))
  {
    var t := Apply(s, step, now);
    match step {
      case Create(_, _) => TableStepKeepsInv(s, t);
      case StartJob(_) => TableStepKeepsInv(s, t);
      case FinishJob(_, _) => TableStepKeepsInv(s, t);
      case Recover(_, _) => TableStepKeepsInv(s, t);
      case Snapshot(w, ids) => SnapshotKeepsInv(s, w, ids, now);
      case TryNext(w) => TryKeepsInv(s, w, now);
      case GiveUp(w) => QuietMoveKeepsInv(s, w, Polling);
      case LeaveRun(w) => QuietMoveKeepsInv(s, w, Polling);
      case EnterRun(w) =>
        if PhaseOf(s, w).Holding? {
          EnterRunKeepsInv(s, w);
        }
    }
  }

  lemma {:induction false} InvRun(s: State, events: seq<Event>)
    requires Initial(s)
    ensures Inv(Run(s, events))
  {
    if events != [] {
      var n := |events| - 1;
      InvRun(s, events[..n]);
      InvStep(Run(s, events[..n]), events[n].step, events[n].now);
    }
  }

  /** In every run, whatever the interleaving of creations, snapshots, claims, starts, finishes and
      recoveries: no job is claimed twice, and no job is run twice by the workers. */
  lemma AtMostOnce(s: State, events: seq<Event>)
    requires Initial(s)
    ensures var t := Run(s, events);
            && (forall i, j | 0 <= i < j < |t.claims| :: t.claims[i].job != t.claims[j].job)
            && Distinct(t.runs)
            && (forall id | id in t.runs :: WasClaimed(t, id))
  {
    InvRun(s, events);
  }

  /** Nothing ever returns a job to pending. */
  lemma {:induction false} NeverPendingAgain(s: State, events: seq<Event>, id: JobId)
    requires id in s.jobs && !IsPending(s.jobs, id)
    ensures id in Run(s, events).jobs && !IsPending(Run(s, events).jobs, id)
  {
    if events != [] {
      NeverPendingAgain(s, events[..|events| - 1], id);
    }
  }

  /** A worker that comes back empty-handed has seen every candidate of its snapshot leave pending. */
  lemma EmptyHandedMeansGone(s: State, events: seq<Event>, w: WorkerId)
    requires Initial(s) && GivesUp(Run(s, events), w)
    ensures var t := Run(s, events);
            forall id | id in PhaseOf(t, w).ids :: id in t.jobs && !IsPending(t.jobs, id)
  {
    InvRun(s, events);
  }

  // ---------- a held job is running ----------

  /** In the n-th step the worker wins the job, which was pending until then. */
  ghost predicate ClaimsAt(s: State, events: seq<Event>, n: nat, w: WorkerId, id: JobId) {
    && n < |events| && events[n].step == TryNext(w) && IsPending(Run(s, events[..n]).jobs, id)
    && PhaseOf(Run(s, events[..n]), w).Scanning? && PhaseOf(Run(s, events[..n + 1]), w) == Holding(id)
  }

  /** The n-th step finishes the job, or is a recovery that takes it. */
  ghost predicate EndsAt(s: State, events: seq<Event>, n: nat, id: JobId)
    requires n < |events|
  {
    match events[n].step
    case FinishJob(job, _) => job == id
    case Recover(cutoff, includePending) =>
      var jobs := Run(s, events[..n]).jobs;
      id in jobs && Stale(jobs[id], cutoff, includePending)
    case _ => false
  }

  predicate RunningSince(jobs: Table, id: JobId) {
    id in jobs && jobs[id].status == Running && jobs[id].startedAt.Some?
  }

  /** From the claim on the job is running until it is finished or recovered. */
  lemma {:induction false} RunningUntilEnded(s: State, events: seq<Event>, n: nat, w: WorkerId, id: JobId)
    requires ClaimsAt(s, events, n, w, id)
    requires forall m | n < m < |events| :: !EndsAt(s, events, m, id)
    ensures RunningSince(Run(s, events).jobs, id)
    decreases |events|
  {
    var last := |events| - 1;
    var init := events[..last];
    if n < last {
      assert init[..n] == events[..n] && init[..n + 1] == events[..n + 1];
      forall m | n < m < |init| ensures !EndsAt(s, init, m, id) {
        assert !EndsAt(s, events, m, id) && init[..m] == events[..m];
      }
      RunningUntilEnded(s, init, n, w, id);
      assert !EndsAt(s, events, last, id);
    } else {
      assert events[..n + 1] == events;
    }
  }

  /** A worker that holds or runs a job has claimed it in some step of the run. */
  lemma {:induction false} HeldWasClaimed(s: State, events: seq<Event>, w: WorkerId, id: JobId) returns (n: nat)
    requires Initial(s)
    requires PhaseOf(Run(s, events), w) == Holding(id) || PhaseOf(Run(s, events), w) == Working(id)
    ensures ClaimsAt(s, events, n, w, id)
    decreases |events|
  {
    var last := |events| - 1;
    var init := events[..last];
    if PhaseOf(Run(s, init), w) == Holding(id) || PhaseOf(Run(s, init), w) == Working(id) {
      n := HeldWasClaimed(s, init, w, id);
      assert init[..n] == events[..n] && init[..n + 1] == events[..n + 1];
    } else {
      n := last;
      assert events[..n + 1] == events;
    }
  }

  /** So in every run, a job that a worker holds or runs was pending when that worker claimed it, and
      is running with a start time unless it was finished or recovered since. */
  lemma HeldJobIsRunning(s: State, events: seq<Event>, w: WorkerId, id: JobId)
    requires Initial(s)
    requires PhaseOf(Run(s, events), w) == Holding(id) || PhaseOf(Run(s, events), w) == Working(id)
    ensures exists n: nat :: ClaimsAt(s, events, n, w, id) &&
              (RunningSince(Run(s, events).jobs, id) || exists m :: n < m < |events| && EndsAt(s, events, m, id))
  {
    var n := HeldWasClaimed(s, events, w, id);
    if forall m | n < m < |events| :: !EndsAt(s, events, m, id) {
      RunningUntilEnded(s, events, n, w, id);
    }
    assert ClaimsAt(s, events, n, w, id);
  }

  /** And the claim is on record as that worker's, and so is the run of a job it works on. */
  lemma {:induction false} HeldIsRecorded(s: State, events: seq<Event>, w: WorkerId, id: JobId)
    requires Initial(s)
    ensures PhaseOf(Run(s, events), w) == Holding(id) || PhaseOf(Run(s, events), w) == Working(id) ==>
              Claim(w, id) in Run(s, events).claims
    ensures PhaseOf(Run(s, events), w) == Working(id) ==> id in Run(s, events).runs
  {
    if events != [] {
      HeldIsRecorded(s, events[..|events| - 1], w, id);
    }
  }

  // ---------- somebody makes progress ----------

  /** Without recovery, and with starts and finishes only of jobs that were claimed. */
  predicate Disciplined(s: State, step: Step) {
    match step
    case Recover(_, _) => false
    case StartJob(id) => WasClaimed(s, id)
    case FinishJob(id, _) => WasClaimed(s, id)
    case _ => true
  }

  ghost predicate DisciplinedRun(s: State, events: seq<Event>) {
    events != [] ==>
      var n := |events| - 1;
      DisciplinedRun(s, events[..n]) && Disciplined(Run(s, events[..n]), events[n].step)
  }

  ghost predicate OnlyClaimsMove(s: State) {
    forall id | id in s.jobs && !IsPending(s.jobs, id) :: WasClaimed(s, id)
  }

  lemma {:induction false} OnlyClaimsMoveRun(s: State, events: seq<Event>)
    requires Initial(s) && DisciplinedRun(s, events)
    requires forall id | id in s.jobs :: IsPending(s.jobs, id)
    ensures OnlyClaimsMove(Run(s, events))
  {
    if events != [] {
      var n := |events| - 1;
      var mid, t := Run(s, events[..n]), Run(s, events);
      OnlyClaimsMoveRun(s, events[..n]);
      forall id | id in t.jobs && !IsPending(t.jobs, id)
        ensures WasClaimed(t, id)
      {
        if (id in mid.jobs && !IsPending(mid.jobs, id)) || WasClaimed(mid, id) {
          var i :| 0 <= i < |mid.claims| && mid.claims[i].job == id;
          assert t.claims[i].job == id;
        } else {
          assert t.claims[|mid.claims|].job == id;
        }
      }
    }
  }

  /** When a worker with a non-empty snapshot comes back empty-handed, then since it took the
      snapshot every one of its candidates was claimed, and by some other worker. */
  lemma OthersMadeProgress(s: State, events: seq<Event>, w: WorkerId, id: JobId)
    requires Initial(s) && DisciplinedRun(s, events)
    requires forall id | id in s.jobs :: IsPending(s.jobs, id)
    requires GivesUp(Run(s, events), w) && id in PhaseOf(Run(s, events), w).ids
    ensures var t := Run(s, events);
            exists i :: PhaseOf(t, w).since <= i < |t.claims| && t.claims[i].job == id && t.claims[i].worker != w
  {
    var t := Run(s, events);
    InvRun(s, events);
    OnlyClaimsMoveRun(s, events);
    var i :| 0 <= i < |t.claims| && t.claims[i].job == id;
    assert PhaseOf(t, w).since <= i < |t.claims|;
  }
}
