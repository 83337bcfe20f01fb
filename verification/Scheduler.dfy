/**
 The bounded-concurrency scheduler of crates/core/src/orchestrator.rs (`run_tasks`). Tasks finish
 in any order and in any of three ways; the theorem is that neither shows in the result.
 */
module Scheduler {
  import opened Basics

  datatype TaskSpec = TaskSpec(id: string, title: string)

  datatype PullRequestStatus = Ready | NoChanges | Failed

  datatype PullRequest = PullRequest(
    id: string,
    headBranch: string,
    baseBranch: string,
    status: PullRequestStatus,
    checks: string,
    headCommit: Option<string>)

  /** How the job of a task ends: the coder's answer, the coder's error, or a panic. */
  datatype Outcome = Success(pr: PullRequest) | Failure(error: string) | Panic(error: string)

  /** What a session contributes to a failed request: its branch names and, for a task and an error,
      the checks that record the error. */
  datatype Session = Session(prName: string, id: string, baseBranch: string, checksFor: (string, string) -> string)

  function FailedPr(session: Session, taskId: string, checks: string): PullRequest {
    PullRequest(taskId, "ai/" + session.prName + "/" + session.id + "/" + taskId + "/failed", session.baseBranch,
                Failed, checks, None)
  }

  /** The request that belongs to one task, whenever and however its job ends. */
  function Settled(session: Session, task: TaskSpec, outcome: Outcome): PullRequest {
    match outcome
    case Success(pr) => pr
    case Failure(error) => FailedPr(session, task.id, session.checksFor(task.id, error))
    case Panic(error) => FailedPr(session, task.id, session.checksFor(task.id, "task join error: " + error))
  }

  /** What a request says about its task: the coder's own request, or a failed one under the task's id
      whose checks record what went wrong. */
  ghost predicate Reports(session: Session, task: TaskSpec, outcome: Outcome, pr: PullRequest) {
    match outcome
    case Success(ready) => pr == ready
    case Failure(error) => IsFailedFor(session, task, pr) && pr.checks == session.checksFor(task.id, error)
    case Panic(error) => IsFailedFor(session, task, pr) && pr.checks == session.checksFor(task.id, "task join error: " + error)
  }

  ghost predicate IsFailedFor(session: Session, task: TaskSpec, pr: PullRequest) {
    && pr.id == task.id && pr.status.Failed? && pr.headCommit.None? && pr.baseBranch == session.baseBranch
    && pr.headBranch == "ai/" + session.prName + "/" + session.id + "/" + task.id + "/failed"
  }

  // ----- Schedules -----

  datatype Moment = Spawned(index: nat) | Joined(index: nat)

  function Spawns(trace: seq<Moment>): nat {
    if trace == [] then 0 else Spawns(trace[..|trace| - 1]) + (if trace[|trace| - 1].Spawned? then 1 else 0)
  }

  function Joins(trace: seq<Moment>): nat {
    if trace == [] then 0 else Joins(trace[..|trace| - 1]) + (if trace[|trace| - 1].Joined? then 1 else 0)
  }

  function InFlight(trace: seq<Moment>): int {
    Spawns(trace) - Joins(trace)
  }

  /** `next` may follow `trace` when `n` tasks share `max` slots: tasks are spawned in order into a
      free slot, and nothing is awaited while a slot is free and a task is unstarted. */
  predicate MayFollow(trace: seq<Moment>, next: Moment, n: nat, max: nat) {
    match next
    case Spawned(i) => i == Spawns(trace) < n && InFlight(trace) < max
    case Joined(i) => Spawned(i) in trace && Joined(i) !in trace && InFlight(trace) == Min(max, n - Joins(trace))
  }

  predicate Scheduled(trace: seq<Moment>, n: nat, max: nat) {
    trace == [] ||
    (Scheduled(trace[..|trace| - 1], n, max) && MayFollow(trace[..|trace| - 1], trace[|trace| - 1], n, max))
  }

  predicate Complete(trace: seq<Moment>, n: nat, max: nat) {
    Scheduled(trace, n, max) && forall i :: 0 <= i < n ==> Joined(i) in trace
  }

  /** What a complete schedule amounts to: every task is spawned exactly once and joined exactly
      once, later than it was spawned; at no moment are more than `max` jobs in flight; and whenever
      the scheduler waits, either every slot is taken or every unfinished task is in flight. */
  lemma ScheduleFacts(trace: seq<Moment>, n: nat, max: nat, i: nat, k: nat)
    requires Complete(trace, n, max) && i < n && k <= |trace|
    ensures multiset(trace)[Spawned(i)] == 1 && multiset(trace)[Joined(i)] == 1
    ensures InFlight(trace[..k]) <= max
    ensures k < |trace| && trace[k].Joined? ==>
      InFlight(trace[..k]) == Min(max, n - Joins(trace[..k])) && Spawned(trace[k].index) in trace[..k]
  {
    assert Joined(i) in trace;
    OncePerTask(trace, n, max, i);
    ScheduledPrefix(trace, n, max, k);
    if k < |trace| {
      ScheduledPrefix(trace, n, max, k + 1);
      assert trace[..k + 1][..k] == trace[..k];
    }
  }

  lemma {:induction false} OncePerTask(trace: seq<Moment>, n: nat, max: nat, i: nat)
    requires Scheduled(trace, n, max)
    ensures multiset(trace)[Spawned(i)] == (if i < Spawns(trace) then 1 else 0)
    ensures multiset(trace)[Joined(i)] <= 1 && (Joined(i) in trace ==> Spawned(i) in trace)
  {
    if trace != [] {
      var front, last := trace[..|trace| - 1], trace[|trace| - 1];
      OncePerTask(front, n, max, i);
      assert trace == front + [last];
    }
  }

  lemma {:induction false} ScheduledPrefix(trace: seq<Moment>, n: nat, max: nat, k: nat)
    requires Scheduled(trace, n, max) && k <= |trace|
    ensures Scheduled(trace[..k], n, max) && InFlight(trace[..k]) <= max
  {
    if k == |trace| {
      assert trace[..k] == trace;
      if trace != [] {
        ScheduledPrefix(trace[..k - 1], n, max, k - 1);
        assert trace[..k - 1][..k - 1] == trace[..k - 1];
      }
    } else {
      ScheduledPrefix(trace[..|trace| - 1], n, max, k);
      assert trace[..|trace| - 1][..k] == trace[..k];
    }
  }

  // ----- The join set -----

  datatype Job = Job(index: nat, task: TaskSpec, outcome: Outcome)

  /** The jobs in flight. An id is unique among live jobs only: it can be used again later. */
  class JoinSet {
    var live: map<nat, Job>

    constructor ()
      ensures live == map[]
    {
      live := map[];
    }

    method Spawn(job: Job) returns (id: nat)
      modifies this
      ensures id !in old(live) && live == old(live)[id := job]
    {
      id := 0;
      var ids := live.Keys;
      while ids != {}
        invariant forall used :: used in live.Keys && used !in ids ==> used < id
        invariant live == old(live)
        decreases ids
      {
        var used :| used in ids;
        id := Max(id, used + 1);
        ids := ids - {used};
      }
      live := live[id := job];
    }

    /** Any live job may be the next to end; `None` when there is none. */
    method JoinNext() returns (r: Option<(nat, Job)>)
      modifies this
      ensures r.None? <==> old(live) == map[]
      ensures r.None? ==> live == old(live)
      ensures r.Some? ==> r.value.0 in old(live) && r.value.1 == old(live)[r.value.0] && live == old(live) - {r.value.0}
    {
      if live == map[] {
        return None;
      }
      var id :| id in live;
      var job := live[id];
      live := live - {id};
      return Some((id, job));
    }
  }

  // ----- run_tasks -----

  /** The jobs in flight are distinct started tasks without a result, and the metadata names them. */
  ghost predicate JobsMatch(tasks: seq<TaskSpec>, outcomes: seq<Outcome>, live: map<nat, Job>,
                            meta: map<nat, (nat, string)>, prs: seq<Option<PullRequest>>, next: nat)
    requires |tasks| == |outcomes| == |prs| && next <= |tasks|
  {
    && meta.Keys == live.Keys
    && (forall id <- live.Keys :: JobMatches(tasks, outcomes, live[id], meta[id], prs, next))
    && (forall id <- live.Keys, id' <- live.Keys :: live[id].index == live[id'].index ==> id == id')
  }

  ghost predicate JobMatches(tasks: seq<TaskSpec>, outcomes: seq<Outcome>, job: Job, entry: (nat, string),
                             prs: seq<Option<PullRequest>>, next: nat)
    requires |tasks| == |outcomes| == |prs| && next <= |tasks|
  {
    && job.index < next && job.task == tasks[job.index] && job.outcome == outcomes[job.index]
    && entry == (job.index, job.task.id) && prs[job.index].None?
  }

  /** A started task is in flight or has its result; an unstarted one has none. */
  ghost predicate SlotsMatch(tasks: seq<TaskSpec>, outcomes: seq<Outcome>, session: Session, live: map<nat, Job>,
                             prs: seq<Option<PullRequest>>, next: nat)
    requires |tasks| == |outcomes| == |prs| && next <= |tasks|
  {
    && (forall i :: 0 <= i < next && prs[i].None? ==> exists id :: id in live && live[id].index == i)
    && (forall i :: 0 <= i < |prs| && prs[i].Some? ==> prs[i].value == Settled(session, tasks[i], outcomes[i]))
    && (forall i :: next <= i < |prs| ==> prs[i].None?)
  }

  ghost predicate TraceMatches(prs: seq<Option<PullRequest>>, next: nat, inFlight: nat, trace: seq<Moment>) {
    && Spawns(trace) == next && InFlight(trace) == inFlight
    && (forall i :: 0 <= i < |prs| ==> (Spawned(i) in trace <==> i < next))
    && (forall i :: 0 <= i < |prs| ==> (Joined(i) in trace <==> prs[i].Some?))
  }

  /** The variables of the loop: results so far, metadata of the jobs in flight, the two counters,
      and what happened so far. */
  datatype Progress = Progress(
    prs: seq<Option<PullRequest>>,
    joinMeta: map<nat, (nat, string)>,
    nextIndex: nat,
    inFlight: nat,
    trace: seq<Moment>)

  ghost predicate InStep(tasks: seq<TaskSpec>, outcomes: seq<Outcome>, session: Session, max: nat, live: map<nat, Job>, p: Progress) {
    && |tasks| == |outcomes| == |p.prs| && p.nextIndex <= |tasks|
    && JobsMatch(tasks, outcomes, live, p.joinMeta, p.prs, p.nextIndex)
    && SlotsMatch(tasks, outcomes, session, live, p.prs, p.nextIndex)
    && TraceMatches(p.prs, p.nextIndex, |live|, p.trace)
    && p.inFlight == |live| <= max && Scheduled(p.trace, |tasks|, max)
  }

  method SpawnTaskJob(joinSet: JoinSet, joinMeta: map<nat, (nat, string)>, index: nat, task: TaskSpec, outcome: Outcome)
    returns (joinMeta': map<nat, (nat, string)>, ghost id: nat)
    modifies joinSet
    ensures id !in old(joinSet.live) && joinSet.live == old(joinSet.live)[id := Job(index, task, outcome)]
    ensures joinMeta' == joinMeta[id := (index, task.id)]
  {
    var handle := joinSet.Spawn(Job(index, task, outcome));
    id := handle;
    joinMeta' := joinMeta[handle := (index, task.id)];
  }

  /** Starts the next task; a slot is free. */
  method SpawnNext(tasks: seq<TaskSpec>, outcomes: seq<Outcome>, ghost session: Session, max: nat, joinSet: JoinSet, p: Progress)
    returns (p': Progress)
    requires InStep(tasks, outcomes, session, max, joinSet.live, p) && p.nextIndex < |tasks| && p.inFlight < max
    modifies joinSet
    ensures InStep(tasks, outcomes, session, max, joinSet.live, p')
    ensures p'.nextIndex == p.nextIndex + 1 && p'.inFlight == p.inFlight + 1 && p'.prs == p.prs
  {
    ghost var live := joinSet.live;
    var task, outcome := tasks[p.nextIndex], outcomes[p.nextIndex];
    var joinMeta, id := SpawnTaskJob(joinSet, p.joinMeta, p.nextIndex, task, outcome);
    p' := Progress(p.prs, joinMeta, p.nextIndex + 1, p.inFlight + 1, p.trace + [Spawned(p.nextIndex)]);
    SpawnKeepsStep(tasks, outcomes, session, max, live, p, id);
  }

  /** Starts unstarted tasks while a slot is free. */
  method Refill(tasks: seq<TaskSpec>, outcomes: seq<Outcome>, ghost session: Session, max: nat, joinSet: JoinSet, p: Progress)
    returns (p': Progress)
    requires InStep(tasks, outcomes, session, max, joinSet.live, p)
    modifies joinSet
    ensures InStep(tasks, outcomes, session, max, joinSet.live, p')
    ensures p'.nextIndex == |tasks| || p'.inFlight == max
    ensures p'.inFlight - p'.nextIndex == p.inFlight - p.nextIndex
  {
    p' := p;
    while p'.nextIndex < |tasks| && p'.inFlight < max
      invariant InStep(tasks, outcomes, session, max, joinSet.live, p')
      invariant p'.inFlight - p'.nextIndex == p.inFlight - p.nextIndex
      decreases |tasks| - p'.nextIndex
    {
      p' := SpawnNext(tasks, outcomes, session, max, joinSet, p');
    }
  }

  /** Waits for one job, records its request in its slot and frees its place. */
  method AwaitOne(tasks: seq<TaskSpec>, outcomes: seq<Outcome>, session: Session, max: nat, joinSet: JoinSet, p: Progress)
    returns (p': Progress)
    requires InStep(tasks, outcomes, session, max, joinSet.live, p) && 0 < p.inFlight
    requires p.nextIndex == |tasks| || p.inFlight == max
    modifies joinSet
    ensures InStep(tasks, outcomes, session, max, joinSet.live, p')
    ensures p'.nextIndex == p.nextIndex && p'.inFlight == p.inFlight - 1
  {
    ghost var live := joinSet.live;
    var joined := joinSet.JoinNext();
    if joined.None? {
      assert false;
    }
    var id, job := joined.value.0, joined.value.1;
    JoinKeepsStep(tasks, outcomes, session, max, live, p, id);
    var index, pr := JobResult(session, p.joinMeta, id, job);
    p' := Progress(p.prs[index := Some(pr)], p.joinMeta - {id}, p.nextIndex, p.inFlight - 1, p.trace + [Joined(index)]);
  }

  /** The slot and the request of an ended job; a panicked one is known by its metadata only. */
  method JobResult(session: Session, joinMeta: map<nat, (nat, string)>, id: nat, job: Job) returns (index: nat, pr: PullRequest)
    requires id in joinMeta && joinMeta[id] == (job.index, job.task.id)
    ensures index == job.index && pr == Settled(session, job.task, job.outcome)
    ensures Reports(session, job.task, job.outcome, pr)
  {
    match job.outcome {
      case Panic(error) =>
        if id !in joinMeta {
          assert false;
        }
        var (slot, taskId) := joinMeta[id];
        return slot, FailedPr(session, taskId, session.checksFor(taskId, "task join error: " + error));
      case Success(ready) =>
        return job.index, ready;
      case Failure(error) =>
        return job.index, FailedPr(session, job.task.id, session.checksFor(job.task.id, error));
    }
  }

  lemma ScheduledOneMore(trace: seq<Moment>, next: Moment, n: nat, max: nat)
    requires Scheduled(trace, n, max) && MayFollow(trace, next, n, max)
    ensures Scheduled(trace + [next], n, max)
  {
    assert (trace + [next])[..|trace|] == trace;
  }

  lemma TraceOneMore(prs: seq<Option<PullRequest>>, prs': seq<Option<PullRequest>>, next: nat, inFlight: nat, trace: seq<Moment>, m: Moment)
    requires TraceMatches(prs, next, inFlight, trace)
    requires m.Spawned? ==> m.index == next < |prs| && prs' == prs
    requires m.Joined? ==> 0 < inFlight && m.index < |prs| && exists pr :: prs' == prs[m.index := Some(pr)]
    ensures if m.Spawned? then TraceMatches(prs', next + 1, inFlight + 1, trace + [m])
            else TraceMatches(prs', next, inFlight - 1, trace + [m])
  {
    assert (trace + [m])[..|trace|] == trace;
    assert forall x :: x in trace + [m] <==> x in trace || x == m;
  }

  lemma SpawnKeepsJobs(tasks: seq<TaskSpec>, outcomes: seq<Outcome>, live: map<nat, Job>, meta: map<nat, (nat, string)>,
                       prs: seq<Option<PullRequest>>, next: nat, id: nat)
    requires |tasks| == |outcomes| == |prs| && next < |tasks| && id !in live
    requires JobsMatch(tasks, outcomes, live, meta, prs, next) && prs[next].None?
    ensures JobsMatch(tasks, outcomes, live[id := Job(next, tasks[next], outcomes[next])],
                      meta[id := (next, tasks[next].id)], prs, next + 1)
  {
    var live' := live[id := Job(next, tasks[next], outcomes[next])];
    var meta' := meta[id := (next, tasks[next].id)];
    forall k | k in live'.Keys ensures JobMatches(tasks, outcomes, live'[k], meta'[k], prs, next + 1) {
      if k != id {
        assert JobMatches(tasks, outcomes, live[k], meta[k], prs, next);
      }
    }
    assert forall k <- live.Keys :: live[k].index < next by {
      forall k | k in live.Keys ensures live[k].index < next {
        assert JobMatches(tasks, outcomes, live[k], meta[k], prs, next);
      }
    }
  }

  lemma SpawnKeepsSlots(tasks: seq<TaskSpec>, outcomes: seq<Outcome>, session: Session, live: map<nat, Job>,
                        prs: seq<Option<PullRequest>>, next: nat, id: nat)
    requires |tasks| == |outcomes| == |prs| && next < |tasks| && id !in live
    requires SlotsMatch(tasks, outcomes, session, live, prs, next)
    ensures SlotsMatch(tasks, outcomes, session, live[id := Job(next, tasks[next], outcomes[next])], prs, next + 1)
  {
    var live' := live[id := Job(next, tasks[next], outcomes[next])];
    assert id in live' && live'[id].index == next;
    forall i | 0 <= i < next && prs[i].None? ensures exists k :: k in live' && live'[k].index == i {
      var k :| k in live && live[k].index == i;
      assert k in live' && live'[k].index == i;
    }
  }

  lemma SpawnKeepsStep(tasks: seq<TaskSpec>, outcomes: seq<Outcome>, session: Session, max: nat, live: map<nat, Job>,
                       p: Progress, id: nat)
    requires InStep(tasks, outcomes, session, max, live, p) && p.nextIndex < |tasks| && p.inFlight < max && id !in live
    ensures var (i, task) := (p.nextIndex, tasks[p.nextIndex]);
      InStep(tasks, outcomes, session, max, live[id := Job(i, task, outcomes[i])],
             Progress(p.prs, p.joinMeta[id := (i, task.id)], i + 1, p.inFlight + 1, p.trace + [Spawned(i)]))
  {
    SpawnKeepsJobs(tasks, outcomes, live, p.joinMeta, p.prs, p.nextIndex, id);
    SpawnKeepsSlots(tasks, outcomes, session, live, p.prs, p.nextIndex, id);
    TraceOneMore(p.prs, p.prs, p.nextIndex, |live|, p.trace, Spawned(p.nextIndex));
    ScheduledOneMore(p.trace, Spawned(p.nextIndex), |tasks|, max);
  }

  lemma JoinKeepsJobs(tasks: seq<TaskSpec>, outcomes: seq<Outcome>, live: map<nat, Job>, meta: map<nat, (nat, string)>,
                      prs: seq<Option<PullRequest>>, next: nat, id: nat, pr: PullRequest)
    requires |tasks| == |outcomes| == |prs| && next <= |tasks| && id in live
    requires JobsMatch(tasks, outcomes, live, meta, prs, next)
    ensures JobMatches(tasks, outcomes, live[id], meta[id], prs, next)
    ensures JobsMatch(tasks, outcomes, live - {id}, meta - {id}, prs[live[id].index := Some(pr)], next)
  {
    assert JobMatches(tasks, outcomes, live[id], meta[id], prs, next);
    var live', meta' := live - {id}, meta - {id};
    var prs' := prs[live[id].index := Some(pr)];
    forall k | k in live'.Keys ensures JobMatches(tasks, outcomes, live'[k], meta'[k], prs', next) {
      assert k in live.Keys && JobMatches(tasks, outcomes, live[k], meta[k], prs, next);
      assert live[k].index != live[id].index;
    }
    forall k, k' | k in live'.Keys && k' in live'.Keys && live'[k].index == live'[k'].index ensures k == k' {
      assert k in live.Keys && k' in live.Keys;
    }
  }

  lemma JoinKeepsSlots(tasks: seq<TaskSpec>, outcomes: seq<Outcome>, session: Session, live: map<nat, Job>,
                       prs: seq<Option<PullRequest>>, next: nat, id: nat)
    requires |tasks| == |outcomes| == |prs| && next <= |tasks| && id in live && live[id].index < next
    requires SlotsMatch(tasks, outcomes, session, live, prs, next)
    ensures var i := live[id].index;
      SlotsMatch(tasks, outcomes, session, live - {id}, prs[i := Some(Settled(session, tasks[i], outcomes[i]))], next)
  {
    var index := live[id].index;
    var live' := live - {id};
    var prs' := prs[index := Some(Settled(session, tasks[index], outcomes[index]))];
    forall i | 0 <= i < next && prs'[i].None? ensures exists k :: k in live' && live'[k].index == i {
      var k :| k in live && live[k].index == i;
      assert k in live' && live'[k].index == i;
    }
  }

  lemma JoinKeepsStep(tasks: seq<TaskSpec>, outcomes: seq<Outcome>, session: Session, max: nat, live: map<nat, Job>,
                      p: Progress, id: nat)
    requires InStep(tasks, outcomes, session, max, live, p) && id in live
    requires p.nextIndex == |tasks| || p.inFlight == max
    ensures JobMatches(tasks, outcomes, live[id], p.joinMeta[id], p.prs, p.nextIndex)
    ensures var i := live[id].index;
      InStep(tasks, outcomes, session, max, live - {id},
             Progress(p.prs[i := Some(Settled(session, tasks[i], outcomes[i]))], p.joinMeta - {id}, p.nextIndex,
                      p.inFlight - 1, p.trace + [Joined(i)]))
  {
    assert JobMatches(tasks, outcomes, live[id], p.joinMeta[id], p.prs, p.nextIndex);
    var index := live[id].index;
    var pr := Settled(session, tasks[index], outcomes[index]);
    JoinKeepsJobs(tasks, outcomes, live, p.joinMeta, p.prs, p.nextIndex, id, pr);
    JoinKeepsSlots(tasks, outcomes, session, live, p.prs, p.nextIndex, id);
    OneJobLess(live, id);
    JoinKeepsTrace(p, index, pr, |live|, |tasks|, max);
  }

  lemma OneJobLess(live: map<nat, Job>, id: nat)
    requires id in live
    ensures |live - {id}| == |live| - 1
  {
    assert (live - {id}).Keys == live.Keys - {id};
  }

  lemma JoinKeepsTrace(p: Progress, index: nat, pr: PullRequest, inFlight: nat, n: nat, max: nat)
    requires |p.prs| == n && index < p.nextIndex <= n && p.prs[index].None? && 0 < inFlight <= max
    requires TraceMatches(p.prs, p.nextIndex, inFlight, p.trace) && Scheduled(p.trace, n, max)
    requires p.nextIndex == n || inFlight == max
    ensures TraceMatches(p.prs[index := Some(pr)], p.nextIndex, inFlight - 1, p.trace + [Joined(index)])
    ensures Scheduled(p.trace + [Joined(index)], n, max)
  {
    assert p.prs[index := Some(pr)] == p.prs[Joined(index).index := Some(pr)];
    TraceOneMore(p.prs, p.prs[index := Some(pr)], p.nextIndex, inFlight, p.trace, Joined(index));
    ScheduledOneMore(p.trace, Joined(index), n, max);
  }

  /** Every order in which the jobs end gives the same result: slot i holds the request of task i,
      a failed or panicked task's own id included. None of the error exits is taken, and the
      schedule spawns and joins each task once, never more than the limit at a time and never
      fewer while tasks remain. */
  method RunTasks(session: Session, tasks: seq<TaskSpec>, maxConcurrency: nat, outcomes: seq<Outcome>)
    returns (r: Result<seq<PullRequest>, string>, trace: seq<Moment>)
    requires |outcomes| == |tasks|
    ensures r.Ok? && |r.value| == |tasks|
    ensures forall i :: 0 <= i < |tasks| ==> Reports(session, tasks[i], outcomes[i], r.value[i])
    ensures Complete(trace, |tasks|, if maxConcurrency == 0 then 1 else maxConcurrency)
  {
    var prs: seq<Option<PullRequest>> := seq(|tasks|, _ => None);
    var max := Max(1, maxConcurrency);
    var joinSet := new JoinSet();
    var p := Progress(prs, map[], 0, 0, []);
    p := Refill(tasks, outcomes, session, max, joinSet, p);
    while p.inFlight > 0
      invariant InStep(tasks, outcomes, session, max, joinSet.live, p)
      invariant p.nextIndex == |tasks| || p.inFlight == max
      invariant fresh(joinSet)
      decreases |tasks| - p.nextIndex + p.inFlight
    {
      p := AwaitOne(tasks, outcomes, session, max, joinSet, p);
      p := Refill(tasks, outcomes, session, max, joinSet, p);
    }
    AllSettled(tasks, outcomes, session, max, joinSet.live, p);
    var out := Collect(tasks, outcomes, session, p.prs);
    SettledReports(session, tasks, outcomes, out);
    return Ok(out), p.trace;
  }

  lemma SettledReports(session: Session, tasks: seq<TaskSpec>, outcomes: seq<Outcome>, prs: seq<PullRequest>)
    requires |tasks| == |outcomes| == |prs|
    requires forall i :: 0 <= i < |tasks| ==> prs[i] == Settled(session, tasks[i], outcomes[i])
    ensures forall i :: 0 <= i < |tasks| ==> Reports(session, tasks[i], outcomes[i], prs[i])
  {
  }

  lemma AllSettled(tasks: seq<TaskSpec>, outcomes: seq<Outcome>, session: Session, max: nat, live: map<nat, Job>, p: Progress)
    requires InStep(tasks, outcomes, session, max, live, p) && p.inFlight == 0 && p.nextIndex == |tasks|
    ensures forall i :: 0 <= i < |tasks| ==> p.prs[i] == Some(Settled(session, tasks[i], outcomes[i]))
    ensures Complete(p.trace, |tasks|, max)
  {
    assert live == map[];
    forall i | 0 <= i < |tasks| ensures p.prs[i].Some? {
      assert forall id :: id !in live;
    }
  }

  method Collect(tasks: seq<TaskSpec>, ghost outcomes: seq<Outcome>, ghost session: Session, prs: seq<Option<PullRequest>>)
    returns (out: seq<PullRequest>)
    requires |tasks| == |outcomes| == |prs|
    requires forall i :: 0 <= i < |tasks| ==> prs[i] == Some(Settled(session, tasks[i], outcomes[i]))
    ensures |out| == |tasks| && forall i :: 0 <= i < |tasks| ==> out[i] == Settled(session, tasks[i], outcomes[i])
  {
    out := [];
    var i := 0;
    while i < |prs|
      invariant 0 <= i <= |prs| && |out| == i
      invariant forall k :: 0 <= k < i ==> out[k] == Settled(session, tasks[k], outcomes[k])
    {
      if prs[i].None? {
        assert false;
      }
      out := out + [prs[i].value];
      i := i + 1;
    }
  }
}
