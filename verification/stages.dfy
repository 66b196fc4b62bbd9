/** Workflow stages: jobs in the order of their needs, and the loop that runs them. */
module Stages {
  import opened Core
  import opened Ordering

  type JobId = string

  /** `variants`: the number of matrix combinations; a job without a matrix has none listed. */
  datatype Job = Job(id: JobId, needs: seq<JobId>, variants: nat)

  type Jobs = map<JobId, Job>

  /** `{job.id: job for job in jobs}`: a later job with the same id replaces an earlier one. */
  function ById(jobs: seq<Job>): (r: Jobs)
    ensures forall j | j in r :: r[j].id == j && r[j] in jobs
    ensures forall j | j in jobs :: j.id in r
  {
    if jobs == [] then map[]
    else var last := jobs[|jobs| - 1]; ById(jobs[..|jobs| - 1])[last.id := last]
  }

  /** Of several jobs with one id the last counts. */
  lemma {:induction false} LastCounts(jobs: seq<Job>, k: nat)
    requires k < |jobs| && forall m | k < m < |jobs| :: jobs[m].id != jobs[k].id
    ensures jobs[k].id in ById(jobs) && ById(jobs)[jobs[k].id] == jobs[k]
  {
    if k < |jobs| - 1 { LastCounts(jobs[..|jobs| - 1], k); }
  }

  // ---- The needs graph ----

  predicate Known(jobs: Jobs) { forall j, n | j in jobs && n in jobs[j].needs :: n in jobs }

  /** Each job of the chain needs the next. */
  predicate Chain(jobs: Jobs, c: seq<JobId>) {
    |c| > 0 && (forall i | 0 <= i < |c| :: c[i] in jobs) &&
    forall i | 0 <= i < |c| - 1 :: c[i + 1] in jobs[c[i]].needs
  }

  ghost predicate IsCycle(jobs: Jobs, c: seq<JobId>) { Chain(jobs, c) && |c| > 1 && c[0] == c[|c| - 1] }

  ghost predicate HasCycle(jobs: Jobs) { exists c :: IsCycle(jobs, c) }

  lemma ChainJoin(jobs: Jobs, c: seq<JobId>, d: seq<JobId>)
    requires Chain(jobs, c) && Chain(jobs, d) && d[0] in jobs[c[|c| - 1]].needs
    ensures Chain(jobs, c + d)
  {
    var e := c + d;
    forall i | 0 <= i < |e| - 1 ensures e[i + 1] in jobs[e[i]].needs {
      if i >= |c| { assert e[i] == d[i - |c|] && e[i + 1] == d[i - |c| + 1]; }
    }
  }

  lemma ChainSuffix(jobs: Jobs, c: seq<JobId>, k: nat)
    requires Chain(jobs, c) && k < |c|
    ensures Chain(jobs, c[k..])
  {
    var d := c[k..];
    forall i | 0 <= i < |d| - 1 ensures d[i + 1] in jobs[d[i]].needs {
      assert d[i] == c[k + i] && d[i + 1] == c[k + i + 1];
    }
  }

  ghost predicate NeedsOneOf(jobs: Jobs, j: JobId, stuck: set<JobId>) {
    j in jobs && exists n :: n in jobs[j].needs && n in stuck
  }

  /** If everything in `stuck` needs something in `stuck`, walking on from a chain closes a cycle.
      `unvisited` covers what the chain has not met. */
  lemma {:induction false} StuckHasCycle(jobs: Jobs, stuck: set<JobId>, c: seq<JobId>, unvisited: set<JobId>)
    requires Chain(jobs, c) && c[|c| - 1] in stuck
    requires forall j | j in stuck :: NeedsOneOf(jobs, j, stuck)
    requires forall j | j in stuck :: j in unvisited || j in c
    ensures HasCycle(jobs)
    decreases |unvisited|
  {
    assert |c| > 0;
    hide Chain, HasCycle, NeedsOneOf;
    var n := NextStuck(jobs, stuck, c[|c| - 1]);
    if n in c {
      CloseCycle(jobs, c, n);
    } else {
      StepChain(jobs, c, n);
      StuckHasCycle(jobs, stuck, c + [n], unvisited - {n});
    }
  }

  lemma NextStuck(jobs: Jobs, stuck: set<JobId>, j: JobId) returns (n: JobId)
    requires j in stuck && forall k | k in stuck :: NeedsOneOf(jobs, k, stuck)
    ensures j in jobs && n in jobs && n in jobs[j].needs && n in stuck
  {
    assert NeedsOneOf(jobs, j, stuck);
    n :| n in jobs[j].needs && n in stuck;
  }

  lemma CloseCycle(jobs: Jobs, c: seq<JobId>, n: JobId)
    requires Chain(jobs, c) && n in c && n in jobs && n in jobs[c[|c| - 1]].needs
    ensures HasCycle(jobs)
  {
    StepChain(jobs, c, n);
    hide Chain;
    var k :| 0 <= k < |c| && c[k] == n;
    ChainSuffix(jobs, c + [n], k);
    assert IsCycle(jobs, (c + [n])[k..]);
  }

  lemma StepChain(jobs: Jobs, c: seq<JobId>, n: JobId)
    requires Chain(jobs, c) && n in jobs && n in jobs[c[|c| - 1]].needs
    ensures Chain(jobs, c + [n])
  {
    ChainJoin(jobs, c, [n]);
  }

  // ---- What stages mean ----

  predicate InStage(stages: seq<seq<JobId>>, j: JobId, k: int) { 0 <= k < |stages| && j in stages[k] }

  /** Stages below `k`. */
  predicate Before(stages: seq<seq<JobId>>, j: JobId, k: int) { exists i :: 0 <= i < k && InStage(stages, j, i) }

  predicate Ascending(names: seq<string>) {
    forall i, j | 0 <= i < j < |names| :: names[i] != names[j] && LexLeq(names[i], names[j])
  }

  /** Needs lie in earlier stages, and one of them in the stage just before. */
  ghost predicate Layered(jobs: Jobs, stages: seq<seq<JobId>>) {
    (forall k | 0 <= k < |stages| :: stages[k] != [] && Ascending(stages[k])) &&
    (forall j, k | InStage(stages, j, k) :: j in jobs) &&
    (forall j, k, l | InStage(stages, j, k) && InStage(stages, j, l) :: k == l) &&
    (forall j, k, n | InStage(stages, j, k) && n in jobs[j].needs :: Before(stages, n, k)) &&
    (forall j, k | InStage(stages, j, k) && k > 0 :: exists n :: n in jobs[j].needs && InStage(stages, n, k - 1))
  }

  ghost predicate Partition(jobs: Jobs, stages: seq<seq<JobId>>) {
    Layered(jobs, stages) && forall j | j in jobs :: Before(stages, j, |stages|)
  }

  lemma {:induction false} ChainsFit(jobs: Jobs, stages: seq<seq<JobId>>, c: seq<JobId>, k: nat)
    requires Layered(jobs, stages) && Chain(jobs, c) && InStage(stages, c[0], k)
    ensures |c| <= k + 1
  {
    hide Ascending;
    if |c| > 1 {
      assert Before(stages, c[1], k);
      var l :| 0 <= l < k && InStage(stages, c[1], l);
      assert Chain(jobs, c[1..]);
      ChainsFit(jobs, stages, c[1..], l);
    }
  }

  lemma {:induction false} ChainReaches(jobs: Jobs, stages: seq<seq<JobId>>, j: JobId, k: nat) returns (c: seq<JobId>)
    requires Layered(jobs, stages) && InStage(stages, j, k)
    ensures Chain(jobs, c) && c[0] == j && |c| == k + 1
    decreases k
  {
    hide Ascending;
    c := [j];
    if k > 0 {
      var n :| n in jobs[j].needs && InStage(stages, n, k - 1);
      var rest := ChainReaches(jobs, stages, n, k - 1);
      ChainJoin(jobs, [j], rest);
      c := [j] + rest;
    }
  }

  /** A job's stage is the length of its longest chain of needs, not counting itself. */
  lemma StageIsLongestChain(jobs: Jobs, stages: seq<seq<JobId>>, j: JobId, k: nat)
    requires Layered(jobs, stages) && InStage(stages, j, k)
    ensures exists c :: Chain(jobs, c) && c[0] == j && |c| == k + 1
    ensures forall c | Chain(jobs, c) && c[0] == j :: |c| <= k + 1
  {
    var c := ChainReaches(jobs, stages, j, k);
    forall d | Chain(jobs, d) && d[0] == j ensures |d| <= k + 1 { ChainsFit(jobs, stages, d, k); }
  }

  /** A cycle can be walked round again, so no stage would be late enough. */
  lemma {:induction false} Unroll(jobs: Jobs, c: seq<JobId>, times: nat) returns (d: seq<JobId>)
    requires IsCycle(jobs, c)
    ensures Chain(jobs, d) && d[0] == c[0] && d[|d| - 1] == c[0] && |d| >= times + 2
  {
    d := c;
    if times > 0 {
      var e := Unroll(jobs, c, times - 1);
      ChainSuffix(jobs, e, 1);
      ChainJoin(jobs, c, e[1..]);
      d := c + e[1..];
    }
  }

  lemma PartitionHasNoCycle(jobs: Jobs, stages: seq<seq<JobId>>)
    requires Partition(jobs, stages)
    ensures Known(jobs) && !HasCycle(jobs)
  {
    hide Ascending;
    forall j, n | j in jobs && n in jobs[j].needs ensures n in jobs {
      assert Before(stages, j, |stages|);
      var k :| 0 <= k < |stages| && InStage(stages, j, k);
      assert Before(stages, n, k);
    }
    forall c ensures !IsCycle(jobs, c) {
      if IsCycle(jobs, c) {
        NoCycleAt(jobs, stages, c);
      }
    }
  }

  lemma NoCycleAt(jobs: Jobs, stages: seq<seq<JobId>>, c: seq<JobId>)
    requires Partition(jobs, stages) && Chain(jobs, c)
    ensures !IsCycle(jobs, c)
  {
    if IsCycle(jobs, c) {
      assert Before(stages, c[0], |stages|);
      var k :| 0 <= k < |stages| && InStage(stages, c[0], k);
      var d := Unroll(jobs, c, k);
      ChainsFit(jobs, stages, d, k);
      assert false;
    }
  }

  // ---- Computing the stages ----

  predicate AllIn(needs: seq<JobId>, completed: set<JobId>) { forall n | n in needs :: n in completed }

  /** Nothing still waiting could have joined an earlier stage. */
  ghost predicate Late(jobs: Jobs, stages: seq<seq<JobId>>, j: JobId) {
    j in jobs && |stages| > 0 ==> exists n :: n in jobs[j].needs && !Before(stages, n, |stages| - 1)
  }

  /** The state of the loop: what is in a stage is completed, everything else remains. */
  ghost predicate Progress(jobs: Jobs, stages: seq<seq<JobId>>, completed: set<JobId>, remaining: Jobs) {
    Layered(jobs, stages) &&
    Completed(stages, completed) && Remaining(jobs, completed, remaining) &&
    (forall j | j in remaining :: Late(jobs, stages, j))
  }

  ghost predicate Completed(stages: seq<seq<JobId>>, completed: set<JobId>) {
    forall j :: j in completed <==> Before(stages, j, |stages|)
  }

  ghost predicate Remaining(jobs: Jobs, completed: set<JobId>, remaining: Jobs) {
    (forall j | j in remaining :: j in jobs && j !in completed && remaining[j] == jobs[j]) &&
    (forall j | j in jobs :: j in remaining || j in completed)
  }

  function Ready(remaining: Jobs, completed: set<JobId>): set<JobId> {
    set j | j in remaining && AllIn(remaining[j].needs, completed)
  }

  lemma ExtendBefore(stages: seq<seq<JobId>>, next: seq<JobId>)
    ensures forall j, k :: InStage(stages + [next], j, k) <==> InStage(stages, j, k) || (k == |stages| && j in next)
    ensures forall j, k | k <= |stages| :: Before(stages + [next], j, k) <==> Before(stages, j, k)
    ensures forall j :: Before(stages + [next], j, |stages| + 1) <==> Before(stages, j, |stages|) || j in next
  {
    var all := stages + [next];
    assert forall j, k :: InStage(all, j, k) <==> InStage(stages, j, k) || (k == |stages| && j in next);
    forall j | j in next ensures Before(all, j, |stages| + 1) { assert InStage(all, j, |stages|); }
  }

  lemma UniqueStage(stages: seq<seq<JobId>>, next: seq<JobId>)
    requires forall j, k, l | InStage(stages, j, k) && InStage(stages, j, l) :: k == l
    requires forall j | j in next :: !Before(stages, j, |stages|)
    ensures forall j, k, l | InStage(stages + [next], j, k) && InStage(stages + [next], j, l) :: k == l
  {
    ExtendBefore(stages, next);
    assert forall j, k | InStage(stages, j, k) :: Before(stages, j, |stages|);
  }

  lemma InRange(stages: seq<seq<JobId>>, j: JobId, k: int)
    requires InStage(stages, j, k)
    ensures 0 <= k < |stages|
  {
  }

  ghost predicate CanFollow(jobs: Jobs, stages: seq<seq<JobId>>, j: JobId) {
    j in jobs && !Before(stages, j, |stages|) && Late(jobs, stages, j) &&
    forall n | n in jobs[j].needs :: Before(stages, n, |stages|)
  }

  lemma FollowsLast(jobs: Jobs, stages: seq<seq<JobId>>, j: JobId)
    requires CanFollow(jobs, stages, j) && |stages| > 0
    ensures exists n :: n in jobs[j].needs && InStage(stages, n, |stages| - 1)
  {
    var n :| n in jobs[j].needs && !Before(stages, n, |stages| - 1);
    assert Before(stages, n, |stages|);
    assert InStage(stages, n, |stages| - 1);
  }

  lemma LayerOnTop(jobs: Jobs, stages: seq<seq<JobId>>, next: seq<JobId>)
    requires Layered(jobs, stages) && next != [] && Ascending(next)
    requires forall j | j in next :: CanFollow(jobs, stages, j)
    ensures Layered(jobs, stages + [next])
  {
    var all := stages + [next];
    ExtendBefore(stages, next);
    forall j, k | InStage(all, j, k) && k > 0 ensures exists n :: n in jobs[j].needs && InStage(all, n, k - 1) {
      var n: JobId;
      if k == |stages| && j in next {
        FollowsLast(jobs, stages, j);
        n :| n in jobs[j].needs && InStage(stages, n, k - 1);
      } else {
        assert InStage(stages, j, k);
        n :| n in jobs[j].needs && InStage(stages, n, k - 1);
      }
      assert InStage(all, n, k - 1);
    }
    hide InStage, Before, Ascending;
    UniqueStage(stages, next);
    forall k | 0 <= k < |all| ensures all[k] != [] && Ascending(all[k]) {
      if k < |stages| { assert all[k] == stages[k]; }
    }
    forall j, k, n | InStage(all, j, k) && n in jobs[j].needs ensures Before(all, n, k) {
      InRange(all, j, k);
    }
  }

  lemma SortedAscending(names: set<string>)
    ensures Ascending(Sorted(names))
  {
    SortedIsSorted(names);
  }

  lemma ReadyFollows(jobs: Jobs, stages: seq<seq<JobId>>, completed: set<JobId>, remaining: Jobs, j: JobId)
    requires Progress(jobs, stages, completed, remaining) && j in Ready(remaining, completed)
    ensures CanFollow(jobs, stages, j)
  {
    hide Layered, Before, Late;
  }

  lemma StillLate(jobs: Jobs, stages: seq<seq<JobId>>, completed: set<JobId>, remaining: Jobs, next: seq<JobId>, j: JobId)
    requires Progress(jobs, stages, completed, remaining) && j in remaining && j !in Ready(remaining, completed)
    ensures Late(jobs, stages + [next], j)
  {
    var n :| n in jobs[j].needs && n !in completed;
    ExtendBefore(stages, next);
    hide Layered, Before;
    assert !Before(stages + [next], n, |stages|);
  }

  lemma AddStage(jobs: Jobs, stages: seq<seq<JobId>>, completed: set<JobId>, remaining: Jobs)
    requires Progress(jobs, stages, completed, remaining) && Ready(remaining, completed) != {}
    ensures var ready := Ready(remaining, completed);
            Progress(jobs, stages + [Sorted(ready)], completed + ready, remaining - ready)
  {
    hide LexLeq, Sorted, InStage, Before, Layered, Ascending, CanFollow, Late, AllIn;
    var ready := Ready(remaining, completed);
    var next := Sorted(ready);
    var all := stages + [next];
    ExtendBefore(stages, next);
    SortedAscending(ready);
    forall j | j in next ensures CanFollow(jobs, stages, j) {
      ReadyFollows(jobs, stages, completed, remaining, j);
    }
    assert next != [] by {
      var j :| j in ready;
      assert j in next;
    }
    LayerOnTop(jobs, stages, next);
    forall j | j in remaining - ready ensures Late(jobs, all, j) {
      StillLate(jobs, stages, completed, remaining, next, j);
    }
  }

  lemma NothingReady(jobs: Jobs, completed: set<JobId>, remaining: Jobs)
    requires Remaining(jobs, completed, remaining) && remaining != map[] && Ready(remaining, completed) == {}
    ensures Known(jobs) ==> HasCycle(jobs)
  {
    hide HasCycle;
    if Known(jobs) {
      var stuck := remaining.Keys;
      forall j | j in stuck ensures NeedsOneOf(jobs, j, stuck) {
        assert j !in Ready(remaining, completed);
        var n :| n in jobs[j].needs && n !in completed;
        assert n in stuck;
      }
      var j :| j in stuck;
      StuckHasCycle(jobs, stuck, [j], stuck);
    }
  }

  lemma ProgressStart(jobs: Jobs)
    ensures Progress(jobs, [], {}, jobs)
  {
  }

  lemma ProgressDone(jobs: Jobs, stages: seq<seq<JobId>>, completed: set<JobId>, remaining: Jobs)
    requires Progress(jobs, stages, completed, remaining) && remaining == map[]
    ensures Partition(jobs, stages)
  {
    hide Layered, Late, Before;
  }

  lemma StuckProgress(jobs: Jobs, stages: seq<seq<JobId>>, completed: set<JobId>, remaining: Jobs)
    requires Progress(jobs, stages, completed, remaining) && remaining != map[] && Ready(remaining, completed) == {}
    ensures Known(jobs) ==> HasCycle(jobs)
  {
    hide Known, HasCycle, Layered, Late, Before;
    NothingReady(jobs, completed, remaining);
  }

  lemma {:induction false} Shrinks(jobs: Jobs, ready: set<JobId>)
    requires ready != {} && ready <= jobs.Keys
    ensures |jobs - ready| < |jobs|
  {
    assert (jobs - ready).Keys == jobs.Keys - ready;
    var j :| j in ready;
    assert jobs.Keys - ready <= jobs.Keys - {j};
  }

  /** Either every job gets the stage of its longest chain of needs, or the needs name an unknown
      job or go round in a cycle; for any jobs at all. */
  method ComputeStages(list: seq<Job>) returns (result: Option<seq<seq<JobId>>>)
    ensures result.Some? <==> Known(ById(list)) && !HasCycle(ById(list))
    ensures result.Some? ==> Partition(ById(list), result.value)
  {
    var jobs := ById(list);
    var remaining, completed := jobs, {};
    var stages: seq<seq<JobId>> := [];
    hide LexLeq, Sorted, HasCycle, Known, Progress, Partition, AllIn;
    ProgressStart(jobs);
    result := None;
    var cyclic := false;
    while remaining != map[] && !cyclic
      invariant Progress(jobs, stages, completed, remaining)
      invariant cyclic ==> !(Known(jobs) && !HasCycle(jobs))
      decreases |remaining|, !cyclic
    {
      var ready := Ready(remaining, completed);
      if ready == {} {
        cyclic := true;
        StuckProgress(jobs, stages, completed, remaining);
      } else {
        var sorted := SortNames(ready);
        AddStage(jobs, stages, completed, remaining);
        Shrinks(remaining, ready);
        stages := stages + [sorted];
        completed, remaining := completed + ready, remaining - ready;
      }
    }
    if !cyclic {
      result := Some(stages);
      ProgressDone(jobs, stages, completed, remaining);
      PartitionHasNoCycle(jobs, stages);
    }
  }

  predicate KnownInList(list: seq<Job>) { forall k, n | 0 <= k < |list| && n in list[k].needs :: n in ById(list) }

  /** Parsing accepts a workflow exactly when every need is a job and none goes round in a cycle. */
  method ValidateNeeds(list: seq<Job>) returns (ok: bool)
    ensures ok <==> KnownInList(list) && !HasCycle(ById(list))
  {
    ok := true;
    var ids := ById(list).Keys;
    for k := 0 to |list|
      invariant ok <==> forall i, n | 0 <= i < k && n in list[i].needs :: n in ids
    {
      if exists n :: n in list[k].needs && n !in ids {
        ok := false;
      }
    }
    assert ok <==> KnownInList(list);
    if ok {
      var stages := ComputeStages(list);
      ok := stages.Some?;
    }
  }

  // ---- Running them ----

  /** One command that was started, and the phase it ended in. */
  datatype Started = Started(job: JobId, index: nat, phase: string)

  type Outcome = (JobId, nat) -> string

  function Variants(j: Job): nat { if j.variants == 0 then 1 else j.variants }

  predicate AnyFailed(log: seq<Started>) { exists e :: e in log && e.phase != "succeeded" }

  predicate AllSucceeded(jobs: Jobs, log: seq<Started>, j: JobId) {
    j in jobs && forall i | 0 <= i < Variants(jobs[j]) :: Started(j, i, "succeeded") in log
  }

  /** A job without a matrix runs once, any other once per combination. */
  lemma AllSucceededMeans(jobs: Jobs, log: seq<Started>, j: JobId)
    requires j in jobs
    ensures AllSucceeded(jobs, log, j) <==>
            Started(j, 0, "succeeded") in log && forall i: nat | i < jobs[j].variants :: Started(j, i, "succeeded") in log
  {
  }

  lemma IndexesRun(jobs: Jobs, outcome: Outcome, log: seq<Started>, e: Started)
    requires Truthful(jobs, outcome, log) && e in log
    ensures e.job in jobs && (e.index == 0 || e.index < jobs[e.job].variants) && e.phase == outcome(e.job, e.index)
  {
  }

  /** Nothing was started before every variant of everything it needs had succeeded. */
  ghost predicate Gated(jobs: Jobs, log: seq<Started>) {
    forall k | 0 <= k < |log| ::
      log[k].job in jobs && forall n | n in jobs[log[k].job].needs :: AllSucceeded(jobs, log[..k], n)
  }

  ghost predicate Once(log: seq<Started>) {
    forall k, l | 0 <= k < l < |log| :: log[k].job != log[l].job || log[k].index != log[l].index
  }

  predicate Ran(jobs: Jobs, outcome: Outcome, log: seq<Started>, j: JobId, upTo: nat) {
    forall i | 0 <= i < upTo :: Started(j, i, outcome(j, i)) in log
  }

  ghost predicate Truthful(jobs: Jobs, outcome: Outcome, log: seq<Started>) {
    forall e | e in log :: e.job in jobs && e.index < Variants(jobs[e.job]) && e.phase == outcome(e.job, e.index)
  }

  /** The jobs in `started` ran in full, one variant after the other, and nothing else ran. */
  ghost predicate LogOk(jobs: Jobs, outcome: Outcome, log: seq<Started>, started: set<JobId>) {
    Gated(jobs, log) && Once(log) && Truthful(jobs, outcome, log) &&
    (forall e | e in log :: e.job in started) &&
    (forall j | j in started :: j in jobs && Ran(jobs, outcome, log, j, Variants(jobs[j])))
  }

  lemma GatedAppend(jobs: Jobs, log: seq<Started>, e: Started)
    requires Gated(jobs, log) && e.job in jobs && forall n | n in jobs[e.job].needs :: AllSucceeded(jobs, log, n)
    ensures Gated(jobs, log + [e])
  {
    var log' := log + [e];
    forall k | 0 <= k < |log'|
      ensures log'[k].job in jobs && forall n | n in jobs[log'[k].job].needs :: AllSucceeded(jobs, log'[..k], n)
    {
      assert log'[..k] == if k < |log| then log[..k] else log;
    }
  }

  method RunJob(jobs: Jobs, outcome: Outcome, j: JobId, before: seq<Started>, wasFailed: bool, ghost started: set<JobId>)
    returns (log: seq<Started>, failed: bool)
    requires wasFailed <==> AnyFailed(before)
    requires LogOk(jobs, outcome, before, started) && j in jobs && j !in started
    requires forall n | n in jobs[j].needs :: AllSucceeded(jobs, before, n)
    ensures LogOk(jobs, outcome, log, started + {j})
    ensures before <= log && (failed <==> AnyFailed(log))
  {
    log, failed := before, wasFailed;
    for i := 0 to Variants(jobs[j])
      invariant before <= log && (failed <==> AnyFailed(log))
      invariant Gated(jobs, log) && Once(log) && Truthful(jobs, outcome, log)
      invariant forall e | e in log :: e.job in started || (e.job == j && e.index < i)
      invariant Ran(jobs, outcome, log, j, i)
      invariant forall n | n in jobs[j].needs :: AllSucceeded(jobs, log, n)
    {
      GatedAppend(jobs, log, Started(j, i, outcome(j, i)));
      hide Gated;
      log := log + [Started(j, i, outcome(j, i))];
      failed := failed || outcome(j, i) != "succeeded";
    }
    assert forall k | k in started :: Ran(jobs, outcome, log, k, Variants(jobs[k]));
  }

  /** What ran and did not fail has succeeded in every variant. */
  lemma RanSucceeded(jobs: Jobs, outcome: Outcome, log: seq<Started>, started: set<JobId>, j: JobId)
    requires LogOk(jobs, outcome, log, started) && !AnyFailed(log) && j in started
    ensures AllSucceeded(jobs, log, j)
  {
    hide Gated, Once;
    assert Ran(jobs, outcome, log, j, Variants(jobs[j]));
    forall i | 0 <= i < Variants(jobs[j]) ensures Started(j, i, "succeeded") in log {
      assert Started(j, i, outcome(j, i)) in log;
    }
  }

  /** How far the run has come: the jobs of the first `k` stages and `m` jobs of the next. */
  ghost predicate Reached(stages: seq<seq<JobId>>, started: set<JobId>, k: nat, m: nat)
    requires k < |stages| && m <= |stages[k]|
  {
    forall j :: j in started <==> Before(stages, j, k) || j in stages[k][..m]
  }

  lemma {:induction false} MoreSucceeded(jobs: Jobs, log: seq<Started>, log': seq<Started>, j: JobId)
    requires AllSucceeded(jobs, log, j) && log <= log'
    ensures AllSucceeded(jobs, log', j)
  {
    assert forall e | e in log :: e in log';
  }

  method RunStage(jobs: Jobs, outcome: Outcome, stages: seq<seq<JobId>>, k: nat, before: seq<Started>, ghost started: set<JobId>)
    returns (log: seq<Started>, failed: bool, ghost now: set<JobId>)
    requires Layered(jobs, stages) && k < |stages|
    requires LogOk(jobs, outcome, before, started) && !AnyFailed(before)
    requires forall j :: j in started <==> Before(stages, j, k)
    ensures LogOk(jobs, outcome, log, now) && (failed <==> AnyFailed(log))
    ensures forall j :: j in now <==> Before(stages, j, k + 1)
  {
    log, failed, now := before, false, started;
    hide LogOk, AnyFailed, AllSucceeded;
    for m := 0 to |stages[k]|
      invariant LogOk(jobs, outcome, log, now) && before <= log && (failed <==> AnyFailed(log))
      invariant Reached(stages, now, k, m)
    {
      var j := stages[k][m];
      StageJob(jobs, stages, k, m);
      forall n | n in jobs[j].needs ensures AllSucceeded(jobs, log, n) {
        RanSucceeded(jobs, outcome, before, started, n);
        MoreSucceeded(jobs, before, log, n);
      }
      log, failed := RunJob(jobs, outcome, j, log, failed, now);
      now := now + {j};
    }
    StageEnd(stages, now, k);
  }

  lemma StageJob(jobs: Jobs, stages: seq<seq<JobId>>, k: nat, m: nat)
    requires Layered(jobs, stages) && k < |stages| && m < |stages[k]|
    ensures var j := stages[k][m];
            j in jobs && !Before(stages, j, k) && j !in stages[k][..m] &&
            forall n | n in jobs[j].needs :: Before(stages, n, k)
  {
    var j := stages[k][m];
    assert InStage(stages, j, k) && Ascending(stages[k]);
  }

  lemma StageEnd(stages: seq<seq<JobId>>, started: set<JobId>, k: nat)
    requires k < |stages| && Reached(stages, started, k, |stages[k]|)
    ensures forall j :: j in started <==> Before(stages, j, k + 1)
  {
    forall j ensures j in started <==> Before(stages, j, k + 1) {
      assert InStage(stages, j, k) <==> j in stages[k][..|stages[k]|];
    }
  }

  /** Runs the workflow against any outcomes.  A job starts only after every variant of every need
      has succeeded, nothing starts twice, and success means that every job ran. */
  method RunWorkflow(list: seq<Job>, outcome: Outcome) returns (result: Option<seq<Started>>, phase: string)
    ensures result.Some? <==> Known(ById(list)) && !HasCycle(ById(list))
    ensures result.Some? ==>
              var jobs, log := ById(list), result.value;
              Gated(jobs, log) && Once(log) && Truthful(jobs, outcome, log) &&
              (forall e | e in log :: Ran(jobs, outcome, log, e.job, Variants(jobs[e.job]))) &&
              (phase == "succeeded" <==> !AnyFailed(log)) &&
              (phase == "succeeded" ==> forall j | j in jobs :: AllSucceeded(jobs, log, j))
  {
    var jobs := ById(list);
    var found := ComputeStages(list);
    result, phase := None, "failed";
    if found.Some? {
      var stages := found.value;
      var log: seq<Started> := [];
      var failed, k := false, 0;
      ghost var started: set<JobId> := {};
      assert forall j :: !Before(stages, j, 0);
      hide Gated, Once, Layered, Before, HasCycle, Known;
      NothingStarted(jobs, outcome);
      while k < |stages| && !failed
        invariant k <= |stages| && LogOk(jobs, outcome, log, started) && (failed <==> AnyFailed(log))
        invariant forall j :: j in started <==> Before(stages, j, k)
        decreases |stages| - k
      {
        log, failed, started := RunStage(jobs, outcome, stages, k, log, started);
        k := k + 1;
      }
      result, phase := Some(log), if failed then "failed" else "succeeded";
      if !failed {
        forall j | j in jobs ensures AllSucceeded(jobs, log, j) {
          RanSucceeded(jobs, outcome, log, started, j);
        }
      }
    }
  }

  lemma NothingStarted(jobs: Jobs, outcome: Outcome)
    ensures LogOk(jobs, outcome, [], {}) && !AnyFailed([])
  {
  }
}
