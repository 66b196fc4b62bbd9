/** The secondary indexes of the actions queue: by repository, by status, and the queue of
    pending runs, kept beside the run states by operations that execute one at a time. */
module RunIndex {
  import opened Core
  import opened Ordering
  import opened RunLease

  type Shard = RunId -> string

  // ---- Queue names ----

  /** The last component of a ref name, as `rsplit("/", 1)[-1]` gives it. */
  function LastPart(name: string): string
  {
    if name == "" then ""
    else if '/' in name[1..] then LastPart(name[1..])
    else if name[0] == '/' then name[1..] else name
  }

  predicate EndsWith(name: string, suffix: string) {
    |suffix| <= |name| && name[|name| - |suffix|..] == suffix
  }

  function Bucket(r: Run): string {
    if r.detail.requestedRegion.Some? && r.hardPin then r.detail.requestedRegion.value else "any"
  }

  /** Below the queue prefix: spec key, route, shard, run. */
  function QueueName(shard: Shard, run: RunId, r: Run): string {
    r.detail.specKey + "/" + Bucket(r) + "/" + shard(run) + "/" + run
  }

  /** A run that `_refresh_queue_ref` puts on the queue. */
  predicate Queued(r: Run) { r.phase == Pending && r.detail.specKey != "" }

  lemma {:induction false} LastPartOf(front: string, run: string)
    requires '/' !in run
    ensures LastPart(front + "/" + run) == run && EndsWith(front + "/" + run, "/" + run)
  {
    var name := front + "/" + run;
    if front == "" {
      assert name[1..] == run;
    } else {
      LastPartOf(front[1..], run);
      assert name[1..] == front[1..] + "/" + run;
      assert name[1..][|front| - 1] == '/';
    }
    assert name[|front|..] == "/" + run;
  }

  lemma NameIsSplit(shard: Shard, run: RunId, r: Run)
    requires '/' !in run
    ensures LastPart(QueueName(shard, run, r)) == run
    ensures EndsWith(QueueName(shard, run, r), "/" + run)
  {
    var front := r.detail.specKey + "/" + Bucket(r) + "/" + shard(run);
    assert QueueName(shard, run, r) == front + "/" + run;
    LastPartOf(front, run);
  }

  /** A queue name ends in `/run` only if it is that run's. */
  lemma EndsWithIsLast(name: string, run: RunId)
    requires '/' !in run && EndsWith(name, "/" + run)
    ensures LastPart(name) == run
  {
    var front := name[..|name| - |run| - 1];
    assert name == front + ("/" + run);
    assert name == front + "/" + run;
    LastPartOf(front, run);
  }

  // ---- What the indexes mean ----

  predicate PlainIds(states: map<RunId, Run>) { forall r | r in states :: '/' !in r }

  ghost predicate StatusExact(states: map<RunId, Run>, byStatus: map<(Phase, RunId), Run>) {
    (forall k | k in byStatus :: k.1 in states && states[k.1].phase == k.0 && byStatus[k] == states[k.1]) &&
    (forall r | r in states :: (states[r].phase, r) in byStatus)
  }

  ghost predicate QueueSound(shard: Shard, states: map<RunId, Run>, queue: map<string, Run>) {
    forall n | n in queue ::
      var r := LastPart(n);
      r in states && Queued(states[r]) && n == QueueName(shard, r, states[r]) && queue[n] == states[r]
  }

  ghost predicate QueueComplete(shard: Shard, states: map<RunId, Run>, queue: map<string, Run>) {
    forall r | r in states && Queued(states[r]) :: QueueName(shard, r, states[r]) in queue
  }

  /** Writing `r` over a run would leave its old queue ref behind. */
  predicate LeavesStale(shard: Shard, states: map<RunId, Run>, run: RunId, r: Run) {
    run in states && Queued(states[run]) && r.phase == Pending &&
    !(Queued(r) && QueueName(shard, run, r) == QueueName(shard, run, states[run]))
  }

  /** Refs that end in `/run` go away. */
  function Without(queue: map<string, Run>, run: RunId): map<string, Run> {
    map n | n in queue && !EndsWith(n, "/" + run) :: queue[n]
  }

  function Refreshed(shard: Shard, queue: map<string, Run>, previous: Option<Phase>, run: RunId, r: Run): map<string, Run> {
    var cleared := if previous == Some(Pending) && r.phase != Pending then Without(queue, run) else queue;
    if Queued(r) then cleared[QueueName(shard, run, r) := r] else cleared
  }

  function PhaseOf(states: map<RunId, Run>, run: RunId): Option<Phase> {
    if run in states then Some(states[run].phase) else None
  }

  /** One refresh keeps the queue exact, unless it leaves a stale ref; then it does not. */
  lemma RefreshExactIff(shard: Shard, states: map<RunId, Run>, queue: map<string, Run>, run: RunId, r: Run)
    requires PlainIds(states) && '/' !in run
    requires QueueSound(shard, states, queue) && QueueComplete(shard, states, queue)
    ensures var states' := states[run := r];
            var queue' := Refreshed(shard, queue, PhaseOf(states, run), run, r);
            QueueComplete(shard, states', queue') && (QueueSound(shard, states', queue') <==> !LeavesStale(shard, states, run, r))
  {
    var states' := states[run := r];
    var queue' := Refreshed(shard, queue, PhaseOf(states, run), run, r);
    RefreshComplete(shard, states, queue, run, r);
    if LeavesStale(shard, states, run, r) {
      var n := QueueName(shard, run, states[run]);
      NameIsSplit(shard, run, states[run]);
      assert n in queue';
    } else {
      RefreshSound(shard, states, queue, run, r);
    }
  }

  lemma RefreshComplete(shard: Shard, states: map<RunId, Run>, queue: map<string, Run>, run: RunId, r: Run)
    requires PlainIds(states) && '/' !in run && QueueComplete(shard, states, queue)
    ensures QueueComplete(shard, states[run := r], Refreshed(shard, queue, PhaseOf(states, run), run, r))
  {
    hide EndsWith, LastPart, QueueName;
    var states' := states[run := r];
    var queue' := Refreshed(shard, queue, PhaseOf(states, run), run, r);
    forall q | q in states' && Queued(states'[q]) ensures QueueName(shard, q, states'[q]) in queue' {
      if q != run {
        var n := QueueName(shard, q, states[q]);
        NameIsSplit(shard, q, states[q]);
        if EndsWith(n, "/" + run) { EndsWithIsLast(n, run); }
      }
    }
  }

  lemma RefreshSound(shard: Shard, states: map<RunId, Run>, queue: map<string, Run>, run: RunId, r: Run)
    requires PlainIds(states) && '/' !in run && QueueSound(shard, states, queue) && !LeavesStale(shard, states, run, r)
    ensures QueueSound(shard, states[run := r], Refreshed(shard, queue, PhaseOf(states, run), run, r))
  {
    hide EndsWith, LastPart, QueueName;
    NameIsSplit(shard, run, r);
    var states' := states[run := r];
    var queue' := Refreshed(shard, queue, PhaseOf(states, run), run, r);
    forall n | n in queue'
      ensures var q := LastPart(n);
              q in states' && Queued(states'[q]) && n == QueueName(shard, q, states'[q]) && queue'[n] == states'[q]
    {
      if n in queue && LastPart(n) == run {
        NameIsSplit(shard, run, states[run]);
      }
    }
  }

  lemma {:induction false} SortedLength(names: set<string>)
    ensures |Sorted(names)| == |names|
  {
    if names != {} {
      LeastExists(names);
      var m :| IsLeast(m, names);
      SortedHead(names, m);
      SortedLength(names - {m});
    }
  }

  // ---- Steps ----

  datatype Step = Create(run: RunId, initial: Run) | Do(op: Op, now: int, minted: Token)

  function Effect(states: map<RunId, Run>, step: Step): map<RunId, Run> {
    match step
    case Create(run, initial) => states[run := initial]
    case Do(op, now, minted) =>
      if op.run in states && Guard(op, states[op.run], now)
      then states[op.run := Apply(op, states[op.run], now, minted)] else states
  }

  /** One operation, by what it needs and what it records. */
  lemma EffectMeans(states: map<RunId, Run>, op: Op, now: int, minted: Token)
    ensures var after := Effect(states, Do(op, now, minted));
            if op.run in states && May(op, states[op.run], now)
            then op.run in after && after == states[op.run := after[op.run]] &&
                 Recorded(op, states[op.run], after[op.run], now, minted)
            else after == states
  {
  }

  /** Applied from the left. */
  function After(states: map<RunId, Run>, steps: seq<Step>): map<RunId, Run> {
    if steps == [] then states else Effect(After(states, steps[..|steps| - 1]), steps[|steps| - 1])
  }

  /** No persist of a run leaves a stale queue ref; creating a run with a new id never does. */
  predicate Smooth(shard: Shard, states: map<RunId, Run>, steps: seq<Step>) {
    forall i | 0 <= i < |steps| && steps[i].Create? ::
      '/' !in steps[i].run && !LeavesStale(shard, After(states, steps[..i]), steps[i].run, steps[i].initial)
  }

  /** The lease operations never leave one. */
  lemma OperationsSmooth(shard: Shard, states: map<RunId, Run>, op: Op, now: int, minted: Token)
    requires op.run in states && Guard(op, states[op.run], now)
    ensures !LeavesStale(shard, states, op.run, Apply(op, states[op.run], now, minted))
  {
    var r := states[op.run];
    var r' := Apply(op, r, now, minted);
    if op.Release? {
      assert QueueName(shard, op.run, r') == QueueName(shard, op.run, r);
    }
  }

  // ---- Listings ----

  function QueuedRuns(states: map<RunId, Run>): set<RunId> { set r | r in states && Queued(states[r]) }

  function RunsIn(states: map<RunId, Run>, status: Option<Phase>): set<RunId> {
    set r | r in states && (status.None? || status.value == states[r].phase)
  }

  function LastParts(names: set<string>): set<string> { set n | n in names :: LastPart(n) }

  lemma {:induction false} LastPartsSize(names: set<string>)
    requires forall m, n | m in names && n in names && m != n :: LastPart(m) != LastPart(n)
    ensures |LastParts(names)| == |names|
  {
    hide LastPart;
    if names != {} {
      var n :| n in names;
      LastPartsSize(names - {n});
      assert LastParts(names) == LastParts(names - {n}) + {LastPart(n)};
    }
  }

  /** The queue holds one ref for each queued run and no other. */
  lemma QueueSize(shard: Shard, states: map<RunId, Run>, queue: map<string, Run>)
    requires PlainIds(states) && QueueSound(shard, states, queue) && QueueComplete(shard, states, queue)
    ensures LastParts(queue.Keys) == QueuedRuns(states) && |queue.Keys| == |QueuedRuns(states)|
  {
    hide LastPart, QueueName;
    forall r | r in QueuedRuns(states) ensures r in LastParts(queue.Keys) {
      NameIsSplit(shard, r, states[r]);
      assert QueueName(shard, r, states[r]) in queue.Keys;
    }
    LastPartsSize(queue.Keys);
  }

  ghost function NameOf(shard: Shard, states: map<RunId, Run>, r: RunId): string {
    if r in states then QueueName(shard, r, states[r]) else ""
  }

  /** Each run once, by ascending queue name. */
  ghost predicate InQueueOrder(shard: Shard, states: map<RunId, Run>, ids: seq<RunId>) {
    forall i, j | 0 <= i < j < |ids| ::
      ids[i] != ids[j] && LexLeq(NameOf(shard, states, ids[i]), NameOf(shard, states, ids[j]))
  }

  lemma PendingRight(shard: Shard, states: map<RunId, Run>, queue: map<string, Run>, ids: seq<RunId>)
    requires PlainIds(states) && QueueSound(shard, states, queue) && QueueComplete(shard, states, queue)
    requires |ids| <= |Sorted(queue.Keys)| && forall k | 0 <= k < |ids| :: ids[k] == LastPart(Sorted(queue.Keys)[k])
    ensures forall r | r in ids :: r in QueuedRuns(states)
    ensures InQueueOrder(shard, states, ids)
    ensures |ids| == |QueuedRuns(states)| ==> forall r :: r in ids <==> r in QueuedRuns(states)
  {
    hide LastPart, QueueName, LexLeq, Sorted;
    var names := Sorted(queue.Keys);
    QueueSize(shard, states, queue);
    SortedLength(queue.Keys);
    SortedIsSorted(queue.Keys);
    forall k | 0 <= k < |ids| ensures ids[k] in QueuedRuns(states) && names[k] == NameOf(shard, states, ids[k]) {
      assert names[k] in names;
    }
    hide QueueSound, QueueComplete, QueuedRuns, Queued;
    if |ids| == |QueuedRuns(states)| {
      forall r | r in QueuedRuns(states) ensures r in ids {
        AllListed(queue.Keys, ids, r);
      }
    }
  }

  lemma AllListed(keys: set<string>, ids: seq<RunId>, r: RunId)
    requires r in LastParts(keys) && |ids| == |Sorted(keys)|
    requires forall k | 0 <= k < |ids| :: ids[k] == LastPart(Sorted(keys)[k])
    ensures r in ids
  {
    hide LastPart, Sorted;
    var names := Sorted(keys);
    var n :| n in keys && LastPart(n) == r;
    assert n in names;
    var k :| 0 <= k < |names| && names[k] == n;
    assert ids[k] == r;
  }

  function Min(a: nat, b: nat): nat { if a < b then a else b }

  class Index {
    const shard: Shard
    var states: map<RunId, Run>
    var byRepo: map<RunId, Run>
    var byStatus: map<(Phase, RunId), Run>
    var queue: map<string, Run>

    constructor (shard: Shard)
      ensures this.shard == shard && Exact() && states == map[]
    {
      this.shard := shard;
      states, byRepo, byStatus, queue := map[], map[], map[], map[];
    }

    /** Every index is the function of the run states it should be. */
    ghost predicate Exact()
      reads this
    {
      PlainIds(states) && byRepo == states && StatusExact(states, byStatus) &&
      QueueSound(shard, states, queue) && QueueComplete(shard, states, queue)
    }

    method DeleteQueueRefs(run: RunId)
      modifies this`queue
      ensures queue == Without(old(queue), run)
    {
      var names := queue.Keys;
      while names != {}
        invariant names <= queue.Keys <= old(queue.Keys)
        invariant forall n | n in queue :: queue[n] == old(queue)[n] && (n in names || !EndsWith(n, "/" + run))
        invariant forall n | n in old(queue) && n !in queue :: EndsWith(n, "/" + run)
      {
        var n :| n in names;
        if EndsWith(n, "/" + run) {
          queue := queue - {n};
        }
        names := names - {n};
      }
    }

    method RefreshQueueRef(run: RunId, r: Run, previous: Option<Phase>)
      modifies this`queue
      ensures queue == Refreshed(shard, old(queue), previous, run, r)
    {
      if previous == Some(Pending) && r.phase != Pending {
        DeleteQueueRefs(run);
      }
      if r.phase != Pending { return; }
      if r.detail.specKey == "" { return; }
      queue := queue[QueueName(shard, run, r) := r];
    }

    method RefreshIndexes(run: RunId, r: Run, previous: Option<Phase>)
      modifies this`byRepo, this`byStatus, this`queue
      ensures byRepo == old(byRepo)[run := r]
      ensures byStatus == (if previous.Some? && previous.value != r.phase
                           then old(byStatus) - {(previous.value, run)} else old(byStatus))[(r.phase, run) := r]
      ensures queue == Refreshed(shard, old(queue), previous, run, r)
    {
      if previous.Some? && previous.value != r.phase {
        byStatus := byStatus - {(previous.value, run)};
      }
      byRepo := byRepo[run := r];
      byStatus := byStatus[(r.phase, run) := r];
      RefreshQueueRef(run, r, previous);
    }

    /** Unconditional when nothing is expected, else a compare-and-swap.  The indexes stay exact
        except in the one case that leaves a stale queue ref. */
    method Persist(run: RunId, r: Run, expected: Option<Run>) returns (ok: bool)
      requires Exact() && '/' !in run
      modifies this
      ensures ok <==> expected.None? || (run in old(states) && old(states)[run] == expected.value)
      ensures !ok ==> Exact() && states == old(states) && byRepo == old(byRepo) && byStatus == old(byStatus) && queue == old(queue)
      ensures ok ==> states == old(states)[run := r]
      ensures ok ==> byRepo == states && StatusExact(states, byStatus) && QueueComplete(shard, states, queue)
      ensures ok ==> (Exact() <==> !LeavesStale(shard, old(states), run, r))
    {
      hide QueueSound, QueueComplete, LeavesStale, Refreshed, Queued;
      var previous := PhaseOf(states, run);
      if expected.Some? && !(run in states && states[run] == expected.value) { return false; }
      RefreshExactIff(shard, states, queue, run, r);
      states := states[run := r];
      RefreshIndexes(run, r, previous);
      ok := true;
    }

    /** Any lease operation, run alone. */
    method Perform(op: Op, now: int, minted: Token) returns (ok: bool)
      requires Exact()
      modifies this
      ensures Exact() && states == Effect(old(states), Do(op, now, minted))
      ensures ok <==> op.run in old(states) && Guard(op, old(states)[op.run], now)
    {
      if op.run !in states { return false; }
      var expected := states[op.run];
      if !Guard(op, expected, now) { return false; }
      OperationsSmooth(shard, states, op, now, minted);
      hide Guard, Apply, LeavesStale;
      ok := Persist(op.run, Apply(op, expected, now, minted), Some(expected));
    }

    /** Whatever is executed one at a time, all three indexes agree with the run states. */
    method Execute(steps: seq<Step>)
      requires Exact() && Smooth(shard, states, steps)
      modifies this
      ensures Exact() && states == After(old(states), steps)
    {
      hide LeavesStale, Guard, Apply, StatusExact, QueueSound, QueueComplete;
      for i := 0 to |steps|
        invariant Exact() && states == After(old(states), steps[..i])
      {
        assert steps[..i + 1][..i] == steps[..i];
        match steps[i]
        case Create(run, initial) => var _ := Persist(run, initial, None);
        case Do(op, now, minted) => var _ := Perform(op, now, minted);
      }
      assert steps[..|steps|] == steps;
    }

    /** The scheduler's view: with a large enough limit, precisely the pending runs that can be
        routed, each once, in the order of their queue names. */
    method PendingRunIds(limit: nat) returns (ids: seq<RunId>)
      requires Exact()
      ensures |ids| == Min(limit, |QueuedRuns(states)|)
      ensures forall r | r in ids :: r in QueuedRuns(states)
      ensures InQueueOrder(shard, states, ids)
      ensures limit >= |QueuedRuns(states)| ==> forall r :: r in ids <==> r in QueuedRuns(states)
    {
      hide LastPart, QueueName, LexLeq, Sorted, QueueSound, QueueComplete, QueuedRuns, InQueueOrder;
      QueueSize(shard, states, queue);
      SortedLength(queue.Keys);
      var names := SortNames(queue.Keys);
      ids := [];
      for i := 0 to Min(limit, |names|)
        invariant |ids| == i
        invariant forall k | 0 <= k < i :: ids[k] == LastPart(names[k])
      {
        ids := ids + [LastPart(names[i])];
      }
      PendingRight(shard, states, queue, ids);
    }

    /** A window of the newest runs, of one status or of all: read from an index, true of the states. */
    method ListRuns(status: Option<Phase>, limit: nat, offset: nat) returns (ids: seq<RunId>)
      requires Exact()
      ensures var s := Sorted(RunsIn(states, status));
              |ids| == Min(limit, if |s| < offset then 0 else |s| - offset) &&
              forall i | 0 <= i < |ids| :: ids[i] == s[|s| - 1 - offset - i]
      ensures forall i, j | 0 <= i < j < |ids| :: ids[i] != ids[j] && LexLeq(ids[j], ids[i])
    {
      hide LexLeq, Sorted;
      var found := if status.None? then byRepo.Keys
                   else set k | k in byStatus && k.0 == status.value :: k.1;
      ListedRight(states, byRepo, byStatus, status);
      assert found == RunsIn(states, status);
      SortedIsSorted(found);
      var names := SortNames(found);
      ids := [];
      for i := 0 to Min(limit, if |names| < offset then 0 else |names| - offset)
        invariant |ids| == i
        invariant forall k | 0 <= k < i :: ids[k] == names[|names| - 1 - offset - k]
      {
        ids := ids + [names[|names| - 1 - offset - i]];
      }
    }
  }

  lemma ListedRight(states: map<RunId, Run>, byRepo: map<RunId, Run>, byStatus: map<(Phase, RunId), Run>, status: Option<Phase>)
    requires byRepo == states && StatusExact(states, byStatus)
    ensures RunsIn(states, status) ==
            if status.None? then byRepo.Keys else set k | k in byStatus && k.0 == status.value :: k.1
  {
    if status.Some? {
      forall r | r in RunsIn(states, status) ensures (status.value, r) in byStatus {
        assert (states[r].phase, r) in byStatus;
      }
    }
  }

  /** Where a run is queued: under its spec key, and under the requested region if the run is pinned to
      it, else under `any`; it is listed there with its state as it is. */
  lemma QueuedUnderRoute(shard: Shard, queue: map<string, Run>, previous: Option<Phase>, run: RunId, r: Run, route: string)
    requires r.phase == Pending && r.detail.specKey != ""
    requires r.hardPin && r.detail.requestedRegion.Some? ==> route == r.detail.requestedRegion.value
    requires !r.hardPin || r.detail.requestedRegion.None? ==> route == "any"
    ensures var name := r.detail.specKey + "/" + route + "/" + shard(run) + "/" + run;
            var after := Refreshed(shard, queue, previous, run, r);
            name in after && after[name] == r && forall n | n in queue && n != name :: n in after && after[n] == queue[n]
  {
  }

  /** A run that is not pending, or has no spec key, is not put on the queue, and one that leaves
      pending is taken off it. */
  lemma NotQueued(shard: Shard, queue: map<string, Run>, previous: Option<Phase>, run: RunId, r: Run)
    requires r.phase != Pending || r.detail.specKey == ""
    ensures forall n | n in Refreshed(shard, queue, previous, run, r) :: n in queue
    ensures previous == Some(Pending) && r.phase != Pending ==>
              forall n | n in Refreshed(shard, queue, previous, run, r) :: !EndsWith(n, "/" + run)
  {
  }

  /** A pending run without a spec key gets no queue ref, and the queue is exact without one. */
  lemma UnroutedExample(shard: Shard)
    ensures var a := Run(Pending, None, None, 0, Detail("", "", "", None, None), false, None);
            var states: map<RunId, Run> := map["r" := a];
            Refreshed(shard, map[], None, "r", a) == map[] && QueuedRuns(states) == {} &&
            QueueSound(shard, states, map[]) && QueueComplete(shard, states, map[])
  {
  }

  /** Persisting a pending run again on another route leaves two queue refs for it. */
  lemma StaleExample(shard: Shard)
    ensures var a := Run(Pending, None, None, 0, Detail("", "", "linux", None, None), false, None);
            var b := a.(detail := Detail("", "", "gpu", None, None));
            var states: map<RunId, Run> := map["r" := a];
            var queue: map<string, Run> := map[QueueName(shard, "r", a) := a];
            QueueSound(shard, states, queue) && QueueComplete(shard, states, queue) &&
            LeavesStale(shard, states, "r", b) && |Refreshed(shard, queue, Some(Pending), "r", b)| == 2
  {
    var a := Run(Pending, None, None, 0, Detail("", "", "linux", None, None), false, None);
    var b := a.(detail := Detail("", "", "gpu", None, None));
    NameIsSplit(shard, "r", a);
    assert QueueName(shard, "r", a)[0] == 'l' && QueueName(shard, "r", b)[0] == 'g';
    var queue: map<string, Run> := map[QueueName(shard, "r", a) := a];
    var queue' := Refreshed(shard, queue, Some(Pending), "r", b);
    assert queue' == map[QueueName(shard, "r", a) := a, QueueName(shard, "r", b) := b];
  }
}
