/** Compare-and-swap of a ref in an object store that has no compare-and-swap.

    `cas_ref` takes a lock object with put-if-absent, reads the ref, writes it, and deletes the
    lock: four requests, each a step here, interleaved over any number of processes.  A process may
    die between any two requests, and any request may fail without having been applied. */
module LockCas {
  import opened Core

  type Name = string
  type Value = nat
  type Pid = nat

  datatype Call = Call(name: Name, expected: Option<Value>, new_: Value)

  datatype Phase =
    | Begun
    | Locked                     // the lock object is ours
    | Matched                    // the ref was read and equals `expected`
    | Mismatched                 // the ref was read and differs
    | Written                    // `new_` was put
    | Returned(result: bool)
    | Raised                     // an exception went to the caller, lock deleted
    | Dead(holding: bool)        // crashed, or failed to delete the lock

  datatype Proc = Proc(call: Call, phase: Phase)

  datatype State = State(refs: map<Name, Value>, locks: set<Name>, procs: map<Pid, Proc>)

  datatype Event = Begin(call: Call) | Acquire | Read | Put | Release | Fail | Crash

  function Lookup(refs: map<Name, Value>, name: Name): Option<Value> {
    if name in refs then Some(refs[name]) else None
  }

  predicate Holds(ph: Phase) {
    ph.Locked? || ph.Matched? || ph.Mismatched? || ph.Written? || ph == Dead(true)
  }

  ghost predicate Moves(s: State, s': State, p: Pid, ph: Phase, refs: map<Name, Value>, locks: set<Name>) {
    p in s.procs && s' == State(refs, locks, s.procs[p := Proc(s.procs[p].call, ph)])
  }

  ghost predicate Next(s: State, s': State, p: Pid, ev: Event) {
    match ev
    case Begin(call) => p !in s.procs && s' == s.(procs := s.procs[p := Proc(call, Begun)])
    case Acquire =>
      p in s.procs && s.procs[p].phase.Begun? &&
      var name := s.procs[p].call.name;
      if name in s.locks then Moves(s, s', p, Returned(false), s.refs, s.locks)
      else Moves(s, s', p, Locked, s.refs, s.locks + {name})
    case Read =>
      p in s.procs && s.procs[p].phase.Locked? &&
      var call := s.procs[p].call;
      Moves(s, s', p, if Lookup(s.refs, call.name) == call.expected then Matched else Mismatched, s.refs, s.locks)
    case Put =>
      p in s.procs && s.procs[p].phase.Matched? &&
      var call := s.procs[p].call;
      Moves(s, s', p, Written, s.refs[call.name := call.new_], s.locks)
    case Release =>
      p in s.procs && (s.procs[p].phase.Written? || s.procs[p].phase.Mismatched?) &&
      Moves(s, s', p, Returned(s.procs[p].phase.Written?), s.refs, s.locks - {s.procs[p].call.name})
    case Fail =>  // a request raised; `finally` still deletes the lock
      p in s.procs &&
      (if s.procs[p].phase.Begun? then Moves(s, s', p, Raised, s.refs, s.locks)
       else (s.procs[p].phase.Locked? || s.procs[p].phase.Matched?) &&
            Moves(s, s', p, Raised, s.refs, s.locks - {s.procs[p].call.name}))
    case Crash =>
      p in s.procs && !s.procs[p].phase.Returned? && !s.procs[p].phase.Raised? && !s.procs[p].phase.Dead? &&
      Moves(s, s', p, Dead(Holds(s.procs[p].phase)), s.refs, s.locks)
  }

  // ---- Invariant ----

  ghost predicate Inv(s: State) { Exclusive(s) && ChecksStand(s) }

  /** Mutual exclusion, and every lock of a live holder is on the books. */
  ghost predicate Exclusive(s: State) {
    (forall p | p in s.procs && Holds(s.procs[p].phase) :: s.procs[p].call.name in s.locks) &&
    (forall p, q | p in s.procs && q in s.procs && p != q && Holds(s.procs[p].phase) && Holds(s.procs[q].phase) ::
       s.procs[p].call.name != s.procs[q].call.name)
  }

  /** What a checker read is still there. */
  ghost predicate ChecksStand(s: State) {
    forall p | p in s.procs && s.procs[p].phase.Matched? :: Lookup(s.refs, s.procs[p].call.name) == s.procs[p].call.expected
  }

  lemma ExclusiveStep(s: State, s': State, p: Pid, ev: Event)
    requires Exclusive(s) && Next(s, s', p, ev)
    ensures Exclusive(s')
  {
    hide Lookup;
  }

  lemma ChecksStep(s: State, s': State, p: Pid, ev: Event)
    requires Exclusive(s) && ChecksStand(s) && Next(s, s', p, ev)
    ensures ChecksStand(s')
  {
    if !ev.Put? && !ev.Read? {
      assert s'.refs == s.refs;
    }
  }

  lemma InvStep(s: State, s': State, p: Pid, ev: Event)
    requires Inv(s) && Next(s, s', p, ev)
    ensures Inv(s')
  {
    hide Next;
    ExclusiveStep(s, s', p, ev);
    ChecksStep(s, s', p, ev);
  }

  /** The only change any step makes to the refs is a successful atomic compare-and-swap. */
  lemma StepIsAtomicCas(s: State, s': State, p: Pid, ev: Event)
    requires Inv(s) && Next(s, s', p, ev)
    ensures if ev.Put?
            then p in s.procs &&
                 var c := s.procs[p].call;
                 Lookup(s.refs, c.name) == c.expected && s'.refs == s.refs[c.name := c.new_]
            else s'.refs == s.refs
  {
  }

  // ---- Whole runs ----

  datatype Move = Move(pid: Pid, event: Event)

  /** Locks left behind by earlier crashes may be there at the start. */
  ghost predicate IsRun(states: seq<State>, moves: seq<Move>) {
    |states| == |moves| + 1 && states[0].procs == map[] &&
    forall i | 0 <= i < |moves| :: Next(states[i], states[i + 1], moves[i].pid, moves[i].event)
  }

  lemma {:induction false} RunInv(states: seq<State>, moves: seq<Move>, i: nat)
    requires IsRun(states, moves) && i < |states|
    ensures Inv(states[i])
  {
    if i > 0 {
      RunInv(states, moves, i - 1);
      InvStep(states[i - 1], states[i], moves[i - 1].pid, moves[i - 1].event);
    }
  }

  /** The step at which process `p` wrote: its linearization point. */
  ghost predicate WroteAt(states: seq<State>, moves: seq<Move>, k: nat, p: Pid, c: Call)
    requires |states| == |moves| + 1
  {
    k < |moves| && moves[k] == Move(p, Put) && p in states[k].procs && states[k].procs[p].call == c &&
    Lookup(states[k].refs, c.name) == c.expected && states[k + 1].refs == states[k].refs[c.name := c.new_]
  }

  predicate Untouched(ph: Phase) {
    ph.Begun? || ph.Locked? || ph.Matched? || ph.Mismatched? || ph == Returned(false) || ph.Raised?
  }

  predicate Swapped(ph: Phase) { ph.Written? || ph == Returned(true) }

  /** How one step changes one process: it swaps only by a Put, and never un-swaps. */
  lemma ProcStep(s: State, s': State, m: Move, p: Pid)
    requires Next(s, s', m.pid, m.event) && p in s.procs
    ensures p in s'.procs && s'.procs[p].call == s.procs[p].call
    ensures Swapped(s'.procs[p].phase) ==> Swapped(s.procs[p].phase) || m == Move(p, Put)
    ensures Untouched(s'.procs[p].phase) ==> Untouched(s.procs[p].phase) && m != Move(p, Put)
  {
  }

  lemma {:induction false} SwappedHistory(states: seq<State>, moves: seq<Move>, i: nat, p: Pid)
    requires IsRun(states, moves) && i < |states| && p in states[i].procs && Swapped(states[i].procs[p].phase)
    ensures exists k: nat :: k < i && WroteAt(states, moves, k, p, states[i].procs[p].call)
  {
    var s, s', m := states[i - 1], states[i], moves[i - 1];
    RunInv(states, moves, i - 1);
    assert Next(s, s', m.pid, m.event);
    assert p in s.procs;
    ProcStep(s, s', m, p);
    StepIsAtomicCas(s, s', m.pid, m.event);
    if m == Move(p, Put) {
      assert WroteAt(states, moves, i - 1, p, s'.procs[p].call);
    } else {
      SwappedHistory(states, moves, i - 1, p);
    }
  }

  lemma {:induction false} UntouchedHistory(states: seq<State>, moves: seq<Move>, i: nat, p: Pid)
    requires IsRun(states, moves) && i < |states| && p in states[i].procs && Untouched(states[i].procs[p].phase)
    ensures forall k | 0 <= k < i :: moves[k] != Move(p, Put)
  {
    if i > 0 {
      var s, s', m := states[i - 1], states[i], moves[i - 1];
      assert Next(s, s', m.pid, m.event);
      if p in s.procs {
        ProcStep(s, s', m, p);
        UntouchedHistory(states, moves, i - 1, p);
      } else {
        NoEarlierMoves(states, moves, i - 1, p);
      }
    }
  }

  lemma Appears(s: State, s': State, m: Move, p: Pid)
    requires Next(s, s', m.pid, m.event) && p !in s'.procs
    ensures p !in s.procs && m.pid != p
  {
  }

  lemma {:induction false} NoEarlierMoves(states: seq<State>, moves: seq<Move>, i: nat, p: Pid)
    requires IsRun(states, moves) && i < |states| && p !in states[i].procs
    ensures forall k | 0 <= k < i :: moves[k].pid != p
  {
    hide Next;
    if i > 0 {
      Appears(states[i - 1], states[i], moves[i - 1], p);
      NoEarlierMoves(states, moves, i - 1, p);
    }
  }

  /** Linearizability, success: a call that returned True wrote `new_` over exactly `expected` in
      one atomic step inside its own lifetime. */
  lemma TrueMeansSwapped(states: seq<State>, moves: seq<Move>, i: nat, p: Pid)
    requires IsRun(states, moves) && i < |states|
    requires p in states[i].procs && states[i].procs[p].phase == Returned(true)
    ensures exists k: nat :: k < i && WroteAt(states, moves, k, p, states[i].procs[p].call)
  {
    SwappedHistory(states, moves, i, p);
  }

  /** Linearizability, failure: a call that returned False never wrote. */
  lemma FalseMeansUntouched(states: seq<State>, moves: seq<Move>, i: nat, p: Pid)
    requires IsRun(states, moves) && i < |states|
    requires p in states[i].procs && states[i].procs[p].phase == Returned(false)
    ensures forall k | 0 <= k < i :: moves[k] != Move(p, Put)
  {
    UntouchedHistory(states, moves, i, p);
  }

  /** The step at which process `p` was turned away: it met the lock object, or a different value. */
  ghost predicate RefusedAt(states: seq<State>, moves: seq<Move>, k: nat, p: Pid, c: Call)
    requires |states| == |moves| + 1
  {
    k < |moves| && p in states[k].procs && states[k].procs[p].call == c &&
    ((moves[k] == Move(p, Acquire) && c.name in states[k].locks) ||
     (moves[k] == Move(p, Read) && Lookup(states[k].refs, c.name) != c.expected))
  }

  lemma {:induction false} RefusedHistory(states: seq<State>, moves: seq<Move>, i: nat, p: Pid)
    requires IsRun(states, moves) && i < |states| && p in states[i].procs
    requires states[i].procs[p].phase.Mismatched? || states[i].procs[p].phase == Returned(false)
    ensures exists k: nat :: k < i && RefusedAt(states, moves, k, p, states[i].procs[p].call)
  {
    var s, s', m := states[i - 1], states[i], moves[i - 1];
    assert Next(s, s', m.pid, m.event);
    assert p in s.procs;
    if s.procs[p].phase.Mismatched? || s.procs[p].phase == Returned(false) {
      RefusedHistory(states, moves, i - 1, p);
    } else {
      assert RefusedAt(states, moves, i - 1, p, s'.procs[p].call);
    }
  }

  /** A False is never returned for nothing: some process held or had left the lock when it was asked
      for, or the ref did not have the expected value when it was read. */
  lemma FalseHasReason(states: seq<State>, moves: seq<Move>, i: nat, p: Pid)
    requires IsRun(states, moves) && i < |states|
    requires p in states[i].procs && states[i].procs[p].phase == Returned(false)
    ensures exists k: nat :: k < i && RefusedAt(states, moves, k, p, states[i].procs[p].call)
  {
    RefusedHistory(states, moves, i, p);
  }

  /** Nothing intervenes: from the check to the write the ref keeps the value that was checked, and
      no other process writes it. */
  lemma {:induction false} NothingIntervenes(states: seq<State>, moves: seq<Move>, r: nat, k: nat, j: nat, p: Pid, c: Call)
    requires IsRun(states, moves) && r < j <= k < |moves|
    requires moves[r] == Move(p, Read) && moves[k] == Move(p, Put)
    requires p in states[k].procs && states[k].procs[p].call == c
    ensures p in states[j].procs && states[j].procs[p] == Proc(c, Matched)
    ensures Lookup(states[j].refs, c.name) == c.expected
    ensures j < k && moves[j].event == Put ==>
              moves[j].pid in states[j].procs && states[j].procs[moves[j].pid].call.name != c.name
    decreases k - j
  {
    RunInv(states, moves, j);
    assert Next(states[k], states[k + 1], moves[k].pid, moves[k].event);
    if j < k {
      NothingIntervenes(states, moves, r, k, j + 1, p, c);
      ReadOnce(states, moves, r, j, p);
      assert moves[j].pid != p;
    }
  }

  /** A process reads once, so between its read and its write it makes no request at all. */
  lemma {:induction false} ReadOnce(states: seq<State>, moves: seq<Move>, r: nat, j: nat, p: Pid)
    requires IsRun(states, moves) && r < j < |states| && moves[r] == Move(p, Read)
    ensures p in states[j].procs && !states[j].procs[p].phase.Begun? && !states[j].procs[p].phase.Locked?
  {
    if j > r + 1 {
      ReadOnce(states, moves, r, j - 1, p);
    }
  }

  // ---- A call that runs alone ----

  /** How far a call of `p` that started in `s` and ran alone can have come in `t`. */
  ghost predicate AloneAt(s: State, t: State, p: Pid, c: Call) {
    p in t.procs && t.procs[p].call == c &&
    var free, match_ := c.name !in s.locks, Lookup(s.refs, c.name) == c.expected;
    match t.procs[p].phase
    case Begun => t.refs == s.refs && t.locks == s.locks
    case Locked => t.refs == s.refs && t.locks == s.locks + {c.name} && free
    case Matched => t.refs == s.refs && t.locks == s.locks + {c.name} && free && match_
    case Mismatched => t.refs == s.refs && t.locks == s.locks + {c.name} && free && !match_
    case Written => t.refs == s.refs[c.name := c.new_] && t.locks == s.locks + {c.name} && free && match_
    case Returned(r) =>
      (r <==> free && match_) && t.locks == s.locks && t.refs == if r then s.refs[c.name := c.new_] else s.refs
    case Raised => t.locks == s.locks && t.refs == s.refs
    case Dead(holding) =>
      t.locks == (if holding then s.locks + {c.name} else s.locks) && (holding ==> free) &&
      (t.refs == s.refs || (holding && match_ && t.refs == s.refs[c.name := c.new_]))
  }

  lemma AloneStep(s: State, t: State, t': State, p: Pid, c: Call, ev: Event)
    requires AloneAt(s, t, p, c) && Next(t, t', p, ev)
    ensures AloneAt(s, t', p, c)
  {
  }

  /** A call that is not disturbed returns True if and only if the lock is free and the ref has the
      expected value, swaps exactly then, and leaves the locks as it found them.  If a request of its
      own fails it raises, with neither refs nor locks changed; only if it dies does its lock stay. */
  lemma {:induction false} AloneIff(states: seq<State>, events: seq<Event>, p: Pid, c: Call)
    requires |states| == |events| + 1 && |events| > 0 && events[0] == Begin(c)
    requires forall i | 0 <= i < |events| :: Next(states[i], states[i + 1], p, events[i])
    ensures AloneAt(states[0], states[|events|], p, c)
  {
    if |events| > 1 {
      var k := |events| - 1;
      AloneIff(states[..k + 1], events[..k], p, c);
      AloneStep(states[0], states[k], states[k + 1], p, c, events[k]);
    }
  }

  /** And such a call can always be made: it comes to an end. */
  lemma AloneReturns(s: State, p: Pid, c: Call) returns (states: seq<State>, events: seq<Event>, r: bool)
    requires p !in s.procs
    ensures |states| == |events| + 1 && |events| > 0 && states[0] == s && events[0] == Begin(c)
    ensures forall i | 0 <= i < |events| ::
              Next(states[i], states[i + 1], p, events[i]) && !events[i].Fail? && !events[i].Crash?
    ensures p in states[|events|].procs && states[|events|].procs[p] == Proc(c, Returned(r))
    ensures r <==> c.name !in s.locks && Lookup(s.refs, c.name) == c.expected
  {
    var a := s.(procs := s.procs[p := Proc(c, Begun)]);
    if c.name in s.locks {
      var b := State(a.refs, a.locks, a.procs[p := Proc(c, Returned(false))]);
      return [s, a, b], [Begin(c), Acquire], false;
    }
    var b := State(a.refs, a.locks + {c.name}, a.procs[p := Proc(c, Locked)]);
    if Lookup(s.refs, c.name) == c.expected {
      var d := State(b.refs, b.locks, b.procs[p := Proc(c, Matched)]);
      var e := State(d.refs[c.name := c.new_], d.locks, d.procs[p := Proc(c, Written)]);
      var f := State(e.refs, e.locks - {c.name}, e.procs[p := Proc(c, Returned(true))]);
      return [s, a, b, d, e, f], [Begin(c), Acquire, Read, Put, Release], true;
    }
    var d := State(b.refs, b.locks, b.procs[p := Proc(c, Mismatched)]);
    var e := State(d.refs, d.locks - {c.name}, d.procs[p := Proc(c, Returned(false))]);
    return [s, a, b, d, e], [Begin(c), Acquire, Read, Release], false;
  }

  // ---- A dead holder ----

  /** A run in which process 0 dies with the lock; process 1 then asks for a swap that the ref would
      allow and is turned away. */
  lemma DeadLockRefuses(c: Call, d: Call, refs: map<Name, Value>) returns (states: seq<State>, moves: seq<Move>)
    requires d.name == c.name && Lookup(refs, d.name) == d.expected
    ensures IsRun(states, moves) && states[0] == State(refs, {}, map[])
    ensures var t := states[|moves|];
            t.refs == refs && 0 in t.procs && t.procs[0].phase == Dead(true) && 1 in t.procs &&
            t.procs[1] == Proc(d, Returned(false))
  {
    var s0 := State(refs, {}, map[]);
    var s1 := State(refs, {}, map[0 := Proc(c, Begun)]);
    var s2 := State(refs, {c.name}, map[0 := Proc(c, Locked)]);
    var s3 := State(refs, {c.name}, map[0 := Proc(c, Dead(true))]);
    var s4 := State(refs, {c.name}, map[0 := Proc(c, Dead(true)), 1 := Proc(d, Begun)]);
    var s5 := State(refs, {c.name}, map[0 := Proc(c, Dead(true)), 1 := Proc(d, Returned(false))]);
    assert Next(s0, s1, 0, Begin(c)) && Next(s1, s2, 0, Acquire) && Next(s2, s3, 0, Crash);
    assert Next(s3, s4, 1, Begin(d)) && Next(s4, s5, 1, Acquire);
    hide Next;
    states := [s0, s1, s2, s3, s4, s5];
    moves := [Move(0, Begin(c)), Move(0, Acquire), Move(0, Crash), Move(1, Begin(d)), Move(1, Acquire)];
  }

  lemma FreezeStep(s: State, s': State, m: Move, p: Pid)
    requires Inv(s) && Next(s, s', m.pid, m.event) && p in s.procs && s.procs[p].phase == Dead(true)
    ensures p in s'.procs && s'.procs[p] == s.procs[p] && s.procs[p].call.name in s.locks
    ensures Lookup(s'.refs, s.procs[p].call.name) == Lookup(s.refs, s.procs[p].call.name)
  {
    assert Holds(s.procs[p].phase);
  }

  /** A process that died holding the lock freezes the ref: no later call ever changes it, and its
      lock object stays. */
  lemma {:induction false} DeadLockFreezes(states: seq<State>, moves: seq<Move>, i: nat, j: nat, p: Pid)
    requires IsRun(states, moves) && i <= j < |states|
    requires p in states[i].procs && states[i].procs[p].phase == Dead(true)
    ensures p in states[j].procs && states[j].procs[p] == states[i].procs[p]
    ensures states[i].procs[p].call.name in states[j].locks
    ensures Lookup(states[j].refs, states[i].procs[p].call.name) == Lookup(states[i].refs, states[i].procs[p].call.name)
    decreases j - i
  {
    hide Next, Lookup;
    RunInv(states, moves, j);
    if i < j {
      DeadLockFreezes(states, moves, i, j - 1, p);
      RunInv(states, moves, j - 1);
      FreezeStep(states[j - 1], states[j], moves[j - 1], p);
    }
    assert Holds(states[j].procs[p].phase);
  }
}
