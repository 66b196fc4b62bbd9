/** The lease protocol of the actions queue.

    Every operation reads a run's state, decides, and then tries one compare-and-swap; between the
    three, any number of other workers act and the clock advances.  A state is stored under its
    hash, so a compare-and-swap of ids compares whole states. */
module RunLease {
  import opened Core

  type RunId = string
  type Token = nat

  datatype Phase = Pending | Running | Succeeded | Failed | Canceled | Skipped

  /** What a claim records beside the lease; a missing spec key is the empty one. */
  datatype Detail = Detail(executor: string, provider: string, specKey: string, region: Option<string>,
                           requestedRegion: Option<string>)

  datatype Run = Run(phase: Phase, token: Option<Token>, expiresAt: Option<int>, attempt: nat, detail: Detail,
                     hardPin: bool, result: Option<string>)

  datatype Op =
    | Claim(run: RunId, ttl: int, detail: Detail)
    | Heartbeat(run: RunId, token: Token, ttl: int)
    | Complete(run: RunId, token: Token, ok: bool, result: string)
    | Release(run: RunId, token: Token)
    | Cancel(run: RunId)

  predicate Terminal(r: Run) { r.phase != Pending && r.phase != Running }

  predicate Expired(r: Run, now: int) { r.phase == Running && r.expiresAt.Some? && r.expiresAt.value <= now }

  /** When an operation goes ahead, on the state it read and the time it looked at. */
  predicate Guard(op: Op, r: Run, now: int) {
    match op
    case Claim(_, _, _) => r.phase == Pending || Expired(r, now)
    case Heartbeat(_, token, _) => r.phase == Running && r.token == Some(token)
    case Complete(_, token, _, _) => r.token == Some(token)
    case Release(_, token) => r.token == Some(token)
    case Cancel(_) => !Terminal(r)
  }

  /** The state it then proposes; `minted` is the ulid a claim has drawn. */
  function Apply(op: Op, r: Run, now: int, minted: Token): Run {
    match op
    case Claim(_, ttl, detail) =>
      r.(phase := Running, token := Some(minted), expiresAt := Some(now + ttl),
         attempt := if Expired(r, now) then r.attempt + 1 else 1, detail := detail)
    case Heartbeat(_, _, ttl) => r.(expiresAt := Some(now + ttl))
    case Complete(_, _, ok, result) =>
      r.(phase := if ok then Succeeded else Failed, token := None, expiresAt := None, result := Some(result))
    case Release(_, _) => r.(phase := Pending, token := None, expiresAt := None)
    case Cancel(_) => r.(phase := Canceled, token := None, expiresAt := None)
  }

  datatype Worker =
    | Start(op: Op)
    | HasRead(op: Op, expected: Run)
    | Decided(op: Op, expected: Run, now: int, minted: Token)
    | Over(won: bool)

  /** `drawn`: tokens ever drawn.  `retired`: tokens that were a run's token once and were replaced. */
  datatype State = State(runs: map<RunId, Run>, clock: int, workers: map<nat, Worker>, drawn: set<Token>,
                         retired: set<Token>)

  datatype Event =
    | Create(run: RunId, initial: Run)
    | Tick(now: int)
    | Begin(op: Op)
    | Read
    | Decide(minted: Token)
    | Cas
    | Crash

  ghost function Retire(s: State, r: Run, r': Run): set<Token> {
    if r.token.Some? && r'.token != r.token then s.retired + {r.token.value} else s.retired
  }

  ghost predicate Next(s: State, s': State, p: nat, ev: Event) {
    match ev
    case Create(run, initial) =>
      run !in s.runs && initial.phase != Running && initial.token.None? && initial.expiresAt.None? &&
      s' == s.(runs := s.runs[run := initial])
    case Tick(now) => s.clock <= now && s' == s.(clock := now)
    case Begin(op) => p !in s.workers && s' == s.(workers := s.workers[p := Start(op)])
    case Read =>
      p in s.workers && s.workers[p].Start? &&
      var op := s.workers[p].op;
      s' == s.(workers := s.workers[p := if op.run in s.runs then HasRead(op, s.runs[op.run]) else Over(false)])
    case Decide(minted) =>
      p in s.workers && s.workers[p].HasRead? && minted !in s.drawn &&
      var w := s.workers[p];
      s' == s.(workers := s.workers[p := if Guard(w.op, w.expected, s.clock)
                                         then Decided(w.op, w.expected, s.clock, minted) else Over(false)],
               drawn := s.drawn + {minted})
    case Cas =>
      p in s.workers && s.workers[p].Decided? &&
      var w := s.workers[p];
      var run, proposed := w.op.run, Apply(w.op, w.expected, w.now, w.minted);
      if run in s.runs && s.runs[run] == w.expected
      then s' == s.(runs := s.runs[run := proposed], workers := s.workers[p := Over(true)],
                    retired := Retire(s, w.expected, proposed))
      else s' == s.(workers := s.workers[p := Over(false)])
    case Crash => p in s.workers && s' == s.(workers := s.workers[p := Over(false)])
  }

  // ---- Invariant ----

  /** A token and a lease belong to a run exactly while it is running. */
  predicate RunOk(r: Run) { (r.token.Some? <==> r.phase == Running) && (r.expiresAt.Some? <==> r.phase == Running) }

  predicate Pending_(w: Worker) { w.Decided? && w.op.Claim? }

  ghost predicate IsCurrent(s: State, t: Token) { exists r :: r in s.runs && s.runs[r].token == Some(t) }

  ghost predicate Inv(s: State) {
    (forall r | r in s.runs :: RunOk(s.runs[r])) &&
    (forall p | p in s.workers && (s.workers[p].HasRead? || s.workers[p].Decided?) :: RunOk(s.workers[p].expected)) &&
    (forall p | p in s.workers && s.workers[p].Decided? ::
       s.workers[p].now <= s.clock && Guard(s.workers[p].op, s.workers[p].expected, s.workers[p].now)) &&
    TokensOk(s)
  }

  /** Tokens are current, waiting to be installed by one claim, or retired: never two of these. */
  ghost predicate TokensOk(s: State) {
    (forall r, t | r in s.runs && s.runs[r].token == Some(t) :: t in s.drawn && t !in s.retired) &&
    s.retired <= s.drawn &&
    (forall p | p in s.workers && Pending_(s.workers[p]) ::
       s.workers[p].minted in s.drawn && s.workers[p].minted !in s.retired && !IsCurrent(s, s.workers[p].minted)) &&
    (forall p, q | p in s.workers && q in s.workers && p != q && Pending_(s.workers[p]) && Pending_(s.workers[q]) ::
       s.workers[p].minted != s.workers[q].minted) &&
    (forall q, r, t | q in s.runs && r in s.runs && q != r && s.runs[q].token == Some(t) :: s.runs[r].token != Some(t))
  }

  lemma ApplyOk(op: Op, r: Run, now: int, minted: Token)
    requires RunOk(r) && Guard(op, r, now)
    ensures RunOk(Apply(op, r, now, minted)) && !Terminal(r)
  {
  }

  lemma TokensStep(s: State, s': State, p: nat, ev: Event)
    requires Inv(s) && Next(s, s', p, ev)
    ensures TokensOk(s')
  {
    hide Guard, Apply, RunOk;
    if ev.Cas? {
      CasTokens(s, s', p);
    }
  }

  lemma CasTokens(s: State, s': State, p: nat)
    requires Inv(s) && Next(s, s', p, Cas)
    ensures TokensOk(s')
  {
    var w := s.workers[p];
    var run := w.op.run;
    if run in s.runs && s.runs[run] == w.expected {
      ApplyOk(w.op, w.expected, w.now, w.minted);
      var proposed := Apply(w.op, w.expected, w.now, w.minted);
      assert proposed.token == w.expected.token || proposed.token == None || (w.op.Claim? && proposed.token == Some(w.minted));
      forall q | q in s'.workers && Pending_(s'.workers[q]) ensures !IsCurrent(s', s'.workers[q].minted) {
        assert q in s.workers && s.workers[q] == s'.workers[q];
        forall r | r in s'.runs ensures s'.runs[r].token != Some(s.workers[q].minted) {
          assert r != run ==> r in s.runs && s'.runs[r] == s.runs[r];
        }
      }
    }
  }

  lemma InvStep(s: State, s': State, p: nat, ev: Event)
    requires Inv(s) && Next(s, s', p, ev)
    ensures Inv(s')
  {
    TokensStep(s, s', p, ev);
    if ev.Cas? {
      var w := s.workers[p];
      ApplyOk(w.op, w.expected, w.now, w.minted);
    }
  }

  // ---- Refinement of an atomic state machine ----

  /** One operation applied to a run in a single step, its guard true at the present time. */
  ghost predicate AtomicStep(r: Run, r': Run, op: Op, clock: int, minted: Token) {
    Guard(op, r, clock) && exists now: int :: now <= clock && Guard(op, r, now) && r' == Apply(op, r, now, minted)
  }

  /** Later guards do not fail: leases only get older. */
  lemma GuardLater(op: Op, r: Run, now: int, clock: int)
    requires Guard(op, r, now) && now <= clock
    ensures Guard(op, r, clock)
  {
  }

  /** Every step of the protocol either leaves all existing runs alone or is one atomic operation
      on one run, although the worker read the state and the clock some time ago. */
  lemma StepRefines(s: State, s': State, p: nat, ev: Event)
    requires Inv(s) && Next(s, s', p, ev)
    ensures forall r | r in s.runs :: r in s'.runs
    ensures forall r | r in s.runs && s'.runs[r] != s.runs[r] ::
              ev.Cas? && p in s.workers && s.workers[p].Decided? && s.workers[p].op.run == r &&
              AtomicStep(s.runs[r], s'.runs[r], s.workers[p].op, s.clock, s.workers[p].minted)
  {
    if ev.Cas? {
      var w := s.workers[p];
      GuardLater(w.op, w.expected, w.now, s.clock);
    }
  }

  // ---- Whole runs ----

  datatype Move = Move(worker: nat, event: Event)

  ghost predicate IsRun(states: seq<State>, moves: seq<Move>) {
    |states| == |moves| + 1 && states[0].workers == map[] && Inv(states[0]) &&
    forall i | 0 <= i < |moves| :: Next(states[i], states[i + 1], moves[i].worker, moves[i].event)
  }

  lemma {:induction false} RunInv(states: seq<State>, moves: seq<Move>, i: nat)
    requires IsRun(states, moves) && i < |states|
    ensures Inv(states[i])
    ensures forall r | r in states[i].runs :: (states[i].runs[r].token.Some? <==> states[i].runs[r].phase == Running)
  {
    if i > 0 {
      hide Inv, Next;
      RunInv(states, moves, i - 1);
      InvStep(states[i - 1], states[i], moves[i - 1].worker, moves[i - 1].event);
      InvRuns(states[i]);
    }
  }

  lemma InvRuns(s: State)
    requires Inv(s)
    ensures forall r | r in s.runs :: (s.runs[r].token.Some? <==> s.runs[r].phase == Running)
  {
  }

  /** No live lease is ever taken over: a running run changes hands only at or after its expiry. */
  lemma NoTakeover(states: seq<State>, moves: seq<Move>, i: nat, r: RunId, t: Token)
    requires IsRun(states, moves) && i < |moves| && r in states[i].runs
    requires states[i].runs[r].phase == Running
    requires r in states[i + 1].runs && states[i + 1].runs[r].token == Some(t) && states[i].runs[r].token != Some(t)
    ensures states[i].runs[r].expiresAt.Some? && states[i].runs[r].expiresAt.value <= states[i].clock
  {
    RunInv(states, moves, i);
    StepRefines(states[i], states[i + 1], moves[i].worker, moves[i].event);
  }

  lemma KeptStep(s: State, s': State, m: Move)
    requires Inv(s) && Next(s, s', m.worker, m.event)
    ensures (forall r | r in s.runs :: r in s'.runs) && s.retired <= s'.retired
  {
    hide Guard, Apply, RunOk, TokensOk;
  }

  lemma {:induction false} Kept(states: seq<State>, moves: seq<Move>, i: nat, j: nat)
    requires IsRun(states, moves) && i <= j < |states|
    ensures forall r | r in states[i].runs :: r in states[j].runs
    ensures states[i].retired <= states[j].retired
    decreases j - i
  {
    hide Inv, Next;
    if i < j {
      Kept(states, moves, i, j - 1);
      RunInv(states, moves, j - 1);
      KeptStep(states[j - 1], states[j], moves[j - 1]);
    }
  }

  lemma TerminalStep(s: State, s': State, m: Move, r: RunId)
    requires Inv(s) && Next(s, s', m.worker, m.event) && r in s.runs && Terminal(s.runs[r])
    ensures r in s'.runs && s'.runs[r] == s.runs[r]
  {
    StepRefines(s, s', m.worker, m.event);
    assert RunOk(s.runs[r]);
  }

  /** A finished run never changes again, so at most one result is ever recorded for it. */
  lemma {:induction false} TerminalFrozen(states: seq<State>, moves: seq<Move>, i: nat, j: nat, r: RunId)
    requires IsRun(states, moves) && i <= j < |states| && r in states[i].runs && Terminal(states[i].runs[r])
    ensures r in states[j].runs && states[j].runs[r] == states[i].runs[r]
    decreases j - i
  {
    hide Inv, Next, Terminal;
    if i < j {
      TerminalFrozen(states, moves, i, j - 1, r);
      RunInv(states, moves, j - 1);
      TerminalStep(states[j - 1], states[j], moves[j - 1], r);
    }
  }

  /** Once a token has been replaced it is never the run's token again... */
  lemma {:induction false} ReplacedForGood(states: seq<State>, moves: seq<Move>, i: nat, j: nat, k: nat, r: RunId, t: Token)
    requires IsRun(states, moves) && i < j <= k < |states|
    requires r in states[i].runs && states[i].runs[r].token == Some(t)
    requires r in states[j].runs && states[j].runs[r].token != Some(t)
    ensures t in states[k].retired && r in states[k].runs && states[k].runs[r].token != Some(t)
  {
    Replaced(states, moves, i, j, r, t);
    Kept(states, moves, j, k);
    RunInv(states, moves, k);
  }

  lemma ReplacedStep(s: State, s': State, m: Move, r: RunId, t: Token)
    requires Inv(s) && Next(s, s', m.worker, m.event) && r in s.runs && s.runs[r].token == Some(t)
    requires r in s'.runs && s'.runs[r].token != Some(t)
    ensures t in s'.retired
  {
    StepRefines(s, s', m.worker, m.event);
  }

  lemma {:induction false} Replaced(states: seq<State>, moves: seq<Move>, i: nat, j: nat, r: RunId, t: Token)
    requires IsRun(states, moves) && i < j < |states|
    requires r in states[i].runs && states[i].runs[r].token == Some(t)
    requires r in states[j].runs && states[j].runs[r].token != Some(t)
    ensures t in states[j].retired
    decreases j - i
  {
    hide Inv, Next;
    Kept(states, moves, i, j - 1);
    var s, s', m := states[j - 1], states[j], moves[j - 1];
    RunInv(states, moves, j - 1);
    if s.runs[r].token == Some(t) {
      ReplacedStep(s, s', m, r, t);
    } else {
      Replaced(states, moves, i, j - 1, r, t);
      Kept(states, moves, j - 1, j);
    }
  }

  /** ...so an operation that presents it can never change the run. */
  lemma StaleTokenHarmless(s: State, s': State, p: nat, ev: Event, r: RunId, t: Token)
    requires Inv(s) && Next(s, s', p, ev) && t in s.retired && r in s.runs && s'.runs[r] != s.runs[r]
    ensures var op := s.workers[p].op;
            !(op.Heartbeat? && op.token == t) && !(op.Complete? && op.token == t) && !(op.Release? && op.token == t)
  {
    StepRefines(s, s', p, ev);
  }

  // ---- What an operation needs and what it records, field by field ----

  /** When an operation may go ahead at time `now`. */
  predicate May(op: Op, r: Run, now: int) {
    match op
    case Claim(_, _, _) => r.phase == Pending || (r.phase == Running && r.expiresAt.Some? && now >= r.expiresAt.value)
    case Heartbeat(_, token, _) => r.phase == Running && r.token.Some? && r.token.value == token
    case Complete(_, token, _, _) => r.token.Some? && r.token.value == token
    case Release(_, token) => r.token.Some? && r.token.value == token
    case Cancel(_) => r.phase == Pending || r.phase == Running
  }

  predicate SameBut(r: Run, r': Run) { r'.attempt == r.attempt && r'.detail == r.detail && r'.hardPin == r.hardPin }

  predicate Unleased(r: Run) { r.token.None? && r.expiresAt.None? }

  /** What the run is afterwards. */
  predicate Recorded(op: Op, r: Run, r': Run, now: int, minted: Token) {
    match op
    case Claim(_, ttl, detail) =>
      r'.phase == Running && r'.token == Some(minted) && r'.expiresAt == Some(now + ttl) && r'.detail == detail &&
      r'.attempt == (if r.phase == Pending then 1 else r.attempt + 1) && r'.hardPin == r.hardPin && r'.result == r.result
    case Heartbeat(_, _, ttl) =>
      r'.phase == Running && r'.token == r.token && r'.expiresAt == Some(now + ttl) && SameBut(r, r') && r'.result == r.result
    case Complete(_, _, ok, result) =>
      (r'.phase == Succeeded <==> ok) && (r'.phase == Failed <==> !ok) && r'.result == Some(result) && Unleased(r') &&
      SameBut(r, r')
    case Release(_, _) => r'.phase == Pending && Unleased(r') && SameBut(r, r') && r'.result == r.result
    case Cancel(_) => r'.phase == Canceled && Unleased(r') && SameBut(r, r') && r'.result == r.result
  }

  /** The worker's swap succeeds at this step. */
  ghost predicate Wins(s: State, p: nat, ev: Event) {
    ev.Cas? && p in s.workers && s.workers[p].Decided? &&
    s.workers[p].op.run in s.runs && s.runs[s.workers[p].op.run] == s.workers[p].expected
  }

  /** A swap that succeeds records exactly the operation, from the state it found, and changes no
      other run; it was allowed when it was decided and still is. */
  lemma WonRecords(s: State, s': State, p: nat)
    requires Inv(s) && Next(s, s', p, Cas) && Wins(s, p, Cas)
    ensures var w := s.workers[p];
            var r := w.op.run;
            r in s'.runs && Recorded(w.op, s.runs[r], s'.runs[r], w.now, w.minted) && w.now <= s.clock &&
            May(w.op, s.runs[r], w.now) && May(w.op, s.runs[r], s.clock)
    ensures forall q | q != s.workers[p].op.run :: (q in s'.runs <==> q in s.runs) && (q in s.runs ==> s'.runs[q] == s.runs[q])
  {
    hide TokensOk;
    assert RunOk(s.workers[p].expected);
  }

  /** How far an undisturbed operation that started in `s` can have come in `t`. */
  ghost predicate AloneAt(s: State, t: State, p: nat, op: Op) {
    p in t.workers && t.clock == s.clock && s.drawn <= t.drawn &&
    var may := op.run in s.runs && May(op, s.runs[op.run], s.clock);
    match t.workers[p]
    case Start(o) => o == op && t.runs == s.runs
    case HasRead(o, e) => o == op && t.runs == s.runs && op.run in s.runs && e == s.runs[op.run]
    case Decided(o, e, now, minted) =>
      o == op && t.runs == s.runs && may && e == s.runs[op.run] && now == s.clock && minted !in s.drawn
    case Over(won) =>
      (won <==> may) &&
      if may then op.run in t.runs && t.runs == s.runs[op.run := t.runs[op.run]] && RecordedSome(s, op, t.runs[op.run])
      else t.runs == s.runs
  }

  ghost predicate RecordedSome(s: State, op: Op, r': Run) {
    op.run in s.runs && exists minted :: minted !in s.drawn && Recorded(op, s.runs[op.run], r', s.clock, minted)
  }

  lemma AloneStep(s: State, t: State, t': State, p: nat, op: Op, ev: Event)
    requires Inv(s) && AloneAt(s, t, p, op) && Next(t, t', p, ev) && (ev.Read? || ev.Decide? || ev.Cas?)
    ensures AloneAt(s, t', p, op)
  {
    hide TokensOk;
    if ev.Cas? {
      var w := t.workers[p];
      assert RunOk(s.runs[op.run]);
      assert Recorded(op, s.runs[op.run], t'.runs[op.run], s.clock, w.minted);
    }
  }

  /** An operation that nobody disturbs succeeds if and only if it may go ahead, records exactly what
      it should, and otherwise changes nothing. */
  lemma {:induction false} AloneIff(states: seq<State>, events: seq<Event>, p: nat, op: Op)
    requires |states| == |events| + 1 && |events| > 0 && events[0] == Begin(op) && Inv(states[0])
    requires forall i | 0 <= i < |events| :: Next(states[i], states[i + 1], p, events[i])
    requires forall i | 0 < i < |events| :: events[i].Read? || events[i].Decide? || events[i].Cas?
    ensures AloneAt(states[0], states[|events|], p, op)
  {
    hide Inv, AloneAt;
    var k := |events| - 1;
    if k == 0 {
      AloneStart(states[0], states[1], p, op);
    } else {
      hide Next;
      AloneIff(states[..k + 1], events[..k], p, op);
      AloneStep(states[0], states[k], states[k + 1], p, op, events[k]);
    }
  }

  lemma AloneStart(s: State, t: State, p: nat, op: Op)
    requires Next(s, t, p, Begin(op))
    ensures AloneAt(s, t, p, op)
  {
  }

  // ---- A lease holds for its time ----

  /** A swap that ends or shortens the lease of token `t` on run `r` before `until`. */
  ghost predicate EndsLease(s: State, m: Move, r: RunId, t: Token, until: int) {
    Wins(s, m.worker, m.event) &&
    var w := s.workers[m.worker];
    w.op.run == r &&
    match w.op
    case Claim(_, _, _) => false
    case Heartbeat(_, token, ttl) => token == t && w.now + ttl < until
    case Complete(_, token, _, _) => token == t
    case Release(_, token) => token == t
    case Cancel(_) => true
  }

  ghost predicate Leased(s: State, r: RunId, t: Token, until: int) {
    r in s.runs && s.runs[r].phase == Running && s.runs[r].token == Some(t) && s.runs[r].expiresAt.Some? &&
    until <= s.runs[r].expiresAt.value
  }

  lemma LeaseStep(s: State, s': State, m: Move, r: RunId, t: Token, until: int)
    requires Inv(s) && Next(s, s', m.worker, m.event) && Leased(s, r, t, until) && s.clock < until
    requires !EndsLease(s, m, r, t, until)
    ensures Leased(s', r, t, until)
  {
    hide Inv;
    if Wins(s, m.worker, m.event) {
      WonRecords(s, s', m.worker);
      hide Next;
    }
  }

  /** A lease is never lost before its time, except by its own token (completing, releasing, or a
      heartbeat with an earlier expiry) or by cancelling the run. */
  lemma {:induction false} LeaseHolds(states: seq<State>, moves: seq<Move>, i: nat, j: nat, r: RunId, t: Token, until: int)
    requires IsRun(states, moves) && i <= j < |states| && Leased(states[i], r, t, until)
    requires forall k | i <= k < j :: states[k].clock < until && !EndsLease(states[k], moves[k], r, t, until)
    ensures Leased(states[j], r, t, until)
    decreases j - i
  {
    hide Inv, Next, Leased, EndsLease;
    if i < j {
      LeaseHolds(states, moves, i, j - 1, r, t, until);
      RunInv(states, moves, j - 1);
      LeaseStep(states[j - 1], states[j], moves[j - 1], r, t, until);
    }
  }

  /** A claim or heartbeat that wins gives a lease until the time it looked at plus its ttl. */
  lemma WinLeases(s: State, s': State, p: nat)
    requires Inv(s) && Next(s, s', p, Cas) && Wins(s, p, Cas) && (s.workers[p].op.Claim? || s.workers[p].op.Heartbeat?)
    ensures var w := s.workers[p];
            Leased(s', w.op.run, if w.op.Claim? then w.minted else w.op.token, w.now + w.op.ttl)
  {
    WonRecords(s, s', p);
  }
}
