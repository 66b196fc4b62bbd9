/** Capacity slots: a pool hands out at most `limit` leases at a time, by compare-and-swap on
    numbered slots. */
module Capacity {
  import opened Core

  type Token = nat

  datatype Slot = Slot(owner: string, token: Token, expiresAt: int)

  type Slots = map<nat, Slot>

  function Get(slots: Slots, i: nat): Option<Slot> { if i in slots then Some(slots[i]) else None }

  /** What `claim_capacity_slot` and `_live_slots` call live. */
  predicate LiveAt(slot: Option<Slot>, now: int) { slot.Some? && slot.value.expiresAt > now }

  function Live(slots: Slots, now: int): set<nat> { set i | i in slots && slots[i].expiresAt > now }

  function Below(n: nat): (r: set<nat>)
    ensures forall i: nat :: i in r <==> i < n
  {
    if n == 0 then {} else Below(n - 1) + {n - 1}
  }

  lemma {:induction false} BelowSize(n: nat)
    ensures |Below(n)| == n
  {
    if n > 0 {
      BelowSize(n - 1);
    }
  }

  lemma {:induction false} SubsetSize<T>(a: set<T>, b: set<T>)
    requires a <= b
    ensures |a| <= |b|
  {
    if a != {} {
      var x :| x in a;
      SubsetSize(a - {x}, b - {x});
    }
  }

  // ---- A claim that runs alone ----

  datatype Grant = Unlimited | InSlot(slot: nat)

  class Pool {
    var limit: Option<nat>
    var slots: Slots

    method LiveSlots(now: int) returns (live: set<nat>)
      ensures live == Live(slots, now)
    {
      live := {};
      var rest := slots.Keys;
      while rest != {}
        invariant rest <= slots.Keys
        invariant live == set i | i in slots && i !in rest && slots[i].expiresAt > now
      {
        var i :| i in rest;
        if slots[i].expiresAt > now {
          live := live + {i};
        }
        rest := rest - {i};
      }
    }

    /** Refused exactly when the live slots reach the limit (slots above a lowered limit count
        too); otherwise the lowest slot that is not live changes hands, and no other. */
    method Claim(owner: string, ttl: int, now: int, minted: Token) returns (grant: Option<Grant>)
      modifies this`slots
      ensures limit.None? ==> grant == Some(Unlimited) && slots == old(slots)
      ensures limit.Some? ==> (grant.None? <==> |Live(old(slots), now)| >= limit.value) && grant != Some(Unlimited)
      ensures grant.None? ==> slots == old(slots)
      ensures limit.Some? && grant.Some? ==>
                var i := grant.value.slot;
                i < limit.value && !LiveAt(Get(old(slots), i), now) && Below(i) <= Live(old(slots), now) &&
                slots == old(slots)[i := Slot(owner, minted, now + ttl)]
    {
      if limit.None? { return Some(Unlimited); }
      grant := None;
      var live := LiveSlots(now);
      if |live| < limit.value {
        var slot := 0;
        while slot < limit.value && grant.None?
          invariant slot <= limit.value && Below(slot) <= live
          invariant grant.None? ==> slots == old(slots)
          invariant grant.Some? ==>
                      grant == Some(InSlot(slot)) && slot < limit.value && !LiveAt(Get(old(slots), slot), now) &&
                      slots == old(slots)[slot := Slot(owner, minted, now + ttl)]
          decreases limit.value - slot, grant.None?
        {
          if LiveAt(Get(slots, slot), now) {
            slot := slot + 1;
          } else {
            slots := slots[slot := Slot(owner, minted, now + ttl)];
            grant := Some(InSlot(slot));
          }
        }
        BelowSize(limit.value);
        if Below(limit.value) <= live { SubsetSize(Below(limit.value), live); }
      }
    }
  }

  // ---- Any interleaving ----

  datatype Op = Claim(owner: string, ttl: int) | Heartbeat(slot: nat, token: Token, ttl: int)

  datatype Worker =
    | Idle(op: Op)
    | Scanning(owner: string, ttl: int, now: int, minted: Token, slot: nat)
    | Claiming(owner: string, ttl: int, now: int, minted: Token, slot: nat, expected: Option<Slot>)
    | Extending(slot: nat, before: Slot, ttl: int)
    | Renewing(slot: nat, before: Slot, proposed: Slot)
    | Over(granted: bool)

  datatype State = State(slots: Slots, clock: int, workers: map<nat, Worker>, drawn: set<Token>)

  datatype Event =
    | Tick(now: int)
    | Begin(op: Op)
    | Admit(admitted: bool, minted: Token)
    | Look
    | Swap
    | Release(slot: nat, token: Token)
    | Crash

  ghost predicate Next(limit: nat, s: State, s': State, p: nat, ev: Event) {
    match ev
    case Tick(now) => s.clock <= now && s' == s.(clock := now)
    case Begin(op) => p !in s.workers && s' == s.(workers := s.workers[p := Idle(op)])
    // The listing of live slots is not one read: whatever it says, the claim may go on or give up.
    case Admit(admitted, minted) =>
      p in s.workers && s.workers[p].Idle? && s.workers[p].op.Claim? && minted !in s.drawn &&
      s' == s.(drawn := s.drawn + {minted},
               workers := s.workers[p := if admitted
                                         then Scanning(s.workers[p].op.owner, s.workers[p].op.ttl, s.clock, minted, 0)
                                         else Over(false)])
    case Look => p in s.workers && s' == s.(workers := s.workers[p := Looked(limit, s, s.workers[p])])
    case Swap =>
      p in s.workers && (s.workers[p].Claiming? || s.workers[p].Renewing?) &&
      s' == Swapped(s, p, s.workers[p])
    case Release(slot, token) =>
      s' == if slot in s.slots && s.slots[slot].token == token then s.(slots := s.slots - {slot}) else s
    case Crash => p in s.workers && s' == s.(workers := s.workers[p := Over(false)])
  }

  /** Reading a slot, and for a heartbeat reading the clock. */
  function Looked(limit: nat, s: State, w: Worker): Worker {
    match w
    case Idle(Heartbeat(slot, token, ttl)) =>
      if slot in s.slots && s.slots[slot].token == token then Extending(slot, s.slots[slot], ttl) else Over(false)
    case Scanning(owner, ttl, now, minted, slot) =>
      if slot >= limit then Over(false)
      else if LiveAt(Get(s.slots, slot), now) then Scanning(owner, ttl, now, minted, slot + 1)
      else Claiming(owner, ttl, now, minted, slot, Get(s.slots, slot))
    case Extending(slot, before, ttl) => Renewing(slot, before, before.(expiresAt := s.clock + ttl))
    case _ => w
  }

  function Swapped(s: State, p: nat, w: Worker): State
    requires w.Claiming? || w.Renewing?
  {
    match w
    case Claiming(owner, ttl, now, minted, slot, expected) =>
      if Get(s.slots, slot) == expected
      then s.(slots := s.slots[slot := Slot(owner, minted, now + ttl)], workers := s.workers[p := Over(true)])
      else s.(workers := s.workers[p := Scanning(owner, ttl, now, minted, slot + 1)])
    case Renewing(slot, before, proposed) =>
      if Get(s.slots, slot) == Some(before)
      then s.(slots := s.slots[slot := proposed], workers := s.workers[p := Over(true)])
      else s.(workers := s.workers[p := Over(false)])
  }

  // ---- Invariant ----

  predicate Carries(w: Worker) { w.Scanning? || w.Claiming? }

  ghost predicate WorkerOk(limit: nat, s: State, w: Worker) {
    (Carries(w) ==> w.now <= s.clock && w.minted in s.drawn && forall i | i in s.slots :: s.slots[i].token != w.minted) &&
    (w.Claiming? ==> w.slot < limit && !LiveAt(w.expected, w.now)) &&
    (w.Renewing? ==> w.proposed.token == w.before.token)
  }

  ghost predicate Inv(limit: nat, s: State) {
    (forall i | i in s.slots :: i < limit && s.slots[i].token in s.drawn) &&
    (forall i, j | i in s.slots && j in s.slots && i != j :: s.slots[i].token != s.slots[j].token) &&
    (forall p | p in s.workers :: WorkerOk(limit, s, s.workers[p])) &&
    (forall p, q | p in s.workers && q in s.workers && p != q && Carries(s.workers[p]) && Carries(s.workers[q]) ::
       s.workers[p].minted != s.workers[q].minted)
  }

  lemma InvStep(limit: nat, s: State, s': State, p: nat, ev: Event)
    requires Inv(limit, s) && Next(limit, s, s', p, ev)
    ensures Inv(limit, s')
  {
    hide Looked, Swapped;
    if ev.Swap? {
      SwapInv(limit, s, p);
    } else if ev.Look? {
      LookInv(limit, s, p);
    }
  }

  lemma LookInv(limit: nat, s: State, p: nat)
    requires Inv(limit, s) && p in s.workers
    ensures Inv(limit, s.(workers := s.workers[p := Looked(limit, s, s.workers[p])]))
  {
    assert WorkerOk(limit, s, s.workers[p]);
  }

  lemma SwapInv(limit: nat, s: State, p: nat)
    requires Inv(limit, s) && p in s.workers && (s.workers[p].Claiming? || s.workers[p].Renewing?)
    ensures Inv(limit, Swapped(s, p, s.workers[p]))
  {
    assert WorkerOk(limit, s, s.workers[p]);
  }

  datatype Move = Move(worker: nat, event: Event)

  ghost predicate IsRun(limit: nat, states: seq<State>, moves: seq<Move>) {
    |states| == |moves| + 1 && states[0].workers == map[] && Inv(limit, states[0]) &&
    forall i | 0 <= i < |moves| :: Next(limit, states[i], states[i + 1], moves[i].worker, moves[i].event)
  }

  lemma {:induction false} RunInv(limit: nat, states: seq<State>, moves: seq<Move>, i: nat)
    requires IsRun(limit, states, moves) && i < |states|
    ensures Inv(limit, states[i])
  {
    if i > 0 {
      hide Inv, Next;
      RunInv(limit, states, moves, i - 1);
      InvStep(limit, states[i - 1], states[i], moves[i - 1].worker, moves[i - 1].event);
    }
  }

  /** At every moment of every run at most `limit` leases are live, each slot held by its own token. */
  lemma NeverOverLimit(limit: nat, states: seq<State>, moves: seq<Move>, i: nat)
    requires IsRun(limit, states, moves) && i < |states|
    ensures |Live(states[i].slots, states[i].clock)| <= limit
    ensures forall a, b | a in states[i].slots && b in states[i].slots && a != b ::
              states[i].slots[a].token != states[i].slots[b].token
  {
    RunInv(limit, states, moves, i);
    BelowSize(limit);
    SubsetSize(Live(states[i].slots, states[i].clock), Below(limit));
  }

  /** A live slot keeps its token until its own holder releases it. */
  lemma NotStolen(limit: nat, s: State, s': State, p: nat, ev: Event, i: nat)
    requires Inv(limit, s) && Next(limit, s, s', p, ev) && i in s.slots && s.slots[i].expiresAt > s.clock
    ensures (i in s'.slots && s'.slots[i].token == s.slots[i].token) || ev == Release(i, s.slots[i].token)
  {
    if ev.Swap? { assert WorkerOk(limit, s, s.workers[p]); }
  }

  /** Over a whole stretch of a run in which the slot never lapses and its holder does not release it,
      whatever stale holders try. */
  lemma {:induction false} KeptWhileLive(limit: nat, states: seq<State>, moves: seq<Move>, a: nat, b: nat, i: nat)
    requires IsRun(limit, states, moves) && a <= b < |states| && i in states[a].slots
    requires forall k | a <= k < b :: LiveAt(Get(states[k].slots, i), states[k].clock)
    requires forall k | a <= k < b :: moves[k].event != Release(i, states[a].slots[i].token)
    ensures i in states[b].slots && states[b].slots[i].token == states[a].slots[i].token
    decreases b - a
  {
    hide Next, Inv;
    if a < b {
      KeptWhileLive(limit, states, moves, a, b - 1, i);
      RunInv(limit, states, moves, b - 1);
      NotStolen(limit, states[b - 1], states[b], moves[b - 1].worker, moves[b - 1].event, i);
    }
  }

  // ---- What a swap records ----

  /** Looking at the clock, a heartbeat proposes the slot it read with a new expiry. */
  lemma HeartbeatProposes(limit: nat, s: State, s': State, p: nat)
    requires Next(limit, s, s', p, Look) && s.workers[p].Extending?
    ensures var w, w' := s.workers[p], s'.workers[p];
            w'.Renewing? && w'.slot == w.slot && w'.before == w.before && w'.proposed.owner == w.before.owner &&
            w'.proposed.token == w.before.token && w'.proposed.expiresAt == s.clock + w.ttl && s'.slots == s.slots
  {
  }

  /** The worker's swap succeeds at this step. */
  ghost predicate Wins(s: State, p: nat, ev: Event) {
    ev.Swap? && p in s.workers &&
    ((s.workers[p].Claiming? && Get(s.slots, s.workers[p].slot) == s.workers[p].expected) ||
     (s.workers[p].Renewing? && Get(s.slots, s.workers[p].slot) == Some(s.workers[p].before)))
  }

  /** A claim that wins takes a slot that has lapsed or is empty, for its token, until the time it
      looked at plus its ttl; a heartbeat that wins changes only the expiry; no other slot changes. */
  lemma WonRecords(limit: nat, s: State, s': State, p: nat)
    requires Inv(limit, s) && Next(limit, s, s', p, Swap) && Wins(s, p, Swap)
    ensures var w := s.workers[p];
            w.slot in s'.slots && s'.slots == s.slots[w.slot := s'.slots[w.slot]] && w.slot < limit &&
            var now := s'.slots[w.slot];
            if w.Claiming?
            then now.owner == w.owner && now.token == w.minted && now.expiresAt == w.now + w.ttl && w.now <= s.clock &&
                 (w.slot in s.slots ==> s.slots[w.slot].expiresAt <= w.now)
            else w.slot in s.slots && now == w.proposed && now.token == s.slots[w.slot].token
  {
    assert WorkerOk(limit, s, s.workers[p]);
  }

  /** A release frees the slot if and only if it presents the slot's token, and touches no other. */
  lemma ReleaseFrees(limit: nat, s: State, s': State, p: nat, slot: nat, token: Token)
    requires Next(limit, s, s', p, Release(slot, token))
    ensures slot in s.slots && s.slots[slot].token == token ==> slot !in s'.slots
    ensures slot in s.slots && s.slots[slot].token != token ==> slot in s'.slots
    ensures forall i | i != slot :: Get(s'.slots, i) == Get(s.slots, i)
    ensures s'.workers == s.workers
  {
  }

  // ---- A claim or heartbeat that nobody disturbs ----

  ghost predicate ClaimAt(limit: nat, s: State, t: State, p: nat, owner: string, ttl: int) {
    p in t.workers && t.clock == s.clock && s.drawn <= t.drawn &&
    match t.workers[p]
    case Idle(op) => op == Claim(owner, ttl) && t.slots == s.slots
    case Scanning(o, l, now, minted, slot) =>
      o == owner && l == ttl && now == s.clock && minted !in s.drawn && t.slots == s.slots && slot <= limit &&
      Below(slot) <= Live(s.slots, s.clock)
    case Claiming(o, l, now, minted, slot, expected) =>
      o == owner && l == ttl && now == s.clock && minted !in s.drawn && t.slots == s.slots && slot < limit &&
      Below(slot) <= Live(s.slots, s.clock) && slot !in Live(s.slots, s.clock) && expected == Get(s.slots, slot)
    case Over(granted) =>
      if granted then Granted(limit, s, t, owner, ttl)
      else t.slots == s.slots && Below(limit) <= Live(s.slots, s.clock)
    case _ => false
  }

  /** The lowest slot that is not live has gone to a new token, and no other has changed. */
  ghost predicate Granted(limit: nat, s: State, t: State, owner: string, ttl: int) {
    exists i: nat :: i < limit && i !in Live(s.slots, s.clock) && Below(i) <= Live(s.slots, s.clock) && i in t.slots &&
                     t.slots == s.slots[i := t.slots[i]] && t.slots[i].owner == owner && t.slots[i].token !in s.drawn &&
                     t.slots[i].expiresAt == s.clock + ttl
  }

  lemma ClaimStep(limit: nat, s: State, t: State, t': State, p: nat, ev: Event, owner: string, ttl: int)
    requires ClaimAt(limit, s, t, p, owner, ttl) && Next(limit, t, t', p, ev)
    requires (ev.Admit? && ev.admitted) || ev.Look? || ev.Swap?
    ensures ClaimAt(limit, s, t', p, owner, ttl)
  {
    if ev.Swap? {
      var i := t.workers[p].slot;
      assert i in t'.slots && t'.slots == s.slots[i := t'.slots[i]];
    }
  }

  /** An admitted claim that nobody disturbs gets the lowest slot that is not live, until the present
      time plus its ttl, or finds every slot below the limit live. */
  lemma {:induction false} ClaimAloneGets(limit: nat, states: seq<State>, events: seq<Event>, p: nat, owner: string, ttl: int)
    requires |states| == |events| + 1 && |events| > 0 && events[0] == Begin(Claim(owner, ttl))
    requires forall i | 0 <= i < |events| :: Next(limit, states[i], states[i + 1], p, events[i])
    requires forall i | 0 < i < |events| :: (events[i].Admit? && events[i].admitted) || events[i].Look? || events[i].Swap?
    ensures ClaimAt(limit, states[0], states[|events|], p, owner, ttl)
  {
    var k := |events| - 1;
    if k > 0 {
      hide Next, ClaimAt;
      ClaimAloneGets(limit, states[..k + 1], events[..k], p, owner, ttl);
      ClaimStep(limit, states[0], states[k], states[k + 1], p, events[k], owner, ttl);
    }
  }

  ghost predicate BeatAt(s: State, t: State, p: nat, slot: nat, token: Token, ttl: int) {
    p in t.workers && t.clock == s.clock &&
    var held := slot in s.slots && s.slots[slot].token == token;
    match t.workers[p]
    case Idle(op) => op == Heartbeat(slot, token, ttl) && t.slots == s.slots
    case Extending(i, before, l) => i == slot && l == ttl && held && before == s.slots[slot] && t.slots == s.slots
    case Renewing(i, before, proposed) =>
      i == slot && held && before == s.slots[slot] && t.slots == s.slots && proposed.owner == before.owner &&
      proposed.token == token && proposed.expiresAt == s.clock + ttl
    case Over(granted) =>
      (granted <==> held) &&
      if held then slot in t.slots && t.slots == s.slots[slot := t.slots[slot]] && t.slots[slot].token == token &&
                   t.slots[slot].owner == s.slots[slot].owner && t.slots[slot].expiresAt == s.clock + ttl
      else t.slots == s.slots
    case _ => false
  }

  lemma BeatStep(limit: nat, s: State, t: State, t': State, p: nat, ev: Event, slot: nat, token: Token, ttl: int)
    requires BeatAt(s, t, p, slot, token, ttl) && Next(limit, t, t', p, ev) && (ev.Look? || ev.Swap?)
    ensures BeatAt(s, t', p, slot, token, ttl)
  {
  }

  /** A heartbeat that nobody disturbs succeeds if and only if its token holds the slot, and then the
      slot lasts until the present time plus its ttl. */
  lemma {:induction false} HeartbeatAloneIff(limit: nat, states: seq<State>, events: seq<Event>, p: nat, slot: nat,
                                             token: Token, ttl: int)
    requires |states| == |events| + 1 && |events| > 0 && events[0] == Begin(Heartbeat(slot, token, ttl))
    requires forall i | 0 <= i < |events| :: Next(limit, states[i], states[i + 1], p, events[i])
    requires forall i | 0 < i < |events| :: events[i].Look? || events[i].Swap?
    ensures BeatAt(states[0], states[|events|], p, slot, token, ttl)
  {
    var k := |events| - 1;
    if k > 0 {
      hide Next, BeatAt;
      HeartbeatAloneIff(limit, states[..k + 1], events[..k], p, slot, token, ttl);
      BeatStep(limit, states[0], states[k], states[k + 1], p, events[k], slot, token, ttl);
    }
  }

  // ---- A lease holds for its time ----

  ghost predicate Leased(s: State, i: nat, t: Token, until: int) {
    i in s.slots && s.slots[i].token == t && until <= s.slots[i].expiresAt
  }

  /** The holder releases the slot, or renews it for less. */
  ghost predicate EndsLease(s: State, m: Move, i: nat, t: Token, until: int) {
    m.event == Release(i, t) ||
    (Wins(s, m.worker, m.event) && s.workers[m.worker].Renewing? && s.workers[m.worker].slot == i &&
     s.workers[m.worker].proposed.expiresAt < until)
  }

  lemma LeaseStep(limit: nat, s: State, s': State, m: Move, i: nat, t: Token, until: int)
    requires Inv(limit, s) && Next(limit, s, s', m.worker, m.event) && Leased(s, i, t, until) && s.clock < until
    requires !EndsLease(s, m, i, t, until)
    ensures Leased(s', i, t, until)
  {
    if Wins(s, m.worker, m.event) {
      WonRecords(limit, s, s', m.worker);
    }
  }

  /** A slot claimed or renewed until some time keeps its token until then, whatever others do, unless
      its holder releases it or renews it for less. */
  lemma {:induction false} LeaseHolds(limit: nat, states: seq<State>, moves: seq<Move>, a: nat, b: nat, i: nat, t: Token,
                                      until: int)
    requires IsRun(limit, states, moves) && a <= b < |states| && Leased(states[a], i, t, until)
    requires forall k | a <= k < b :: states[k].clock < until && !EndsLease(states[k], moves[k], i, t, until)
    ensures Leased(states[b], i, t, until)
    decreases b - a
  {
    hide Inv, Next, Leased, EndsLease;
    if a < b {
      LeaseHolds(limit, states, moves, a, b - 1, i, t, until);
      RunInv(limit, states, moves, b - 1);
      LeaseStep(limit, states[b - 1], states[b], moves[b - 1], i, t, until);
    }
  }
}
