/** Pushes through a primary store with write-through mirrors.

    Store 0 is the primary, the others are mirrors.  Every request to every store is its own step,
    any request may fail, and any number of pushes interleave. */
module Mirrors {
  import opened Core
  import opened ObjectGraph

  type RefName = string
  type Refs = map<RefName, ObjId>

  datatype Store = Store(objects: set<ObjId>, refs: Refs)

  /** One push in flight.  `Uploading` is `Push.run`, where `objects` is the pusher's whole local
      store; the `Thin` phases are the remote helper's push of a list of objects.  `left` records what
      such a push did not write everywhere: objects not listed, because an excluded ref of the primary
      reaches them, listed objects that the primary had when it was asked, and (with lenient replicas)
      objects that a replica failed to take. */
  datatype Push =
    | Uploading(ref: RefName, local: ObjId, objects: set<ObjId>, expected: Option<ObjId>, store: nat)
    | Replicating(ref: RefName, local: ObjId, store: nat)
    | Swapping(ref: RefName, local: ObjId, store: nat, current: Option<ObjId>)
    | Thin(ref: RefName, local: ObjId, expected: Option<ObjId>, todo: set<ObjId>, left: set<ObjId>)
    | ThinWriting(ref: RefName, local: ObjId, expected: Option<ObjId>, todo: set<ObjId>, left: set<ObjId>, o: ObjId,
                  store: nat)
    | ThinLost(ref: RefName, local: ObjId, left: set<ObjId>)
    | Over

  /** `held` records every value the primary has held under a name. */
  datatype State = State(stores: seq<Store>, pushes: map<nat, Push>, held: map<RefName, set<ObjId>>)

  function Lookup(refs: Refs, name: RefName): Option<ObjId> {
    if name in refs then Some(refs[name]) else None
  }

  ghost predicate WasHeld(held: map<RefName, set<ObjId>>, name: RefName, o: ObjId) {
    name in held && o in held[name]
  }

  datatype Event =
    | Start(push: Push)
    | UploadOne(o: ObjId)
    | UploadEnd
    | UploadFails
    | PrimaryCas
    | MirrorRead
    | MirrorCas
    | ThinStart(push: Push)
    | ThinSkip(o: ObjId)
    | ThinPick(o: ObjId)
    | ThinWrite
    | ThinWriteFails
    | ThinCas
    | ThinReadAgain
    | MirrorFails
    | Abort

  /** What a thin push starts from: everything it needs is listed or left out, and what is left out
      is in the primary. */
  ghost predicate ListedOrLeft(w: World, push: Push, primary: Store)
    requires push.Thin?
  {
    push.left <= primary.objects && forall b :: Reaches(w.refs, push.local, b) ==> b in push.todo || b in push.left
  }

  /** What this push did not write is in every store. */
  ghost predicate LeftEverywhere(w: World, stores: seq<Store>, push: Push)
    requires push.Thin?
  {
    forall k, b | 0 <= k < |stores| && b in push.left && Reaches(w.refs, push.local, b) :: b in stores[k].objects
  }

  /** The condition a helper push needs when it swaps. */
  ghost predicate NothingMissed(w: World, s: State, p: nat, ev: Event) {
    ev.ThinCas? && p in s.pushes && s.pushes[p].Thin? ==> LeftEverywhere(w, s.stores, s.pushes[p])
  }

  ghost function Hold(held: map<RefName, set<ObjId>>, name: RefName, o: ObjId): map<RefName, set<ObjId>> {
    held[name := (if name in held then held[name] else {}) + {o}]
  }

  /** One step of push `p`.  A strict store raises on a failed replica write; a lenient one notes
      the failure and carries on with the next replica. */
  ghost predicate Next(w: World, strict: bool, s: State, s': State, p: nat, ev: Event) {
    match ev
    case Start(push) =>
      p !in s.pushes && |s.stores| > 0 && push.Uploading? && push.store == 0 &&
      push.expected == Lookup(s.stores[0].refs, push.ref) &&
      push.local in push.objects && Closed(w.refs, push.objects) &&
      s' == s.(pushes := s.pushes[p := push])
    case UploadOne(o) =>
      p in s.pushes && s.pushes[p].Uploading? && s.pushes[p].store < |s.stores| && o in s.pushes[p].objects &&
      var k := s.pushes[p].store;
      s' == s.(stores := s.stores[k := Store(s.stores[k].objects + {o}, s.stores[k].refs)])
    case UploadEnd =>
      p in s.pushes && s.pushes[p].Uploading? && s.pushes[p].store < |s.stores| &&
      s.pushes[p].objects <= s.stores[s.pushes[p].store].objects &&
      s' == s.(pushes := s.pushes[p := Skip(s.pushes[p])])
    case UploadFails =>
      p in s.pushes && s.pushes[p].Uploading? && 0 < s.pushes[p].store < |s.stores| &&
      s' == s.(pushes := s.pushes[p := if strict then Over else Skip(s.pushes[p])])
    case PrimaryCas =>
      p in s.pushes && s.pushes[p].Uploading? && s.pushes[p].store == |s.stores| > 0 &&
      var u, primary := s.pushes[p], s.stores[0];
      if Lookup(primary.refs, u.ref) == u.expected
      then s' == State(s.stores[0 := Store(primary.objects, primary.refs[u.ref := u.local])],
                       s.pushes[p := Replicating(u.ref, u.local, 1)], Hold(s.held, u.ref, u.local))
      else s' == s.(pushes := s.pushes[p := Over])
    case MirrorRead =>
      p in s.pushes && s.pushes[p].Replicating? && 0 < s.pushes[p].store < |s.stores| &&
      var u := s.pushes[p];
      var current := Lookup(s.stores[u.store].refs, u.ref);
      s' == s.(pushes := s.pushes[p := if current == Some(u.local) then Replicating(u.ref, u.local, u.store + 1)
                                       else Swapping(u.ref, u.local, u.store, current)])
    case MirrorCas =>
      p in s.pushes && s.pushes[p].Swapping? && 0 < s.pushes[p].store < |s.stores| &&
      var u := s.pushes[p];
      var mirror := s.stores[u.store];
      var mirror' := if Lookup(mirror.refs, u.ref) == u.current then Store(mirror.objects, mirror.refs[u.ref := u.local])
                     else mirror;
      s' == s.(stores := s.stores[u.store := mirror'], pushes := s.pushes[p := Replicating(u.ref, u.local, u.store + 1)])
    case ThinStart(push) =>
      p !in s.pushes && |s.stores| > 0 && push.Thin? && push.expected == Lookup(s.stores[0].refs, push.ref) &&
      ListedOrLeft(w, push, s.stores[0]) &&
      s' == s.(pushes := s.pushes[p := push])
    case ThinSkip(o) =>  // `has_object` asks the primary only
      p in s.pushes && s.pushes[p].Thin? && o in s.pushes[p].todo && |s.stores| > 0 && o in s.stores[0].objects &&
      s' == s.(pushes := s.pushes[p := Without(s.pushes[p], o)])
    case ThinPick(o) =>
      p in s.pushes && s.pushes[p].Thin? && o in s.pushes[p].todo && |s.stores| > 0 && o !in s.stores[0].objects &&
      var u := s.pushes[p];
      s' == s.(pushes := s.pushes[p := ThinWriting(u.ref, u.local, u.expected, u.todo, u.left, o, 0)])
    case ThinWrite =>
      p in s.pushes && s.pushes[p].ThinWriting? && s.pushes[p].store < |s.stores| &&
      var u := s.pushes[p];
      s' == s.(stores := s.stores[u.store := Store(s.stores[u.store].objects + {u.o}, s.stores[u.store].refs)],
               pushes := s.pushes[p := if u.store + 1 < |s.stores|
                                       then ThinWriting(u.ref, u.local, u.expected, u.todo, u.left, u.o, u.store + 1)
                                       else Thin(u.ref, u.local, u.expected, u.todo - {u.o}, u.left)])
    case ThinWriteFails =>
      p in s.pushes && s.pushes[p].ThinWriting? && 0 < s.pushes[p].store < |s.stores| &&
      var u := s.pushes[p];
      s' == s.(pushes := s.pushes[p := if strict then Over
                                       else if u.store + 1 < |s.stores|
                                       then ThinWriting(u.ref, u.local, u.expected, u.todo, u.left + {u.o}, u.o, u.store + 1)
                                       else Thin(u.ref, u.local, u.expected, u.todo - {u.o}, u.left + {u.o})])
    case ThinCas =>
      p in s.pushes && s.pushes[p].Thin? && s.pushes[p].todo == {} && |s.stores| > 0 &&
      var u, primary := s.pushes[p], s.stores[0];
      if Lookup(primary.refs, u.ref) == u.expected
      then s' == State(s.stores[0 := Store(primary.objects, primary.refs[u.ref := u.local])],
                       s.pushes[p := Replicating(u.ref, u.local, 1)], Hold(s.held, u.ref, u.local))
      else s' == s.(pushes := s.pushes[p := ThinLost(u.ref, u.local, u.left)])
    case ThinReadAgain =>  // a forced push reads the ref again and swaps once more
      p in s.pushes && s.pushes[p].ThinLost? && |s.stores| > 0 &&
      var u := s.pushes[p];
      s' == s.(pushes := s.pushes[p := Thin(u.ref, u.local, Lookup(s.stores[0].refs, u.ref), {}, u.left)])
    case MirrorFails =>
      p in s.pushes && (s.pushes[p].Replicating? || s.pushes[p].Swapping?) && 0 < s.pushes[p].store < |s.stores| &&
      var u := s.pushes[p];
      s' == s.(pushes := s.pushes[p := if strict then Over else Replicating(u.ref, u.local, u.store + 1)])
    case Abort =>
      p in s.pushes && s' == s.(pushes := s.pushes[p := Over])
  }

  function Skip(u: Push): Push
    requires u.Uploading?
  {
    Uploading(u.ref, u.local, u.objects, u.expected, u.store + 1)
  }

  function Without(u: Push, o: ObjId): Push
    requires u.Thin?
  {
    Thin(u.ref, u.local, u.expected, u.todo - {o}, u.left + {o})
  }

  // ---- Invariant ----

  ghost predicate StoreOk(w: World, held: map<RefName, set<ObjId>>, original: Refs, st: Store) {
    forall n | n in st.refs ::
      Has(w.refs, st.objects, st.refs[n]) &&
      (WasHeld(held, n, st.refs[n]) || Lookup(original, n) == Some(st.refs[n]))
  }

  ghost predicate InEvery(s: State, o: ObjId) { forall k | 0 <= k < |s.stores| :: o in s.stores[k].objects }

  /** Every object a thin push needs is still to be written, was left out, or is in every store. */
  ghost predicate Accounted(w: World, s: State, local: ObjId, todo: set<ObjId>, left: set<ObjId>) {
    forall b | Reaches(w.refs, local, b) :: b in todo || b in left || InEvery(s, b)
  }

  ghost predicate PushOk(w: World, s: State, u: Push) {
    match u
    case Uploading(ref, local, objects, _, store) =>
      local in objects && Closed(w.refs, objects) && store <= |s.stores| &&
      forall k | 0 <= k < store :: objects <= s.stores[k].objects
    case Replicating(ref, local, _) =>
      WasHeld(s.held, ref, local) && forall k | 0 <= k < |s.stores| :: Has(w.refs, s.stores[k].objects, local)
    case Swapping(ref, local, _, _) =>
      WasHeld(s.held, ref, local) && forall k | 0 <= k < |s.stores| :: Has(w.refs, s.stores[k].objects, local)
    case Thin(_, local, _, todo, left) =>
      |s.stores| > 0 && left <= s.stores[0].objects && Accounted(w, s, local, todo, left)
    case ThinWriting(_, local, _, todo, left, o, store) =>
      |s.stores| > 0 && left <= s.stores[0].objects && Accounted(w, s, local, todo, left) && o in todo &&
      (store > 0 ==> o in s.stores[0].objects) &&
      (o in left || forall k | 0 <= k < store && k < |s.stores| :: o in s.stores[k].objects)
    case ThinLost(_, local, left) =>
      |s.stores| > 0 && left <= s.stores[0].objects && Accounted(w, s, local, {}, left)
    case Over => true
  }

  ghost predicate Inv(w: World, originals: seq<Refs>, s: State) {
    |s.stores| == |originals| > 0 &&
    (forall n | n in s.stores[0].refs :: WasHeld(s.held, n, s.stores[0].refs[n])) &&
    (forall k | 0 <= k < |s.stores| :: StoreOk(w, s.held, originals[k], s.stores[k])) &&
    (forall p | p in s.pushes :: PushOk(w, s, s.pushes[p]))
  }

  ghost predicate Init(w: World, s: State) {
    |s.stores| > 0 && s.pushes == map[] &&
    (forall n: RefName, o: ObjId :: WasHeld(s.held, n, o) <==> Lookup(s.stores[0].refs, n) == Some(o)) &&
    forall k, n | 0 <= k < |s.stores| && n in s.stores[k].refs :: Has(w.refs, s.stores[k].objects, s.stores[k].refs[n])
  }

  ghost predicate Grows(s: State, s': State) {
    |s'.stores| == |s.stores| && (forall k | 0 <= k < |s.stores| :: s.stores[k].objects <= s'.stores[k].objects) &&
    forall n, o | WasHeld(s.held, n, o) :: WasHeld(s'.held, n, o)
  }

  lemma StepGrows(w: World, strict: bool, s: State, s': State, p: nat, ev: Event)
    requires Next(w, strict, s, s', p, ev)
    ensures Grows(s, s')
  {
  }

  lemma PushStable(w: World, s: State, s': State, u: Push)
    requires PushOk(w, s, u) && Grows(s, s')
    ensures PushOk(w, s', u)
  {
  }

  lemma StoresStep(w: World, originals: seq<Refs>, s: State, s': State, p: nat, ev: Event)
    requires Inv(w, originals, s) && Next(w, true, s, s', p, ev) && NothingMissed(w, s, p, ev)
    ensures forall n | n in s'.stores[0].refs :: WasHeld(s'.held, n, s'.stores[0].refs[n])
    ensures forall k | 0 <= k < |s'.stores| :: StoreOk(w, s'.held, originals[k], s'.stores[k])
  {
    StepGrows(w, true, s, s', p, ev);
    if ev.PrimaryCas? {
      var u := s.pushes[p];
      ClosedHas(w.refs, u.objects, u.local);
    } else if ev.ThinCas? {
      assert Has(w.refs, s.stores[0].objects, s.pushes[p].local);
    }
    forall k | 0 <= k < |s'.stores| ensures StoreOk(w, s'.held, originals[k], s'.stores[k]) {
      assert StoreOk(w, s.held, originals[k], s.stores[k]);
    }
  }

  lemma InvStep(w: World, originals: seq<Refs>, s: State, s': State, p: nat, ev: Event)
    requires Inv(w, originals, s) && Next(w, true, s, s', p, ev) && NothingMissed(w, s, p, ev)
    ensures Inv(w, originals, s')
  {
    StepGrows(w, true, s, s', p, ev);
    StoresStep(w, originals, s, s', p, ev);
    OthersStay(w, true, s, s', p, ev);
    ActorOk(w, s, s', p, ev);
    hide Next, PushOk, StoreOk, NothingMissed;
    forall q | q in s'.pushes ensures PushOk(w, s', s'.pushes[q]) {
      if q != p {
        PushStable(w, s, s', s.pushes[q]);
      }
    }
  }

  lemma OthersStay(w: World, strict: bool, s: State, s': State, p: nat, ev: Event)
    requires Next(w, strict, s, s', p, ev)
    ensures forall q | q in s'.pushes && q != p :: q in s.pushes && s'.pushes[q] == s.pushes[q]
  {
    hide ListedOrLeft, Closed;
  }

  lemma ActorOk(w: World, s: State, s': State, p: nat, ev: Event)
    requires Next(w, true, s, s', p, ev) && NothingMissed(w, s, p, ev) && |s.stores| > 0
    requires p in s.pushes ==> PushOk(w, s, s.pushes[p])
    ensures p in s'.pushes ==> PushOk(w, s', s'.pushes[p])
  {
    StepGrows(w, true, s, s', p, ev);
    if ev.PrimaryCas? {
      var u := s.pushes[p];
      forall k | 0 <= k < |s'.stores| ensures Has(w.refs, s'.stores[k].objects, u.local) {
        ClosedHas(w.refs, u.objects, u.local);
        HasMore(w.refs, u.objects, s'.stores[k].objects, u.local);
      }
    } else if ev.ThinCas? {
      assert Has(w.refs, s.stores[0].objects, s.pushes[p].local);
    } else if !ev.Start? && !ev.ThinStart? {
      PushStable(w, s, s', s.pushes[p]);
    }
  }

  // ---- Whole runs ----

  datatype Move = Move(push: nat, event: Event)

  ghost predicate IsRun(w: World, strict: bool, states: seq<State>, moves: seq<Move>) {
    |states| == |moves| + 1 && Init(w, states[0]) &&
    forall i | 0 <= i < |moves| :: Next(w, strict, states[i], states[i + 1], moves[i].push, moves[i].event)
  }

  ghost function Originals(s: State): seq<Refs> { seq(|s.stores|, k requires 0 <= k < |s.stores| => s.stores[k].refs) }

  /** Strict mirrors, over every run with failures anywhere: a mirror ref is its original value or
      one the primary has held, and its whole closure is in that mirror's own objects.  Pushes of
      `Push.run` need nothing for this; a helper push needs, when it swaps, that what it left out is
      in every store, and `ThinCompleteIff` says that this is exactly what it needs. */
  lemma StrictMirrors(w: World, states: seq<State>, moves: seq<Move>, i: nat, k: nat, n: RefName)
    requires IsRun(w, true, states, moves) && i < |states|
    requires forall j | 0 <= j < |moves| :: NothingMissed(w, states[j], moves[j].push, moves[j].event)
    requires k < |states[i].stores| && n in states[i].stores[k].refs
    ensures |states[0].stores| == |states[i].stores|
    ensures var value := states[i].stores[k].refs[n];
            Has(w.refs, states[i].stores[k].objects, value) &&
            (WasHeld(states[i].held, n, value) || Lookup(states[0].stores[k].refs, n) == Some(value))
  {
    RunInv(w, states, moves, i);
    assert StoreOk(w, states[i].held, Originals(states[0])[k], states[i].stores[k]);
  }

  lemma {:induction false} RunInv(w: World, states: seq<State>, moves: seq<Move>, i: nat)
    requires IsRun(w, true, states, moves) && i < |states|
    requires forall j | 0 <= j < |moves| :: NothingMissed(w, states[j], moves[j].push, moves[j].event)
    ensures Inv(w, Originals(states[0]), states[i])
  {
    hide Inv, Next, NothingMissed, Init;
    if i == 0 {
      StartOk(w, states[0]);
    } else {
      RunInv(w, states, moves, i - 1);
      InvStep(w, Originals(states[0]), states[i - 1], states[i], moves[i - 1].push, moves[i - 1].event);
    }
  }

  lemma StartOk(w: World, s: State)
    requires Init(w, s)
    ensures Inv(w, Originals(s), s)
  {
  }

  /** `held` means what it says: a recorded value was the primary's value in some state of the run so
      far. */
  lemma {:induction false} HeldIsHistory(w: World, strict: bool, states: seq<State>, moves: seq<Move>, i: nat,
                                         n: RefName, o: ObjId)
    requires IsRun(w, strict, states, moves) && i < |states| && WasHeld(states[i].held, n, o)
    ensures exists j | 0 <= j <= i :: |states[j].stores| > 0 && Lookup(states[j].stores[0].refs, n) == Some(o)
  {
    if i == 0 {
      assert Lookup(states[0].stores[0].refs, n) == Some(o);
    } else {
      if WasHeld(states[i - 1].held, n, o) {
        HeldIsHistory(w, strict, states, moves, i - 1, n, o);
      } else {
        assert moves[i - 1].event.PrimaryCas? || moves[i - 1].event.ThinCas?;
        assert Lookup(states[i].stores[0].refs, n) == Some(o);
      }
    }
  }

  /** The part of the invariant that is about thin pushes needs no hypothesis, and holds with lenient
      replicas as well. */
  predicate IsThin(u: Push) { u.Thin? || u.ThinWriting? || u.ThinLost? }

  ghost predicate ThinsOk(w: World, s: State) {
    |s.stores| > 0 && forall p | p in s.pushes && IsThin(s.pushes[p]) :: PushOk(w, s, s.pushes[p])
  }

  lemma ThinsStep(w: World, strict: bool, s: State, s': State, p: nat, ev: Event)
    requires ThinsOk(w, s) && Next(w, strict, s, s', p, ev)
    ensures ThinsOk(w, s')
  {
    StepGrows(w, strict, s, s', p, ev);
    forall q | q in s'.pushes && IsThin(s'.pushes[q]) ensures PushOk(w, s', s'.pushes[q]) {
      if q in s.pushes && IsThin(s.pushes[q]) {
        PushStable(w, s, s', s.pushes[q]);
      }
    }
  }

  lemma {:induction false} RunThins(w: World, strict: bool, states: seq<State>, moves: seq<Move>, i: nat)
    requires IsRun(w, strict, states, moves) && i < |states|
    ensures ThinsOk(w, states[i])
  {
    if i > 0 {
      hide ThinsOk, Next;
      RunThins(w, strict, states, moves, i - 1);
      ThinsStep(w, strict, states[i - 1], states[i], moves[i - 1].push, moves[i - 1].event);
    }
  }

  /** In every run, when all listed objects are dealt with, a store has the pushed closure exactly if
      it has what the push left out. */
  lemma ThinCompleteIff(w: World, strict: bool, states: seq<State>, moves: seq<Move>, i: nat, p: nat, k: nat)
    requires IsRun(w, strict, states, moves) && i < |states|
    requires p in states[i].pushes && states[i].pushes[p].Thin? && states[i].pushes[p].todo == {}
    requires k < |states[i].stores|
    ensures var u := states[i].pushes[p];
            Has(w.refs, states[i].stores[k].objects, u.local) <==>
            forall b | b in u.left && Reaches(w.refs, u.local, b) :: b in states[i].stores[k].objects
  {
    RunThins(w, strict, states, moves, i);
    assert PushOk(w, states[i], states[i].pushes[p]);
    var u, st := states[i].pushes[p], states[i].stores[k];
    if forall b | b in u.left && Reaches(w.refs, u.local, b) :: b in st.objects {
      forall b | Reaches(w.refs, u.local, b) ensures b in st.objects {
        assert b in u.left || InEvery(states[i], b);
      }
    }
  }

  /** Steps of one push, one after the other. */
  ghost predicate Goes(w: World, strict: bool, states: seq<State>, events: seq<Event>, p: nat) {
    |states| == |events| + 1 &&
    forall i | 0 <= i < |events| :: Next(w, strict, states[i], states[i + 1], p, events[i])
  }

  lemma GoesTogether(w: World, strict: bool, states: seq<State>, events: seq<Event>, more: seq<State>, evs: seq<Event>, p: nat)
    requires Goes(w, strict, states, events, p) && Goes(w, strict, more, evs, p) && states[|events|] == more[0]
    ensures Goes(w, strict, states + more[1..], events + evs, p)
    ensures (states + more[1..])[0] == states[0] && (states + more[1..])[|events + evs|] == more[|evs|]
  {
    hide Next;
    var all, es := states + more[1..], events + evs;
    forall i | 0 <= i < |es| ensures Next(w, strict, all[i], all[i + 1], p, es[i]) {
      if i >= |events| {
        var k := i - |events|;
        assert all[i] == more[k] && all[i + 1] == more[k + 1] && es[i] == evs[k];
      }
    }
  }

  ghost predicate Dangles(w: World, s: State, k: nat, ref: RefName) {
    k < |s.stores| && ref in s.stores[k].refs && !Has(w.refs, s.stores[k].objects, s.stores[k].refs[ref])
  }

  /** One mirror: the ref there becomes the pushed id, no objects move. */
  lemma MirrorSteps(w: World, strict: bool, s: State, p: nat) returns (states: seq<State>, events: seq<Event>)
    requires p in s.pushes && s.pushes[p].Replicating? && 0 < s.pushes[p].store < |s.stores|
    ensures |states| == |events| + 1 && Goes(w, strict, states, events, p) && states[0] == s
    ensures var u, t := s.pushes[p], states[|events|];
            p in t.pushes && t.pushes[p] == Replicating(u.ref, u.local, u.store + 1) && |t.stores| == |s.stores| &&
            Lookup(t.stores[u.store].refs, u.ref) == Some(u.local) &&
            forall k | 0 <= k < |s.stores| :: t.stores[k].objects == s.stores[k].objects
  {
    var u := s.pushes[p];
    var mirror := s.stores[u.store];
    var current := Lookup(mirror.refs, u.ref);
    var next := Replicating(u.ref, u.local, u.store + 1);
    if current == Some(u.local) {
      states, events := [s, s.(pushes := s.pushes[p := next])], [MirrorRead];
    } else {
      var read := s.(pushes := s.pushes[p := Swapping(u.ref, u.local, u.store, current)]);
      var done := read.(stores := read.stores[u.store := Store(mirror.objects, mirror.refs[u.ref := u.local])],
                        pushes := read.pushes[p := next]);
      states, events := [s, read, done], [MirrorRead, MirrorCas];
      assert Next(w, strict, s, read, p, MirrorRead);
      assert Next(w, strict, read, done, p, MirrorCas);
    }
  }

  /** And only then: if a push replicates an id whose closure a mirror lacks, then the push, going on
      undisturbed, leaves that mirror's ref dangling. */
  lemma {:induction false} MissedDangles(w: World, strict: bool, s: State, p: nat, k: nat)
      returns (states: seq<State>, events: seq<Event>)
    requires p in s.pushes && s.pushes[p].Replicating? && 0 < s.pushes[p].store <= k < |s.stores|
    requires !Has(w.refs, s.stores[k].objects, s.pushes[p].local)
    ensures |states| == |events| + 1 && Goes(w, strict, states, events, p) && states[0] == s
    ensures Dangles(w, states[|events|], k, s.pushes[p].ref)
    decreases k - s.pushes[p].store
  {
    hide Next, Goes, Has;
    states, events := MirrorSteps(w, strict, s, p);
    var t := states[|events|];
    if s.pushes[p].store < k {
      var more, evs := MissedDangles(w, strict, t, p, k);
      GoesTogether(w, strict, states, events, more, evs, p);
      states, events := states + more[1..], events + evs;
    }
  }

  /** So the condition of `StrictMirrors` is exact: a helper push that wins its swap without it
      leaves a dangling mirror ref unless something else intervenes. */
  lemma MissedSwapDangles(w: World, strict: bool, run: seq<State>, moves: seq<Move>, p: nat, k: nat, b: ObjId)
      returns (states: seq<State>, events: seq<Event>)
    requires IsRun(w, strict, run, moves)
    requires var s := run[|moves|];
             p in s.pushes && s.pushes[p].Thin? && s.pushes[p].todo == {} && 0 < k < |s.stores| &&
             Lookup(s.stores[0].refs, s.pushes[p].ref) == s.pushes[p].expected &&
             b in s.pushes[p].left && Reaches(w.refs, s.pushes[p].local, b) && b !in s.stores[k].objects
    ensures |states| == |events| + 1 && Goes(w, strict, states, events, p) && states[0] == run[|moves|]
    ensures Dangles(w, states[|events|], k, run[|moves|].pushes[p].ref)
  {
    var s := run[|moves|];
    var u, primary := s.pushes[p], s.stores[0];
    var t := State(s.stores[0 := Store(primary.objects, primary.refs[u.ref := u.local])],
                   s.pushes[p := Replicating(u.ref, u.local, 1)], Hold(s.held, u.ref, u.local));
    assert Next(w, strict, s, t, p, ThinCas);
    assert Goes(w, strict, [s, t], [ThinCas], p);
    hide Next, Goes, Hold;
    var more, evs := MissedDangles(w, strict, t, p, k);
    GoesTogether(w, strict, [s, t], [ThinCas], more, evs, p);
    states, events := [s, t] + more[1..], [ThinCas] + evs;
  }

  // ---- A push that nobody disturbs and no store fails ----

  predicate PushEvent(ev: Event) { ev.UploadOne? || ev.UploadEnd? || ev.PrimaryCas? || ev.MirrorRead? || ev.MirrorCas? }

  /** The refs of store `k` when the push has dealt with the first `done` stores. */
  function RefsAfter(s: State, ref: RefName, local: ObjId, done: nat, k: nat): Refs
    requires k < |s.stores|
  {
    if k < done then s.stores[k].refs[ref := local] else s.stores[k].refs
  }

  ghost predicate RefsAre(s: State, t: State, ref: RefName, local: ObjId, done: nat) {
    |t.stores| == |s.stores| && forall k | 0 <= k < |s.stores| :: t.stores[k].refs == RefsAfter(s, ref, local, done, k)
  }

  ghost predicate AloneAt(s: State, t: State, p: nat, u: Push)
    requires u.Uploading?
  {
    p in t.pushes && |t.stores| == |s.stores| > 0 &&
    match t.pushes[p]
    case Uploading(ref, local, objects, expected, store) =>
      ref == u.ref && local == u.local && objects == u.objects && expected == Lookup(s.stores[0].refs, u.ref) &&
      store <= |s.stores| && RefsAre(s, t, u.ref, u.local, 0) && forall k | 0 <= k < store :: u.objects <= t.stores[k].objects
    case Replicating(ref, local, store) =>
      ref == u.ref && local == u.local && 0 < store <= |s.stores| && RefsAre(s, t, u.ref, u.local, store) &&
      forall k | 0 <= k < |s.stores| :: u.objects <= t.stores[k].objects
    case Swapping(ref, local, store, current) =>
      ref == u.ref && local == u.local && 0 < store < |s.stores| && RefsAre(s, t, u.ref, u.local, store) &&
      current == Lookup(s.stores[store].refs, u.ref) && forall k | 0 <= k < |s.stores| :: u.objects <= t.stores[k].objects
    case _ => false
  }

  lemma AloneStart(w: World, strict: bool, s: State, t: State, p: nat, u: Push)
    requires Next(w, strict, s, t, p, Start(u))
    ensures AloneAt(s, t, p, u)
  {
  }

  lemma AloneStep(w: World, strict: bool, s: State, t: State, t': State, p: nat, u: Push, ev: Event)
    requires u.Uploading? && AloneAt(s, t, p, u) && Next(w, strict, t, t', p, ev) && PushEvent(ev)
    ensures AloneAt(s, t', p, u)
  {
    if ev.MirrorRead? && Lookup(t.stores[t.pushes[p].store].refs, u.ref) == Some(u.local) {
      var k := t.pushes[p].store;
      assert t.stores[k].refs == RefsAfter(s, u.ref, u.local, k, k);
      assert s.stores[k].refs[u.ref := u.local] == s.stores[k].refs;
    }
  }

  lemma {:induction false} AlonePush(w: World, strict: bool, states: seq<State>, events: seq<Event>, p: nat, u: Push)
    requires |states| == |events| + 1 && |events| > 0 && events[0] == Start(u) && u.Uploading?
    requires forall i | 0 <= i < |events| :: Next(w, strict, states[i], states[i + 1], p, events[i])
    requires forall i | 0 < i < |events| :: PushEvent(events[i])
    ensures AloneAt(states[0], states[|events|], p, u)
  {
    hide Next, AloneAt, PushEvent;
    var k := |events| - 1;
    if k == 0 {
      AloneStart(w, strict, states[0], states[1], p, u);
    } else {
      AlonePush(w, strict, states[..k + 1], events[..k], p, u);
      AloneStep(w, strict, states[0], states[k], states[k + 1], p, u, events[k]);
    }
  }

  /** An undisturbed push that has dealt with every store has put the commit on the branch of all of
      them, with all its objects, and changed no other ref anywhere. */
  lemma AlonePushReachesAll(w: World, strict: bool, states: seq<State>, events: seq<Event>, p: nat, u: Push)
    requires |states| == |events| + 1 && |events| > 0 && events[0] == Start(u) && u.Uploading?
    requires forall i | 0 <= i < |events| :: Next(w, strict, states[i], states[i + 1], p, events[i])
    requires forall i | 0 < i < |events| :: PushEvent(events[i])
    requires p in states[|events|].pushes
    requires states[|events|].pushes[p] == Replicating(u.ref, u.local, |states[|events|].stores|)
    ensures var s, t := states[0], states[|events|];
            |t.stores| == |s.stores| && forall k | 0 <= k < |t.stores| ::
              t.stores[k].refs == s.stores[k].refs[u.ref := u.local] && u.objects <= t.stores[k].objects
  {
    AlonePush(w, strict, states, events, p, u);
    hide Next;
    var s, t := states[0], states[|events|];
    assert forall k | 0 <= k < |t.stores| :: t.stores[k].refs == RefsAfter(s, u.ref, u.local, |t.stores|, k);
  }

  predicate ThinEvent(ev: Event) {
    ev.ThinSkip? || ev.ThinPick? || ev.ThinWrite? || ev.ThinCas? || ev.MirrorRead? || ev.MirrorCas?
  }

  ghost predicate ThinAt(s: State, t: State, p: nat, u: Push)
    requires u.Thin?
  {
    p in t.pushes && |t.stores| == |s.stores| > 0 &&
    match t.pushes[p]
    case Thin(ref, local, expected, _, _) =>
      ref == u.ref && local == u.local && expected == Lookup(s.stores[0].refs, u.ref) && RefsAre(s, t, u.ref, u.local, 0)
    case ThinWriting(ref, local, expected, _, _, _, _) =>
      ref == u.ref && local == u.local && expected == Lookup(s.stores[0].refs, u.ref) && RefsAre(s, t, u.ref, u.local, 0)
    case Replicating(ref, local, store) =>
      ref == u.ref && local == u.local && 0 < store <= |s.stores| && RefsAre(s, t, u.ref, u.local, store)
    case Swapping(ref, local, store, current) =>
      ref == u.ref && local == u.local && 0 < store < |s.stores| && RefsAre(s, t, u.ref, u.local, store) &&
      current == Lookup(s.stores[store].refs, u.ref)
    case _ => false
  }

  lemma ThinAloneStep(w: World, strict: bool, s: State, t: State, t': State, p: nat, u: Push, ev: Event)
    requires u.Thin? && ThinAt(s, t, p, u) && Next(w, strict, t, t', p, ev) && ThinEvent(ev)
    ensures ThinAt(s, t', p, u)
  {
    if ev.MirrorRead? && Lookup(t.stores[t.pushes[p].store].refs, u.ref) == Some(u.local) {
      var k := t.pushes[p].store;
      assert t.stores[k].refs == RefsAfter(s, u.ref, u.local, k, k);
      assert s.stores[k].refs[u.ref := u.local] == s.stores[k].refs;
    }
  }

  lemma ThinAloneStart(w: World, strict: bool, s: State, t: State, p: nat, u: Push)
    requires Next(w, strict, s, t, p, ThinStart(u))
    ensures ThinAt(s, t, p, u)
  {
  }

  /** The same for a helper push: when it has dealt with every store, the branch of each is at the
      commit (whether the objects are there is `ThinCompleteIff`). */
  lemma {:induction false} ThinAlone(w: World, strict: bool, states: seq<State>, events: seq<Event>, p: nat, u: Push)
    requires |states| == |events| + 1 && |events| > 0 && events[0] == ThinStart(u) && u.Thin?
    requires forall i | 0 <= i < |events| :: Next(w, strict, states[i], states[i + 1], p, events[i])
    requires forall i | 0 < i < |events| :: ThinEvent(events[i])
    ensures ThinAt(states[0], states[|events|], p, u)
  {
    hide Next, ThinAt, ThinEvent;
    var k := |events| - 1;
    if k == 0 {
      ThinAloneStart(w, strict, states[0], states[1], p, u);
    } else {
      ThinAlone(w, strict, states[..k + 1], events[..k], p, u);
      ThinAloneStep(w, strict, states[0], states[k], states[k + 1], p, u, events[k]);
    }
  }

  /** Strictness alone is not enough for the remote helper.  A helper push asks only the primary
      which objects are missing, so after a push that failed between primary and mirror, the retry
      skips the object and then points the mirror's ref at it. */
  lemma ThinRetryDangles() returns (w: World, states: seq<State>, moves: seq<Move>)
    ensures IsRun(w, true, states, moves)
    ensures |states[|moves|].stores| == 2 && "m" in states[|moves|].stores[1].refs
    ensures !Has(w.refs, states[|moves|].stores[1].objects, states[|moves|].stores[1].refs["m"])
  {
    hide Next, Retry, Has, Init;
    w := World(o => {}, o => {});
    Starts(w);
    FirstTry(w);
    StartsAgain(w);
    SecondTry(w);
    MirrorFollows(w);
    states := [Retry(0), Retry(1), Retry(2), Retry(3), Retry(4), Retry(5), Retry(6), Retry(7), Retry(8), Retry(9)];
    moves := [Move(0, ThinStart(Thin("m", 7, None, {7}, {}))), Move(0, ThinPick(7)), Move(0, ThinWrite), Move(0, ThinWriteFails),
              Move(1, ThinStart(Thin("m", 7, None, {7}, {}))), Move(1, ThinSkip(7)), Move(1, ThinCas), Move(1, MirrorRead),
              Move(1, MirrorCas)];
  }

  ghost function Retry(i: nat): State {
    var todo, none, first, second := Thin("m", 7, None, {7}, {}), Store({}, map[]), Store({7}, map[]), Store({7}, map["m" := 7]);
    if i == 0 then State([none, none], map[], map[])
    else if i == 1 then State([none, none], map[0 := todo], map[])
    else if i == 2 then State([none, none], map[0 := ThinWriting("m", 7, None, {7}, {}, 7, 0)], map[])
    else if i == 3 then State([first, none], map[0 := ThinWriting("m", 7, None, {7}, {}, 7, 1)], map[])
    else if i == 4 then State([first, none], map[0 := Over], map[])
    else if i == 5 then State([first, none], map[0 := Over, 1 := todo], map[])
    else if i == 6 then State([first, none], map[0 := Over, 1 := Thin("m", 7, None, {}, {7})], map[])
    else if i == 7 then State([second, none], map[0 := Over, 1 := Replicating("m", 7, 1)], map["m" := {7}])
    else if i == 8 then State([second, none], map[0 := Over, 1 := Swapping("m", 7, 1, None)], map["m" := {7}])
    else State([second, Store({}, map["m" := 7])], map[0 := Over, 1 := Replicating("m", 7, 2)], map["m" := {7}])
  }

  lemma Starts(w: World)
    requires w.refs(7) == {}
    ensures Next(w, true, Retry(0), Retry(1), 0, ThinStart(Thin("m", 7, None, {7}, {})))
    ensures Init(w, Retry(0))
  {
    LeafReaches(w, 7);
  }

  lemma FirstTry(w: World)
    ensures Next(w, true, Retry(1), Retry(2), 0, ThinPick(7))
    ensures Next(w, true, Retry(2), Retry(3), 0, ThinWrite)
    ensures Next(w, true, Retry(3), Retry(4), 0, ThinWriteFails)
  {
    assert {} + {7} == {7};
    assert Retry(2).stores[0 := Store({7}, map[])] == Retry(3).stores;
  }

  lemma StartsAgain(w: World)
    requires w.refs(7) == {}
    ensures Next(w, true, Retry(4), Retry(5), 1, ThinStart(Thin("m", 7, None, {7}, {})))
  {
    LeafReaches(w, 7);
  }

  lemma SecondTry(w: World)
    ensures Next(w, true, Retry(5), Retry(6), 1, ThinSkip(7))
    ensures Next(w, true, Retry(6), Retry(7), 1, ThinCas)
  {
    assert {7} - {7} == {};
    assert Hold(map[], "m", 7) == map["m" := {7}] by { assert {} + {7} == {7}; }
    assert Retry(6).stores[0 := Store({7}, map["m" := 7])] == Retry(7).stores;
  }

  lemma MirrorFollows(w: World)
    ensures Next(w, true, Retry(7), Retry(8), 1, MirrorRead)
    ensures Next(w, true, Retry(8), Retry(9), 1, MirrorCas)
    ensures |Retry(9).stores| == 2 && "m" in Retry(9).stores[1].refs
    ensures !Has(w.refs, Retry(9).stores[1].objects, Retry(9).stores[1].refs["m"])
  {
    ReachesSelf(w.refs, 7);
    assert Retry(8).stores[1 := Store({}, map["m" := 7])] == Retry(9).stores;
  }

  lemma LeafReaches(w: World, o: ObjId)
    requires w.refs(o) == {}
    ensures forall b :: Reaches(w.refs, o, b) ==> b == o
  {
    forall b | Reaches(w.refs, o, b) ensures b == o { ReachesCases(w.refs, o, b); }
  }
}
