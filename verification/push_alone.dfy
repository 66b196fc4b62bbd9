/** Pushes and fetches that nobody disturbs: exactly when they go through, and what they leave. */
module PushAlone {
  import opened Core
  import opened ObjectGraph
  import opened PushProtocol

  /** Steps of one client only. */
  ghost predicate Solo(w: World, states: seq<State>, events: seq<Event>, c: ClientId) {
    |states| == |events| + 1 && forall i | 0 <= i < |events| :: Next(w, states[i], states[i + 1], c, events[i])
  }

  lemma SoloPrefix(w: World, states: seq<State>, events: seq<Event>, c: ClientId, k: nat)
    requires Solo(w, states, events, c) && k <= |events|
    ensures Solo(w, states[..k + 1], events[..k], c)
  {
    hide Next;
  }

  lemma SoloOne(w: World, s: State, t: State, c: ClientId, ev: Event)
    requires Next(w, s, t, c, ev)
    ensures Solo(w, [s, t], [ev], c)
  {
    hide Next;
  }

  lemma SoloJoin(w: World, states: seq<State>, events: seq<Event>, more: seq<State>, evs: seq<Event>, c: ClientId)
    requires Solo(w, states, events, c) && Solo(w, more, evs, c) && states[|events|] == more[0]
    ensures Solo(w, states + more[1..], events + evs, c)
    ensures |states + more[1..]| == |events + evs| + 1 && (states + more[1..])[|events + evs|] == more[|evs|]
  {
    hide Next;
    var all, es := states + more[1..], events + evs;
    forall i | 0 <= i < |es| ensures Next(w, all[i], all[i + 1], c, es[i]) {
      if i >= |events| {
        var k := i - |events|;
        assert all[i] == more[k] && all[i + 1] == more[k + 1] && es[i] == evs[k];
      }
    }
  }

  // ---- Push.run ----

  predicate Ready(s: State, c: ClientId) {
    c in s.clients && s.clients[c].phase.Idle? && s.clients[c].branch in s.clients[c].refs
  }

  function LocalHead(s: State, c: ClientId): ObjId
    requires Ready(s, c)
  {
    s.clients[c].refs[s.clients[c].branch]
  }

  /** Nobody has moved the branch since it was last recorded: the backend has no such ref, or the one
      recorded, or the local commit already. */
  predicate MayPush(s: State, c: ClientId)
    requires Ready(s, c)
  {
    var a := s.clients[c];
    a.branch !in s.backend.refs ||
    (a.branch in a.seen && a.seen[a.branch] == s.backend.refs[a.branch]) ||
    s.backend.refs[a.branch] == LocalHead(s, c)
  }

  predicate PushEvent(ev: Event) {
    ev.PushUploadOne? || ev.PushUploadEnd? || ev.PushCurrentEnd? || ev.PushCas? || ev.PushRecord?
  }

  /** How far an undisturbed push that started in `s` can have come in `t`. */
  ghost predicate PushAt(s: State, t: State, c: ClientId)
    requires Ready(s, c)
  {
    c in t.clients &&
    var a, n, local := s.clients[c], t.clients[c], LocalHead(s, c);
    var was, now, may := s.backend, t.backend, MayPush(s, c);
    n.refs == a.refs && n.objects == a.objects && n.branch == a.branch && n.index == a.index &&
    was.objects <= now.objects <= was.objects + a.objects &&
    match n.phase
    case Current(ref, l) =>
      ref == a.branch && l == local && Lookup(was.refs, ref) == Some(local) && now.refs == was.refs && n.seen == a.seen
    case Checked(ref, l, e) =>
      ref == a.branch && l == local && e == Lookup(was.refs, ref) && may && now.refs == was.refs && n.seen == a.seen
    case Uploaded(ref, l, e) =>
      ref == a.branch && l == local && e == Lookup(was.refs, ref) && may && now.refs == was.refs && n.seen == a.seen &&
      a.objects <= now.objects
    case Updated(ref, l) =>
      ref == a.branch && l == local && may && now.refs == was.refs[ref := local] && n.seen == a.seen &&
      a.objects <= now.objects
    case Idle =>
      if may then now.refs == was.refs[a.branch := local] && n.seen == a.seen[a.branch := local] && a.objects <= now.objects
      else now == was && n == a
    case _ => false
  }

  lemma PushStarts(w: World, s: State, t: State, c: ClientId)
    requires Ready(s, c) && Next(w, s, t, c, PushRead)
    ensures PushAt(s, t, c)
    ensures t.clients[c].phase.Idle? <==> !MayPush(s, c)
  {
  }

  lemma PushGoesOn(w: World, s: State, t: State, t': State, c: ClientId, ev: Event)
    requires Ready(s, c) && PushAt(s, t, c) && Next(w, t, t', c, ev) && PushEvent(ev)
    ensures PushAt(s, t', c)
  {
    var a := s.clients[c];
    if t.clients[c].phase.Current? && ev.PushCurrentEnd? {
      assert s.backend.refs[a.branch := LocalHead(s, c)] == s.backend.refs;
    }
  }

  lemma {:induction false} PushRuns(w: World, states: seq<State>, events: seq<Event>, c: ClientId)
    requires Solo(w, states, events, c) && Ready(states[0], c) && |events| > 0 && events[0] == PushRead
    requires forall i | 0 < i < |events| :: PushEvent(events[i])
    ensures PushAt(states[0], states[|events|], c)
  {
    hide Next, PushAt, PushEvent, MayPush;
    var k := |events| - 1;
    if k == 0 {
      PushStarts(w, states[0], states[1], c);
    } else {
      SoloPrefix(w, states, events, c, k);
      PushRuns(w, states[..k + 1], events[..k], c);
      PushGoesOn(w, states[0], states[k], states[k + 1], c, events[k]);
    }
  }

  /** An undisturbed push that has come to its end has put the local commit on the backend branch, with
      all local objects, and recorded it, if and only if nobody had moved the branch; otherwise it
      has changed nothing. */
  lemma PushAloneIff(w: World, states: seq<State>, events: seq<Event>, c: ClientId)
    requires Solo(w, states, events, c) && Ready(states[0], c) && |events| > 0 && events[0] == PushRead
    requires forall i | 0 < i < |events| :: PushEvent(events[i])
    requires c in states[|events|].clients && states[|events|].clients[c].phase.Idle?
    ensures var s, t := states[0], states[|events|];
            var branch, local := s.clients[c].branch, LocalHead(s, c);
            (MayPush(s, c) <==> Lookup(t.backend.refs, branch) == Some(local)) &&
            (MayPush(s, c) ==>
               t.backend.refs == s.backend.refs[branch := local] && Lookup(t.clients[c].seen, branch) == Some(local) &&
               t.backend.objects == s.backend.objects + s.clients[c].objects) &&
            (!MayPush(s, c) ==> t.backend == s.backend && t.clients[c] == s.clients[c])
  {
    PushRuns(w, states, events, c);
  }

  lemma {:induction false} Uploads(w: World, s: State, c: ClientId, todo: set<ObjId>) returns (states: seq<State>, events: seq<Event>)
    requires c in s.clients && (s.clients[c].phase.Checked? || s.clients[c].phase.Current?) && todo <= s.clients[c].objects
    ensures Solo(w, states, events, c) && states[0] == s && forall i | 0 <= i < |events| :: PushEvent(events[i])
    ensures states[|events|] == s.(backend := s.backend.(objects := s.backend.objects + todo))
    decreases todo
  {
    if todo == {} {
      states, events := [s], [];
      assert s.backend.objects + todo == s.backend.objects;
    } else {
      var o :| o in todo;
      var t := s.(backend := s.backend.(objects := s.backend.objects + {o}));
      assert Next(w, s, t, c, PushUploadOne(o));
      SoloOne(w, s, t, c, PushUploadOne(o));
      hide Next;
      var more, evs := Uploads(w, t, c, todo - {o});
      SoloJoin(w, [s, t], [PushUploadOne(o)], more, evs, c);
      states, events := [s, t] + more[1..], [PushUploadOne(o)] + evs;
      assert s.backend.objects + {o} + (todo - {o}) == s.backend.objects + todo;
    }
  }

  /** And such a push can always be made: it comes to its end. */
  lemma PushAloneEnds(w: World, s: State, c: ClientId) returns (states: seq<State>, events: seq<Event>)
    requires Ready(s, c)
    ensures Solo(w, states, events, c) && states[0] == s && |events| > 0 && events[0] == PushRead
    ensures forall i | 0 < i < |events| :: PushEvent(events[i])
    ensures c in states[|events|].clients && states[|events|].clients[c].phase.Idle?
  {
    var a, b, local := s.clients[c], s.backend, LocalHead(s, c);
    if !MayPush(s, c) {
      assert Next(w, s, s, c, PushRead);
      SoloOne(w, s, s, c, PushRead);
      return [s, s], [PushRead];
    }
    var remote := Lookup(b.refs, a.branch);
    var phase := if remote == Some(local) then Current(a.branch, local) else Checked(a.branch, local, remote);
    var t := s.(clients := s.clients[c := a.(phase := phase)]);
    assert Next(w, s, t, c, PushRead);
    SoloOne(w, s, t, c, PushRead);
    var more, evs := Uploads(w, t, c, a.objects);
    SoloJoin(w, [s, t], [PushRead], more, evs, c);
    states, events := [s, t] + more[1..], [PushRead] + evs;
    var u := states[|events|];
    var tail, tailEvents := Finish(w, u, c);
    SoloJoin(w, states, events, tail, tailEvents, c);
    states, events := states + tail[1..], events + tailEvents;
  }

  lemma Finish(w: World, u: State, c: ClientId) returns (states: seq<State>, events: seq<Event>)
    requires c in u.clients && u.clients[c].objects <= u.backend.objects
    requires u.clients[c].phase.Current? ||
             (u.clients[c].phase.Checked? && u.clients[c].phase.expected == Lookup(u.backend.refs, u.clients[c].phase.ref))
    ensures Solo(w, states, events, c) && states[0] == u && forall i | 0 <= i < |events| :: PushEvent(events[i])
    ensures c in states[|events|].clients && states[|events|].clients[c].phase.Idle?
  {
    var a := u.clients[c];
    if a.phase.Current? {
      var v := u.(clients := u.clients[c := a.(phase := Idle, seen := a.seen[a.phase.ref := a.phase.local])]);
      assert Next(w, u, v, c, PushCurrentEnd);
      hide Next;
      states, events := [u, v], [PushCurrentEnd];
    } else {
      var v, x, y := FinishSteps(w, u, c);
      hide Next;
      states, events := [u, v, x, y], [PushUploadEnd, PushCas, PushRecord];
    }
  }

  lemma FinishSteps(w: World, u: State, c: ClientId) returns (v: State, x: State, y: State)
    requires c in u.clients && u.clients[c].objects <= u.backend.objects && u.clients[c].phase.Checked?
    requires u.clients[c].phase.expected == Lookup(u.backend.refs, u.clients[c].phase.ref)
    ensures Next(w, u, v, c, PushUploadEnd) && Next(w, v, x, c, PushCas) && Next(w, x, y, c, PushRecord)
    ensures c in y.clients && y.clients[c].phase.Idle?
  {
    var a, b := u.clients[c], u.backend;
    var ref, local := a.phase.ref, a.phase.local;
    v := u.(clients := u.clients[c := a.(phase := Uploaded(ref, local, a.phase.expected))]);
    x := State(b.(refs := b.refs[ref := local]), v.clients[c := a.(phase := Updated(ref, local))]);
    y := x.(clients := x.clients[c := a.(phase := Idle, seen := a.seen[ref := local])]);
  }

  // ---- The remote helper ----

  /** A push is allowed when it is forced, the branch is new, or it moves to a descendant. */
  ghost predicate MayHelp(w: World, s: State, dst: RefName, target: ObjId, force: bool) {
    force || dst !in s.backend.refs || Reaches(w.parents, target, s.backend.refs[dst])
  }

  predicate HelperEvent(ev: Event) { ev.HelperExclude? || ev.HelperRevList? || ev.HelperUploadOne? || ev.HelperCas? }

  /** What is left out of the upload is reached from the branch itself or from another branch or tag. */
  ghost predicate OnlyBranches(refs: Refs, dst: RefName, excludes: set<ObjId>) {
    forall e | e in excludes :: exists n :: n in refs && refs[n] == e && (n == dst || !("refs/actions/" <= n))
  }

  ghost predicate HelpAt(w: World, s: State, t: State, c: ClientId, dst: RefName, target: ObjId, force: bool) {
    c in s.clients && c in t.clients &&
    var a, n, was, now := s.clients[c], t.clients[c], s.backend.refs, t.backend.refs;
    n == a.(phase := n.phase) && s.backend.objects <= t.backend.objects &&
    match n.phase
    case HelperListing(d, o, current, f, excludes) =>
      d == dst && o == target && f == force && current == Lookup(was, dst) && now == was &&
      MayHelp(w, s, dst, target, force) && OnlyBranches(was, dst, excludes)
    case HelperUploading(d, o, current, f, excludes, _, _) =>
      d == dst && o == target && f == force && current == Lookup(was, dst) && now == was &&
      MayHelp(w, s, dst, target, force) && OnlyBranches(was, dst, excludes)
    case Idle => now == if MayHelp(w, s, dst, target, force) then was[dst := target] else was
    case _ => false
  }

  lemma HelpStarts(w: World, s: State, t: State, c: ClientId, dst: RefName, target: ObjId, force: bool)
    requires c in s.clients && s.clients[c].phase.Idle? && Next(w, s, t, c, HelperRead(dst, target, force))
    ensures HelpAt(w, s, t, c, dst, target, force)
  {
    hide Reaches;
  }

  lemma HelpGoesOn(w: World, s: State, t: State, t': State, c: ClientId, ev: Event, dst: RefName, target: ObjId, force: bool)
    requires HelpAt(w, s, t, c, dst, target, force) && Next(w, t, t', c, ev) && HelperEvent(ev)
    ensures HelpAt(w, s, t', c, dst, target, force)
  {
    hide Reaches, RevListed;
  }

  /** An undisturbed helper push that has come to its end has moved the branch to the target if and
      only if it was allowed, and touched no other ref. */
  lemma {:induction false} HelperAloneIff(w: World, states: seq<State>, events: seq<Event>, c: ClientId, dst: RefName,
                                          target: ObjId, force: bool)
    requires Solo(w, states, events, c) && |events| > 0 && events[0] == HelperRead(dst, target, force)
    requires c in states[0].clients && states[0].clients[c].phase.Idle?
    requires forall i | 0 < i < |events| :: HelperEvent(events[i])
    ensures HelpAt(w, states[0], states[|events|], c, dst, target, force)
    ensures var t := states[|events|];
            t.clients[c].phase.Idle? ==>
              t.backend.refs == if MayHelp(w, states[0], dst, target, force)
                                then states[0].backend.refs[dst := target] else states[0].backend.refs
  {
    hide Next, HelperEvent, MayHelp;
    var k := |events| - 1;
    if k == 0 {
      HelpStarts(w, states[0], states[1], c, dst, target, force);
    } else {
      SoloPrefix(w, states, events, c, k);
      HelperAloneIff(w, states[..k + 1], events[..k], c, dst, target, force);
      HelpGoesOn(w, states[0], states[k], states[k + 1], c, events[k], dst, target, force);
    }
  }

  // ---- Fetch.run ----

  ghost predicate FetchAt(s: State, t: State, c: ClientId) {
    c in s.clients && c in t.clients && t.backend == s.backend &&
    var a, n, refs := s.clients[c], t.clients[c], s.backend.refs;
    var left: Refs := if n.phase.Fetching? then n.phase.listed else map[];
    (n.phase.Fetching? || n.phase.Idle?) && n.branch == a.branch && n.index == a.index && a.objects <= n.objects &&
    (forall r | r in left :: r in refs && left[r] == refs[r]) &&
    (forall r | r in refs && r !in left :: Lookup(n.refs, r) == Some(refs[r]) && Lookup(n.seen, r) == Some(refs[r])) &&
    (forall r | r !in refs :: Lookup(n.refs, r) == Lookup(a.refs, r) && Lookup(n.seen, r) == Lookup(a.seen, r))
  }

  lemma FetchGoesOn(w: World, s: State, t: State, t': State, c: ClientId, ev: Event)
    requires FetchAt(s, t, c) && Next(w, t, t', c, ev) && (ev.FetchRef? || ev.FetchEnd?)
    ensures FetchAt(s, t', c)
  {
    hide Closed;
  }

  /** After an undisturbed fetch every backend ref is the local one and the recorded one, and nothing
      else has changed. */
  lemma {:induction false} FetchAloneGets(w: World, states: seq<State>, events: seq<Event>, c: ClientId)
    requires Solo(w, states, events, c) && |events| > 0 && events[0] == FetchList
    requires forall i | 0 < i < |events| :: events[i].FetchRef? || events[i].FetchEnd?
    ensures FetchAt(states[0], states[|events|], c)
  {
    hide FetchAt;
    var k := |events| - 1;
    if k == 0 {
      FetchStarts(w, states[0], states[1], c);
    } else {
      hide Next;
      SoloPrefix(w, states, events, c, k);
      FetchAloneGets(w, states[..k + 1], events[..k], c);
      FetchGoesOn(w, states[0], states[k], states[k + 1], c, events[k]);
    }
  }

  lemma FetchStarts(w: World, s: State, t: State, c: ClientId)
    requires Next(w, s, t, c, FetchList)
    ensures FetchAt(s, t, c)
  {
  }

  /** Fetch, commit, push: if nobody comes between, the new commit gets through. */
  lemma FetchCommitMayPush(w: World, s: State, t: State, u: State, c: ClientId, made: set<ObjId>, commit: ObjId)
    requires FetchAt(s, t, c) && t.clients[c].phase.Idle? && Next(w, t, u, c, Commit(made, commit))
    ensures Ready(u, c) && LocalHead(u, c) == commit && MayPush(u, c)
    ensures w.parents(commit) == (if t.clients[c].branch in t.clients[c].refs then {t.clients[c].refs[t.clients[c].branch]} else {})
  {
  }
}
