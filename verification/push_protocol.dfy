/** Any number of clients pushing to and fetching from one store of objects and CAS refs.

    `Push.run`, `Fetch.run` and the remote helper's `_push_one` are broken into the requests they
    make; steps of different clients interleave freely, and a client may fail at any point. */
module PushProtocol {
  import opened Core
  import opened ObjectGraph

  type RefName = string
  type ClientId = nat
  type Refs = map<RefName, ObjId>

  datatype Backend = Backend(objects: set<ObjId>, refs: Refs)

  /** Where a client stands.  `Checked`..`Updated` follow `Push.run`; the `Helper*` phases follow
      `_push_one`; in `Fetching` some listed refs are still to be downloaded. */
  datatype Phase =
    | Idle
    | Fetching(listed: Refs)
    | Current(ref: RefName, local: ObjId)
    | Checked(ref: RefName, local: ObjId, expected: Option<ObjId>)
    | Uploaded(ref: RefName, local: ObjId, expected: Option<ObjId>)
    | Updated(ref: RefName, local: ObjId)
    | HelperListing(dst: RefName, target: ObjId, current: Option<ObjId>, force: bool, excludes: set<ObjId>)
    | HelperUploading(dst: RefName, target: ObjId, current: Option<ObjId>, force: bool, excludes: set<ObjId>,
                      revs: set<ObjId>, todo: set<ObjId>)
    | HelperBeaten(dst: RefName, target: ObjId)
    | HelperRetry(dst: RefName, target: ObjId, now: Option<ObjId>)

  /** `refs` are the local branches, `seen` the recorded backend refs, `index` the ids of the blobs in
      the index. */
  datatype Client = Client(objects: set<ObjId>, refs: Refs, seen: Refs, branch: RefName, index: set<ObjId>, phase: Phase)

  datatype State = State(backend: Backend, clients: map<ClientId, Client>)

  function Lookup(refs: Refs, name: RefName): Option<ObjId> {
    if name in refs then Some(refs[name]) else None
  }

  /** Refs under `refs/actions/` point at single blobs and are not branches. */
  predicate IsActionRef(name: RefName) { "refs/actions/" <= name }

  lemma BranchesAndActions(n: string)
    ensures !IsActionRef("refs/heads/" + n) && !IsActionRef("refs/tags/" + n) && IsActionRef("refs/actions/" + n)
  {
    var b, t, a := "refs/heads/" + n, "refs/tags/" + n, "refs/actions/" + n;
    assert b[5] == 'h' && t[5] == 't' && "refs/actions/"[5] == 'a';
    assert a[..13] == "refs/actions/";
  }

  // ---- Steps ----

  /** Everything except the acting client and the backend stays as it is. */
  ghost predicate Acts(s: State, s': State, c: ClientId, before: Client, after: Client) {
    c in s.clients && s.clients[c] == before && s'.clients == s.clients[c := after]
  }

  datatype Event =
    | Stage(o: ObjId)
    | Unstage(rows: set<ObjId>)
    | ResetIndex(commit: ObjId, rows: set<ObjId>)
    | Commit(made: set<ObjId>, commit: ObjId)
    | Branch(name: RefName, start: ObjId)
    | Checkout(name: RefName)
    | FetchList
    | FetchRef(name: RefName, got: set<ObjId>)
    | FetchEnd
    | PushRead
    | PushUploadOne(o: ObjId)
    | PushUploadEnd
    | PushCurrentEnd
    | PushCas
    | PushRecord
    | HelperRead(dst: RefName, target: ObjId, force: bool)
    | HelperExclude(name: RefName)
    | HelperRevList(listed: set<ObjId>)
    | HelperUploadOne(o: ObjId)
    | HelperCas
    | HelperReadAgain
    | HelperCasAgain
    | DeleteRef(name: RefName)
    | WriteBlob(o: ObjId)
    | SetActionRef(name: RefName, o: ObjId)
    | Fail

  /** `create_commit`: trees over index blobs and each other, and a commit with the old branch head as
      its parent.  Nothing is checked about what is in the store. */
  ghost predicate CommitStep(w: World, a: Client, a': Client, made: set<ObjId>, commit: ObjId) {
    var head := if a.branch in a.refs then {a.refs[a.branch]} else {};
    a.phase.Idle? && commit in made && w.parents(commit) == head &&
    (forall o | o in made :: w.refs(o) <= made + a.index + head) &&
    a' == a.(objects := a.objects + made, refs := a.refs[a.branch := commit])
  }

  /** A completed `_download_closure` followed by `set_ref` and `set_backend_ref`. */
  ghost predicate FetchRefStep(w: World, b: Backend, a: Client, a': Client, name: RefName, got: set<ObjId>) {
    a.phase.Fetching? && name in a.phase.listed &&
    a.objects <= got <= a.objects + b.objects && a.phase.listed[name] in got && Closed(w.refs, got) &&
    a' == a.(objects := got, refs := a.refs[name := a.phase.listed[name]],
             seen := a.seen[name := a.phase.listed[name]],
             phase := Fetching(a.phase.listed - {name}))
  }

  /** The remote check of `Push.run`; false is a raised `RefConflict`. */
  ghost predicate PushReadStep(b: Backend, a: Client, a': Client) {
    a.phase.Idle? && a.branch in a.refs &&
    var local, remote, expected := a.refs[a.branch], Lookup(b.refs, a.branch), Lookup(a.seen, a.branch);
    if remote == Some(local) then a' == a.(phase := Current(a.branch, local))
    else if remote.Some? && remote != expected then a' == a
    else a' == a.(phase := Checked(a.branch, local, remote))
  }

  /** What `git rev-list --objects target ^excludes` must list at least. */
  ghost predicate RevListed(w: World, listed: set<ObjId>, target: ObjId, excludes: set<ObjId>) {
    forall b :: Reaches(w.refs, target, b) ==> b in listed || exists e :: e in excludes && Reaches(w.refs, e, b)
  }

  ghost predicate Next(w: World, s: State, s': State, c: ClientId, ev: Event) {
    c in s.clients &&
    var a, b := s.clients[c], s.backend;
    match ev
    case Commit(made, commit) =>
      s'.backend == b && c in s'.clients && Acts(s, s', c, a, s'.clients[c]) &&
      CommitStep(w, a, s'.clients[c], made, commit)
    case Stage(o) =>
      s'.backend == b && a.phase.Idle? && w.refs(o) == {} &&
      Acts(s, s', c, a, a.(objects := a.objects + {o}, index := a.index + {o}))
    case Unstage(rows) => s'.backend == b && a.phase.Idle? && rows <= a.index && Acts(s, s', c, a, a.(index := rows))
    case ResetIndex(commit, rows) =>
      s'.backend == b && a.phase.Idle? && commit in a.objects && (forall o | o in rows :: Reaches(w.refs, commit, o)) &&
      Acts(s, s', c, a, a.(index := rows))
    case Branch(name, start) =>
      s'.backend == b && a.phase.Idle? && name !in a.refs && start in a.objects &&
      Acts(s, s', c, a, a.(refs := a.refs[name := start]))
    case Checkout(name) =>
      s'.backend == b && a.phase.Idle? && Acts(s, s', c, a, a.(branch := name))
    case FetchList =>
      s'.backend == b && a.phase.Idle? && Acts(s, s', c, a, a.(phase := Fetching(b.refs)))
    case FetchRef(name, got) =>
      s'.backend == b && c in s'.clients && Acts(s, s', c, a, s'.clients[c]) &&
      FetchRefStep(w, b, a, s'.clients[c], name, got)
    case FetchEnd =>
      s'.backend == b && a.phase.Fetching? && a.phase.listed == map[] && Acts(s, s', c, a, a.(phase := Idle))
    case PushRead =>
      s'.backend == b && c in s'.clients && Acts(s, s', c, a, s'.clients[c]) && PushReadStep(b, a, s'.clients[c])
    case PushUploadOne(o) =>
      (a.phase.Checked? || a.phase.Current?) && o in a.objects && s'.clients == s.clients &&
      s'.backend == b.(objects := b.objects + {o})
    case PushUploadEnd =>
      s'.backend == b && a.phase.Checked? && a.objects <= b.objects &&
      Acts(s, s', c, a, a.(phase := Uploaded(a.phase.ref, a.phase.local, a.phase.expected)))
    case PushCurrentEnd =>
      s'.backend == b && a.phase.Current? && a.objects <= b.objects &&
      Acts(s, s', c, a, a.(phase := Idle, seen := a.seen[a.phase.ref := a.phase.local]))
    case PushCas =>
      a.phase.Uploaded? &&
      if Lookup(b.refs, a.phase.ref) == a.phase.expected
      then s'.backend == b.(refs := b.refs[a.phase.ref := a.phase.local]) &&
           Acts(s, s', c, a, a.(phase := Updated(a.phase.ref, a.phase.local)))
      else s'.backend == b && Acts(s, s', c, a, a.(phase := Idle))
    case PushRecord =>
      s'.backend == b && a.phase.Updated? &&
      Acts(s, s', c, a, a.(phase := Idle, seen := a.seen[a.phase.ref := a.phase.local]))
    case HelperRead(dst, target, force) =>
      s'.backend == b && a.phase.Idle? &&
      Acts(s, s', c, a, if !force && dst in b.refs && !Reaches(w.parents, target, b.refs[dst]) then a
                        else a.(phase := HelperListing(dst, target, Lookup(b.refs, dst), force,
                                                       if dst in b.refs then {b.refs[dst]} else {})))
    case HelperExclude(name) =>
      s'.backend == b && a.phase.HelperListing? && name in b.refs && !IsActionRef(name) &&
      Acts(s, s', c, a, a.(phase := HelperListing(a.phase.dst, a.phase.target, a.phase.current, a.phase.force,
                                                  a.phase.excludes + {b.refs[name]})))
    case HelperRevList(listed) =>
      s'.backend == b && a.phase.HelperListing? && RevListed(w, listed, a.phase.target, a.phase.excludes) &&
      Acts(s, s', c, a, a.(phase := HelperUploading(a.phase.dst, a.phase.target, a.phase.current, a.phase.force,
                                                    a.phase.excludes, listed, listed)))
    case HelperUploadOne(o) =>
      a.phase.HelperUploading? && o in a.phase.todo && (o in b.objects || o in a.objects) &&
      s'.backend == b.(objects := b.objects + {o}) &&
      Acts(s, s', c, a, a.(phase := HelperUploading(a.phase.dst, a.phase.target, a.phase.current, a.phase.force,
                                                    a.phase.excludes, a.phase.revs, a.phase.todo - {o})))
    case HelperCas =>
      a.phase.HelperUploading? && a.phase.todo == {} &&
      if Lookup(b.refs, a.phase.dst) == a.phase.current
      then s'.backend == b.(refs := b.refs[a.phase.dst := a.phase.target]) && Acts(s, s', c, a, a.(phase := Idle))
      else s'.backend == b &&
           Acts(s, s', c, a, a.(phase := if a.phase.force
                                         then HelperBeaten(a.phase.dst, a.phase.target)
                                         else Idle))
    case HelperReadAgain =>
      s'.backend == b && a.phase.HelperBeaten? &&
      Acts(s, s', c, a, a.(phase := HelperRetry(a.phase.dst, a.phase.target, Lookup(b.refs, a.phase.dst))))
    case HelperCasAgain =>
      a.phase.HelperRetry? &&
      s'.backend == (if Lookup(b.refs, a.phase.dst) == a.phase.now
                     then b.(refs := b.refs[a.phase.dst := a.phase.target]) else b) &&
      Acts(s, s', c, a, a.(phase := Idle))
    case DeleteRef(name) =>
      s' == s.(backend := b.(refs := b.refs - {name}))
    case WriteBlob(o) =>
      w.refs(o) == {} && s' == s.(backend := b.(objects := b.objects + {o}))
    case SetActionRef(name, o) =>
      IsActionRef(name) && w.refs(o) == {} && o in b.objects && s' == s.(backend := b.(refs := b.refs[name := o]))
    case Fail =>
      s'.backend == b && Acts(s, s', c, a, a.(phase := Idle))
  }

  // ---- Invariant ----

  /** No backend ref dangles: its full closure is stored. */
  ghost predicate RefsClosed(w: World, b: Backend) {
    forall n | n in b.refs :: Has(w.refs, b.objects, b.refs[n])
  }

  /** The recorded backend ref is an ancestor of the local branch. */
  ghost predicate RecordsBehind(w: World, a: Client) {
    forall n | n in a.seen :: n in a.refs && Reaches(w.parents, a.refs[n], a.seen[n])
  }

  ghost predicate LocalOk(w: World, a: Client) {
    Closed(w.refs, a.objects) && (forall n | n in a.refs :: a.refs[n] in a.objects) && a.index <= a.objects &&
    RecordsBehind(w, a)
  }

  ghost predicate PhaseOk(w: World, b: Backend, a: Client) {
    match a.phase
    case Idle => true
    case Fetching(listed) => forall n | n in listed :: Has(w.refs, b.objects, listed[n])
    case Current(ref, local) => ref in a.refs && a.refs[ref] == local
    case Checked(ref, local, expected) =>
      ref in a.refs && a.refs[ref] == local && (expected.Some? ==> Reaches(w.parents, local, expected.value))
    case Uploaded(ref, local, expected) =>
      ref in a.refs && a.refs[ref] == local && (expected.Some? ==> Reaches(w.parents, local, expected.value)) &&
      Has(w.refs, b.objects, local)
    case Updated(ref, local) => ref in a.refs && a.refs[ref] == local
    case HelperListing(_, target, current, force, excludes) =>
      (forall e | e in excludes :: Has(w.refs, b.objects, e)) &&
      (!force && current.Some? ==> Reaches(w.parents, target, current.value))
    case HelperUploading(_, target, current, force, excludes, listed, todo) =>
      (forall e | e in excludes :: Has(w.refs, b.objects, e)) &&
      (!force && current.Some? ==> Reaches(w.parents, target, current.value)) &&
      RevListed(w, listed, target, excludes) && todo <= listed && listed - todo <= b.objects
    case HelperBeaten(_, target) => Has(w.refs, b.objects, target)
    case HelperRetry(_, target, _) => Has(w.refs, b.objects, target)
  }

  ghost predicate Inv(w: World, s: State) {
    RefsClosed(w, s.backend) &&
    forall c | c in s.clients :: LocalOk(w, s.clients[c]) && PhaseOk(w, s.backend, s.clients[c])
  }

  ghost predicate Init(w: World, s: State) {
    RefsClosed(w, s.backend) && forall c | c in s.clients :: LocalOk(w, s.clients[c]) && s.clients[c].phase == Idle
  }

  // ---- Preservation ----

  /** Other clients are not disturbed by a backend that only gains objects. */
  lemma PhaseStable(w: World, b: Backend, b': Backend, a: Client)
    requires PhaseOk(w, b, a) && b.objects <= b'.objects
    ensures PhaseOk(w, b', a)
  {
  }

  lemma OthersKept(w: World, s: State, s': State, c: ClientId, ev: Event)
    requires Next(w, s, s', c, ev)
    ensures forall d | d in s'.clients && d != c :: d in s.clients && s'.clients[d] == s.clients[d]
  {
    hide CommitStep, FetchRefStep, PushReadStep, RevListed, Reaches;
  }

  /** Events that change more of a client than its phase. */
  predicate LocalWork(ev: Event) {
    ev.Stage? || ev.Unstage? || ev.ResetIndex? || ev.Commit? || ev.Branch? || ev.Checkout? || ev.FetchRef? ||
    ev.PushCurrentEnd? || ev.PushRecord?
  }

  lemma PhaseOnly(w: World, s: State, s': State, c: ClientId, ev: Event)
    requires Next(w, s, s', c, ev) && !LocalWork(ev)
    ensures c in s'.clients && s'.clients[c] == s.clients[c].(phase := s'.clients[c].phase)
  {
    hide Reaches, RevListed, FetchRefStep, CommitStep;
  }

  lemma LocalStep(w: World, s: State, s': State, c: ClientId, ev: Event)
    requires Next(w, s, s', c, ev) && LocalOk(w, s.clients[c]) && PhaseOk(w, s.backend, s.clients[c])
    ensures c in s'.clients && LocalOk(w, s'.clients[c])
  {
    if LocalWork(ev) {
      WorkStep(w, s, s', c, ev);
    } else {
      PhaseOnly(w, s, s', c, ev);
      hide Next, Closed, Reaches, LocalWork;
    }
  }

  lemma WorkStep(w: World, s: State, s': State, c: ClientId, ev: Event)
    requires Next(w, s, s', c, ev) && LocalOk(w, s.clients[c]) && PhaseOk(w, s.backend, s.clients[c]) && LocalWork(ev)
    ensures c in s'.clients && LocalOk(w, s'.clients[c])
  {
    hide Closed, Reaches, RevListed, FetchRefStep, CommitStep;
    var a := s.clients[c];
    match ev {
      case Stage(o) => StageKeepsLocal(w, a, o);
      case Commit(made, commit) => CommitKeepsLocal(w, a, s'.clients[c], made, commit);
      case ResetIndex(commit, rows) => ClosedHas(w.refs, a.objects, commit);
      case FetchRef(name, got) => FetchKeepsLocal(w, s.backend, a, s'.clients[c], name, got);
      case PushCurrentEnd => ReachesSelf(w.parents, a.phase.local);
      case PushRecord => ReachesSelf(w.parents, a.phase.local);
      case _ =>
    }
  }

  lemma StageKeepsLocal(w: World, a: Client, o: ObjId)
    requires LocalOk(w, a) && w.refs(o) == {}
    ensures LocalOk(w, a.(objects := a.objects + {o}, index := a.index + {o}))
  {
  }

  lemma FetchKeepsLocal(w: World, b: Backend, a: Client, a': Client, name: RefName, got: set<ObjId>)
    requires LocalOk(w, a) && PhaseOk(w, b, a) && FetchRefStep(w, b, a, a', name, got)
    ensures LocalOk(w, a')
  {
    ReachesSelf(w.parents, a.phase.listed[name]);
  }

  lemma CommitKeepsLocal(w: World, a: Client, a': Client, made: set<ObjId>, commit: ObjId)
    requires LocalOk(w, a) && CommitStep(w, a, a', made, commit)
    ensures LocalOk(w, a')
  {
    if a.branch in a.seen {
      ReachesEdge(w.parents, commit, a.refs[a.branch], a.seen[a.branch]);
    }
  }

  /** After the thin upload, what was listed and what the excluded refs hold make a full closure. */
  lemma ThinUploadSuffices(w: World, b: Backend, listed: set<ObjId>, target: ObjId, excludes: set<ObjId>)
    requires RevListed(w, listed, target, excludes) && listed <= b.objects
    requires forall e | e in excludes :: Has(w.refs, b.objects, e)
    ensures Has(w.refs, b.objects, target)
  {
  }

  lemma ActorPhase(w: World, s: State, s': State, c: ClientId, ev: Event)
    requires Inv(w, s) && Next(w, s, s', c, ev)
    ensures c in s'.clients && PhaseOk(w, s'.backend, s'.clients[c])
  {
    var a, b := s.clients[c], s.backend;
    match ev {
      case PushUploadOne(o) => PhaseStable(w, b, s'.backend, a);
      case PushUploadEnd =>
        ClosedHas(w.refs, a.objects, a.phase.local);
      case HelperCas =>
        ThinUploadSuffices(w, b, a.phase.revs, a.phase.target, a.phase.excludes);
      case WriteBlob(o) => PhaseStable(w, b, s'.backend, a);
      case DeleteRef(_) => PhaseStable(w, b, s'.backend, a);
      case SetActionRef(_, _) => PhaseStable(w, b, s'.backend, a);
      case HelperUploadOne(o) =>
        PhaseStable(w, b, s'.backend, a);
      case _ =>
    }
  }

  lemma BackendStep(w: World, s: State, s': State, c: ClientId, ev: Event)
    requires Inv(w, s) && Next(w, s, s', c, ev)
    ensures s.backend.objects <= s'.backend.objects && RefsClosed(w, s'.backend)
  {
    var a, b := s.clients[c], s.backend;
    match ev {
      case HelperCas =>
        ThinUploadSuffices(w, b, a.phase.revs, a.phase.target, a.phase.excludes);
      case SetActionRef(name, o) =>
        HasStep(w.refs, b.objects, o);
      case _ =>
    }
  }

  lemma InvStep(w: World, s: State, s': State, c: ClientId, ev: Event)
    requires Inv(w, s) && Next(w, s, s', c, ev)
    ensures Inv(w, s')
  {
    assert c in s.clients;
    hide Next, LocalOk, PhaseOk, RefsClosed;
    BackendStep(w, s, s', c, ev);
    LocalStep(w, s, s', c, ev);
    ActorPhase(w, s, s', c, ev);
    OthersKept(w, s, s', c, ev);
    forall d | d in s'.clients ensures LocalOk(w, s'.clients[d]) && PhaseOk(w, s'.backend, s'.clients[d]) {
      if d != c {
        PhaseStable(w, s.backend, s'.backend, s.clients[d]);
      }
    }
  }

  // ---- Whole runs ----

  datatype Move = Move(client: ClientId, event: Event)

  ghost predicate IsRun(w: World, states: seq<State>, moves: seq<Move>) {
    |states| == |moves| + 1 && Init(w, states[0]) &&
    forall i | 0 <= i < |moves| :: Next(w, states[i], states[i + 1], moves[i].client, moves[i].event)
  }

  /** In every state of every run, whatever pushes, forced pushes, deletions and failures happened,
      no ref dangles. */
  lemma {:induction false} RunSafe(w: World, states: seq<State>, moves: seq<Move>, i: nat)
    requires IsRun(w, states, moves) && i < |states|
    ensures Inv(w, states[i])
    ensures forall n | n in states[i].backend.refs :: Has(w.refs, states[i].backend.objects, states[i].backend.refs[n])
  {
    if i > 0 {
      RunSafe(w, states, moves, i - 1);
      InvStep(w, states[i - 1], states[i], moves[i - 1].client, moves[i - 1].event);
    }
  }

  /** The moves that may legitimately rewind branch `n`. */
  ghost predicate Rewinds(s: State, m: Move, n: RefName) {
    m.event == DeleteRef(n) ||
    (m.client in s.clients &&
     var ph := s.clients[m.client].phase;
     (m.event.HelperCasAgain? && ph.HelperRetry? && ph.dst == n) ||
     (m.event.HelperCas? && ph.HelperUploading? && ph.dst == n && ph.force))
  }

  ghost predicate Forward(w: World, b: Backend, b': Backend, n: RefName) {
    n in b.refs ==> n in b'.refs && Reaches(w.parents, b'.refs[n], b.refs[n])
  }

  lemma ForwardStep(w: World, s: State, s': State, m: Move, n: RefName)
    requires Inv(w, s) && Next(w, s, s', m.client, m.event) && !Rewinds(s, m, n) && !IsActionRef(n)
    ensures Forward(w, s.backend, s'.backend, n)
  {
    if n in s.backend.refs { ReachesSelf(w.parents, s.backend.refs[n]); }
  }

  /** While it is not itself force-pushed or deleted, a branch only ever moves to descendants,
      whatever happens to other branches. */
  lemma {:induction false} RunForward(w: World, states: seq<State>, moves: seq<Move>, i: nat, j: nat, n: RefName)
    requires IsRun(w, states, moves) && i <= j < |states| && !IsActionRef(n)
    requires forall k | i <= k < j :: !Rewinds(states[k], moves[k], n)
    ensures Forward(w, states[i].backend, states[j].backend, n)
    decreases j - i
  {
    hide Next, Inv, Reaches, Rewinds;
    if n in states[i].backend.refs {
      if i == j {
        ReachesSelf(w.parents, states[i].backend.refs[n]);
      } else {
        RunForward(w, states, moves, i, j - 1, n);
        RunSafe(w, states, moves, j - 1);
        ForwardStep(w, states[j - 1], states[j], moves[j - 1], n);
        ReachesTrans(w.parents, states[j].backend.refs[n], states[j - 1].backend.refs[n], states[i].backend.refs[n]);
      }
    }
  }

  /** A push of either kind whose compare-and-swap succeeds at this move. */
  ghost predicate Wins(s: State, m: Move, ref: RefName, pushed: ObjId) {
    m.client in s.clients &&
    var ph, now := s.clients[m.client].phase, Lookup(s.backend.refs, ref);
    (m.event.PushCas? && ph.Uploaded? && ph.ref == ref && ph.local == pushed && now == ph.expected) ||
    (m.event.HelperCas? && ph.HelperUploading? && ph.dst == ref && ph.target == pushed && now == ph.current) ||
    (m.event.HelperCasAgain? && ph.HelperRetry? && ph.dst == ref && ph.target == pushed && now == ph.now)
  }

  lemma WonIsThere(w: World, s: State, s': State, m: Move, ref: RefName, pushed: ObjId)
    requires Next(w, s, s', m.client, m.event) && Wins(s, m, ref, pushed)
    ensures Lookup(s'.backend.refs, ref) == Some(pushed)
  {
    hide Reaches, RevListed;
  }

  /** Two writers cannot clobber each other: once a push has won its compare-and-swap, every later
      value of the branch has the pushed commit in its history, and the commit stays fully stored. */
  lemma PushNeverLost(w: World, states: seq<State>, moves: seq<Move>, i: nat, j: nat, ref: RefName, pushed: ObjId)
    requires IsRun(w, states, moves) && i < j < |states|
    requires Wins(states[i], moves[i], ref, pushed)
    requires !IsActionRef(ref) && forall k | i < k < j :: !Rewinds(states[k], moves[k], ref)
    ensures ref in states[j].backend.refs && Reaches(w.parents, states[j].backend.refs[ref], pushed)
    ensures Has(w.refs, states[j].backend.objects, pushed)
  {
    hide Next, Inv, Reaches, Rewinds, Wins, Has;
    WonIsThere(w, states[i], states[i + 1], moves[i], ref, pushed);
    RunForward(w, states, moves, i + 1, j, ref);
    RunSafe(w, states, moves, i + 1);
    ObjectsOnlyGrow(w, states, moves, i + 1, j);
    HasMore(w.refs, states[i + 1].backend.objects, states[j].backend.objects, pushed);
  }

  lemma {:induction false} ObjectsOnlyGrow(w: World, states: seq<State>, moves: seq<Move>, i: nat, j: nat)
    requires IsRun(w, states, moves) && i <= j < |states|
    ensures states[i].backend.objects <= states[j].backend.objects
    decreases j - i
  {
    if i < j {
      ObjectsOnlyGrow(w, states, moves, i, j - 1);
      RunSafe(w, states, moves, j - 1);
      BackendStep(w, states[j - 1], states[j], moves[j - 1].client, moves[j - 1].event);
    }
  }
}
