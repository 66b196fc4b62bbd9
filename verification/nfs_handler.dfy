/** The NFS write-back handler: dirty buffers, generation counters, stage timers, background
    staging futures, size and namespace caches over the repository's index. */
module Nfs {
  import opened Core
  import opened Paths
  import opened Ordering
  import opened NfsSpec

  const STAGE_MIN_BYTES := 64 * 1024 * 1024

  datatype FutureStatus = Running | Done | Failed

  /** A background `stage_blob` job: it hashes the snapshot taken when it was started. */
  datatype Future = Future(generation: nat, snapshot: Bytes, status: FutureStatus)

  // ---- The invariant, part by part ----

  function View(index: map<Path, Oid>, buffers: map<Path, Bytes>): (c: Files)
    ensures c.Keys == index.Keys
  {
    map p | p in index :: if p in buffers then buffers[p] else index[p].content
  }

  ghost predicate BuffersOk(files: set<Path>, buffers: map<Path, Bytes>, dirty: set<Path>,
                            generations: map<Path, nat>)
  {
    (forall p :: p in buffers <==> p in dirty) &&
    (forall p :: p in generations <==> p in dirty) &&
    (forall p | p in dirty :: p in files)
  }

  /** The generation fence: a future of the current generation holds the current buffer. */
  ghost predicate FenceOk(buffers: map<Path, Bytes>, generations: map<Path, nat>,
                          futures: map<Path, Future>, started: map<Path, nat>, timers: set<Path>,
                          objects: set<Oid>)
  {
    (forall p :: p in futures <==> p in started) &&
    (forall p | p in timers :: p in buffers) &&
    (forall p | p in futures ::
      p in buffers && p in generations &&
      futures[p].generation == started[p] <= generations[p] &&
      (started[p] == generations[p] ==> futures[p].snapshot == buffers[p]) &&
      (futures[p].status == Done ==> Oid(futures[p].snapshot) in objects))
  }

  ghost predicate BlobsOk(index: map<Path, Oid>, objects: set<Oid>) {
    forall p | p in index :: index[p] in objects
  }

  ghost predicate NamespaceCachesOk(files: set<Path>, entries: Option<seq<Path>>, cached: Option<set<Path>>,
                                    dirs: Option<set<Path>>, children: Option<map<Path, set<Name>>>)
  {
    (entries.Some? ==> Lists(entries.value, files)) &&
    (cached.Some? ==> cached.value == files) &&
    (dirs.Some? ==> dirs.value == Dirs(files)) &&
    (children.Some? ==> children.value == ChildrenMap(files))
  }

  predicate AwaitedIn(dirty: set<Path>, futures: map<Path, Future>, started: map<Path, nat>, generations: map<Path, nat>,
                      path: Path)
  {
    path in dirty && path in futures && futures[path].status == Running &&
    path in started && path in generations && started[path] == generations[path]
  }

  predicate StopsIn(files: set<Path>, dirty: set<Path>, futures: map<Path, Future>, started: map<Path, nat>,
                    generations: map<Path, nat>, source: Path, dest: Path, failing: set<Path>, bad: Path)
  {
    Trackable(dest) && bad in Under(files, source) && bad in failing && AwaitedIn(dirty, futures, started, generations, bad) &&
    forall p | p in Earlier(Under(files, source), bad) ::
      !(p in failing && AwaitedIn(dirty, futures, started, generations, p))
  }

  /** If the move of a directory stops, the caches are right all the same. */
  predicate StaysRightIn(c: Files, dirty: set<Path>, futures: map<Path, Future>, started: map<Path, nat>,
                         generations: map<Path, nat>, sizes: map<Path, nat>, head: Files, source: Path, dest: Path,
                         failing: set<Path>)
  {
    forall bad | bad in c && StopsIn(c.Keys, dirty, futures, started, generations, source, dest, failing, bad) ::
      MoveKeepsCaches(c, sizes, dirty, head, Earlier(Under(c.Keys, source), bad), source, dest)
  }

  lemma StopsOnce(files: set<Path>, dirty: set<Path>, futures: map<Path, Future>, started: map<Path, nat>,
                  generations: map<Path, nat>, source: Path, dest: Path, failing: set<Path>, a: Path, b: Path)
    requires GoodFiles(files)
    requires StopsIn(files, dirty, futures, started, generations, source, dest, failing, a)
    requires StopsIn(files, dirty, futures, started, generations, source, dest, failing, b)
    ensures a == b && a in failing && a in files
  {
    hide GoodFiles, LexLeq, Join, Trackable, AwaitedIn;
    LexTotal(Join(a), Join(b));
    SplitsBack(files, a);
    SplitsBack(files, b);
    assert a !in Earlier(Under(files, source), b) && b !in Earlier(Under(files, source), a);
  }

  lemma StaysRightNone(c: Files, dirty: set<Path>, futures: map<Path, Future>, started: map<Path, nat>,
                       generations: map<Path, nat>, sizes: map<Path, nat>, head: Files, source: Path, dest: Path,
                       failing: set<Path>)
    requires forall p :: !StopsIn(c.Keys, dirty, futures, started, generations, source, dest, failing, p)
    ensures StaysRightIn(c, dirty, futures, started, generations, sizes, head, source, dest, failing)
  {
    hide StopsIn;
  }

  lemma StaysRightIff(c: Files, dirty: set<Path>, futures: map<Path, Future>, started: map<Path, nat>,
                      generations: map<Path, nat>, sizes: map<Path, nat>, head: Files, source: Path, dest: Path,
                      failing: set<Path>, bad: Path)
    requires GoodFiles(c.Keys) && StopsIn(c.Keys, dirty, futures, started, generations, source, dest, failing, bad)
    ensures StaysRightIn(c, dirty, futures, started, generations, sizes, head, source, dest, failing) <==>
            MoveKeepsCaches(c, sizes, dirty, head, Earlier(Under(c.Keys, source), bad), source, dest)
    ensures bad in failing
    ensures forall p | StopsIn(c.Keys, dirty, futures, started, generations, source, dest, failing, p) :: p == bad
  {
    hide GoodFiles, MoveKeepsCaches, StopsIn;
    forall p | StopsIn(c.Keys, dirty, futures, started, generations, source, dest, failing, p) ensures p == bad {
      StopsOnce(c.Keys, dirty, futures, started, generations, source, dest, failing, p, bad);
    }
    StopsOnce(c.Keys, dirty, futures, started, generations, source, dest, failing, bad, bad);
  }

  lemma AwaitedDirty(dirty: set<Path>, futures: map<Path, Future>, started: map<Path, nat>, generations: map<Path, nat>)
    ensures forall q | AwaitedIn(dirty, futures, started, generations, q) :: q in dirty
  {
  }

  lemma NoTimers(buffers: map<Path, Bytes>, generations: map<Path, nat>, futures: map<Path, Future>,
                 started: map<Path, nat>, timers: set<Path>, objects: set<Oid>)
    requires FenceOk(buffers, generations, futures, started, timers, objects)
    ensures FenceOk(buffers, generations, futures, started, {}, objects)
  {
  }

  lemma AllClean(index: map<Path, Oid>, buffers: map<Path, Bytes>, dirty: set<Path>, generations: map<Path, nat>)
    requires BuffersOk(index.Keys, buffers, dirty, generations) && dirty == {}
    ensures View(index, buffers) == View(index, map[])
  {
  }

  lemma AwaitedOthers(dirty: set<Path>, futures: map<Path, Future>, futures': map<Path, Future>, started: map<Path, nat>,
                      generations: map<Path, nat>, path: Path)
    requires futures'.Keys == futures.Keys && forall q | q != path && q in futures :: futures'[q] == futures[q]
    ensures forall q | q != path ::
              (AwaitedIn(dirty, futures', started, generations, q) <==> AwaitedIn(dirty, futures, started, generations, q))
  {
  }

  lemma AwaitedDropped(dirty: set<Path>, futures: map<Path, Future>, started: map<Path, nat>, generations: map<Path, nat>,
                       path: Path)
    ensures forall q | q != path ::
              (AwaitedIn(dirty - {path}, futures - {path}, started - {path}, generations - {path}, q) <==>
               AwaitedIn(dirty, futures, started, generations, q))
  {
  }

  datatype Caches = Caches(entries: Option<seq<Path>>, files: Option<set<Path>>, dirs: Option<set<Path>>,
                           children: Option<map<Path, set<Name>>>)

  const EMPTY := Caches(None, None, None, None)

  ghost predicate SizesOk(c: Files, sizes: map<Path, nat>, head: Files) {
    forall p | p in sizes :: if p in c then sizes[p] == |c[p]| else p in head
  }

  /** Index rows that a request does not touch stay; a COMMIT may flush its own file. */
  ghost predicate RowsKept(was: map<Path, Oid>, now: map<Path, Oid>, op: Op) {
    forall p | p in was && !Touches(op, p) && !(op.OpCommit? && op.path == p) :: p in now && now[p] == was[p]
  }

  /** What a COMMIT does to the row of its own file. */
  ghost predicate RowCommitted(was: map<Path, Oid>, now: map<Path, Oid>, c: Files, op: Op, r: Reply) {
    op.OpCommit? && op.path in was ==>
      op.path in now && op.path in c && (now[op.path] == was[op.path] || now[op.path].content == c[op.path]) &&
      (Commits(c, op, r, op.path) ==> now[op.path].content == c[op.path])
  }

  /** One step, seen in observed contents and index: what is durable stays so unless touched. */
  lemma StepKeepsDurable(head: Files, was: map<Path, Oid>, wasBuffers: map<Path, Bytes>, now: map<Path, Oid>,
                         nowBuffers: map<Path, Bytes>, op: Op, r: Reply)
    requires Step(head, View(was, wasBuffers), op, r, View(now, nowBuffers))
    requires RowsKept(was, now, op) && RowCommitted(was, now, View(was, wasBuffers), op, r)
    ensures KeepsDurable(View(was, wasBuffers), View(was, map[]), op, r, View(now, nowBuffers), View(now, map[]))
  {
    hide Step, Touches, View, RowsKept, RowCommitted, Durable, Commits;
    var c, d, c', d' := View(was, wasBuffers), View(was, map[]), View(now, nowBuffers), View(now, map[]);
    forall p | Durable(c, d, p) && !Touches(op, p) ensures p in c && Durable(c', d', p) && p in c' && c'[p] == c[p] {
      DurableStays(head, was, wasBuffers, now, nowBuffers, op, r, p);
    }
    forall p | Commits(c, op, r, p) ensures p in c && Durable(c', d', p) && p in c' && c'[p] == c[p] {
      CommitIsDurable(head, was, wasBuffers, now, nowBuffers, op, r, p);
    }
  }

  lemma DurableStays(head: Files, was: map<Path, Oid>, wasBuffers: map<Path, Bytes>, now: map<Path, Oid>,
                     nowBuffers: map<Path, Bytes>, op: Op, r: Reply, p: Path)
    requires Step(head, View(was, wasBuffers), op, r, View(now, nowBuffers)) && !Touches(op, p)
    requires RowsKept(was, now, op) && RowCommitted(was, now, View(was, wasBuffers), op, r)
    requires Durable(View(was, wasBuffers), View(was, map[]), p)
    ensures p in was && p in now && Durable(View(now, nowBuffers), View(now, map[]), p) &&
            View(now, nowBuffers)[p] == View(was, wasBuffers)[p]
  {
    StepFrames(head, View(was, wasBuffers), op, r, View(now, nowBuffers), p);
    hide Step, Touches;
  }

  lemma CommitIsDurable(head: Files, was: map<Path, Oid>, wasBuffers: map<Path, Bytes>, now: map<Path, Oid>,
                        nowBuffers: map<Path, Bytes>, op: Op, r: Reply, p: Path)
    requires Step(head, View(was, wasBuffers), op, r, View(now, nowBuffers)) && Commits(View(was, wasBuffers), op, r, p)
    requires RowCommitted(was, now, View(was, wasBuffers), op, r)
    ensures p in was && p in now && Durable(View(now, nowBuffers), View(now, map[]), p) &&
            View(now, nowBuffers)[p] == View(was, wasBuffers)[p]
  {
    StepFrames(head, View(was, wasBuffers), op, r, View(now, nowBuffers), p);
    hide Step;
  }

  lemma RowsSame(index: map<Path, Oid>, op: Op)
    ensures RowsKept(index, index, op)
  {
  }

  lemma RowsCommitted(index: map<Path, Oid>, oid: Oid, op: Op)
    requires op.OpCommit?
    ensures RowsKept(index, index[op.path := oid], op) && RowsKept(index, index, op)
  {
  }

  lemma RowsCleared(index: map<Path, Oid>, op: Op)
    requires op.OpRmdir?
    ensures RowsKept(index, index - Under(index.Keys, Target(op.dir, op.name)), op)
  {
  }

  lemma RowsRemoved(index: map<Path, Oid>, op: Op)
    requires op.OpRemove?
    ensures RowsKept(index, index - {Target(op.dir, op.name)}, op)
  {
  }

  lemma RowsAdd(index: map<Path, Oid>, p: Path, oid: Oid, op: Op)
    requires p !in index || Touches(op, p)
    ensures RowsKept(index, index[p := oid], op)
  {
    hide Touches;
  }

  lemma StatFile(c: Files, p: Path)
    ensures StatOf(c, p).Some? && StatOf(c, p).value.FileAttr? ==> p in c
  {
  }

  lemma ViewAt(index: map<Path, Oid>, buffers: map<Path, Bytes>, path: Path)
    requires path in index
    ensures View(index, buffers)[path] == if path in buffers then buffers[path] else index[path].content
  {
  }

  lemma ViewWrite(index: map<Path, Oid>, buffers: map<Path, Bytes>, path: Path, data: Bytes)
    ensures View(index[path := Oid(data)], buffers - {path}) == View(index, buffers)[path := data]
  {
  }

  lemma ViewDelete(index: map<Path, Oid>, buffers: map<Path, Bytes>, path: Path)
    ensures View(index - {path}, buffers - {path}) == View(index, buffers) - {path}
  {
  }

  lemma ViewFlush(index: map<Path, Oid>, buffers: map<Path, Bytes>, path: Path)
    requires path in buffers && path in index
    ensures View(index[path := Oid(buffers[path])], buffers - {path}) == View(index, buffers)
  {
  }

  lemma FileIsTrackable(files: set<Path>, path: Path)
    requires GoodFiles(files) && path in files
    ensures Trackable(path)
  {
  }

  /** A WRITE: the new buffer gets a generation no staging job has been started under. */
  lemma PutKeeps(index: map<Path, Oid>, buffers: map<Path, Bytes>, dirty: set<Path>, generations: map<Path, nat>,
                 futures: map<Path, Future>, started: map<Path, nat>, timers: set<Path>, objects: set<Oid>,
                 sizes: map<Path, nat>, head: Files, path: Path, merged: Bytes)
    requires path in index
    requires BuffersOk(index.Keys, buffers, dirty, generations)
    requires FenceOk(buffers, generations, futures, started, timers, objects)
    requires SizesOk(View(index, buffers), sizes, head)
    ensures var next := generations[path := (if path in generations then generations[path] else 0) + 1];
            BuffersOk(index.Keys, buffers[path := merged], dirty + {path}, next) &&
            FenceOk(buffers[path := merged], next, futures, started, timers, objects)
    ensures View(index, buffers[path := merged]) == View(index, buffers)[path := merged]
    ensures SizesOk(View(index, buffers)[path := merged], sizes[path := |merged|], head)
  {
  }

  /** A staging job is started under the current generation with the current buffer. */
  lemma StartKeeps(buffers: map<Path, Bytes>, generations: map<Path, nat>, futures: map<Path, Future>,
                   started: map<Path, nat>, timers: set<Path>, objects: set<Oid>, path: Path)
    requires FenceOk(buffers, generations, futures, started, timers, objects)
    ensures FenceOk(buffers, generations, futures, started, timers - {path}, objects)
    ensures path in buffers && path in generations ==>
              FenceOk(buffers, generations, futures[path := Future(generations[path], buffers[path], Running)],
                      started[path := generations[path]], timers - {path}, objects)
  {
  }

  /** Dropping one path from every write-back table keeps the tables consistent. */
  lemma DropKeeps(files: set<Path>, buffers: map<Path, Bytes>, dirty: set<Path>, generations: map<Path, nat>,
                  futures: map<Path, Future>, started: map<Path, nat>, timers: set<Path>,
                  objects: set<Oid>, path: Path)
    requires BuffersOk(files, buffers, dirty, generations)
    requires FenceOk(buffers, generations, futures, started, timers, objects)
    ensures BuffersOk(files, buffers - {path}, dirty - {path}, generations - {path})
    ensures BuffersOk(files - {path}, buffers - {path}, dirty - {path}, generations - {path})
    ensures FenceOk(buffers - {path}, generations - {path}, futures - {path}, started - {path},
                    timers - {path}, objects)
    ensures path !in dirty ==> buffers - {path} == buffers
  {
  }

  lemma FewerFiles(files: set<Path>, fewer: set<Path>)
    requires GoodFiles(files) && fewer <= files
    ensures GoodFiles(fewer)
  {
  }

  lemma MoreFiles(files: set<Path>, more: set<Path>, buffers: map<Path, Bytes>, dirty: set<Path>,
                  generations: map<Path, nat>)
    requires BuffersOk(files, buffers, dirty, generations) && files <= more
    ensures BuffersOk(more, buffers, dirty, generations)
  {
  }

  lemma DirtyIsFile(files: set<Path>, buffers: map<Path, Bytes>, dirty: set<Path>, generations: map<Path, nat>,
                    path: Path)
    requires BuffersOk(files, buffers, dirty, generations) && GoodFiles(files)
    ensures path in buffers <==> path in dirty
    ensures path in generations <==> path in dirty
    ensures path in dirty ==> path in files && Trackable(path)
  {
  }

  lemma NoCaches(files: set<Path>)
    ensures NamespaceCachesOk(files, None, None, None, None)
  {
  }

  lemma BlobAt(index: map<Path, Oid>, objects: set<Oid>, path: Path)
    requires BlobsOk(index, objects) && path in index
    ensures index[path] in objects && objects + {index[path]} == objects
  {
  }

  lemma StoreBlob(index: map<Path, Oid>, objects: set<Oid>, path: Path, oid: Oid)
    requires BlobsOk(index, objects)
    ensures BlobsOk(index[path := oid], objects + {oid})
    ensures BlobsOk(index - {path}, objects)
    ensures oid in objects ==> objects + {oid} == objects
  {
  }

  lemma MoreObjects(index: map<Path, Oid>, buffers: map<Path, Bytes>, generations: map<Path, nat>,
                    futures: map<Path, Future>, started: map<Path, nat>, timers: set<Path>,
                    objects: set<Oid>, more: set<Oid>)
    requires BlobsOk(index, objects) && objects <= more
    requires FenceOk(buffers, generations, futures, started, timers, objects)
    ensures BlobsOk(index, more)
    ensures FenceOk(buffers, generations, futures, started, timers, more)
  {
  }

  ghost function Forget(sizes: map<Path, nat>, path: Path): map<Path, nat> {
    map q | q in sizes && !(path <= q) :: sizes[q]
  }

  ghost predicate SubSizes(sizes: map<Path, nat>, more: map<Path, nat>) {
    forall p | p in sizes :: p in more && sizes[p] == more[p]
  }

  lemma ForgetAdded(sizes: map<Path, nat>, path: Path, size: nat)
    ensures Forget(sizes[path := size], path) == Forget(sizes, path)
    ensures SubSizes(Forget(sizes, path), sizes)
  {
  }

  /** Forgetting sizes at and below a path covers a change of that path only. */
  lemma SizesForget(c: Files, c': Files, sizes: map<Path, nat>, head: Files, path: Path)
    requires SizesOk(c, sizes, head)
    requires forall q | q != path :: (q in c <==> q in c') && (q in c ==> c[q] == c'[q])
    ensures SizesOk(c', Forget(sizes, path), head)
  {
  }

  lemma SizesForgetTree(c: Files, c': Files, sizes: map<Path, nat>, head: Files, path: Path)
    requires SizesOk(c, sizes, head)
    requires forall q | !(path <= q) :: (q in c <==> q in c') && (q in c ==> c[q] == c'[q])
    ensures SizesOk(c', Forget(sizes, path), head)
  {
  }

  lemma MarkerAbsent(c: Files, target: Path)
    requires target !in Dirs(c.Keys)
    ensures target + [KEEP] !in c
  {
    DirsMember(c.Keys, target);
    assert target < target + [KEEP];
  }

  lemma ViewMove(index: map<Path, Oid>, buffers: map<Path, Bytes>, source: Path, dest: Path)
    requires source in index && source !in buffers
    requires dest in buffers ==> dest in index
    ensures View(index[dest := index[source]] - {source}, buffers) ==
            MoveOutcome(View(index, buffers), source, dest, dest in buffers)
  {
  }

  lemma MoveKeeps(index: map<Path, Oid>, buffers: map<Path, Bytes>, dirty: set<Path>, generations: map<Path, nat>,
                  objects: set<Oid>, source: Path, dest: Path)
    requires source in index && source !in dirty
    requires BuffersOk(index.Keys, buffers, dirty, generations)
    requires GoodFiles(index.Keys + {dest}) && BlobsOk(index, objects)
    ensures var index' := index[dest := index[source]] - {source};
            BuffersOk(index'.Keys, buffers, dirty, generations) && GoodFiles(index'.Keys) && BlobsOk(index', objects)
  {
    var index' := index[dest := index[source]] - {source};
    assert index'.Keys <= index.Keys + {dest};
    FewerFiles(index.Keys + {dest}, index'.Keys);
  }

  /** Sizes forgotten below two paths cover any change confined to those two subtrees. */
  lemma SizesForgetTwo(c: Files, c': Files, sizes: map<Path, nat>, more: map<Path, nat>, head: Files,
                       path: Path, other: Path)
    requires SizesOk(c, more, head) && SubSizes(sizes, more)
    requires forall q | !(path <= q) && !(other <= q) :: (q in c <==> q in c') && (q in c ==> c[q] == c'[q])
    ensures SizesOk(c', Forget(Forget(sizes, path), other), head)
  {
  }

  lemma SubSizesSelf(sizes: map<Path, nat>)
    ensures SubSizes(sizes, sizes)
  {
  }

  lemma SubSizesTrans(a: map<Path, nat>, b: map<Path, nat>, c: map<Path, nat>)
    requires SubSizes(a, b) && SubSizes(b, c)
    ensures SubSizes(a, c)
  {
  }

  // ---- Caches after a directory move that stopped ----

  /** Flushing the rows in `flushed` drops their sizes and those of paths below them. */
  ghost function DropSizes(sizes: map<Path, nat>, flushed: set<Path>): map<Path, nat> {
    map q | q in sizes && !AtOrBelow(flushed, q) :: sizes[q]
  }

  ghost predicate AtOrBelow(flushed: set<Path>, q: Path) { exists p :: p in flushed && p <= q }

  lemma DropNone(sizes: map<Path, nat>)
    ensures DropSizes(sizes, {}) == sizes
  {
  }

  lemma DropOne(sizes: map<Path, nat>, flushed: set<Path>, p: Path)
    ensures Forget(DropSizes(sizes, flushed), p) == DropSizes(sizes, flushed + {p})
  {
    forall q ensures AtOrBelow(flushed + {p}, q) <==> AtOrBelow(flushed, q) || p <= q {
      if AtOrBelow(flushed, q) {
        var r :| r in flushed && r <= q;
        assert r in flushed + {p};
      }
      if p <= q { assert p in flushed + {p}; }
    }
  }

  lemma DropSub(sizes: map<Path, nat>, flushed: set<Path>)
    ensures SubSizes(DropSizes(sizes, flushed), sizes)
  {
  }

  /** Exactly when a directory move that stopped after the rows in `gone` leaves every cache right: no
      row had moved, or one of those moved was dirty, so that its flush emptied the namespace caches;
      and the size cache had no entry that the moves made wrong. */
  predicate MoveKeepsCaches(c: Files, sizes: map<Path, nat>, dirty: set<Path>, head: Files, gone: set<Path>,
                            source: Path, dest: Path)
  {
    (gone == {} || gone * dirty != {}) &&
    forall p | p in gone && p in c ::
      (p in sizes && p !in dirty ==> p in head) &&
      (MovedPath(source, dest, p) in sizes ==> sizes[MovedPath(source, dest, p)] == |c[p]|)
  }

  ghost predicate CanMove(c: Files, gone: set<Path>, source: Path, dest: Path) {
    PrefixFree(c.Keys) && gone <= Under(c.Keys, source) && source != [] && !(source <= dest) &&
    forall q | q in c :: !(dest <= q)
  }

  lemma NamespaceStops(c: Files, c': Files, listed: Caches, now: Caches, dirty: set<Path>, gone: set<Path>,
                       source: Path, dest: Path)
    requires CanMove(c, gone, source, dest) && IsPartialMove(c, c', gone, source, dest)
    requires NamespaceCachesOk(c.Keys, listed.entries, listed.files, listed.dirs, listed.children) && listed.entries.Some?
    requires now == if gone * dirty == {} then listed else EMPTY
    ensures NamespaceCachesOk(c'.Keys, now.entries, now.files, now.dirs, now.children) <==> gone == {} || gone * dirty != {}
  {
    hide Dirs, ChildrenMap, RowBefore, MovedPath;
    if gone == {} {
      assert c'.Keys == c.Keys;
    } else if gone * dirty == {} {
      var p :| p in gone;
      GoneFrom(c, c', gone, source, dest, p);
      assert p in listed.entries.value;
    }
  }

  lemma GoneFrom(c: Files, c': Files, gone: set<Path>, source: Path, dest: Path, p: Path)
    requires CanMove(c, gone, source, dest) && IsPartialMove(c, c', gone, source, dest) && p in gone
    ensures p !in c' && dest < MovedPath(source, dest, p) && MovedPath(source, dest, p) in c'
    ensures c'[MovedPath(source, dest, p)] == c[p]
    ensures !AtOrBelow(gone, MovedPath(source, dest, p))
  {
    forall q | q in gone ensures dest < MovedPath(source, dest, q) { }
    var m := MovedPath(source, dest, p);
    assert m in MovedPaths(gone, source, dest);
    forall q | q in gone ensures !(q <= m) { Apart(source, dest, q, m); }
  }

  lemma Apart(source: Path, dest: Path, q: Path, m: Path)
    requires source < q && dest < m && !(source <= dest) && !(dest <= q)
    ensures !(q <= m)
  {
  }

  lemma SizesStop(c: Files, c': Files, sizes: map<Path, nat>, dirty: set<Path>, head: Files, gone: set<Path>,
                  source: Path, dest: Path)
    requires CanMove(c, gone, source, dest) && IsPartialMove(c, c', gone, source, dest) && SizesOk(c, sizes, head)
    ensures SizesOk(c', DropSizes(sizes, gone * dirty), head) <==>
            forall p | p in gone && p in c ::
              (p in sizes && p !in dirty ==> p in head) &&
              (MovedPath(source, dest, p) in sizes ==> sizes[MovedPath(source, dest, p)] == |c[p]|)
  {
    var left := DropSizes(sizes, gone * dirty);
    if SizesOk(c', left, head) {
      forall p | p in gone && p in c
        ensures (p in sizes && p !in dirty ==> p in head) &&
                (MovedPath(source, dest, p) in sizes ==> sizes[MovedPath(source, dest, p)] == |c[p]|)
      {
        SizeOfGone(c, c', sizes, dirty, gone, source, dest, p);
      }
    }
    if forall p | p in gone && p in c ::
         (p in sizes && p !in dirty ==> p in head) &&
         (MovedPath(source, dest, p) in sizes ==> sizes[MovedPath(source, dest, p)] == |c[p]|)
    {
      forall q | q in left ensures if q in c' then left[q] == |c'[q]| else q in head {
        SizeLeft(c, c', sizes, dirty, gone, source, dest, q);
        if q in MovedPaths(gone, source, dest) {
          var p :| p in gone && q == MovedPath(source, dest, p);
          GoneFrom(c, c', gone, source, dest, p);
        }
      }
    }
  }

  /** A row that moved clean keeps its size entry, and so does the place it moved to. */
  lemma SizeOfGone(c: Files, c': Files, sizes: map<Path, nat>, dirty: set<Path>, gone: set<Path>,
                   source: Path, dest: Path, p: Path)
    requires CanMove(c, gone, source, dest) && IsPartialMove(c, c', gone, source, dest) && p in gone && p in c
    ensures var left, m := DropSizes(sizes, gone * dirty), MovedPath(source, dest, p);
            p !in c' && m in c' && c'[m] == c[p] && (p in sizes && p !in dirty ==> p in left) && (m in sizes ==> m in left)
  {
    GoneFrom(c, c', gone, source, dest, p);
    var m := MovedPath(source, dest, p);
    assert AtOrBelow(gone * dirty, m) ==> AtOrBelow(gone, m);
    forall q | q in gone * dirty && q <= p ensures q == p { assert !Below(q, p); }
    assert p !in dirty ==> !AtOrBelow(gone * dirty, p);
  }

  /** What an entry that is left speaks about. */
  lemma SizeLeft(c: Files, c': Files, sizes: map<Path, nat>, dirty: set<Path>, gone: set<Path>,
                 source: Path, dest: Path, q: Path)
    requires CanMove(c, gone, source, dest) && IsPartialMove(c, c', gone, source, dest)
    requires q in DropSizes(sizes, gone * dirty)
    ensures q in gone ==> q !in dirty && q !in c'
    ensures q !in gone && q !in MovedPaths(gone, source, dest) ==>
              (q in c <==> q in c') && (q in c ==> c'[q] == c[q])
  {
    if q in gone {
      GoneFrom(c, c', gone, source, dest, q);
      assert q in dirty ==> q in gone * dirty && q <= q;
    }
  }

  lemma StoppedCaches(c: Files, c': Files, listed: Caches, now: Caches, sizes: map<Path, nat>, dirty: set<Path>,
                      head: Files, gone: set<Path>, source: Path, dest: Path)
    requires CanMove(c, gone, source, dest) && IsPartialMove(c, c', gone, source, dest) && SizesOk(c, sizes, head)
    requires NamespaceCachesOk(c.Keys, listed.entries, listed.files, listed.dirs, listed.children) && listed.entries.Some?
    requires now == if gone * dirty == {} then listed else EMPTY
    ensures (NamespaceCachesOk(c'.Keys, now.entries, now.files, now.dirs, now.children) &&
             SizesOk(c', DropSizes(sizes, gone * dirty), head)) <==>
            MoveKeepsCaches(c, sizes, dirty, head, gone, source, dest)
  {
    hide CanMove, IsPartialMove, SizesOk, NamespaceCachesOk, DropSizes, MovedPath;
    NamespaceStops(c, c', listed, now, dirty, gone, source, dest);
    SizesStop(c, c', sizes, dirty, head, gone, source, dest);
  }

  ghost predicate RowsOutside(was: map<Path, Oid>, now: map<Path, Oid>, source: Path, dest: Path) {
    forall q | q in was && !(source <= q) && !(dest <= q) :: q in now && now[q] == was[q]
  }

  lemma OutsideSelf(index: map<Path, Oid>, source: Path, dest: Path)
    ensures RowsOutside(index, index, source, dest)
  {
  }

  lemma OutsideTrans(a: map<Path, Oid>, b: map<Path, Oid>, c: map<Path, Oid>, source: Path, dest: Path)
    requires RowsOutside(a, b, source, dest) && RowsOutside(b, c, source, dest)
    ensures RowsOutside(a, c, source, dest)
  {
  }

  lemma OutsideRow(index: map<Path, Oid>, source: Path, dest: Path, oid: Oid)
    ensures RowsOutside(index, index[source := oid], source, dest)
    ensures RowsOutside(index, index[dest := oid] - {source}, source, dest)
    ensures RowsOutside(index, index, source, dest)
  {
  }

  lemma MoveFrames(c: Files, source: Path, dest: Path, dirty: bool)
    requires source in c
    ensures var c' := MoveOutcome(c, source, dest, dirty);
            forall q | !(source <= q) && !(dest <= q) :: (q in c <==> q in c') && (q in c ==> c[q] == c'[q])
    ensures source == dest ==> MoveOutcome(c, source, dest, dirty) == MoveOutcome(c, source, dest, !dirty)
  {
  }

  lemma OutsideMoved(was: map<Path, Oid>, now: map<Path, Oid>, files: set<Path>, source: Path, dest: Path, path: Path)
    requires path in Under(files, source)
    requires forall q | q in was && q != path && q != MovedPath(source, dest, path) :: q in now && now[q] == was[q]
    ensures RowsOutside(was, now, source, dest)
  {
  }

  lemma OutsideKept(was: map<Path, Oid>, now: map<Path, Oid>, op: Op)
    requires op.OpRename? && RowsOutside(was, now, op.dir + [op.name], op.toDir + [op.toName])
    ensures RowsKept(was, now, op)
  {
  }

  class Handler {
    // The repository: index rows, stored blobs, and the files of the head commit.
    var index: map<Path, Oid>
    var objects: set<Oid>
    const head: Files

    var entriesCache: Option<seq<Path>>
    var filesCache: Option<set<Path>>
    var dirsCache: Option<set<Path>>
    var childrenCache: Option<map<Path, set<Name>>>
    var sizeCache: map<Path, nat>

    var writeBuffers: map<Path, Bytes>
    var dirtyBuffers: set<Path>
    var dirtyGenerations: map<Path, nat>
    var stageFutures: map<Path, Future>
    var stageGenerations: map<Path, nat>
    var stageTimers: set<Path>

    // ---- Abstraction and invariant ----

    function IndexContent(): Files
      reads this
    {
      View(index, map[])
    }

    /** What a client observes: the dirty buffer where there is one, else the indexed blob. */
    function Contents(): Files
      reads this
    {
      View(index, writeBuffers)
    }

    /** Flushing the path waits for a staging job of the current generation that is still running. */
    predicate Awaited(path: Path)
      reads this
    {
      AwaitedIn(dirtyBuffers, stageFutures, stageGenerations, dirtyGenerations, path)
    }

    ghost function Namespace(): Caches
      reads this
    {
      Caches(entriesCache, filesCache, dirsCache, childrenCache)
    }

    ghost predicate CoreOk()
      reads this
    {
      BuffersOk(index.Keys, writeBuffers, dirtyBuffers, dirtyGenerations) &&
      FenceOk(writeBuffers, dirtyGenerations, stageFutures, stageGenerations, stageTimers, objects) &&
      GoodFiles(index.Keys) && BlobsOk(index, objects)
    }

    /** Every cache that is filled agrees with recomputation from the index and the buffers. */
    ghost predicate CachesOk()
      reads this
    {
      NamespaceCachesOk(index.Keys, entriesCache, filesCache, dirsCache, childrenCache) &&
      SizesOk(Contents(), sizeCache, head)
    }

    ghost predicate Valid()
      reads this
    {
      CoreOk() && CachesOk()
    }

    constructor (index: map<Path, Oid>, objects: set<Oid>, head: Files)
      requires GoodFiles(index.Keys) && BlobsOk(index, objects)
      ensures Valid() && Contents() == IndexContent() && this.index == index && this.head == head
      ensures dirtyBuffers == {} && stageFutures == map[] && sizeCache == map[]
    {
      this.index, this.objects, this.head := index, objects, head;
      entriesCache, filesCache, dirsCache, childrenCache := None, None, None, None;
      sizeCache, writeBuffers, dirtyBuffers, dirtyGenerations := map[], map[], {}, map[];
      stageFutures, stageGenerations, stageTimers := map[], map[], {};
    }

    // ---- Namespace caches ----

    /** `index_entries`: the index rows as a list. */
    method Entries() returns (entries: seq<Path>)
      requires CachesOk() && GoodFiles(index.Keys)
      modifies this`entriesCache
      ensures CachesOk()
      ensures Lists(entries, index.Keys)
      ensures entriesCache == Some(entries)
    {
      if entriesCache.None? {
        entries := OrderedRows(index.Keys);
        entriesCache := Some(entries);
      }
      entries := entriesCache.value;
    }

    method EnsureNamespace()
      requires CachesOk() && GoodFiles(index.Keys)
      modifies this`entriesCache, this`filesCache, this`dirsCache, this`childrenCache
      ensures CachesOk()
      ensures filesCache == Some(index.Keys)
      ensures dirsCache == Some(Dirs(index.Keys))
      ensures childrenCache == Some(ChildrenMap(index.Keys))
    {
      if filesCache.Some? && dirsCache.Some? && childrenCache.Some? {
        return;
      }
      var entries := Entries();
      var files, dirs, children := BuildNamespace(entries, index.Keys);
      hide ChildrenMap, Dirs, Lists, View, SizesOk;
      filesCache, dirsCache, childrenCache := Some(files), Some(dirs), Some(children);
    }

    method Classify(path: Path) returns (isFile: bool, isDir: bool)
      requires CachesOk() && GoodFiles(index.Keys)
      modifies this`entriesCache, this`filesCache, this`dirsCache, this`childrenCache
      ensures CachesOk()
      ensures isFile == (path in index) && isDir == (path !in index && path in Dirs(index.Keys))
      ensures filesCache == Some(index.Keys)
    {
      EnsureNamespace();
      isFile := path in filesCache.value;
      isDir := !isFile && path in dirsCache.value;
    }

    method ChildNames(dir: Path) returns (names: set<Name>)
      requires CachesOk() && GoodFiles(index.Keys)
      modifies this`entriesCache, this`filesCache, this`dirsCache, this`childrenCache
      ensures CachesOk()
      ensures names == Children(index.Keys, dir) - {KEEP}
    {
      EnsureNamespace();
      DirsMember(index.Keys, dir);
      var found := if dir in childrenCache.value then childrenCache.value[dir] else {};
      names := set n | n in found && n != KEEP;
    }

    method FilesUnder(dir: Path) returns (found: seq<Path>)
      requires CachesOk() && GoodFiles(index.Keys)
      modifies this`entriesCache
      ensures CachesOk()
      ensures Lists(found, Under(index.Keys, dir)) && entriesCache.Some?
    {
      var entries := Entries();
      found := [];
      for i := 0 to |entries|
        invariant forall p :: p in found <==> p in entries[..i] && dir < p
        invariant forall j, k | 0 <= j < k < |found| :: found[j] != found[k] && RowBefore(found[j], found[k])
      {
        forall j | 0 <= j < |found| ensures found[j] != entries[i] && RowBefore(found[j], entries[i]) {
          assert found[j] in found && found[j] in entries[..i];
        }
        if dir < entries[i] {
          found := found + [entries[i]];
        }
      }
      assert entries[..|entries|] == entries;
    }

    method InvalidateNamespace(path: Path)
      modifies this`entriesCache, this`filesCache, this`dirsCache, this`childrenCache, this`sizeCache
      ensures entriesCache.None? && filesCache.None? && dirsCache.None? && childrenCache.None?
      ensures sizeCache == Forget(old(sizeCache), path)
    {
      entriesCache, filesCache, dirsCache, childrenCache := None, None, None, None;
      sizeCache := map q | q in sizeCache && !(path <= q) :: sizeCache[q];
    }

    /** None stands for `ObjectNotFound` (or another failure to read a blob at that path). */
    method FileSize(path: Path) returns (size: Option<nat>)
      requires Valid()
      modifies this`sizeCache
      ensures Valid()
      ensures path in index ==> size == Some(|Contents()[path]|)
      ensures path !in index ==> (size.Some? <==> path in head)
    {
      if path in writeBuffers {
        return Some(|writeBuffers[path]|);
      }
      if path in sizeCache {
        return Some(sizeCache[path]);
      }
      if path in index {
        size := Some(|index[path].content|);
      } else if path in head {
        size := Some(|head[path]|);
      } else {
        return None;
      }
      sizeCache := sizeCache[path := size.value];
    }

    method Stat(path: Path) returns (attr: Option<Attr>)
      requires Valid()
      modifies this`entriesCache, this`filesCache, this`dirsCache, this`childrenCache, this`sizeCache
      ensures Valid()
      ensures attr == StatOf(Contents(), path)
      ensures path == [] || path !in index ==> sizeCache == old(sizeCache)
      ensures path != [] ==> filesCache == Some(index.Keys)
      ensures path == [] ==> filesCache == old(filesCache)
    {
      if path == [] {
        return Some(DirAttr);
      }
      var isFile, isDir := Classify(path);
      if isFile {
        var size := FileSize(path);
        return Some(FileAttr(size.value));
      }
      return if isDir then Some(DirAttr) else None;
    }

    // ---- Repository rows ----

    /** `Repository.write_file`: false stands for `InvalidPath`. */
    method RepoWrite(path: Path, data: Bytes) returns (ok: bool)
      modifies this`index, this`objects
      ensures ok == Trackable(path)
      ensures !ok ==> index == old(index) && objects == old(objects)
      ensures ok ==> index == old(index)[path := Oid(data)] && objects == old(objects) + {Oid(data)}
    {
      ok := Trackable(path);
      if ok {
        objects := objects + {Oid(data)};
        index := index[path := Oid(data)];
      }
    }

    // ---- Write-back state ----

    method DropBuffer(path: Path)
      modifies this`writeBuffers, this`dirtyBuffers, this`dirtyGenerations, this`stageGenerations,
               this`stageFutures, this`stageTimers
      ensures writeBuffers == old(writeBuffers) - {path} && dirtyBuffers == old(dirtyBuffers) - {path}
      ensures dirtyGenerations == old(dirtyGenerations) - {path}
      ensures stageGenerations == old(stageGenerations) - {path}
      ensures stageFutures == old(stageFutures) - {path} && stageTimers == old(stageTimers) - {path}
    {
      writeBuffers, dirtyBuffers := writeBuffers - {path}, dirtyBuffers - {path};
      dirtyGenerations, stageGenerations := dirtyGenerations - {path}, stageGenerations - {path};
      stageFutures, stageTimers := stageFutures - {path}, stageTimers - {path};
    }

    method WriteBytes(path: Path, data: Bytes) returns (ok: bool)
      requires Valid()
      requires Trackable(path) ==> GoodFiles(index.Keys + {path})
      requires path in index ==> Trackable(path)
      modifies this
      ensures Valid()
      ensures ok == Trackable(path)
      ensures Contents() == if ok then old(Contents())[path := data] else old(Contents())
      ensures dirtyBuffers == old(dirtyBuffers) - {path}
      ensures index == if ok then old(index)[path := Oid(data)] else old(index)
    {
      hide BuffersOk, FenceOk, GoodFiles, BlobsOk, NamespaceCachesOk, SizesOk, View, Trackable, PrefixFree, Forget;
      DropKeeps(index.Keys, writeBuffers, dirtyBuffers, dirtyGenerations, stageFutures, stageGenerations,
                stageTimers, objects, path);
      ViewWrite(index, writeBuffers, path, data);
      DirtyIsFile(index.Keys, writeBuffers, dirtyBuffers, dirtyGenerations, path);
      StoreBlob(index, objects, path, Oid(data));
      DropBuffer(path);
      ok := RepoWrite(path, data);
      if ok {
        MoreObjects(old(index), writeBuffers, dirtyGenerations, stageFutures, stageGenerations, stageTimers,
                    old(objects), objects);
        InvalidateNamespace(path);
        assert index.Keys == old(index.Keys) + {path};
        MoreFiles(old(index.Keys), index.Keys, writeBuffers, dirtyBuffers, dirtyGenerations);
        NoCaches(index.Keys);
        SizesForget(old(Contents()), Contents(), old(sizeCache), head, path);
      }
    }

    method DeleteBytes(path: Path)
      requires Valid()
      modifies this
      ensures Valid()
      ensures Contents() == old(Contents()) - {path}
      ensures dirtyBuffers == old(dirtyBuffers) - {path}
      ensures index == old(index) - {path}
    {
      hide BuffersOk, FenceOk, GoodFiles, BlobsOk, NamespaceCachesOk, SizesOk, View, Trackable, PrefixFree, Forget;
      DropKeeps(index.Keys, writeBuffers, dirtyBuffers, dirtyGenerations, stageFutures, stageGenerations,
                stageTimers, objects, path);
      ViewDelete(index, writeBuffers, path);
      StoreBlob(index, objects, path, Oid([]));
      DropBuffer(path);
      index := index - {path};
      InvalidateNamespace(path);
      assert index.Keys == old(index.Keys) - {path};
      FewerFiles(old(index.Keys), index.Keys);
      NoCaches(index.Keys);
      SizesForget(old(Contents()), Contents(), old(sizeCache), head, path);
    }

    /** The oid a flush may use instead of hashing the buffer again.  `waitOk` is how a job that is
        still running ends when it is waited for; `raised` is an exception out of that wait. */
    method StagedBlob(path: Path, generation: nat, waitOk: bool) returns (staged: Option<Oid>, raised: bool)
      requires CoreOk() && path in dirtyBuffers && generation == dirtyGenerations[path]
      modifies this`objects, this`stageFutures
      ensures CoreOk() && old(objects) <= objects && stageFutures.Keys == old(stageFutures).Keys
      ensures staged.Some? ==> staged.value == Oid(writeBuffers[path]) && staged.value in objects
      ensures raised <==> !waitOk && old(Awaited(path))
      ensures raised ==> staged.None?
      ensures forall q | q != path && q in stageFutures :: stageFutures[q] == old(stageFutures)[q]
    {
      if path !in stageFutures {
        return None, false;
      }
      var f := stageFutures[path];
      if f.status == Running {
        if stageGenerations[path] != generation {
          return None, false;
        }
        stageFutures := stageFutures[path := f.(status := if waitOk then Done else Failed)];
        if !waitOk {
          return None, true;
        }
        objects := objects + {Oid(f.snapshot)};
        return if f.generation == generation then Some(Oid(f.snapshot)) else None, false;
      }
      if f.status == Failed {
        return None, false;
      }
      return if f.generation == generation then Some(Oid(f.snapshot)) else None, false;
    }

    /** `_flush_path`: the buffer moves into the index; nothing observable changes. */
    method FlushPath(path: Path, waitOk: bool) returns (ok: bool)
      requires CoreOk()
      modifies this
      ensures CoreOk() && Contents() == old(Contents())
      ensures old(CachesOk()) ==> CachesOk()
      ensures ok <==> waitOk || !old(Awaited(path))
      ensures if ok && path in old(dirtyBuffers)
              then Namespace() == EMPTY && sizeCache == Forget(old(sizeCache), path)
              else Namespace() == old(Namespace()) && sizeCache == old(sizeCache)
      ensures forall q | q != path :: Awaited(q) <==> old(Awaited(q))
      ensures dirtyBuffers == if ok then old(dirtyBuffers) - {path} else old(dirtyBuffers)
      ensures index == if ok && path in old(dirtyBuffers) && path in old(writeBuffers)
                       then old(index)[path := Oid(old(writeBuffers)[path])] else old(index)
    {
      hide BuffersOk, FenceOk, GoodFiles, BlobsOk, NamespaceCachesOk, SizesOk, View, Trackable, PrefixFree, Forget, AwaitedIn;
      DirtyIsFile(index.Keys, writeBuffers, dirtyBuffers, dirtyGenerations, path);
      AwaitedDirty(dirtyBuffers, stageFutures, stageGenerations, dirtyGenerations);
      StartKeeps(writeBuffers, dirtyGenerations, stageFutures, stageGenerations, stageTimers, objects, path);
      if path !in dirtyBuffers {
        return true;
      }
      stageTimers := stageTimers - {path};
      var staged, raised := StagedBlob(path, dirtyGenerations[path], waitOk);
      AwaitedOthers(dirtyBuffers, old(stageFutures), stageFutures, stageGenerations, dirtyGenerations, path);
      if raised {
        return false;
      }
      SettleFlush(path, staged);
      return true;
    }

    /** The second half of `_flush_path`: point the index at the blob and drop the buffer. */
    method SettleFlush(path: Path, staged: Option<Oid>)
      requires CoreOk() && path in writeBuffers && path in index && Trackable(path)
      requires staged.Some? ==> staged.value == Oid(writeBuffers[path]) && staged.value in objects
      modifies this
      ensures CoreOk() && Contents() == old(Contents())
      ensures old(CachesOk()) ==> CachesOk()
      ensures Namespace() == EMPTY && sizeCache == Forget(old(sizeCache), path)
      ensures forall q | q != path :: Awaited(q) <==> old(Awaited(q))
      ensures dirtyBuffers == old(dirtyBuffers) - {path}
      ensures index == old(index)[path := Oid(old(writeBuffers)[path])]
    {
      hide BuffersOk, FenceOk, GoodFiles, BlobsOk, NamespaceCachesOk, SizesOk, View, Trackable, PrefixFree, Forget, SubSizes, AwaitedIn;
      var size := |writeBuffers[path]|;
      SettleRow(path, staged);
      ForgetAdded(sizeCache, path, size);
      sizeCache := sizeCache[path := size];
      InvalidateNamespace(path);
      NoCaches(index.Keys);
      if old(CachesOk()) {
        SizesForget(old(Contents()), Contents(), old(sizeCache), head, path);
      }
    }

    method SettleRow(path: Path, staged: Option<Oid>)
      requires CoreOk() && path in writeBuffers && path in index && Trackable(path)
      requires staged.Some? ==> staged.value == Oid(writeBuffers[path]) && staged.value in objects
      modifies this`index, this`objects, this`writeBuffers, this`dirtyBuffers, this`dirtyGenerations,
               this`stageGenerations, this`stageFutures, this`stageTimers
      ensures CoreOk() && Contents() == old(Contents())
      ensures forall q | q != path :: Awaited(q) <==> old(Awaited(q))
      ensures dirtyBuffers == old(dirtyBuffers) - {path}
      ensures index == old(index)[path := Oid(old(writeBuffers)[path])]
    {
      hide BuffersOk, FenceOk, GoodFiles, BlobsOk, View, Trackable, PrefixFree, AwaitedIn;
      AwaitedDropped(dirtyBuffers, stageFutures, stageGenerations, dirtyGenerations, path);
      var data := writeBuffers[path];
      DropKeeps(index.Keys, writeBuffers, dirtyBuffers, dirtyGenerations, stageFutures, stageGenerations,
                stageTimers, objects, path);
      ViewFlush(index, writeBuffers, path);
      StoreBlob(index, objects, path, Oid(data));
      if staged.None? {
        var written := RepoWrite(path, data);
      } else {
        index := index[path := staged.value];
      }
      assert objects == old(objects) + {Oid(data)} && index == old(index)[path := Oid(data)];
      DropBuffer(path);
      MoreObjects(old(index), writeBuffers, dirtyGenerations, stageFutures, stageGenerations, stageTimers,
                  old(objects), objects);
      assert index.Keys == old(index.Keys);
    }

    // ---- Timers and background staging ----

    method MaybeStageBackground(path: Path, loopRunning: bool)
      requires CoreOk()
      modifies this`stageTimers
      ensures CoreOk()
      ensures stageTimers ==
              if (path in stageFutures && stageFutures[path].status == Running) || path !in writeBuffers ||
                 |writeBuffers[path]| < 64 * 1024 * 1024
              then old(stageTimers) else if loopRunning then old(stageTimers) + {path} else old(stageTimers) - {path}
    {
      if path in stageFutures && stageFutures[path].status == Running {
        return;
      }
      if path !in writeBuffers || |writeBuffers[path]| < STAGE_MIN_BYTES {
        return;
      }
      stageTimers := stageTimers - {path};
      if loopRunning {
        stageTimers := stageTimers + {path};
      }
    }

    /** A timer fires: `_start_stage` snapshots the buffer and submits it under its generation. */
    method StartStage(path: Path)
      requires Valid()
      modifies this`stageTimers, this`stageFutures, this`stageGenerations
      ensures Valid() && Contents() == old(Contents())
      ensures path in dirtyBuffers && path !in old(stageFutures) ==> Awaited(path)
      ensures stageTimers == old(stageTimers) - {path}
      ensures if path !in dirtyBuffers || (path in old(stageFutures) && old(stageFutures)[path].status == Running)
              then stageFutures == old(stageFutures) && stageGenerations == old(stageGenerations)
              else path in writeBuffers && path in dirtyGenerations &&
                   stageFutures == old(stageFutures)[path := Future(dirtyGenerations[path], writeBuffers[path], Running)] &&
                   stageGenerations == old(stageGenerations)[path := dirtyGenerations[path]]
    {
      hide BuffersOk, FenceOk, BlobsOk, NamespaceCachesOk, SizesOk, View, GoodFiles;
      StartKeeps(writeBuffers, dirtyGenerations, stageFutures, stageGenerations, stageTimers, objects, path);
      DirtyIsFile(index.Keys, writeBuffers, dirtyBuffers, dirtyGenerations, path);
      stageTimers := stageTimers - {path};
      if path in stageFutures && stageFutures[path].status == Running {
        return;
      }
      if path !in writeBuffers || path !in dirtyGenerations {
        return;
      }
      stageFutures := stageFutures[path := Future(dirtyGenerations[path], writeBuffers[path], Running)];
      stageGenerations := stageGenerations[path := dirtyGenerations[path]];
    }

    /** A worker finishes: the blob is stored, or the job failed. */
    method FinishStage(path: Path, ok: bool)
      requires Valid()
      modifies this`objects, this`stageFutures
      ensures Valid() && Contents() == old(Contents())
      ensures if path in old(stageFutures) && old(stageFutures)[path].status == Running
              then path in stageFutures && stageFutures[path].status == (if ok then Done else Failed) &&
                   stageFutures == old(stageFutures)[path := stageFutures[path]] &&
                   stageFutures[path].snapshot == old(stageFutures)[path].snapshot &&
                   stageFutures[path].generation == old(stageFutures)[path].generation &&
                   objects == old(objects) + (if ok then {Oid(stageFutures[path].snapshot)} else {})
              else stageFutures == old(stageFutures) && objects == old(objects)
    {
      if path in stageFutures && stageFutures[path].status == Running {
        var f := stageFutures[path];
        if ok {
          objects := objects + {Oid(f.snapshot)};
        }
        stageFutures := stageFutures[path := f.(status := if ok then Done else Failed)];
      }
    }

    /** A worker whose job was dropped from the table stores its blob all the same. */
    method FinishOrphan(data: Bytes)
      requires Valid()
      modifies this`objects
      ensures Valid() && Contents() == old(Contents())
    {
      objects := objects + {Oid(data)};
    }

    // ---- Procedures that only look ----

    method Getattr(path: Path) returns (r: Reply)
      requires Valid()
      modifies this
      ensures Valid() && Contents() == old(Contents()) && index == old(index)
      ensures r == match StatOf(Contents(), path) case None => Err(NoEnt, None) case Some(a) => GetattrOk(a)
    {
      var attr := Stat(path);
      r := if attr.None? then Err(NoEnt, None) else GetattrOk(attr.value);
    }

    method Lookup(dir: Path, name: Name) returns (r: Reply)
      requires Valid()
      modifies this
      ensures Valid() && Contents() == old(Contents()) && index == old(index)
      ensures r == LookupSpec(Contents(), dir, name)
    {
      hide View, StatOf, NameOk;
      var dirAttr := Stat(dir);
      if dirAttr != Some(DirAttr) {
        return Err(NotDir, dirAttr);
      }
      var target;
      if name == "." {
        target := dir;
      } else if name == ".." {
        target := if dir == [] then [] else dir[..|dir| - 1];
      } else {
        if !NameOk(name) {
          return Err(NameTooLong, dirAttr);
        }
        target := dir + [name];
      }
      var attr := Stat(target);
      r := if attr.None? then Err(NoEnt, dirAttr) else LookupOk(target, attr.value);
    }

    method Read(path: Path, offset: nat, count: nat) returns (r: Reply)
      requires Valid()
      modifies this
      ensures Valid() && Contents() == old(Contents()) && index == old(index)
      ensures r == ReadSpec(Contents(), path, offset, count)
    {
      var attr := Stat(path);
      if attr.None? {
        return Err(NoEnt, None);
      }
      if attr.value == DirAttr {
        return Err(IsDir, attr);
      }
      var data := if path in writeBuffers then writeBuffers[path] else index[path].content;
      var slice := Slice(data, offset, count);
      r := ReadOk(attr.value, slice, offset + |slice| >= |data|);
    }

    method Readdir(dir: Path) returns (r: Reply)
      requires Valid()
      modifies this
      ensures Valid() && Contents() == old(Contents()) && index == old(index)
      ensures r == ReaddirSpec(Contents(), dir)
    {
      hide Children, StatOf;
      var dirAttr := Stat(dir);
      if dirAttr != Some(DirAttr) {
        return Err(NotDir, dirAttr);
      }
      var names := ChildNames(dir);
      r := ListOk(names + {".", ".."});
    }

    // ---- Procedures that change bytes ----

    method Write(path: Path, offset: nat, count: nat, data: Bytes, loopRunning: bool) returns (r: Reply)
      requires Valid()
      modifies this
      ensures Valid()
      ensures Outcome(Contents(), r) == WriteSpec(old(Contents()), path, offset, count, data)
      ensures index == old(index) && stageFutures == old(stageFutures)
      ensures dirtyBuffers == if r.WriteOk? then old(dirtyBuffers) + {path} else old(dirtyBuffers)
    {
      hide BuffersOk, FenceOk, BlobsOk, NamespaceCachesOk, SizesOk, View, GoodFiles, Overlay, StatOf;
      StatFile(Contents(), path);
      var before := Stat(path);
      if count != |data| {
        return Err(Inval, before);
      }
      if before.None? {
        return Err(NoEnt, None);
      }
      if before.value == DirAttr {
        return Err(IsDir, before);
      }
      PutData(path, offset, data, loopRunning);
      var after := Stat(path);
      r := WriteOk(before.value, after, |data|);
    }

    /** The buffer work of WRITE. */
    method PutData(path: Path, offset: nat, data: Bytes, loopRunning: bool)
      requires Valid() && path in index
      modifies this`writeBuffers, this`dirtyBuffers, this`dirtyGenerations, this`sizeCache, this`stageTimers
      ensures Valid()
      ensures Contents() == old(Contents())[path := Overlay(old(Contents())[path], offset, data)]
      ensures dirtyBuffers == old(dirtyBuffers) + {path}
    {
      hide BuffersOk, FenceOk, BlobsOk, NamespaceCachesOk, SizesOk, View, GoodFiles, Overlay;
      ViewAt(index, writeBuffers, path);
      var merged := if path in writeBuffers then writeBuffers[path] else index[path].content;
      merged := Splice(merged, offset, data);
      PutBuffer(path, merged);
      MaybeStageBackground(path, loopRunning);
    }

    method PutBuffer(path: Path, merged: Bytes)
      requires Valid() && path in index
      modifies this`writeBuffers, this`dirtyBuffers, this`dirtyGenerations, this`sizeCache
      ensures Valid()
      ensures Contents() == old(Contents())[path := merged]
      ensures dirtyBuffers == old(dirtyBuffers) + {path}
    {
      hide BuffersOk, FenceOk, GoodFiles, BlobsOk, NamespaceCachesOk, SizesOk, View, Trackable, PrefixFree, Forget, Dirs, Children;
      PutKeeps(index, writeBuffers, dirtyBuffers, dirtyGenerations, stageFutures, stageGenerations, stageTimers,
               objects, sizeCache, head, path, merged);
      writeBuffers := writeBuffers[path := merged];
      dirtyBuffers := dirtyBuffers + {path};
      dirtyGenerations :=
        dirtyGenerations[path := (if path in dirtyGenerations then dirtyGenerations[path] else 0) + 1];
      sizeCache := sizeCache[path := |merged|];
    }

    method Setattr(path: Path, size: Option<nat>) returns (r: Reply)
      requires Valid()
      modifies this
      ensures Valid()
      ensures Outcome(Contents(), r) == SetattrSpec(old(Contents()), path, size)
      ensures RowsKept(old(index), index, OpSetattr(path, size))
    {
      hide BuffersOk, FenceOk, BlobsOk, NamespaceCachesOk, SizesOk, View, GoodFiles, Resize, Dirs, Trackable, RowsKept;
      RowsSame(index, OpSetattr(path, size));
      var before := Stat(path);
      if before.None? || before.value == DirAttr {
        if size.Some? {
          return Err(Inval, before);
        }
      }
      if size.Some? {
        ViewAt(index, writeBuffers, path);
        FileIsTrackable(index.Keys, path);
        var data := if path in writeBuffers then writeBuffers[path] else index[path].content;
        data := CutOrExtend(data, size.value);
        RowsAdd(index, path, Oid(data), OpSetattr(path, size));
        assert index.Keys + {path} == index.Keys;
        var ok := WriteBytes(path, data);
      }
      var after := Stat(path);
      r := SetattrOk(before, after);
    }

    method Commit(path: Path, offset: nat, count: nat, waitOk: bool) returns (r: Reply)
      requires Valid()
      modifies this
      ensures Valid() && Contents() == old(Contents())
      ensures CommitSpec(Contents(), head, path, offset, count, waitOk, r)
      // After an OK reply the file is clean if and only if it was or the range made it flush.
      ensures r.CommitOk? && path in index ==>
                (path !in dirtyBuffers <==> path !in old(dirtyBuffers) || Flushing(offset, count, |Contents()[path]|))
      ensures path in index && path !in dirtyBuffers ==> IndexContent()[path] == Contents()[path]
      // A range that stops short of the end changes nothing at all.
      ensures path in index && !Flushing(offset, count, |Contents()[path]|) ==>
                dirtyBuffers == old(dirtyBuffers) && index == old(index) && r.CommitOk?
      ensures RowsKept(old(index), index, OpCommit(path, offset, count, waitOk))
      ensures RowCommitted(old(index), index, Contents(), OpCommit(path, offset, count, waitOk), r)
    {
      hide BuffersOk, FenceOk, GoodFiles, BlobsOk, NamespaceCachesOk, SizesOk, View, StatOf, RowsKept, Touches, SubSizes;
      ghost var op := OpCommit(path, offset, count, waitOk);
      DirtyIsFile(index.Keys, writeBuffers, dirtyBuffers, dirtyGenerations, path);
      RowsCommitted(index, if path in writeBuffers then Oid(writeBuffers[path]) else Oid([]), op);
      if path in index {
        ViewAt(index, writeBuffers, path);
        ViewAt(index, map[], path);
      }
      var size := FileSize(path);
      if size.None? {
        return Err(ServerFault, None);
      }
      if count == 0 || offset + count >= size.value {
        var ok := FlushPath(path, waitOk);
        if !ok {
          return Err(ServerFault, None);
        }
      }
      if path in index {
        ViewAt(index, map[], path);
      }
      var before := Stat(path);
      r := CommitOk(before);
    }

    // ---- Procedures that change the namespace ----

    method Create(dir: Path, name: Name, guarded: bool) returns (r: Reply)
      requires Valid() && OrdinaryName(name)
      modifies this
      ensures Valid()
      ensures Outcome(Contents(), r) == CreateSpec(old(Contents()), dir, name, guarded)
      ensures RowsKept(old(index), index, OpCreate(dir, name, guarded))
    {
      hide View, Trackable, NameOk, GoodFiles, BuffersOk, FenceOk, SizesOk, NamespaceCachesOk, BlobsOk, RowsKept, Touches;
      RowsSame(index, OpCreate(dir, name, guarded));
      var dirAttr := Stat(dir);
      if dirAttr != Some(DirAttr) {
        return Err(NotDir, dirAttr);
      }
      if !NameOk(name) {
        return Err(NameTooLong, dirAttr);
      }
      var target := dir + [name];
      var existing := Stat(target);
      if existing.Some? && guarded {
        return Err(Exist, dirAttr);
      }
      if existing.None? {
        if Trackable(target) {
          FreshTarget(Contents(), dir, name);
        }
        RowsAdd(index, target, Oid([]), OpCreate(dir, name, guarded));
        var ok := WriteBytes(target, []);
        if !ok {
          return Err(ServerFault, None);
        }
      }
      var attr := Stat(target);
      r := MadeOk(target, attr);
    }

    method Mkdir(dir: Path, name: Name) returns (r: Reply)
      requires Valid() && OrdinaryName(name)
      modifies this
      ensures Valid()
      ensures Outcome(Contents(), r) == MkdirSpec(old(Contents()), dir, name)
      ensures RowsKept(old(index), index, OpMkdir(dir, name))
    {
      hide View, Trackable, NameOk, GoodFiles, BuffersOk, FenceOk, SizesOk, NamespaceCachesOk, BlobsOk, Dirs, RowsKept, Touches;
      RowsSame(index, OpMkdir(dir, name));
      var dirAttr := Stat(dir);
      if dirAttr != Some(DirAttr) {
        return Err(NotDir, dirAttr);
      }
      if !NameOk(name) {
        return Err(NameTooLong, dirAttr);
      }
      var target := dir + [name];
      var existing := Stat(target);
      if existing.Some? {
        return Err(Exist, dirAttr);
      }
      var marker := target + [KEEP];
      assert marker == dir + [name, KEEP];
      MarkerTrackable(target);
      MarkerAbsent(Contents(), target);
      if Trackable(target) {
        FreshTarget(Contents(), dir, name);
      }
      RowsAdd(index, marker, Oid([]), OpMkdir(dir, name));
      var ok := WriteMarker(marker, target);
      if !ok {
        return Err(ServerFault, None);
      }
      MarkerShowsDirectory(old(Contents()), target);
      var attr := Stat(target);
      r := MadeOk(target, attr);
    }

    /** MKDIR writes its marker straight into the repository, past the buffers. */
    method WriteMarker(marker: Path, target: Path) returns (ok: bool)
      requires Valid() && target <= marker && marker !in index
      requires Trackable(marker) ==> GoodFiles(index.Keys + {marker})
      modifies this
      ensures Valid()
      ensures ok == Trackable(marker)
      ensures Contents() == if ok then old(Contents())[marker := []] else old(Contents())
      ensures index == if ok then old(index)[marker := Oid([])] else old(index)
    {
      hide BuffersOk, FenceOk, GoodFiles, BlobsOk, NamespaceCachesOk, SizesOk, View, Trackable, PrefixFree, Forget;
      DirtyIsFile(index.Keys, writeBuffers, dirtyBuffers, dirtyGenerations, marker);
      assert writeBuffers - {marker} == writeBuffers;
      ViewWrite(index, writeBuffers, marker, []);
      StoreBlob(index, objects, marker, Oid([]));
      ok := RepoWrite(marker, []);
      if ok {
        MoreObjects(old(index), writeBuffers, dirtyGenerations, stageFutures, stageGenerations, stageTimers,
                    old(objects), objects);
        assert index.Keys == old(index.Keys) + {marker};
        MoreFiles(old(index.Keys), index.Keys, writeBuffers, dirtyBuffers, dirtyGenerations);
        InvalidateNamespace(target);
        NoCaches(index.Keys);
        SizesForgetTree(old(Contents()), Contents(), old(sizeCache), head, target);
      }
    }

    method Remove(dir: Path, name: Name) returns (r: Reply)
      requires Valid()
      modifies this
      ensures Valid()
      ensures Outcome(Contents(), r) == RemoveSpec(old(Contents()), dir, name)
      ensures RowsKept(old(index), index, OpRemove(dir, name))
    {
      hide View, BuffersOk, FenceOk, SizesOk, NamespaceCachesOk, GoodFiles, BlobsOk, RowsKept, Dirs, Target;
      RowsSame(index, OpRemove(dir, name));
      RowsRemoved(index, OpRemove(dir, name));
      var dirAttr := Stat(dir);
      if dirAttr != Some(DirAttr) {
        return Err(NotDir, dirAttr);
      }
      var target := Target(dir, name);
      var attr := Stat(target);
      if attr.None? {
        return Err(NoEnt, dirAttr);
      }
      if attr.value == DirAttr {
        return Err(IsDir, dirAttr);
      }
      DeleteBytes(target);
      r := GoneOk;
    }

    method Rmdir(dir: Path, name: Name) returns (r: Reply)
      requires Valid()
      modifies this
      ensures Valid()
      ensures Outcome(Contents(), r) == RmdirSpec(old(Contents()), dir, name)
      ensures RowsKept(old(index), index, OpRmdir(dir, name))
    {
      hide Children, View, BuffersOk, FenceOk, SizesOk, NamespaceCachesOk, GoodFiles, BlobsOk, RowsKept, Under, Dirs;
      RowsSame(index, OpRmdir(dir, name));
      RowsCleared(index, OpRmdir(dir, name));
      var dirAttr := Stat(dir);
      if dirAttr != Some(DirAttr) {
        return Err(NotDir, dirAttr);
      }
      var target := Target(dir, name);
      var attr := Stat(target);
      if attr.None? {
        return Err(NoEnt, dirAttr);
      }
      if attr.value != DirAttr {
        return Err(NotDir, dirAttr);
      }
      var names := ChildNames(target);
      if names != {} {
        return Err(NotEmpty, dirAttr);
      }
      if target != [] {
        DeleteUnder(target);
      }
      r := GoneOk;
    }

    method DeleteUnder(target: Path)
      requires Valid()
      modifies this
      ensures Valid()
      ensures Contents() == old(Contents()) - Under(old(index.Keys), target)
      ensures index == old(index) - Under(old(index.Keys), target)
    {
      hide View, BuffersOk, FenceOk, SizesOk, NamespaceCachesOk, GoodFiles, BlobsOk, Under;
      var found := FilesUnder(target);
      ghost var c := Contents();
      assert c.Keys == index.Keys;
      ghost var gone: set<Path> := {};
      for i := 0 to |found|
        invariant Valid()
        invariant forall p :: p in gone <==> p in found[..i]
        invariant Contents() == c - gone
        invariant index == old(index) - gone
      {
        DeleteBytes(found[i]);
        gone := gone + {found[i]};
      }
      assert found[..|found|] == found;
      assert gone == Under(old(index.Keys), target);
    }

    // ---- RENAME ----

    /** `Repository.move_file`: copy the row, then delete the source row. */
    method MoveRow(source: Path, dest: Path) returns (ok: bool)
      requires CoreOk() && source in index && source !in dirtyBuffers
      requires Trackable(dest) ==> GoodFiles(index.Keys + {dest})
      modifies this`index, this`objects
      ensures CoreOk()
      ensures ok == Trackable(dest)
      ensures Contents() == if ok then MoveOutcome(old(Contents()), source, dest, dest in dirtyBuffers)
                            else old(Contents())
      ensures index == if ok then old(index)[dest := old(index)[source]] - {source} else old(index)
    {
      hide BuffersOk, FenceOk, GoodFiles, BlobsOk, NamespaceCachesOk, SizesOk, View, Trackable, PrefixFree, Forget,
           MoveOutcome;
      DirtyIsFile(index.Keys, writeBuffers, dirtyBuffers, dirtyGenerations, source);
      DirtyIsFile(index.Keys, writeBuffers, dirtyBuffers, dirtyGenerations, dest);
      var oid := index[source];
      BlobAt(index, objects, source);
      ViewMove(index, writeBuffers, source, dest);
      if Trackable(dest) {
        MoveKeeps(index, writeBuffers, dirtyBuffers, dirtyGenerations, objects, source, dest);
      }
      ok := RepoWrite(dest, oid.content);
      if ok {
        assert objects == old(objects);
        index := index - {source};
      }
    }

    method RenameFile(source: Path, dest: Path, waitOk: bool) returns (r: Reply)
      requires Valid() && source in index
      requires Trackable(dest) ==> GoodFiles(index.Keys + {dest})
      modifies this
      ensures Valid()
      ensures r == MovedOk <==> Trackable(dest) && (waitOk || !old(Awaited(source)))
      ensures if r == MovedOk
              then Trackable(dest) &&
                   Contents() == MoveOutcome(old(Contents()), source, dest, dest in old(dirtyBuffers))
              else r == Err(ServerFault, None) && Contents() == old(Contents())
      ensures RowsOutside(old(index), index, source, dest)
    {
      hide BuffersOk, FenceOk, GoodFiles, BlobsOk, NamespaceCachesOk, SizesOk, View, Trackable, PrefixFree, Forget,
           RowsOutside, MoveOutcome, SubSizes;
      OutsideRow(index, source, dest, if source in writeBuffers then Oid(writeBuffers[source]) else index[source]);
      var ok := FlushPath(source, waitOk);
      if !ok {
        return Err(ServerFault, None);
      }
      label Flushed:
      assert index.Keys == Contents().Keys;
      OutsideRow(index, source, dest, index[source]);
      MoveFrames(Contents(), source, dest, dest in dirtyBuffers);
      var moved := MoveRow(source, dest);
      OutsideTrans(old(index), old@Flushed(index), index, source, dest);
      if !moved {
        assert index.Keys == old@Flushed(index.Keys);
        return Err(ServerFault, None);
      }
      SubSizesSelf(sizeCache);
      SettleMove(source, dest, old(Contents()), sizeCache);
      r := MovedOk;
    }

    /** The row at which a directory move stops: the first whose staging job has to be waited for and
        fails. */
    predicate Stops(source: Path, dest: Path, failing: set<Path>, bad: Path)
      reads this
    {
      StopsIn(index.Keys, dirtyBuffers, stageFutures, stageGenerations, dirtyGenerations, source, dest, failing, bad)
    }

    /** `_move_directory`: one row after another; the caches stay stale until the end, and an exception
        on the way leaves the rest undone. */
    method MoveDirectory(source: Path, toDir: Path, name: Name, failing: set<Path>)
        returns (r: Reply, ghost bad: Option<Path>)
      requires Valid() && source != [] && IsDirectory(Contents(), source) && source !in index
      requires IsDirectory(Contents(), toDir) && StatOf(Contents(), toDir + [name]).None?
      requires !(source <= toDir + [name]) && OrdinaryName(name)
      modifies this
      ensures CoreOk() && RowsOutside(old(index), index, source, toDir + [name])
      ensures !Trackable(toDir + [name]) ==> r == Err(ServerFault, None) && Valid() && Contents() == old(Contents())
      ensures bad.None? ==> Valid() && forall p :: !old(Stops(source, toDir + [name], failing, p))
      ensures bad.None? && Trackable(toDir + [name]) ==>
                r == MovedOk && IsMove(old(Contents()), Contents(), source, toDir + [name])
      ensures bad.Some? ==>
                r == Err(ServerFault, None) && old(Stops(source, toDir + [name], failing, bad.value)) &&
                IsStoppedMove(old(Contents()), Contents(), source, toDir + [name], bad.value) &&
                var gone := Earlier(Under(old(index.Keys), source), bad.value);
                (CachesOk() <==> MoveKeepsCaches(old(Contents()), old(sizeCache), old(dirtyBuffers), head, gone,
                                                 source, toDir + [name])) &&
                (gone * old(dirtyBuffers) == {} ==> filesCache == old(filesCache))
    {
      hide BuffersOk, FenceOk, BlobsOk, NamespaceCachesOk, SizesOk, View, Trackable, PrefixFree, Forget, IsPartialMove,
           GoodFiles, StatOf, MovedPath, MovedPaths, SubSizes, IsMove, Seen, Lists, RowsOutside, DropSizes, AwaitedIn,
           MoveKeepsCaches, Earlier, RowBefore, Under;
      var dest := toDir + [name];
      var found := FilesUnder(source);
      ghost var c, under, dirty, sizes, listed := Contents(), Under(index.Keys, source), dirtyBuffers, sizeCache, Namespace();
      DirectoryNotEmpty(c, source);
      FreeName(c, dest);
      assert index.Keys == c.Keys;
      if Trackable(dest) {
        TreeFits(c, source, toDir, name);
      }
      ghost var gone: set<Path> := {};
      bad := None;
      SeenAll(found, under);
      StartMove(c, source, dest);
      OutsideSelf(index, source, dest);
      DropNone(sizeCache);
      for i := 0 to |found|
        invariant CoreOk() && gone == Seen(found, i)
        invariant IsPartialMove(c, Contents(), gone, source, dest)
        invariant RowsOutside(old(index), index, source, dest)
        invariant dirtyBuffers == dirty - gone
        invariant forall q | q !in gone :: Awaited(q) <==> old(Awaited(q))
        invariant forall q | q in gone :: !(q in failing && old(Awaited(q)))
        invariant Namespace() == if gone * dirty == {} then listed else EMPTY
        invariant sizeCache == DropSizes(sizes, gone * dirty)
        invariant i == 0 ==> Valid() && Contents() == c
        invariant i > 0 ==> Trackable(dest)
      {
        SeenStep(found, under, i);
        UnderTrackable(c.Keys, source, dest, found[i]);
        DropOne(sizes, gone * dirty, found[i]);
        label Before:
        var moved := MoveOne(found[i], source, dest, found[i] !in failing, c, gone);
        OutsideTrans(old(index), old@Before(index), index, source, dest);
        if !moved {
          r := Err(ServerFault, None);
          if Trackable(dest) {
            bad := Some(found[i]);
            SeenEarlier(found, under, i);
            MayMove(c, gone, source, dest);
            StoppedCaches(c, Contents(), listed, Namespace(), sizes, dirty, head, gone, source, dest);
          }
          return;
        }
        assert (gone + {found[i]}) * dirty == if found[i] in dirty then gone * dirty + {found[i]} else gone * dirty;
        gone := gone + {found[i]};
      }
      SeenAll(found, under);
      EndMove(c, Contents(), gone, source, dest);
      DropSub(sizes, gone * dirty);
      SettleMove(source, dest, c, sizes);
      r := MovedOk;
    }

    /** One row of a directory move. */
    method MoveOne(path: Path, source: Path, dest: Path, waitOk: bool, ghost c: Files, ghost gone: set<Path>)
        returns (ok: bool)
      requires CoreOk() && IsPartialMove(c, Contents(), gone, source, dest)
      requires gone <= Under(c.Keys, source) && path in Under(c.Keys, source) && path !in gone
      requires (forall q | q in c :: !(dest <= q)) && !(source <= dest) && source != []
      requires Trackable(MovedPath(source, dest, path)) ==>
                 GoodFiles(c.Keys + MovedPaths(Under(c.Keys, source), source, dest))
      modifies this
      ensures CoreOk() && (ok <==> Trackable(MovedPath(source, dest, path)) && (waitOk || !old(Awaited(path))))
      ensures ok ==> IsPartialMove(c, Contents(), gone + {path}, source, dest)
      ensures !ok ==> Contents() == old(Contents()) && (old(CachesOk()) ==> CachesOk())
      ensures if path in old(dirtyBuffers) && (waitOk || !old(Awaited(path)))
              then Namespace() == EMPTY && sizeCache == Forget(old(sizeCache), path)
              else Namespace() == old(Namespace()) && sizeCache == old(sizeCache)
      ensures dirtyBuffers == if waitOk || !old(Awaited(path)) then old(dirtyBuffers) - {path} else old(dirtyBuffers)
      ensures forall q | q != path :: Awaited(q) <==> old(Awaited(q))
      ensures RowsOutside(old(index), index, source, dest)
    {
      hide BuffersOk, FenceOk, BlobsOk, NamespaceCachesOk, SizesOk, View, Trackable, PrefixFree, Forget, IsPartialMove,
           GoodFiles, MovedPath, SubSizes, Under, AwaitedIn, RowsOutside;
      OutsideSelf(index, source, dest);
      var flushed := FlushPath(path, waitOk);
      OutsideMoved(old(index), index, c.Keys, source, dest, path);
      if !flushed {
        return false;
      }
      label Flushed:
      ok := MoveFlushed(path, source, dest, c, gone);
      OutsideTrans(old(index), old@Flushed(index), index, source, dest);
    }

    /** The row of a clean file, when its directory moves. */
    method MoveFlushed(path: Path, source: Path, dest: Path, ghost c: Files, ghost gone: set<Path>) returns (ok: bool)
      requires CoreOk() && IsPartialMove(c, Contents(), gone, source, dest) && path !in dirtyBuffers
      requires gone <= Under(c.Keys, source) && path in Under(c.Keys, source) && path !in gone
      requires (forall q | q in c :: !(dest <= q)) && !(source <= dest) && source != []
      requires Trackable(MovedPath(source, dest, path)) ==>
                 GoodFiles(c.Keys + MovedPaths(Under(c.Keys, source), source, dest))
      modifies this`index, this`objects
      ensures CoreOk() && ok == Trackable(MovedPath(source, dest, path))
      ensures ok ==> IsPartialMove(c, Contents(), gone + {path}, source, dest)
      ensures !ok ==> Contents() == old(Contents()) && index == old(index)
      ensures RowsOutside(old(index), index, source, dest)
    {
      hide BuffersOk, FenceOk, BlobsOk, View, Trackable, PrefixFree, IsPartialMove, GoodFiles, MovedPath, Under, RowsOutside;
      var newPath := MovedPath(source, dest, path);
      PartialMoveStep(c, Contents(), gone, source, dest, path);
      if Trackable(newPath) {
        StillFits(c, Contents(), gone, source, dest, path);
      }
      DirtyIsFile(index.Keys, writeBuffers, dirtyBuffers, dirtyGenerations, newPath);
      ok := MoveRow(path, newPath);
      OutsideMoved(old(index), index, c.Keys, source, dest, path);
    }

    method SettleMove(source: Path, dest: Path, ghost c: Files, ghost sizes: map<Path, nat>)
      requires CoreOk() && SizesOk(c, sizes, head) && SubSizes(sizeCache, sizes)
      requires forall q | !(source <= q) && !(dest <= q) ::
                 (q in c <==> q in Contents()) && (q in c ==> c[q] == Contents()[q])
      modifies this`entriesCache, this`filesCache, this`dirsCache, this`childrenCache, this`sizeCache
      ensures Valid()
    {
      hide BuffersOk, FenceOk, BlobsOk, NamespaceCachesOk, SizesOk, View, Forget, GoodFiles, SubSizes;
      SizesForgetTwo(c, Contents(), sizeCache, sizes, head, source, dest);
      InvalidateNamespace(source);
      InvalidateNamespace(dest);
      NoCaches(index.Keys);
    }

    method Rename(fromDir: Path, fromName: Name, toDir: Path, toName: Name, failing: set<Path>) returns (r: Reply)
      requires Valid()
      requires RenameInScope(Contents(), fromDir + [fromName], toDir + [toName]) && OrdinaryName(toName)
      modifies this
      ensures CoreOk() && (Valid() <==> old(KeepsCaches(OpRename(fromDir, fromName, toDir, toName, failing))))
      ensures RenameSpec(old(Contents()), Contents(), fromDir, fromName, toDir, toName, failing, r)
      ensures r == MovedOk && fromDir + [fromName] in old(Contents()) ==>
                Contents() == MoveOutcome(old(Contents()), fromDir + [fromName], toDir + [toName],
                                          toDir + [toName] in old(dirtyBuffers))
      ensures !Valid() ==> r == Err(ServerFault, None)
      // When it stops after clean rows only, the cache still lists the rows as they were before.
      ensures forall bad | old(DirectoryMove(OpRename(fromDir, fromName, toDir, toName, failing)) &&
                               Stops(fromDir + [fromName], toDir + [toName], failing, bad)) &&
                           Earlier(Under(old(index.Keys), fromDir + [fromName]), bad) * old(dirtyBuffers) == {} ::
                filesCache == Some(old(index.Keys)) && r == Err(ServerFault, None) &&
                IsStoppedMove(old(Contents()), Contents(), fromDir + [fromName], toDir + [toName], bad)
      ensures RowsKept(old(index), index, OpRename(fromDir, fromName, toDir, toName, failing))
    {
      hide BuffersOk, FenceOk, BlobsOk, NamespaceCachesOk, SizesOk, View, Trackable, Forget, GoodFiles, IsMove, NameOk,
           RowsKept, RowsOutside, Touches, Dirs;
      ghost var op := OpRename(fromDir, fromName, toDir, toName, failing);
      RowsSame(index, op);
      var source, dest := fromDir + [fromName], toDir + [toName];
      hide StopsIn, StaysRightIn, Earlier, Under, IsStoppedMove, DirectoryRenamed;
      var fromAttr := Stat(fromDir);
      var toAttr := Stat(toDir);
      if fromAttr != Some(DirAttr) || toAttr != Some(DirAttr) {
        return Err(NotDir, fromAttr);
      }
      if !NameOk(fromName) || !NameOk(toName) {
        return Err(NameTooLong, fromAttr);
      }
      var attr := Stat(source);
      if attr.None? {
        return Err(NoEnt, fromAttr);
      }
      if attr.value == DirAttr {
        assert sizeCache == old(sizeCache);
        r := RenameDirectory(source, toDir, toName, failing);
      } else {
        if Trackable(dest) {
          if dest in index {
            assert index.Keys + {dest} == index.Keys;
          } else {
            FreshTarget(Contents(), toDir, toName);
          }
        }
        r := RenameFile(source, dest, source !in failing);
      }
      OutsideKept(old(index), index, op);
    }

    /** The request comes to move a directory. */
    predicate DirectoryMove(op: Op)
      reads this
    {
      op.OpRename? && StatOf(Contents(), op.dir) == Some(DirAttr) && StatOf(Contents(), op.toDir) == Some(DirAttr) &&
      NameOk(op.name) && NameOk(op.toName) && StatOf(Contents(), op.dir + [op.name]) == Some(DirAttr)
    }

    /** Exactly the requests after which every cache is right. */
    predicate KeepsCaches(op: Op)
      reads this
    {
      DirectoryMove(op) ==> StaysRight(op.dir + [op.name], op.toDir + [op.toName], op.failing)
    }

    predicate StaysRight(source: Path, dest: Path, failing: set<Path>)
      reads this
    {
      StaysRightIn(Contents(), dirtyBuffers, stageFutures, stageGenerations, dirtyGenerations, sizeCache, head,
                   source, dest, failing)
    }

    /** A directory move, with all the ways it can end. */
    method RenameDirectory(source: Path, toDir: Path, name: Name, failing: set<Path>) returns (r: Reply)
      requires Valid() && source != [] && IsDirectory(Contents(), source) && source !in index
      requires IsDirectory(Contents(), toDir) && StatOf(Contents(), toDir + [name]).None?
      requires !(source <= toDir + [name]) && OrdinaryName(name)
      modifies this
      ensures CoreOk() && RowsOutside(old(index), index, source, toDir + [name])
      ensures Valid() <==> old(StaysRight(source, toDir + [name], failing))
      ensures !Valid() ==> r == Err(ServerFault, None)
      ensures DirectoryRenamed(old(Contents()), Contents(), source, toDir + [name], failing, r)
      ensures forall bad | old(Stops(source, toDir + [name], failing, bad)) ::
                r == Err(ServerFault, None) &&
                IsStoppedMove(old(Contents()), Contents(), source, toDir + [name], bad) &&
                (Earlier(Under(old(index.Keys), source), bad) * old(dirtyBuffers) == {} ==> filesCache == old(filesCache))
    {
      hide BuffersOk, FenceOk, BlobsOk, NamespaceCachesOk, SizesOk, View, Trackable, GoodFiles, IsMove, StatOf,
           AwaitedIn, MoveKeepsCaches, Earlier, Under, IsPartialMove, IsStoppedMove, RowsOutside, StopsIn;
      ghost var c := Contents();
      assert c.Keys == index.Keys;
      ghost var bad;
      r, bad := MoveDirectory(source, toDir, name, failing);
      hide StaysRightIn;
      if bad.None? {
        forall p
          ensures !StopsIn(c.Keys, old(dirtyBuffers), old(stageFutures), old(stageGenerations), old(dirtyGenerations),
                           source, toDir + [name], failing, p)
        {
          assert !old(Stops(source, toDir + [name], failing, p));
        }
        StaysRightNone(c, old(dirtyBuffers), old(stageFutures), old(stageGenerations), old(dirtyGenerations),
                       old(sizeCache), head, source, toDir + [name], failing);
      } else {
        StaysRightIff(c, old(dirtyBuffers), old(stageFutures), old(stageGenerations), old(dirtyGenerations),
                      old(sizeCache), head, source, toDir + [name], failing, bad.value);
      }
    }

    // ---- Shutdown and whole runs ----

    /** `close`: nothing stays outside the index, unless a staging job that it waits for fails. */
    method Close(failing: set<Path>) returns (ok: bool)
      requires Valid()
      modifies this
      ensures Valid() && Contents() == old(Contents())
      ensures ok <==> forall p | p in failing :: !old(Awaited(p))
      ensures ok ==> dirtyBuffers == {} && IndexContent() == Contents()
    {
      hide BuffersOk, FenceOk, BlobsOk, NamespaceCachesOk, SizesOk, GoodFiles, Forget, AwaitedIn, View;
      NoTimers(writeBuffers, dirtyGenerations, stageFutures, stageGenerations, stageTimers, objects);
      AwaitedDirty(dirtyBuffers, stageFutures, stageGenerations, dirtyGenerations);
      stageTimers := {};
      var todo := dirtyBuffers;
      while todo != {}
        invariant Valid() && Contents() == old(Contents())
        invariant todo == dirtyBuffers <= old(dirtyBuffers)
        invariant forall p | p in todo :: Awaited(p) <==> old(Awaited(p))
        invariant forall p | p in failing && old(Awaited(p)) :: p in todo
      {
        var path :| path in todo;
        ok := FlushPath(path, path !in failing);
        if !ok {
          return false;
        }
        todo := todo - {path};
      }
      AllClean(index, writeBuffers, dirtyBuffers, dirtyGenerations);
      ok := true;
    }

    method Serve(op: Op) returns (r: Reply)
      requires Valid() && InScope(Contents(), op)
      modifies this
      ensures CoreOk() && (Valid() <==> old(KeepsCaches(op))) && Step(head, old(Contents()), op, r, Contents())
      ensures !Valid() ==> op.OpRename? && r == Err(ServerFault, None)
      ensures KeepsDurable(old(Contents()), old(IndexContent()), op, r, Contents(), IndexContent())
    {
      hide BuffersOk, FenceOk, BlobsOk, NamespaceCachesOk, SizesOk, View, GoodFiles, StatOf, CommitSpec, RenameSpec,
           WriteSpec, SetattrSpec, CreateSpec, MkdirSpec, RemoveSpec, RmdirSpec, LookupSpec, ReadSpec, ReaddirSpec,
           RenameInScope, RowsKept, KeepsDurable, Touches;
      r := GoneOk;
      RowsSame(index, op);
      match op {
        case OpGetattr(p) => r := Getattr(p);
        case OpSetattr(p, size) => r := Setattr(p, size);
        case OpLookup(d, n) => r := Lookup(d, n);
        case OpRead(p, offset, count) => r := Read(p, offset, count);
        case OpWrite(p, offset, count, data, loopRunning) => r := Write(p, offset, count, data, loopRunning);
        case OpCreate(d, n, guarded) => r := Create(d, n, guarded);
        case OpMkdir(d, n) => r := Mkdir(d, n);
        case OpRemove(d, n) => r := Remove(d, n);
        case OpRmdir(d, n) => r := Rmdir(d, n);
        case OpRename(d, n, td, tn, failing) => r := Rename(d, n, td, tn, failing);
        case OpReaddir(d) => r := Readdir(d);
        case OpCommit(p, offset, count, waitOk) => r := Commit(p, offset, count, waitOk);
        case TimerFires(p) => StartStage(p);
        case StageEnds(p, ok) => FinishStage(p, ok);
        case OrphanEnds(data) => FinishOrphan(data);
      }
      StepKeepsDurable(head, old(index), old(writeBuffers), index, writeBuffers, op, r);
    }

    /** Refinement over whole runs.  Whatever requests arrive, and whenever timers fire and staging
        jobs end, the handler behaves as the plain map does, up to the first request outside the
        modelled scope or a directory rename that leaves a cache wrong. */
    method Run(ops: seq<Op>)
        returns (done: nat, stale: bool, replies: seq<Reply>, ghost states: seq<Files>, ghost indexes: seq<Files>)
      requires Valid()
      modifies this
      ensures CoreOk() && (stale <==> !Valid())
      ensures done <= |ops| && IsRun(head, states, ops[..done], replies)
      ensures IsDurableRun(states, indexes, ops[..done], replies)
      ensures states[0] == old(Contents()) && states[done] == Contents() && indexes[done] == IndexContent()
      ensures stale ==> done > 0 && ops[done - 1].OpRename? && replies[done - 1] == Err(ServerFault, None)
      ensures done < |ops| && !stale ==> !InScope(Contents(), ops[done])
    {
      hide BuffersOk, FenceOk, BlobsOk, NamespaceCachesOk, SizesOk, View, GoodFiles, Step, InScope, KeepsDurable,
           IsDurableRun, IsRun;
      done, stale, replies, states, indexes := 0, false, [], [Contents()], [IndexContent()];
      NoStepsYet(head, Contents(), IndexContent());
      assert ops[..0] == [];
      while done < |ops| && !stale
        invariant CoreOk() && (stale <==> !CachesOk()) && done <= |ops|
        invariant IsRun(head, states, ops[..done], replies) && |states| == |indexes| == done + 1 && |replies| == done
        invariant IsDurableRun(states, indexes, ops[..done], replies)
        invariant states[0] == old(Contents()) && states[done] == Contents() && indexes[done] == IndexContent()
        invariant stale ==> done > 0 && ops[done - 1].OpRename? && replies[done - 1] == Err(ServerFault, None)
        decreases |ops| - done
      {
        var op := ops[done];
        if !InScope(Contents(), op) {
          return;
        }
        stale := !KeepsCaches(op);
        var r := Serve(op);
        BothExtend(head, states, indexes, ops, done, replies, r, Contents(), IndexContent());
        done, replies, states, indexes := done + 1, replies + [r], states + [Contents()], indexes + [IndexContent()];
      }
    }
  }

  /** Two bytes are written, and a COMMIT of the first one is answered OK: the index still has the
      empty file, so both bytes are lost if the machine stops now. */
  method ShortCommitLosesBytes() returns (r: Reply, read: Reply, durable: Bytes)
    ensures r.CommitOk? && read == ReadOk(FileAttr(2), [1, 2], true) && durable == []
  {
    hide BuffersOk, FenceOk, BlobsOk, NamespaceCachesOk, SizesOk, GoodFiles, Overlay, View;
    var p: Path := ["f"];
    var index: map<Path, Oid> := map[p := Oid([])];
    OnlyF(p, index);
    var handler := new Handler(index, {Oid([])}, map[]);
    var w := handler.Write(p, 0, 2, [1, 2], false);
    WriteTwo(p);
    r := handler.Commit(p, 0, 1, true);
    durable := handler.index[p].content;
    read := handler.Read(p, 0, 2);
  }

  /** Directory `s` with files `a` and `b`: a large write to `b` is being staged when the directory is
      renamed to `t`, and the staging job fails.  The reply is an error, `a` has moved, `b` has not, and
      the cache of file names still has both where they were. */
  method StoppedRenameLeavesStaleCache() returns (r: Reply, actual: set<Path>, cached: Option<set<Path>>)
    ensures r == Err(ServerFault, None)
    ensures actual == {["t", "a"], ["s", "b"]} && cached == Some({["s", "a"], ["s", "b"]})
  {
    hide BuffersOk, FenceOk, BlobsOk, NamespaceCachesOk, SizesOk, GoodFiles, Overlay, View, AwaitedIn, RowBefore, Earlier,
         IsPartialMove, Trackable, NameOk, Dirs;
    var a: Path, b: Path := ["s", "a"], ["s", "b"];
    var index: map<Path, Oid> := map[a := Oid([]), b := Oid([])];
    TwoFiles(index);
    var handler := new Handler(index, {Oid([])}, map[]);
    var w := handler.Write(b, 0, STAGE_MIN_BYTES, seq(STAGE_MIN_BYTES, _ => 0), true);
    handler.StartStage(b);
    ghost var c := handler.Contents();
    TwoInScope(c);
    TwoInOrder();
    assert [] + ["s"] == ["s"] && [] + ["t"] == ["t"];
    assert handler.Stops(["s"], ["t"], {b}, b);
    assert handler.DirectoryMove(OpRename([], "s", [], "t", {b}));
    r := handler.Rename([], "s", [], "t", {b});
    actual, cached := handler.index.Keys, handler.filesCache;
    TwoMoved(c, handler.Contents());
  }

  lemma OneLetter(n: Name)
    requires n == "a" || n == "b" || n == "s" || n == "t"
    ensures NameOk(n) && n != ".git" && n != ".trunks" && OrdinaryName(n)
  {
    assert |n| == 1 && n[0] != '.';
  }

  lemma TwoFiles(index: map<Path, Oid>)
    requires index == map[["s", "a"] := Oid([]), ["s", "b"] := Oid([])]
    ensures GoodFiles(index.Keys) && BlobsOk(index, {Oid([])}) && index.Keys == {["s", "a"], ["s", "b"]}
  {
    OneLetter("a");
    OneLetter("b");
    OneLetter("s");
    hide NameOk, OrdinaryName;
    forall p | p in index ensures Allowed(p) && |p| == 2 { LettersAllowed(p); }
    assert forall p, q | p in index.Keys && q in index.Keys :: !Below(p, q);
  }

  lemma LettersAllowed(p: Path)
    requires p != [] && forall i | 0 <= i < |p| :: NameOk(p[i]) && p[i] != ".git" && p[i] != ".trunks" && OrdinaryName(p[i])
    ensures Allowed(p)
  {
  }

  lemma TwoInScope(c: Files)
    requires c.Keys == {["s", "a"], ["s", "b"]}
    ensures StatOf(c, ["s"]) == Some(DirAttr) && StatOf(c, ["t"]).None? && RenameInScope(c, ["s"], ["t"])
    ensures NameOk("s") && NameOk("t") && OrdinaryName("t") && Trackable(["t"])
    ensures Under(c.Keys, ["s"]) == {["s", "a"], ["s", "b"]}
  {
    OneLetter("s");
    OneLetter("t");
    hide NameOk, OrdinaryName;
    LettersAllowed(["t"]);
    var a, b: Path := ["s", "a"], ["s", "b"];
    assert ["s"] < a && ["s"] < b && |a| == |b| == 2;
    DirectoryOf(c, ["s"], a);
    assert ["t"][0] != a[0] && b[0] == a[0] by { assert "t"[0] == 't' && "s"[0] == 's'; }
    NothingAt(c, ["t"]);
  }

  lemma TwoInOrder()
    ensures Earlier({["s", "a"], ["s", "b"]}, ["s", "b"]) == {["s", "a"]} && ["s", "a"] != ["s", "b"]
  {
    var a, b: Path := ["s", "a"], ["s", "b"];
    JoinTwo("s", "a");
    JoinTwo("s", "b");
    var x, y := Join(a), Join(b);
    assert x == "s/a" && y == "s/b" && x[2] == 'a' && y[2] == 'b';
    assert LexLeq(x[2..], y[2..]);
    assert x[1..][1..] == x[2..] && y[1..][1..] == y[2..];
    assert LexLeq(x[1..], y[1..]);
    assert LexLeq(x, y);
    hide LexLeq, Join;
  }

  lemma JoinTwo(m: Name, n: Name)
    ensures Join([m, n]) == m + "/" + n
  {
    assert [m, n][1..] == [n];
  }

  lemma TwoMoved(c: Files, c': Files)
    requires c.Keys == {["s", "a"], ["s", "b"]} && IsStoppedMove(c, c', ["s"], ["t"], ["s", "b"])
    ensures c'.Keys == {["t", "a"], ["s", "b"]}
  {
    var a, b: Path := ["s", "a"], ["s", "b"];
    TwoInOrder();
    assert ["s"] < a && ["s"] < b;
    assert Under(c.Keys, ["s"]) == {a, b};
    assert MovedPath(["s"], ["t"], a) == ["t", "a"];
    assert MovedPaths({a}, ["s"], ["t"]) == {["t", "a"]};
    assert c.Keys - {a} == {b};
  }

  lemma OnlyF(p: Path, index: map<Path, Oid>)
    requires p == ["f"] && index == map[p := Oid([])]
    ensures GoodFiles(index.Keys) && BlobsOk(index, {Oid([])}) && View(index, map[]) == map[p := []]
  {
    assert Trackable(p) && Ordinary(p) by { assert "f"[0] == 'f' && ".git"[0] == '.' && ".trunks"[0] == '.'; }
    assert !Below(p, p);
    assert index.Keys == {p};
  }

  lemma WriteTwo(p: Path)
    requires p != []
    ensures var c: Files := map[p := []];
            WriteSpec(c, p, 0, 2, [1, 2]).files == map[p := [1, 2]] && Overlay([], 0, [1, 2]) == [1, 2]
  {
    assert Overlay([], 0, [1, 2]) == [1, 2];
  }

  /** The bytearray work of WRITE: fill the gap with zeros, make room, overwrite. */
  method Splice(buffer: Bytes, offset: nat, data: Bytes) returns (merged: Bytes)
    ensures merged == Overlay(buffer, offset, data)
  {
    merged := buffer;
    if offset > |merged| {
      merged := merged + seq(offset - |merged|, _ => 0);
    }
    var end := offset + |data|;
    if end > |merged| {
      merged := merged + seq(end - |merged|, _ => 0);
    }
    merged := merged[..offset] + data + merged[end..];
  }

  /** The byte work of SETATTR size. */
  method CutOrExtend(data: Bytes, size: nat) returns (resized: Bytes)
    ensures resized == Resize(data, size)
  {
    resized := data;
    if size < |data| {
      resized := data[..size];
    } else if size > |data| {
      resized := data + seq(size - |data|, _ => 0);
    }
  }

  // ---- Index rows in order ----

  function Joins(files: set<Path>): set<string> { set p | p in files :: Join(p) }

  lemma SplitsBack(files: set<Path>, p: Path)
    requires GoodFiles(files) && p in files
    ensures Split(Join(p)) == p
  {
    assert Allowed(p);
    assert forall n | n in p :: NoSlash(n);
    SplitJoin(p);
  }

  /** `select ... order by path`. */
  method OrderedRows(files: set<Path>) returns (entries: seq<Path>)
    requires GoodFiles(files)
    ensures Lists(entries, files)
  {
    hide GoodFiles, Sorted, Split, Lists, LexLeq;
    var rows := SortNames(Joins(files));
    entries := [];
    for i := 0 to |rows|
      invariant |entries| == i && forall k | 0 <= k < i :: entries[k] == Split(rows[k])
    {
      entries := entries + [Split(rows[i])];
    }
    RowsInOrder(files, entries);
  }

  lemma RowsInOrder(files: set<Path>, entries: seq<Path>)
    requires GoodFiles(files) && |entries| == |Sorted(Joins(files))|
    requires forall k | 0 <= k < |entries| :: entries[k] == Split(Sorted(Joins(files))[k])
    ensures Lists(entries, files)
  {
    var rows := Sorted(Joins(files));
    SortedIsSorted(Joins(files));
    hide LexLeq, Sorted, GoodFiles, Split, Join;
    forall k | 0 <= k < |rows| ensures entries[k] in files && Join(entries[k]) == rows[k] {
      assert rows[k] in rows;
      var p :| p in files && Join(p) == rows[k];
      SplitsBack(files, p);
    }
    forall p | p in files ensures p in entries {
      SplitsBack(files, p);
      assert Join(p) in rows;
      var k :| 0 <= k < |rows| && rows[k] == Join(p);
      assert entries[k] == p;
    }
  }

  // ---- The namespace loop, one path component at a time ----

  ghost function Seen(found: seq<Path>, i: nat): set<Path>
    requires i <= |found|
  {
    set p | p in found[..i]
  }

  lemma SeenStep(found: seq<Path>, all: set<Path>, i: nat)
    requires Lists(found, all) && i < |found|
    ensures found[i] in all && found[i] !in Seen(found, i) && Seen(found, i) <= all
    ensures Seen(found, i + 1) == Seen(found, i) + {found[i]}
  {
    PrefixStep(found, i);
    assert found[i] in found;
  }

  lemma SeenAll(found: seq<Path>, all: set<Path>)
    requires Lists(found, all)
    ensures Seen(found, |found|) == all && Seen(found, 0) == {}
  {
    assert found[..|found|] == found;
  }

  lemma SeenEarlier(found: seq<Path>, all: set<Path>, i: nat)
    requires Lists(found, all) && i < |found|
    ensures Seen(found, i) == Earlier(all, found[i])
  {
    hide LexLeq, Join;
    forall p ensures p in Seen(found, i) <==> p in Earlier(all, found[i]) {
      if p in all {
        assert p in found;
        var k :| 0 <= k < |found| && found[k] == p;
        if k < i {
          assert found[..i][k] == p;
        } else {
          NotBefore(found, i, k);
          assert forall j | 0 <= j < i :: found[..i][j] == found[j];
        }
      }
    }
  }

  lemma NotBefore(found: seq<Path>, i: nat, k: nat)
    requires i <= k < |found| && (i < k ==> RowBefore(found[i], found[k]))
    ensures !RowBefore(found[k], found[i])
  {
    hide LexLeq, Join;
    if LexLeq(Join(found[k]), Join(found[i])) && LexLeq(Join(found[i]), Join(found[k])) {
      LexAntisym(Join(found[k]), Join(found[i]));
    }
  }

  lemma MayMove(c: Files, gone: set<Path>, source: Path, dest: Path)
    requires GoodFiles(c.Keys) && gone <= Under(c.Keys, source) && source != [] && !(source <= dest)
    requires forall q | q in c :: !(dest <= q)
    ensures CanMove(c, gone, source, dest)
  {
  }

  ghost predicate Lists(entries: seq<Path>, files: set<Path>) {
    (forall p :: p in entries <==> p in files) &&
    forall i, j | 0 <= i < j < |entries| :: entries[i] != entries[j] && RowBefore(entries[i], entries[j])
  }

  /** Directories after handling `done` and the first `j` components of `parts`. */
  ghost predicate PartialDir(done: set<Path>, parts: Path, j: nat, d: Path) {
    d in Dirs(done) || (d < parts && |d| <= j)
  }

  /** The child that the first `j` components of `parts` add to directory `d`, if any. */
  ghost function PartName(parts: Path, j: nat, d: Path): set<Name> {
    if d < parts && |d| < j then {parts[|d|]} else {}
  }

  ghost predicate NamespaceAt(done: set<Path>, parts: Path, j: nat, dirs: set<Path>,
                              children: map<Path, set<Name>>)
  {
    (forall d :: d in dirs <==> PartialDir(done, parts, j, d)) &&
    (forall d :: d in children <==> d in dirs) &&
    forall d | d in dirs :: children[d] == Children(done, d) + PartName(parts, j, d)
  }

  /** The outer loop of `_ensure_namespace`. */
  method BuildNamespace(entries: seq<Path>, ghost all: set<Path>)
      returns (files: set<Path>, dirs: set<Path>, children: map<Path, set<Name>>)
    requires Lists(entries, all)
    ensures files == all && dirs == Dirs(all) && children == ChildrenMap(all)
  {
    hide Lists, Seen, Dirs, NamespaceFor;
    files := set p | p in entries;
    dirs := {[]};
    children := map[[] := {}];
    SeenAll(entries, all);
    NamespaceEmpty();
    for i := 0 to |entries|
      invariant NamespaceFor(Seen(entries, i), dirs, children)
    {
      SeenStep(entries, all, i);
      dirs, children := AddEntry(Seen(entries, i), entries[i], dirs, children);
    }
    ListsAll(entries, all);
    NamespaceDone(all, dirs, children);
  }

  /** The directories of a file set and the names below each. */
  ghost predicate NamespaceFor(files: set<Path>, dirs: set<Path>, children: map<Path, set<Name>>) {
    dirs == Dirs(files) && children.Keys == dirs && forall d | d in dirs :: children[d] == Children(files, d)
  }

  lemma NamespaceEmpty()
    ensures NamespaceFor({}, {[]}, map[[] := {}])
  {
  }

  lemma NamespaceDone(files: set<Path>, dirs: set<Path>, children: map<Path, set<Name>>)
    requires NamespaceFor(files, dirs, children)
    ensures dirs == Dirs(files) && children == ChildrenMap(files)
  {
  }

  lemma ListsAll(entries: seq<Path>, all: set<Path>)
    requires Lists(entries, all)
    ensures (set p | p in entries) == all
  {
    hide RowBefore;
  }

  /** The inner loop of `_ensure_namespace`: one index entry, component by component. */
  method AddEntry(ghost done: set<Path>, parts: Path, dirs0: set<Path>, children0: map<Path, set<Name>>)
      returns (dirs: set<Path>, children: map<Path, set<Name>>)
    requires NamespaceFor(done, dirs0, children0)
    ensures NamespaceFor(done + {parts}, dirs, children)
  {
    dirs, children := dirs0, children0;
    var parent: Path := [];
    NamespaceBegin(done, parts, dirs, children);
    for j := 0 to |parts|
      invariant j < |parts| ==> parent == parts[..j]
      invariant NamespaceAt(done, parts, j, dirs, children)
    {
      var current := parts[..j + 1];
      NamespaceStep(done, parts, j, dirs, children);
      children := children[parent := (if parent in children then children[parent] else {}) + {parts[j]}];
      if j < |parts| - 1 {
        dirs := dirs + {current};
        children := children[current := if current in children then children[current] else {}];
        parent := current;
      }
    }
    NamespaceEnd(done, parts, dirs, children);
  }

  lemma NamespaceBegin(done: set<Path>, parts: Path, dirs: set<Path>, children: map<Path, set<Name>>)
    requires dirs == Dirs(done) && children.Keys == dirs
    requires forall d | d in dirs :: children[d] == Children(done, d)
    ensures NamespaceAt(done, parts, 0, dirs, children)
  {
    DirsMember(done, []);
  }

  lemma NewChild(parts: Path, j: nat, d: Path)
    requires j < |parts|
    ensures PartName(parts, j + 1, d) == PartName(parts, j, d) + if d == parts[..j] then {parts[j]} else {}
  {
    if d < parts && |d| == j { assert d == parts[..j]; }
  }

  lemma NewDir(done: set<Path>, parts: Path, j: nat, d: Path)
    requires j < |parts|
    ensures PartialDir(done, parts, j + 1, d) <==>
            PartialDir(done, parts, j, d) || (d == parts[..j + 1] && j + 1 < |parts|)
    ensures PartialDir(done, parts, j, parts[..j])
    ensures d !in Dirs(done) ==> Children(done, d) == {}
  {
    DirsMember(done, d);
    assert parts[..j] < parts;
    if d < parts && |d| == j + 1 { assert d == parts[..j + 1]; }
  }

  lemma FreshDir(done: set<Path>, parts: Path, j: nat)
    requires j < |parts|
    ensures var cur := parts[..j + 1]; !PartialDir(done, parts, j, cur) ==> cur !in Dirs(done)
    ensures PartName(parts, j + 1, parts[..j + 1]) == {}
  {
  }

  lemma NamespaceStep(done: set<Path>, parts: Path, j: nat, dirs: set<Path>, children: map<Path, set<Name>>)
    requires j < |parts| && NamespaceAt(done, parts, j, dirs, children)
    ensures parts[..j] in children
    ensures var mid := children[parts[..j] := children[parts[..j]] + {parts[j]}];
            var cur := parts[..j + 1];
            if j + 1 < |parts|
            then NamespaceAt(done, parts, j + 1, dirs + {cur}, mid[cur := if cur in mid then mid[cur] else {}])
            else NamespaceAt(done, parts, j + 1, dirs, mid)
  {
    hide PartialDir, PartName, Children, Dirs;
    var cur := parts[..j + 1];
    NewDir(done, parts, j, cur);
    FreshDir(done, parts, j);
    forall d ensures PartialDir(done, parts, j + 1, d) <==>
                     PartialDir(done, parts, j, d) || (d == cur && j + 1 < |parts|) {
      NewDir(done, parts, j, d);
    }
    forall d ensures PartName(parts, j + 1, d) ==
                     PartName(parts, j, d) + if d == parts[..j] then {parts[j]} else {} {
      NewChild(parts, j, d);
    }
    var mid := children[parts[..j] := children[parts[..j]] + {parts[j]}];
    forall d | d in dirs ensures mid[d] == Children(done, d) + PartName(parts, j + 1, d) {
      if d == parts[..j] {
        assert mid[d] == Children(done, d) + PartName(parts, j, d) + {parts[j]};
      }
    }
  }

  lemma NamespaceEnd(done: set<Path>, parts: Path, dirs: set<Path>, children: map<Path, set<Name>>)
    requires NamespaceAt(done, parts, |parts|, dirs, children)
    ensures dirs == Dirs(done + {parts}) && children.Keys == dirs
    ensures forall d | d in dirs :: children[d] == Children(done + {parts}, d)
  {
    forall d ensures d in dirs <==> d in Dirs(done + {parts}) {
      DirsMember(done, d);
      DirsMember(done + {parts}, d);
    }
    forall d ensures Children(done + {parts}, d) == Children(done, d) + PartName(parts, |parts|, d) {
    }
  }
}
