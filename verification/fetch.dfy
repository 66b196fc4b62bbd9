/** Fetching the closure of a ref: the depth-first download of `Fetch` and the breadth-first one
    of the remote helper. */
module Fetch {
  import opened ObjectGraph

  type RefName = string

  /** The ids an object refers to, in the order they are visited. */
  type Kids = ObjId -> seq<ObjId>

  ghost function EdgesOf(kids: Kids): Edges<ObjId> { o => set k | k in kids(o) }

  ghost predicate ClosedExcept(e: Edges<ObjId>, store: set<ObjId>, open_: set<ObjId>) {
    forall o | o in store && o !in open_ :: e(o) <= store
  }

  /** Everything reachable is somewhere. */
  ghost predicate Available(e: Edges<ObjId>, local: set<ObjId>, backend: set<ObjId>, o: ObjId) {
    forall b :: Reaches(e, o, b) ==> b in local || b in backend
  }

  class Repository {
    var objects: set<ObjId>
    var refs: map<RefName, ObjId>
    var backendRefs: map<RefName, ObjId>
    var seen: set<ObjId>
    const kids: Kids
    const backend: set<ObjId>

    constructor (kids: Kids, backend: set<ObjId>)
      ensures objects == {} && seen == {} && refs == map[] && backendRefs == map[]
      ensures this.kids == kids && this.backend == backend
    {
      objects, refs, backendRefs, seen, this.kids, this.backend := {}, map[], map[], {}, kids, backend;
    }

    /** `_download_closure`: false stands for a missing object.  Objects are stored before their
        children; `open_` are the ones whose children are still being fetched further up. */
    method DownloadClosure(oid: ObjId, ghost open_: set<ObjId>) returns (ok: bool)
      requires seen <= objects && ClosedExcept(EdgesOf(kids), objects, open_)
      modifies this`objects, this`seen
      ensures old(objects) <= objects && forall o | o in objects - old(objects) :: o in backend && Reaches(EdgesOf(kids), oid, o)
      ensures ok ==> seen <= objects && oid in objects && ClosedExcept(EdgesOf(kids), objects, open_)
      ensures !ok ==> !Available(EdgesOf(kids), old(objects), backend, oid)
      ensures oid in old(objects) ==> ok && objects == old(objects)
      decreases backend - objects
    {
      ghost var e := EdgesOf(kids);
      ReachesSelf(e, oid);
      if oid in seen {
        return true;
      }
      seen := seen + {oid};
      if oid in objects {
        return true;
      }
      if oid !in backend {
        return false;
      }
      objects := objects + {oid};
      for i := 0 to |kids(oid)|
        invariant seen <= objects && ClosedExcept(e, objects, open_ + {oid})
        invariant old(objects) + {oid} <= objects
        invariant forall o | o in objects - old(objects) :: o in backend && Reaches(e, oid, o)
        invariant forall k | k in kids(oid)[..i] :: k in objects
      {
        var k := kids(oid)[i];
        assert k in e(oid);
        label Before:
        ok := DownloadClosure(k, open_ + {oid});
        forall o | o in objects - old@Before(objects) ensures Reaches(e, oid, o) { ReachesEdge(e, oid, k, o); }
        if !ok {
          MissingUp(e, old(objects), old@Before(objects), backend, oid, k);
          return;
        }
        assert kids(oid)[..i + 1] == kids(oid)[..i] + [k];
      }
      assert kids(oid)[..|kids(oid)|] == kids(oid);
      ok := true;
    }

    /** One ref of `Fetch.run`.  From a closed store the download succeeds exactly when every
        reachable object exists, and it leaves the store closed with the whole closure in it. */
    method FetchRef(name: RefName, oid: ObjId) returns (ok: bool)
      requires Closed(EdgesOf(kids), objects)
      modifies this
      ensures ok <==> Available(EdgesOf(kids), old(objects), backend, oid)
      ensures old(objects) <= objects <= old(objects) + backend
      ensures ok ==> Closed(EdgesOf(kids), objects) && Has(EdgesOf(kids), objects, oid)
      ensures ok ==> refs == old(refs)[name := oid] && backendRefs == old(backendRefs)[name := oid]
      ensures !ok ==> refs == old(refs) && backendRefs == old(backendRefs)
      ensures forall o | o in objects - old(objects) :: Reaches(EdgesOf(kids), oid, o)
    {
      seen := {};
      ok := DownloadClosure(oid, {});
      if ok {
        ClosedHas(EdgesOf(kids), objects, oid);
        refs := refs[name := oid];
        backendRefs := backendRefs[name := oid];
      }
    }

    /** `Fetch.run`: every listed ref in turn. */
    method Run(listed: seq<(RefName, ObjId)>) returns (ok: bool)
      requires Closed(EdgesOf(kids), objects)
      modifies this
      ensures old(objects) <= objects <= old(objects) + backend
      ensures (forall i | 0 <= i < |listed| :: Available(EdgesOf(kids), old(objects), backend, listed[i].1)) ==> ok
      ensures ok ==> Closed(EdgesOf(kids), objects)
      ensures ok ==> forall i | 0 <= i < |listed| :: Has(EdgesOf(kids), objects, listed[i].1)
      ensures ok ==> refs == Overwrite(old(refs), listed) && backendRefs == Overwrite(old(backendRefs), listed)
    {
      for i := 0 to |listed|
        invariant Closed(EdgesOf(kids), objects) && old(objects) <= objects <= old(objects) + backend
        invariant forall j | 0 <= j < i :: Has(EdgesOf(kids), objects, listed[j].1)
        invariant refs == Overwrite(old(refs), listed[..i])
        invariant backendRefs == Overwrite(old(backendRefs), listed[..i])
      {
        ok := FetchRef(listed[i].0, listed[i].1);
        if !ok {
          return;
        }
        assert listed[..i + 1] == listed[..i] + [listed[i]];
      }
      assert listed[..|listed|] == listed;
      ok := true;
    }

    /** The helper's `_fetch_closure`: it descends through objects it already has, so it needs no
        closed store; nothing is installed unless the whole closure was found. */
    method FetchClosure(head: ObjId) returns (ok: bool)
      modifies this`objects
      ensures ok <==> Available(EdgesOf(kids), old(objects), backend, head)
      ensures ok ==> Has(EdgesOf(kids), objects, head)
      ensures old(objects) <= objects <= old(objects) + backend
      ensures forall o | o in objects - old(objects) :: Reaches(EdgesOf(kids), head, o)
      ensures !ok ==> objects == old(objects)
    {
      ghost var e := EdgesOf(kids);
      var done, queue, toInstall := {}, [head], {};
      ReachesSelf(e, head);
      while queue != []
        invariant head in done || head in queue
        invariant forall o | o in done :: o in objects || o in backend
        invariant forall o, k | o in done && k in e(o) :: k in done || k in queue
        invariant forall o | o in done || o in queue :: Reaches(e, head, o)
        invariant toInstall == done - objects
        invariant objects == old(objects)
        decreases (objects + backend) - done, |queue|
      {
        var oid := queue[0];
        ghost var was := queue;
        queue := queue[1..];
        assert was == [oid] + queue;
        if oid !in done {
          if oid !in objects && oid !in backend {
            return false;
          }
          done := done + {oid};
          if oid !in objects {
            toInstall := toInstall + {oid};
          }
          forall k | k in kids(oid) ensures Reaches(e, head, k) {
            ReachesSelf(e, k);
            ReachesEdge(e, oid, k, k);
            ReachesTrans(e, head, oid, k);
          }
          queue := queue + kids(oid);
        }
      }
      ClosedHas(e, done, head);
      objects := objects + toInstall;
      ok := true;
    }
  }

  ghost function Overwrite(refs: map<RefName, ObjId>, listed: seq<(RefName, ObjId)>): map<RefName, ObjId> {
    if listed == [] then refs
    else Overwrite(refs, listed[..|listed| - 1])[listed[|listed| - 1].0 := listed[|listed| - 1].1]
  }

  /** What is missing below a child is missing below the parent. */
  lemma MissingUp(e: Edges<ObjId>, local: set<ObjId>, more: set<ObjId>, backend: set<ObjId>, oid: ObjId, k: ObjId)
    requires k in e(oid) && local <= more && !Available(e, more, backend, k)
    ensures !Available(e, local, backend, oid)
  {
    var b :| Reaches(e, k, b) && b !in more && b !in backend;
    ReachesEdge(e, oid, k, b);
  }

  /** Stopping at present objects is only sound on a closed store: with object 1 present and its child
      2 only in the backend, the download of 1 reports success and fetches nothing. */
  method OpenStoreMisses() returns (ok: bool, local: set<ObjId>, wanted: seq<ObjId>)
    ensures ok && local == {1} && wanted == [2]
  {
    var repo := new Repository(o => if o == 1 then [2] else [], {2});
    repo.objects := {1};
    ok := repo.DownloadClosure(1, {1});
    local, wanted := repo.objects, repo.kids(1);
  }

  /** So the closure of 1 is available, but not local. */
  lemma OpenStoreLacksClosure(kids: Kids)
    requires kids(1) == [2] && kids(2) == []
    ensures !Closed(EdgesOf(kids), {1}) && !Has(EdgesOf(kids), {1}, 1) && Available(EdgesOf(kids), {1}, {2}, 1)
  {
    var e := EdgesOf(kids);
    assert 2 in e(1);
    ReachesSelf(e, 2);
    ReachesEdge(e, 1, 2, 2);
    forall b | Reaches(e, 1, b) ensures b == 1 || b == 2 {
      ReachesCases(e, 1, b);
      if b != 1 {
        ReachesCases(e, 2, b);
      }
    }
  }
}
