/** Git-shaped objects as a graph.

    An object id fixes the object's bytes, hence the ids those bytes refer to; so one pair of
    functions describes every object that any client or store can ever hold. */
module ObjectGraph {

  type ObjId = nat
  type Edges<!T> = T -> set<T>

  /** `refs(o)`: every id in the object (entries of a tree, tree and parents of a commit).
      `parents(o)`: the parents of a commit, nothing for other kinds. */
  datatype World = World(refs: Edges<ObjId>, parents: Edges<ObjId>)

  ghost predicate IsWalk<T(!new)>(e: Edges<T>, p: seq<T>) {
    |p| > 0 && forall i | 0 <= i < |p| - 1 :: p[i + 1] in e(p[i])
  }

  ghost predicate WalkFromTo<T(!new)>(e: Edges<T>, p: seq<T>, a: T, b: T) {
    IsWalk(e, p) && p[0] == a && p[|p| - 1] == b
  }

  /** b can be reached from a in zero or more steps. */
  ghost predicate Reaches<T(!new)>(e: Edges<T>, a: T, b: T) {
    exists p :: WalkFromTo(e, p, a, b)
  }

  /** The whole closure of `o` is in the store. */
  ghost predicate Has<T(!new)>(e: Edges<T>, store: set<T>, o: T) {
    forall b :: Reaches(e, o, b) ==> b in store
  }

  /** Nothing in the store refers outside the store. */
  ghost predicate Closed<T(!new)>(e: Edges<T>, store: set<T>) {
    forall o | o in store :: e(o) <= store
  }

  lemma ReachesSelf<T(!new)>(e: Edges<T>, a: T)
    ensures Reaches(e, a, a)
  {
    assert WalkFromTo(e, [a], a, a);
  }

  lemma ReachesEdge<T(!new)>(e: Edges<T>, a: T, b: T, c: T)
    requires b in e(a) && Reaches(e, b, c)
    ensures Reaches(e, a, c)
  {
    var p :| WalkFromTo(e, p, b, c);
    var q := [a] + p;
    forall i | 0 <= i < |q| - 1 ensures q[i + 1] in e(q[i]) {
      assert i > 0 ==> q[i] == p[i - 1];
    }
    assert WalkFromTo(e, q, a, c);
  }

  lemma ReachesTrans<T(!new)>(e: Edges<T>, a: T, b: T, c: T)
    requires Reaches(e, a, b) && Reaches(e, b, c)
    ensures Reaches(e, a, c)
  {
    var p :| WalkFromTo(e, p, a, b);
    ReachesAlong(e, p, b, c);
  }

  lemma {:induction false} ReachesAlong<T(!new)>(e: Edges<T>, p: seq<T>, b: T, c: T)
    requires IsWalk(e, p) && p[|p| - 1] == b && Reaches(e, b, c)
    ensures Reaches(e, p[0], c)
  {
    if |p| > 1 {
      forall i | 0 <= i < |p[1..]| - 1 ensures p[1..][i + 1] in e(p[1..][i]) { }
      ReachesAlong(e, p[1..], b, c);
      ReachesEdge(e, p[0], p[1], c);
    }
  }

  /** A first step, or nothing. */
  lemma ReachesCases<T(!new)>(e: Edges<T>, a: T, c: T)
    requires Reaches(e, a, c)
    ensures a == c || exists b :: b in e(a) && Reaches(e, b, c)
  {
    var p :| WalkFromTo(e, p, a, c);
    if |p| > 1 {
      forall i | 0 <= i < |p[1..]| - 1 ensures p[1..][i + 1] in e(p[1..][i]) { }
      assert WalkFromTo(e, p[1..], p[1], c);
      assert p[1] in e(a);
    }
  }

  lemma {:induction false} ClosedAlong<T(!new)>(e: Edges<T>, store: set<T>, p: seq<T>)
    requires Closed(e, store) && IsWalk(e, p) && p[0] in store
    ensures p[|p| - 1] in store
  {
    if |p| > 1 {
      forall i | 0 <= i < |p[1..]| - 1 ensures p[1..][i + 1] in e(p[1..][i]) { }
      ClosedAlong(e, store, p[1..]);
    }
  }

  /** A closed store has the closure of everything in it. */
  lemma ClosedHas<T(!new)>(e: Edges<T>, store: set<T>, o: T)
    requires Closed(e, store) && o in store
    ensures Has(e, store, o)
  {
    forall b | Reaches(e, o, b) ensures b in store {
      var p :| WalkFromTo(e, p, o, b);
      ClosedAlong(e, store, p);
    }
  }

  lemma HasMore<T(!new)>(e: Edges<T>, store: set<T>, more: set<T>, o: T)
    requires Has(e, store, o) && store <= more
    ensures Has(e, more, o)
  {
  }

  /** Having a closure, unfolded one step. */
  lemma HasStep<T(!new)>(e: Edges<T>, store: set<T>, o: T)
    ensures Has(e, store, o) <==> o in store && forall c | c in e(o) :: Has(e, store, c)
  {
    ReachesSelf(e, o);
    if Has(e, store, o) {
      forall c, b | c in e(o) && Reaches(e, c, b) ensures b in store {
        ReachesEdge(e, o, c, b);
      }
    }
    if o in store && forall c | c in e(o) :: Has(e, store, c) {
      forall b | Reaches(e, o, b) ensures b in store {
        ReachesCases(e, o, b);
      }
    }
  }
}
