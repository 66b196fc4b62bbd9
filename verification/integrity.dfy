/** Checking a repository's object graph and removing what no ref reaches. */
module Integrity {
  import opened Core
  import opened Paths
  import opened NfsSpec
  import opened Objects
  import opened ObjectGraph
  import opened TreeStore
  import opened TreeFlatten

  /** The text parser for commit payloads: tree id and parent ids. */
  type CommitParser = Data -> Option<(Raw, seq<Raw>)>

  type Store = map<Raw, Data>

  datatype Problem = BadRef(name: string) | Missing(oid: Raw) | Corrupt(oid: Raw) | Mismatch(oid: Raw)

  function Oids(entries: seq<TreeEntry>): seq<Raw> {
    if entries == [] then [] else [entries[0].oid] + Oids(entries[1..])
  }

  /** The ids an object refers to; None when it does not parse. */
  function Links(pc: CommitParser, data: Data): Option<seq<Raw>> {
    match ParseCanonicalObject(data)
    case None => None
    case Some((kind, payload)) =>
      if kind == "commit" then
        (match pc(payload) case None => None case Some((tree, parents)) => Some([tree] + parents))
      else if kind == "tree" then
        (match ParseTree(payload) case None => None case Some(entries) => Some(Oids(entries)))
      else Some([])
  }

  predicate NameFine(n: Name) { '/' !in n && '\\' !in n && Trackable([n]) }

  /** How many tree entries pass the name check before the first that does not. */
  function FineNames(entries: seq<TreeEntry>): (n: nat)
    ensures n <= |entries|
  {
    if entries == [] || !NameFine(entries[0].name) then 0 else 1 + FineNames(entries[1..])
  }

  function EntriesIn(data: Data): seq<TreeEntry> {
    match ParseCanonicalObject(data)
    case None => []
    case Some((kind, payload)) =>
      if kind != "tree" then [] else match ParseTree(payload) case None => [] case Some(entries) => entries
  }

  predicate NamesFine(data: Data) { FineNames(EntriesIn(data)) == |EntriesIn(data)| }

  /** The object is there, is what its id says, parses, and names its children properly. */
  ghost predicate Sound(h: Hash, pc: CommitParser, objects: Store, o: Raw) {
    o in objects && Links(pc, objects[o]).Some? && h(objects[o]) == o && NamesFine(objects[o])
  }

  ghost function EdgeOf(pc: CommitParser, objects: Store): Edges<Raw> {
    o => if o in objects && Links(pc, objects[o]).Some? then set l | l in Links(pc, objects[o]).value else {}
  }

  ghost predicate Rooted(refs: map<string, Option<Raw>>, o: Raw) { exists n :: n in refs && refs[n] == Some(o) }

  ghost predicate Reachable(pc: CommitParser, objects: Store, refs: map<string, Option<Raw>>, o: Raw) {
    exists r :: Rooted(refs, r) && Reaches(EdgeOf(pc, objects), r, o)
  }

  ghost predicate RefsValid(refs: map<string, Option<Raw>>) { forall n | n in refs :: refs[n].Some? }

  /** Every ref is an id and everything it reaches is sound. */
  ghost predicate Intact(h: Hash, pc: CommitParser, objects: Store, refs: map<string, Option<Raw>>) {
    RefsValid(refs) && forall o | Reachable(pc, objects, refs, o) :: Sound(h, pc, objects, o)
  }

  // ---- Facts for the worklist loops ----

  lemma {:induction false} OidsAt(entries: seq<TreeEntry>, i: nat)
    requires i < |entries|
    ensures |Oids(entries)| == |entries| && Oids(entries)[i] == entries[i].oid
  {
    if |entries| > 1 { OidsAt(entries[1..], if i > 0 then i - 1 else 0); }
  }

  lemma {:induction false} OidsSome(entries: seq<TreeEntry>, k: nat)
    requires k <= |entries|
    ensures forall o | o in Oids(entries[..k]) :: o in Oids(entries)
  {
    if k > 0 {
      OidsSome(entries[1..], k - 1);
      assert entries[..k][1..] == entries[1..][..k - 1];
    }
  }

  lemma TreeLinks(pc: CommitParser, data: Data)
    ensures Links(pc, data).Some? && EntriesIn(data) != [] ==> Links(pc, data).value == Oids(EntriesIn(data))
  {
  }

  lemma ReachableRoot(pc: CommitParser, objects: Store, refs: map<string, Option<Raw>>, o: Raw)
    requires Rooted(refs, o)
    ensures Reachable(pc, objects, refs, o)
  {
    ReachesSelf(EdgeOf(pc, objects), o);
  }

  lemma ReachableLink(pc: CommitParser, objects: Store, refs: map<string, Option<Raw>>, o: Raw, l: Raw)
    requires Reachable(pc, objects, refs, o) && l in EdgeOf(pc, objects)(o)
    ensures Reachable(pc, objects, refs, l)
  {
    var e := EdgeOf(pc, objects);
    var r :| Rooted(refs, r) && Reaches(e, r, o);
    ReachesSelf(e, l);
    ReachesEdge(e, o, l, l);
    ReachesTrans(e, r, o, l);
  }

  /** A set that has the roots and is closed under links has everything reachable. */
  lemma SweepComplete(pc: CommitParser, objects: Store, refs: map<string, Option<Raw>>, seen: set<Raw>)
    requires forall n | n in refs && refs[n].Some? :: refs[n].value in seen
    requires Closed(EdgeOf(pc, objects), seen)
    ensures forall o | Reachable(pc, objects, refs, o) :: o in seen
  {
    forall o | Reachable(pc, objects, refs, o) ensures o in seen {
      var r :| Rooted(refs, r) && Reaches(EdgeOf(pc, objects), r, o);
      ClosedHas(EdgeOf(pc, objects), seen, r);
    }
  }

  lemma EdgesAre(pc: CommitParser, objects: Store, oid: Raw)
    ensures oid !in objects ==> EdgeOf(pc, objects)(oid) == {}
    ensures oid in objects && Links(pc, objects[oid]).Some? ==>
              forall l :: l in EdgeOf(pc, objects)(oid) <==> l in Links(pc, objects[oid]).value
  {
  }

  /** Everything a worklist can ever hold. */
  ghost function Universe(pc: CommitParser, objects: Store, refs: map<string, Option<Raw>>): set<Raw> {
    (set n | n in refs && refs[n].Some? :: refs[n].value) +
    set o, l | o in objects && Links(pc, objects[o]).Some? && l in Links(pc, objects[o]).value :: l
  }

  /** What holds at every turn of a worklist loop: the roots and nothing unreachable are covered. */
  ghost predicate Sweeping(pc: CommitParser, objects: Store, refs: map<string, Option<Raw>>, seen: set<Raw>, stack: seq<Raw>) {
    (forall n | n in refs && refs[n].Some? :: refs[n].value in seen || refs[n].value in stack) &&
    (forall o | o in seen || o in stack :: Reachable(pc, objects, refs, o)) &&
    (forall o | o in stack :: o in Universe(pc, objects, refs))
  }

  ghost predicate Followed(pc: CommitParser, objects: Store, seen: set<Raw>, stack: seq<Raw>) {
    forall o, l | o in seen && l in EdgeOf(pc, objects)(o) :: l in seen || l in stack
  }

  lemma SweepStart(pc: CommitParser, objects: Store, refs: map<string, Option<Raw>>, stack: seq<Raw>)
    requires forall o :: o in stack <==> Rooted(refs, o)
    ensures Sweeping(pc, objects, refs, {}, stack) && Followed(pc, objects, {}, stack)
  {
    forall o | o in stack ensures Reachable(pc, objects, refs, o) && o in Universe(pc, objects, refs) {
      ReachableRoot(pc, objects, refs, o);
    }
    forall n | n in refs && refs[n].Some? ensures refs[n].value in stack { assert Rooted(refs, refs[n].value); }
  }

  /** The id on top was seen before. */
  lemma SweepPop(pc: CommitParser, objects: Store, refs: map<string, Option<Raw>>, seen: set<Raw>, stack: seq<Raw>, oid: Raw)
    requires Sweeping(pc, objects, refs, seen, stack + [oid]) && oid in seen
    ensures Sweeping(pc, objects, refs, seen, stack)
    ensures Followed(pc, objects, seen, stack + [oid]) ==> Followed(pc, objects, seen, stack)
  {
    hide Reachable, Universe, EdgeOf;
  }

  lemma LinkInUniverse(pc: CommitParser, objects: Store, refs: map<string, Option<Raw>>, oid: Raw, l: Raw)
    requires l in EdgeOf(pc, objects)(oid)
    ensures l in Universe(pc, objects, refs)
  {
  }

  /** The id on top is visited and some of its links are pushed. */
  lemma SweepVisit(pc: CommitParser, objects: Store, refs: map<string, Option<Raw>>, seen: set<Raw>, stack: seq<Raw>,
                   oid: Raw, next: seq<Raw>)
    requires Sweeping(pc, objects, refs, seen, stack + [oid])
    requires forall l | l in next :: l in EdgeOf(pc, objects)(oid)
    ensures Reachable(pc, objects, refs, oid) && oid in Universe(pc, objects, refs)
    ensures Sweeping(pc, objects, refs, seen + {oid}, stack + next)
    ensures Followed(pc, objects, seen, stack + [oid]) && (forall l | l in EdgeOf(pc, objects)(oid) :: l in next) ==>
              Followed(pc, objects, seen + {oid}, stack + next)
  {
    hide Reachable, Universe, EdgeOf;
    assert oid in stack + [oid];
    forall l | l in next ensures Reachable(pc, objects, refs, l) && l in Universe(pc, objects, refs) {
      ReachableLink(pc, objects, refs, oid, l);
      LinkInUniverse(pc, objects, refs, oid, l);
    }
  }

  lemma SweepEnd(pc: CommitParser, objects: Store, refs: map<string, Option<Raw>>, seen: set<Raw>)
    requires Sweeping(pc, objects, refs, seen, []) && Followed(pc, objects, seen, [])
    ensures forall o :: o in seen <==> Reachable(pc, objects, refs, o)
  {
    SweepComplete(pc, objects, refs, seen);
  }

  lemma SweepOnlyReachable(pc: CommitParser, objects: Store, refs: map<string, Option<Raw>>, seen: set<Raw>, stack: seq<Raw>)
    requires Sweeping(pc, objects, refs, seen, stack)
    ensures forall o | o in seen :: Reachable(pc, objects, refs, o)
  {
  }

  /** The problem named is the one the object has. */
  ghost predicate TrueProblem(h: Hash, pc: CommitParser, objects: Store, o: Raw, x: Problem) {
    match x
    case BadRef(_) => false
    case Missing(q) => q == o && o !in objects
    case Mismatch(q) => q == o && o in objects && ParseCanonicalObject(objects[o]).Some? && h(objects[o]) != o
    case Corrupt(q) =>
      q == o && o in objects &&
      (ParseCanonicalObject(objects[o]).None? || (h(objects[o]) == o && (Links(pc, objects[o]).None? || !NamesFine(objects[o]))))
  }

  /** Every error reported is true of a ref or of a reachable object. */
  ghost predicate Justified(h: Hash, pc: CommitParser, objects: Store, refs: map<string, Option<Raw>>, x: Problem) {
    if x.BadRef? then x.name in refs && refs[x.name].None?
    else exists o :: Reachable(pc, objects, refs, o) && TrueProblem(h, pc, objects, o, x)
  }

  class Repository {
    var objects: Store
    var refs: map<string, Option<Raw>>
    const h: Hash
    const pc: CommitParser

    constructor (objects: Store, refs: map<string, Option<Raw>>, h: Hash, pc: CommitParser)
      ensures this.objects == objects && this.refs == refs && this.h == h && this.pc == pc
    {
      this.objects, this.refs, this.h, this.pc := objects, refs, h, pc;
    }

    /** The ids of the valid refs; the names of the others. */
    method Roots() returns (stack: seq<Raw>, bad: seq<Problem>)
      ensures forall o :: o in stack <==> Rooted(refs, o)
      ensures bad == [] <==> RefsValid(refs)
      ensures forall x | x in bad :: x.BadRef? && x.name in refs && refs[x.name].None?
    {
      stack, bad := [], [];
      var names := refs.Keys;
      while names != {}
        invariant names <= refs.Keys
        invariant forall o | o in stack :: Rooted(refs, o)
        invariant forall n | n in refs.Keys - names && refs[n].Some? :: refs[n].value in stack
        invariant forall x | x in bad :: x.BadRef? && x.name in refs && refs[x.name].None?
        invariant bad == [] <==> forall n | n in refs.Keys - names :: refs[n].Some?
      {
        var n :| n in names;
        if refs[n].Some? {
          assert Rooted(refs, refs[n].value);
          stack := stack + [refs[n].value];
        } else {
          bad := bad + [BadRef(n)];
        }
        names := names - {n};
      }
    }

    /** What `check_integrity` finds at one id, and which ids it goes on to. */
    method Inspect(oid: Raw) returns (problem: Option<Problem>, next: seq<Raw>)
      ensures problem.None? <==> Sound(h, pc, objects, oid)
      ensures problem.Some? ==> TrueProblem(h, pc, objects, oid, problem.value)
      ensures problem.None? ==> forall l :: l in next <==> l in EdgeOf(pc, objects)(oid)
      ensures forall l | l in next :: l in EdgeOf(pc, objects)(oid)
    {
      if oid !in objects {
        return Some(Missing(oid)), [];
      }
      var data := objects[oid];
      if ParseCanonicalObject(data).None? {
        return Some(Corrupt(oid)), [];
      }
      if h(data) != oid {
        return Some(Mismatch(oid)), [];
      }
      var links := Links(pc, data);
      if links.None? {
        return Some(Corrupt(oid)), [];
      }
      TreeLinks(pc, data);
      var entries := EntriesIn(data);
      if FineNames(entries) < |entries| {
        OidsSome(entries, FineNames(entries));
        return Some(Corrupt(oid)), Oids(entries[..FineNames(entries)]);
      }
      return None, links.value;
    }

    /** `check_integrity`: no problems are reported exactly when every ref's closure is present,
        matches its ids and parses. */
    method CheckIntegrity() returns (problems: seq<Problem>)
      ensures problems == [] <==> Intact(h, pc, objects, refs)
      ensures forall x | x in problems :: Justified(h, pc, objects, refs, x)
    {
      hide Reachable, Sound, EdgeOf, Universe, Sweeping, Followed, RefsValid, TrueProblem;
      var stack;
      stack, problems := Roots();
      var seen: set<Raw> := {};
      SweepStart(pc, objects, refs, stack);
      while stack != []
        invariant Sweeping(pc, objects, refs, seen, stack)
        invariant problems == [] ==> Followed(pc, objects, seen, stack)
        invariant forall x | x in problems :: Justified(h, pc, objects, refs, x)
        invariant problems == [] <==> RefsValid(refs) && forall o | o in seen :: Sound(h, pc, objects, o)
        decreases Universe(pc, objects, refs) - seen, |stack|
      {
        var oid, rest := stack[|stack| - 1], stack[..|stack| - 1];
        assert stack == rest + [oid];
        if oid in seen {
          SweepPop(pc, objects, refs, seen, rest, oid);
          stack := rest;
        } else {
          var problem, next := Inspect(oid);
          SweepVisit(pc, objects, refs, seen, rest, oid, next);
          seen, stack := seen + {oid}, rest + next;
          if problem.Some? {
            problems := problems + [problem.value];
          }
        }
      }
      SweepOnlyReachable(pc, objects, refs, seen, stack);
      if problems == [] {
        SweepEnd(pc, objects, refs, seen);
      }
    }

    /** `reachable_objects`: None when a ref or an object on the way does not parse. */
    method ReachableObjects() returns (found: Option<set<Raw>>)
      ensures found.Some? ==> forall o :: o in found.value <==> Reachable(pc, objects, refs, o)
      ensures found.None? ==> !Intact(h, pc, objects, refs)
    {
      hide Reachable, EdgeOf, Universe, Sweeping, Followed, RefsValid;
      var stack, bad := Roots();
      if bad != [] {
        return None;
      }
      var seen: set<Raw> := {};
      SweepStart(pc, objects, refs, stack);
      while stack != []
        invariant Sweeping(pc, objects, refs, seen, stack) && Followed(pc, objects, seen, stack)
        decreases Universe(pc, objects, refs) - seen, |stack|
      {
        var oid, rest := stack[|stack| - 1], stack[..|stack| - 1];
        assert stack == rest + [oid];
        if oid in seen {
          SweepPop(pc, objects, refs, seen, rest, oid);
          stack := rest;
        } else {
          var next: seq<Raw> := [];
          if oid in objects {
            var links := Links(pc, objects[oid]);
            if links.None? {
              SweepVisit(pc, objects, refs, seen, rest, oid, []);
              return None;
            }
            next := links.value;
          }
          EdgesAre(pc, objects, oid);
          SweepVisit(pc, objects, refs, seen, rest, oid, next);
          seen, stack := seen + {oid}, rest + next;
        }
      }
      SweepEnd(pc, objects, refs, seen);
      found := Some(seen);
    }

    /** `clean_unreachable`: None is the refusal to clean a broken repository.  Otherwise exactly
        the unreachable objects go, and the repository is still intact. */
    method CleanUnreachable() returns (removed: Option<nat>)
      modifies this`objects
      ensures removed.Some? <==> Intact(h, pc, old(objects), refs)
      ensures removed.None? ==> objects == old(objects)
      ensures removed.Some? ==>
                (forall o :: o in objects <==> o in old(objects) && Reachable(pc, old(objects), refs, o)) &&
                (forall o | o in objects :: objects[o] == old(objects)[o]) &&
                removed.value == |old(objects)| - |objects| &&
                Intact(h, pc, objects, refs)
    {
      var problems := CheckIntegrity();
      if problems != [] {
        return None;
      }
      var found := ReachableObjects();
      var stale := set o | o in objects && o !in found.value;
      objects := objects - stale;
      assert objects.Keys == old(objects.Keys) - stale;
      assert |objects.Keys| == |old(objects.Keys)| - |stale|;
      CleanKeepsIntact(h, pc, old(objects), objects, refs);
      removed := Some(|stale|);
    }
  }

  /** The reachable part of the store is unchanged. */
  ghost predicate Agree(e: Edges<Raw>, objects: Store, fewer: Store, from: Raw) {
    forall o | Reaches(e, from, o) :: (o in objects <==> o in fewer) && (o in objects ==> objects[o] == fewer[o])
  }

  lemma {:induction false} SamePaths(e: Edges<Raw>, e': Edges<Raw>, p: seq<Raw>)
    requires IsWalk(e, p) && forall o | Reaches(e, p[0], o) :: e(o) == e'(o)
    ensures IsWalk(e', p)
  {
    forall i | 0 <= i < |p| - 1 ensures p[i + 1] in e'(p[i]) {
      assert WalkFromTo(e, p[..i + 1], p[0], p[i]);
    }
  }

  lemma {:induction false} SamePathsBack(e: Edges<Raw>, e': Edges<Raw>, p: seq<Raw>, i: nat)
    requires IsWalk(e', p) && i < |p| && forall o | Reaches(e, p[0], o) :: e(o) == e'(o)
    ensures WalkFromTo(e, p[..i + 1], p[0], p[i])
  {
    if i > 0 {
      SamePathsBack(e, e', p, i - 1);
      assert Reaches(e, p[0], p[i - 1]);
      var q := p[..i + 1];
      forall k | 0 <= k < |q| - 1 ensures q[k + 1] in e(q[k]) {
        if k < i - 1 { assert p[..i][k + 1] in e(p[..i][k]); }
      }
    }
  }

  /** Where the stores agree on all that is reachable, the same things are reachable. */
  lemma ReachSame(pc: CommitParser, objects: Store, fewer: Store, a: Raw, b: Raw)
    requires Agree(EdgeOf(pc, objects), objects, fewer, a)
    ensures Reaches(EdgeOf(pc, objects), a, b) <==> Reaches(EdgeOf(pc, fewer), a, b)
  {
    var e, e' := EdgeOf(pc, objects), EdgeOf(pc, fewer);
    assert forall o | Reaches(e, a, o) :: e(o) == e'(o);
    if Reaches(e, a, b) {
      var p :| WalkFromTo(e, p, a, b);
      SamePaths(e, e', p);
      assert WalkFromTo(e', p, a, b);
    }
    if Reaches(e', a, b) {
      var p :| WalkFromTo(e', p, a, b);
      SamePathsBack(e, e', p, |p| - 1);
      assert p[..|p|] == p;
    }
  }

  lemma CleanKeepsIntact(h: Hash, pc: CommitParser, objects: Store, fewer: Store, refs: map<string, Option<Raw>>)
    requires Intact(h, pc, objects, refs)
    requires forall o :: o in fewer <==> o in objects && Reachable(pc, objects, refs, o)
    requires forall o | o in fewer :: fewer[o] == objects[o]
    ensures Intact(h, pc, fewer, refs)
    ensures forall r | Rooted(refs, r) :: Agree(EdgeOf(pc, objects), objects, fewer, r)
  {
    forall r | Rooted(refs, r) ensures Agree(EdgeOf(pc, objects), objects, fewer, r) {
      assert forall o | Reaches(EdgeOf(pc, objects), r, o) :: Reachable(pc, objects, refs, o);
    }
    forall o | Reachable(pc, fewer, refs, o) ensures Sound(h, pc, fewer, o) {
      var r :| Rooted(refs, r) && Reaches(EdgeOf(pc, fewer), r, o);
      ReachSame(pc, objects, fewer, r, o);
      assert Reachable(pc, objects, refs, o);
    }
  }

  // ---- What is reached, in terms of the parsers alone ----

  /** The object names `o`: a commit its tree and its parents, a tree its entries. */
  ghost predicate Mentions(pc: CommitParser, data: Data, o: Raw) {
    match ParseCanonicalObject(data)
    case None => false
    case Some((kind, payload)) =>
      (kind == "commit" && pc(payload).Some? && (o == pc(payload).value.0 || o in pc(payload).value.1)) ||
      (kind == "tree" && ParseTree(payload).Some? && exists i :: 0 <= i < |ParseTree(payload).value| &&
                                                                 ParseTree(payload).value[i].oid == o)
  }

  lemma {:induction false} OidIn(entries: seq<TreeEntry>, o: Raw)
    ensures o in Oids(entries) <==> exists i :: 0 <= i < |entries| && entries[i].oid == o
  {
    if entries != [] {
      OidIn(entries[1..], o);
      if i :| 0 <= i < |entries| && entries[i].oid == o {
        if i > 0 { assert entries[1..][i - 1].oid == o; }
      }
      if o in Oids(entries) && o != entries[0].oid {
        var i :| 0 <= i < |entries[1..]| && entries[1..][i].oid == o;
        assert entries[i + 1].oid == o;
      }
    }
  }

  /** The sweeps follow exactly what the objects name. */
  lemma EdgeIsMention(pc: CommitParser, objects: Store, q: Raw, o: Raw)
    ensures o in EdgeOf(pc, objects)(q) <==> q in objects && Mentions(pc, objects[q], o)
  {
    hide ParseTree, ParseCanonicalObject;
    if q in objects {
      match ParseCanonicalObject(objects[q])
      case None =>
      case Some((kind, payload)) =>
        if kind == "tree" && ParseTree(payload).Some? {
          OidIn(ParseTree(payload).value, o);
        }
    }
  }

  /** A reachable commit makes its tree and its parents reachable... */
  lemma CommitReaches(pc: CommitParser, objects: Store, refs: map<string, Option<Raw>>, o: Raw, payload: Data, tree: Raw,
                      parents: seq<Raw>)
    requires Reachable(pc, objects, refs, o) && o in objects
    requires ParseCanonicalObject(objects[o]) == Some(("commit", payload)) && pc(payload) == Some((tree, parents))
    ensures Reachable(pc, objects, refs, tree) && forall p | p in parents :: Reachable(pc, objects, refs, p)
  {
    hide ParseCanonicalObject, Reachable;
    EdgeIsMention(pc, objects, o, tree);
    ReachableLink(pc, objects, refs, o, tree);
    forall p | p in parents ensures Reachable(pc, objects, refs, p) {
      EdgeIsMention(pc, objects, o, p);
      ReachableLink(pc, objects, refs, o, p);
    }
  }

  /** ...a reachable tree its entries... */
  lemma TreeReaches(pc: CommitParser, objects: Store, refs: map<string, Option<Raw>>, o: Raw, payload: Data,
                    entries: seq<TreeEntry>, i: nat)
    requires Reachable(pc, objects, refs, o) && o in objects && i < |entries|
    requires ParseCanonicalObject(objects[o]) == Some(("tree", payload)) && ParseTree(payload) == Some(entries)
    ensures Reachable(pc, objects, refs, entries[i].oid)
  {
    hide ParseCanonicalObject, ParseTree, Reachable;
    assert Mentions(pc, objects[o], entries[i].oid);
    EdgeIsMention(pc, objects, o, entries[i].oid);
    ReachableLink(pc, objects, refs, o, entries[i].oid);
  }

  /** ...and nothing else is reached: an id is a ref's, or named by a reachable object. */
  lemma ReachedBecause(pc: CommitParser, objects: Store, refs: map<string, Option<Raw>>, o: Raw)
    requires Reachable(pc, objects, refs, o)
    ensures Rooted(refs, o) || exists q :: Reachable(pc, objects, refs, q) && q in objects && Mentions(pc, objects[q], o)
  {
    hide Mentions;
    var e := EdgeOf(pc, objects);
    var r :| Rooted(refs, r) && Reaches(e, r, o);
    var p :| WalkFromTo(e, p, r, o);
    if |p| > 1 {
      var q := p[|p| - 2];
      assert WalkFromTo(e, p[..|p| - 1], r, q);
      assert Reaches(e, r, q);
      EdgeIsMention(pc, objects, q, o);
    }
  }

  /** In an intact repository a clean keeps every ref's object, and whatever an object that it keeps
      names: trees, parents and entries, byte for byte. */
  lemma CleanKeepsNamed(h: Hash, pc: CommitParser, objects: Store, fewer: Store, refs: map<string, Option<Raw>>)
    requires Intact(h, pc, objects, refs)
    requires forall o :: o in fewer <==> o in objects && Reachable(pc, objects, refs, o)
    requires forall o | o in fewer :: fewer[o] == objects[o]
    ensures forall o | Rooted(refs, o) :: o in fewer && fewer[o] == objects[o]
    ensures forall q, o | q in fewer && Mentions(pc, fewer[q], o) :: o in fewer && o in objects && fewer[o] == objects[o]
  {
    hide Mentions, Reachable;
    forall o | Rooted(refs, o) ensures o in fewer {
      ReachableRoot(pc, objects, refs, o);
      assert Sound(h, pc, objects, o);
    }
    forall q, o | q in fewer && Mentions(pc, fewer[q], o) ensures o in fewer {
      EdgeIsMention(pc, objects, q, o);
      ReachableLink(pc, objects, refs, q, o);
      assert Sound(h, pc, objects, o);
    }
  }

  /** In an intact repository every reachable commit and tree parses, and tree entries have names that
      can be checked out. */
  lemma IntactMeans(h: Hash, pc: CommitParser, objects: Store, refs: map<string, Option<Raw>>, o: Raw)
    requires Intact(h, pc, objects, refs) && Reachable(pc, objects, refs, o)
    ensures o in objects && h(objects[o]) == o && ParseCanonicalObject(objects[o]).Some?
    ensures var (kind, payload) := ParseCanonicalObject(objects[o]).value;
            (kind == "commit" ==> pc(payload).Some?) &&
            (kind == "tree" ==> ParseTree(payload).Some? && forall i | 0 <= i < |ParseTree(payload).value| ::
               var n := ParseTree(payload).value[i].name; '/' !in n && '\\' !in n && Trackable([n]))
  {
    assert Sound(h, pc, objects, o);
    hide ParseCanonicalObject, ParseTree, Trackable;
    AllFine(EntriesIn(objects[o]));
  }

  lemma {:induction false} AllFine(entries: seq<TreeEntry>)
    requires FineNames(entries) == |entries|
    ensures forall i | 0 <= i < |entries| :: NameFine(entries[i].name)
  {
    hide NameFine;
    if entries != [] { AllFine(entries[1..]); }
  }

  // ---- Flattened trees survive ----

  lemma {:induction false} FlattenSame(pc: CommitParser, objects: Store, fewer: Store, id: Raw, prefix: Path, depth: nat)
    requires Agree(EdgeOf(pc, objects), objects, fewer, id)
    ensures Flatten(objects, id, prefix, depth) == Flatten(fewer, id, prefix, depth)
    decreases depth, 1, 0
  {
    var e := EdgeOf(pc, objects);
    ReachesSelf(e, id);
    assert ReadTree(objects, id) == ReadTree(fewer, id);
    if depth > 0 && ReadTree(objects, id).Some? {
      var entries := ReadTree(objects, id).value;
      forall i | 0 <= i < |entries| ensures entries[i].oid in e(id) {
        OidsAt(entries, i);
      }
      FlattenEntriesSame(pc, objects, fewer, id, entries, prefix, depth);
    }
  }

  lemma AgreeBelow(e: Edges<Raw>, objects: Store, fewer: Store, id: Raw, child: Raw)
    requires Agree(e, objects, fewer, id) && child in e(id)
    ensures Agree(e, objects, fewer, child)
  {
    forall o | Reaches(e, child, o) ensures Reaches(e, id, o) { ReachesEdge(e, id, child, o); }
  }

  lemma {:induction false} FlattenEntriesSame(pc: CommitParser, objects: Store, fewer: Store, id: Raw,
                                              entries: seq<TreeEntry>, prefix: Path, depth: nat)
    requires depth > 0 && Agree(EdgeOf(pc, objects), objects, fewer, id)
    requires forall i | 0 <= i < |entries| :: entries[i].oid in EdgeOf(pc, objects)(id)
    ensures FlattenEntries(objects, entries, prefix, depth) == FlattenEntries(fewer, entries, prefix, depth)
    decreases depth, 0, |entries|
  {
    hide EdgeOf, Agree, Trackable;
    if entries != [] {
      var child := entries[0].oid;
      AgreeBelow(EdgeOf(pc, objects), objects, fewer, id, child);
      FlattenSame(pc, objects, fewer, child, prefix + [entries[0].name], depth - 1);
      FlattenEntriesSame(pc, objects, fewer, id, entries[1..], prefix, depth);
    }
  }

  /** After a clean, every tree a ref reaches flattens to what it flattened to before. */
  lemma CleanKeepsFiles(h: Hash, pc: CommitParser, objects: Store, fewer: Store, refs: map<string, Option<Raw>>,
                        tree: Raw, prefix: Path, depth: nat)
    requires Intact(h, pc, objects, refs) && Reachable(pc, objects, refs, tree)
    requires forall o :: o in fewer <==> o in objects && Reachable(pc, objects, refs, o)
    requires forall o | o in fewer :: fewer[o] == objects[o]
    ensures Flatten(fewer, tree, prefix, depth) == Flatten(objects, tree, prefix, depth)
  {
    var e := EdgeOf(pc, objects);
    var r :| Rooted(refs, r) && Reaches(e, r, tree);
    forall o | Reaches(e, tree, o) ensures Reachable(pc, objects, refs, o) { ReachesTrans(e, r, tree, o); }
    FlattenSame(pc, objects, fewer, tree, prefix, depth);
  }
}
