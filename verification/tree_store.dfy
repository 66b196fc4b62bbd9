/** The index as nested trees of hashed bytes, and back. */
module TreeStore {
  import opened Core
  import opened Paths
  import opened NfsSpec
  import opened Objects
  import opened Ordering

  const DIR_MODE := "40000"

  datatype Entry = Entry(mode: string, oid: Raw)

  /** The nested dictionary `build_tree` fills. */
  datatype Node = File(entry: Entry) | Dir(children: map<Name, Node>)

  type Index = map<Path, Entry>
  type Hash = Data -> Raw

  predicate ValidEntry(e: Entry) { e.mode != DIR_MODE && ' ' !in e.mode && NUL !in e.mode }

  // ---- Looking up and inserting ----

  function Find(dir: Node, p: Path): Option<Entry>
    decreases |p|
  {
    if dir.File? || p == [] || p[0] !in dir.children then None
    else match dir.children[p[0]]
      case File(e) => if |p| == 1 then Some(e) else None
      case Dir(c) => Find(Dir(c), p[1..])
  }

  /** One entry of the loop in `build_tree`.  None is the exception raised when a path goes through
      a file; a file put over a directory replaces it silently. */
  function Insert(dir: Node, p: Path, e: Entry): (r: Option<Node>)
    requires dir.Dir? && p != []
    ensures r.Some? ==> r.value.Dir?
    decreases |p|
  {
    if |p| == 1 then Some(Dir(dir.children[p[0] := File(e)]))
    else
      var below := if p[0] in dir.children then dir.children[p[0]] else Dir(map[]);
      if below.File? then None
      else match Insert(below, p[1..], e)
        case None => None
        case Some(d) => Some(Dir(dir.children[p[0] := d]))
  }

  lemma {:induction false} FindBelowFile(dir: Node, p: Path, q: Path)
    requires Find(dir, p).Some? && p < q
    ensures Find(dir, q).None?
    decreases |p|
  {
    if |p| > 1 {
      assert p[1..] < q[1..];
      FindBelowFile(dir.children[p[0]], p[1..], q[1..]);
    }
  }

  /** A file sits at a proper prefix of the path. */
  ghost predicate FileAbove(dir: Node, p: Path, q: Path) { [] < q < p && Find(dir, q).Some? }

  lemma {:induction false} InsertFails(dir: Node, p: Path, e: Entry)
    requires dir.Dir? && p != []
    ensures Insert(dir, p, e).None? <==> exists q :: FileAbove(dir, p, q)
    decreases |p|
  {
    if |p| > 1 {
      var below := if p[0] in dir.children then dir.children[p[0]] else Dir(map[]);
      if below.File? {
        assert FileAbove(dir, p, [p[0]]);
      } else {
        InsertFails(below, p[1..], e);
        if q :| FileAbove(below, p[1..], q) {
          assert ([p[0]] + q)[1..] == q && p == [p[0]] + p[1..];
          assert FileAbove(dir, p, [p[0]] + q);
        }
        if q :| FileAbove(dir, p, q) {
          assert q[0] == p[0] && Find(below, q[1..]) == Find(dir, q);
          assert FileAbove(below, p[1..], q[1..]);
        }
      }
    }
  }

  /** What an insertion does to every path. */
  lemma {:induction false} InsertFinds(dir: Node, p: Path, e: Entry, q: Path)
    requires dir.Dir? && p != [] && Insert(dir, p, e).Some?
    ensures Find(Insert(dir, p, e).value, q) ==
            if q == p then Some(e) else if p < q then None else Find(dir, q)
    decreases |p|
  {
    if |p| > 1 && q != [] && q[0] == p[0] {
      var below := if p[0] in dir.children then dir.children[p[0]] else Dir(map[]);
      InsertFinds(below, p[1..], e, q[1..]);
      assert p == [p[0]] + p[1..] && q == [p[0]] + q[1..];
      assert p < q <==> p[1..] < q[1..];
    }
  }

  // ---- Building ----

  /** `build_tree`'s nested dictionary for a list of entries, in that order. */
  function Nest(entries: seq<(Path, Entry)>): (r: Option<Node>)
    ensures r.Some? ==> r.value.Dir?
  {
    if entries == [] then Some(Dir(map[]))
    else
      var last := entries[|entries| - 1];
      match Nest(entries[..|entries| - 1])
      case None => None
      case Some(d) => if Trackable(last.0) then Insert(d, last.0, last.1) else None
  }

  method BuildNested(entries: seq<(Path, Entry)>) returns (r: Option<Node>)
    ensures r == Nest(entries)
  {
    var nested := Dir(map[]);
    for i := 0 to |entries|
      invariant nested.Dir? && Nest(entries[..i]) == Some(nested)
    {
      assert entries[..i + 1][..i] == entries[..i];
      var path, entry := entries[i].0, entries[i].1;
      r := if Trackable(path) then Insert(nested, path, entry) else None;
      assert Nest(entries[..i + 1]) == r;
      if r.None? {
        NestStuck(entries, i + 1);
        return;
      }
      nested := r.value;
    }
    assert entries[..|entries|] == entries;
    r := Some(nested);
  }

  lemma {:induction false} NestStuck(entries: seq<(Path, Entry)>, i: nat)
    requires i <= |entries| && Nest(entries[..i]).None?
    ensures Nest(entries).None?
    decreases |entries| - i
  {
    if i == |entries| {
      assert entries[..i] == entries;
    } else {
      assert entries[..i + 1][..i] == entries[..i];
      NestStuck(entries, i + 1);
    }
  }

  ghost function PathsOf(entries: seq<(Path, Entry)>): set<Path> { set i | 0 <= i < |entries| :: entries[i].0 }

  ghost predicate DistinctPaths(entries: seq<(Path, Entry)>) {
    forall i, j | 0 <= i < j < |entries| :: entries[i].0 != entries[j].0
  }

  /** The list as the flat index it came from. */
  ghost function IndexOf(entries: seq<(Path, Entry)>): Index {
    if entries == [] then map[]
    else IndexOf(entries[..|entries| - 1])[entries[|entries| - 1].0 := entries[|entries| - 1].1]
  }

  /** The nested form stands for exactly this flat index. */
  ghost predicate Denotes(dir: Node, index: Index) {
    forall p :: Find(dir, p) == if p in index then Some(index[p]) else None
  }

  /** No empty directories below the root. */
  ghost predicate Proper(dir: Node)
    decreases dir
  {
    dir.Dir? && forall n | n in dir.children && dir.children[n].Dir? ::
      dir.children[n].children != map[] && Proper(dir.children[n])
  }

  lemma {:induction false} InsertProper(dir: Node, p: Path, e: Entry)
    requires Proper(dir) && p != [] && Insert(dir, p, e).Some?
    ensures Proper(Insert(dir, p, e).value) && Insert(dir, p, e).value.children != map[]
    decreases |p|
  {
    if |p| > 1 {
      var below := if p[0] in dir.children then dir.children[p[0]] else Dir(map[]);
      InsertProper(below, p[1..], e);
      assert p[0] in Insert(dir, p, e).value.children;
    } else {
      assert p[0] in Insert(dir, p, e).value.children;
    }
  }

  /** A list of distinct, valid, prefix-free paths nests without loss, in whatever order. */
  lemma {:induction false} NestDenotes(entries: seq<(Path, Entry)>)
    requires DistinctPaths(entries) && PrefixFree(PathsOf(entries))
    requires forall i | 0 <= i < |entries| :: Trackable(entries[i].0)
    ensures Nest(entries).Some? && Denotes(Nest(entries).value, IndexOf(entries)) && Proper(Nest(entries).value)
    ensures IndexOf(entries).Keys == PathsOf(entries)
  {
    if entries != [] {
      var n := |entries| - 1;
      var init, p, e := entries[..n], entries[n].0, entries[n].1;
      assert forall i | 0 <= i < n :: init[i] == entries[i];
      PathsSplit(entries);
      NestDenotes(init);
      var d, index := Nest(init).value, IndexOf(init);
      forall q | q in index ensures !(q < p) && !(p < q) && q != p {
        assert q in PathsOf(entries) && p in PathsOf(entries);
        assert !Below(q, p) && !Below(p, q);
      }
      InsertFails(d, p, e);
      assert forall q :: FileAbove(d, p, q) ==> q in index;
      forall q ensures Find(Insert(d, p, e).value, q) == if q in IndexOf(entries) then Some(IndexOf(entries)[q]) else None {
        InsertFinds(d, p, e, q);
      }
      InsertProper(d, p, e);
    }
  }

  lemma PathsSplit(entries: seq<(Path, Entry)>)
    requires entries != []
    ensures var init := entries[..|entries| - 1];
            PathsOf(entries) == PathsOf(init) + {entries[|entries| - 1].0} &&
            (DistinctPaths(entries) ==> entries[|entries| - 1].0 !in PathsOf(init))
  {
    var n := |entries| - 1;
    var init := entries[..n];
    forall q ensures q in PathsOf(entries) <==> q in PathsOf(init) + {entries[n].0} {
      if q in PathsOf(entries) {
        var i :| 0 <= i < |entries| && entries[i].0 == q;
        if i < n { assert init[i].0 == q; }
      }
      if q in PathsOf(init) {
        var i :| 0 <= i < n && init[i].0 == q;
        assert entries[i].0 == q;
      }
    }
  }

  /** Exactly the prefix-free lists survive: with a clash the build raises or loses a file. */
  lemma NestFaithfulIff(entries: seq<(Path, Entry)>)
    requires DistinctPaths(entries) && forall i | 0 <= i < |entries| :: Trackable(entries[i].0)
    ensures Nest(entries).Some? && Denotes(Nest(entries).value, IndexOf(entries)) <==> PrefixFree(PathsOf(entries))
  {
    if PrefixFree(PathsOf(entries)) {
      NestDenotes(entries);
    }
    IndexKeys(entries);
    if Nest(entries).Some? && Denotes(Nest(entries).value, IndexOf(entries)) {
      var d, index := Nest(entries).value, IndexOf(entries);
      assert [] !in PathsOf(entries);
      forall p, q | p in PathsOf(entries) && q in PathsOf(entries) ensures !Below(p, q) {
        assert Find(d, p).Some? && Find(d, q).Some?;
        if p < q { FindBelowFile(d, p, q); }
      }
    }
  }

  lemma {:induction false} IndexKeys(entries: seq<(Path, Entry)>)
    ensures IndexOf(entries).Keys == PathsOf(entries)
  {
    if entries != [] {
      PathsSplit(entries);
      IndexKeys(entries[..|entries| - 1]);
    }
  }

  /** File `a` and file `a/b`: one order raises, the other drops `a/b`. */
  lemma ClashExamples(e: Entry, f: Entry)
    ensures Nest([(["a"], e), (["a", "b"], f)]).None?
    ensures Nest([(["a", "b"], f), (["a"], e)]).Some? &&
            Find(Nest([(["a", "b"], f), (["a"], e)]).value, ["a", "b"]).None?
  {
    var fileFirst, fileLast := [(["a"], e), (["a", "b"], f)], [(["a", "b"], f), (["a"], e)];
    assert Trackable(["a"]) && Trackable(["a", "b"]);
    assert ["a", "b"][1..] == ["b"];
    assert fileFirst[..1][..0] == [] && fileLast[..1][..0] == [];
    var one := Dir(map["a" := File(e)]);
    assert Insert(Dir(map[]), ["a"], e) == Some(one);
    assert Nest(fileFirst[..1]) == Some(one);
    var two := Dir(map["a" := Dir(map["b" := File(f)])]);
    assert Insert(Dir(map[]), ["b"], f) == Some(Dir(map["b" := File(f)]));
    assert Insert(Dir(map[]), ["a", "b"], f) == Some(two);
    assert Nest(fileLast[..1]) == Some(two);
    assert Insert(two, ["a"], e).value.children["a"] == File(e);
  }

  // ---- Hashing ----

  /** The tree entries for some of a directory's names. */
  ghost function EntriesOf(h: Hash, names: seq<Name>, dir: Node): seq<TreeEntry>
    requires dir.Dir? && forall n | n in names :: n in dir.children
    decreases dir, 0, |names|
  {
    if names == [] then []
    else
      [match dir.children[names[0]]
       case File(e) => TreeEntry(e.mode, names[0], e.oid)
       case Dir(c) => TreeEntry(DIR_MODE, names[0], TreeId(h, dir.children[names[0]]))]
      + EntriesOf(h, names[1..], dir)
  }

  ghost function TreeBytes(h: Hash, dir: Node): Data
    requires dir.Dir?
    decreases dir, 1, 0
  {
    CanonicalObject("tree", SerializeTree(EntriesOf(h, Sorted(dir.children.Keys), dir)))
  }

  ghost function TreeId(h: Hash, dir: Node): Raw
    requires dir.Dir?
    decreases dir, 2, 0
  {
    h(TreeBytes(h, dir))
  }

  /** Every tree object of a nested directory. */
  ghost function Written(h: Hash, dir: Node): set<Data>
    requires dir.Dir?
    decreases dir
  {
    {TreeBytes(h, dir)} +
    set n, d | n in dir.children && dir.children[n].Dir? && d in Written(h, dir.children[n]) :: d
  }

  /** All of them are in the store under their ids. */
  ghost predicate Stored(h: Hash, objects: map<Raw, Data>, dir: Node)
    requires dir.Dir?
    decreases dir
  {
    TreeId(h, dir) in objects && objects[TreeId(h, dir)] == TreeBytes(h, dir) &&
    forall n | n in dir.children && dir.children[n].Dir? :: Stored(h, objects, dir.children[n])
  }

  /** SHA-1 does not collide on the byte strings in question. */
  ghost predicate CollisionFree(h: Hash, data: set<Data>) {
    forall x, y | x in data && y in data && h(x) == h(y) :: x == y
  }

  ghost predicate KeyedByHash(h: Hash, objects: map<Raw, Data>) {
    forall k | k in objects :: h(objects[k]) == k
  }

  lemma {:induction false} WrittenStored(h: Hash, objects: map<Raw, Data>, dir: Node)
    requires dir.Dir? && KeyedByHash(h, objects)
    requires forall d | d in Written(h, dir) :: h(d) in objects && objects[h(d)] == d
    ensures Stored(h, objects, dir)
    decreases dir
  {
    forall n | n in dir.children && dir.children[n].Dir? ensures Stored(h, objects, dir.children[n]) {
      assert forall d | d in Written(h, dir.children[n]) :: d in Written(h, dir);
      WrittenStored(h, objects, dir.children[n]);
    }
  }

  class Repository {
    var objects: map<Raw, Data>
    const h: Hash

    ghost predicate Valid()
      reads this
    {
      KeyedByHash(h, objects)
    }

    constructor (h: Hash)
      ensures this.h == h && objects == map[] && Valid()
    {
      this.h, objects := h, map[];
    }

    /** `put_object`: insert or ignore. */
    method PutObject(data: Data) returns (id: Raw)
      requires Valid()
      modifies this
      ensures Valid() && id == h(data)
      ensures objects == if h(data) in old(objects) then old(objects) else old(objects)[h(data) := data]
    {
      id := h(data);
      if id !in objects {
        objects := objects[id := data];
      }
    }

    /** `_write_tree_node`: children first, then the tree of their ids. */
    method WriteTreeNode(dir: Node) returns (id: Raw)
      requires Valid() && dir.Dir?
      modifies this
      ensures Valid() && id == TreeId(h, dir)
      ensures Extends(old(objects), objects, Written(h, dir)) && HasAll(h, objects, Written(h, dir))
      decreases dir
    {
      hide LexLeq, Extends, Written, EntriesOf, HasAll, HasChildren, KeyedByHash, CanonicalObject, SerializeTree;
      var names := SortNames(dir.children.Keys);
      var entries: seq<TreeEntry> := [];
      ExtendsSelf(objects, Written(h, dir));
      NoneYet(h, objects, dir);
      EntriesNone(h, dir);
      assert names[..0] == [];
      for i := 0 to |names|
        invariant Valid()
        invariant entries == EntriesOf(h, names[..i], dir)
        invariant Extends(old(objects), objects, Written(h, dir))
        invariant HasChildren(h, objects, dir, names[..i])
      {
        var name := names[i];
        assert name in dir.children;
        EntriesSnoc(h, names[..i], name, dir);
        var entry;
        if dir.children[name].File? {
          entry := TreeEntry(dir.children[name].entry.mode, name, dir.children[name].entry.oid);
        } else {
          label Before:
          var child := WriteTreeNode(dir.children[name]);
          entry := TreeEntry(DIR_MODE, name, child);
          ExtendsTrans(h, old(objects), old@Before(objects), objects, dir, name);
          HasChildrenGrows(h, old@Before(objects), objects, Written(h, dir.children[name]), dir, names[..i]);
        }
        entries := entries + [entry];
        PrefixStep(names, i);
        HasOneMore(h, objects, dir, names[..i], name);
      }
      assert names[..|names|] == names;
      label Last:
      id := PutObject(CanonicalObject("tree", SerializeTree(entries)));
      PutLast(h, old(objects), old@Last(objects), objects, dir);
    }

    /** `build_tree`: None is an invalid path or a clash.  Without a collision the trees are stored. */
    method BuildTree(entries: seq<(Path, Entry)>) returns (id: Option<Raw>)
      requires Valid()
      modifies this
      ensures Valid() && (id.Some? <==> Nest(entries).Some?)
      ensures id.None? ==> objects == old(objects)
      ensures id.Some? ==>
                id.value == TreeId(h, Nest(entries).value) &&
                Extends(old(objects), objects, Written(h, Nest(entries).value)) &&
                (CollisionFree(h, old(objects).Values + Written(h, Nest(entries).value)) ==>
                   Stored(h, objects, Nest(entries).value))
    {
      hide Written, Stored, Extends, CollisionFree, Nest, HasAll, KeyedByHash, TreeId;
      var nested := BuildNested(entries);
      if nested.None? {
        return None;
      }
      var root := WriteTreeNode(nested.value);
      if CollisionFree(h, old(objects).Values + Written(h, nested.value)) {
        ExtendsStores(h, old(objects), objects, nested.value);
      }
      id := Some(root);
    }
  }

  ghost predicate HasAll(h: Hash, objects: map<Raw, Data>, data: set<Data>) {
    forall d | d in data :: h(d) in objects
  }

  lemma EntriesStep(h: Hash, names: seq<Name>, dir: Node)
    requires dir.Dir? && names != [] && forall n | n in names :: n in dir.children
    ensures names[0] in dir.children
    ensures EntriesOf(h, names, dir) ==
            [if dir.children[names[0]].File?
             then TreeEntry(dir.children[names[0]].entry.mode, names[0], dir.children[names[0]].entry.oid)
             else TreeEntry(DIR_MODE, names[0], TreeId(h, dir.children[names[0]]))]
            + EntriesOf(h, names[1..], dir)
  {
    assert names[0] in names;
  }

  lemma {:induction false} EntriesSnoc(h: Hash, names: seq<Name>, name: Name, dir: Node)
    requires dir.Dir? && name in dir.children && forall n | n in names :: n in dir.children
    ensures EntriesOf(h, names + [name], dir) ==
            EntriesOf(h, names, dir) +
            [if dir.children[name].File?
             then TreeEntry(dir.children[name].entry.mode, name, dir.children[name].entry.oid)
             else TreeEntry(DIR_MODE, name, TreeId(h, dir.children[name]))]
  {
    hide TreeId;
    if names != [] {
      EntriesSnoc(h, names[1..], name, dir);
      assert (names + [name])[1..] == names[1..] + [name];
    }
  }

  lemma EntriesNone(h: Hash, dir: Node)
    requires dir.Dir?
    ensures EntriesOf(h, [], dir) == []
  {
  }

  lemma ExtendsSelf(objects: map<Raw, Data>, added: set<Data>)
    ensures Extends(objects, objects, added)
  {
  }

  lemma ExtendsTrans(h: Hash, was: map<Raw, Data>, mid: map<Raw, Data>, now: map<Raw, Data>, dir: Node, name: Name)
    requires dir.Dir? && name in dir.children && dir.children[name].Dir?
    requires Extends(was, mid, Written(h, dir)) && Extends(mid, now, Written(h, dir.children[name]))
    ensures Extends(was, now, Written(h, dir))
  {
    assert forall d | d in Written(h, dir.children[name]) :: d in Written(h, dir);
  }

  /** The subtrees below some names are in the store. */
  ghost predicate HasChildren(h: Hash, objects: map<Raw, Data>, dir: Node, names: seq<Name>) {
    dir.Dir? && forall n | n in names && n in dir.children && dir.children[n].Dir? ::
      HasAll(h, objects, Written(h, dir.children[n]))
  }

  lemma NoneYet(h: Hash, objects: map<Raw, Data>, dir: Node)
    requires dir.Dir?
    ensures HasChildren(h, objects, dir, [])
  {
  }

  lemma HasChildrenGrows(h: Hash, was: map<Raw, Data>, now: map<Raw, Data>, added: set<Data>, dir: Node, names: seq<Name>)
    requires HasChildren(h, was, dir, names) && Extends(was, now, added)
    ensures HasChildren(h, now, dir, names)
  {
    hide Written;
  }

  lemma HasOneMore(h: Hash, objects: map<Raw, Data>, dir: Node, names: seq<Name>, name: Name)
    requires HasChildren(h, objects, dir, names) && name in dir.children
    requires dir.children[name].Dir? ==> HasAll(h, objects, Written(h, dir.children[name]))
    ensures HasChildren(h, objects, dir, names + [name])
  {
    hide Written, HasAll;
  }

  lemma PutLast(h: Hash, was: map<Raw, Data>, mid: map<Raw, Data>, now: map<Raw, Data>, dir: Node)
    requires dir.Dir? && Extends(was, mid, Written(h, dir))
    requires HasChildren(h, mid, dir, Sorted(dir.children.Keys))
    requires now == if TreeId(h, dir) in mid then mid else mid[TreeId(h, dir) := TreeBytes(h, dir)]
    ensures Extends(was, now, Written(h, dir)) && HasAll(h, now, Written(h, dir))
  {
    assert TreeBytes(h, dir) in Written(h, dir);
  }

  /** The store only gained objects, and only from `added`. */
  ghost predicate Extends(was: map<Raw, Data>, now: map<Raw, Data>, added: set<Data>) {
    (forall k | k in was :: k in now && now[k] == was[k]) && forall k | k in now && k !in was :: now[k] in added
  }

  /** Unless SHA-1 collides, everything that was written can be read back. */
  lemma ExtendsStores(h: Hash, was: map<Raw, Data>, now: map<Raw, Data>, dir: Node)
    requires dir.Dir? && KeyedByHash(h, now) && Extends(was, now, Written(h, dir))
    requires HasAll(h, now, Written(h, dir))
    requires CollisionFree(h, was.Values + Written(h, dir))
    ensures Stored(h, now, dir)
  {
    forall d | d in Written(h, dir) ensures now[h(d)] == d {
      var x := now[h(d)];
      assert x in was.Values + Written(h, dir);
    }
    WrittenStored(h, now, dir);
  }
}
