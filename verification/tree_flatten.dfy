/** Reading nested trees back through the stored bytes. */
module TreeFlatten {
  import opened Core
  import opened Paths
  import opened NfsSpec
  import opened Objects
  import opened Ordering
  import opened TreeStore

  type Flat = seq<(Path, Entry)>

  function Both(a: Option<Flat>, b: Option<Flat>): Option<Flat> {
    if a.None? || b.None? then None else Some(a.value + b.value)
  }

  /** `Repository.tree`: fetch, unframe, check the kind, parse. */
  function ReadTree(objects: map<Raw, Data>, id: Raw): Option<seq<TreeEntry>> {
    if id !in objects then None
    else match ParseCanonicalObject(objects[id])
      case None => None
      case Some((kind, payload)) => if kind == "tree" then ParseTree(payload) else None
  }

  /** `flatten_tree`.  None is an exception; `depth` bounds the recursion. */
  function Flatten(objects: map<Raw, Data>, id: Raw, prefix: Path, depth: nat): Option<Flat>
    decreases depth, 1, 0
  {
    if depth == 0 then None
    else match ReadTree(objects, id)
      case None => None
      case Some(entries) => FlattenEntries(objects, entries, prefix, depth)
  }

  function FlattenEntry(objects: map<Raw, Data>, e: TreeEntry, prefix: Path, depth: nat): Option<Flat>
    requires depth > 0
    decreases depth, 0, 0
  {
    var path := prefix + [e.name];
    if '/' in e.name || '\\' in e.name || !Trackable(path) then None
    else if e.mode == DIR_MODE then Flatten(objects, e.oid, path, depth - 1)
    else Some([(path, Entry(e.mode, e.oid))])
  }

  function FlattenEntries(objects: map<Raw, Data>, entries: seq<TreeEntry>, prefix: Path, depth: nat): Option<Flat>
    requires depth > 0
    decreases depth, 0, |entries|
  {
    if entries == [] then Some([])
    else Both(FlattenEntry(objects, entries[0], prefix, depth), FlattenEntries(objects, entries[1..], prefix, depth))
  }

  // ---- One level at a time, for any stored bytes ----

  /** A tree that can be read is stored as a framed list of exactly these entries. */
  lemma ReadTreeOnly(objects: map<Raw, Data>, id: Raw) returns (size: string)
    requires ReadTree(objects, id).Some?
    ensures id in objects && objects[id] == "tree " + size + [NUL] + SerializeTree(ReadTree(objects, id).value)
  {
    size := CanonicalOnly(objects[id]);
    hide ParseCanonicalObject, ParseTree, SerializeTree;
    var (kind, payload) := ParseCanonicalObject(objects[id]).value;
    TreeOnly(payload);
    assert "tree" + " " == "tree ";
  }

  /** What one entry of a tree adds to the flat list: the files of a directory, or itself. */
  ghost predicate Adds(objects: map<Raw, Data>, e: TreeEntry, prefix: Path, depth: nat, row: (Path, Entry))
    requires depth > 0
  {
    if e.mode == "40000"
    then var below := Flatten(objects, e.oid, prefix + [e.name], depth - 1); below.Some? && row in below.value
    else row.0 == prefix + [e.name] && row.1.mode == e.mode && row.1.oid == e.oid
  }

  /** An entry that can be flattened: a name without slashes that may be tracked, and if it is a
      directory, one that can be flattened itself. */
  ghost predicate Flattens(objects: map<Raw, Data>, e: TreeEntry, prefix: Path, depth: nat)
    requires depth > 0
  {
    '/' !in e.name && '\\' !in e.name && Trackable(prefix + [e.name]) &&
    (e.mode == "40000" ==> Flatten(objects, e.oid, prefix + [e.name], depth - 1).Some?)
  }

  lemma {:induction false} EntriesLevel(objects: map<Raw, Data>, entries: seq<TreeEntry>, prefix: Path, depth: nat)
    requires depth > 0
    ensures var flat := FlattenEntries(objects, entries, prefix, depth);
            (flat.Some? <==> forall i | 0 <= i < |entries| :: Flattens(objects, entries[i], prefix, depth)) &&
            (flat.Some? ==> forall row ::
               row in flat.value <==> exists i :: 0 <= i < |entries| && Adds(objects, entries[i], prefix, depth, row))
    decreases |entries|
  {
    if entries != [] {
      var e, rest := entries[0], entries[1..];
      EntriesLevel(objects, rest, prefix, depth);
      EntryLevel(objects, e, prefix, depth);
      hide FlattenEntry, Adds, Flattens;
      assert forall i | 0 < i < |entries| :: entries[i] == rest[i - 1];
      assert forall i | 0 <= i < |rest| :: rest[i] == entries[i + 1];
      var flat := FlattenEntries(objects, entries, prefix, depth);
      if flat.Some? {
        forall row ensures row in flat.value <==> exists i :: 0 <= i < |entries| && Adds(objects, entries[i], prefix, depth, row) {
          LevelRow(objects, entries, prefix, depth, row);
        }
      }
    }
  }

  lemma EntryLevel(objects: map<Raw, Data>, e: TreeEntry, prefix: Path, depth: nat)
    requires depth > 0
    ensures var one := FlattenEntry(objects, e, prefix, depth);
            (one.Some? <==> Flattens(objects, e, prefix, depth)) &&
            (one.Some? ==> forall row :: row in one.value <==> Adds(objects, e, prefix, depth, row))
  {
    hide Flatten, Trackable;
  }

  lemma LevelRow(objects: map<Raw, Data>, entries: seq<TreeEntry>, prefix: Path, depth: nat, row: (Path, Entry))
    requires depth > 0 && entries != []
    ensures (exists i :: 0 <= i < |entries| && Adds(objects, entries[i], prefix, depth, row)) <==>
            Adds(objects, entries[0], prefix, depth, row) ||
            exists i :: 0 <= i < |entries[1..]| && Adds(objects, entries[1..][i], prefix, depth, row)
  {
    hide Adds;
    var rest := entries[1..];
    if i :| 0 <= i < |entries| && Adds(objects, entries[i], prefix, depth, row) {
      if i > 0 { assert rest[i - 1] == entries[i]; }
    }
    if i :| 0 <= i < |rest| && Adds(objects, rest[i], prefix, depth, row) {
      assert entries[i + 1] == rest[i];
    }
  }

  /** Flattening any stored tree, level by level: it succeeds if and only if every entry can be
      flattened, and lists what the entries add. */
  lemma FlattenLevel(objects: map<Raw, Data>, id: Raw, prefix: Path, depth: nat)
    requires depth > 0 && ReadTree(objects, id).Some?
    ensures var entries, flat := ReadTree(objects, id).value, Flatten(objects, id, prefix, depth);
            (flat.Some? <==> forall i | 0 <= i < |entries| :: Flattens(objects, entries[i], prefix, depth)) &&
            (flat.Some? ==> forall row ::
               row in flat.value <==> exists i :: 0 <= i < |entries| && Adds(objects, entries[i], prefix, depth, row))
  {
    EntriesLevel(objects, ReadTree(objects, id).value, prefix, depth);
    FlattenReads(objects, id, ReadTree(objects, id).value, prefix, depth);
    hide Adds, Flattens, ReadTree;
  }

  // ---- What a directory holds ----

  /** The list has exactly the files of `dir`, below `prefix`, whose first name is among `names`. */
  ghost predicate ListsNames(flat: Flat, prefix: Path, dir: Node, names: set<Name>) {
    forall q, e :: (q, e) in flat <==>
      prefix < q && q[|prefix|] in names && Find(dir, q[|prefix|..]) == Some(e)
  }

  /** Every file has a valid full path and entry, and no path is longer than `depth`. */
  ghost predicate Fits(dir: Node, prefix: Path, depth: nat) {
    forall p | Find(dir, p).Some? :: Trackable(prefix + p) && ValidEntry(Find(dir, p).value) && |p| <= depth
  }

  lemma {:induction false} ProperHasFile(dir: Node) returns (p: Path)
    requires Proper(dir) && dir.children != map[]
    ensures Find(dir, p).Some?
    decreases dir
  {
    var n :| n in dir.children;
    match dir.children[n] {
      case File(e) => p := [n];
      case Dir(c) =>
        var q := ProperHasFile(dir.children[n]);
        p := [n] + q;
        assert p[1..] == q;
    }
  }

  lemma TrackablePrefix(p: Path, q: Path)
    requires Trackable(q) && [] < p <= q
    ensures Trackable(p)
  {
    assert forall i | 0 <= i < |p| :: p[i] == q[i];
  }

  lemma FitsBelow(dir: Node, n: Name, prefix: Path, depth: nat)
    requires Proper(dir) && n in dir.children && Fits(dir, prefix, depth)
    ensures Trackable(prefix + [n]) && NUL !in n && '/' !in n && '\\' !in n
    ensures dir.children[n].File? ==> ValidEntry(dir.children[n].entry)
    ensures dir.children[n].Dir? ==> depth > 1 && Fits(dir.children[n], prefix + [n], depth - 1)
  {
    var child := dir.children[n];
    if child.File? {
      assert Find(dir, [n]) == Some(child.entry);
    } else {
      forall p | Find(child, p).Some?
        ensures Trackable(prefix + [n] + p) && ValidEntry(Find(child, p).value) && |p| <= depth - 1
      {
        assert ([n] + p)[1..] == p;
        assert Find(dir, [n] + p) == Find(child, p);
        assert prefix + [n] + p == prefix + ([n] + p);
      }
      var q := ProperHasFile(child);
      TrackablePrefix(prefix + [n], prefix + [n] + q);
    }
    assert (prefix + [n])[|prefix|] == n && PartOk(n);
  }

  lemma ReadStoredTree(h: Hash, objects: map<Raw, Data>, dir: Node)
    requires Proper(dir) && Stored(h, objects, dir)
    requires forall n | n in dir.children :: NUL !in n && (dir.children[n].File? ==> ValidEntry(dir.children[n].entry))
    ensures ReadTree(objects, TreeId(h, dir)) == Some(EntriesOf(h, Sorted(dir.children.Keys), dir))
  {
    var entries := EntriesOf(h, Sorted(dir.children.Keys), dir);
    EntriesValid(h, Sorted(dir.children.Keys), dir);
    TreeRoundTrip(entries);
    CanonicalRoundTrip("tree", SerializeTree(entries));
  }

  lemma {:induction false} EntriesValid(h: Hash, names: seq<Name>, dir: Node)
    requires dir.Dir? && forall n | n in names :: n in dir.children
    requires forall n | n in dir.children :: NUL !in n && (dir.children[n].File? ==> ValidEntry(dir.children[n].entry))
    ensures forall i | 0 <= i < |EntriesOf(h, names, dir)| :: ValidTreeEntry(EntriesOf(h, names, dir)[i])
    decreases |names|
  {
    if names != [] {
      assert names[0] in names;
      EntriesValid(h, names[1..], dir);
    }
  }

  // ---- Round trip ----

  lemma {:induction false} FlattenStored(h: Hash, objects: map<Raw, Data>, dir: Node, prefix: Path, depth: nat)
    requires Proper(dir) && Stored(h, objects, dir) && Fits(dir, prefix, depth) && depth > 0
    ensures Flatten(objects, TreeId(h, dir), prefix, depth).Some?
    ensures ListsNames(Flatten(objects, TreeId(h, dir), prefix, depth).value, prefix, dir, dir.children.Keys)
    ensures DistinctPaths(Flatten(objects, TreeId(h, dir), prefix, depth).value)
    decreases dir, 1, 0
  {
    assert dir.Dir?;
    hide *;
    var names := Sorted(dir.children.Keys);
    var entries := EntriesOf(h, names, dir);
    NamesFit(dir, prefix, depth);
    ReadStoredTree(h, objects, dir);
    SortedDistinct(dir.children.Keys);
    FlattenReads(objects, TreeId(h, dir), entries, prefix, depth);
    FlattenNames(h, objects, dir, names, prefix, depth);
    assert (set n | n in names) == dir.children.Keys;
  }

  lemma NamesFit(dir: Node, prefix: Path, depth: nat)
    requires Proper(dir) && Fits(dir, prefix, depth)
    ensures forall n | n in dir.children :: NUL !in n && (dir.children[n].File? ==> ValidEntry(dir.children[n].entry))
  {
    hide Fits, ValidEntry, Trackable;
    forall n | n in dir.children ensures NUL !in n && (dir.children[n].File? ==> ValidEntry(dir.children[n].entry)) {
      FitsBelow(dir, n, prefix, depth);
    }
  }

  lemma FlattenReads(objects: map<Raw, Data>, id: Raw, entries: seq<TreeEntry>, prefix: Path, depth: nat)
    requires depth > 0 && ReadTree(objects, id) == Some(entries)
    ensures Flatten(objects, id, prefix, depth) == FlattenEntries(objects, entries, prefix, depth)
  {
  }

  lemma {:induction false} FlattenNames(h: Hash, objects: map<Raw, Data>, dir: Node, names: seq<Name>, prefix: Path, depth: nat)
    requires Proper(dir) && Stored(h, objects, dir) && Fits(dir, prefix, depth) && depth > 0
    requires dir.Dir? && NoRepeats(names) && forall n | n in names :: n in dir.children
    ensures FlattenEntries(objects, EntriesOf(h, names, dir), prefix, depth).Some?
    ensures ListsNames(FlattenEntries(objects, EntriesOf(h, names, dir), prefix, depth).value, prefix, dir, set n | n in names)
    ensures DistinctPaths(FlattenEntries(objects, EntriesOf(h, names, dir), prefix, depth).value)
    decreases dir, 0, |names|
  {
    hide ListsNames, Stored, Proper, Fits, Find, FlattenEntry, Flatten, EntriesOf, NoRepeats, DistinctPaths;
    if names == [] {
      EntriesNone(h, dir);
      ListsNone(prefix, dir);
      NoPaths();
      assert (set n | n in names) == {};
    } else {
      var n, rest := names[0], names[1..];
      EntriesStep(h, names, dir);
      var entry := EntriesOf(h, names, dir)[0];
      assert EntriesOf(h, names, dir)[1..] == EntriesOf(h, rest, dir);
      FlattenOne(h, objects, dir, n, entry, prefix, depth);
      RestDistinct(names);
      FlattenNames(h, objects, dir, rest, prefix, depth);
      var one := FlattenEntry(objects, entry, prefix, depth).value;
      var more := FlattenEntries(objects, EntriesOf(h, rest, dir), prefix, depth).value;
      ListsBoth(one, more, prefix, dir, {n}, set m | m in rest);
      BothDistinct(one, more, prefix, dir, {n}, set m | m in rest);
      assert (set m | m in names) == {n} + set m | m in rest;
    }
  }

  ghost predicate NoRepeats(names: seq<Name>) { forall i, j | 0 <= i < j < |names| :: names[i] != names[j] }

  lemma SortedDistinct(names: set<Name>)
    ensures NoRepeats(Sorted(names))
  {
    SortedIsSorted(names);
  }

  lemma RestDistinct(names: seq<Name>)
    requires NoRepeats(names) && names != []
    ensures NoRepeats(names[1..]) && {names[0]} !! set m | m in names[1..]
  {
  }

  lemma NoPaths()
    ensures DistinctPaths([])
  {
  }

  /** Lists below different names share no path. */
  lemma BothDistinct(a: Flat, b: Flat, prefix: Path, dir: Node, ns: set<Name>, ms: set<Name>)
    requires ListsNames(a, prefix, dir, ns) && ListsNames(b, prefix, dir, ms) && ns !! ms
    requires DistinctPaths(a) && DistinctPaths(b)
    ensures DistinctPaths(a + b)
  {
    hide Find;
    forall i, j | 0 <= i < |a| && 0 <= j < |b| ensures a[i].0 != b[j].0 {
      assert (a[i].0, a[i].1) in a && (b[j].0, b[j].1) in b;
    }
    hide ListsNames;
  }

  lemma ListsNone(prefix: Path, dir: Node)
    ensures ListsNames([], prefix, dir, {})
  {
  }

  lemma ListsBoth(a: Flat, b: Flat, prefix: Path, dir: Node, ns: set<Name>, ms: set<Name>)
    requires ListsNames(a, prefix, dir, ns) && ListsNames(b, prefix, dir, ms)
    ensures ListsNames(a + b, prefix, dir, ns + ms)
  {
  }

  lemma {:induction false} FlattenOne(h: Hash, objects: map<Raw, Data>, dir: Node, n: Name, entry: TreeEntry, prefix: Path, depth: nat)
    requires Proper(dir) && Stored(h, objects, dir) && Fits(dir, prefix, depth) && depth > 0
    requires n in dir.children
    requires entry == if dir.children[n].File?
                      then TreeEntry(dir.children[n].entry.mode, n, dir.children[n].entry.oid)
                      else TreeEntry(DIR_MODE, n, TreeId(h, dir.children[n]))
    ensures FlattenEntry(objects, entry, prefix, depth).Some?
    ensures ListsNames(FlattenEntry(objects, entry, prefix, depth).value, prefix, dir, {n})
    ensures DistinctPaths(FlattenEntry(objects, entry, prefix, depth).value)
    decreases dir, 0, 0
  {
    assert dir.Dir?;
    hide Stored, Proper, Fits, ListsNames, Trackable, ValidEntry;
    FitsBelow(dir, n, prefix, depth);
    var child := dir.children[n];
    if child.File? {
      ListsFile(prefix, dir, n);
      NotADirectory(child.entry);
    } else {
      ChildOk(h, objects, dir, n);
      FlattenStored(h, objects, child, prefix + [n], depth - 1);
      ListsChild(Flatten(objects, TreeId(h, child), prefix + [n], depth - 1).value, prefix, dir, n);
    }
  }

  lemma NotADirectory(e: Entry)
    requires ValidEntry(e)
    ensures e.mode != DIR_MODE
  {
  }

  lemma ChildOk(h: Hash, objects: map<Raw, Data>, dir: Node, n: Name)
    requires Proper(dir) && Stored(h, objects, dir) && n in dir.children && dir.children[n].Dir?
    ensures Proper(dir.children[n]) && Stored(h, objects, dir.children[n])
  {
  }

  lemma ListsFile(prefix: Path, dir: Node, n: Name)
    requires dir.Dir? && n in dir.children && dir.children[n].File?
    ensures ListsNames([(prefix + [n], dir.children[n].entry)], prefix, dir, {n})
  {
    var path, child := prefix + [n], dir.children[n];
    forall q, e ensures (q, e) in [(path, child.entry)] <==>
                        prefix < q && q[|prefix|] in {n} && Find(dir, q[|prefix|..]) == Some(e) {
      if prefix < q && q[|prefix|] == n && Find(dir, q[|prefix|..]) == Some(e) {
        assert q == prefix + q[|prefix|..];
        assert q[|prefix|..] == [n];
      }
      assert path[|prefix|..] == [n];
    }
  }

  lemma ListsChild(flat: Flat, prefix: Path, dir: Node, n: Name)
    requires dir.Dir? && n in dir.children && dir.children[n].Dir?
    requires ListsNames(flat, prefix + [n], dir.children[n], dir.children[n].children.Keys)
    ensures ListsNames(flat, prefix, dir, {n})
  {
    hide Find;
    forall q, e ensures (q, e) in flat <==>
                        prefix < q && q[|prefix|] in {n} && Find(dir, q[|prefix|..]) == Some(e) {
      ChildLists(flat, prefix, dir, n, q, e);
    }
  }

  lemma ChildLists(flat: Flat, prefix: Path, dir: Node, n: Name, q: Path, e: Entry)
    requires dir.Dir? && n in dir.children && dir.children[n].Dir?
    requires ListsNames(flat, prefix + [n], dir.children[n], dir.children[n].children.Keys)
    ensures (q, e) in flat <==> prefix < q && q[|prefix|] in {n} && Find(dir, q[|prefix|..]) == Some(e)
  {
    var path, child := prefix + [n], dir.children[n];
    if prefix < q && q[|prefix|] == n {
      var r := q[|prefix|..];
      assert r[0] == n && r[1..] == q[|path|..] && q == prefix + r;
      assert Find(dir, r) == Find(child, r[1..]);
      assert path <= q;
      if Find(dir, r) == Some(e) {
        assert r[1..] != [] && r[1..][0] in child.children;
        assert path < q;
      }
    }
    if path < q {
      assert prefix < q && q[|prefix|] == path[|prefix|] == n;
    }
  }

  ghost predicate ValidEntries(entries: seq<(Path, Entry)>) {
    DistinctPaths(entries) && PrefixFree(PathsOf(entries)) &&
    forall i | 0 <= i < |entries| :: Trackable(entries[i].0) && ValidEntry(entries[i].1)
  }

  ghost predicate NoLongerThan(index: Index, depth: nat) { forall p | p in index :: |p| <= depth }

  lemma {:induction false} IndexValid(entries: seq<(Path, Entry)>)
    requires forall i | 0 <= i < |entries| :: Trackable(entries[i].0) && ValidEntry(entries[i].1)
    ensures forall p | p in IndexOf(entries) :: Trackable(p) && ValidEntry(IndexOf(entries)[p])
    ensures exists depth: nat :: depth > 0 && NoLongerThan(IndexOf(entries), depth)
  {
    if entries == [] {
      assert NoLongerThan(IndexOf(entries), 1);
    } else {
      var init := entries[..|entries| - 1];
      IndexValid(init);
      var depth: nat :| depth > 0 && NoLongerThan(IndexOf(init), depth);
      assert NoLongerThan(IndexOf(entries), depth + |entries[|entries| - 1].0|);
    }
  }

  /** The list is the index: every row once, and nothing else. */
  ghost predicate IsIndex(flat: Flat, index: Index) {
    DistinctPaths(flat) && forall q, e :: (q, e) in flat <==> q in index && index[q] == e
  }

  /** Building an index into trees and flattening the stored bytes returns the index. */
  lemma FlattenBuild(h: Hash, objects: map<Raw, Data>, entries: seq<(Path, Entry)>, depth: nat)
    requires ValidEntries(entries) && depth > 0 && NoLongerThan(IndexOf(entries), depth)
    requires Nest(entries).Some? ==> Stored(h, objects, Nest(entries).value)
    ensures Nest(entries).Some?
    ensures var flat := Flatten(objects, TreeId(h, Nest(entries).value), [], depth);
            flat.Some? && IsIndex(flat.value, IndexOf(entries))
  {
    NestDenotes(entries);
    var dir, index := Nest(entries).value, IndexOf(entries);
    IndexValid(entries);
    forall p | Find(dir, p).Some?
      ensures Trackable([] + p) && ValidEntry(Find(dir, p).value) && |p| <= depth
    {
      assert [] + p == p && p in index;
    }
    FlattenStored(h, objects, dir, [], depth);
    var flat := Flatten(objects, TreeId(h, dir), [], depth).value;
    forall q, e ensures (q, e) in flat <==> q in index && index[q] == e {
      assert q[0..] == q;
      if q in index { assert Find(dir, q) == Some(index[q]) && q != [] && q[0] in dir.children; }
    }
  }

  /** `reset_index_to_commit`: the rows go into an empty table whose key is the path; None is the
      error a repeated path would raise. */
  method ResetIndex(flat: Flat) returns (index: Option<Index>)
    ensures index.Some? <==> DistinctPaths(flat)
    ensures index.Some? ==> IsIndex(flat, index.value)
  {
    var rows: Index := map[];
    for i := 0 to |flat|
      invariant DistinctPaths(flat[..i])
      invariant forall q :: q in rows <==> exists k :: 0 <= k < i && flat[k].0 == q
      invariant forall k | 0 <= k < i :: rows[flat[k].0] == flat[k].1
    {
      if flat[i].0 in rows {
        return None;
      }
      rows := rows[flat[i].0 := flat[i].1];
    }
    assert flat[..|flat|] == flat;
    RowsAreIndex(flat, rows);
    index := Some(rows);
  }

  lemma RowsAreIndex(flat: Flat, rows: Index)
    requires DistinctPaths(flat)
    requires forall q :: q in rows <==> exists k :: 0 <= k < |flat| && flat[k].0 == q
    requires forall k | 0 <= k < |flat| :: flat[k].0 in rows && rows[flat[k].0] == flat[k].1
    ensures IsIndex(flat, rows)
  {
    forall q, e ensures (q, e) in flat <==> q in rows && rows[q] == e {
      if (q, e) in flat {
        var k :| 0 <= k < |flat| && flat[k] == (q, e);
        assert flat[k].0 == q;
      }
      if q in rows && rows[q] == e {
        var k :| 0 <= k < |flat| && flat[k].0 == q;
        assert flat[k] == (q, e);
      }
    }
  }

  ghost predicate SameFiles(a: Node, b: Node) { forall p :: Find(a, p) == Find(b, p) }

  /** Without empty directories the nested form of an index is unique. */
  lemma {:induction false} NestedUnique(a: Node, b: Node)
    requires Proper(a) && Proper(b) && SameFiles(a, b)
    ensures a == b
    decreases a
  {
    forall n | n in a.children ensures n in b.children && a.children[n] == b.children[n] {
      SameChild(a, b, n);
      if a.children[n].Dir? {
        NestedUnique(a.children[n], b.children[n]);
      }
    }
    forall n | n in b.children ensures n in a.children {
      SameChild(b, a, n);
    }
    assert a.children == b.children;
  }

  lemma FindName(dir: Node, n: Name)
    requires dir.Dir?
    ensures Find(dir, [n]) == if n in dir.children && dir.children[n].File? then Some(dir.children[n].entry) else None
  {
    assert [n][1..] == [];
  }

  lemma FindUnder(dir: Node, n: Name, p: Path)
    requires dir.Dir? && n in dir.children && dir.children[n].Dir?
    ensures Find(dir, [n] + p) == Find(dir.children[n], p)
  {
    assert ([n] + p)[1..] == p;
  }

  lemma SameChild(a: Node, b: Node, n: Name)
    requires Proper(a) && Proper(b) && n in a.children && SameFiles(a, b)
    ensures n in b.children && (a.children[n].File? ==> b.children[n] == a.children[n])
    ensures a.children[n].Dir? ==> b.children[n].Dir? && SameFiles(a.children[n], b.children[n])
  {
    assert Find(a, [n]) == Find(b, [n]);
    FindName(a, n);
    FindName(b, n);
    if a.children[n].Dir? {
      var q := ProperHasFile(a.children[n]);
      FindUnder(a, n, q);
      assert Find(b, [n] + q).Some?;
      assert ([n] + q)[0] == n && |[n] + q| > 1;
      hide Proper;
      forall p ensures Find(a.children[n], p) == Find(b.children[n], p) {
        FindUnder(a, n, p);
        FindUnder(b, n, p);
      }
    }
  }

  /** Two indexes get the same tree id exactly when they are the same index, whatever the order of
      their rows.  This is what lets a checkpoint say "no changes". */
  lemma SameTreeIff(h: Hash, xs: seq<(Path, Entry)>, ys: seq<(Path, Entry)>)
    requires ValidEntries(xs) && ValidEntries(ys)
    requires Nest(xs).Some? && Nest(ys).Some? ==>
               CollisionFree(h, Written(h, Nest(xs).value) + Written(h, Nest(ys).value))
    ensures Nest(xs).Some? && Nest(ys).Some?
    ensures TreeId(h, Nest(xs).value) == TreeId(h, Nest(ys).value) <==> IndexOf(xs) == IndexOf(ys)
  {
    NestDenotes(xs);
    NestDenotes(ys);
    var a, b := Nest(xs).value, Nest(ys).value;
    if IndexOf(xs) == IndexOf(ys) {
      assert SameFiles(a, b);
      NestedUnique(a, b);
    }
    if TreeId(h, a) == TreeId(h, b) {
      SameIdSameIndex(h, xs, ys);
    }
  }

  lemma SameIdSameIndex(h: Hash, xs: seq<(Path, Entry)>, ys: seq<(Path, Entry)>)
    requires ValidEntries(xs) && ValidEntries(ys) && Nest(xs).Some? && Nest(ys).Some?
    requires CollisionFree(h, Written(h, Nest(xs).value) + Written(h, Nest(ys).value))
    requires TreeId(h, Nest(xs).value) == TreeId(h, Nest(ys).value)
    ensures IndexOf(xs) == IndexOf(ys)
  {
    hide Flatten, TreeId, Nest, IndexOf, ValidEntries, Written, IsIndex, NoLongerThan, Stored, CollisionFree;
    var a, b := Nest(xs).value, Nest(ys).value;
    var objects := StoreBoth(h, a, b);
    var i := DepthOf(xs);
    var j := DepthOf(ys);
    Deeper(IndexOf(xs), i, i + j);
    Deeper(IndexOf(ys), j, i + j);
    FlattenBuild(h, objects, xs, i + j);
    FlattenBuild(h, objects, ys, i + j);
    IndexUnique(Flatten(objects, TreeId(h, a), [], i + j).value, IndexOf(xs), IndexOf(ys));
  }

  lemma DepthOf(entries: seq<(Path, Entry)>) returns (depth: nat)
    requires ValidEntries(entries)
    ensures depth > 0 && NoLongerThan(IndexOf(entries), depth)
  {
    IndexValid(entries);
    depth :| depth > 0 && NoLongerThan(IndexOf(entries), depth);
  }

  lemma Deeper(index: Index, depth: nat, more: nat)
    requires NoLongerThan(index, depth) && depth <= more
    ensures NoLongerThan(index, more)
  {
  }

  /** A store that holds the trees of both. */
  lemma StoreBoth(h: Hash, a: Node, b: Node) returns (objects: map<Raw, Data>)
    requires a.Dir? && b.Dir? && CollisionFree(h, Written(h, a) + Written(h, b))
    ensures Stored(h, objects, a) && Stored(h, objects, b)
  {
    hide Written, Stored, KeyedByHash;
    objects := Keyed(h, Written(h, a) + Written(h, b));
    WrittenStored(h, objects, a);
    WrittenStored(h, objects, b);
  }

  ghost function Keyed(h: Hash, data: set<Data>): (objects: map<Raw, Data>)
    requires CollisionFree(h, data)
    ensures KeyedByHash(h, objects) && forall d | d in data :: h(d) in objects && objects[h(d)] == d
  {
    map d | d in data :: h(d) := d
  }

  lemma IndexUnique(flat: Flat, x: Index, y: Index)
    requires IsIndex(flat, x) && IsIndex(flat, y)
    ensures x == y
  {
    forall q ensures q in x <==> q in y {
      if q in x { assert (q, x[q]) in flat; }
      if q in y { assert (q, y[q]) in flat; }
    }
    forall q | q in x ensures x[q] == y[q] { assert (q, x[q]) in flat; }
  }
}
