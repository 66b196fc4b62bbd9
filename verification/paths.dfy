/** Repository paths.

    The program keeps a path as one string with '/' between the names.  The model keeps the
    sequence of names and proves, at the end of this module, that the two views agree on
    splitting, joining and the "is under that directory" test. */
module Paths {

  type Name = string
  type Path = seq<Name>

  const KEEP: Name := ".trunkskeep"

  /** The root and every proper prefix of a file path: the directories a file set implies. */
  function Dirs(files: set<Path>): set<Path> {
    {[]} + set p: Path, k: nat | p in files && k < |p| :: p[..k]
  }

  /** The names directly below a directory. */
  ghost function Children(files: set<Path>, dir: Path): set<Name> {
    set p | p in files && dir < p :: p[|dir|]
  }

  ghost function ChildrenMap(files: set<Path>): map<Path, set<Name>> {
    map d | d in Dirs(files) :: Children(files, d)
  }

  function Under(files: set<Path>, dir: Path): set<Path> {
    set p | p in files && dir < p
  }

  ghost predicate Below(p: Path, q: Path) { p < q }

  /** No file is at the same time a directory of another file. */
  ghost predicate PrefixFree(files: set<Path>) {
    [] !in files && forall p, q {:trigger Below(p, q)} | p in files && q in files :: !Below(p, q)
  }

  lemma DirsMember(files: set<Path>, d: Path)
    ensures d in Dirs(files) <==> d == [] || exists p :: p in files && d < p
  {
    if p :| p in files && d < p {
      assert p[..|d|] == d;
    }
  }

  /** Prefix-freedom says exactly that files and directories do not overlap. */
  lemma PrefixFreeIffNoClash(files: set<Path>)
    ensures PrefixFree(files) <==> files !! Dirs(files)
  {
    if PrefixFree(files) {
      forall p | p in files ensures p !in Dirs(files) {
        DirsMember(files, p);
        assert forall q | q in files :: !Below(p, q);
      }
    }
    if files !! Dirs(files) {
      forall p, q | p in files && q in files ensures !Below(p, q) { DirsMember(files, p); }
    }
  }

  /** A prefix of a directory is not a file. */
  lemma DirPrefixNotFile(files: set<Path>, dir: Path, p: Path)
    requires PrefixFree(files) && dir in Dirs(files) && p <= dir
    ensures p !in files
  {
    DirsMember(files, dir);
    if dir != [] {
      var q :| q in files && dir < q;
      assert Below(p, q);
    }
  }

  /** Adding a file below an existing directory, where neither a file nor a directory lives yet,
      cannot create a clash. */
  lemma AddFresh(files: set<Path>, dir: Path, target: Path)
    requires PrefixFree(files)
    requires dir in Dirs(files) && dir < target
    requires forall k | |dir| < k <= |target| :: target[..k] !in files && target[..k] !in Dirs(files)
    ensures PrefixFree(files + {target})
  {
    assert target[..|target|] == target;
    DirsMember(files, target);
    forall p | p < target ensures p !in files {
      assert p == target[..|p|];
      if |p| <= |dir| {
        DirPrefixNotFile(files, dir, p);
      }
    }
  }

  /** The '/'-joined form the program stores. */
  function Join(p: Path): string
  {
    if p == [] then "" else if |p| == 1 then p[0] else p[0] + "/" + Join(p[1..])
  }

  function Split(s: string): (p: Path)
    ensures p != []
  {
    if s == "" then [""]
    else
      var rest := Split(s[1..]);
      if s[0] == '/' then [""] + rest else [[s[0]] + rest[0]] + rest[1..]
  }

  predicate NoSlash(n: Name) { '/' !in n }

  lemma {:induction false} SplitOne(n: Name)
    requires NoSlash(n)
    ensures Split(n) == [n]
  {
    if n != "" {
      SplitOne(n[1..]);
      assert [n[0]] + n[1..] == n;
    }
  }

  lemma {:induction false} SplitCons(n: Name, s: string)
    requires NoSlash(n)
    ensures Split(n + "/" + s) == [n] + Split(s)
  {
    var t := n + "/" + s;
    if n == "" {
      assert t[1..] == s;
    } else {
      assert t[1..] == n[1..] + "/" + s;
      SplitCons(n[1..], s);
      assert [n[0]] + n[1..] == n;
    }
  }

  /** Splitting the joined string gives the names back, so joining loses nothing. */
  lemma {:induction false} SplitJoin(p: Path)
    requires p != [] && forall n | n in p :: NoSlash(n)
    ensures Split(Join(p)) == p
  {
    if |p| == 1 {
      SplitOne(p[0]);
    } else {
      SplitJoin(p[1..]);
      SplitCons(p[0], Join(p[1..]));
    }
  }

  lemma {:induction false} JoinAppend(d: Path, e: Path)
    requires d != [] && e != []
    ensures Join(d + e) == Join(d) + "/" + Join(e)
  {
    if |d| > 1 {
      JoinAppend(d[1..], e);
      assert (d + e)[1..] == d[1..] + e;
    } else {
      assert (d + e)[1..] == e;
    }
  }

  lemma {:induction false} JoinSplit(s: string)
    ensures Join(Split(s)) == s
  {
    if s != "" {
      JoinSplit(s[1..]);
      var rest := Split(s[1..]);
      if s[0] == '/' {
        assert ([""] + rest)[1..] == rest;
      } else {
        assert ([[s[0]] + rest[0]] + rest[1..])[1..] == rest[1..];
        assert s == [s[0]] + s[1..];
      }
    }
  }

  lemma {:induction false} SplitNoSlash(s: string)
    ensures forall n | n in Split(s) :: NoSlash(n)
  {
    if s != "" {
      SplitNoSlash(s[1..]);
      var rest := Split(s[1..]);
      assert rest[0] in rest;
    }
  }

  /** The program's `path.startswith(dir + "/")` is the proper-prefix test on names. */
  lemma UnderIsStringPrefix(d: Path, p: Path)
    requires d != [] && p != []
    requires (forall n | n in d :: NoSlash(n)) && (forall n | n in p :: NoSlash(n))
    ensures Join(d) + "/" <= Join(p) <==> d < p
  {
    if d < p {
      JoinAppend(d, p[|d|..]);
      assert p == d + p[|d|..];
    }
    if Join(d) + "/" <= Join(p) {
      var rest := Join(p)[|Join(d)| + 1..];
      assert Join(p) == Join(d) + "/" + rest;
      SplitNoSlash(rest);
      JoinSplit(rest);
      JoinAppend(d, Split(rest));
      SplitJoin(d + Split(rest));
      SplitJoin(p);
      assert p == d + Split(rest);
    }
  }
}
