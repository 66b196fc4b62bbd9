/** What an NFSv3 client of the mount is entitled to see: a plain map from paths to bytes.

    Nothing here knows about dirty buffers, staged blobs or caches.  Directories are the proper
    prefixes of the file paths (an explicit directory is held open by a hidden `.trunkskeep`). */
module NfsSpec {
  import opened Core
  import opened Paths
  import opened Ordering

  type Files = map<Path, Bytes>

  datatype Status = NoEnt | IsDir | NotDir | Inval | NameTooLong | Exist | NotEmpty | ServerFault
  datatype Attr = DirAttr | FileAttr(size: nat)
  datatype Reply =
    | Err(status: Status, attr: Option<Attr>)
    | GetattrOk(found: Attr)
    | SetattrOk(before: Option<Attr>, after: Option<Attr>)
    | LookupOk(target: Path, found: Attr)
    | ReadOk(found: Attr, data: Bytes, eof: bool)
    | WriteOk(was: Attr, now: Option<Attr>, count: nat)
    | MadeOk(target: Path, made: Option<Attr>)
    | GoneOk
    | MovedOk
    | ListOk(names: set<Name>)
    | CommitOk(attr: Option<Attr>)

  // ---- Names ----

  predicate PartOk(n: Name) {
    n != "" && n != "." && n != ".." && '/' !in n && '\\' !in n &&
    forall i | 0 <= i < |n| :: n[i] >= ' ' && n[i] != 127 as char
  }

  /** `_name_ok`: names are taken as their UTF-8 bytes, so the length bound is a byte count. */
  predicate NameOk(n: Name) { PartOk(n) && |n| <= 255 }

  /** What `_normalize_trackable_path` lets into the index. */
  predicate Trackable(p: Path) {
    p != [] && forall i | 0 <= i < |p| :: PartOk(p[i]) && p[i] != ".git" && p[i] != ".trunks"
  }

  /** Desktop metadata (`.DS_Store`, `._*`) is kept in a table of its own and is outside this model. */
  predicate OrdinaryName(n: Name) { n != ".DS_Store" && !("._" <= n) }

  predicate Ordinary(p: Path) { forall i | 0 <= i < |p| :: OrdinaryName(p[i]) }

  predicate Allowed(p: Path) { Trackable(p) && Ordinary(p) }

  ghost predicate GoodFiles(files: set<Path>) {
    PrefixFree(files) && forall p | p in files :: Allowed(p)
  }

  /** `_join`, for a name the client may have chosen freely. */
  function Target(dir: Path, name: Name): Path {
    if dir == [] && name == "" then [] else dir + Split(name)
  }

  // ---- Observing ----

  function StatOf(c: Files, p: Path): Option<Attr> {
    if p == [] then Some(DirAttr)
    else if p in c then Some(FileAttr(|c[p]|))
    else if p in Dirs(c.Keys) then Some(DirAttr)
    else None
  }

  ghost predicate IsDirectory(c: Files, p: Path) { StatOf(c, p) == Some(DirAttr) }

  function Slice(data: Bytes, offset: nat, count: nat): Bytes {
    if offset >= |data| then []
    else if offset + count >= |data| then data[offset..]
    else data[offset..offset + count]
  }

  ghost function ReadSpec(c: Files, p: Path, offset: nat, count: nat): Reply {
    var attr := StatOf(c, p);
    match attr
    case None => Err(NoEnt, None)
    case Some(DirAttr) => Err(IsDir, attr)
    case Some(FileAttr(_)) =>
      if p !in c then Err(NoEnt, None) else
      var data := Slice(c[p], offset, count);
      ReadOk(attr.value, data, offset + |data| >= |c[p]|)
  }

  ghost function LookupSpec(c: Files, dir: Path, name: Name): Reply {
    if !IsDirectory(c, dir) then Err(NotDir, StatOf(c, dir))
    else if name != "." && name != ".." && !NameOk(name) then Err(NameTooLong, StatOf(c, dir))
    else
      var target := if name == "." then dir
                    else if name == ".." then (if dir == [] then [] else dir[..|dir| - 1])
                    else dir + [name];
      match StatOf(c, target)
      case None => Err(NoEnt, StatOf(c, dir))
      case Some(a) => LookupOk(target, a)
  }

  ghost function ReaddirSpec(c: Files, dir: Path): Reply {
    if !IsDirectory(c, dir) then Err(NotDir, StatOf(c, dir))
    else ListOk(Children(c.Keys, dir) - {KEEP} + {".", ".."})
  }

  // ---- Changing bytes ----

  /** WRITE: byte by byte, new data where it was written, old bytes elsewhere, zeros in a gap. */
  function Overlay(old_: Bytes, offset: nat, data: Bytes): Bytes {
    seq(if offset + |data| > |old_| then offset + |data| else |old_|,
        i requires 0 <= i =>
          if offset <= i < offset + |data| then data[i - offset]
          else if i < |old_| then old_[i] else 0)
  }

  /** SETATTR size: cut or extend with zeros. */
  function Resize(old_: Bytes, size: nat): Bytes {
    seq(size, i requires 0 <= i => if i < |old_| then old_[i] else 0)
  }

  datatype Outcome = Outcome(files: Files, reply: Reply)

  ghost function WriteSpec(c: Files, p: Path, offset: nat, count: nat, data: Bytes): Outcome {
    var attr := StatOf(c, p);
    if count != |data| then Outcome(c, Err(Inval, attr))
    else match attr
      case None => Outcome(c, Err(NoEnt, None))
      case Some(DirAttr) => Outcome(c, Err(IsDir, attr))
      case Some(FileAttr(_)) =>
        if p !in c then Outcome(c, Err(NoEnt, None)) else
        var c' := c[p := Overlay(c[p], offset, data)];
        Outcome(c', WriteOk(attr.value, StatOf(c', p), |data|))
  }

  ghost function SetattrSpec(c: Files, p: Path, size: Option<nat>): Outcome {
    var before := StatOf(c, p);
    match size
    case None => Outcome(c, SetattrOk(before, before))
    case Some(n) =>
      if p !in c || before == Some(DirAttr) then Outcome(c, Err(Inval, before))
      else
        var c' := c[p := Resize(c[p], n)];
        Outcome(c', SetattrOk(before, StatOf(c', p)))
  }

  // ---- Changing the namespace ----

  ghost function CreateSpec(c: Files, dir: Path, name: Name, guarded: bool): Outcome {
    var dirAttr := StatOf(c, dir);
    if dirAttr != Some(DirAttr) then Outcome(c, Err(NotDir, dirAttr))
    else if !NameOk(name) then Outcome(c, Err(NameTooLong, dirAttr))
    else
      var target := dir + [name];
      if StatOf(c, target).Some? then
        if guarded then Outcome(c, Err(Exist, dirAttr))
        else Outcome(c, MadeOk(target, StatOf(c, target)))
      else if !Trackable(target) then Outcome(c, Err(ServerFault, None))
      else Outcome(c[target := []], MadeOk(target, Some(FileAttr(0))))
  }

  ghost function MkdirSpec(c: Files, dir: Path, name: Name): Outcome {
    var dirAttr := StatOf(c, dir);
    if dirAttr != Some(DirAttr) then Outcome(c, Err(NotDir, dirAttr))
    else if !NameOk(name) then Outcome(c, Err(NameTooLong, dirAttr))
    else
      var target := dir + [name];
      if StatOf(c, target).Some? then Outcome(c, Err(Exist, dirAttr))
      else if !Trackable(target) then Outcome(c, Err(ServerFault, None))
      else Outcome(c[target + [KEEP] := []], MadeOk(target, Some(DirAttr)))
  }

  ghost function RemoveSpec(c: Files, dir: Path, name: Name): Outcome {
    var dirAttr := StatOf(c, dir);
    var target := Target(dir, name);
    if dirAttr != Some(DirAttr) then Outcome(c, Err(NotDir, dirAttr))
    else match StatOf(c, target)
      case None => Outcome(c, Err(NoEnt, dirAttr))
      case Some(DirAttr) => Outcome(c, Err(IsDir, dirAttr))
      case Some(FileAttr(_)) => Outcome(c - {target}, GoneOk)
  }

  ghost function RmdirSpec(c: Files, dir: Path, name: Name): Outcome {
    var dirAttr := StatOf(c, dir);
    var target := Target(dir, name);
    if dirAttr != Some(DirAttr) then Outcome(c, Err(NotDir, dirAttr))
    else match StatOf(c, target)
      case None => Outcome(c, Err(NoEnt, dirAttr))
      case Some(FileAttr(_)) => Outcome(c, Err(NotDir, dirAttr))
      case Some(DirAttr) =>
        if Children(c.Keys, target) - {KEEP} != {} then Outcome(c, Err(NotEmpty, dirAttr))
        else if target == [] then Outcome(c, GoneOk)
        else Outcome(c - Under(c.Keys, target), GoneOk)
  }

  /** Where a path goes when the directory `source` becomes `dest`. */
  function MovedPath(source: Path, dest: Path, p: Path): Path {
    if source < p then dest + p[|source|..] else p
  }

  ghost function MovedPaths(files: set<Path>, source: Path, dest: Path): set<Path> {
    set p | p in files :: MovedPath(source, dest, p)
  }

  /** A directory move re-roots every path under `source` at `dest` and keeps all bytes. */
  ghost predicate IsMove(c: Files, c': Files, source: Path, dest: Path) {
    c'.Keys == MovedPaths(c.Keys, source, dest) &&
    forall p | p in c :: c'[MovedPath(source, dest, p)] == c[p]
  }

  /** Part of a directory move: only the files in `gone` have moved so far. */
  ghost predicate IsPartialMove(c: Files, c': Files, gone: set<Path>, source: Path, dest: Path) {
    c'.Keys == (c.Keys - gone) + MovedPaths(gone, source, dest) &&
    (forall p | p in c && p in gone :: c'[MovedPath(source, dest, p)] == c[p]) &&
    (forall p | p in c && p !in gone :: c'[p] == c[p])
  }

  /** What the program does when it moves one file row: a destination whose own buffer is dirty
      keeps showing that buffer, and a file moved onto itself is gone. */
  ghost function MoveOutcome(c: Files, source: Path, dest: Path, destDirty: bool): Files
    requires source in c
  {
    if source == dest || (destDirty && dest in c) then c - {source}
    else (c - {source})[dest := c[source]]
  }

  /** What RENAME of a file has to do, by section 3.3.14 of RFC 1813: the destination gets the
      bytes, and renaming a file to itself changes nothing. */
  ghost function RenameFileSpec(c: Files, source: Path, dest: Path): Files
    requires source in c
  {
    if source == dest then c else (c - {source})[dest := c[source]]
  }

  /** Exactly when moving the row is a correct rename: not onto itself, and not onto a file whose
      unflushed buffer differs from the bytes moved there. */
  lemma RenameFileCorrectIff(c: Files, source: Path, dest: Path, destDirty: bool)
    requires source in c
    ensures MoveOutcome(c, source, dest, destDirty) == RenameFileSpec(c, source, dest) <==>
            source != dest && (destDirty && dest in c ==> c[dest] == c[source])
  {
    var got, want := MoveOutcome(c, source, dest, destDirty), RenameFileSpec(c, source, dest);
    if source == dest {
      assert source in want && source !in got;
    } else if destDirty && dest in c {
      assert got[dest] == c[dest] && want[dest] == c[source];
      if c[dest] == c[source] { assert got == want; }
    }
  }

  /** Two inputs on which a rename goes wrong: `a` onto itself, and `a` onto a dirty `b`. */
  lemma RenameGoesWrong()
    ensures var c: Files := map[["a"] := [1], ["b"] := [2]];
            MoveOutcome(c, ["a"], ["a"], false) == map[["b"] := [2]] &&
            MoveOutcome(c, ["a"], ["b"], true) == map[["b"] := [2]] &&
            RenameFileSpec(c, ["a"], ["b"]) == map[["b"] := [1]]
  {
    var c: Files := map[["a"] := [1], ["b"] := [2]];
    assert ["a"][0] == "a" && ["b"][0] == "b" && "a"[0] == 'a' && "b"[0] == 'b';
    assert c - {["a"]} == map[["b"] := [2]];
    assert (c - {["a"]})[["b"] := c[["a"]]] == map[["b"] := [1]];
  }

  /** Whether a COMMIT range makes the handler flush. */
  predicate Flushing(offset: nat, count: nat, size: nat) { count == 0 || offset + count >= size }

  /** COMMIT never changes what is observable, and fails only when a staging job it waits for fails
      or there is nothing at the path.  A handle to a path that is no longer in the index still gets
      an answer when the head commit has a file there. */
  ghost predicate CommitSpec(c: Files, head: Files, p: Path, offset: nat, count: nat, waitOk: bool, r: Reply) {
    if p in c || p in head
    then r == CommitOk(StatOf(c, p)) ||
         (!waitOk && p in c && Flushing(offset, count, |c[p]|) && r == Err(ServerFault, None))
    else r == Err(ServerFault, None)
  }

  /** RENAME is modelled for a directory going to a free name outside itself, and for a file going to
      a free name or onto a file. */
  predicate RenameInScope(c: Files, source: Path, dest: Path) {
    match StatOf(c, source)
    case None => true
    case Some(DirAttr) => StatOf(c, dest).None? && !(source <= dest)
    case Some(FileAttr(_)) => StatOf(c, dest) != Some(DirAttr)
  }

  /** Index rows come in the order of their '/'-joined paths. */
  predicate RowBefore(p: Path, q: Path) { LexLeq(Join(p), Join(q)) && Join(p) != Join(q) }

  /** The rows a directory move has dealt with when it comes to `bad`. */
  function Earlier(rows: set<Path>, bad: Path): set<Path> { set p | p in rows && RowBefore(p, bad) }

  /** A directory move that stopped at a row whose staging job failed: the rows before it have moved,
      the others have not. */
  ghost predicate IsStoppedMove(c: Files, c': Files, source: Path, dest: Path, bad: Path) {
    bad in Under(c.Keys, source) && IsPartialMove(c, c', Earlier(Under(c.Keys, source), bad), source, dest)
  }

  /** A directory is moved as a whole, or up to a row whose staging job failed, or not at all. */
  ghost predicate DirectoryRenamed(c: Files, c': Files, source: Path, dest: Path, failing: set<Path>, r: Reply) {
    if !Trackable(dest) then c' == c && r == Err(ServerFault, None)
    else (r == MovedOk && IsMove(c, c', source, dest)) ||
         (r == Err(ServerFault, None) && exists bad :: bad in failing && IsStoppedMove(c, c', source, dest, bad))
  }

  ghost predicate RenameSpec(c: Files, c': Files, fromDir: Path, fromName: Name, toDir: Path, toName: Name,
                             failing: set<Path>, r: Reply)
  {
    var fromAttr, toAttr := StatOf(c, fromDir), StatOf(c, toDir);
    var source, dest := fromDir + [fromName], toDir + [toName];
    if fromAttr != Some(DirAttr) || toAttr != Some(DirAttr) then c' == c && r == Err(NotDir, fromAttr)
    else if !NameOk(fromName) || !NameOk(toName) then c' == c && r == Err(NameTooLong, fromAttr)
    else match StatOf(c, source)
      case None => c' == c && r == Err(NoEnt, fromAttr)
      case Some(DirAttr) =>
        DirectoryRenamed(c, c', source, dest, failing, r)
      case Some(FileAttr(_)) =>
        source in c &&
        if r == MovedOk
        then Trackable(dest) &&
             (c' == MoveOutcome(c, source, dest, false) || c' == MoveOutcome(c, source, dest, true))
        else c' == c && r == Err(ServerFault, None) && !(source !in failing && Trackable(dest))
  }

  // ---- Whole runs ----

  /** Client requests, and the events that happen behind the client's back.  `waitOk` and `failing` say
      how staging jobs end that a request has to wait for: the job of one file, or of several. */
  datatype Op =
    | OpGetattr(path: Path)
    | OpSetattr(path: Path, size: Option<nat>)
    | OpLookup(dir: Path, name: Name)
    | OpRead(path: Path, offset: nat, count: nat)
    | OpWrite(path: Path, offset: nat, count: nat, data: Bytes, loopRunning: bool)
    | OpCreate(dir: Path, name: Name, guarded: bool)
    | OpMkdir(dir: Path, name: Name)
    | OpRemove(dir: Path, name: Name)
    | OpRmdir(dir: Path, name: Name)
    | OpRename(dir: Path, name: Name, toDir: Path, toName: Name, failing: set<Path>)
    | OpReaddir(dir: Path)
    | OpCommit(path: Path, offset: nat, count: nat, waitOk: bool)
    | TimerFires(path: Path)
    | StageEnds(path: Path, ok: bool)
    | OrphanEnds(data: Bytes)

  /** What the model covers: no desktop metadata is created, and the renames above. */
  predicate InScope(c: Files, op: Op) {
    match op
    case OpCreate(_, n, _) => OrdinaryName(n)
    case OpMkdir(_, n) => OrdinaryName(n)
    case OpRename(d, n, td, tn, _) => OrdinaryName(tn) && RenameInScope(c, d + [n], td + [tn])
    case _ => true
  }

  /** One step of the abstract filesystem. */
  ghost predicate Step(head: Files, c: Files, op: Op, r: Reply, c': Files) {
    match op
    case OpGetattr(p) =>
      c' == c && r == (match StatOf(c, p) case None => Err(NoEnt, None) case Some(a) => GetattrOk(a))
    case OpSetattr(p, size) => Outcome(c', r) == SetattrSpec(c, p, size)
    case OpLookup(d, n) => c' == c && r == LookupSpec(c, d, n)
    case OpRead(p, offset, count) => c' == c && r == ReadSpec(c, p, offset, count)
    case OpWrite(p, offset, count, data, _) => Outcome(c', r) == WriteSpec(c, p, offset, count, data)
    case OpCreate(d, n, guarded) => Outcome(c', r) == CreateSpec(c, d, n, guarded)
    case OpMkdir(d, n) => Outcome(c', r) == MkdirSpec(c, d, n)
    case OpRemove(d, n) => Outcome(c', r) == RemoveSpec(c, d, n)
    case OpRmdir(d, n) => Outcome(c', r) == RmdirSpec(c, d, n)
    case OpRename(d, n, td, tn, failing) => RenameSpec(c, c', d, n, td, tn, failing, r)
    case OpReaddir(d) => c' == c && r == ReaddirSpec(c, d)
    case OpCommit(p, offset, count, waitOk) => c' == c && CommitSpec(c, head, p, offset, count, waitOk, r)
    case TimerFires(_) => c' == c
    case StageEnds(_, _) => c' == c
    case OrphanEnds(_) => c' == c
  }

  /** `states` is a run of the abstract filesystem that gives these replies to these requests. */
  ghost predicate IsRun(head: Files, states: seq<Files>, ops: seq<Op>, replies: seq<Reply>) {
    |replies| == |ops| && |states| == |ops| + 1 &&
    forall i | 0 <= i < |ops| :: Step(head, states[i], ops[i], replies[i], states[i + 1])
  }

  lemma RunExtends(head: Files, states: seq<Files>, ops: seq<Op>, replies: seq<Reply>, op: Op, r: Reply, c': Files)
    requires IsRun(head, states, ops, replies) && Step(head, states[|ops|], op, r, c')
    ensures IsRun(head, states + [c'], ops + [op], replies + [r])
  {
    hide Step;
  }

  // ---- Durability over whole runs ----

  /** Requests that may change the file at `p`. */
  predicate Touches(op: Op, p: Path) {
    match op
    case OpSetattr(q, size) => q == p && size.Some?
    case OpWrite(q, _, _, _, _) => q == p
    case OpCreate(d, n, _) => p == d + [n]
    case OpMkdir(d, n) => p == d + [n, KEEP]
    case OpRemove(d, n) => p == Target(d, n)
    case OpRmdir(d, n) => Target(d, n) <= p
    case OpRename(d, n, td, tn, _) => d + [n] <= p || td + [tn] <= p
    case _ => false
  }

  /** What does not touch a file leaves it as it was. */
  lemma StepFrames(head: Files, c: Files, op: Op, r: Reply, c': Files, p: Path)
    requires Step(head, c, op, r, c') && !Touches(op, p) && p in c
    ensures p in c' && c'[p] == c[p]
  {
    match op
    case OpMkdir(d, n) => assert d + [n] + [KEEP] == d + [n, KEEP];
    case OpRename(d, n, td, tn, _) => assert MovedPath(d + [n], td + [tn], p) == p;
    case _ =>
  }

  /** The index `d` holds the observed bytes of `p`. */
  ghost predicate Durable(c: Files, d: Files, p: Path) { p in c && p in d && d[p] == c[p] }

  /** An OK reply to a COMMIT whose range reaches the end of the file. */
  ghost predicate Commits(c: Files, op: Op, r: Reply, p: Path) {
    op.OpCommit? && op.path == p && r.CommitOk? && p in c && Flushing(op.offset, op.count, |c[p]|)
  }

  ghost predicate KeepsDurable(c: Files, d: Files, op: Op, r: Reply, c': Files, d': Files) {
    (forall p | Durable(c, d, p) && !Touches(op, p) :: Durable(c', d', p) && c'[p] == c[p]) &&
    forall p | Commits(c, op, r, p) :: Durable(c', d', p) && c'[p] == c[p]
  }

  ghost predicate IsDurableRun(states: seq<Files>, indexes: seq<Files>, ops: seq<Op>, replies: seq<Reply>) {
    |replies| == |ops| && |states| == |indexes| == |ops| + 1 &&
    forall i | 0 <= i < |ops| :: KeepsDurable(states[i], indexes[i], ops[i], replies[i], states[i + 1], indexes[i + 1])
  }

  lemma DurableExtends(states: seq<Files>, indexes: seq<Files>, ops: seq<Op>, replies: seq<Reply>, op: Op, r: Reply,
                       c': Files, d': Files)
    requires IsDurableRun(states, indexes, ops, replies)
    requires KeepsDurable(states[|ops|], indexes[|ops|], op, r, c', d')
    ensures IsDurableRun(states + [c'], indexes + [d'], ops + [op], replies + [r])
  {
    hide KeepsDurable;
  }

  lemma NoStepsYet(head: Files, c: Files, d: Files)
    ensures IsRun(head, [c], [], []) && IsDurableRun([c], [d], [], [])
  {
  }

  lemma BothExtend(head: Files, states: seq<Files>, indexes: seq<Files>, ops: seq<Op>, done: nat, replies: seq<Reply>,
                   r: Reply, c': Files, d': Files)
    requires done < |ops| && |states| == |indexes| == done + 1
    requires IsRun(head, states, ops[..done], replies) && Step(head, states[done], ops[done], r, c')
    requires IsDurableRun(states, indexes, ops[..done], replies)
    requires KeepsDurable(states[done], indexes[done], ops[done], r, c', d')
    ensures IsRun(head, states + [c'], ops[..done + 1], replies + [r])
    ensures IsDurableRun(states + [c'], indexes + [d'], ops[..done + 1], replies + [r])
  {
    hide Step, KeepsDurable;
    PrefixStep(ops, done);
    RunExtends(head, states, ops[..done], replies, ops[done], r, c');
    DurableExtends(states, indexes, ops[..done], replies, ops[done], r, c', d');
  }

  /** Committed bytes stay in the index, through any requests and background events, until a request
      touches that file. */
  lemma {:induction false} CommittedStays(states: seq<Files>, indexes: seq<Files>, ops: seq<Op>, replies: seq<Reply>,
                                          i: nat, j: nat, p: Path)
    requires IsDurableRun(states, indexes, ops, replies) && i < j <= |ops|
    requires Commits(states[i], ops[i], replies[i], p)
    requires forall k | i < k < j :: !Touches(ops[k], p)
    ensures p in indexes[j] && p in states[j] && indexes[j][p] == states[j][p] == states[i][p]
    decreases j - i
  {
    hide Commits, Touches;
    if i + 1 < j {
      CommittedStays(states, indexes, ops, replies, i, j - 1, p);
    }
    assert KeepsDurable(states[j - 1], indexes[j - 1], ops[j - 1], replies[j - 1], states[j], indexes[j]);
  }

  // ---- Reading, writing and moving, in bytes ----

  /** READ of a file: bytes from the offset on, as many as asked for unless the file ends first. */
  lemma ReadMeans(c: Files, p: Path, offset: nat, count: nat)
    requires p in c && p != []
    ensures var r := ReadSpec(c, p, offset, count);
            r.ReadOk? && r.found == FileAttr(|c[p]|) && |r.data| <= count &&
            (forall i | 0 <= i < |r.data| :: offset + i < |c[p]| && r.data[i] == c[p][offset + i]) &&
            (|r.data| == count || offset + |r.data| >= |c[p]|) &&
            (r.eof <==> offset + |r.data| >= |c[p]|)
  {
  }

  /** READ after WRITE, whatever the two ranges: a byte that was written is the new one, any other is
      the old one, and what lies between the old end and the write is zero. */
  lemma ReadAfterWrite(c: Files, p: Path, at: nat, data: Bytes, offset: nat, count: nat)
    requires p in c && p != []
    ensures var w := WriteSpec(c, p, at, |data|, data);
            var r := ReadSpec(w.files, p, offset, count);
            w.reply.WriteOk? && w.reply.count == |data| && r.ReadOk? &&
            (forall i | 0 <= i < |r.data| ::
               r.data[i] == if at <= offset + i < at + |data| then data[offset + i - at]
                            else if offset + i < |c[p]| then c[p][offset + i] else 0) &&
            (offset <= at && at + |data| <= offset + count ==>
               |r.data| >= at + |data| - offset && r.data[at - offset..at + |data| - offset] == data)
  {
    var w := WriteSpec(c, p, at, |data|, data);
    ReadMeans(w.files, p, offset, count);
    var r := ReadSpec(w.files, p, offset, count);
    if offset <= at && at + |data| <= offset + count {
      assert |w.files[p]| >= at + |data|;
    }
  }

  /** A moved directory, name by name: what was at `source/rest` is at `dest/rest`, every other file is
      where it was, and nothing else exists. */
  lemma MoveMeans(c: Files, c': Files, source: Path, dest: Path)
    requires IsMove(c, c', source, dest)
    ensures forall rest | rest != [] && source + rest in c :: dest + rest in c' && c'[dest + rest] == c[source + rest]
    ensures forall p | p in c && !(source < p) :: p in c' && c'[p] == c[p]
    ensures forall q | q in c' :: q in c || (dest < q && source + q[|dest|..] in c)
  {
    forall rest | rest != [] && source + rest in c ensures dest + rest in c' && c'[dest + rest] == c[source + rest] {
      var p := source + rest;
      assert source < p && p[|source|..] == rest;
      assert MovedPath(source, dest, p) in MovedPaths(c.Keys, source, dest);
    }
    forall p | p in c && !(source < p) ensures p in c' && c'[p] == c[p] {
      assert MovedPath(source, dest, p) == p && p in MovedPaths(c.Keys, source, dest);
    }
    forall q | q in c' ensures q in c || (dest < q && source + q[|dest|..] in c) {
      var p :| p in c && q == MovedPath(source, dest, p);
      if source < p {
        assert q[|dest|..] == p[|source|..] && p == source + p[|source|..];
      }
    }
  }

  /** REMOVE and RMDIR of a plain name act on the directory's child of that name. */
  lemma RemoveMeans(c: Files, dir: Path, n: Name)
    requires IsDirectory(c, dir) && Plain(n) && dir + [n] in c
    ensures RemoveSpec(c, dir, n) == Outcome(c - {dir + [n]}, GoneOk)
  {
    OneTarget(dir, n);
  }

  /** What can never get into the index. */
  lemma NeverTracked(p: Path, i: nat)
    requires i < |p|
    ensures p[i] == ".git" || p[i] == ".trunks" || p[i] == "" || p[i] == "." || p[i] == ".." ==> !Trackable(p)
    ensures '/' in p[i] || '\\' in p[i] || 127 as char in p[i] ==> !Trackable(p)
    ensures (exists k :: 0 <= k < |p[i]| && p[i][k] < ' ') ==> !Trackable(p)
  {
    if 127 as char in p[i] {
      var k :| 0 <= k < |p[i]| && p[i][k] == 127 as char;
    }
  }

  /** A name may have 255 bytes and no more. */
  lemma NameLimit(n: Name)
    requires n != "" && forall k | 0 <= k < |n| :: 'a' <= n[k] <= 'z'
    ensures NameOk(n) <==> |n| <= 255
  {
    assert 'a' <= n[0] <= 'z' && "."[0] == '.' && ".."[0] == '.';
  }

  /** Desktop metadata, by its names. */
  lemma MetadataNames(n: Name)
    ensures !OrdinaryName(".DS_Store") && !OrdinaryName("._" + n) && (n != "" && n[0] != '.' ==> OrdinaryName(n))
  {
    assert ".DS_Store"[0] == '.' && "._"[0] == '.';
    assert "._" <= "._" + n;
  }

  /** What always can. */
  lemma LettersTracked(p: Path)
    requires p != [] && forall i, k | 0 <= i < |p| && 0 <= k < |p[i]| :: 'a' <= p[i][k] <= 'z'
    requires forall i | 0 <= i < |p| :: p[i] != ""
    ensures Trackable(p) && Ordinary(p)
  {
    forall i | 0 <= i < |p| ensures PartOk(p[i]) && p[i] != ".git" && p[i] != ".trunks" && OrdinaryName(p[i]) {
      assert 'a' <= p[i][0] <= 'z' && "."[0] == '.' && ".."[0] == '.' && ".git"[0] == '.' && ".trunks"[0] == '.';
      assert ".DS_Store"[0] == '.' && "._"[0] == '.';
    }
  }

  // ---- Where the handler departs from what a filesystem should do ----

  /** A WRITE of no bytes leaves the file alone if and only if it does not start beyond the end. */
  lemma EmptyWriteHarmlessIff(data: Bytes, offset: nat)
    ensures Overlay(data, offset, []) == data <==> offset <= |data|
  {
    if offset > |data| {
      assert |Overlay(data, offset, [])| == offset;
    }
  }

  /** Zero bytes written at offset 2 of an empty file: the file is then two bytes long. */
  lemma EmptyWriteExtends(p: Path)
    requires p != []
    ensures var c: Files := map[p := []];
            WriteSpec(c, p, 2, 0, []).files == map[p := [0, 0]]
  {
    var c: Files := map[p := []];
    assert Overlay([], 2, []) == [0, 0];
  }

  /** RMDIR of a directory that looks empty removes the marker and nothing more, if and only if the
      marker's name is not itself a directory. */
  lemma RmdirRemovesMarkerOnlyIff(c: Files, target: Path)
    requires PrefixFree(c.Keys) && Children(c.Keys, target) - {KEEP} == {}
    ensures Under(c.Keys, target) <= {target + [KEEP]} <==> target + [KEEP] !in Dirs(c.Keys)
  {
    var marker := target + [KEEP];
    DirsMember(c.Keys, marker);
    if marker !in Dirs(c.Keys) {
      forall p | p in Under(c.Keys, target) ensures p == marker {
        assert p[|target|] in Children(c.Keys, target) && p[|target|] !in Children(c.Keys, target) - {KEEP};
        assert marker <= p;
      }
    }
    if marker in Dirs(c.Keys) {
      var p :| p in c.Keys && marker < p;
      assert target < marker && p in Under(c.Keys, target);
    }
  }

  lemma DirectoryOf(c: Files, dir: Path, p: Path)
    requires p in c && dir < p && dir !in c
    ensures StatOf(c, dir) == Some(DirAttr)
  {
    DirsMember(c.Keys, dir);
  }

  lemma NothingAt(c: Files, p: Path)
    requires p != [] && forall q | q in c :: !(p <= q)
    ensures StatOf(c, p).None?
  {
    DirsMember(c.Keys, p);
  }

  predicate Plain(n: Name) { NameOk(n) && n != ".git" && n != ".trunks" }

  lemma PlainPath(p: Path)
    requires p != [] && forall i | 0 <= i < |p| :: Plain(p[i])
    ensures Trackable(p)
  {
  }

  lemma KeepIsPlain()
    ensures Plain(KEEP)
  {
    assert KEEP[0] == '.' && KEEP[1] == 't' && KEEP[10] == 'p';
  }

  lemma OneTarget(dir: Path, n: Name)
    requires Plain(n)
    ensures Target(dir, n) == dir + [n]
  {
    SplitOne(n);
  }

  /** The marker is removed and its name taken by a directory, which is then deleted with a visible
      file in it by an RMDIR that should have answered "not empty". */
  lemma RmdirLosesFile(d: Name, x: Name, y: Name, a: Bytes)
    requires Plain(d) && Plain(x) && Plain(y) && x != KEEP && y != KEEP
    ensures var m, px, py, mm := [d, KEEP], [d, x], [d, KEEP, y], [d, KEEP, KEEP];
            RemoveSpec(map[m := [], px := a], [d], KEEP) == Outcome(map[px := a], GoneOk) &&
            MkdirSpec(map[px := a], [d], KEEP).files == map[px := a, mm := []] &&
            CreateSpec(map[px := a, mm := []], m, y, true).files == map[px := a, mm := [], py := []] &&
            RemoveSpec(map[px := a, mm := [], py := []], [d], x) == Outcome(map[mm := [], py := []], GoneOk) &&
            RmdirSpec(map[mm := [], py := []], [], d) == Outcome(map[], GoneOk) &&
            ReadSpec(map[mm := [], py := []], py, 0, 1) == ReadOk(FileAttr(0), [], true)
  {
    hide *;
    KeepIsPlain();
    LosesByRemove(d, x, a);
    LosesByMkdir(d, x, a);
    LosesByCreate(d, x, y, a);
    LosesByRemoveAgain(d, x, y, a);
    LosesByRmdir(d, y);
  }

  /** One such input. */
  lemma RmdirLosesFileExample()
    ensures RmdirSpec(map[["d", KEEP, KEEP] := [], ["d", KEEP, "y"] := []], [], "d") == Outcome(map[], GoneOk)
  {
    assert Plain("d") && Plain("y");
    LosesByRmdir("d", "y");
  }

  lemma LosesByRemove(d: Name, x: Name, a: Bytes)
    requires Plain(KEEP) && x != KEEP
    ensures RemoveSpec(map[[d, KEEP] := [], [d, x] := a], [d], KEEP) == Outcome(map[[d, x] := a], GoneOk)
  {
    hide Plain, Target, Dirs;
    var m, px := [d, KEEP], [d, x];
    var c: Files := map[m := [], px := a];
    assert m[1] == KEEP && px[1] == x;
    assert [d] + [KEEP] == m;
    OneTarget([d], KEEP);
    DirectoryOf(c, [d], m);
    assert c - {m} == map[px := a];
  }

  lemma LosesByMkdir(d: Name, x: Name, a: Bytes)
    requires Plain(d) && Plain(KEEP) && x != KEEP
    ensures MkdirSpec(map[[d, x] := a], [d], KEEP).files == map[[d, x] := a, [d, KEEP, KEEP] := []]
  {
    var m, px, mm := [d, KEEP], [d, x], [d, KEEP, KEEP];
    PlainPath(m);
    assert NameOk(KEEP);
    hide Plain, Trackable, NameOk, Dirs;
    var c: Files := map[px := a];
    assert m[1] == KEEP && px[1] == x;
    assert [d] + [KEEP] == m && m + [KEEP] == mm;
    DirectoryOf(c, [d], px);
    NothingAt(c, m);
  }

  lemma LosesByCreate(d: Name, x: Name, y: Name, a: Bytes)
    requires Plain(d) && Plain(KEEP) && Plain(y) && x != KEEP && y != KEEP
    ensures CreateSpec(map[[d, x] := a, [d, KEEP, KEEP] := []], [d, KEEP], y, true).files ==
            map[[d, x] := a, [d, KEEP, KEEP] := [], [d, KEEP, y] := []]
  {
    var m, px, py, mm := [d, KEEP], [d, x], [d, KEEP, y], [d, KEEP, KEEP];
    PlainPath(py);
    assert NameOk(y);
    hide Plain, Trackable, NameOk, Dirs;
    var c: Files := map[px := a, mm := []];
    assert m[1] == py[1] == KEEP && px[1] == x && py[2] == y && mm[2] == KEEP;
    assert m + [y] == py;
    DirectoryOf(c, m, mm);
    NothingAt(c, py);
  }

  lemma LosesByRemoveAgain(d: Name, x: Name, y: Name, a: Bytes)
    requires Plain(x) && x != KEEP && y != KEEP
    ensures RemoveSpec(map[[d, x] := a, [d, KEEP, KEEP] := [], [d, KEEP, y] := []], [d], x) ==
            Outcome(map[[d, KEEP, KEEP] := [], [d, KEEP, y] := []], GoneOk)
  {
    hide Plain, Target, Dirs;
    var px, py, mm := [d, x], [d, KEEP, y], [d, KEEP, KEEP];
    var c: Files := map[px := a, mm := [], py := []];
    assert |px| == 2 && |py| == |mm| == 3;
    assert [d] + [x] == px;
    OneTarget([d], x);
    DirectoryOf(c, [d], px);
    assert c - {px} == map[mm := [], py := []];
  }

  lemma LosesByRmdir(d: Name, y: Name)
    requires Plain(d)
    ensures var py, mm := [d, KEEP, y], [d, KEEP, KEEP];
            RmdirSpec(map[mm := [], py := []], [], d) == Outcome(map[], GoneOk) &&
            ReadSpec(map[mm := [], py := []], py, 0, 1) == ReadOk(FileAttr(0), [], true)
  {
    hide Plain, Target, Dirs;
    var py, mm := [d, KEEP, y], [d, KEEP, KEEP];
    var c: Files := map[mm := [], py := []];
    assert [] + [d] == [d];
    OneTarget([], d);
    DirectoryOf(c, [d], py);
    assert [d] < py && [d] < mm;
    assert Children(c.Keys, [d]) == {KEEP};
    assert Under(c.Keys, [d]) == c.Keys;
    assert c - c.Keys == map[];
  }

  // ---- The namespace stays free of file/directory clashes ----

  lemma DirectoryInDirs(c: Files, d: Path)
    requires IsDirectory(c, d)
    ensures d in Dirs(c.Keys)
  {
    DirsMember(c.Keys, d);
  }

  lemma MarkerTrackable(target: Path)
    requires target != []
    ensures Trackable(target + [KEEP]) <==> Trackable(target)
  {
    var marker := target + [KEEP];
    if Trackable(marker) {
      forall i | 0 <= i < |target| ensures PartOk(target[i]) && target[i] != ".git" && target[i] != ".trunks" {
        assert target[i] == marker[i];
      }
    }
    assert KEEP[0] == '.' && KEEP[1] == 't' && KEEP[|KEEP| - 1] == 'p';
  }

  /** A file, or a directory marker, at a name that is still free under a directory. */
  lemma FreshTarget(c: Files, dir: Path, name: Name)
    requires GoodFiles(c.Keys) && IsDirectory(c, dir) && StatOf(c, dir + [name]).None?
    requires Trackable(dir + [name]) && OrdinaryName(name)
    ensures GoodFiles(c.Keys + {dir + [name]})
    ensures Trackable(dir + [name, KEEP]) && GoodFiles(c.Keys + {dir + [name, KEEP]})
  {
    var target, marker := dir + [name], dir + [name, KEEP];
    DirectoryInDirs(c, dir);
    forall k | |dir| < k <= |target| ensures target[..k] == target { }
    AddFresh(c.Keys, dir, target);
    DirsMember(c.Keys, target);
    DirsMember(c.Keys, marker);
    forall k | |dir| < k <= |marker| ensures marker[..k] !in c.Keys && marker[..k] !in Dirs(c.Keys) {
      if k == |dir| + 1 {
        assert marker[..k] == target;
      } else {
        assert marker[..k] == marker;
        assert target < marker;
        assert forall q | q in c.Keys :: marker < q ==> target < q;
      }
    }
    AddFresh(c.Keys, dir, marker);
    assert marker == target + [KEEP];
    MarkerTrackable(target);
    DirOrdinary(c.Keys, dir);
    KeepIsOrdinary();
    assert Ordinary(target) && Ordinary(marker);
    hide Trackable, Ordinary, PrefixFree, Dirs;
    GoodMore(c.Keys, target);
    GoodMore(c.Keys, marker);
  }

  lemma GoodMore(files: set<Path>, p: Path)
    requires GoodFiles(files) && PrefixFree(files + {p}) && Trackable(p) && Ordinary(p)
    ensures GoodFiles(files + {p})
  {
    hide Trackable, Ordinary, PrefixFree;
    forall q | q in files + {p} ensures Trackable(q) && Ordinary(q) {
      if q != p { assert q in files && Trackable(q); }
    }
  }

  lemma KeepIsOrdinary()
    ensures OrdinaryName(KEEP)
  {
    assert KEEP[1] == 't' && "._"[1] == '_';
  }

  lemma DirOrdinary(files: set<Path>, dir: Path)
    requires GoodFiles(files) && dir in Dirs(files)
    ensures Ordinary(dir)
  {
    DirsMember(files, dir);
    if dir != [] {
      var p :| p in files && dir < p;
      assert Trackable(p) && forall i | 0 <= i < |dir| :: dir[i] == p[i];
    }
  }

  lemma MarkerShowsDirectory(c: Files, target: Path)
    requires target != [] && target !in c && target !in Dirs(c.Keys)
    ensures StatOf(c[target + [KEEP] := []], target) == Some(DirAttr)
  {
    var c' := c[target + [KEEP] := []];
    assert target + [KEEP] in c'.Keys && target < target + [KEEP];
    DirsMember(c'.Keys, target);
  }

  lemma NoFileAbove(files: set<Path>, toDir: Path, name: Name, x: Path, y: Path)
    requires PrefixFree(files) && toDir in Dirs(files)
    requires toDir + [name] !in files && toDir + [name] !in Dirs(files)
    requires x in files && toDir + [name] < y
    ensures !(x < y) && !(y < x)
  {
    var dest := toDir + [name];
    DirsMember(files, dest);
    assert y < x ==> dest < x;
    assert dest == y[..|dest|];
    assert x < y && |x| >= |dest| ==> x == dest || dest < x;
    if x < y && |x| <= |toDir| {
      assert x == y[..|x|] == dest[..|x|];
      DirPrefixNotFile(files, toDir, x);
    }
  }

  lemma MovedKeepsOrder(source: Path, dest: Path, p: Path, q: Path)
    requires source < p && source < q
    ensures MovedPath(source, dest, p) < MovedPath(source, dest, q) ==> p < q
  {
    var x, y := MovedPath(source, dest, p), MovedPath(source, dest, q);
    assert p == source + p[|source|..] && q == source + q[|source|..];
    assert x[|dest|..] == p[|source|..] && y[|dest|..] == q[|source|..];
    if x < y {
      assert x == y[..|x|];
      assert x[|dest|..] == y[|dest|..][..|x| - |dest|];
    }
  }

  /** Re-rooting a directory at a free name outside itself fits beside all existing files. */
  lemma TreeFits(c: Files, source: Path, toDir: Path, name: Name)
    requires GoodFiles(c.Keys) && IsDirectory(c, toDir) && StatOf(c, toDir + [name]).None?
    requires Trackable(toDir + [name]) && OrdinaryName(name) && source != []
    ensures GoodFiles(c.Keys + MovedPaths(Under(c.Keys, source), source, toDir + [name]))
  {
    var dest, K := toDir + [name], c.Keys;
    DirectoryInDirs(c, toDir);
    var M := MovedPaths(Under(K, source), source, dest);
    DirOrdinary(K, toDir);
    forall x | x in M ensures Trackable(x) && Ordinary(x) && dest < x {
      var p :| p in Under(K, source) && x == MovedPath(source, dest, p);
      assert Trackable(p);
      MovedTrackable(source, dest, p);
      MovedOrdinary(source, dest, p);
    }
    forall x | x in K + M ensures Trackable(x) && Ordinary(x) {
      if x in K { assert Trackable(x) && Ordinary(x); } else { assert x in M; }
    }
    hide Trackable, Ordinary, StatOf;
    forall x, y | x in K + M && y in K + M ensures !Below(x, y) {
      if x in K && y in K {
      } else if x in K {
        NoFileAbove(K, toDir, name, x, y);
      } else if y in K {
        NoFileAbove(K, toDir, name, y, x);
      } else {
        var p :| p in Under(K, source) && x == MovedPath(source, dest, p);
        var q :| q in Under(K, source) && y == MovedPath(source, dest, q);
        MovedKeepsOrder(source, dest, p, q);
        assert !Below(p, q);
      }
    }
  }

  lemma MovedTrackable(source: Path, dest: Path, p: Path)
    requires source < p && Trackable(p) && dest != []
    ensures Trackable(MovedPath(source, dest, p)) <==> Trackable(dest)
  {
    var q := MovedPath(source, dest, p);
    forall i | 0 <= i < |dest| ensures q[i] == dest[i] { }
    forall i | |dest| <= i < |q| ensures q[i] == p[i - |dest| + |source|] { }
    if Trackable(q) {
      forall i | 0 <= i < |dest| ensures PartOk(dest[i]) && dest[i] != ".git" && dest[i] != ".trunks" {
        assert q[i] == dest[i];
      }
    }
  }

  lemma MovedOrdinary(source: Path, dest: Path, p: Path)
    requires source < p && Ordinary(p) && Ordinary(dest)
    ensures Ordinary(MovedPath(source, dest, p))
  {
  }

  lemma MovedInjective(source: Path, dest: Path, p: Path, q: Path)
    requires source < p && source < q && MovedPath(source, dest, p) == MovedPath(source, dest, q)
    ensures p == q
  {
    assert (dest + p[|source|..])[|dest|..] == p[|source|..];
    assert (dest + q[|source|..])[|dest|..] == q[|source|..];
    assert p == source + p[|source|..] && q == source + q[|source|..];
  }

  /** One more file of the directory moves. */
  lemma PartialMoveStep(c: Files, mid: Files, gone: set<Path>, source: Path, dest: Path, p: Path)
    requires IsPartialMove(c, mid, gone, source, dest)
    requires gone <= Under(c.Keys, source) && p in Under(c.Keys, source) && p !in gone
    requires forall q | q in c :: !(dest < q)
    requires !(source <= dest) && source != []
    ensures p in mid && MovedPath(source, dest, p) !in mid && p != MovedPath(source, dest, p)
    ensures IsPartialMove(c, (mid - {p})[MovedPath(source, dest, p) := mid[p]], gone + {p}, source, dest)
  {
    var new_ := MovedPath(source, dest, p);
    assert dest < new_;
    assert new_ !in c;
    forall q | q in gone && MovedPath(source, dest, q) == new_ ensures false {
      MovedInjective(source, dest, p, q);
    }
    forall q | q in gone ensures MovedPath(source, dest, q) !in c { assert dest < MovedPath(source, dest, q); }
    var next := (mid - {p})[new_ := mid[p]];
    assert next.Keys == (c.Keys - (gone + {p})) + MovedPaths(gone + {p}, source, dest);
  }

  lemma DirectoryNotEmpty(c: Files, d: Path)
    requires IsDirectory(c, d) && d != []
    ensures Under(c.Keys, d) != {}
  {
    DirsMember(c.Keys, d);
    var p :| p in c.Keys && d < p;
    assert p in Under(c.Keys, d);
  }

  lemma FreeName(c: Files, d: Path)
    requires StatOf(c, d).None?
    ensures d !in c && d !in Dirs(c.Keys) && forall q | q in c :: !(d <= q)
  {
    DirsMember(c.Keys, d);
    assert forall q | q in c :: d <= q ==> d == q || d < q;
  }

  lemma StartMove(c: Files, source: Path, dest: Path)
    ensures IsPartialMove(c, c, {}, source, dest)
  {
  }

  lemma UnderTrackable(files: set<Path>, source: Path, dest: Path, p: Path)
    requires GoodFiles(files) && p in Under(files, source) && dest != []
    ensures Trackable(MovedPath(source, dest, p)) <==> Trackable(dest)
  {
    assert Trackable(p);
    MovedTrackable(source, dest, p);
  }

  /** At every point of the move the files are some of the old and some of the new ones. */
  lemma StillFits(c: Files, mid: Files, gone: set<Path>, source: Path, dest: Path, p: Path)
    requires GoodFiles(c.Keys + MovedPaths(Under(c.Keys, source), source, dest))
    requires IsPartialMove(c, mid, gone, source, dest)
    requires gone <= Under(c.Keys, source) && p in Under(c.Keys, source)
    ensures GoodFiles(mid.Keys + {MovedPath(source, dest, p)})
  {
    var most := c.Keys + MovedPaths(Under(c.Keys, source), source, dest);
    assert mid.Keys + {MovedPath(source, dest, p)} <= most;
  }

  lemma EndMove(c: Files, c': Files, gone: set<Path>, source: Path, dest: Path)
    requires IsPartialMove(c, c', gone, source, dest) && gone == Under(c.Keys, source)
    ensures IsMove(c, c', source, dest)
    ensures forall q | !(source <= q) && !(dest <= q) :: (q in c <==> q in c') && (q in c ==> c[q] == c'[q])
  {
    forall p | p in c ensures MovedPath(source, dest, p) in c' && c'[MovedPath(source, dest, p)] == c[p] {
    }
    assert c'.Keys == MovedPaths(c.Keys, source, dest);
  }
}
