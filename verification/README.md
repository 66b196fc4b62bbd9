# Trunks: a Dafny model of the storage, mount and queue protocols

Trunks keeps Git-shaped objects and compare-and-swap refs in dumb storage, serves a repository as an
NFSv3 filesystem, and runs a lease-based job queue on the same refs.  This project models those
parts in Dafny and proves what they are for: refs never dangle, a mounted file always reads back what
was written, no lease is stolen, no crash leaves a half-visible object.

`dafny verify dfyconfig.toml` checks everything.

| file | what it models |
|---|---|
| `nfs_handler.dfy`, `nfs_spec.dfy`, `paths.dfy` | the write-back NFS handler as a class, against a plain map from paths to bytes |
| `push_protocol.dfy`, `push_alone.dfy`, `object_graph.dfy` | any number of clients pushing and fetching, one request at a time; what an undisturbed one does |
| `mirrors.dfy` | pushes through a primary with write-through mirrors |
| `lock_cas.dfy` | compare-and-swap built from a lock object |
| `fetch.dfy` | both closure downloads |
| `objects.dfy`, `tree_store.dfy`, `tree_flatten.dfy`, `ordering.dfy` | object bytes, index to nested trees and back |
| `integrity.dfy` | checking the object graph and removing what nothing reaches |
| `layouts.dfy`, `local_store.dfy` | chunked objects, segments, and the local backend at every crash point |
| `run_lease.dfy`, `run_index.dfy`, `capacity.dfy` | the actions queue: leases, secondary indexes, capacity slots |
| `stages.dfy` | workflow stages and the gating of jobs |
| `xdr.dfy`, `record.dfy`, `ulid.dfy` | XDR, RPC record marking, ULIDs |

## How the model is set up

- Protocols (push, mirrors, lock CAS, leases, capacity) are transition systems whose steps are single
  requests; the theorems quantify over every run.  Code that updates objects in place (NFS handler,
  local backend, repository, indexes, packer) is a class whose methods are proved against
  specification functions.  Loops stay loops.
- SHA-1 and SHA-256 are idealised: an id carries the bytes it names.  The tree store is the
  exception: there the hash is an arbitrary function, and "no collision among the objects in
  question" is an explicit hypothesis where it is needed.
- JSON documents are lossless values.  Clocks, random bits, crc32 shards and outcomes of commands are
  parameters, so the theorems hold for all of them.  ULIDs drawn as tokens are parameters too, with
  one assumption: no token is drawn twice.
- A stored run state is compared as a whole by compare-and-swap, because it is stored under its
  hash.  That is what makes a value that comes back (A, B, A) harmless.
- Names are their UTF-8 bytes, one character per byte; a path is the sequence of its names, and
  `Paths` proves that this agrees with slash-joined strings.

## Where the code falls short of what one would expect

- RENAME of a file onto itself deletes it, and RENAME onto a file with an unflushed buffer keeps the
  old bytes visible (`NfsSpec.RenameFileCorrectIff` gives the exact condition, `RenameGoesWrong` the inputs).
- A COMMIT whose range ends before the end of the file replies OK and flushes nothing
  (`Nfs.Handler.Commit` has the exact condition, `Nfs.ShortCommitLosesBytes` an input).
- A directory RENAME that has to wait for a staging job that fails stops half way, answers with an
  error, and can leave the namespace and size caches describing the old paths
  (`Nfs.Handler.MoveDirectory` and `Nfs.StoppedCaches` have the exact condition,
  `Nfs.StoppedRenameLeavesStaleCache` an input).
- A WRITE of no bytes beyond the end of a file extends it (`NfsSpec.EmptyWriteHarmlessIff`,
  `NfsSpec.EmptyWriteExtends`).
- RMDIR takes a directory for empty when its only child is named `.trunkskeep`, even if that child is
  a directory with files in it, and removes them (`NfsSpec.RmdirRemovesMarkerOnlyIff`,
  `NfsSpec.RmdirLosesFile`).
- `build_tree` on an index with a file/directory clash raises or silently drops a file, depending on
  order; it is faithful exactly on prefix-free indexes (`TreeStore.NestFaithfulIff`).  The handler
  never produces such an index (`Nfs.Handler.Run`).
- A helper push through mirrors that are all required (`require_all`) can leave a dangling mirror ref
  after a failed push, because the excluded refs and the test for missing objects ask the primary only
  (`Mirrors.ThinRetryDangles`); it is safe exactly when what it left out is in every store
  (`Mirrors.ThinCompleteIff`, `Mirrors.MissedSwapDangles`).
- A process that dies inside the lock-object compare-and-swap freezes the ref (`LockCas.DeadLockFreezes`,
  with `LockCas.DeadLockRefuses` as an input); an undisturbed call gets through exactly when no lock
  object is there and the value is the expected one (`LockCas.AloneIff`).
- Persisting a pending run again with another route leaves its old queue ref behind, and a pending
  run without a spec key has no queue ref at all (`RunIndex.RefreshExactIff`, `RunIndex.StaleExample`, `RunIndex.UnroutedExample`).

## Model

| member | source | states |
|---|---|---|
| `Nfs.Handler.Run` | trunks/mount/nfs.py:151-989 | For every sequence of requests, timer firings and staging-job endings (in any order), replies and contents are those of a run of a plain map from paths to bytes, and what is durable in the index stays so until touched; every cache is right throughout, except after a directory rename that stopped in the one way that leaves them wrong, where the run ends, as it does at a request outside the modelled scope |
| `Nfs.Handler.Serve` | trunks/mount/nfs.py:185-198 | One request or background event is one step of the plain map and one durability step; buffers, generation fence and prefix-freedom are kept, and every cache is right afterwards if and only if the request was not a directory rename that stops badly |
| `Nfs.Handler.Close` | trunks/mount/nfs.py:177-183 | Flushing everything changes nothing observable; it succeeds if and only if no staging job that it has to wait for fails, and then the index holds exactly the observed contents and nothing is dirty |
| `Nfs.Handler.Commit` | trunks/mount/nfs.py:720-736 | COMMIT changes nothing observable; after an OK reply the file is clean if and only if it was clean or the range is empty or reaches the end, and a clean file is in the index as observed; a shorter range changes neither index nor dirty set |
| `Nfs.ShortCommitLosesBytes` | trunks/mount/nfs.py:720-736 | An input: two bytes written and read back, a COMMIT of the first answered OK, and the index still has the empty file |
| `Nfs.StepKeepsDurable` | trunks/mount/nfs.py:874-928 | One step leaves every durable file durable unless it touches that file, and makes the file of a flushing COMMIT durable |
| `NfsSpec.CommittedStays` | trunks/mount/nfs.py:720-736 | Over whole runs: bytes committed with an OK reply stay in the index until a request touches that file |
| `NfsSpec.StepFrames` | trunks/mount/nfs.py:341-578 | A request leaves every file that it does not name as it was |
| `Nfs.Handler.Write` | trunks/mount/nfs.py:341-388 | WRITE is a byte-wise overlay with zero fill, with the error replies of the code; the fence and caches are kept although only a buffer changed |
| `Nfs.Handler.Setattr` | trunks/mount/nfs.py:215-251 | SETATTR with a size truncates or zero-extends exactly that file |
| `Nfs.Handler.Read` | trunks/mount/nfs.py:316-339 | READ returns the slice of the abstract file and the end-of-file flag, whether the bytes are in a buffer or in a blob |
| `NfsSpec.ReadMeans` | trunks/mount/nfs.py:316-339 | READ of a file, byte by byte: the bytes from the offset on, as many as asked for unless the file ends first, and the end-of-file flag exactly when it does |
| `NfsSpec.ReadAfterWrite` | trunks/mount/nfs.py:316-388 | READ after WRITE for any two ranges: written bytes are the new ones, others the old ones, a gap is zero |
| `Nfs.Handler.Lookup` | trunks/mount/nfs.py:253-284 | LOOKUP answers from the abstract map, including `.`, `..`, bad names and missing targets |
| `Nfs.Handler.Getattr` | trunks/mount/nfs.py:203-213 | GETATTR reports kind and size as the abstract map has them |
| `Nfs.Handler.Readdir` | trunks/mount/nfs.py:592-668 | A directory listing is exactly `.`, `..` and the child names of the abstract map without the keep marker |
| `Nfs.Handler.Create` | trunks/mount/nfs.py:390-421 | CREATE of an ordinary name adds an empty file exactly when the name is free and allowed, and otherwise gives the reply of the code; every other row of the index stays |
| `Nfs.Handler.Mkdir` | trunks/mount/nfs.py:423-453 | MKDIR adds a directory by its keep marker and leaves no clash between files and directories |
| `Nfs.Handler.Remove` | trunks/mount/nfs.py:476-497 | REMOVE deletes exactly that file, dirty or not |
| `Nfs.Handler.Rmdir` | trunks/mount/nfs.py:499-528 | RMDIR succeeds exactly on a directory without visible children and removes exactly what is under it |
| `Nfs.Handler.Rename` | trunks/mount/nfs.py:530-578 | RENAME within scope, whichever staging jobs fail: a directory is moved as a whole or up to the first row whose job fails; a file move succeeds if the destination is allowed and its job does not fail, with the exact contents for a clean or dirty destination; no row outside source and destination changes; the caches are right afterwards in exactly the stated cases |
| `Nfs.Handler.MoveDirectory` | trunks/mount/nfs.py:809-820 | Moving row after row in path order with stale caches ends in a full move with every cache right again, or in no change, or at the first row whose staging job fails: then exactly the earlier rows have moved, and the caches are right if and only if none had moved or a moved one was dirty, and no size entry was made wrong |
| `NfsSpec.MoveMeans` | trunks/mount/nfs.py:809-820 | After a full move what was at source/rest is at dest/rest, every other file is where it was, and nothing else exists |
| `Nfs.Handler.RenameDirectory` | trunks/mount/nfs.py:809-820 | The same with the stopping row determined by the state: the caches are right afterwards if and only if the move does not stop or stops where it does no harm |
| `Nfs.StoppedCaches` | trunks/mount/nfs.py:809-820 | For any rows moved before the stop, the caches left behind agree with recomputation if and only if the stated condition on dirty rows and size entries holds |
| `Nfs.StoppedRenameLeavesStaleCache` | trunks/mount/nfs.py:809-820 | An input: a clean and an awaited file; the rename is answered with an error, the clean file has moved, and the cache of file names still has the old paths |
| `Nfs.OrderedRows` | trunks/repository.py:615-621 | The rows of the index in the order of their joined paths, each once |
| `Nfs.Handler.RenameFile` | trunks/mount/nfs.py:562-578 | Succeeds if and only if the destination is allowed and no awaited staging job of the source fails; the exact contents then, in terms of whether the destination was dirty |
| `Nfs.Handler.FlushPath` | trunks/mount/nfs.py:908-928 | Flushing, through a staged blob or directly, changes nothing observable; it fails if and only if it waits for a job that fails, and otherwise makes the path clean and empties the namespace caches |
| `Nfs.Handler.StagedBlob` | trunks/mount/nfs.py:974-985 | Generation fence: a staged blob accepted for the current generation is the blob of the current buffer |
| `Nfs.Handler.StartStage` | trunks/mount/nfs.py:961-972 | The exact futures and generations afterwards: snapshot of the current buffer under the current generation unless a job is running or nothing is dirty; the fence is kept and nothing observable changes |
| `Nfs.Handler.MaybeStageBackground` | trunks/mount/nfs.py:930-954 | A timer is set exactly for a buffer of at least 64 MiB without a running job, when an event loop runs |
| `Nfs.Handler.FinishStage` | trunks/mount/nfs.py:987-989 | A staging job that ends at any moment is done or failed, stores its snapshot exactly if done, keeps the fence and changes nothing observable |
| `Nfs.Handler.WriteBytes` | trunks/mount/nfs.py:882-893 | A direct write drops buffer, generation and future of the path and sets exactly that path |
| `Nfs.Handler.DeleteBytes` | trunks/mount/nfs.py:895-906 | Deletion removes exactly that path from index and buffers |
| `Nfs.Handler.Stat` | trunks/mount/nfs.py:742-786 | Kind and size from the caches equal those of the abstract map |
| `Nfs.Handler.FileSize` | trunks/mount/nfs.py:848-859 | The cached or computed size is the length of the observed bytes |
| `Nfs.Handler.EnsureNamespace` | trunks/mount/nfs.py:827-846 | The filled caches equal the directories and child sets recomputed from the index |
| `Nfs.BuildNamespace` | trunks/mount/nfs.py:827-846 | The component-by-component loop computes the implied directories and the children of each |
| `Nfs.Splice` | trunks/mount/nfs.py:363-370 | The buffer arithmetic of WRITE is the byte-wise overlay |
| `Nfs.CutOrExtend` | trunks/mount/nfs.py:240-251 | The buffer arithmetic of SETATTR is the byte-wise resize |
| `NfsSpec.RenameFileCorrectIff` | trunks/mount/nfs.py:552-571 | A file move is a correct rename if and only if it is not onto itself and not onto a dirty file with other bytes |
| `NfsSpec.RenameGoesWrong` | trunks/mount/nfs.py:552-571 | Concrete inputs: a rename onto itself loses the file; a rename onto a dirty file keeps the old bytes |
| `NfsSpec.EmptyWriteHarmlessIff` | trunks/mount/nfs.py:366-371 | A WRITE of no bytes leaves a file unchanged if and only if it does not start beyond the end |
| `NfsSpec.EmptyWriteExtends` | trunks/mount/nfs.py:366-371 | An input: zero bytes at offset 2 make an empty file two bytes long |
| `NfsSpec.RmdirRemovesMarkerOnlyIff` | trunks/mount/nfs.py:499-528 | RMDIR of a directory that looks empty removes nothing but its marker if and only if the marker name is not itself a directory |
| `NfsSpec.RmdirLosesFile` | trunks/mount/nfs.py:499-528 | Five requests, for any names, after which RMDIR deletes a visible file instead of answering that the directory is not empty |
| `NfsSpec.RmdirLosesFileExample` | trunks/mount/nfs.py:499-528 | One such input |
| `NfsSpec.FreshTarget` | trunks/mount/nfs.py:390-421 | A free allowed name in a directory can be added without a file/directory clash |
| `NfsSpec.NeverTracked` | trunks/paths.py:10-26 | No tracked path, in normal form, has an internal, dotted or empty component, or one with a slash, backslash or control character |
| `NfsSpec.LettersTracked` | trunks/paths.py:10-26 | Paths of plain letters are always tracked |
| `NfsSpec.NameLimit` | trunks/mount/nfs.py:1115-1120 | A name may have 255 bytes and no more |
| `NfsSpec.MetadataNames` | trunks/mount/nfs.py:991-992 | Which names are desktop metadata |
| `NfsSpec.TreeFits` | trunks/mount/nfs.py:809-820 | A moved tree fits at a free name outside itself without a clash |
| `Paths.PrefixFreeIffNoClash` | trunks/repository.py:722-731 | No path is a directory of another exactly when files and implied directories are disjoint |
| `Paths.UnderIsStringPrefix` | trunks/mount/nfs.py:803-807 | Being under a directory is the same test on name sequences and on slash-joined strings |
| `Paths.SplitJoin` | trunks/repository.py:722-731 | Splitting a joined path gives its names back |
| `PushProtocol.RunSafe` | trunks/push.py:25-111 | In every state of every interleaving of pushes, fetches, helper pushes, deletions and failures, the full closure of every backend ref is stored |
| `PushProtocol.InvStep` | trunks/push.py:37-108 | Each single request keeps: refs closed, local stores closed, recorded refs behind local branches, every phase justified |
| `PushProtocol.RunForward` | trunks/push.py:40-69 | While a branch is not itself force-pushed or deleted it only moves to descendants, over whole runs and whatever happens to other branches |
| `PushProtocol.ForwardStep` | trunks/push.py:46-69 | Each single step moves a branch only to a descendant unless it force-pushes or deletes that branch |
| `PushProtocol.PushNeverLost` | trunks/push.py:68-99 | Once a push of either kind has won its compare-and-swap, the pushed commit stays in the history of that branch and fully stored, until that branch is force-pushed or deleted |
| `PushAlone.PushAloneIff` | trunks/push.py:37-108 | An undisturbed push that has come to its end has put the local commit and all local objects on the backend and recorded it if and only if the backend has no such branch, the recorded value, or the local commit; otherwise it has changed nothing |
| `PushAlone.PushAloneEnds` | trunks/push.py:37-108 | From any state such a push comes to its end |
| `PushAlone.HelperAloneIff` | trunks/remote_helper.py:370-423 | An undisturbed helper push has moved the branch to the target if and only if it was forced, new, or to a descendant, and touched no other ref |
| `PushAlone.FetchAloneGets` | trunks/fetch.py:14-20 | After an undisturbed fetch every backend ref is the local and the recorded one, and no other changed |
| `PushAlone.FetchCommitMayPush` | trunks/push.py:37-69 | Fetch, commit, push: if nobody comes between, the new commit gets through |
| `PushProtocol.BranchesAndActions` | trunks/remote_helper.py:399-401 | Branches and tags are not action refs |
| `PushProtocol.ObjectsOnlyGrow` | trunks/backends/memory.py:32-45 | The backend never loses an object in any run |
| `PushProtocol.ThinUploadSuffices` | trunks/remote_helper.py:396-414 | The listed objects together with the closures of the excluded refs are the whole closure of the pushed commit |
| `PushProtocol.ActorPhase` | trunks/remote_helper.py:370-423 | The acting client is again in a justified phase after each of its requests |
| `PushProtocol.CommitKeepsLocal` | trunks/repository.py:623-654 | A commit built from index blobs, its own trees and the branch head keeps the local store closed and the recorded backend ref behind the branch |
| `PushProtocol.StageKeepsLocal` | trunks/repository.py:454-468 | Staging a blob keeps the local store closed and every index blob stored |
| `Mirrors.StrictMirrors` | trunks/backends/multi.py:42-55 | Over every run with failures anywhere, a mirror ref (with every replica required) is its original value or one the primary has held, and its closure is in that mirror; a helper push needs, when it swaps, that what it left out is in every store |
| `Mirrors.ThinCompleteIff` | trunks/remote_helper.py:396-414 | In every run, with required or lenient replicas, when a helper push has dealt with its list, a store has the pushed closure if and only if it has what the push did not write everywhere |
| `Mirrors.MissedSwapDangles` | trunks/remote_helper.py:407-416 | Otherwise the push, winning its swap and going on undisturbed, leaves that mirror with a dangling ref: the condition is exact |
| `Mirrors.RunInv` | trunks/backends/multi.py:42-55 | The invariant holds in every state of every such run |
| `Mirrors.InvStep` | trunks/backends/multi.py:94-108 | Each request to each store keeps that invariant |
| `Mirrors.HeldIsHistory` | trunks/backends/multi.py:50-55 | What counts as held was the primary value in some state of the run so far |
| `Mirrors.AlonePushReachesAll` | trunks/backends/multi.py:42-55 | An undisturbed push that no store fails puts the commit on the branch of every store, with all its objects, and changes no other ref |
| `Mirrors.ThinAlone` | trunks/remote_helper.py:396-420 | An undisturbed helper push that no store fails puts the commit on the branch of every store and changes no other ref |
| `Mirrors.ThinRetryDangles` | trunks/remote_helper.py:407-416 | A run in which a retried helper push leaves a mirror ref dangling, because the missing-object test asks the primary only |
| `LockCas.TrueMeansSwapped` | trunks/backends/s3.py:111-132 | A call that returned True wrote its new value over exactly the expected one in one step within the call |
| `LockCas.FalseMeansUntouched` | trunks/backends/s3.py:111-132 | A call that returned False wrote nothing |
| `LockCas.FalseHasReason` | trunks/backends/s3.py:111-126 | A call that returned False met the lock object when it asked for it, or a different value when it read the ref |
| `LockCas.NothingIntervenes` | trunks/backends/s3.py:121-128 | From the check to the write the ref keeps the checked value and no other process writes it |
| `LockCas.AloneIff` | trunks/backends/s3.py:111-132 | An undisturbed call returns True if and only if the lock is free and the ref has the expected value, swaps exactly then, and leaves the locks as they were; if one of its requests fails it raises with refs and locks unchanged, and only if it dies does its lock stay |
| `LockCas.AloneReturns` | trunks/backends/s3.py:111-132 | From any state such a call comes to an end |
| `LockCas.StepIsAtomicCas` | trunks/backends/s3.py:111-132 | The only change any request of any process makes to the refs is a successful atomic compare-and-swap |
| `LockCas.RunInv` | trunks/backends/s3.py:111-132 | At most one process per ref is between taking and releasing the lock, in every reachable state |
| `LockCas.DeadLockFreezes` | trunks/backends/s3.py:113-132 | A process that died holding the lock freezes that ref for good, and its lock object stays |
| `LockCas.DeadLockRefuses` | trunks/backends/s3.py:113-132 | A run that reaches this: one process dies with the lock, and a swap that the ref would allow is turned away |
| `Fetch.Repository.DownloadClosure` | trunks/fetch.py:22-43 | The depth-first download that stops at present objects terminates, adds only reachable objects, and leaves the store closed up to the objects still open above it; it fails only if a reachable object exists nowhere |
| `Fetch.Repository.FetchRef` | trunks/fetch.py:14-20 | From a closed store it succeeds if and only if the closure exists, and then the store is closed again and holds it |
| `Fetch.Repository.Run` | trunks/fetch.py:14-20 | All listed refs end up local with their closures |
| `Fetch.Repository.FetchClosure` | trunks/remote_helper.py:297-321 | The breadth-first download gets the closure with no assumption on the store, if and only if it exists, and otherwise installs nothing |
| `Fetch.OpenStoreMisses` | trunks/fetch.py:22-43 | Why the closed store is needed: the download of a present object whose child is missing reports success and fetches nothing |
| `Fetch.OpenStoreLacksClosure` | trunks/fetch.py:22-43 | On that input the closure is available in the backend but not local |
| `ObjectGraph.ClosedHas` | trunks/fetch.py:22-43 | A reference-closed set holds the closure of each of its members |
| `Objects.CanonicalRoundTrip` | trunks/objects.py:11-21 | Framing a payload and parsing it gives kind and payload back |
| `Objects.CanonicalOnly` | trunks/objects.py:15-21 | Whatever parses is a kind, a size text and a payload of exactly that size |
| `Objects.IntSigns` | trunks/objects.py:18-18 | Sizes may carry a sign |
| `Objects.IntSpaces` | trunks/objects.py:18-18 | Sizes may have white space around |
| `Objects.IntRefuses` | trunks/objects.py:18-18 | Empty sizes and underscores at either end are refused |
| `Objects.DecimalRoundTrip` | trunks/objects.py:11-21 | The decimal length in the header reads back through the integer parser of the header |
| `Objects.TreeRoundTrip` | trunks/objects.py:140-157 | Serialised tree entries parse back to the same list |
| `Objects.TreeOnly` | trunks/objects.py:147-157 | Whatever parses as a tree is exactly its entries written one after the other |
| `Objects.ParseTreePayload` | trunks/objects.py:147-157 | The loop that advances a position computes the recursive parse, errors included |
| `TreeStore.InsertFinds` | trunks/repository.py:724-731 | What inserting one entry does to the lookup of every path |
| `TreeStore.InsertFails` | trunks/repository.py:728-730 | Inserting raises if and only if a file sits at a proper prefix of the path |
| `TreeStore.NestDenotes` | trunks/repository.py:722-731 | A prefix-free list of distinct valid paths nests without loss in whatever order |
| `TreeStore.NestFaithfulIff` | trunks/repository.py:722-731 | The nested form stands for the list if and only if the list is prefix-free |
| `TreeStore.ClashExamples` | trunks/repository.py:722-731 | A file and a path through it: one order raises, the other loses a file |
| `TreeStore.BuildNested` | trunks/repository.py:722-731 | The loop computes the nested form, or raises where it does |
| `TreeStore.Repository.WriteTreeNode` | trunks/repository.py:733-743 | Every tree object of the nested form is in the store, nothing else was added, and the id returned is that of the root |
| `TreeStore.Repository.BuildTree` | trunks/repository.py:722-743 | The whole build: id, what it adds, and that without a hash collision every tree reads back as written |
| `TreeStore.ExtendsStores` | trunks/repository.py:745-753 | Insert-or-ignore stores the right bytes when hashes do not collide |
| `TreeFlatten.FlattenStored` | trunks/repository.py:873-885 | Flattening the stored bytes of a nested directory lists exactly its files, each once |
| `TreeFlatten.FlattenBuild` | trunks/repository.py:873-885 | Build then flatten through the stored bytes returns exactly the index, each row once |
| `TreeFlatten.FlattenLevel` | trunks/repository.py:873-885 | For any stored tree: flattening succeeds if and only if every entry has a proper name and can be flattened itself, and lists exactly what the entries add |
| `TreeFlatten.ReadTreeOnly` | trunks/repository.py:775-780 | A tree that can be read is stored as a framed list of exactly its entries |
| `TreeFlatten.ResetIndex` | trunks/repository.py:862-871 | Inserting the rows into a table keyed by path raises if and only if a path repeats, and otherwise gives the index |
| `TreeFlatten.NestedUnique` | trunks/repository.py:733-743 | Two nested forms without empty directories and with the same files are equal |
| `TreeFlatten.SameTreeIff` | trunks/cli.py:376-380 | Two indexes get equal tree ids if and only if they are equal |
| `Integrity.Repository.CheckIntegrity` | trunks/repository.py:1083-1125 | No errors are reported if and only if every ref is valid and everything reachable is present, matches its id, parses and has proper names; and every error reported is true of a ref or a reachable object |
| `Integrity.Repository.ReachableObjects` | trunks/repository.py:1062-1081 | The worklist returns exactly the reachable ids |
| `Integrity.Repository.CleanUnreachable` | trunks/repository.py:1127-1137 | Refused if and only if the check fails; otherwise exactly the unreachable objects go, their number is returned, and the repository is still intact |
| `Integrity.CleanKeepsIntact` | trunks/repository.py:1127-1137 | Removing the unreachable objects keeps the repository intact and the reachable part unchanged |
| `Integrity.CommitReaches` | trunks/repository.py:1075-1079 | A reachable commit makes its tree and all its parents reachable |
| `Integrity.TreeReaches` | trunks/repository.py:1079-1080 | A reachable tree makes all its entries reachable |
| `Integrity.ReachedBecause` | trunks/repository.py:1062-1081 | Nothing else is reached: an id is a ref value or named by a reachable object |
| `Integrity.EdgeIsMention` | trunks/repository.py:1062-1081 | The sweeps follow exactly what the parsed objects name |
| `Integrity.CleanKeepsNamed` | trunks/repository.py:1127-1137 | After a clean every ref object is there, and with every object kept its tree, parents and entries, byte for byte |
| `Integrity.IntactMeans` | trunks/repository.py:1083-1125 | In an intact repository every reachable object is present under its hash and parses, and tree entries have proper names |
| `Integrity.CleanKeepsFiles` | trunks/repository.py:1127-1137 | Every tree a ref reaches flattens to the same files afterwards |
| `Layouts.EncodeChunked` | trunks/chunked.py:32-53 | The chunks tile the object in order, full except the last, each under its digest; refused if and only if the oid is wrong |
| `Layouts.AssembleChunked` | trunks/chunked.py:68-82 | What is assembled hashes to the oid, and from the right chunks it is the object |
| `Layouts.EncodeSegment` | trunks/segment.py:30-57 | Each given object is once in the segment, in the order of ids, exactly where its entry says and with the kind of its header; refused if and only if some object is not writable |
| `Layouts.SameSetSameSegment` | trunks/segment.py:30-57 | The segment depends only on the set of objects, not on order or repetition |
| `Layouts.ReadSegmentObject` | trunks/segment.py:76-96 | A found object is the right one; in a true segment it is found if and only if it is indexed |
| `LocalStore.Local.ReadObject` | trunks/backends/local.py:37-45 | Over all three layouts, an object reads back as its own bytes if and only if some layout holds it |
| `LocalStore.Local.HasObject` | trunks/backends/local.py:76-88 | True if and only if the object can be read |
| `LocalStore.Local.WriteChunkedObject` | trunks/backends/local.py:172-184 | Chunks before manifest: at every file write the disk is consistent and nothing was lost |
| `LocalStore.Local.WriteObject` | trunks/backends/local.py:47-58 | Accepted if and only if the oid matches; the object is then held, chunked if larger than 4 MiB and else loose, and only it was added |
| `LocalStore.Local.WriteSegment` | trunks/backends/local.py:163-170 | Accepted if and only if every object is writable; data before index: at every file write the disk is consistent and nothing was lost |
| `LocalStore.Local.WriteObjects` | trunks/backends/local.py:60-74 | After success every object is held; several new small ones in a segment, a single one loose; whenever it stops, nothing was lost, half visible or added unasked |
| `LocalStore.Local.CrashAndRetry` | trunks/backends/local.py:60-74 | A crash after any file write followed by the same call completes |
| `RunLease.StepRefines` | trunks/actions/storage.py:88-251 | Every step of the interleaved read, decide, swap protocol leaves all runs alone or is one atomic operation whose guard holds at the present time |
| `RunLease.WonRecords` | trunks/actions/storage.py:88-251 | A swap that succeeds was allowed and still is, records the operation field by field (phase, token, expiry, attempt, detail, result), and changes no other run |
| `RunLease.AloneIff` | trunks/actions/storage.py:88-251 | An undisturbed operation succeeds if and only if it may go ahead, records exactly what it should, and otherwise changes nothing |
| `RunLease.LeaseHolds` | trunks/actions/storage.py:106-128 | Over whole runs a lease keeps its token until its time, unless that token completes, releases or renews it for less, or the run is cancelled |
| `RunLease.WinLeases` | trunks/actions/storage.py:113-128 | A claim or heartbeat that wins gives a lease until the time it looked at plus its ttl |
| `RunLease.InvStep` | trunks/actions/storage.py:36-51 | Each step keeps: token and lease exactly while running, every token current, awaited or retired and never two of these |
| `RunLease.RunInv` | trunks/actions/storage.py:36-51 | In every reachable state a run has a token if and only if it is running |
| `RunLease.NoTakeover` | trunks/actions/storage.py:106-113 | A running run changes its token only at or after its expiry |
| `RunLease.TerminalFrozen` | trunks/actions/storage.py:236-251 | A finished run never changes again, so at most one result is recorded |
| `RunLease.ReplacedForGood` | trunks/actions/storage.py:135-188 | A token that was replaced is never the token of that run again |
| `RunLease.StaleTokenHarmless` | trunks/actions/storage.py:219-233 | A step that changes a run never presents a retired token |
| `RunIndex.Index.Execute` | trunks/actions/storage.py:333-348 | After any sequence of operations, one at a time, all three indexes are exactly what the run states demand |
| `RunIndex.Index.Persist` | trunks/actions/storage.py:36-51 | Compare-and-swap or unconditional write; the indexes stay exact if and only if no stale queue ref is left |
| `RunIndex.Index.Perform` | trunks/actions/storage.py:88-251 | Every lease operation keeps all indexes exact |
| `RunIndex.EffectMeans` | trunks/actions/storage.py:88-251 | One operation in terms of what it needs and what it records |
| `RunIndex.RefreshExactIff` | trunks/actions/storage.py:525-553 | Refreshing keeps the queue exact if and only if it does not re-persist a queued run as pending on another route |
| `RunIndex.StaleExample` | trunks/actions/storage.py:525-553 | A concrete run that ends up with two queue refs |
| `RunIndex.UnroutedExample` | trunks/actions/storage.py:525-553 | A pending run without a spec key gets no queue ref |
| `RunIndex.OperationsSmooth` | trunks/actions/storage.py:88-251 | No claim, heartbeat, completion, release or cancellation leaves a stale queue ref |
| `RunIndex.Index.RefreshQueueRef` | trunks/actions/storage.py:525-553 | A run leaving pending loses all its queue refs; a pending routable one gets the ref of its current route |
| `RunIndex.QueuedUnderRoute` | trunks/actions/storage.py:541-553 | A pending run with a spec key is queued under that key, the requested region if it is pinned to one and else `any`, its shard and its id |
| `RunIndex.NotQueued` | trunks/actions/storage.py:535-547 | No other run is put on the queue, and one that leaves pending is taken off |
| `RunIndex.Index.RefreshIndexes` | trunks/actions/storage.py:333-348 | The old status entry goes, the by-repo and new status entries point to the new state, and the queue follows |
| `RunIndex.Index.PendingRunIds` | trunks/actions/storage.py:81-85 | With a large enough limit, precisely the pending runs that can be routed, each once, in queue order |
| `RunIndex.Index.ListRuns` | trunks/actions/storage.py:64-78 | A newest-first window of exactly the runs of a status, read from an index |
| `RunIndex.QueueSize` | trunks/actions/storage.py:525-553 | The queue has exactly one ref per pending routable run |
| `RunIndex.LastPartOf` | trunks/actions/storage.py:81-85 | The last path component of a queue name is the run id |
| `Capacity.NeverOverLimit` | trunks/actions/capacity.py:59-98 | In every state of every interleaving at most `limit` slots are live, each under its own token |
| `Capacity.InvStep` | trunks/actions/capacity.py:59-144 | Each read and swap keeps slots below the limit and tokens unique |
| `Capacity.NotStolen` | trunks/actions/capacity.py:76-98 | A live slot keeps its token until its own holder releases it |
| `Capacity.KeptWhileLive` | trunks/actions/capacity.py:101-144 | The same over a whole stretch of a run, whatever holders of other tokens try to release |
| `Capacity.WonRecords` | trunks/actions/capacity.py:76-144 | A claim that wins takes a lapsed or empty slot for its token until the time it looked at plus its ttl; a heartbeat that wins changes only the expiry; no other slot changes |
| `Capacity.HeartbeatProposes` | trunks/actions/capacity.py:140-144 | A heartbeat proposes the slot it read with the present time plus its ttl |
| `Capacity.ClaimAloneGets` | trunks/actions/capacity.py:76-98 | An undisturbed claim gets the lowest slot that is not live, or finds every slot below the limit live |
| `Capacity.HeartbeatAloneIff` | trunks/actions/capacity.py:118-144 | An undisturbed heartbeat succeeds if and only if its token holds the slot, which then lasts until the present time plus its ttl |
| `Capacity.LeaseHolds` | trunks/actions/capacity.py:59-144 | Over whole runs a slot keeps its token until its time unless its holder releases it or renews it for less |
| `Capacity.ReleaseFrees` | trunks/actions/capacity.py:101-115 | A release frees the slot if and only if it presents its token |
| `Capacity.Pool.Claim` | trunks/actions/capacity.py:59-98 | Alone, a claim is refused if and only if live slots reach the limit; otherwise the lowest free slot and no other changes |
| `Capacity.Pool.LiveSlots` | trunks/actions/capacity.py:166-174 | The listing loop finds exactly the unexpired slots |
| `Stages.ComputeStages` | trunks/actions/workflow.py:740-753 | For any jobs: stages are returned if and only if every need is known and the needs have no cycle, and then they partition the jobs in layers |
| `Stages.StageIsLongestChain` | trunks/actions/workflow.py:740-753 | The stage of a job is the length of its longest chain of needs |
| `Stages.StuckHasCycle` | trunks/actions/workflow.py:744-747 | Where nothing is ready, following needs closes a cycle |
| `Stages.PartitionHasNoCycle` | trunks/actions/workflow.py:740-753 | Layered stages exclude unknown needs and cycles |
| `Stages.ValidateNeeds` | trunks/actions/workflow.py:731-737 | A workflow is accepted if and only if its needs are known and acyclic |
| `Stages.RunWorkflow` | trunks/actions/workflow.py:193-234 | Whatever the outcomes, a job starts only after every variant of every need succeeded, nothing starts twice, started jobs run all variants, and success means every job succeeded |
| `Stages.AllSucceededMeans` | trunks/actions/workflow.py:195-195 | A job without a matrix runs once, any other once per combination |
| `Stages.LastCounts` | trunks/actions/workflow.py:740-741 | Of several jobs with one id the last counts |
| `Xdr.DecodeAllEncodeAll` | trunks/mount/xdr.py:12-97 | Any packed sequence unpacks by the same types to itself, wherever it lies, and consumes exactly its bytes |
| `Xdr.DecodeEncode` | trunks/mount/xdr.py:28-97 | The same for one value |
| `Xdr.AllAligned` | trunks/mount/xdr.py:12-13 | Packed data is always a multiple of four bytes |
| `Xdr.DecodedInRange` | trunks/mount/xdr.py:66-97 | Whatever unpacks could have been packed, into as many bytes |
| `Xdr.BigRoundTrip` | trunks/mount/xdr.py:28-41 | Big-endian integers read back |
| `Xdr.Packer.PackAll` | trunks/mount/xdr.py:16-55 | The packer produces that encoding and refuses exactly the values out of range |
| `Xdr.Unpacker.UnpackAll` | trunks/mount/xdr.py:58-97 | The unpacker computes that decoding, including how far it got when it fails |
| `Xdr.PackThenUnpack` | trunks/mount/xdr.py:16-97 | Packer and unpacker together: the same values and no byte left |
| `Record.ReadsFramed` | trunks/mount/rpc.py:65-80 | Any fragmentation within the size limit reads back as the payload and nothing beyond it is consumed |
| `Record.ReadWasFramed` | trunks/mount/rpc.py:65-80 | A record that was read was framed in exactly the bytes consumed |
| `Record.ReadBounded` | trunks/mount/rpc.py:65-80 | No record longer than 16 MiB is returned |
| `Record.HugeFragment` | trunks/mount/rpc.py:72-73 | A fragment that announces more than 16 MiB is refused |
| `Record.EncodeReadsBack` | trunks/mount/rpc.py:83-87 | An encoded reply is one fragment whose marker has the top bit and the length, and reads back |
| `Record.Stream.ReadRecord` | trunks/mount/rpc.py:65-80 | The reading loop, with its limits and end-of-stream errors |
| `Ulid.TimestampReadsBack` | trunks/actions/storage.py:462-470 | For timestamps below 2^50 the first ten characters, upper-cased, decode to the exact millisecond |
| `Ulid.EarlierIsSmaller` | trunks/ids.py:40-51 | A smaller timestamp gives a lexicographically smaller ULID |
| `Ulid.Generate` | trunks/ids.py:43-51 | The shifting loop produces the 26 base-32 digits of timestamp and randomness |
| `Ulid.TimeOf` | trunks/actions/storage.py:462-470 | The decoding loop over the upper-cased characters: None for a wrong length or a character outside the alphabet, else the number |
| `Ulid.DigitsOrder` | trunks/ids.py:40-51 | Fixed-width base-32 digits are ordered as the numbers are |
| `Ulid.AlphabetIs` | trunks/ids.py:40-40 | The alphabet is the digits and all letters but I, L, O and U |

## Left out

- NFS handle table, modification times, ownership, and the XDR form of replies: procedures take resolved paths and give structured replies.
- NFS desktop metadata (`.DS_Store`, `._*`): the handler keeps such files in a table of its own. No request of a modelled run creates such a name and no index path has one, so that table stays empty; what happens to these files is not modelled.
- Nfs.Handler.Create: for ordinary names only, as above.
- Nfs.Handler.Mkdir: for ordinary names only, as above.
- Symbolic links, READDIR cookies and paging, FSSTAT, FSINFO and PATHCONF.
- Nfs.Handler.Rename: a directory goes only to a free name outside the source, a file not onto a directory, and the new name is ordinary.
- Nfs.Handler.Run: other processes do not change the repository or its head commit while it is mounted; the sharing of one bytearray between handler and staging job is not modelled, snapshots are copies as in the code. What clients see through wrong caches after a stopped directory rename is not modelled.
- NfsSpec.NeverTracked: paths are taken in normal form; that `normalize_path` turns backslashes into slashes and drops `.` components of a path before it is stored is not modelled (names with either cannot be created through the mount).
- Push transaction records and journals are reduced to the phases of a push; one client performs its own operations one after the other.
- PushProtocol.RunForward: excludes forced pushes and deletions of the branch in question, and the single-blob refs under `refs/actions/`; local branch rollback is not a client step.
- The fetch of one ref is a single step of the push model; its loop is in `Fetch.Repository.FetchRef`, whose contract is that step.  Interrupted fetches leave an open store and are not continued.
- Mirrors.StrictMirrors: is about replicas that are all required, and about mirrors; archives are not covered, and a forced helper push may read and swap again any number of times, where the code does so once.
- LockCas.TrueMeansSwapped: assumes that a request that reports failure was not applied and that nobody deletes the ref meanwhile.
- TreeFlatten.FlattenBuild: the recursion of `flatten_tree` is bounded by a depth parameter, which may be any bound on the path lengths; sharing of nested dictionaries is not modelled.
- Git's own tree order and compatibility with real Git; commit text, identities and tags: commits are a tree and parents.
- Integrity.Repository.CheckIntegrity: the size in an object header is read as `int()` reads ASCII text; white space and digits outside ASCII, and headers that are not UTF-8, are not modelled.
- PushProtocol.CommitKeepsLocal: index blobs come from staging or from a commit in the store; an index row set to an id that was never stored, which `create_commit` would not notice, is not a client step.
- Integrity: staged blobs that no ref reaches get no protection from `clean_unreachable`, and the model promises none.
- Corrupted files, concurrent writers and object deletion in the local backend; the ref file lock of the local backend.
- RunLease.StepRefines: completion is modelled with the two phases its callers use, succeeded and failed; runs are created under new ids; logs, artifacts and attempt numbers across a release are not tracked.
- RunIndex.Index.Execute: operations one at a time, on a backend that can delete refs; `repair_indexes` and pruning are not modelled.
- Capacity.NeverOverLimit: for a fixed limit and with release as one step, since its delete is not a compare-and-swap.
- `enqueue_workflow` queues all jobs at once and gates nothing; YAML parsing, expressions, triggers and matrix expansion.
- Xdr.Packer.PackAll: strings are packed as their bytes; UTF-8 itself is not modelled.
- Ulid.TimeOf: returns milliseconds; the final floating-point division by 1000 is not modelled, and upper-casing is a parameter that is fixed for ASCII only.
- S3 signing, HTTP retries, other cloud backends, the caching backend, CLI, SDK, webhooks, OIDC, configuration and credentials.
