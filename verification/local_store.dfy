/** The local backend: loose, chunked and segment files that together hold one immutable map from
    object ids to bytes, at every instant at which the machine could stop. */
module LocalStore {
  import opened Core
  import opened Objects
  import opened Layouts

  /** A segment's id is the hash of its index and data. */
  datatype SegmentId = SegmentId(index: SegmentIndex, segment: Data)

  /** The files below the backend root. */
  datatype Disk = Disk(loose: map<Digest, Data>, manifests: map<Digest, Manifest>, chunks: map<Digest, Data>,
                       segments: map<SegmentId, Data>, indexes: map<SegmentId, SegmentIndex>)

  ghost predicate ManifestOk(d: Disk, oid: Digest, m: Manifest) {
    ManifestFor(m, oid.of) && forall i | 0 <= i < |m.chunks| :: m.chunks[i].id in d.chunks
  }

  /** No manifest lacks a chunk, no index lacks its segment, and every file is what its name says. */
  ghost predicate DiskOk(d: Disk) {
    (forall o | o in d.loose :: d.loose[o] == o.of) &&
    (forall c | c in d.chunks :: d.chunks[c] == c.of) &&
    (forall o | o in d.manifests :: ManifestOk(d, o, d.manifests[o])) &&
    (forall s | s in d.segments :: d.segments[s] == s.segment) &&
    (forall s | s in d.indexes :: d.indexes[s] == s.index && s in d.segments && SegmentFor(s.index, s.segment))
  }

  ghost predicate InSegments(d: Disk, oid: Digest) {
    exists s :: s in d.indexes && oid in EntryOids(s.index.entries)
  }

  /** The abstract map: `oid` is bound, and then its value can only be `oid.of`. */
  ghost predicate Holds(d: Disk, oid: Digest) {
    oid in d.loose || oid in d.manifests || InSegments(d, oid)
  }

  ghost predicate Grows(d: Disk, d': Disk) { forall o | Holds(d, o) :: Holds(d', o) }

  /** Only objects from `more` were added. */
  ghost predicate AddsOnly(d: Disk, d': Disk, more: set<Digest>) { forall o | Holds(d', o) :: Holds(d, o) || o in more }

  // ---- One atomic file write at a time ----

  lemma LooseKeeps(d: Disk, o: Digest)
    requires DiskOk(d)
    ensures var d' := d.(loose := d.loose[o := o.of]);
            DiskOk(d') && Grows(d, d') && Holds(d', o) && AddsOnly(d, d', {o})
  {
  }

  lemma ChunkKeeps(d: Disk, c: Digest)
    requires DiskOk(d)
    ensures var d' := d.(chunks := d.chunks[c := c.of]);
            DiskOk(d') && Grows(d, d') && AddsOnly(d, d', {}) && forall k | k in d.chunks :: k in d'.chunks
  {
  }

  lemma ManifestKeeps(d: Disk, o: Digest, m: Manifest)
    requires DiskOk(d) && ManifestOk(d, o, m)
    ensures var d' := d.(manifests := d.manifests[o := m]);
            DiskOk(d') && Grows(d, d') && Holds(d', o) && AddsOnly(d, d', {o})
  {
  }

  lemma SegmentKeeps(d: Disk, s: SegmentId)
    requires DiskOk(d)
    ensures var d' := d.(segments := d.segments[s := s.segment]);
            DiskOk(d') && Grows(d, d') && AddsOnly(d, d', {})
  {
  }

  lemma IndexKeeps(d: Disk, s: SegmentId)
    requires DiskOk(d) && s in d.segments && SegmentFor(s.index, s.segment)
    ensures var d' := d.(indexes := d.indexes[s := s.index]);
            DiskOk(d') && Grows(d, d') && AddsOnly(d, d', EntryOids(s.index.entries)) &&
            forall o | o in EntryOids(s.index.entries) :: Holds(d', o) && InSegments(d', o)
  {
    var d' := d.(indexes := d.indexes[s := s.index]);
    assert s in d'.indexes;
    forall o | Holds(d, o) ensures Holds(d', o) {
      if InSegments(d, o) {
        var t :| t in d.indexes && o in EntryOids(t.index.entries);
        assert t in d'.indexes;
      }
    }
  }

  /** Every disk since `from` was consistent and had lost nothing. */
  ghost predicate SafeSince(history: seq<Disk>, from: nat, base: Disk) {
    forall i | from <= i < |history| :: DiskOk(history[i]) && Grows(base, history[i])
  }

  lemma SafeAppend(history: seq<Disk>, from: nat, base: Disk, d: Disk)
    requires SafeSince(history, from, base) && DiskOk(d) && Grows(base, d)
    ensures SafeSince(history + [d], from, base)
  {
  }

  lemma NothingWritten(history: seq<Disk>, d: Disk)
    ensures SafeSince(history, |history|, d) && Grows(d, d) && forall more :: AddsOnly(d, d, more)
  {
  }

  lemma Indexed(d: Disk, id: SegmentId)
    requires id in d.indexes
    ensures forall o | o in EntryOids(id.index.entries) :: Holds(d, o) && InSegments(d, o)
  {
  }

  /** Steps compose: safety since a later disk is safety since an earlier one. */
  lemma SafeCompose(was: seq<Disk>, now: seq<Disk>, from: nat, base: Disk, mid: Disk)
    requires was <= now && from <= |was| && SafeSince(was, from, base) && Grows(base, mid)
    requires SafeSince(now, |was|, mid)
    ensures SafeSince(now, from, base)
  {
    forall i | from <= i < |now| ensures DiskOk(now[i]) && Grows(base, now[i]) {
      if i < |was| { assert now[i] == was[i]; }
    }
  }

  /** None is stored yet and none is larger than a chunk. */
  ghost predicate AllNew(d: Disk, objects: seq<(Digest, Data)>) {
    forall i | 0 <= i < |objects| :: !Holds(d, objects[i].0) && |objects[i].1| <= 4 * 1024 * 1024
  }

  /** Different ids have different text. */
  ghost predicate NoTwoAlike(hex: Hex) { forall a, b | hex(a) == hex(b) :: a == b }

  class Local {
    const hex: Hex
    var disk: Disk
    /** Every disk a crash could have left behind, oldest first. */
    var history: seq<Disk>

    ghost predicate Valid()
      reads this
    {
      DiskOk(disk) && |history| > 0 && history[|history| - 1] == disk && NoTwoAlike(hex)
    }

    constructor (hex: Hex)
      requires NoTwoAlike(hex)
      ensures Valid() && forall o :: !Holds(disk, o)
    {
      this.hex := hex;
      disk := Disk(map[], map[], map[], map[], map[]);
      history := [Disk(map[], map[], map[], map[], map[])];
    }

    /** `_write_atomic`: the only way any file changes. */
    method WriteAtomic(d: Disk)
      requires Valid() && DiskOk(d) && Grows(disk, d)
      modifies this
      ensures Valid() && disk == d && history == old(history) + [d]
    {
      disk := d;
      history := history + [d];
    }

    // ---- Reading ----

    method ReadChunked(oid: Digest) returns (r: Lookup)
      requires DiskOk(disk)
      ensures r == if oid in disk.manifests then Found(oid.of) else Absent
    {
      if oid !in disk.manifests {
        return Absent;
      }
      var m := disk.manifests[oid];
      assert ManifestOk(disk, oid, m);
      var parts: seq<Data> := [];
      for i := 0 to |m.chunks|
        invariant |parts| == i
        invariant forall k | 0 <= k < i :: Digest(parts[k]) == m.chunks[k].id
      {
        if m.chunks[i].id !in disk.chunks {
          return Damaged;
        }
        parts := parts + [disk.chunks[m.chunks[i].id]];
      }
      var data := AssembleChunked(m, parts, oid.of);
      r := if data.Some? then Found(data.value) else Damaged;
    }

    method ReadSegments(oid: Digest) returns (r: Lookup)
      requires DiskOk(disk)
      ensures r == if InSegments(disk, oid) then Found(oid.of) else Absent
    {
      var rest := disk.indexes.Keys;
      while rest != {}
        invariant rest <= disk.indexes.Keys
        invariant forall s | s in disk.indexes.Keys - rest :: oid !in EntryOids(s.index.entries)
      {
        var s :| s in rest;
        if s !in disk.segments {
          return Damaged;
        }
        r := ReadSegmentObject(disk.segments[s], disk.indexes[s], oid);
        if r != Absent {
          return;
        }
        rest := rest - {s};
      }
      r := Absent;
    }

    /** `read_object`: loose, then chunked, then segments; the bytes are always the object's. */
    method ReadObject(oid: Digest) returns (r: Lookup)
      requires DiskOk(disk)
      ensures r == if Holds(disk, oid) then Found(oid.of) else Absent
    {
      if oid in disk.loose {
        return Found(disk.loose[oid]);
      }
      r := ReadChunked(oid);
      if r == Absent {
        r := ReadSegments(oid);
      }
    }

    method HasObject(oid: Digest) returns (b: bool)
      requires DiskOk(disk)
      ensures b == Holds(disk, oid)
    {
      if oid in disk.loose {
        return Digest(disk.loose[oid]) == oid;
      }
      var r := ReadChunked(oid);
      if r.Found? {
        return true;
      }
      r := ReadSegments(oid);
      b := r.Found?;
    }

    // ---- Writing ----

    /** All chunks go to disk before the manifest that names them. */
    method WriteChunkedObject(oid: Digest, data: Data) returns (ok: bool)
      requires Valid()
      modifies this
      ensures Valid() && (ok <==> oid in old(disk).manifests || oid == Digest(data))
      ensures ok ==> Holds(disk, oid) && oid in disk.manifests
      ensures Grows(old(disk), disk) && AddsOnly(old(disk), disk, {oid})
      ensures old(history) <= history && SafeSince(history, |old(history)|, old(disk))
    {
      if oid in disk.manifests {
        var r := ReadChunked(oid);
        if r.Found? {
          return true;
        }
      }
      var encoded := EncodeChunked(oid, data);
      if encoded.None? {
        return false;
      }
      var (manifest, chunks) := encoded.value;
      hide DiskOk, Holds, Tiles;
      for i := 0 to |chunks|
        invariant Valid() && Grows(old(disk), disk) && AddsOnly(old(disk), disk, {})
        invariant old(history) <= history && SafeSince(history, |old(history)|, old(disk))
        invariant forall k | 0 <= k < i :: chunks[k].0 in disk.chunks
      {
        assert chunks[i].1 == chunks[i].0.of;
        ChunkKeeps(disk, chunks[i].0);
        SafeAppend(history, |old(history)|, old(disk), disk.(chunks := disk.chunks[chunks[i].0 := chunks[i].1]));
        WriteAtomic(disk.(chunks := disk.chunks[chunks[i].0 := chunks[i].1]));
      }
      ManifestKeeps(disk, oid, manifest);
      SafeAppend(history, |old(history)|, old(disk), disk.(manifests := disk.manifests[oid := manifest]));
      WriteAtomic(disk.(manifests := disk.manifests[oid := manifest]));
      ok := true;
    }

    method WriteObject(oid: Digest, data: Data) returns (ok: bool)
      requires Valid()
      modifies this
      ensures Valid() && (ok <==> oid == Digest(data))
      ensures ok ==> Holds(disk, oid) && if |data| > 4 * 1024 * 1024 then oid in disk.manifests else oid in disk.loose
      ensures Grows(old(disk), disk) && AddsOnly(old(disk), disk, {oid})
      ensures old(history) <= history && SafeSince(history, |old(history)|, old(disk))
    {
      if oid != Digest(data) {
        return false;
      }
      if ShouldChunk(data) {
        ok := WriteChunkedObject(oid, data);
        return;
      }
      if oid in disk.loose && disk.loose[oid] == data {
        return true;
      }
      LooseKeeps(disk, oid);
      hide DiskOk, Holds;
      SafeAppend(history, |old(history)|, old(disk), disk.(loose := disk.loose[oid := data]));
      WriteAtomic(disk.(loose := disk.loose[oid := data]));
      ok := true;
    }

    /** Segment data first, then the index that makes it visible. */
    method WriteSegment(objects: seq<(Digest, Data)>) returns (ok: bool)
      requires Valid()
      modifies this
      ensures Valid() && (ok <==> forall i | 0 <= i < |objects| :: Writable(objects[i].0, objects[i].1))
      ensures ok ==> forall o | o in GivenOids(objects) :: Holds(disk, o) && InSegments(disk, o)
      ensures Grows(old(disk), disk) && AddsOnly(old(disk), disk, GivenOids(objects))
      ensures old(history) <= history && SafeSince(history, |old(history)|, old(disk))
    {
      hide DiskOk, Holds, SegmentFor, KindOf, SortedSegment, InSegments;
      NothingWritten(history, disk);
      var encoded := EncodeSegment(objects, hex);
      if encoded.None? {
        return false;
      }
      StoreSegment(SegmentId(encoded.value.0, encoded.value.1));
      ok := true;
    }

    /** The two file writes, unless both files are there already. */
    method StoreSegment(id: SegmentId)
      requires Valid() && SegmentFor(id.index, id.segment)
      modifies this
      ensures Valid() && forall o | o in EntryOids(id.index.entries) :: Holds(disk, o) && InSegments(disk, o)
      ensures Grows(old(disk), disk) && AddsOnly(old(disk), disk, EntryOids(id.index.entries))
      ensures old(history) <= history && SafeSince(history, |old(history)|, old(disk))
    {
      hide DiskOk, Holds, SegmentFor;
      if id in disk.segments && id in disk.indexes {
        Indexed(disk, id);
        NothingWritten(history, disk);
        return;
      }
      SegmentKeeps(disk, id);
      IndexKeeps(disk.(segments := disk.segments[id := id.segment]), id);
      SafeAppend(history, |old(history)|, old(disk), disk.(segments := disk.segments[id := id.segment]));
      WriteAtomic(disk.(segments := disk.segments[id := id.segment]));
      SafeAppend(history, |old(history)|, old(disk), disk.(indexes := disk.indexes[id := id.index]));
      WriteAtomic(disk.(indexes := disk.indexes[id := id.index]));
    }

    /** `write_objects`: present objects are skipped, large ones are chunked, one small one goes
        loose, several go into a segment.  Whenever it stops, nothing was lost or half visible. */
    method WriteObjects(objects: seq<(Digest, Data)>) returns (ok: bool)
      requires Valid()
      modifies this
      ensures Valid()
      ensures (forall i | 0 <= i < |objects| :: Writable(objects[i].0, objects[i].1)) ==> ok
      ensures ok ==> forall o | o in GivenOids(objects) :: Holds(disk, o)
      // Small new objects go together into a segment, a single one goes loose.
      ensures ok && AllNew(old(disk), objects) && objects != [] ==>
                if |objects| == 1 then objects[0].0 in disk.loose
                else forall o | o in GivenOids(objects) :: InSegments(disk, o)
      ensures Grows(old(disk), disk) && AddsOnly(old(disk), disk, GivenOids(objects))
      ensures old(history) <= history && SafeSince(history, |old(history)|, old(disk))
    {
      hide DiskOk, Holds, SegmentFor, ManifestOk, KindOf, InSegments;
      var small: seq<(Digest, Data)> := [];
      for i := 0 to |objects|
        invariant Valid() && Grows(old(disk), disk) && AddsOnly(old(disk), disk, GivenOids(objects))
        invariant old(history) <= history && SafeSince(history, |old(history)|, old(disk))
        invariant forall k | 0 <= k < i :: Holds(disk, objects[k].0) || objects[k] in small
        invariant forall x | x in small :: x in objects
        invariant AllNew(old(disk), objects) ==> small == objects[..i] && disk == old(disk)
      {
        var oid, data := objects[i].0, objects[i].1;
        assert oid in GivenOids(objects);
        var has := HasObject(oid);
        if has {
        } else if ShouldChunk(data) {
          label Before:
          ok := WriteObject(oid, data);
          SafeCompose(old@Before(history), history, |old(history)|, old(disk), old@Before(disk));
          if !ok {
            assert !Writable(objects[i].0, objects[i].1);
            return;
          }
        } else {
          small := small + [(oid, data)];
        }
      }
      SmallGiven(small, objects);
      if small == [] {
        return true;
      }
      label Mid:
      if |small| == 1 {
        ok := WriteObject(small[0].0, small[0].1);
        assert GivenOids(small) == {small[0].0};
      } else {
        ok := WriteSegment(small);
      }
      SafeCompose(old@Mid(history), history, |old(history)|, old(disk), old@Mid(disk));
      if ok {
        forall o | o in GivenOids(objects) ensures Holds(disk, o) {
          var k :| 0 <= k < |objects| && objects[k].0 == o;
          if objects[k] in small {
            var j :| 0 <= j < |small| && small[j] == objects[k];
            assert small[j].0 in GivenOids(small);
          }
        }
      }
    }

    /** A crash at any point of `write_objects`, then the same call again: the retry completes. */
    method CrashAndRetry(objects: seq<(Digest, Data)>, k: nat) returns (ok: bool)
      requires Valid() && forall i | 0 <= i < |objects| :: Writable(objects[i].0, objects[i].1)
      modifies this
      ensures Valid() && ok
      ensures Grows(old(disk), disk) && forall o | o in GivenOids(objects) :: Holds(disk, o)
    {
      var start := |history|;
      ok := WriteObjects(objects);
      if start + k < |history| {
        Restart(start + k);
      }
      hide DiskOk, Holds;
      ok := WriteObjects(objects);
    }

    /** The disk as the machine left it after its k-th file write. */
    method Restart(k: nat)
      requires Valid() && k < |history| && DiskOk(history[k])
      modifies this
      ensures Valid() && disk == old(history)[k]
    {
      disk := history[k];
      history := history[..k + 1];
    }
  }

  lemma SmallGiven(small: seq<(Digest, Data)>, objects: seq<(Digest, Data)>)
    requires forall x | x in small :: x in objects
    ensures GivenOids(small) <= GivenOids(objects)
    ensures (forall i | 0 <= i < |objects| :: Writable(objects[i].0, objects[i].1)) ==>
              forall i | 0 <= i < |small| :: Writable(small[i].0, small[i].1)
  {
    forall i | 0 <= i < |small| ensures exists k :: 0 <= k < |objects| && objects[k] == small[i] {
      assert small[i] in small;
    }
    forall o | o in GivenOids(small) ensures o in GivenOids(objects) {
      var i :| 0 <= i < |small| && small[i].0 == o;
      var k :| 0 <= k < |objects| && objects[k] == small[i];
      assert objects[k].0 == o;
    }
  }
}
