/** The two packed layouts: chunked objects and segments.

    SHA-1 and SHA-256 are idealised: a digest carries the bytes it was computed from.  Manifests and
    segment indexes are JSON in the files; the codec is taken as lossless. */
module Layouts {
  import opened Core
  import opened Objects
  import opened Ordering

  const CHUNK_SIZE: nat := 4 * 1024 * 1024
  const MAGIC: Data := "TRUNKSSEG1" + [NUL]

  datatype Digest = Digest(of: Data)

  datatype ChunkEntry = ChunkEntry(id: Digest, offset: nat, length: nat)
  datatype Manifest = Manifest(oid: Digest, size: nat, chunks: seq<ChunkEntry>)

  datatype SegmentEntry = SegmentEntry(oid: Digest, kind: string, offset: nat, length: nat)
  datatype SegmentIndex = SegmentIndex(sha: Digest, entries: seq<SegmentEntry>)

  predicate ShouldChunk(data: Data) { |data| > CHUNK_SIZE }

  function KindOf(data: Data): Option<string> {
    match ParseCanonicalObject(data) case None => None case Some((kind, _)) => Some(kind)
  }

  // ---- Chunks ----

  /** The entries cover the data from `from` to its end, piece by piece. */
  ghost predicate Tiles(chunks: seq<ChunkEntry>, data: Data, from: nat)
    decreases |chunks|
  {
    from <= |data| &&
    if chunks == [] then from == |data|
    else
      var c := chunks[0];
      c.offset == from && 0 < c.length && from + c.length <= |data| &&
      c.id == Digest(data[from..from + c.length]) && Tiles(chunks[1..], data, from + c.length)
  }

  ghost predicate ManifestFor(m: Manifest, data: Data) {
    m.oid == Digest(data) && m.size == |data| && Tiles(m.chunks, data, 0)
  }

  /** Every chunk is a full one, except one that ends the object. */
  predicate FullOrLast(c: ChunkEntry, size: nat) {
    c.length == 4 * 1024 * 1024 || (c.length < 4 * 1024 * 1024 && c.offset + c.length == size)
  }

  /** The object cut into digested pieces that tile it, in order. */
  method EncodeChunked(oid: Digest, data: Data) returns (r: Option<(Manifest, seq<(Digest, Data)>)>)
    ensures r.Some? <==> oid == Digest(data)
    ensures r.Some? ==> ManifestFor(r.value.0, data) && |r.value.1| == |r.value.0.chunks|
    ensures r.Some? ==> forall i | 0 <= i < |r.value.1| ::
              r.value.1[i].0 == Digest(r.value.1[i].1) == r.value.0.chunks[i].id
    ensures r.Some? ==> forall c | c in r.value.0.chunks :: FullOrLast(c, |data|)
  {
    if oid != Digest(data) {
      return None;
    }
    var chunks: seq<(Digest, Data)> := [];
    var entries: seq<ChunkEntry> := [];
    var offset := 0;
    while offset < |data|
      invariant offset <= |data|
      invariant Covers(entries, data, offset)
      invariant |chunks| == |entries|
      invariant forall i | 0 <= i < |chunks| :: chunks[i].0 == Digest(chunks[i].1) == entries[i].id
      invariant forall c | c in entries :: FullOrLast(c, |data|)
    {
      var end := if offset + CHUNK_SIZE < |data| then offset + CHUNK_SIZE else |data|;
      var chunk := data[offset..end];
      CoversMore(entries, data, offset, ChunkEntry(Digest(chunk), offset, |chunk|));
      chunks := chunks + [(Digest(chunk), chunk)];
      entries := entries + [ChunkEntry(Digest(chunk), offset, |chunk|)];
      offset := end;
    }
    CoversAll(entries, data);
    r := Some((Manifest(oid, |data|, entries), chunks));
  }

  /** The entries tile the first `upTo` bytes. */
  ghost predicate Covers(entries: seq<ChunkEntry>, data: Data, upTo: nat) {
    upTo <= |data| && Tiles(entries, data[..upTo], 0)
  }

  lemma PrefixSlice(data: Data, n: nat, a: nat, b: nat)
    requires a <= b <= n <= |data|
    ensures data[..n][a..b] == data[a..b]
  {
  }

  lemma {:induction false} TilesMore(entries: seq<ChunkEntry>, data: Data, from: nat, upTo: nat, c: ChunkEntry)
    requires upTo <= |data| && Tiles(entries, data[..upTo], from)
    requires c.offset == upTo && 0 < c.length && upTo + c.length <= |data|
    requires c.id == Digest(data[upTo..upTo + c.length])
    ensures Tiles(entries + [c], data[..upTo + c.length], from)
    decreases |entries|
  {
    var more := data[..upTo + c.length];
    if entries == [] {
      assert ([c])[1..] == [];
      assert more[upTo..upTo + c.length] == data[upTo..upTo + c.length];
    } else {
      var d := entries[0];
      TilesMore(entries[1..], data, from + d.length, upTo, c);
      assert (entries + [c])[1..] == entries[1..] + [c];
      PrefixSlice(data, upTo, from, from + d.length);
      PrefixSlice(data, upTo + c.length, from, from + d.length);
    }
  }

  lemma CoversMore(entries: seq<ChunkEntry>, data: Data, upTo: nat, c: ChunkEntry)
    requires Covers(entries, data, upTo)
    requires c.offset == upTo && 0 < c.length && upTo + c.length <= |data|
    requires c.id == Digest(data[upTo..upTo + c.length])
    ensures Covers(entries + [c], data, upTo + c.length)
  {
    TilesMore(entries, data, 0, upTo, c);
  }

  lemma CoversAll(entries: seq<ChunkEntry>, data: Data)
    requires Covers(entries, data, |data|)
    ensures Tiles(entries, data, 0)
  {
    assert data[..|data|] == data;
  }

  /** Python's `out[a:a+n] = chunk` for `|chunk| == n`; it clips at the end and may then grow. */
  function PutSlice(out: Data, a: nat, chunk: Data): Data {
    var lo := if a < |out| then a else |out|;
    var hi := if a + |chunk| < |out| then a + |chunk| else |out|;
    out[..lo] + chunk + out[hi..]
  }

  ghost predicate ChunksFor(m: Manifest, chunks: seq<Data>) {
    |chunks| == |m.chunks| && forall i | 0 <= i < |chunks| :: Digest(chunks[i]) == m.chunks[i].id
  }

  /** `assemble_chunked_object`: whatever it returns hashes to the manifest's oid, and from a true
      manifest and its chunks it returns the object. */
  method AssembleChunked(m: Manifest, chunks: seq<Data>, ghost data: Data) returns (r: Option<Data>)
    ensures r.Some? ==> Digest(r.value) == m.oid
    ensures ManifestFor(m, data) && ChunksFor(m, chunks) ==> r == Some(data)
  {
    if |chunks| != |m.chunks| {
      return None;
    }
    var out: Data := seq(m.size, _ => NUL);
    ghost var good := ManifestFor(m, data) && ChunksFor(m, chunks);
    ghost var at: nat := 0;
    assert m.chunks[0..] == m.chunks;
    for i := 0 to |chunks|
      invariant good ==> at <= |data| == |out| && out[..at] == data[..at] && Tiles(m.chunks[i..], data, at)
    {
      var entry, chunk := m.chunks[i], chunks[i];
      assert m.chunks[i..][0] == entry && m.chunks[i..][1..] == m.chunks[i + 1..];
      if |chunk| != entry.length {
        return None;
      }
      if Digest(chunk) != entry.id {
        return None;
      }
      if good {
        assert chunk == data[at..at + entry.length];
        assert PutSlice(out, at, chunk)[..at + entry.length] == out[..at] + chunk;
        assert data[..at + entry.length] == data[..at] + chunk;
        at := at + entry.length;
      }
      out := PutSlice(out, entry.offset, chunk);
    }
    if good {
      assert out[..|data|] == out && data[..|data|] == data;
    }
    if Digest(out) != m.oid {
      return None;
    }
    r := Some(out);
  }

  // ---- Segments ----

  /** An entry points at exactly the bytes of its object. */
  predicate EntryOk(segment: Data, e: SegmentEntry) {
    |MAGIC| <= e.offset && e.offset + e.length <= |segment| &&
    segment[e.offset..e.offset + e.length] == e.oid.of && KindOf(e.oid.of) == Some(e.kind)
  }

  ghost predicate SegmentFor(index: SegmentIndex, segment: Data) {
    MAGIC <= segment && index.sha == Digest(segment) &&
    forall i | 0 <= i < |index.entries| :: EntryOk(segment, index.entries[i])
  }

  ghost function EntryOids(entries: seq<SegmentEntry>): set<Digest> { set i | 0 <= i < |entries| :: entries[i].oid }

  ghost function GivenOids(objects: seq<(Digest, Data)>): set<Digest> { set i | 0 <= i < |objects| :: objects[i].0 }

  predicate Writable(oid: Digest, data: Data) { oid == Digest(data) && KindOf(data).Some? }

  lemma EntryGrows(segment: Data, more: Data, e: SegmentEntry)
    requires EntryOk(segment, e)
    ensures EntryOk(segment + more, e)
  {
    assert (segment + more)[e.offset..e.offset + e.length] == segment[e.offset..e.offset + e.length];
  }

  lemma EntryOidsMore(entries: seq<SegmentEntry>, e: SegmentEntry)
    ensures EntryOids(entries + [e]) == EntryOids(entries) + {e.oid}
  {
    var more := entries + [e];
    assert more[|entries|] == e;
    forall o | o in EntryOids(entries) ensures o in EntryOids(more) {
      var i :| 0 <= i < |entries| && entries[i].oid == o;
      assert more[i].oid == o;
    }
  }

  lemma GivenOidsMore(objects: seq<(Digest, Data)>, i: nat)
    requires i < |objects|
    ensures GivenOids(objects[..i + 1]) == GivenOids(objects[..i]) + {objects[i].0}
  {
    var fewer, more := objects[..i], objects[..i + 1];
    assert more[i] == objects[i];
    forall o | o in GivenOids(fewer) ensures o in GivenOids(more) {
      var k :| 0 <= k < i && fewer[k].0 == o;
      assert more[k].0 == o;
    }
  }

  lemma AddEntry(payload: Data, entries: seq<SegmentEntry>, data: Data, kind: string)
    requires MAGIC <= payload && KindOf(data) == Some(kind)
    requires forall k | 0 <= k < |entries| :: EntryOk(payload, entries[k])
    ensures var more := entries + [SegmentEntry(Digest(data), kind, |payload|, |data|)];
            MAGIC <= payload + data && forall k | 0 <= k < |more| :: EntryOk(payload + data, more[k])
  {
    forall k | 0 <= k < |entries| ensures EntryOk(payload + data, entries[k]) { EntryGrows(payload, data, entries[k]); }
    assert (payload + data)[|payload|..|payload| + |data|] == data;
  }

  /** Ids as the hexadecimal text they are sorted by. */
  type Hex = Digest -> string

  ghost predicate Distinguishes(hex: Hex, oids: set<Digest>) {
    forall a, b | a in oids && b in oids && hex(a) == hex(b) :: a == b
  }

  /** The `unique` dictionary, keyed by that text. */
  ghost predicate IsTable(hex: Hex, oids: set<Digest>, unique: map<string, Digest>) {
    (forall o | o in oids :: hex(o) in unique) &&
    forall n | n in unique :: unique[n] in oids && hex(unique[n]) == n
  }

  lemma TableUnique(hex: Hex, oids: set<Digest>, t: map<string, Digest>, u: map<string, Digest>)
    requires Distinguishes(hex, oids) && IsTable(hex, oids, t) && IsTable(hex, oids, u)
    ensures t == u
  {
    forall n | n in t ensures n in u && t[n] == u[n] { assert hex(t[n]) in u; }
    forall n | n in u ensures n in t { assert hex(u[n]) in t; }
  }

  function EntryAt(o: Digest, offset: nat): SegmentEntry {
    SegmentEntry(o, match KindOf(o.of) case Some(kind) => kind case None => "", offset, |o.of|)
  }

  /** The segment that holds these objects one after the other. */
  function Laid(list: seq<Digest>): (seq<SegmentEntry>, Data) {
    if list == [] then ([], MAGIC)
    else
      var (entries, payload) := Laid(list[..|list| - 1]);
      var o := list[|list| - 1];
      (entries + [EntryAt(o, |payload|)], payload + o.of)
  }

  ghost function Listed(names: seq<string>, unique: map<string, Digest>): seq<Digest>
    requires forall n | n in names :: n in unique
  {
    seq(|names|, i requires 0 <= i < |names| => unique[names[i]])
  }

  /** The bytes and entries depend on the set of objects alone. */
  ghost predicate SortedSegment(hex: Hex, oids: set<Digest>, entries: seq<SegmentEntry>, segment: Data) {
    exists unique :: IsTable(hex, oids, unique) && (entries, segment) == Laid(Listed(Sorted(unique.Keys), unique))
  }

  /** However the objects were given, and however often, the segment is the same. */
  lemma SameSetSameSegment(hex: Hex, oids: set<Digest>, es: seq<SegmentEntry>, s: Data, fs: seq<SegmentEntry>, t: Data)
    requires Distinguishes(hex, oids) && SortedSegment(hex, oids, es, s) && SortedSegment(hex, oids, fs, t)
    ensures es == fs && s == t
  {
    var u :| IsTable(hex, oids, u) && (es, s) == Laid(Listed(Sorted(u.Keys), u));
    var v :| IsTable(hex, oids, v) && (fs, t) == Laid(Listed(Sorted(v.Keys), v));
    TableUnique(hex, oids, u, v);
  }

  /** The first loop of `encode_segment`: check the ids and drop duplicates. */
  method Unique(objects: seq<(Digest, Data)>, hex: Hex) returns (unique: Option<map<string, Digest>>)
    requires Distinguishes(hex, GivenOids(objects))
    ensures unique.Some? <==> forall i | 0 <= i < |objects| :: objects[i].0 == Digest(objects[i].1)
    ensures unique.Some? ==> IsTable(hex, GivenOids(objects), unique.value)
  {
    var table: map<string, Digest> := map[];
    for i := 0 to |objects|
      invariant forall j | 0 <= j < i :: objects[j].0 == Digest(objects[j].1)
      invariant IsTable(hex, GivenOids(objects[..i]), table)
    {
      var oid := objects[i].0;
      if Digest(objects[i].1) != oid {
        return None;
      }
      GivenOidsMore(objects, i);
      GivenPrefix(objects, i);
      if hex(oid) !in table {
        table := table[hex(oid) := oid];
      }
    }
    assert objects[..|objects|] == objects;
    unique := Some(table);
  }

  lemma GivenPrefix(objects: seq<(Digest, Data)>, i: nat)
    requires i < |objects|
    ensures GivenOids(objects[..i]) <= GivenOids(objects) && objects[i].0 in GivenOids(objects)
  {
    forall o | o in GivenOids(objects[..i]) ensures o in GivenOids(objects) {
      var k :| 0 <= k < i && objects[..i][k].0 == o;
      assert objects[k].0 == o;
    }
  }

  /** Entries point at their objects, and there is one for each. */
  lemma {:induction false} LaidOk(list: seq<Digest>)
    requires forall o | o in list :: KindOf(o.of).Some?
    ensures var (entries, payload) := Laid(list);
            MAGIC <= payload && (forall k | 0 <= k < |entries| :: EntryOk(payload, entries[k])) &&
            EntryOids(entries) == set o | o in list
  {
    hide EntryOk, KindOf;
    if list != [] {
      var init, o := list[..|list| - 1], list[|list| - 1];
      LaidOk(init);
      var (entries, payload) := Laid(init);
      AddEntry(payload, entries, o.of, KindOf(o.of).value);
      EntryOidsMore(entries, EntryAt(o, |payload|));
      assert list == init + [o];
    }
  }

  /** The second loop: append the objects in sorted order; None when one does not parse. */
  method LayOut(names: seq<string>, unique: map<string, Digest>) returns (r: Option<(seq<SegmentEntry>, Data)>)
    requires forall n | n in names :: n in unique
    ensures r.Some? <==> forall n | n in names :: KindOf(unique[n].of).Some?
    ensures r.Some? ==> r.value == Laid(Listed(names, unique))
  {
    hide KindOf;
    var payload := MAGIC;
    var entries: seq<SegmentEntry> := [];
    ghost var list := Listed(names, unique);
    for i := 0 to |names|
      invariant forall j | 0 <= j < i :: KindOf(unique[names[j]].of).Some?
      invariant (entries, payload) == Laid(list[..i])
    {
      var o := unique[names[i]];
      var kind := KindOf(o.of);
      if kind.None? {
        return None;
      }
      assert list[..i + 1][..i] == list[..i] && list[i] == o;
      entries, payload := entries + [SegmentEntry(o, kind.value, |payload|, |o.of|)], payload + o.of;
    }
    assert list[..|names|] == list;
    r := Some((entries, payload));
  }

  /** An entry names the kind that the object's own header has. */
  ghost predicate KindTrue(e: SegmentEntry) {
    ParseCanonicalObject(e.oid.of).Some? && ParseCanonicalObject(e.oid.of).value.0 == e.kind
  }

  lemma {:induction false} KindsTrue(list: seq<Digest>)
    requires forall o | o in list :: KindOf(o.of).Some?
    ensures forall i | 0 <= i < |Laid(list).0| :: KindTrue(Laid(list).0[i])
  {
    hide ParseCanonicalObject;
    if list != [] {
      KindsTrue(list[..|list| - 1]);
    }
  }

  /** `encode_segment`: every object lands once, at the place its entry says, in the order of ids. */
  method EncodeSegment(objects: seq<(Digest, Data)>, hex: Hex) returns (r: Option<(SegmentIndex, Data)>)
    requires Distinguishes(hex, GivenOids(objects))
    ensures r.Some? <==> forall i | 0 <= i < |objects| :: Writable(objects[i].0, objects[i].1)
    ensures r.Some? ==> SegmentFor(r.value.0, r.value.1) && EntryOids(r.value.0.entries) == GivenOids(objects)
    ensures r.Some? ==> SortedSegment(hex, GivenOids(objects), r.value.0.entries, r.value.1)
    ensures r.Some? ==> forall i | 0 <= i < |r.value.0.entries| :: KindTrue(r.value.0.entries[i])
    ensures r.Some? ==> "TRUNKSSEG1" <= r.value.1 && |r.value.1| > 10 && r.value.1[10] as int == 0
  {
    hide EntryOk, KindOf, Sorted, Laid, KindTrue, Distinguishes;
    var unique := Unique(objects, hex);
    if unique.None? {
      return None;
    }
    var names := SortNames(unique.value.Keys);
    TableCovers(objects, hex, unique.value);
    var laid := LayOut(names, unique.value);
    if laid.None? {
      return None;
    }
    var (entries, segment) := laid.value;
    ListedMembers(names, unique.value);
    KindsTrue(Listed(names, unique.value));
    LaidOk(Listed(names, unique.value));
    assert (entries, segment) == Laid(Listed(Sorted(unique.value.Keys), unique.value));
    r := Some((SegmentIndex(Digest(segment), entries), segment));
  }

  lemma ListedMembers(names: seq<string>, unique: map<string, Digest>)
    requires forall n | n in names :: n in unique
    ensures (set o | o in Listed(names, unique)) == set n | n in names :: unique[n]
  {
    var list := Listed(names, unique);
    forall n | n in names ensures unique[n] in list {
      var i :| 0 <= i < |names| && names[i] == n;
      assert list[i] == unique[n];
    }
    forall o | o in list ensures exists n :: n in names && unique[n] == o {
      var i :| 0 <= i < |list| && list[i] == o;
      assert names[i] in names;
    }
  }

  lemma TableCovers(objects: seq<(Digest, Data)>, hex: Hex, unique: map<string, Digest>)
    requires Distinguishes(hex, GivenOids(objects)) && IsTable(hex, GivenOids(objects), unique)
    requires forall i | 0 <= i < |objects| :: objects[i].0 == Digest(objects[i].1)
    ensures (set n | n in Sorted(unique.Keys) :: unique[n]) == GivenOids(objects)
    ensures (forall n | n in Sorted(unique.Keys) :: KindOf(unique[n].of).Some?) <==>
            forall i | 0 <= i < |objects| :: Writable(objects[i].0, objects[i].1)
  {
    hide KindOf, Sorted;
    var names := Sorted(unique.Keys);
    forall o | o in GivenOids(objects) ensures hex(o) in names && unique[hex(o)] == o {
      assert hex(o) in unique.Keys;
    }
    if forall n | n in names :: KindOf(unique[n].of).Some? {
      forall i | 0 <= i < |objects| ensures Writable(objects[i].0, objects[i].1) {
        assert objects[i].0 in GivenOids(objects);
        assert hex(objects[i].0) in names;
      }
    }
    if forall i | 0 <= i < |objects| :: Writable(objects[i].0, objects[i].1) {
      forall n | n in names ensures KindOf(unique[n].of).Some? {
        assert unique[n] in GivenOids(objects);
        var i :| 0 <= i < |objects| && objects[i].0 == unique[n];
        assert Writable(objects[i].0, objects[i].1);
      }
    }
  }

  datatype Lookup = Found(data: Data) | Absent | Damaged

  /** `read_segment_object`: a found object is the right one; in a true segment it is found exactly
      when the index has it. */
  method ReadSegmentObject(segment: Data, index: SegmentIndex, oid: Digest) returns (r: Lookup)
    ensures r.Found? ==> Digest(r.data) == oid
    ensures SegmentFor(index, segment) ==> r == if oid in EntryOids(index.entries) then Found(oid.of) else Absent
  {
    if !(MAGIC <= segment) || Digest(segment) != index.sha {
      return Damaged;
    }
    for i := 0 to |index.entries|
      invariant forall k | 0 <= k < i :: index.entries[k].oid != oid
    {
      var entry := index.entries[i];
      if entry.oid == oid {
        var end := entry.offset + entry.length;
        if entry.offset < |MAGIC| || end > |segment| {
          return Damaged;
        }
        var data := segment[entry.offset..end];
        if Digest(data) != oid || KindOf(data) != Some(entry.kind) {
          return Damaged;
        }
        return Found(data);
      }
    }
    r := Absent;
  }
}
