/** RPC record marking: a record is a row of fragments, each behind a four-byte marker. */
module Record {
  import opened Core
  import opened Xdr

  const LAST_FRAG_BIT: nat := 0x8000_0000
  const MAX_RECORD: nat := 16 * 1024 * 1024
  const MAX_FRAGMENT: nat := MAX_RECORD

  // ---- The format ----

  function Marked(fragment: Bytes, last: bool): Bytes {
    Big((if last then LAST_FRAG_BIT else 0) + |fragment|, 4) + fragment
  }

  /** The bytes of a record cut into these fragments. */
  function Framed(fragments: seq<Bytes>): Bytes {
    if fragments == [] then []
    else Marked(fragments[0], |fragments| == 1) + Framed(fragments[1..])
  }

  function Joined(fragments: seq<Bytes>): Bytes {
    if fragments == [] then [] else fragments[0] + Joined(fragments[1..])
  }

  // ---- Reading ----

  /** One marker and the bytes behind it; the flag says whether it is the last. */
  function Fragment(data: Bytes, at: nat): Read<(Bytes, bool)> {
    match ReadUint(data, at, 4)
    case Fail(_) => Fail(|data|)
    case Got(marker, next) =>
      var size := marker % LAST_FRAG_BIT;
      if size > MAX_FRAGMENT then Fail(next)
      else
        match ReadBytes(data, next, size)
        case Fail(_) => Fail(|data|)
        case Got(fragment, end) => Got((fragment, marker >= LAST_FRAG_BIT), end)
  }

  /** What `read_record` does from a position, with some payload already gathered. */
  function ReadFrom(data: Bytes, at: nat, payload: Bytes): Read<Bytes>
    decreases |data| - at
  {
    match Fragment(data, at)
    case Fail(next) => Fail(next)
    case Got((fragment, last), end) =>
      if |fragment| > 0 && |payload + fragment| > MAX_RECORD then Fail(end)
      else if last then Got(payload + fragment, end)
      else ReadFrom(data, end, payload + fragment)
  }

  class Stream {
    const data: Bytes
    var position: nat

    constructor (data: Bytes)
      ensures this.data == data && position == 0
    {
      this.data, position := data, 0;
    }

    /** At the end of the stream `readexactly` takes what is left and raises. */
    method ReadExactly(n: nat) returns (out: Option<Bytes>)
      modifies this
      ensures old(position) + n <= |data| ==>
                position == old(position) + n && out == Some(data[old(position)..position])
      ensures old(position) + n > |data| ==> out.None? && position == |data|
    {
      if position + n > |data| {
        position := |data|;
        return None;
      }
      out := Some(data[position..position + n]);
      position := position + n;
    }

    method ReadFragment() returns (out: Option<(Bytes, bool)>)
      requires position <= |data|
      modifies this
      ensures var r := Fragment(data, old(position));
              position == r.next <= |data| && out == match r case Got(f, _) => Some(f) case Fail(_) => None
    {
      hide FromBig;
      var header := ReadExactly(4);
      if header.None? { return None; }
      var marker := FromBig(header.value);
      var last, size := marker >= LAST_FRAG_BIT, marker % LAST_FRAG_BIT;
      if size > MAX_FRAGMENT { return None; }
      if size > 0 {
        var fragment := ReadExactly(size);
        if fragment.None? { return None; }
        out := Some((fragment.value, last));
      } else {
        NoBytes(data, position);
        out := Some(([], last));
      }
    }

    method ReadRecord() returns (out: Option<Bytes>)
      requires position <= |data|
      modifies this
      ensures var r := ReadFrom(data, old(position), []);
              position == r.next && out == match r case Got(payload, _) => Some(payload) case Fail(_) => None
    {
      hide Fragment;
      var payload: Bytes := [];
      var last := false;
      while !last
        invariant position <= |data|
        invariant ReadFrom(data, old(position), []) ==
                  if last then Got(payload, position) else ReadFrom(data, position, payload)
        decreases !last, |data| - position
      {
        Advances(data, position);
        var fragment := ReadFragment();
        if fragment.None? { return None; }
        last := fragment.value.1;
        if |fragment.value.0| > 0 && |payload + fragment.value.0| > MAX_RECORD { return None; }
        payload := payload + fragment.value.0;
      }
      out := Some(payload);
    }
  }

  lemma Advances(data: Bytes, at: nat)
    ensures Fragment(data, at).Got? ==> at < Fragment(data, at).next <= |data|
  {
  }

  lemma NoBytes(data: Bytes, at: nat)
    requires at <= |data|
    ensures ReadBytes(data, at, 0) == Got([], at)
  {
    assert data[at..at] == [];
  }

  /** A reply longer than a fragment may be is refused. */
  function EncodeRecord(payload: Bytes): (r: Option<Bytes>)
    ensures r.Some? <==> |payload| <= 16 * 1024 * 1024
  {
    if |payload| > MAX_FRAGMENT then None else Some(Big(LAST_FRAG_BIT + |payload|, 4) + payload)
  }

  // ---- Round trips ----

  lemma ReadsMarked(fragment: Bytes, last: bool, front: Bytes, back: Bytes)
    requires |fragment| <= MAX_FRAGMENT
    ensures Fragment(front + Marked(fragment, last) + back, |front|) ==
            Got((fragment, last), |front| + |Marked(fragment, last)|)
  {
    hide Big, FromBig, ReadUint, ReadBytes, Pow;
    var marker := (if last then LAST_FRAG_BIT else 0) + |fragment|;
    var data := front + Marked(fragment, last) + back;
    Powers();
    assert data == front + Big(marker, 4) + (fragment + back);
    ReadsUint(marker, 4, front, fragment + back);
    assert data == (front + Big(marker, 4)) + fragment + back;
    ReadsBytes(fragment, front + Big(marker, 4), back);
  }

  /** Any fragmentation within the size limit reads back as the payload, and not a byte more is
      consumed. */
  lemma {:induction false} ReadsFramed(fragments: seq<Bytes>, front: Bytes, back: Bytes, payload: Bytes)
    requires fragments != [] && |payload| + |Joined(fragments)| <= MAX_RECORD
    ensures ReadFrom(front + Framed(fragments) + back, |front|, payload) ==
            Got(payload + Joined(fragments), |front| + |Framed(fragments)|)
    decreases |fragments|
  {
    hide Fragment, Marked;
    var first, rest := fragments[0], fragments[1..];
    var marked := Marked(first, |fragments| == 1);
    var data := front + Framed(fragments) + back;
    assert data == front + marked + (Framed(rest) + back);
    ReadsMarked(first, |fragments| == 1, front, Framed(rest) + back);
    assert payload + first + Joined(rest) == payload + Joined(fragments);
    if |fragments| > 1 {
      ReadsFramed(rest, front + marked, back, payload + first);
      assert data == (front + marked) + Framed(rest) + back;
    } else {
      assert Framed(fragments) == marked && Joined(fragments) == first;
    }
  }

  /** Conversely, a record that was read was framed somehow in exactly the bytes consumed. */
  lemma {:induction false} ReadWasFramed(data: Bytes, at: nat, payload: Bytes) returns (fragments: seq<Bytes>)
    requires ReadFrom(data, at, payload).Got?
    ensures var r := ReadFrom(data, at, payload);
            fragments != [] && at <= r.next <= |data| &&
            data[at..r.next] == Framed(fragments) && r.value == payload + Joined(fragments)
    decreases |data| - at
  {
    hide Fragment, Marked;
    var Got((fragment, last), end) := Fragment(data, at);
    MarkedAgain(data, at);
    if last {
      fragments := [fragment];
      assert Framed(fragments) == Marked(fragment, true);
      assert Joined(fragments) == fragment;
    } else {
      var rest := ReadWasFramed(data, end, payload + fragment);
      fragments := [fragment] + rest;
      var next := ReadFrom(data, at, payload).next;
      assert fragments[1..] == rest;
      assert data[at..next] == data[at..end] + data[end..next];
      assert payload + fragment + Joined(rest) == payload + Joined(fragments);
    }
  }

  /** No record longer than 16 MiB is ever returned. */
  lemma {:induction false} ReadBounded(data: Bytes, at: nat, payload: Bytes)
    requires ReadFrom(data, at, payload).Got? && |payload| <= 16 * 1024 * 1024
    ensures |ReadFrom(data, at, payload).value| <= 16 * 1024 * 1024
    decreases |data| - at
  {
    hide Fragment;
    var Got((fragment, last), end) := Fragment(data, at);
    Advances(data, at);
    if !last { ReadBounded(data, end, payload + fragment); }
  }

  /** A fragment that announces more than 16 MiB is refused. */
  lemma HugeFragment(data: Bytes, at: nat, payload: Bytes)
    requires at + 4 <= |data| && FromBig(data[at..at + 4]) % 0x8000_0000 > 16 * 1024 * 1024
    ensures ReadFrom(data, at, payload) == Fail(at + 4)
  {
    hide FromBig;
  }

  lemma MarkedAgain(data: Bytes, at: nat)
    requires Fragment(data, at).Got?
    ensures var r := Fragment(data, at);
            at < r.next <= |data| && data[at..r.next] == Marked(r.value.0, r.value.1)
  {
    Powers();
    FromBigBound(data[at..at + 4]);
    ReencodesUint(data, at, 4);
    var marker := ReadUint(data, at, 4).value;
    var end := at + 4 + marker % LAST_FRAG_BIT;
    hide Big, FromBig, Pow;
    assert marker == (if marker >= LAST_FRAG_BIT then LAST_FRAG_BIT else 0) + |data[at + 4..end]|;
    assert data[at..end] == data[at..at + 4] + data[at + 4..end];
  }

  /** A reply is a record of one fragment. */
  lemma EncodeReadsBack(payload: Bytes, back: Bytes)
    requires |payload| <= MAX_FRAGMENT
    ensures var record := EncodeRecord(payload).value;
            record == Framed([payload]) && ReadFrom(record + back, 0, []) == Got(payload, |record|) &&
            FromBig(record[..4]) == 0x8000_0000 + |payload| && record[4..] == payload
  {
    var record := EncodeRecord(payload).value;
    assert Framed([payload]) == Marked(payload, true) + [];
    assert Joined([payload]) == payload;
    var none: Bytes := [];
    ReadsFramed([payload], none, back, none);
    assert none + record + back == record + back && none + payload == payload;
    Powers();
    BigRoundTrip(0x8000_0000 + |payload|, 4);
    assert record[..4] == Big(0x8000_0000 + |payload|, 4);
  }
}
