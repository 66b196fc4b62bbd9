/** XDR packing and unpacking, and big-endian integers. */
module Xdr {
  import opened Core

  // ---- Big-endian integers ----

  function Pow(base: nat, n: nat): (r: nat)
    ensures base > 0 ==> r > 0
  {
    if n == 0 then 1 else base * Pow(base, n - 1)
  }

  function Big(value: nat, n: nat): (r: Bytes)
    ensures |r| == n
  {
    if n == 0 then [] else Big(value / 256, n - 1) + [(value % 256) as byte]
  }

  function FromBig(b: Bytes): nat {
    if b == [] then 0 else FromBig(b[..|b| - 1]) * 256 + b[|b| - 1] as nat
  }

  lemma {:induction false} BigRoundTrip(value: nat, n: nat)
    requires value < Pow(256, n)
    ensures FromBig(Big(value, n)) == value
  {
    if n > 0 {
      BigRoundTrip(value / 256, n - 1);
      assert Big(value, n)[..n - 1] == Big(value / 256, n - 1);
    }
  }

  lemma {:induction false} FromBigBound(b: Bytes)
    ensures FromBig(b) < Pow(256, |b|)
  {
    if b != [] { FromBigBound(b[..|b| - 1]); }
  }

  lemma {:induction false} FromBigInjective(b: Bytes)
    ensures Big(FromBig(b), |b|) == b
  {
    if b != [] {
      FromBigInjective(b[..|b| - 1]);
      assert FromBig(b) / 256 == FromBig(b[..|b| - 1]) && FromBig(b) % 256 == b[|b| - 1] as nat;
    }
  }

  const U32: nat := 0x1_0000_0000
  const U64: nat := 0x1_0000_0000_0000_0000

  lemma Powers()
    ensures Pow(256, 4) == U32 && Pow(256, 8) == U64
  {
    assert Pow(256, 2) == 0x1_0000;
    assert Pow(256, 4) == 256 * (256 * Pow(256, 2));
    assert Pow(256, 6) == 256 * (256 * Pow(256, 4));
    assert Pow(256, 8) == 256 * (256 * Pow(256, 6));
  }

  // ---- Values and their encoding ----

  datatype Value =
    | Uint32(u: int)
    | Int32(i: int)
    | Uint64(w: int)
    | Bool(b: bool)
    | Opaque(data: Bytes)
    | Fixed(data: Bytes)

  datatype Kind = KUint32 | KInt32 | KUint64 | KBool | KOpaque | KFixed(length: nat)

  function KindOf(v: Value): Kind {
    match v
    case Uint32(_) => KUint32
    case Int32(_) => KInt32
    case Uint64(_) => KUint64
    case Bool(_) => KBool
    case Opaque(_) => KOpaque
    case Fixed(d) => KFixed(|d|)
  }

  function Kinds(vs: seq<Value>): seq<Kind> { seq(|vs|, i requires 0 <= i < |vs| => KindOf(vs[i])) }

  /** The values the packer does not refuse. */
  predicate InRange(v: Value) {
    match v
    case Uint32(u) => 0 <= u < U32
    case Int32(i) => -0x8000_0000 <= i <= 0x7FFF_FFFF
    case Uint64(w) => 0 <= w < U64
    case Opaque(d) => |d| < U32
    case _ => true
  }

  function Padding(length: nat): (r: nat)
    ensures r < 4 && (length + r) % 4 == 0
  {
    var n: int := length; (-n) % 4
  }

  function Zeros(n: nat): Bytes { seq(n, _ => 0 as byte) }

  /** Section 4.9 of RFC 4506: residual bytes are zero. */
  function Padded(d: Bytes): (r: Bytes)
    ensures |d| <= |r| < |d| + 4 && r[..|d|] == d && forall i | |d| <= i < |r| :: r[i] == 0
  {
    d + Zeros(Padding(|d|))
  }

  function Encode(v: Value): Bytes
    requires InRange(v)
  {
    match v
    case Uint32(u) => Big(u, 4)
    case Int32(i) => Big(if i < 0 then i + U32 else i, 4)
    case Uint64(w) => Big(w, 8)
    case Bool(b) => Big(if b then 1 else 0, 4)
    case Opaque(d) => Big(|d|, 4) + Padded(d)
    case Fixed(d) => Padded(d)
  }

  predicate AllInRange(vs: seq<Value>) { forall v | v in vs :: InRange(v) }

  function EncodeAll(vs: seq<Value>): Bytes
    requires AllInRange(vs)
  {
    if vs == [] then [] else EncodeAll(vs[..|vs| - 1]) + Encode(vs[|vs| - 1])
  }

  lemma Aligned(v: Value)
    requires InRange(v)
    ensures |Encode(v)| % 4 == 0
  {
    hide Big, Padded, InRange;
    match v
    case Uint32(_) =>
    case Int32(_) =>
    case Uint64(_) =>
    case Bool(_) =>
    case Opaque(d) =>
      PaddedAligned(d);
      FourMore(|Padded(d)|);
      assert |Encode(v)| == 4 + |Padded(d)|;
    case Fixed(d) => PaddedAligned(d);
  }

  lemma PaddedAligned(d: Bytes)
    ensures |Padded(d)| % 4 == 0
  {
    hide Padding;
    assert |Padded(d)| == |d| + Padding(|d|);
  }

  lemma FourMore(n: nat)
    requires n % 4 == 0
    ensures (4 + n) % 4 == 0
  {
  }

  lemma {:induction false} AllAligned(vs: seq<Value>)
    requires AllInRange(vs)
    ensures |EncodeAll(vs)| % 4 == 0
  {
    hide Encode, InRange;
    if vs != [] {
      AllAligned(vs[..|vs| - 1]);
      Aligned(vs[|vs| - 1]);
    }
  }

  // ---- Reading ----

  /** A failed read says how far the reader had got. */
  datatype Read<T> = Got(value: T, next: nat) | Fail(next: nat)

  function ReadBytes(data: Bytes, at: nat, n: nat): Read<Bytes>
  {
    if at + n > |data| then Fail(at) else Got(data[at..at + n], at + n)
  }

  function ReadUint(data: Bytes, at: nat, n: nat): Read<nat> {
    match ReadBytes(data, at, n)
    case Got(b, next) => Got(FromBig(b), next)
    case Fail(next) => Fail(next)
  }

  function ReadFixed(data: Bytes, at: nat, n: nat): Read<Bytes> {
    match ReadBytes(data, at, n)
    case Got(b, next) =>
      (match ReadBytes(data, next, Padding(n))
       case Got(_, end) => Got(b, end)
       case Fail(end) => Fail(end))
    case Fail(next) => Fail(next)
  }

  function Signed(u: nat): int { if u < 0x8000_0000 then u else u - U32 }

  function Decode(kind: Kind, data: Bytes, at: nat): Read<Value> {
    match kind
    case KUint32 => (match ReadUint(data, at, 4) case Got(u, next) => Got(Uint32(u), next) case Fail(next) => Fail(next))
    case KInt32 => (match ReadUint(data, at, 4) case Got(u, next) => Got(Int32(Signed(u)), next) case Fail(next) => Fail(next))
    case KUint64 => (match ReadUint(data, at, 8) case Got(w, next) => Got(Uint64(w), next) case Fail(next) => Fail(next))
    case KBool =>
      (match ReadUint(data, at, 4)
       case Got(u, next) => if u <= 1 then Got(Bool(u == 1), next) else Fail(next)
       case Fail(next) => Fail(next))
    case KOpaque =>
      (match ReadUint(data, at, 4)
       case Got(n, next) =>
         (match ReadFixed(data, next, n) case Got(d, end) => Got(Opaque(d), end) case Fail(end) => Fail(end))
       case Fail(next) => Fail(next))
    case KFixed(n) => (match ReadFixed(data, at, n) case Got(d, next) => Got(Fixed(d), next) case Fail(next) => Fail(next))
  }

  /** Every kind in turn, stopping at the first failure. */
  function DecodeAll(kinds: seq<Kind>, data: Bytes, at: nat): Read<seq<Value>> {
    if kinds == [] then Got([], at)
    else
      match DecodeAll(kinds[..|kinds| - 1], data, at)
      case Fail(next) => Fail(next)
      case Got(vs, next) =>
        match Decode(kinds[|kinds| - 1], data, next)
        case Got(v, end) => Got(vs + [v], end)
        case Fail(end) => Fail(end)
  }

  // ---- Round trips ----

  lemma ReadsBytes(b: Bytes, front: Bytes, back: Bytes)
    ensures ReadBytes(front + b + back, |front|, |b|) == Got(b, |front| + |b|)
  {
    assert (front + b + back)[|front|..|front| + |b|] == b;
  }

  lemma ReadsUint(value: nat, n: nat, front: Bytes, back: Bytes)
    requires value < Pow(256, n)
    ensures ReadUint(front + Big(value, n) + back, |front|, n) == Got(value, |front| + n)
  {
    BigRoundTrip(value, n);
    ReadsBytes(Big(value, n), front, back);
  }

  lemma ReadsFixed(d: Bytes, front: Bytes, back: Bytes)
    ensures ReadFixed(front + Padded(d) + back, |front|, |d|) == Got(d, |front| + |Padded(d)|)
  {
    assert (front + Padded(d) + back)[|front|..|front| + |d|] == d;
  }

  /** Unpacking what was packed gives it back, wherever it lies, and reads exactly its bytes. */
  lemma DecodeEncode(v: Value, front: Bytes, back: Bytes)
    requires InRange(v)
    ensures Decode(KindOf(v), front + Encode(v) + back, |front|) == Got(v, |front| + |Encode(v)|)
  {
    Powers();
    hide Big, FromBig, Pow, ReadUint, ReadFixed, Padded;
    match v
    case Uint32(u) => ReadsUint(u, 4, front, back);
    case Int32(i) => ReadsUint(if i < 0 then i + U32 else i, 4, front, back);
    case Uint64(w) => ReadsUint(w, 8, front, back);
    case Bool(b) => ReadsUint(if b then 1 else 0, 4, front, back);
    case Opaque(d) =>
      ReadsUint(|d|, 4, front, Padded(d) + back);
      ReadsFixed(d, front + Big(|d|, 4), back);
      assert front + Encode(v) + back == front + Big(|d|, 4) + (Padded(d) + back);
      assert front + Encode(v) + back == (front + Big(|d|, 4)) + Padded(d) + back;
    case Fixed(d) => ReadsFixed(d, front, back);
  }

  lemma {:induction false} DecodeAllEncodeAll(vs: seq<Value>, front: Bytes, back: Bytes)
    requires AllInRange(vs)
    ensures DecodeAll(Kinds(vs), front + EncodeAll(vs) + back, |front|) == Got(vs, |front| + |EncodeAll(vs)|)
  {
    hide Decode, Encode, InRange, DecodeAll;
    if vs == [] {
      DecodeNone(front + back, |front|);
      assert front + EncodeAll(vs) + back == front + back && Kinds(vs) == [];
    } else {
      var k := |vs| - 1;
      var init, last := vs[..k], vs[k];
      var packed := EncodeAll(init);
      assert EncodeAll(vs) == packed + Encode(last);
      DecodeAllEncodeAll(init, front, Encode(last) + back);
      DecodeEncode(last, front + packed, back);
      hide EncodeAll, AllInRange, KindOf;
      var whole := front + (packed + Encode(last)) + back;
      assert whole == front + packed + (Encode(last) + back);
      assert whole == (front + packed) + Encode(last) + back;
      DecodeOneMore(Kinds(init), KindOf(last), whole, |front|);
      assert Kinds(vs) == Kinds(init) + [KindOf(last)] && init + [last] == vs;
    }
  }

  lemma DecodeNone(data: Bytes, at: nat)
    ensures DecodeAll([], data, at) == Got([], at)
  {
  }

  lemma DecodeOneMore(kinds: seq<Kind>, kind: Kind, data: Bytes, at: nat)
    requires DecodeAll(kinds, data, at).Got? && Decode(kind, data, DecodeAll(kinds, data, at).next).Got?
    ensures var r := DecodeAll(kinds, data, at);
            var v := Decode(kind, data, r.next);
            DecodeAll(kinds + [kind], data, at) == Got(r.value + [v.value], v.next)
  {
    assert (kinds + [kind])[..|kinds|] == kinds;
    hide Decode;
  }

  /** Whatever unpacks is a value that could have been packed, into as many bytes. */
  lemma DecodedInRange(kind: Kind, data: Bytes, at: nat)
    requires Decode(kind, data, at).Got?
    ensures var r := Decode(kind, data, at);
            InRange(r.value) && KindOf(r.value) == kind && r.next == at + |Encode(r.value)| && r.next <= |data|
  {
    Powers();
    UintGot(data, at, 4);
    UintGot(data, at, 8);
    match kind
    case KOpaque => FixedGot(data, at + 4, ReadUint(data, at, 4).value);
    case KFixed(n) => FixedGot(data, at, n);
    case _ =>
    hide ReadUint, ReadFixed, Padded, Big, Pow;
  }

  lemma UintGot(data: Bytes, at: nat, n: nat)
    ensures var r := ReadUint(data, at, n); r.Got? ==> r.value < Pow(256, n) && r.next == at + n <= |data|
  {
    if at + n <= |data| { FromBigBound(data[at..at + n]); }
  }

  lemma FixedGot(data: Bytes, at: nat, n: nat)
    ensures var r := ReadFixed(data, at, n);
            r.Got? ==> |r.value| == n && r.next == at + |Padded(r.value)| <= |data|
  {
  }

  /** Integers have one encoding only: reading one and packing it again gives the same bytes. */
  lemma ReencodesUint(data: Bytes, at: nat, n: nat)
    requires at + n <= |data|
    ensures Big(ReadUint(data, at, n).value, n) == data[at..at + n]
  {
    FromBigInjective(data[at..at + n]);
  }

  // ---- The packer ----

  lemma PackedNothing(vs: seq<Value>)
    ensures AllInRange(vs[..0]) && EncodeAll(vs[..0]) == []
  {
  }

  lemma OutOfRange(vs: seq<Value>, i: nat)
    requires i < |vs| && !InRange(vs[i])
    ensures !AllInRange(vs)
  {
    hide InRange;
    assert vs[i] in vs;
  }

  lemma OneMore(vs: seq<Value>, i: nat)
    requires i < |vs| && AllInRange(vs[..i]) && InRange(vs[i])
    ensures AllInRange(vs[..i + 1]) && EncodeAll(vs[..i + 1]) == EncodeAll(vs[..i]) + Encode(vs[i])
  {
    hide InRange, Encode;
    assert vs[..i + 1][..i] == vs[..i];
  }

  class Packer {
    var buf: Bytes

    constructor ()
      ensures buf == []
    {
      buf := [];
    }

    method PackUint32(value: int) returns (ok: bool)
      modifies this
      ensures ok <==> InRange(Uint32(value))
      ensures buf == if ok then old(buf) + Encode(Uint32(value)) else old(buf)
    {
      hide Big;
      if value < 0 || value > 0xFFFF_FFFF { return false; }
      buf := buf + Big(value, 4);
      ok := true;
    }

    method PackInt32(value: int) returns (ok: bool)
      modifies this
      ensures ok <==> InRange(Int32(value))
      ensures buf == if ok then old(buf) + Encode(Int32(value)) else old(buf)
    {
      hide Big;
      if value < -0x8000_0000 || value > 0x7FFF_FFFF { return false; }
      buf := buf + Big(if value < 0 then value + U32 else value, 4);
      ok := true;
    }

    method PackUint64(value: int) returns (ok: bool)
      modifies this
      ensures ok <==> InRange(Uint64(value))
      ensures buf == if ok then old(buf) + Encode(Uint64(value)) else old(buf)
    {
      hide Big;
      if value < 0 || value > 0xFFFF_FFFF_FFFF_FFFF { return false; }
      buf := buf + Big(value, 8);
      ok := true;
    }

    method PackFopaque(value: Bytes, length: int) returns (ok: bool)
      modifies this
      ensures ok <==> |value| == length
      ensures buf == if ok then old(buf) + Padded(value) else old(buf)
    {
      if |value| != length { return false; }
      buf := buf + value;
      buf := buf + Zeros(Padding(length));
      ok := true;
    }

    method PackOpaque(value: Bytes) returns (ok: bool)
      modifies this
      ensures ok <==> InRange(Opaque(value))
      ensures buf == if ok then old(buf) + Encode(Opaque(value)) else old(buf)
    {
      hide Big, Padded;
      ok := PackUint32(|value|);
      if ok {
        ok := PackFopaque(value, |value|);
      }
    }

    method Pack(v: Value) returns (ok: bool)
      modifies this
      ensures ok <==> InRange(v)
      ensures buf == if ok then old(buf) + Encode(v) else old(buf)
    {
      hide Big, Padded;
      match v
      case Uint32(u) => ok := PackUint32(u);
      case Int32(i) => ok := PackInt32(i);
      case Uint64(w) => ok := PackUint64(w);
      case Bool(b) => ok := PackUint32(if b then 1 else 0);
      case Opaque(d) => ok := PackOpaque(d);
      case Fixed(d) => ok := PackFopaque(d, |d|);
    }

    /** Packs until a value is refused; keeps four-byte alignment. */
    method PackAll(vs: seq<Value>) returns (ok: bool)
      modifies this
      ensures ok <==> AllInRange(vs)
      ensures ok ==> buf == old(buf) + EncodeAll(vs) && |EncodeAll(vs)| % 4 == 0
    {
      hide InRange, Encode, EncodeAll, AllInRange;
      PackedNothing(vs);
      ok := true;
      for i := 0 to |vs|
        invariant ok && AllInRange(vs[..i]) && buf == old(buf) + EncodeAll(vs[..i])
      {
        ok := Pack(vs[i]);
        if !ok {
          OutOfRange(vs, i);
          return false;
        }
        OneMore(vs, i);
      }
      assert vs[..|vs|] == vs;
      AllAligned(vs);
    }
  }

  // ---- The unpacker ----

  class Unpacker {
    const data: Bytes
    var offset: nat

    constructor (data: Bytes)
      ensures this.data == data && offset == 0
    {
      this.data, offset := data, 0;
    }

    /** The result, and where the reader is left, succeed or fail. */
    ghost predicate Ends<T>(r: Read<T>, value: Option<T>)
      reads this
    {
      offset == r.next && value == match r case Got(v, _) => Some(v) case Fail(_) => None
    }

    method ReadRaw(length: nat) returns (out: Option<Bytes>)
      modifies this
      ensures Ends(ReadBytes(data, old(offset), length), out)
    {
      var end := offset + length;
      if end > |data| { return None; }
      out := Some(data[offset..end]);
      offset := end;
    }

    method UnpackUint(n: nat) returns (out: Option<nat>)
      modifies this
      ensures Ends(ReadUint(data, old(offset), n), out)
    {
      var b := ReadRaw(n);
      out := match b case Some(x) => Some(FromBig(x)) case None => None;
    }

    method UnpackFopaque(length: nat) returns (out: Option<Bytes>)
      modifies this
      ensures Ends(ReadFixed(data, old(offset), length), out)
    {
      out := ReadRaw(length);
      if out.None? { return; }
      var pad := Padding(length);
      if pad != 0 {
        var zeros := ReadRaw(pad);
        if zeros.None? { return None; }
      }
    }

    method Unpack(kind: Kind) returns (out: Option<Value>)
      modifies this
      ensures Ends(Decode(kind, data, old(offset)), out)
    {
      hide FromBig, Padding, ReadBytes;
      out := None;
      match kind
      case KUint32 =>
        var u := UnpackUint(4);
        if u.Some? { out := Some(Uint32(u.value)); }
      case KInt32 =>
        var u := UnpackUint(4);
        if u.Some? { out := Some(Int32(Signed(u.value))); }
      case KUint64 =>
        var w := UnpackUint(8);
        if w.Some? { out := Some(Uint64(w.value)); }
      case KBool =>
        var u := UnpackUint(4);
        if u.Some? && (u.value == 0 || u.value == 1) { out := Some(Bool(u.value == 1)); }
      case KOpaque =>
        var n := UnpackUint(4);
        if n.Some? {
          var d := UnpackFopaque(n.value);
          if d.Some? { out := Some(Opaque(d.value)); }
        }
      case KFixed(n) =>
        var d := UnpackFopaque(n);
        if d.Some? { out := Some(Fixed(d.value)); }
    }

    method UnpackAll(kinds: seq<Kind>) returns (out: Option<seq<Value>>)
      modifies this
      ensures Ends(DecodeAll(kinds, data, old(offset)), out)
    {
      hide Decode;
      var vs: seq<Value> := [];
      for i := 0 to |kinds|
        invariant DecodeAll(kinds[..i], data, old(offset)) == Got(vs, offset)
      {
        assert kinds[..i + 1][..i] == kinds[..i];
        var v := Unpack(kinds[i]);
        if v.None? {
          StopsEarly(kinds, data, old(offset), i + 1);
          return None;
        }
        vs := vs + [v.value];
      }
      assert kinds[..|kinds|] == kinds;
      out := Some(vs);
    }
  }

  lemma {:induction false} StopsEarly(kinds: seq<Kind>, data: Bytes, at: nat, i: nat)
    requires i <= |kinds| && DecodeAll(kinds[..i], data, at).Fail?
    ensures DecodeAll(kinds, data, at) == DecodeAll(kinds[..i], data, at)
  {
    hide Decode;
    if i == |kinds| {
      assert kinds[..i] == kinds;
    } else {
      var init := kinds[..|kinds| - 1];
      assert init[..i] == kinds[..i];
      StopsEarly(init, data, at, i);
    }
  }

  /** Pack any values, unpack them by the same types: the same values, and no byte left. */
  method PackThenUnpack(vs: seq<Value>) returns (out: Option<seq<Value>>, done: bool)
    requires AllInRange(vs)
    ensures out == Some(vs) && done
  {
    hide AllInRange, EncodeAll, DecodeAll;
    var packer := new Packer();
    var ok := packer.PackAll(vs);
    var unpacker := new Unpacker(packer.buf);
    out := unpacker.UnpackAll(Kinds(vs));
    done := unpacker.offset == |unpacker.data|;
    var none: Bytes := [];
    DecodeAllEncodeAll(vs, none, none);
    assert none + EncodeAll(vs) + none == none + EncodeAll(vs) == unpacker.data;
  }
}
