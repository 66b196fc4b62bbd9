/** Small definitions shared by the other modules. */
module Core {

  newtype byte = x: int | 0 <= x < 256
  type Bytes = seq<byte>

  datatype Option<+T> = None | Some(value: T)

  /** A blob id.  SHA-1 is idealised: an id carries the bytes it was computed from, so equal ids
      mean equal bytes and a blob can never be stored under a wrong id. */
  datatype Oid = Oid(content: Bytes)

  lemma PrefixStep<T>(s: seq<T>, i: nat)
    requires i < |s|
    ensures s[..i + 1] == s[..i] + [s[i]]
  {
  }
}
