/** Canonical object bytes: `"<kind> <size>\0<payload>"`, and tree payloads.

    A byte string is written as a Dafny string, one character per byte. */
module Objects {
  import opened Core

  type Data = string
  type Raw = s: string | |s| == 20 witness seq(20, _ => 'x')

  const NUL: char := 0 as char

  datatype TreeEntry = TreeEntry(mode: string, name: string, oid: Raw)

  // ---- Searching and splitting ----

  /** The first position of `c` at or after `from`, or the length of `s`. */
  function IndexFrom(s: string, c: char, from: nat): (i: nat)
    requires from <= |s|
    ensures from <= i <= |s| && (i < |s| ==> s[i] == c) && forall k | from <= k < i :: s[k] != c
    decreases |s| - from
  {
    if from == |s| || s[from] == c then from else IndexFrom(s, c, from + 1)
  }

  /** `s.split(c, 1)`; None when `c` does not occur. */
  function SplitAt(s: string, c: char): Option<(string, string)> {
    var i := IndexFrom(s, c, 0);
    if i == |s| then None else Some((s[..i], s[i + 1..]))
  }

  lemma SplitAtConcat(a: string, c: char, b: string)
    requires c !in a
    ensures SplitAt(a + [c] + b, c) == Some((a, b))
  {
    var s := a + [c] + b;
    assert forall k | 0 <= k < |a| :: s[k] == a[k];
    IndexUnique(s, c, 0, |a|);
    assert s[..|a|] == a && s[|a| + 1..] == b;
  }

  // ---- Decimal sizes ----

  function Digit(d: nat): char
    requires d < 10
  {
    (48 + d) as char
  }

  predicate IsDigit(c: char) { '0' <= c <= '9' }

  function Value(c: char): nat
    requires IsDigit(c)
  {
    c as int - 48
  }

  function Decimal(n: nat): (s: string)
    ensures s != "" && forall i | 0 <= i < |s| :: IsDigit(s[i])
  {
    if n < 10 then [Digit(n)] else Decimal(n / 10) + [Digit(n % 10)]
  }

  // Python's `int(text)`: surrounding white space, a sign, digits with single underscores between.

  predicate IsSpace(c: char) { c == ' ' || (9 <= c as int <= 13) || (28 <= c as int <= 31) }

  function StripLeft(s: string): string { if s != "" && IsSpace(s[0]) then StripLeft(s[1..]) else s }

  function StripRight(s: string): string {
    if s != "" && IsSpace(s[|s| - 1]) then StripRight(s[..|s| - 1]) else s
  }

  function ParseDigits(s: string): Option<nat> {
    if s == "" || !IsDigit(s[|s| - 1]) then None
    else if |s| == 1 then Some(Value(s[0]))
    else
      match ParseDigits(s[..if s[|s| - 2] == '_' then |s| - 2 else |s| - 1])
      case None => None
      case Some(n) => Some(10 * n + Value(s[|s| - 1]))
  }

  function ParseInt(text: string): Option<int> {
    var s := StripRight(StripLeft(text));
    if s != "" && (s[0] == '+' || s[0] == '-') then
      match ParseDigits(s[1..])
      case None => None
      case Some(n) => Some(if s[0] == '-' then -(n as int) else n)
    else
      match ParseDigits(s)
      case None => None
      case Some(n) => Some(n)
  }

  lemma {:induction false} DigitsRoundTrip(n: nat)
    ensures ParseDigits(Decimal(n)) == Some(n)
  {
    if n >= 10 {
      DigitsRoundTrip(n / 10);
      var s, front := Decimal(n), Decimal(n / 10);
      assert s[..|s| - 1] == front;
      assert s[|s| - 2] == front[|front| - 1] && IsDigit(front[|front| - 1]);
    }
  }

  lemma DecimalRoundTrip(n: nat)
    ensures ParseInt(Decimal(n)) == Some(n)
  {
    var s := Decimal(n);
    DigitsRoundTrip(n);
    assert IsDigit(s[0]) && IsDigit(s[|s| - 1]);
    assert StripLeft(s) == s && StripRight(s) == s;
  }

  // ---- Canonical objects ----

  function CanonicalObject(kind: string, payload: Data): Data {
    kind + " " + Decimal(|payload|) + [NUL] + payload
  }

  function ParseCanonicalObject(data: Data): Option<(string, Data)> {
    match SplitAt(data, NUL)
    case None => None
    case Some((header, payload)) =>
      match SplitAt(header, ' ')
      case None => None
      case Some((kind, rawSize)) =>
        if ParseInt(rawSize) == Some(|payload|) then Some((kind, payload)) else None
  }

  /** Parsing gives back exactly what was framed, whatever bytes the payload holds. */
  lemma CanonicalRoundTrip(kind: string, payload: Data)
    requires ' ' !in kind && NUL !in kind
    ensures ParseCanonicalObject(CanonicalObject(kind, payload)) == Some((kind, payload))
  {
    var digits := Decimal(|payload|);
    var header := kind + " " + digits;
    assert header == kind + [' '] + digits;
    forall i | 0 <= i < |digits| ensures digits[i] != NUL { assert IsDigit(digits[i]); }
    assert NUL !in header;
    assert CanonicalObject(kind, payload) == header + [NUL] + payload;
    SplitAtConcat(header, NUL, payload);
    SplitAtConcat(kind, ' ', digits);
    DecimalRoundTrip(|payload|);
  }

  /** And nothing else parses: the bytes are a kind, a size and a payload of exactly that size. */
  lemma CanonicalOnly(data: Data) returns (size: string)
    requires ParseCanonicalObject(data).Some?
    ensures var (kind, payload) := ParseCanonicalObject(data).value;
            data == kind + " " + size + [NUL] + payload && ' ' !in kind && NUL !in kind && NUL !in size &&
            ParseInt(size) == Some(|payload|)
  {
    var (kind, payload) := ParseCanonicalObject(data).value;
    var header := SplitAt(data, NUL).value.0;
    size := SplitAt(header, ' ').value.1;
    SplitAtOnly(data, NUL);
    SplitAtOnly(header, ' ');
    assert data == header + [NUL] + payload && header == kind + " " + size;
    assert forall c | c in size :: c in header;
  }

  lemma SplitAtOnly(s: string, c: char)
    requires SplitAt(s, c).Some?
    ensures var (a, b) := SplitAt(s, c).value; s == a + [c] + b && c !in a
  {
    hide IndexFrom;
    var i := IndexFrom(s, c, 0);
    assert s == s[..i] + [s[i]] + s[i + 1..];
  }

  lemma NoStrip(s: string)
    requires s != "" && !IsSpace(s[0]) && !IsSpace(s[|s| - 1])
    ensures StripLeft(s) == s && StripRight(s) == s
  {
  }

  lemma DecimalEnds(n: nat)
    ensures var d := Decimal(n);
            ParseDigits(d) == Some(n) && !IsSpace(d[0]) && !IsSpace(d[|d| - 1]) && IsDigit(d[0]) && StripRight(d) == d &&
            StripLeft(d) == d
  {
    DigitsRoundTrip(n);
    var d := Decimal(n);
    assert IsDigit(d[0]) && IsDigit(d[|d| - 1]);
    NoStrip(d);
  }

  /** Sizes as `int()` reads them: with a sign... */
  lemma IntSigns(n: nat)
    ensures ParseInt("+" + Decimal(n)) == Some(n) && ParseInt("-" + Decimal(n)) == Some(-(n as int))
  {
    DecimalEnds(n);
    var plus, minus := "+" + Decimal(n), "-" + Decimal(n);
    NoStrip(plus);
    NoStrip(minus);
    hide Decimal, ParseDigits, StripLeft, StripRight;
    assert plus[1..] == Decimal(n) && minus[1..] == Decimal(n);
  }

  /** ...with white space around... */
  lemma IntSpaces(n: nat, c: char)
    requires IsSpace(c)
    ensures ParseInt([c] + Decimal(n)) == Some(n) && ParseInt(Decimal(n) + [c]) == Some(n)
  {
    DecimalEnds(n);
    hide Decimal, ParseDigits;
    var d := Decimal(n);
    var front, back := [c] + d, d + [c];
    assert front[1..] == d && back[..|d|] == d;
    assert StripLeft(front) == StripLeft(d) && StripLeft(back) == back && StripRight(back) == StripRight(d);
  }

  /** ...but not empty, and not with an underscore at either end. */
  lemma IntRefuses(n: nat)
    ensures ParseInt("").None? && ParseInt("_" + Decimal(n)).None? && ParseInt(Decimal(n) + "_").None?
  {
    DecimalEnds(n);
    var under, tail := "_" + Decimal(n), Decimal(n) + "_";
    UnderscoreFirst(Decimal(n));
    hide Decimal;
    NoStrip(under);
    NoStrip(tail);
    assert ParseDigits(tail).None?;
    hide ParseDigits;
  }

  lemma {:induction false} UnderscoreFirst(d: string)
    ensures ParseDigits("_" + d).None?
  {
    var s := "_" + d;
    if |d| > 0 {
      var k := if s[|s| - 2] == '_' then |s| - 2 else |s| - 1;
      if k > 0 {
        assert s[..k] == "_" + d[..k - 1];
        UnderscoreFirst(d[..k - 1]);
      }
    }
  }

  // ---- Tree payloads ----

  function SerializeTree(entries: seq<TreeEntry>): Data {
    if entries == [] then ""
    else entries[0].mode + " " + entries[0].name + [NUL] + entries[0].oid + SerializeTree(entries[1..])
  }

  /** One entry at the front of the bytes, and the rest. */
  function ParseEntry(data: Data): (r: Option<(TreeEntry, Data)>)
    ensures r.Some? ==> |r.value.1| < |data|
  {
    match SplitAt(data, NUL)
    case None => None
    case Some((header, rest)) =>
      match SplitAt(header, ' ')
      case None => None
      case Some((mode, name)) =>
        if |rest| < 20 then None
        else
          assert |rest| < |data|;
          Some((TreeEntry(mode, name, rest[..20]), rest[20..]))
  }

  function ParseTree(data: Data): Option<seq<TreeEntry>>
    decreases |data|
  {
    if data == "" then Some([])
    else match ParseEntry(data)
      case None => None
      case Some((entry, rest)) =>
        match ParseTree(rest)
        case None => None
        case Some(entries) => Some([entry] + entries)
  }

  function Prepend(entries: seq<TreeEntry>, r: Option<seq<TreeEntry>>): Option<seq<TreeEntry>> {
    match r case None => None case Some(es) => Some(entries + es)
  }

  /** The loop of `parse_tree_payload`, advancing `pos` over the payload. */
  method ParseTreePayload(payload: Data) returns (r: Option<seq<TreeEntry>>)
    ensures r == ParseTree(payload)
  {
    var entries: seq<TreeEntry> := [];
    var pos := 0;
    assert payload[0..] == payload;
    PrependNothing(ParseTree(payload));
    hide ParseTree;
    while pos < |payload|
      invariant pos <= |payload|
      invariant ParseTree(payload) == Prepend(entries, ParseTree(payload[pos..]))
    {
      var next := EntryFrom(payload, pos);
      if next.None? {
        return None;
      }
      PrependTwice(entries, next.value.0, ParseTree(payload[next.value.1..]));
      entries, pos := entries + [next.value.0], next.value.1;
    }
    ParseNothing(payload[pos..]);
    assert entries + [] == entries;
    r := Some(entries);
  }

  /** The body of that loop: the entry at `pos` and the position after it. */
  method EntryFrom(payload: Data, pos: nat) returns (r: Option<(TreeEntry, nat)>)
    requires pos < |payload|
    ensures r.Some? ==> pos < r.value.1 <= |payload|
    ensures ParseTree(payload[pos..]) ==
            if r.None? then None else Prepend([r.value.0], ParseTree(payload[r.value.1..]))
  {
    hide ParseTree, IndexFrom, SplitAt;
    var headerEnd := IndexFrom(payload, NUL, pos);
    EntryAt(payload, pos);
    if headerEnd == |payload| {
      return None;
    }
    var split := SplitAt(payload[pos..headerEnd], ' ');
    if split.None? || headerEnd + 21 > |payload| {
      return None;
    }
    r := Some((TreeEntry(split.value.0, split.value.1, payload[headerEnd + 1..headerEnd + 21]), headerEnd + 21));
  }

  lemma ParseNothing(data: Data)
    requires data == ""
    ensures ParseTree(data) == Some([])
  {
  }

  lemma PrependNothing(r: Option<seq<TreeEntry>>)
    ensures Prepend([], r) == r
  {
    if r.Some? { assert [] + r.value == r.value; }
  }

  lemma PrependTwice(entries: seq<TreeEntry>, entry: TreeEntry, r: Option<seq<TreeEntry>>)
    ensures Prepend(entries, Prepend([entry], r)) == Prepend(entries + [entry], r)
  {
    if r.Some? { assert entries + ([entry] + r.value) == entries + [entry] + r.value; }
  }

  /** What the bytes from `pos` on parse to, in terms of the positions the loop computes. */
  lemma EntryAt(payload: Data, pos: nat)
    requires pos < |payload|
    ensures var headerEnd := IndexFrom(payload, NUL, pos);
            var split := SplitAt(payload[pos..headerEnd], ' ');
            ParseTree(payload[pos..]) ==
            if headerEnd == |payload| || split.None? || headerEnd + 21 > |payload| then None
            else Prepend([TreeEntry(split.value.0, split.value.1, payload[headerEnd + 1..headerEnd + 21])],
                         ParseTree(payload[headerEnd + 21..]))
  {
    hide IndexFrom, SplitAt, ParseTree, Prepend;
    var data, headerEnd := payload[pos..], IndexFrom(payload, NUL, pos);
    SplitFrom(payload, pos);
    if headerEnd < |payload| {
      var rest := payload[headerEnd + 1..];
      ParseStep(data, payload[pos..headerEnd], rest);
      if headerEnd + 21 <= |payload| {
        SliceTwice(payload, headerEnd + 1, 20);
      }
    } else {
      ParseStuck(data);
    }
  }

  /** Splitting the rest of the bytes at the first NUL is splitting the whole at the position found. */
  lemma SplitFrom(payload: Data, pos: nat)
    requires pos <= |payload|
    ensures var headerEnd := IndexFrom(payload, NUL, pos);
            SplitAt(payload[pos..], NUL) ==
            if headerEnd == |payload| then None else Some((payload[pos..headerEnd], payload[headerEnd + 1..]))
  {
    hide IndexFrom;
    var data, headerEnd := payload[pos..], IndexFrom(payload, NUL, pos);
    IndexUnique(data, NUL, 0, headerEnd - pos);
    if headerEnd < |payload| {
      assert data[..headerEnd - pos] == payload[pos..headerEnd];
      assert data[headerEnd - pos + 1..] == payload[headerEnd + 1..];
    }
  }

  lemma SliceTwice(payload: Data, a: nat, n: nat)
    requires a + n <= |payload|
    ensures payload[a..][..n] == payload[a..a + n] && payload[a..][n..] == payload[a + n..]
  {
  }

  lemma ParseStuck(data: Data)
    requires data != "" && SplitAt(data, NUL).None?
    ensures ParseTree(data).None?
  {
  }

  lemma ParseStep(data: Data, header: string, rest: Data)
    requires data != "" && SplitAt(data, NUL) == Some((header, rest))
    ensures var split := SplitAt(header, ' ');
            ParseTree(data) ==
            if split.None? || |rest| < 20 then None
            else Prepend([TreeEntry(split.value.0, split.value.1, rest[..20])], ParseTree(rest[20..]))
  {
    hide IndexFrom;
  }

  lemma {:induction false} IndexUnique(s: string, c: char, from: nat, i: nat)
    requires from <= i <= |s| && (i < |s| ==> s[i] == c) && forall k | from <= k < i :: s[k] != c
    ensures IndexFrom(s, c, from) == i
    decreases i - from
  {
    if from < i { IndexUnique(s, c, from + 1, i); }
  }

  predicate ValidTreeEntry(e: TreeEntry) { ' ' !in e.mode && NUL !in e.mode && NUL !in e.name }

  lemma {:induction false} TreeRoundTrip(entries: seq<TreeEntry>)
    requires forall i | 0 <= i < |entries| :: ValidTreeEntry(entries[i])
    ensures ParseTree(SerializeTree(entries)) == Some(entries)
  {
    if entries != [] {
      var e, rest := entries[0], SerializeTree(entries[1..]);
      var header, tail := e.mode + " " + e.name, e.oid + rest;
      assert header == e.mode + [' '] + e.name;
      assert SerializeTree(entries) == header + [NUL] + tail;
      assert NUL !in header;
      SplitAtConcat(header, NUL, tail);
      SplitAtConcat(e.mode, ' ', e.name);
      assert tail[..20] == e.oid && tail[20..] == rest;
      TreeRoundTrip(entries[1..]);
      assert entries == [e] + entries[1..];
    }
  }

  /** And nothing else parses: the bytes are exactly the entries, written one after the other. */
  lemma {:induction false} TreeOnly(data: Data)
    requires ParseTree(data).Some?
    ensures SerializeTree(ParseTree(data).value) == data
    decreases |data|
  {
    if data != "" {
      var (entry, rest) := ParseEntry(data).value;
      EntryOnly(data);
      TreeOnly(rest);
      var entries := ParseTree(data).value;
      assert entries[1..] == ParseTree(rest).value;
    }
  }

  lemma EntryOnly(data: Data)
    requires ParseEntry(data).Some?
    ensures var (entry, rest) := ParseEntry(data).value;
            data == entry.mode + " " + entry.name + [NUL] + entry.oid + rest && |entry.oid| == 20 && ValidTreeEntry(entry)
  {
    var (header, after) := SplitAt(data, NUL).value;
    SplitAtOnly(data, NUL);
    SplitAtOnly(header, ' ');
    var (entry, rest) := ParseEntry(data).value;
    hide SplitAt;
    assert header == entry.mode + " " + entry.name;
    assert after == entry.oid + rest;
    assert forall c | c in entry.mode || c in entry.name :: c in header;
  }
}
