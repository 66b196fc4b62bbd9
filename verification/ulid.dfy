/** ULIDs: a millisecond timestamp and 80 random bits as 26 base-32 characters. */
module Ulid {
  import opened Core
  import opened Ordering
  import opened Xdr

  const CROCKFORD: string := "0123456789ABCDEFGHJKMNPQRSTVWXYZ"

  const RANDOM: nat := 0x1_0000_0000_0000_0000_0000 // 2^80

  /** The low `n` base-32 digits, most significant first. */
  function Digits(value: nat, n: nat): (r: string)
    ensures |r| == n
  {
    if n == 0 then "" else Digits(value / 32, n - 1) + [CROCKFORD[value % 32]]
  }

  function Make(timestamp: nat, randomness: nat): string { Digits(timestamp * RANDOM + randomness, 26) }

  function Reversed(s: string): (r: string)
    ensures |r| == |s|
  {
    if s == "" then "" else [s[|s| - 1]] + Reversed(s[..|s| - 1])
  }

  lemma OneDigit(value: nat, n: nat, chars: string)
    requires n > 0
    ensures var c := CROCKFORD[value % 32];
            Digits(value, n) + Reversed(chars) == Digits(value / 32, n - 1) + Reversed(chars + [c])
  {
    var c := CROCKFORD[value % 32];
    assert (chars + [c])[..|chars|] == chars;
    assert Reversed(chars + [c]) == [c] + Reversed(chars);
  }

  method Generate(timestamp: nat, randomness: nat) returns (r: string)
    requires randomness < RANDOM
    ensures r == Make(timestamp, randomness)
  {
    hide Digits, Reversed;
    var value: nat := timestamp * RANDOM + randomness;
    var chars: string := "";
    ghost var whole := value;
    for i := 0 to 26
      invariant |chars| == i
      invariant Digits(whole, 26) == Digits(value, 26 - i) + Reversed(chars)
    {
      OneDigit(value, 26 - i, chars);
      chars := chars + [CROCKFORD[value % 32]];
      value := value / 32;
    }
    r := Reversed(chars);
  }

  // ---- Reading the timestamp back ----

  function Position(s: string, c: char): Option<nat> {
    if s == "" then None
    else if s[|s| - 1] == c then Some(|s| - 1) else Position(s[..|s| - 1], c)
  }

  function Upper(c: char): char { if 'a' <= c <= 'z' then (c as int - 32) as char else c }

  /** `str.upper`, character by character; outside ASCII one character may become several. */
  type Uppercase = char -> string

  ghost predicate UppersAscii(up: Uppercase) { forall c | c as int < 128 :: up(c) == [Upper(c)] }

  function UpperText(up: Uppercase, s: string): string {
    if s == "" then "" else UpperText(up, s[..|s| - 1]) + up(s[|s| - 1])
  }

  function Number(s: string): Option<nat> {
    if s == "" then Some(0)
    else
      var high, low := Number(s[..|s| - 1]), Position(CROCKFORD, s[|s| - 1]);
      if high.None? || low.None? then None else Some(high.value * 32 + low.value)
  }

  /** The timestamp in milliseconds; the caller divides it by 1000. */
  method TimeOf(value: string, up: Uppercase) returns (ms: Option<nat>)
    ensures ms == if |value| != 26 then None else Number(UpperText(up, value[..10]))
  {
    if |value| != 26 { return None; }
    var text := UpperText(up, value[..10]);
    ms := Some(0);
    for i := 0 to |text|
      invariant ms == Number(text[..i])
    {
      assert text[..i + 1][..i] == text[..i];
      if ms.Some? {
        var digit := Position(CROCKFORD, text[i]);
        ms := if digit.None? then None else Some(ms.value * 32 + digit.value);
      }
    }
    assert text[..|text|] == text;
  }

  /** Digits are upper case already. */
  lemma {:induction false} UpperOfDigits(up: Uppercase, value: nat, n: nat)
    requires UppersAscii(up)
    ensures UpperText(up, Digits(value, n)) == Digits(value, n)
  {
    if n > 0 {
      var s, c := Digits(value, n), CROCKFORD[value % 32];
      UpperOfDigits(up, value / 32, n - 1);
      assert s[..n - 1] == Digits(value / 32, n - 1) && s[n - 1] == c;
      Alphabet(value % 32);
    }
  }

  lemma Alphabet(i: nat)
    requires i < 32
    ensures Upper(CROCKFORD[i]) == CROCKFORD[i] && CROCKFORD[i] as int < 128
    ensures i < 31 ==> CROCKFORD[i] < CROCKFORD[i + 1]
  {
  }

  /** Crockford's alphabet: all digits, and all letters but four. */
  predicate InAlphabet(c: char) {
    '0' <= c <= '9' || ('A' <= c <= 'Z' && c != 'I' && c != 'L' && c != 'O' && c != 'U')
  }

  function PlaceOf(c: char): int {
    var k := c as int;
    if k <= 57 then k - 48 else if k <= 72 then k - 55 else if k <= 75 then k - 56 else if k <= 78 then k - 57
    else if k <= 84 then k - 58 else k - 59
  }

  lemma AlphabetIs(c: char)
    ensures c in CROCKFORD <==> InAlphabet(c)
  {
    if InAlphabet(c) {
      assert 0 <= PlaceOf(c) < 32 && CROCKFORD[PlaceOf(c)] == c;
    }
    if c in CROCKFORD {
      var i :| 0 <= i < 32 && CROCKFORD[i] == c;
      AlphabetAt(i);
    }
  }

  lemma AlphabetAt(i: nat)
    requires i < 32
    ensures InAlphabet(CROCKFORD[i])
  {
  }

  lemma {:induction false} AlphabetOrder(i: nat, j: nat)
    requires i < j < 32
    ensures CROCKFORD[i] < CROCKFORD[j]
    decreases j - i
  {
    Alphabet(j - 1);
    if i < j - 1 { AlphabetOrder(i, j - 1); }
  }

  lemma {:induction false} PositionOf(i: nat, n: nat)
    requires i < n <= 32
    ensures Position(CROCKFORD[..n], CROCKFORD[i]) == Some(i)
  {
    if i < n - 1 {
      AlphabetOrder(i, n - 1);
      assert CROCKFORD[..n][..n - 1] == CROCKFORD[..n - 1];
      PositionOf(i, n - 1);
    }
  }

  lemma DigitReadsBack(d: nat)
    requires d < 32
    ensures Position(CROCKFORD, CROCKFORD[d]) == Some(d)
  {
    PositionOf(d, 32);
    assert CROCKFORD[..32] == CROCKFORD;
  }

  lemma {:induction false} NumberOfDigits(value: nat, n: nat)
    requires value < Pow(32, n)
    ensures Number(Digits(value, n)) == Some(value)
  {
    hide Position;
    if n > 0 {
      NumberOfDigits(value / 32, n - 1);
      assert Digits(value, n)[..n - 1] == Digits(value / 32, n - 1);
      DigitReadsBack(value % 32);
    }
  }

  lemma {:induction false} LeadingDigits(value: nat, m: nat, k: nat)
    ensures Digits(value, m + k)[..m] == Digits(value / Pow(32, k), m)
  {
    if k > 0 {
      LeadingDigits(value / 32, m, k - 1);
      assert Digits(value, m + k)[..m] == Digits(value / 32, m + k - 1)[..m];
      DivDiv(value, Pow(32, k - 1));
    }
  }

  lemma DivDiv(value: nat, b: nat)
    requires b > 0
    ensures 32 * b > 0 && value / 32 / b == value / (32 * b)
  {
    var q, r := value / 32 / b, (value / 32) % b;
    Divided(value / 32, b);
    assert 32 * (q * b) == q * (32 * b);
    Quotient(value, 32 * b, q, r * 32 + value % 32);
  }

  lemma Divided(v: nat, d: nat)
    requires d > 0
    ensures v == (v / d) * d + v % d
  {
  }

  lemma AtLeastOne(x: int, d: int)
    requires d > 0
    ensures x >= 1 ==> x * d >= d
    ensures x <= -1 ==> x * d <= -d
  {
  }

  lemma Quotient(v: nat, d: nat, q: nat, r: nat)
    requires d > 0 && v == q * d + r && r < d
    ensures v / d == q
  {
    Divided(v, d);
    var q', r' := v / d, v % d;
    AtLeastOne(q' - q, d);
    assert (q' - q) * d == q' * d - q * d;
  }

  lemma PowersOf32()
    ensures Pow(32, 16) == RANDOM && Pow(32, 10) == 0x4_0000_0000_0000
  {
    assert Pow(32, 2) == 1024;
    assert Pow(32, 4) == 32 * (32 * Pow(32, 2));
    assert Pow(32, 6) == 32 * (32 * Pow(32, 4));
    assert Pow(32, 8) == 32 * (32 * Pow(32, 6));
    assert Pow(32, 10) == 32 * (32 * Pow(32, 8));
    assert Pow(32, 12) == 32 * (32 * Pow(32, 10));
    assert Pow(32, 14) == 32 * (32 * Pow(32, 12));
    assert Pow(32, 16) == 32 * (32 * Pow(32, 14));
  }

  /** The first ten characters are the timestamp, exactly. */
  lemma TimestampReadsBack(timestamp: nat, randomness: nat, up: Uppercase)
    requires timestamp < 0x4_0000_0000_0000 && randomness < RANDOM && UppersAscii(up)
    ensures Number(UpperText(up, Make(timestamp, randomness)[..10])) == Some(timestamp)
  {
    hide Number, Digits, Pow, UpperText;
    var value := timestamp * RANDOM + randomness;
    PowersOf32();
    LeadingDigits(value, 10, 16);
    Quotient(value, RANDOM, timestamp, randomness);
    NumberOfDigits(timestamp, 10);
    UpperOfDigits(up, timestamp, 10);
  }

  // ---- Order ----

  predicate Less(a: string, b: string) { LexLeq(a, b) && a != b }

  lemma {:induction false} LessAppend(a: string, b: string, x: char, y: char)
    requires |a| == |b| && (Less(a, b) || (a == b && x < y))
    ensures Less(a + [x], b + [y])
  {
    if a != "" && a[0] == b[0] {
      assert a == [a[0]] + a[1..] && b == [b[0]] + b[1..];
      LessAppend(a[1..], b[1..], x, y);
      assert (a + [x])[1..] == a[1..] + [x] && (b + [y])[1..] == b[1..] + [y];
    }
    assert (a + [x])[|a|] == x && (b + [y])[|b|] == y && (a + [x])[..|a|] == a && (b + [y])[..|b|] == b;
  }

  lemma {:induction false} DigitsOrder(v: nat, w: nat, n: nat)
    requires v < w < Pow(32, n)
    ensures Less(Digits(v, n), Digits(w, n))
  {
    hide Less;
    if v / 32 < w / 32 {
      DigitsOrder(v / 32, w / 32, n - 1);
    } else {
      AlphabetOrder(v % 32, w % 32);
    }
    LessAppend(Digits(v / 32, n - 1), Digits(w / 32, n - 1), CROCKFORD[v % 32], CROCKFORD[w % 32]);
  }

  /** A smaller timestamp gives a smaller ULID, so sorting names in reverse is newest first. */
  lemma EarlierIsSmaller(t: nat, u: nat, r: nat, q: nat)
    requires t < u < 0x4_0000_0000_0000 && r < RANDOM && q < RANDOM
    ensures Less(Make(t, r), Make(u, q))
  {
    PowersOf32();
    PowSum(10, 16);
    DigitsOrder(t * RANDOM + r, u * RANDOM + q, 26);
  }

  lemma {:induction false} PowSum(m: nat, k: nat)
    ensures Pow(32, m + k) == Pow(32, m) * Pow(32, k)
  {
    if m > 0 { PowSum(m - 1, k); }
  }
}
