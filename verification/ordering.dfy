/** Strings in their usual order, and sorting a set of them. */
module Ordering {
  predicate LexLeq(a: string, b: string) {
    a == "" || (b != "" && (a[0] < b[0] || (a[0] == b[0] && LexLeq(a[1..], b[1..]))))
  }

  lemma {:induction false} LexTotal(a: string, b: string)
    ensures LexLeq(a, b) || LexLeq(b, a)
  {
    if a != "" && b != "" && a[0] == b[0] { LexTotal(a[1..], b[1..]); }
  }

  lemma {:induction false} LexTrans(a: string, b: string, c: string)
    requires LexLeq(a, b) && LexLeq(b, c)
    ensures LexLeq(a, c)
  {
    if a != "" && a[0] == b[0] == c[0] { LexTrans(a[1..], b[1..], c[1..]); }
  }

  ghost predicate IsLeast(m: string, names: set<string>) { m in names && forall n | n in names :: LexLeq(m, n) }

  lemma {:induction false} LeastExists(names: set<string>)
    requires names != {}
    ensures exists m :: IsLeast(m, names)
  {
    var x :| x in names;
    LexTotal(x, x);
    var rest := names - {x};
    if rest == {} {
      assert forall n | n in names :: n == x || n in rest;
      assert IsLeast(x, names);
    } else {
      LeastExists(rest);
      var m :| IsLeast(m, rest);
      LexTotal(x, m);
      if LexLeq(x, m) {
        forall n | n in names ensures LexLeq(x, n) { if n != x { LexTrans(x, m, n); } }
        assert IsLeast(x, names);
      } else {
        assert IsLeast(m, names);
      }
    }
  }

  /** The names in order, each once. */
  ghost function Sorted(names: set<string>): (s: seq<string>)
    ensures forall n :: n in s <==> n in names
  {
    if names == {} then []
    else
      LeastExists(names);
      var m :| IsLeast(m, names);
      [m] + Sorted(names - {m})
  }

  lemma {:induction false} SortedIsSorted(names: set<string>)
    ensures var s := Sorted(names);
            forall i, j | 0 <= i < j < |s| :: s[i] != s[j] && LexLeq(s[i], s[j])
  {
    if names != {} {
      LeastExists(names);
      var m :| IsLeast(m, names);
      var s, rest := Sorted(names), Sorted(names - {m});
      SortedHead(names, m);
      SortedIsSorted(names - {m});
      hide LexLeq, Sorted;
      forall i, j | 0 <= i < j < |s| ensures s[i] != s[j] && LexLeq(s[i], s[j]) {
        assert s[j] == rest[j - 1] && rest[j - 1] in rest;
        if i > 0 { assert s[i] == rest[i - 1]; }
      }
    }
  }

  lemma {:induction false} LexAntisym(a: string, b: string)
    requires LexLeq(a, b) && LexLeq(b, a)
    ensures a == b
  {
    if a != "" {
      LexAntisym(a[1..], b[1..]);
      assert a == [a[0]] + a[1..] && b == [b[0]] + b[1..];
    }
  }

  lemma SortedHead(names: set<string>, m: string)
    requires IsLeast(m, names)
    ensures Sorted(names) == [m] + Sorted(names - {m})
  {
    LeastExists(names);
    var m' := Sorted(names)[0];
    assert IsLeast(m', names);
    LexAntisym(m, m');
  }

  method Least(names: set<string>) returns (m: string)
    requires names != {}
    ensures IsLeast(m, names)
  {
    m :| m in names;
    LexTotal(m, m);
    hide LexLeq;
    var rest := names - {m};
    while rest != {}
      invariant m in names && rest <= names
      invariant forall n | n in names && n !in rest :: LexLeq(m, n)
    {
      var x :| x in rest;
      LexTotal(m, x);
      LexTotal(x, x);
      if !LexLeq(m, x) {
        forall n | n in names && n !in rest ensures LexLeq(x, n) {
          LexTrans(x, m, n);
        }
        m := x;
      }
      rest := rest - {x};
    }
  }

  method SortNames(names: set<string>) returns (s: seq<string>)
    ensures s == Sorted(names)
  {
    hide LexLeq, IsLeast;
    s := [];
    var rest := names;
    while rest != {}
      invariant s + Sorted(rest) == Sorted(names)
    {
      var m := Least(rest);
      LeastIn(m, rest);
      SortedHead(rest, m);
      hide Sorted;
      assert s + ([m] + Sorted(rest - {m})) == s + [m] + Sorted(rest - {m});
      s, rest := s + [m], rest - {m};
    }
  }

  lemma LeastIn(m: string, names: set<string>)
    requires IsLeast(m, names)
    ensures m in names
  {
  }
}
