/**
  Python's ordering of `str` values: the first differing code point
  decides, and a proper prefix sorts before every extension of it.
  The creation timestamps of tickets are compared with this ordering,
  since they are never parsed into dates.
*/
module StringOrder {

  /** `a <= b` on Python strings. */
  predicate StrLe(a: string, b: string)
  {
    a == [] || (b != [] && (a[0] < b[0] || (a[0] == b[0] && StrLe(a[1..], b[1..]))))
  }

  lemma {:induction false} StrLeReflexive(a: string)
    ensures StrLe(a, a)
  {
    if a != [] {
      StrLeReflexive(a[1..]);
    }
  }

  lemma {:induction false} StrLeTotal(a: string, b: string)
    ensures StrLe(a, b) || StrLe(b, a)
  {
    if a != [] && b != [] && a[0] == b[0] {
      StrLeTotal(a[1..], b[1..]);
    }
  }

  lemma {:induction false} StrLeAntisymmetric(a: string, b: string)
    requires StrLe(a, b) && StrLe(b, a)
    ensures a == b
  {
    if a != [] && b != [] {
      StrLeAntisymmetric(a[1..], b[1..]);
      assert a == [a[0]] + a[1..] && b == [b[0]] + b[1..];
    }
  }

  lemma {:induction false} StrLeTransitive(a: string, b: string, c: string)
    requires StrLe(a, b) && StrLe(b, c)
    ensures StrLe(a, c)
  {
    if a != [] && b != [] && c != [] && a[0] == b[0] == c[0] {
      StrLeTransitive(a[1..], b[1..], c[1..]);
    }
  }

  /** A prefix sorts no later than the strings that extend it, as in Python:
      a date such as "2024-01-02" sorts before "2024-01-02 10:00". */
  lemma {:induction false} PrefixStrLe(a: string, b: string)
    requires a <= b
    ensures StrLe(a, b)
  {
    if a != [] {
      assert a[1..] <= b[1..];
      PrefixStrLe(a[1..], b[1..]);
    }
  }
}
