/** Lexicographic order on strings (Python compares `str` by code point) and the row orders built from it. */
module Ordering {

  /** `a <= b` in Python's string order. */
  predicate StrLe(a: string, b: string)
    decreases |a|
  {
    |a| == 0 || (|b| > 0 && (a[0] < b[0] || (a[0] == b[0] && StrLe(a[1..], b[1..]))))
  }

  lemma {:induction false} StrLeTotal(a: string, b: string)
    ensures StrLe(a, b) || StrLe(b, a)
    decreases |a|
  {
    if |a| > 0 && |b| > 0 && a[0] == b[0] {
      StrLeTotal(a[1..], b[1..]);
    }
  }

  lemma {:induction false} StrLeAntisymmetric(a: string, b: string)
    requires StrLe(a, b) && StrLe(b, a)
    ensures a == b
    decreases |a|
  {
    if |a| > 0 {
      StrLeAntisymmetric(a[1..], b[1..]);
      assert a == [a[0]] + a[1..] && b == [b[0]] + b[1..];
    }
  }

  lemma {:induction false} StrLeTransitive(a: string, b: string, c: string)
    requires StrLe(a, b) && StrLe(b, c)
    ensures StrLe(a, c)
    decreases |a|
  {
    if |a| > 0 && a[0] == b[0] && b[0] == c[0] {
      StrLeTransitive(a[1..], b[1..], c[1..]);
    }
  }

  /** Sorting by the two columns (`s`, `n`): the string first, the integer on ties. */
  predicate StrIntLe(s1: string, n1: int, s2: string, n2: int)
  {
    (s1 != s2 && StrLe(s1, s2)) || (s1 == s2 && n1 <= n2)
  }

  /** Sorting by the two columns (`n`, `s`): the integer first, the string on ties. */
  predicate IntStrLe(n1: int, s1: string, n2: int, s2: string)
  {
    n1 < n2 || (n1 == n2 && StrLe(s1, s2))
  }

  lemma StrIntLeTotal(s1: string, n1: int, s2: string, n2: int)
    ensures StrIntLe(s1, n1, s2, n2) || StrIntLe(s2, n2, s1, n1)
  {
    StrLeTotal(s1, s2);
  }

  lemma StrIntLeTransitive(s1: string, n1: int, s2: string, n2: int, s3: string, n3: int)
    requires StrIntLe(s1, n1, s2, n2) && StrIntLe(s2, n2, s3, n3)
    ensures StrIntLe(s1, n1, s3, n3)
  {
    if s1 != s2 && s2 != s3 {
      StrLeTransitive(s1, s2, s3);
      if s1 == s3 {
        StrLeAntisymmetric(s1, s2);
      }
    }
  }

  lemma StrIntLeAntisymmetric(s1: string, n1: int, s2: string, n2: int)
    requires StrIntLe(s1, n1, s2, n2) && StrIntLe(s2, n2, s1, n1)
    ensures s1 == s2 && n1 == n2
  {
    if s1 != s2 {
      StrLeAntisymmetric(s1, s2);
    }
  }

  lemma IntStrLeTotal(n1: int, s1: string, n2: int, s2: string)
    ensures IntStrLe(n1, s1, n2, s2) || IntStrLe(n2, s2, n1, s1)
  {
    StrLeTotal(s1, s2);
  }

  lemma IntStrLeTransitive(n1: int, s1: string, n2: int, s2: string, n3: int, s3: string)
    requires IntStrLe(n1, s1, n2, s2) && IntStrLe(n2, s2, n3, s3)
    ensures IntStrLe(n1, s1, n3, s3)
  {
    if n1 == n2 && n2 == n3 {
      StrLeTransitive(s1, s2, s3);
    }
  }
}
