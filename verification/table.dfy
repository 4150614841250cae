/**
 * The pandas DataFrame operations the core chains together, as functions on
 * sequences of rows: `sort_values` (SortBy), `drop_duplicates(keep='last')`
 * (DedupLast), boolean selection (Filter) and column mapping (Map).
 */
module Table {
  import opened Wrappers

  /** `le` is a total preorder: the comparison a sort needs. */
  ghost predicate TotalPreorder<T(!new)>(le: (T, T) -> bool)
  {
    && (forall a, b :: le(a, b) || le(b, a))
    && (forall a, b, c :: le(a, b) && le(b, c) ==> le(a, c))
  }

  ghost predicate Sorted<T>(s: seq<T>, le: (T, T) -> bool)
  {
    forall i, j :: 0 <= i < j < |s| ==> le(s[i], s[j])
  }

  /** An element no greater than any of a sorted list, put in front of it, keeps it sorted. */
  lemma ConsSorted<T>(a: T, rest: seq<T>, le: (T, T) -> bool)
    requires Sorted(rest, le) && forall y :: y in rest ==> le(a, y)
    ensures Sorted([a] + rest, le)
  {
    var r := [a] + rest;
    forall i, j | 0 <= i < j < |r| ensures le(r[i], r[j]) {
      assert r[j] == rest[j - 1];
      if i == 0 {
        assert rest[j - 1] in rest;
      } else {
        assert r[i] == rest[i - 1];
      }
    }
  }

  /** Inserts `x` into the sorted `s`. */
  function Insert<T(!new)>(x: T, s: seq<T>, le: (T, T) -> bool): (r: seq<T>)
    requires TotalPreorder(le) && Sorted(s, le)
    ensures multiset(r) == multiset(s) + multiset{x}
    ensures forall y :: y in r ==> y == x || y in s
    ensures Sorted(r, le)
  {
    if s == [] then [x]
    else if le(x, s[0]) then
      assert forall y :: y in s ==> le(x, y) by {
        forall y | y in s ensures le(x, y) {
          var j :| 0 <= j < |s| && s[j] == y;
          if j > 0 { assert le(s[0], s[j]); }
        }
      }
      ConsSorted(x, s, le);
      [x] + s
    else
      var rest := Insert(x, s[1..], le);
      assert le(s[0], x);
      assert forall y :: y in rest ==> le(s[0], y) by {
        forall y | y in rest ensures le(s[0], y) {
          if y != x {
            var j :| 0 <= j < |s[1..]| && s[1..][j] == y;
            assert s[j + 1] == y;
          }
        }
      }
      ConsSorted(s[0], rest, le);
      assert s == [s[0]] + s[1..];
      [s[0]] + rest
  }

  /** `sort_values`: a sorted permutation. pandas' default sort is not stable, so rows that compare equal may come out in any order; this one is a fixed choice among them. */
  function SortBy<T(!new)>(s: seq<T>, le: (T, T) -> bool): (r: seq<T>)
    requires TotalPreorder(le)
    ensures multiset(r) == multiset(s) && |r| == |s|
    ensures Sorted(r, le)
  {
    if s == [] then []
    else
      assert s == [s[0]] + s[1..];
      Insert(s[0], SortBy(s[1..], le), le)
  }

  /** Taking out the element at `i`. */
  lemma MultisetRemove<T>(s: seq<T>, i: nat)
    requires i < |s|
    ensures multiset(s) == multiset(s[..i] + s[i + 1..]) + multiset{s[i]}
  {
    assert s == s[..i] + [s[i]] + s[i + 1..];
  }

  lemma MultisetCancel<T>(a: multiset<T>, b: multiset<T>, x: T)
    requires a + multiset{x} == b + multiset{x}
    ensures a == b
  {
    forall y ensures a[y] == b[y] {
      assert (a + multiset{x})[y] == (b + multiset{x})[y];
    }
  }

  /** Sorted permutations of one another start with the same element, when no two distinct elements compare equal both ways. */
  lemma SortedHeads<T(!new)>(s: seq<T>, t: seq<T>, le: (T, T) -> bool)
    requires s != [] && Sorted(s, le) && Sorted(t, le) && multiset(s) == multiset(t)
    requires forall a, b :: a in s && b in s && le(a, b) && le(b, a) ==> a == b
    ensures t != [] && s[0] == t[0]
  {
    assert s[0] in multiset(t);
    var i :| 0 <= i < |t| && t[i] == s[0];
    assert t[0] in multiset(s);
    var j :| 0 <= j < |s| && s[j] == t[0];
    if i > 0 && j > 0 {
      assert le(t[0], t[i]) && le(s[0], s[j]);
    }
  }

  /** Taking the head of `s` out of a permutation `t` of it leaves a permutation of the tail. */
  lemma RemoveMatching<T>(s: seq<T>, t: seq<T>, i: nat)
    requires s != [] && i < |t| && t[i] == s[0] && multiset(s) == multiset(t)
    ensures multiset(s[1..]) == multiset(t[..i] + t[i + 1..])
  {
    MultisetRemove(t, i);
    MultisetRemove(s, 0);
    assert s[..0] + s[1..] == s[1..];
    MultisetCancel(multiset(s[1..]), multiset(t[..i] + t[i + 1..]), s[0]);
  }

  lemma TailPermutation<T>(s: seq<T>, t: seq<T>)
    requires s != [] && t != [] && s[0] == t[0] && multiset(s) == multiset(t)
    ensures multiset(s[1..]) == multiset(t[1..])
  {
    RemoveMatching(s, t, 0);
    assert t[..0] + t[1..] == t[1..];
  }

  /** Two sorted permutations of one another are equal when no two distinct elements compare equal both ways. */
  lemma {:induction false} SortedUnique<T(!new)>(s: seq<T>, t: seq<T>, le: (T, T) -> bool)
    requires Sorted(s, le) && Sorted(t, le) && multiset(s) == multiset(t)
    requires forall a, b :: a in s && b in s && le(a, b) && le(b, a) ==> a == b
    ensures s == t
  {
    if s == [] {
      assert |t| == 0 by { assert |multiset(t)| == 0; }
    } else {
      SortedHeads(s, t, le);
      TailPermutation(s, t);
      var s', t' := s[1..], t[1..];
      assert Sorted(s', le) && Sorted(t', le);
      assert forall a :: a in s' ==> a in s;
      SortedUnique(s', t', le);
      assert s == [s[0]] + s' && t == [t[0]] + t';
    }
  }

  /** The last row of `s` whose key is `k`. */
  function LastOf<T, K(==)>(s: seq<T>, k: K, key: T -> K): (r: Option<T>)
    ensures r.Some? ==> r.value in s && key(r.value) == k
    ensures r.None? <==> forall x :: x in s ==> key(x) != k
  {
    if s == [] then None
    else
      var rest := LastOf(s[1..], k, key);
      if rest.Some? then rest
      else if key(s[0]) == k then Some(s[0])
      else
        assert s == [s[0]] + s[1..];
        None
  }

  lemma {:induction false} LastOfAppend<T, K>(a: seq<T>, b: seq<T>, k: K, key: T -> K)
    ensures LastOf(a + b, k, key) == if LastOf(b, k, key).Some? then LastOf(b, k, key) else LastOf(a, k, key)
  {
    if a != [] {
      assert (a + b)[1..] == a[1..] + b;
      LastOfAppend(a[1..], b, k, key);
    } else {
      assert a + b == b;
    }
  }

  ghost predicate UniqueKeys<T, K>(s: seq<T>, key: T -> K)
  {
    forall i, j :: 0 <= i < j < |s| ==> key(s[i]) != key(s[j])
  }

  /** `drop_duplicates(subset=key, keep='last')`: a row stays exactly when no later row has its key; order is kept. */
  function DedupLast<T(!new), K(==)>(s: seq<T>, key: T -> K): (r: seq<T>)
    ensures forall x :: x in r <==> LastOf(s, key(x), key) == Some(x)
    ensures UniqueKeys(r, key)
    ensures |r| <= |s|
  {
    if s == [] then []
    else
      var rest := DedupLast(s[1..], key);
      if LastOf(s[1..], key(s[0]), key).Some? then rest
      else
        assert forall x :: x in rest ==> key(x) != key(s[0]) by {
          forall x | x in rest ensures key(x) != key(s[0]) {
            assert x in s[1..];
          }
        }
        [s[0]] + rest
  }

  /** Rows with distinct keys are distinct rows, so each occurs once. */
  lemma {:induction false} UniqueKeysCount<T, K>(s: seq<T>, key: T -> K, x: T)
    requires UniqueKeys(s, key)
    ensures multiset(s)[x] == if x in s then 1 else 0
  {
    if s != [] {
      assert s == [s[0]] + s[1..];
      assert UniqueKeys(s[1..], key) by {
        forall i, j | 0 <= i < j < |s[1..]| ensures key(s[1..][i]) != key(s[1..][j]) {
          assert key(s[i + 1]) != key(s[j + 1]);
        }
      }
      UniqueKeysCount(s[1..], key, x);
      assert forall j :: 1 <= j < |s| ==> s[j] != s[0] by {
        forall j | 1 <= j < |s| ensures s[j] != s[0] {
          assert key(s[0]) != key(s[j]);
        }
      }
      assert s[0] !in s[1..];
    }
  }

  /** Two duplicate-free tables holding the same rows are permutations of one another. */
  lemma SameRowsSameMultiset<T, K>(s: seq<T>, t: seq<T>, key: T -> K)
    requires UniqueKeys(s, key) && UniqueKeys(t, key)
    requires forall x :: x in s <==> x in t
    ensures multiset(s) == multiset(t)
  {
    forall x ensures multiset(s)[x] == multiset(t)[x] {
      UniqueKeysCount(s, key, x);
      UniqueKeysCount(t, key, x);
    }
  }

  /** Boolean row selection `df[p]`, order kept. */
  function Filter<T(!new)>(s: seq<T>, p: T -> bool): (r: seq<T>)
    ensures forall x :: x in r <==> x in s && p(x)
    ensures |r| <= |s|
  {
    if s == [] then []
    else
      assert s == [s[0]] + s[1..];
      (if p(s[0]) then [s[0]] else []) + Filter(s[1..], p)
  }

  lemma {:induction false} FilterCount<T(!new)>(s: seq<T>, p: T -> bool, x: T)
    ensures multiset(Filter(s, p))[x] == if p(x) then multiset(s)[x] else 0
  {
    if s != [] {
      assert s == [s[0]] + s[1..];
      FilterCount(s[1..], p, x);
    }
  }

  /** Selecting rows commutes with reordering them. */
  lemma FilterPermutation<T(!new)>(s: seq<T>, t: seq<T>, p: T -> bool)
    requires multiset(s) == multiset(t)
    ensures multiset(Filter(s, p)) == multiset(Filter(t, p))
  {
    forall x ensures multiset(Filter(s, p))[x] == multiset(Filter(t, p))[x] {
      FilterCount(s, p, x);
      FilterCount(t, p, x);
    }
  }

  lemma {:induction false} FilterAppend<T(!new)>(a: seq<T>, b: seq<T>, p: T -> bool)
    ensures Filter(a + b, p) == Filter(a, p) + Filter(b, p)
  {
    if a == [] {
      assert a + b == b;
    } else {
      assert (a + b)[1..] == a[1..] + b;
      FilterAppend(a[1..], b, p);
    }
  }

  /** Applying `f` to every row (a derived column). */
  function Map<T, U>(f: T -> U, s: seq<T>): (r: seq<U>)
    ensures |r| == |s| && forall i :: 0 <= i < |s| ==> r[i] == f(s[i])
  {
    if s == [] then [] else [f(s[0])] + Map(f, s[1..])
  }

  /** A prefix one longer is the prefix with the next element appended. */
  lemma TakeOneMore<T>(s: seq<T>, j: nat)
    requires j < |s|
    ensures s[..j + 1] == s[..j] + [s[j]]
  {
  }

  /** A prefix is the shorter prefix followed by the slice between them. */
  lemma TakeSplit<T>(s: seq<T>, i: nat, j: nat)
    requires i <= j <= |s|
    ensures s[..i] + s[i..j] == s[..j]
  {
  }

  /** Dropping the last element of `a + b`, for a non-empty `b`, drops the last element of `b`. */
  lemma InitOfAppend<T>(a: seq<T>, b: seq<T>)
    requires b != []
    ensures (a + b)[..|a + b| - 1] == a + b[..|b| - 1]
    ensures (a + b)[|a + b| - 1] == b[|b| - 1]
  {
  }

  lemma {:induction false} MapAppend<T, U>(f: T -> U, a: seq<T>, b: seq<T>)
    ensures Map(f, a + b) == Map(f, a) + Map(f, b)
  {
  }

  /** Mapping commutes with taking one element out. */
  lemma MapRemove<T, U>(f: T -> U, t: seq<T>, i: nat)
    requires i < |t|
    ensures multiset(Map(f, t)) == multiset(Map(f, t[..i] + t[i + 1..])) + multiset{f(t[i])}
  {
    var ft := Map(f, t);
    MultisetRemove(ft, i);
    assert ft[..i] == Map(f, t[..i]) && ft[i + 1..] == Map(f, t[i + 1..]);
    MapAppend(f, t[..i], t[i + 1..]);
  }

  /** Mapping commutes with reordering. */
  lemma {:induction false} MapPermutation<T, U>(f: T -> U, s: seq<T>, t: seq<T>)
    requires multiset(s) == multiset(t)
    ensures multiset(Map(f, s)) == multiset(Map(f, t))
    decreases |s|
  {
    if s == [] {
      assert |t| == 0 by { assert |multiset(t)| == 0; }
    } else {
      assert s[0] in multiset(t);
      var i :| 0 <= i < |t| && t[i] == s[0];
      var t' := t[..i] + t[i + 1..];
      RemoveMatching(s, t, i);
      MapPermutation(f, s[1..], t');
      MapRemove(f, t, i);
      assert Map(f, s) == [f(s[0])] + Map(f, s[1..]);
    }
  }

  /** Concatenation of a list of row lists (`list.extend` in a loop). */
  function Flatten<T>(ss: seq<seq<T>>): (r: seq<T>)
    ensures |ss| == 1 ==> r == ss[0]
  {
    if ss == [] then [] else ss[0] + Flatten(ss[1..])
  }

  lemma {:induction false} FlattenAppend<T>(a: seq<seq<T>>, b: seq<seq<T>>)
    ensures Flatten(a + b) == Flatten(a) + Flatten(b)
  {
    if a == [] {
      assert a + b == b;
    } else {
      assert (a + b)[1..] == a[1..] + b;
      FlattenAppend(a[1..], b);
    }
  }

  /** The lists of a prefix of `s`, mapped and concatenated, grown by one more element. */
  lemma FlattenMapStep<T, U>(f: T -> seq<U>, s: seq<T>, k: nat)
    requires k < |s|
    ensures Flatten(Map(f, s[..k + 1])) == Flatten(Map(f, s[..k])) + f(s[k])
  {
    assert s[..k + 1] == s[..k] + [s[k]];
    MapAppend(f, s[..k], [s[k]]);
    FlattenAppend(Map(f, s[..k]), Map(f, [s[k]]));
  }

  /** Selecting rows keeps them sorted. */
  lemma {:induction false} FilterSorted<T(!new)>(s: seq<T>, p: T -> bool, le: (T, T) -> bool)
    requires Sorted(s, le)
    ensures Sorted(Filter(s, p), le)
  {
    if s != [] {
      assert Sorted(s[1..], le);
      FilterSorted(s[1..], p, le);
      var rest := Filter(s[1..], p);
      forall y | y in rest ensures le(s[0], y) {
        var j :| 0 <= j < |s[1..]| && s[1..][j] == y;
        assert s[j + 1] == y;
      }
      ConsSorted(s[0], rest, le);
    }
  }

  /** Dropping duplicates keeps a sorted table sorted. */
  lemma {:induction false} DedupLastSorted<T(!new), K>(s: seq<T>, key: T -> K, le: (T, T) -> bool)
    requires Sorted(s, le)
    ensures Sorted(DedupLast(s, key), le)
  {
    if s != [] {
      assert Sorted(s[1..], le);
      DedupLastSorted(s[1..], key, le);
      var rest := DedupLast(s[1..], key);
      forall y | y in rest ensures le(s[0], y) {
        var j :| 0 <= j < |s[1..]| && s[1..][j] == y;
        assert s[j + 1] == y;
      }
      ConsSorted(s[0], rest, le);
    }
  }

  ghost predicate Distinct<T>(s: seq<T>)
  {
    forall i, j :: 0 <= i < j < |s| ==> s[i] != s[j]
  }

  /** A permutation of a sequence without repeats has none either. */
  lemma DistinctPermutation<T>(s: seq<T>, t: seq<T>)
    requires Distinct(s) && multiset(s) == multiset(t)
    ensures Distinct(t)
  {
    forall i, j | 0 <= i < j < |t| ensures t[i] != t[j] {
      if t[i] == t[j] {
        var x := t[i];
        assert t == t[..j] + t[j..];
        assert x in t[..j] && x in t[j..];
        assert multiset(t)[x] >= 2 by {
          assert multiset(t) == multiset(t[..j]) + multiset(t[j..]);
        }
        assert UniqueKeys(s, y => y);
        UniqueKeysCount(s, y => y, x);
        assert false;
      }
    }
  }

  /** The distinct values of `s`, sorted: the keys `groupby` visits, in its order. */
  function SortedDistinct<T(!new,==)>(s: seq<T>, le: (T, T) -> bool): (r: seq<T>)
    requires TotalPreorder(le)
    ensures forall x :: x in r <==> x in s
    ensures Sorted(r, le) && Distinct(r)
  {
    var d := DedupLast(s, y => y);
    assert forall x :: x in d <==> x in s by {
      forall x ensures x in d <==> x in s {
        if x in s {
          var l := LastOf(s, x, y => y);
          assert l.Some? && l.value == x;
        }
      }
    }
    var r := SortBy(d, le);
    assert forall x :: x in r <==> x in d by {
      forall x ensures x in r <==> x in d {
        assert x in r <==> x in multiset(r);
        assert x in d <==> x in multiset(d);
      }
    }
    DistinctPermutation(d, r);
    r
  }
}
