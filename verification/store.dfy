/**
 * The upsert both fetchers apply to their CSV table in `save_to_csv`:
 * concatenate the stored rows with the new ones, drop duplicates on a key
 * keeping the last, and sort by (market, time).
 */
module CandleStore {
  import opened Wrappers
  import opened Table

  function Upsert<T(!new), K(==)>(existing: seq<T>, incoming: seq<T>, key: T -> K, le: (T, T) -> bool): (r: seq<T>)
    requires TotalPreorder(le)
    ensures Sorted(r, le)
    ensures UniqueKeys(r, key)
    ensures forall x :: x in r <==> LastOf(existing + incoming, key(x), key) == Some(x)
  {
    var deduped := DedupLast(existing + incoming, key);
    var r := SortBy(deduped, le);
    assert forall x :: x in r <==> x in deduped by {
      forall x ensures x in r <==> x in deduped {
        assert x in r <==> x in multiset(r);
      }
    }
    UniqueKeysPermutation(deduped, r, key);
    r
  }

  lemma UniqueKeysPermutation<T, K>(s: seq<T>, t: seq<T>, key: T -> K)
    requires UniqueKeys(s, key) && multiset(s) == multiset(t)
    ensures UniqueKeys(t, key)
  {
    forall i, j | 0 <= i < j < |t| ensures key(t[i]) != key(t[j]) {
      if key(t[i]) == key(t[j]) {
        assert t[i] in multiset(s) && t[j] in multiset(s);
        var i' :| 0 <= i' < |s| && s[i'] == t[i];
        var j' :| 0 <= j' < |s| && s[j'] == t[j];
        if i' == j' {
          assert t == t[..i] + [t[i]] + t[i + 1..j] + [t[j]] + t[j + 1..];
          assert multiset(t)[t[i]] >= 2;
          UniqueKeysCount(s, key, t[i]);
        }
      }
    }
  }

  /** Every key stored or fetched survives the upsert, holding the row added last under that key. */
  lemma UpsertKeepsEveryKey<T(!new), K>(existing: seq<T>, incoming: seq<T>, key: T -> K, le: (T, T) -> bool, x: T)
    requires TotalPreorder(le)
    requires x in existing + incoming
    ensures LastOf(existing + incoming, key(x), key).Some?
    ensures LastOf(existing + incoming, key(x), key).value in Upsert(existing, incoming, key, le)
  {
  }

  /** A freshly fetched row replaces whatever was stored under its key: the newest fetch wins. */
  lemma {:induction false} UpsertLatestWins<T(!new), K>(existing: seq<T>, incoming: seq<T>, key: T -> K, le: (T, T) -> bool, y: T)
    requires TotalPreorder(le)
    requires LastOf(incoming, key(y), key) == Some(y)
    ensures y in Upsert(existing, incoming, key, le)
    ensures forall x :: x in Upsert(existing, incoming, key, le) && key(x) == key(y) ==> x == y
  {
    LastOfAppend(existing, incoming, key(y), key);
  }

  /** Upserting the same batch a second time leaves the same rows (and so the same number of rows). */
  lemma {:induction false} UpsertIdempotent<T(!new), K>(existing: seq<T>, incoming: seq<T>, key: T -> K, le: (T, T) -> bool)
    requires TotalPreorder(le)
    ensures var once := Upsert(existing, incoming, key, le);
      multiset(Upsert(once, incoming, key, le)) == multiset(once) &&
      |Upsert(once, incoming, key, le)| == |once|
  {
    var once := Upsert(existing, incoming, key, le);
    var twice := Upsert(once, incoming, key, le);
    forall x ensures x in twice <==> x in once {
      var k := key(x);
      LastOfAppend(once, incoming, k, key);
      LastOfAppend(existing, incoming, k, key);
      if LastOf(incoming, k, key).None? {
        UniqueLastOf(once, key, x);
      }
    }
    SameRowsSameMultiset(twice, once, key);
    assert |multiset(twice)| == |multiset(once)|;
  }

  /** In a table with unique keys, the last row under a key is the only one. */
  lemma UniqueLastOf<T, K>(s: seq<T>, key: T -> K, x: T)
    requires UniqueKeys(s, key)
    ensures LastOf(s, key(x), key) == Some(x) <==> x in s
  {
    if x in s {
      var r := LastOf(s, key(x), key);
      assert r.Some?;
      var i :| 0 <= i < |s| && s[i] == x;
      var j :| 0 <= j < |s| && s[j] == r.value;
      assert forall m :: 0 <= m < |s| && key(s[m]) == key(s[i]) ==> m == i;
      assert key(s[j]) == key(s[i]);
    }
  }

  /**
   * When the sort order only ties rows with equal keys (as for a key of
   * (market, time) sorted by (market, time)), a second upsert of the same
   * batch reproduces the table exactly.
   */
  lemma UpsertIdempotentExact<T(!new), K>(existing: seq<T>, incoming: seq<T>, key: T -> K, le: (T, T) -> bool)
    requires TotalPreorder(le)
    requires forall a, b :: le(a, b) && le(b, a) ==> key(a) == key(b)
    ensures var once := Upsert(existing, incoming, key, le);
      Upsert(once, incoming, key, le) == once
  {
    var once := Upsert(existing, incoming, key, le);
    var twice := Upsert(once, incoming, key, le);
    UpsertIdempotent(existing, incoming, key, le);
    forall a, b | a in twice && b in twice && le(a, b) && le(b, a) ensures a == b {
      var i :| 0 <= i < |twice| && twice[i] == a;
      var j :| 0 <= j < |twice| && twice[j] == b;
      if i != j {
        assert key(twice[i]) != key(twice[j]);
      }
    }
    SortedUnique(twice, once, le);
  }
}
