/** The order `listTxns` sorts by: date, then id, each compared as text. `Array.prototype.sort`
    is stable, so records with equal date and id keep their stored order. */
module Sorting {
  import opened Text

  datatype Key = Key(major: string, minor: string)

  /** The comparator `a.date === b.date ? a.id.localeCompare(b.id) : a.date.localeCompare(b.date)`
      read as "a sorts strictly before b". */
  predicate KeyLess(a: Key, b: Key) {
    StrLess(a.major, b.major) || (a.major == b.major && StrLess(a.minor, b.minor))
  }

  lemma {:induction false} KeyLessIrreflexive(a: Key)
    ensures !KeyLess(a, a)
  {
    StrLessIrreflexive(a.major);
    StrLessIrreflexive(a.minor);
  }

  lemma {:induction false} KeyLessTransitive(a: Key, b: Key, c: Key)
    requires KeyLess(a, b) && KeyLess(b, c)
    ensures KeyLess(a, c)
  {
    if StrLess(a.major, b.major) && StrLess(b.major, c.major) {
      StrLessTransitive(a.major, b.major, c.major);
    } else if a.major == b.major && b.major == c.major {
      StrLessTransitive(a.minor, b.minor, c.minor);
    }
  }

  lemma {:induction false} KeyLessTotal(a: Key, b: Key)
    ensures a == b || KeyLess(a, b) || KeyLess(b, a)
  {
    StrLessTotal(a.major, b.major);
    StrLessTotal(a.minor, b.minor);
  }

  lemma {:induction false} KeyLessAsymmetric(a: Key, b: Key)
    requires KeyLess(a, b)
    ensures !KeyLess(b, a)
  {
    if KeyLess(b, a) {
      KeyLessTransitive(a, b, a);
      KeyLessIrreflexive(a);
    }
  }

  /** "Not after": the reflexive order the comparator induces. */
  lemma {:induction false} KeyLeqTransitive(a: Key, b: Key, c: Key)
    requires !KeyLess(b, a) && !KeyLess(c, b)
    ensures !KeyLess(c, a)
  {
    KeyLessTotal(a, b);
    KeyLessTotal(b, c);
    if KeyLess(c, a) {
      if a == b {
      } else if b == c {
      } else {
        KeyLessTransitive(c, a, b);
      }
    }
  }

  predicate SortedBy<T>(s: seq<T>, key: T -> Key) {
    forall i, j :: 0 <= i < j < |s| ==> !KeyLess(key(s[j]), key(s[i]))
  }

  function HasKey<T>(key: T -> Key, k: Key): T -> bool {
    x => key(x) == k
  }

  /** The elements of `s` whose key is `k`, in order. */
  function WithKey<T>(s: seq<T>, key: T -> Key, k: Key): (r: seq<T>)
    ensures forall i :: 0 <= i < |r| ==> key(r[i]) == k
  {
    Filter(s, HasKey(key, k))
  }

  /** Puts `x` after every element of `r` that does not sort after it. */
  function Insert<T>(r: seq<T>, x: T, key: T -> Key): (r': seq<T>)
    ensures multiset(r') == multiset(r) + multiset{x}
  {
    if |r| == 0 then [x]
    else if KeyLess(key(x), key(r[|r| - 1])) then
      assert r == r[..|r| - 1] + [r[|r| - 1]];
      Insert(r[..|r| - 1], x, key) + [r[|r| - 1]]
    else r + [x]
  }

  lemma {:induction false} InsertSorted<T>(r: seq<T>, x: T, key: T -> Key)
    requires SortedBy(r, key)
    ensures SortedBy(Insert(r, x, key), key)
  {
    if |r| > 0 {
      var init, last := r[..|r| - 1], r[|r| - 1];
      if KeyLess(key(x), key(last)) {
        assert SortedBy(init, key);
        InsertSorted(init, x, key);
        var a := Insert(init, x, key);
        forall e | e in a
          ensures !KeyLess(key(last), key(e))
        {
          assert e in multiset(a);
          if e == x {
            KeyLessAsymmetric(key(x), key(last));
          } else {
            assert e in multiset(init);
            var i :| 0 <= i < |init| && init[i] == e;
            assert r[i] == e;
          }
        }
        var r' := a + [last];
        forall i, j | 0 <= i < j < |r'|
          ensures !KeyLess(key(r'[j]), key(r'[i]))
        {
          if j == |a| {
            assert r'[i] in a;
          }
        }
      } else {
        var r' := r + [x];
        forall i, j | 0 <= i < j < |r'|
          ensures !KeyLess(key(r'[j]), key(r'[i]))
        {
          if j == |r| && i < |r| - 1 {
            KeyLeqTransitive(key(r[i]), key(last), key(x));
          }
        }
      }
    }
  }

  lemma {:induction false} WithKeyAppend<T>(a: seq<T>, b: seq<T>, key: T -> Key, k: Key)
    ensures WithKey(a + b, key, k) == WithKey(a, key, k) + WithKey(b, key, k)
  {
    FilterAppend(a, b, HasKey(key, k));
  }

  lemma {:induction false} InsertStable<T>(r: seq<T>, x: T, key: T -> Key, k: Key)
    ensures WithKey(Insert(r, x, key), key, k) == WithKey(r, key, k) + WithKey([x], key, k)
  {
    if |r| == 0 {
      assert [] + [x] == [x];
    } else {
      var init, last := r[..|r| - 1], r[|r| - 1];
      assert WithKey(r, key, k) == WithKey(init, key, k) + WithKey([last], key, k) by {
        SplitLast(r);
        WithKeyAppend(init, [last], key, k);
      }
      if KeyLess(key(x), key(last)) {
        var a := Insert(init, x, key);
        assert WithKey(Insert(r, x, key), key, k) == WithKey(a, key, k) + WithKey([last], key, k) by {
          WithKeyAppend(a, [last], key, k);
        }
        InsertStable(init, x, key, k);
        KeyLessIrreflexive(key(x));
        WithKeySwap(x, last, key, k);
        AppendSwap(WithKey(init, key, k), WithKey([x], key, k), WithKey([last], key, k));
      } else {
        WithKeyAppend(r, [x], key, k);
      }
    }
  }

  /** Two elements with different keys never both survive one key's filter. */
  lemma {:induction false} WithKeySwap<T>(x: T, y: T, key: T -> Key, k: Key)
    requires key(x) != key(y)
    ensures WithKey([x], key, k) + WithKey([y], key, k) == WithKey([y], key, k) + WithKey([x], key, k)
  {
    assert [x][1..] == [] && [y][1..] == [];
  }

  /** Stable insertion sort by `key`. */
  function SortBy<T>(s: seq<T>, key: T -> Key): (r: seq<T>)
    ensures multiset(r) == multiset(s)
    ensures SortedBy(r, key)
  {
    if |s| == 0 then []
    else
      assert s == s[..|s| - 1] + [s[|s| - 1]];
      InsertSorted(SortBy(s[..|s| - 1], key), s[|s| - 1], key);
      Insert(SortBy(s[..|s| - 1], key), s[|s| - 1], key)
  }

  /** Stability: the elements sharing a key come out in the order they went in. */
  lemma {:induction false} SortStable<T>(s: seq<T>, key: T -> Key, k: Key)
    ensures WithKey(SortBy(s, key), key, k) == WithKey(s, key, k)
  {
    if |s| > 0 {
      var init, last := s[..|s| - 1], s[|s| - 1];
      assert s == init + [last];
      SortStable(init, key, k);
      InsertStable(SortBy(init, key), last, key, k);
      WithKeyAppend(init, [last], key, k);
    }
  }
}
