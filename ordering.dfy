/**
 * Row ordering and filtering as the catalog's SELECT statements use them:
 * `ORDER BY` is a sort on a two-part key, `WHERE` a filter that keeps the
 * relative order of the rows it keeps.
 */
module Ordering {

  /** A sort key compared lexicographically: major first, then minor, both ascending. */
  datatype Key = Key(major: int, minor: int)

  predicate KeyLess(a: Key, b: Key) {
    a.major < b.major || (a.major == b.major && a.minor < b.minor)
  }

  /** No element is followed by one whose key is strictly smaller. */
  predicate SortedBy<T>(s: seq<T>, key: T -> Key) {
    forall i, j :: 0 <= i < j < |s| ==> !KeyLess(key(s[j]), key(s[i]))
  }

  /** No element of s has a key strictly below b. */
  predicate NoneBelow<T>(s: seq<T>, key: T -> Key, b: Key) {
    forall i :: 0 <= i < |s| ==> !KeyLess(key(s[i]), b)
  }

  /** Places x before the first element whose key is strictly greater than x's. */
  function InsertBy<T>(x: T, s: seq<T>, key: T -> Key): (r: seq<T>)
    ensures |r| == |s| + 1
  {
    if s == [] then [x]
    else if KeyLess(key(x), key(s[0])) then [x] + s
    else [s[0]] + InsertBy(x, s[1..], key)
  }

  /** The elements of s ordered by key (an insertion sort). */
  function SortBy<T>(s: seq<T>, key: T -> Key): (r: seq<T>)
    ensures |r| == |s|
  {
    if s == [] then [] else InsertBy(s[0], SortBy(s[1..], key), key)
  }

  /** The elements of s that satisfy p, in their order in s. */
  function Filter<T>(s: seq<T>, p: T -> bool): (r: seq<T>)
    ensures |r| <= |s|
  {
    if s == [] then [] else (if p(s[0]) then [s[0]] else []) + Filter(s[1..], p)
  }

  lemma {:induction false} InsertByPermutes<T>(x: T, s: seq<T>, key: T -> Key)
    ensures multiset(InsertBy(x, s, key)) == multiset(s) + multiset{x}
  {
    if s != [] && !KeyLess(key(x), key(s[0])) {
      InsertByPermutes(x, s[1..], key);
      assert s == [s[0]] + s[1..];
    }
  }

  lemma {:induction false} InsertByKeepsBound<T>(x: T, s: seq<T>, key: T -> Key, b: Key)
    requires NoneBelow(s, key, b) && !KeyLess(key(x), b)
    ensures NoneBelow(InsertBy(x, s, key), key, b)
  {
    if s != [] && !KeyLess(key(x), key(s[0])) {
      InsertByKeepsBound(x, s[1..], key, b);
    }
  }

  lemma {:induction false} InsertBySorted<T>(x: T, s: seq<T>, key: T -> Key)
    requires SortedBy(s, key)
    ensures SortedBy(InsertBy(x, s, key), key)
  {
    if s == [] {
    } else if KeyLess(key(x), key(s[0])) {
      BelowHeadIsBelowAll(x, s, key);
    } else {
      InsertBySorted(x, s[1..], key);
      InsertByKeepsBound(x, s[1..], key, key(s[0]));
    }
  }

  /** SELECT ... ORDER BY returns every row exactly once, in key order. */
  lemma {:induction false} SortBySortsAndPermutes<T>(s: seq<T>, key: T -> Key)
    ensures SortedBy(SortBy(s, key), key)
    ensures multiset(SortBy(s, key)) == multiset(s)
  {
    if s != [] {
      SortBySortsAndPermutes(s[1..], key);
      InsertBySorted(s[0], SortBy(s[1..], key), key);
      InsertByPermutes(s[0], SortBy(s[1..], key), key);
      assert s == [s[0]] + s[1..];
    }
  }

  /** The filter keeps exactly the elements of s that satisfy p. */
  lemma {:induction false} FilterMembers<T>(s: seq<T>, p: T -> bool)
    ensures forall i :: 0 <= i < |Filter(s, p)| ==> Filter(s, p)[i] in s && p(Filter(s, p)[i])
    ensures forall i :: 0 <= i < |s| && p(s[i]) ==> s[i] in Filter(s, p)
    ensures multiset(Filter(s, p)) <= multiset(s)
  {
    if s != [] {
      FilterMembers(s[1..], p);
      assert s == [s[0]] + s[1..];
      forall i | 0 < i < |s| && p(s[i]) ensures s[i] in Filter(s, p) {
        assert s[i] == s[1..][i - 1];
      }
    }
  }

  /** Filtering one more element at the end extends the result by at most that element. */
  lemma {:induction false} FilterSnoc<T>(s: seq<T>, x: T, p: T -> bool)
    ensures Filter(s + [x], p) == Filter(s, p) + (if p(x) then [x] else [])
  {
    if s != [] {
      assert (s + [x])[1..] == s[1..] + [x];
      FilterSnoc(s[1..], x, p);
    }
  }

  lemma {:induction false} FilterKeepsBound<T>(s: seq<T>, p: T -> bool, key: T -> Key, b: Key)
    requires NoneBelow(s, key, b)
    ensures NoneBelow(Filter(s, p), key, b)
  {
    if s != [] {
      FilterKeepsBound(s[1..], p, key, b);
    }
  }

  /** A filter keeps a sorted sequence sorted. */
  lemma {:induction false} FilterKeepsSorted<T>(s: seq<T>, p: T -> bool, key: T -> Key)
    requires SortedBy(s, key)
    ensures SortedBy(Filter(s, p), key)
  {
    if s != [] {
      FilterKeepsSorted(s[1..], p, key);
      FilterKeepsBound(s[1..], p, key, key(s[0]));
    }
  }

  /** In a sorted s, an element whose key is strictly below s[0]'s is strictly below all of s. */
  lemma BelowHeadIsBelowAll<T>(x: T, s: seq<T>, key: T -> Key)
    requires SortedBy(s, key) && s != [] && KeyLess(key(x), key(s[0]))
    ensures forall i :: 0 <= i < |s| ==> KeyLess(key(x), key(s[i]))
  {
    forall i | 0 < i < |s| ensures KeyLess(key(x), key(s[i])) {
      assert !KeyLess(key(s[i]), key(s[0]));
    }
  }

  lemma {:induction false} FilterHeadBelow<T>(x: T, s: seq<T>, p: T -> bool, key: T -> Key)
    requires SortedBy(s, key) && s != [] && KeyLess(key(x), key(s[0]))
    ensures Filter(s, p) == [] || KeyLess(key(x), key(Filter(s, p)[0]))
  {
    BelowHeadIsBelowAll(x, s, key);
    FilterMembers(s, p);
    var fs := Filter(s, p);
    if fs != [] {
      var k :| 0 <= k < |s| && s[k] == fs[0];
    }
  }

  lemma {:induction false} FilterInsert<T>(x: T, s: seq<T>, p: T -> bool, key: T -> Key)
    requires SortedBy(s, key)
    ensures Filter(InsertBy(x, s, key), p)
            == if p(x) then InsertBy(x, Filter(s, p), key) else Filter(s, p)
  {
    if s == [] {
    } else if KeyLess(key(x), key(s[0])) {
      assert ([x] + s)[1..] == s;
      FilterHeadBelow(x, s, p, key);
    } else {
      var t := InsertBy(x, s[1..], key);
      assert InsertBy(x, s, key) == [s[0]] + t;
      assert ([s[0]] + t)[1..] == t;
      assert Filter([s[0]] + t, p) == (if p(s[0]) then [s[0]] else []) + Filter(t, p);
      FilterInsert(x, s[1..], p, key);
      var f1 := Filter(s[1..], p);
      assert Filter(s, p) == (if p(s[0]) then [s[0]] else []) + f1;
      if p(x) && p(s[0]) {
        assert ([s[0]] + f1)[0] == s[0];
        assert ([s[0]] + f1)[1..] == f1;
        assert InsertBy(x, [s[0]] + f1, key) == [s[0]] + InsertBy(x, f1, key);
        assert Filter(InsertBy(x, s, key), p) == InsertBy(x, Filter(s, p), key);
      } else if p(x) {
        assert Filter(s, p) == f1;
        assert Filter(InsertBy(x, s, key), p) == InsertBy(x, Filter(s, p), key);
      } else {
        assert Filter(t, p) == f1;
        assert Filter(InsertBy(x, s, key), p) == Filter(s, p);
      }
    }
  }

  /**
   * Filtering after sorting gives the same sequence as sorting after
   * filtering: a WHERE clause can be applied before or after ORDER BY.
   */
  lemma {:induction false} FilterSortCommute<T>(s: seq<T>, p: T -> bool, key: T -> Key)
    ensures Filter(SortBy(s, key), p) == SortBy(Filter(s, p), key)
  {
    if s != [] {
      FilterSortCommute(s[1..], p, key);
      SortBySortsAndPermutes(s[1..], key);
      FilterInsert(s[0], SortBy(s[1..], key), p, key);
      var f1 := Filter(s[1..], p);
      assert Filter(s, p) == (if p(s[0]) then [s[0]] else []) + f1;
      if p(s[0]) {
        assert ([s[0]] + f1)[0] == s[0];
        assert ([s[0]] + f1)[1..] == f1;
        assert SortBy([s[0]] + f1, key) == InsertBy(s[0], SortBy(f1, key), key);
      } else {
        assert Filter(s, p) == f1;
      }
      assert SortBy(s, key) == InsertBy(s[0], SortBy(s[1..], key), key);
    }
  }
}
