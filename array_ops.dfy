/** The two array methods the view pipeline calls: `Array.prototype.filter`
    and `Array.prototype.sort`, the latter stable as ECMAScript 2019 requires.
    A comparator `(a, b) => f(a) - f(b)` over integers orders exactly as an
    ascending sort by the key `f`, so sorting is modelled by an integer key. */
module ArrayOps {

  /** `s.filter(p)`: the elements satisfying `p`, in their original order. */
  function Filter<T(!new)>(s: seq<T>, p: T -> bool): (r: seq<T>)
    ensures |r| <= |s|
    ensures forall x | x in r :: p(x)
    ensures forall x :: multiset(r)[x] == if p(x) then multiset(s)[x] else 0
  {
    if |s| == 0 then []
    else
      assert s == [s[0]] + s[1..];
      (if p(s[0]) then [s[0]] else []) + Filter(s[1..], p)
  }

  /** Filtering keeps everything when every element passes. */
  lemma {:induction false} FilterAll<T(!new)>(s: seq<T>, p: T -> bool)
    requires forall x | x in s :: p(x)
    ensures Filter(s, p) == s
  {
    if |s| > 0 {
      FilterAll(s[1..], p);
    }
  }

  /** Two filters may be applied in either order. */
  lemma {:induction false} FilterCommutes<T(!new)>(s: seq<T>, p: T -> bool, q: T -> bool)
    ensures Filter(Filter(s, p), q) == Filter(Filter(s, q), p)
  {
    if |s| > 0 {
      var x, rest := s[0], s[1..];
      FilterCommutes(rest, p, q);
      var fp, fq := Filter(rest, p), Filter(rest, q);
      assert Filter(s, p) == (if p(x) then [x] + fp else fp);
      assert Filter(s, q) == (if q(x) then [x] + fq else fq);
      if p(x) {
        FilterOfCons(x, fp, q);
      }
      if q(x) {
        FilterOfCons(x, fq, p);
      }
    }
  }

  /** Filters with the same predicate, written twice, agree. */
  lemma {:induction false} FilterSame<T(!new)>(s: seq<T>, p: T -> bool, q: T -> bool)
    requires forall x | x in s :: p(x) == q(x)
    ensures Filter(s, p) == Filter(s, q)
  {
    if |s| > 0 {
      FilterSame(s[1..], p, q);
    }
  }

  /** Filtering by `p` and then by `q` is filtering once by their conjunction `pq`. */
  lemma {:induction false} FilterFuse<T(!new)>(s: seq<T>, p: T -> bool, q: T -> bool, pq: T -> bool)
    requires forall x :: pq(x) == (p(x) && q(x))
    ensures Filter(Filter(s, p), q) == Filter(s, pq)
  {
    if |s| > 0 {
      var x, rest := s[0], s[1..];
      FilterFuse(rest, p, q, pq);
      var fp := Filter(rest, p);
      assert Filter(s, p) == (if p(x) then [x] + fp else fp);
      assert Filter(s, pq) == (if pq(x) then [x] + Filter(rest, pq) else Filter(rest, pq));
      if p(x) {
        FilterOfCons(x, fp, q);
      }
    }
  }

  /** Filtering keeps input order: a concatenation filters part by part, so
      together with `FilterOfCons` on `[]` each element's place is fixed. */
  lemma {:induction false} FilterAppend<T(!new)>(s: seq<T>, t: seq<T>, p: T -> bool)
    ensures Filter(s + t, p) == Filter(s, p) + Filter(t, p)
  {
    if |s| > 0 {
      var x, rest := s[0], s[1..];
      assert s == [x] + rest;
      assert s + t == [x] + (rest + t);
      calc {
        Filter(s + t, p);
        { FilterOfCons(x, rest + t, p); }
        (if p(x) then [x] else []) + Filter(rest + t, p);
        { FilterAppend(rest, t, p); }
        (if p(x) then [x] else []) + (Filter(rest, p) + Filter(t, p));
        ((if p(x) then [x] else []) + Filter(rest, p)) + Filter(t, p);
        { FilterOfCons(x, rest, p); }
        Filter(s, p) + Filter(t, p);
      }
    } else {
      assert s + t == t;
    }
  }

  lemma FilterOfCons<T(!new)>(x: T, s: seq<T>, p: T -> bool)
    ensures Filter([x] + s, p) == (if p(x) then [x] + Filter(s, p) else Filter(s, p))
  {
    assert ([x] + s)[0] == x;
    assert ([x] + s)[1..] == s;
  }

  /** The elements of `s`, in order, whose key is `k`: one class of ties. */
  function WithKey<T>(s: seq<T>, key: T -> int, k: int): (r: seq<T>)
    ensures forall x | x in r :: key(x) == k
  {
    if |s| == 0 then []
    else (if key(s[0]) == k then [s[0]] else []) + WithKey(s[1..], key, k)
  }

  /** Non-decreasing keys along the whole sequence. */
  predicate Ascending<T>(s: seq<T>, key: T -> int)
  {
    forall i, j :: 0 <= i < j < |s| ==> key(s[i]) <= key(s[j])
  }

  /** Places `x` before the first element whose key is not smaller than its own. */
  function Insert<T>(x: T, s: seq<T>, key: T -> int): (r: seq<T>)
    requires Ascending(s, key)
    ensures multiset(r) == multiset(s) + multiset{x}
    ensures Ascending(r, key)
  {
    if |s| == 0 then [x]
    else if key(x) <= key(s[0]) then [x] + s
    else
      var t := Insert(x, s[1..], key);
      assert s == [s[0]] + s[1..];
      HeadBelowInserted(s, x, t, key);
      AscendingCons(s[0], t, key);
      [s[0]] + t
  }

  /** After the head, every key of the rest and `x` is at least the head's. */
  lemma HeadBelowInserted<T>(s: seq<T>, x: T, t: seq<T>, key: T -> int)
    requires |s| > 0 && Ascending(s, key) && key(s[0]) < key(x)
    requires multiset(t) == multiset(s[1..]) + multiset{x}
    ensures forall y | y in multiset(t) :: key(s[0]) <= key(y)
  {
    forall y | y in multiset(t) ensures key(s[0]) <= key(y) {
      if y != x {
        assert y in multiset(s[1..]);
        var j :| 0 <= j < |s[1..]| && s[1..][j] == y;
        assert s[j + 1] == y;
      }
    }
  }

  /** A head no larger than anything in an ascending tail keeps it ascending. */
  lemma AscendingCons<T>(h: T, t: seq<T>, key: T -> int)
    requires Ascending(t, key)
    requires forall y | y in multiset(t) :: key(h) <= key(y)
    ensures Ascending([h] + t, key)
  {
    var r := [h] + t;
    forall i, j | 0 <= i < j < |r| ensures key(r[i]) <= key(r[j]) {
      assert r[j] == t[j - 1];
      assert t[j - 1] in multiset(t);
      if i > 0 {
        assert r[i] == t[i - 1];
      }
    }
  }

  /** Two elements of which only the first passes. */
  lemma FilterPair<T(!new)>(a: T, b: T, p: T -> bool)
    requires p(a) && !p(b)
    ensures Filter([a, b], p) == [a]
  {
    assert [a, b] == [a] + [b];
    FilterOfCons(a, [b], p);
    assert [b] == [b] + [];
    FilterOfCons(b, [], p);
  }

  /** `[...s].sort(cmp)`: a stable ascending sort by `key` (insertion sort). */
  function SortBy<T>(s: seq<T>, key: T -> int): (r: seq<T>)
    ensures multiset(r) == multiset(s)
    ensures Ascending(r, key)
  {
    if |s| == 0 then []
    else
      assert s == [s[0]] + s[1..];
      Insert(s[0], SortBy(s[1..], key), key)
  }

  lemma {:induction false} InsertWithKey<T>(x: T, s: seq<T>, key: T -> int, k: int)
    requires Ascending(s, key)
    ensures WithKey(Insert(x, s, key), key, k) ==
            (if key(x) == k then [x] else []) + WithKey(s, key, k)
  {
    if |s| == 0 || key(x) <= key(s[0]) {
      InsertAtFront(x, s, key, k);
    } else {
      AscendingTail(s, key);
      InsertWithKey(x, s[1..], key, k);
      assert Insert(x, s, key) == [s[0]] + Insert(x, s[1..], key);
      assert s == [s[0]] + s[1..];
      ConsKeepsTies(s[0], x, Insert(x, s[1..], key), s[1..], key, k);
    }
  }

  /** Putting `h` in front of two sequences whose ties differ only by a leading `x`
      keeps that difference, provided `h` and `x` do not share a key. */
  lemma ConsKeepsTies<T>(h: T, x: T, t: seq<T>, rest: seq<T>, key: T -> int, k: int)
    requires key(x) != key(h)
    requires WithKey(t, key, k) == (if key(x) == k then [x] else []) + WithKey(rest, key, k)
    ensures WithKey([h] + t, key, k) == (if key(x) == k then [x] else []) + WithKey([h] + rest, key, k)
  {
    WithKeyOfCons(h, t, key, k);
    WithKeyOfCons(h, rest, key, k);
    if key(x) == k {
      assert (if key(h) == k then [h] else []) == [];
    } else {
      assert (if key(x) == k then [x] else []) == [];
    }
  }

  lemma InsertAtFront<T>(x: T, s: seq<T>, key: T -> int, k: int)
    requires Ascending(s, key) && (|s| == 0 || key(x) <= key(s[0]))
    ensures WithKey(Insert(x, s, key), key, k) ==
            (if key(x) == k then [x] else []) + WithKey(s, key, k)
  {
    assert Insert(x, s, key) == [x] + s;
    WithKeyOfCons(x, s, key, k);
  }

  lemma AscendingTail<T>(s: seq<T>, key: T -> int)
    requires Ascending(s, key) && |s| > 0
    ensures Ascending(s[1..], key)
  {
  }

  lemma WithKeyOfCons<T>(x: T, s: seq<T>, key: T -> int, k: int)
    ensures WithKey([x] + s, key, k) == (if key(x) == k then [x] else []) + WithKey(s, key, k)
  {
    assert ([x] + s)[0] == x;
    assert ([x] + s)[1..] == s;
  }

  /** Stability: among elements with equal keys, the sort keeps the input order. */
  lemma {:induction false} SortByStable<T>(s: seq<T>, key: T -> int, k: int)
    ensures WithKey(SortBy(s, key), key, k) == WithKey(s, key, k)
  {
    if |s| > 0 {
      SortByStable(s[1..], key, k);
      InsertWithKey(s[0], SortBy(s[1..], key), key, k);
    }
  }
}
