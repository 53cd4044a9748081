/** Sorting as the source uses it: Python's stable `sort`/`sorted`, given as a
    "comes strictly before" relation, and the code-point order on strings
    that `sorted()` applies to a list of `str`. */
module Ordering {
  import opened Seqs

  /** No element is preceded by one that `before` says should come after it. */
  predicate SortedBy<T>(s: seq<T>, before: (T, T) -> bool) {
    forall i, j :: 0 <= i < j < |s| ==> !before(s[j], s[i])
  }

  /** `before` is asymmetric and its complement is transitive: the shape of
      every ordering by a key tuple, with or without ties. */
  ghost predicate StrictWeakOrder<T(!new)>(before: (T, T) -> bool) {
    && (forall a, b :: before(a, b) ==> !before(b, a))
    && (forall a, b, c :: !before(a, b) && !before(b, c) ==> !before(a, c))
  }

  /** Any two distinct values are ordered one way or the other. */
  ghost predicate Total<T(!new)>(before: (T, T) -> bool) {
    forall a, b :: a != b ==> before(a, b) || before(b, a)
  }

  /** Places `x` ahead of the first element that does not come strictly
      before it. */
  function Insert<T>(x: T, r: seq<T>, before: (T, T) -> bool): (out: seq<T>)
    ensures multiset(out) == multiset(r) + multiset{x}
    decreases |r|
  {
    if |r| > 0 && before(r[0], x) then
      assert r == [r[0]] + r[1..];
      [r[0]] + Insert(x, r[1..], before)
    else
      [x] + r
  }

  /** Insertion sort. Elements that tie keep their input order, as in
      Python's stable sort. */
  function SortBy<T>(s: seq<T>, before: (T, T) -> bool): (r: seq<T>)
    ensures multiset(r) == multiset(s)
    ensures |r| == |s|
    decreases |s|
  {
    if |s| == 0 then []
    else
      assert s == [s[0]] + s[1..];
      Insert(s[0], SortBy(s[1..], before), before)
  }

  lemma {:induction false} InsertSorted<T(!new)>(x: T, r: seq<T>, before: (T, T) -> bool)
    requires StrictWeakOrder(before)
    requires SortedBy(r, before)
    ensures SortedBy(Insert(x, r, before), before)
    decreases |r|
  {
    var out := Insert(x, r, before);
    if |r| > 0 && before(r[0], x) {
      var rest := Insert(x, r[1..], before);
      InsertSorted(x, r[1..], before);
      forall j | 0 <= j < |rest| ensures !before(rest[j], r[0]) {
        assert rest[j] in multiset(rest);
        if rest[j] != x {
          assert rest[j] in multiset(r[1..]);
          var k :| 0 <= k < |r[1..]| && r[1..][k] == rest[j];
          assert r[k + 1] == rest[j];
        }
      }
      assert out == [r[0]] + rest;
    } else {
      forall j | 0 < j < |r| ensures !before(r[j], x) {
        assert !before(r[j], r[0]);
      }
    }
  }

  /** The sort returns its input ordered by `before`. */
  lemma {:induction false} SortBySorted<T(!new)>(s: seq<T>, before: (T, T) -> bool)
    requires StrictWeakOrder(before)
    ensures SortedBy(SortBy(s, before), before)
    decreases |s|
  {
    if |s| > 0 {
      SortBySorted(s[1..], before);
      InsertSorted(s[0], SortBy(s[1..], before), before);
    }
  }

  /** A sequence already in order comes back unchanged: in particular,
      elements that tie are never reordered. */
  lemma {:induction false} SortByKeepsSorted<T>(s: seq<T>, before: (T, T) -> bool)
    requires SortedBy(s, before)
    ensures SortBy(s, before) == s
    decreases |s|
  {
    if |s| > 0 {
      assert SortedBy(s[1..], before) by {
        forall i, j | 0 <= i < j < |s[1..]| ensures !before(s[1..][j], s[1..][i]) {
          assert s[1..][j] == s[j + 1] && s[1..][i] == s[i + 1];
        }
      }
      SortByKeepsSorted(s[1..], before);
      if |s| > 1 {
        assert !before(s[1], s[0]);
        assert s[1..][0] == s[1];
      }
      assert s == [s[0]] + s[1..];
    }
  }

  /** The tail of a sorted sequence is sorted. */
  lemma SortedTail<T>(a: seq<T>, before: (T, T) -> bool)
    requires |a| > 0 && SortedBy(a, before)
    ensures SortedBy(a[1..], before)
  {
    forall i, j | 0 <= i < j < |a[1..]| ensures !before(a[1..][j], a[1..][i]) {
      assert a[1..][j] == a[j + 1] && a[1..][i] == a[i + 1];
    }
  }

  /** Two sorted arrangements of one multiset start with the same element
      under a total order. */
  lemma SortedHeads<T(!new)>(a: seq<T>, b: seq<T>, before: (T, T) -> bool)
    requires StrictWeakOrder(before) && Total(before)
    requires SortedBy(a, before) && SortedBy(b, before)
    requires |a| > 0 && multiset(a) == multiset(b)
    ensures |b| > 0 && a[0] == b[0]
  {
    assert a[0] in multiset(b);
    var k :| 0 <= k < |b| && b[k] == a[0];
    assert b[0] in multiset(a);
    var m :| 0 <= m < |a| && a[m] == b[0];
    assert !before(b[0], a[0]) by { assert a[m] == b[0]; }
    assert !before(a[0], b[0]) by { assert b[k] == a[0]; }
  }

  /** Under a total order there is only one sorted arrangement of a multiset. */
  lemma {:induction false} SortedUnique<T(!new)>(a: seq<T>, b: seq<T>, before: (T, T) -> bool)
    requires StrictWeakOrder(before) && Total(before)
    requires SortedBy(a, before) && SortedBy(b, before)
    requires multiset(a) == multiset(b)
    ensures a == b
    decreases |a|
  {
    if |a| == 0 {
      assert |b| == |multiset(b)| == 0;
    } else {
      SortedHeads(a, b, before);
      SortedTail(a, before);
      SortedTail(b, before);
      TailMultiset(a);
      TailMultiset(b);
      SortedUnique(a[1..], b[1..], before);
      SameHeadAndTail(a, b);
    }
  }

  lemma TailMultiset<T>(a: seq<T>)
    requires |a| > 0
    ensures multiset(a[1..]) == multiset(a) - multiset{a[0]}
  {
    assert a == [a[0]] + a[1..];
  }

  lemma SameHeadAndTail<T>(a: seq<T>, b: seq<T>)
    requires |a| > 0 && |b| > 0 && a[0] == b[0] && a[1..] == b[1..]
    ensures a == b
  {
    assert a == [a[0]] + a[1..];
    assert b == [b[0]] + b[1..];
  }

  /** Sorting depends only on the multiset of its input. */
  lemma SortByPermutation<T(!new)>(s: seq<T>, t: seq<T>, before: (T, T) -> bool)
    requires StrictWeakOrder(before) && Total(before)
    requires multiset(s) == multiset(t)
    ensures SortBy(s, before) == SortBy(t, before)
  {
    SortBySorted(s, before);
    SortBySorted(t, before);
    SortedUnique(SortBy(s, before), SortBy(t, before), before);
  }

  /** Python's `<` on `str`: code-point lexicographic order, a proper prefix
      first. */
  predicate StrLess(a: string, b: string)
    decreases |a|
  {
    if |a| == 0 then |b| > 0
    else if |b| == 0 then false
    else if a[0] != b[0] then a[0] < b[0]
    else StrLess(a[1..], b[1..])
  }

  lemma {:induction false} StrLessAsymmetric(a: string, b: string)
    ensures StrLess(a, b) ==> !StrLess(b, a)
    decreases |a|
  {
    if |a| > 0 && |b| > 0 && a[0] == b[0] {
      StrLessAsymmetric(a[1..], b[1..]);
    }
  }

  lemma {:induction false} StrLessTransitive(a: string, b: string, c: string)
    ensures StrLess(a, b) && StrLess(b, c) ==> StrLess(a, c)
    decreases |a|
  {
    if |a| > 0 && |b| > 0 && |c| > 0 && a[0] == b[0] && b[0] == c[0] {
      StrLessTransitive(a[1..], b[1..], c[1..]);
    }
  }

  lemma {:induction false} StrLessTotal(a: string, b: string)
    ensures a != b ==> StrLess(a, b) || StrLess(b, a)
    decreases |a|
  {
    if |a| > 0 && |b| > 0 && a[0] == b[0] {
      StrLessTotal(a[1..], b[1..]);
      if a[1..] == b[1..] {
        assert a == [a[0]] + a[1..] && b == [b[0]] + b[1..];
      }
    }
  }

  /** Code-point order on strings is a strict total order. */
  lemma StrLessIsTotalOrder()
    ensures StrictWeakOrder(StrLess)
    ensures Total(StrLess)
  {
    forall a, b | StrLess(a, b) ensures !StrLess(b, a) {
      StrLessAsymmetric(a, b);
    }
    forall a, b, c | !StrLess(a, b) && !StrLess(b, c) ensures !StrLess(a, c) {
      StrLessTotal(a, b);
      StrLessTotal(b, c);
      StrLessTransitive(c, b, a);
      if a == b {
      } else if b == c {
      } else {
        StrLessAsymmetric(a, c);
      }
    }
    forall a, b | a != b ensures StrLess(a, b) || StrLess(b, a) {
      StrLessTotal(a, b);
    }
  }

  /** Removing the element at position `k` removes one copy of it. */
  lemma RemoveAt<A>(t: seq<A>, k: nat)
    requires k < |t|
    ensures multiset(t[..k] + t[k + 1..]) == multiset(t) - multiset{t[k]}
  {
    assert t == t[..k] + [t[k]] + t[k + 1..];
  }

  /** The mapped multiset splits at position `k` of the input. */
  lemma MapSeqSplitAt<A, B>(f: A -> B, t: seq<A>, k: nat)
    requires k < |t|
    ensures multiset(MapSeq(f, t)) == multiset(MapSeq(f, t[..k] + t[k + 1..])) + multiset{f(t[k])}
  {
    var before, after := t[..k], t[k + 1..];
    assert t == before + [t[k]] + after;
    MapSeqConcat(f, before + [t[k]], after);
    MapSeqConcat(f, before, [t[k]]);
    MapSeqConcat(f, before, after);
    assert MapSeq(f, [t[k]]) == [f(t[k])];
  }

  /** Matching the head of `s` with position `k` of `t` reduces the
      mapped permutation to the rest of both. */
  lemma MapSeqMatch<A, B>(f: A -> B, s: seq<A>, t: seq<A>, k: nat)
    requires |s| > 0 && k < |t| && t[k] == s[0]
    requires multiset(MapSeq(f, s[1..])) == multiset(MapSeq(f, t[..k] + t[k + 1..]))
    ensures multiset(MapSeq(f, s)) == multiset(MapSeq(f, t))
  {
    MapSeqSplitAt(f, t, k);
    MapSeqCons(f, s);
  }

  lemma MapSeqCons<A, B>(f: A -> B, s: seq<A>)
    requires |s| > 0
    ensures multiset(MapSeq(f, s)) == multiset(MapSeq(f, s[1..])) + multiset{f(s[0])}
  {
    assert s == [s[0]] + s[1..];
    MapSeqConcat(f, [s[0]], s[1..]);
    assert MapSeq(f, [s[0]]) == [f(s[0])];
  }

  lemma {:induction false} MapSeqPermutation<A, B>(f: A -> B, s: seq<A>, t: seq<A>)
    requires multiset(s) == multiset(t)
    ensures multiset(MapSeq(f, s)) == multiset(MapSeq(f, t))
    decreases |s|
  {
    if |s| == 0 {
      assert |t| == |multiset(t)| == 0;
    } else {
      assert s[0] in multiset(t);
      var k :| 0 <= k < |t| && t[k] == s[0];
      RemoveAt(t, k);
      TailMultiset(s);
      MapSeqPermutation(f, s[1..], t[..k] + t[k + 1..]);
      MapSeqMatch(f, s, t, k);
    }
  }
}
