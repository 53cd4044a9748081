/** Sequence helpers shared by the modules: list comprehensions, the
    "first n entries, skip the bad ones" loop, sums, flattening and
    duplicate-freedom. */
module Seqs {
  import opened Wrappers

  /** Python's `[f(x) for x in s]`. */
  function MapSeq<A, B>(f: A -> B, s: seq<A>): (r: seq<B>)
    ensures |r| == |s|
    ensures forall i :: 0 <= i < |s| ==> r[i] == f(s[i])
  {
    seq(|s|, i requires 0 <= i < |s| => f(s[i]))
  }

  lemma MapSeqConcat<A, B>(f: A -> B, x: seq<A>, y: seq<A>)
    ensures MapSeq(f, x + y) == MapSeq(f, x) + MapSeq(f, y)
  {
  }

  /** `for x in xs[:limit]: if f(x) is not None: out.append(f(x))`. */
  function Collect<A, B(!new)>(xs: seq<A>, f: A -> Option<B>, limit: nat): (ys: seq<B>)
    ensures |ys| <= limit && |ys| <= |xs|
    ensures forall y :: y in ys <==> exists j :: 0 <= j < |xs| && j < limit && f(xs[j]) == Some(y)
    ensures forall i :: 0 <= i < |ys| ==> exists j :: 0 <= j < |xs| && j < limit && f(xs[j]) == Some(ys[i])
    decreases |xs|
  {
    if |xs| == 0 || limit == 0 then []
    else
      var rest := Collect(xs[1..], f, limit - 1);
      assert forall j :: 1 <= j < |xs| ==> xs[j] == xs[1..][j - 1];
      match f(xs[0])
      case Some(y) => [y] + rest
      case None => rest
  }

  /** Entries past the limit are never looked at. */
  lemma {:induction false} CollectTruncates<A, B(!new)>(xs: seq<A>, f: A -> Option<B>, limit: nat)
    requires limit <= |xs|
    ensures Collect(xs, f, limit) == Collect(xs[..limit], f, limit)
    decreases limit
  {
    if limit > 0 {
      var ys := xs[..limit];
      assert ys[1..] == xs[1..][..limit - 1];
      CollectTruncates(xs[1..], f, limit - 1);
      CollectSameHead(xs, ys, f, limit);
    }
  }

  /** `Collect` looks at the head and then at the tail, so inputs that agree
      there agree on the result. */
  lemma CollectSameHead<A, B(!new)>(xs: seq<A>, ys: seq<A>, f: A -> Option<B>, limit: nat)
    requires |xs| > 0 && |ys| > 0 && limit > 0 && xs[0] == ys[0]
    requires Collect(xs[1..], f, limit - 1) == Collect(ys[1..], f, limit - 1)
    ensures Collect(xs, f, limit) == Collect(ys, f, limit)
  {
  }

  /** A property every produced value has is had by every collected value. */
  lemma CollectKeeps<A, B(!new)>(xs: seq<A>, f: A -> Option<B>, limit: nat, p: B -> bool)
    requires forall x :: f(x).Some? ==> p(f(x).value)
    ensures forall i :: 0 <= i < |Collect(xs, f, limit)| ==> p(Collect(xs, f, limit)[i])
  {
    var ys := Collect(xs, f, limit);
    forall i | 0 <= i < |ys| ensures p(ys[i]) {
      var j :| 0 <= j < |xs| && j < limit && f(xs[j]) == Some(ys[i]);
    }
  }

  /** The positions of `xs` whose values `Collect` keeps, in the order it
      visits them. */
  function CollectIndices<A, B>(xs: seq<A>, f: A -> Option<B>, limit: nat): (idx: seq<nat>)
    ensures forall i :: 0 <= i < |idx| ==> idx[i] < |xs| && idx[i] < limit
    decreases |xs|
  {
    if |xs| == 0 || limit == 0 then []
    else
      var shifted := Shift(CollectIndices(xs[1..], f, limit - 1));
      if f(xs[0]).Some? then [0] + shifted else shifted
  }

  /** Every position one further on. */
  function Shift(s: seq<nat>): (r: seq<nat>)
    ensures |r| == |s| && forall i :: 0 <= i < |s| ==> r[i] == s[i] + 1
  {
    seq(|s|, i requires 0 <= i < |s| => s[i] + 1)
  }

  /** The kept positions are strictly increasing and include every usable
      position below the limit. */
  lemma {:induction false} CollectIndicesShape<A, B>(xs: seq<A>, f: A -> Option<B>, limit: nat)
    ensures forall i, j :: 0 <= i < j < |CollectIndices(xs, f, limit)| ==>
      CollectIndices(xs, f, limit)[i] < CollectIndices(xs, f, limit)[j]
    ensures forall k :: 0 <= k < |xs| && k < limit && f(xs[k]).Some? ==> k in CollectIndices(xs, f, limit)
    decreases |xs|
  {
    if |xs| > 0 && limit > 0 {
      CollectIndicesShape(xs[1..], f, limit - 1);
      var rest := CollectIndices(xs[1..], f, limit - 1);
      ShapeStep(xs, f, limit, CollectIndices(xs, f, limit), rest);
    }
  }

  /** The inductive step of `CollectIndicesShape`. */
  lemma ShapeStep<A, B>(xs: seq<A>, f: A -> Option<B>, limit: nat, idx: seq<nat>, rest: seq<nat>)
    requires |xs| > 0 && limit > 0
    requires forall i :: 0 <= i < |rest| ==> rest[i] < |xs| - 1
    requires forall i, j :: 0 <= i < j < |rest| ==> rest[i] < rest[j]
    requires forall k :: 0 <= k < |xs| - 1 && k < limit - 1 && f(xs[1..][k]).Some? ==> k in rest
    requires idx == if f(xs[0]).Some? then [0] + Shift(rest) else Shift(rest)
    ensures forall i, j :: 0 <= i < j < |idx| ==> idx[i] < idx[j]
    ensures forall k :: 0 <= k < |xs| && k < limit && f(xs[k]).Some? ==> k in idx
  {
    var shifted := Shift(rest);
    forall k | 1 <= k < |xs| && k < limit && f(xs[k]).Some? ensures k in shifted {
      assert xs[1..][k - 1] == xs[k];
      var m :| 0 <= m < |rest| && rest[m] == k - 1;
      assert shifted[m] == k;
    }
  }

  /** `Collect` keeps order and multiplicity: its i-th value is the value of
      the i-th kept position (see `CollectIndicesShape`). */
  lemma {:induction false} CollectInOrder<A, B(!new)>(xs: seq<A>, f: A -> Option<B>, limit: nat)
    ensures var idx := CollectIndices(xs, f, limit); var ys := Collect(xs, f, limit);
      |ys| == |idx| && forall i :: 0 <= i < |idx| ==> idx[i] < |xs| && f(xs[idx[i]]) == Some(ys[i])
    decreases |xs|
  {
    if |xs| > 0 && limit > 0 {
      CollectInOrder(xs[1..], f, limit - 1);
      AlignStep(xs, f, Collect(xs, f, limit), Collect(xs[1..], f, limit - 1),
                CollectIndices(xs, f, limit), CollectIndices(xs[1..], f, limit - 1));
    }
  }

  /** The inductive step of `CollectInOrder`: putting the head in front of
      an aligned tail keeps values and positions aligned. */
  lemma AlignStep<A, B>(xs: seq<A>, f: A -> Option<B>, ys: seq<B>, tys: seq<B>, idx: seq<nat>, rest: seq<nat>)
    requires |xs| > 0
    requires |tys| == |rest|
    requires forall i :: 0 <= i < |rest| ==> rest[i] < |xs| - 1 && f(xs[1..][rest[i]]) == Some(tys[i])
    requires f(xs[0]).Some? ==> ys == [f(xs[0]).value] + tys && idx == [0] + Shift(rest)
    requires f(xs[0]).None? ==> ys == tys && idx == Shift(rest)
    ensures |ys| == |idx|
    ensures forall i :: 0 <= i < |idx| ==> idx[i] < |xs| && f(xs[idx[i]]) == Some(ys[i])
  {
    var shifted := Shift(rest);
    assert forall i :: 0 <= i < |rest| ==> xs[shifted[i]] == xs[1..][rest[i]];
    if f(xs[0]).Some? {
      forall i | 1 <= i < |idx| ensures idx[i] < |xs| && f(xs[idx[i]]) == Some(ys[i]) {
        assert idx[i] == shifted[i - 1] && ys[i] == tys[i - 1];
      }
    }
  }

  function Sum(s: seq<int>): int
    decreases |s|
  {
    if |s| == 0 then 0 else Sum(s[..|s| - 1]) + s[|s| - 1]
  }

  lemma {:induction false} SumConcat(a: seq<int>, b: seq<int>)
    ensures Sum(a + b) == Sum(a) + Sum(b)
    decreases |b|
  {
    if |b| == 0 {
      assert a + b == a;
    } else {
      assert (a + b)[..|a + b| - 1] == a + b[..|b| - 1];
      SumConcat(a, b[..|b| - 1]);
    }
  }

  /** Python's `[x for chunk in chunks for x in chunk]`. */
  function Flatten<T>(chunks: seq<seq<T>>): seq<T>
    decreases |chunks|
  {
    if |chunks| == 0 then [] else chunks[0] + Flatten(chunks[1..])
  }

  /** The pieces `row` gives for each element, one after another:
      `[y for x in xs for y in row(x)]`. */
  function ConcatMap<T, C>(xs: seq<T>, row: T -> seq<C>): seq<C>
    decreases |xs|
  {
    if |xs| == 0 then [] else row(xs[0]) + ConcatMap(xs[1..], row)
  }

  lemma ConcatMapSingle<T, C>(x: T, row: T -> seq<C>)
    ensures ConcatMap([x], row) == row(x)
  {
    assert [x][1..] == [];
    assert row(x) + [] == row(x);
  }

  lemma {:induction false} ConcatMapAppend<T, C>(xs: seq<T>, ys: seq<T>, row: T -> seq<C>)
    ensures ConcatMap(xs + ys, row) == ConcatMap(xs, row) + ConcatMap(ys, row)
    decreases |xs|
  {
    if |xs| == 0 {
      assert xs + ys == ys;
    } else {
      assert (xs + ys)[1..] == xs[1..] + ys;
      ConcatMapAppend(xs[1..], ys, row);
    }
  }

  predicate NoDup<T(==)>(s: seq<T>) {
    forall i, j :: 0 <= i < j < |s| ==> s[i] != s[j]
  }

  /** A sequence repeats nothing exactly when its multiset counts every value
      at most once. */
  lemma {:induction false} NoDupMultiset<T>(s: seq<T>)
    ensures NoDup(s) <==> forall x :: multiset(s)[x] <= 1
    decreases |s|
  {
    if |s| > 0 {
      var rest := s[1..];
      assert s == [s[0]] + rest;
      NoDupMultiset(rest);
      if NoDup(s) {
        assert NoDup(rest) by {
          forall i, j | 0 <= i < j < |rest| ensures rest[i] != rest[j] {
            assert rest[i] == s[i + 1] && rest[j] == s[j + 1];
          }
        }
        forall j | 0 <= j < |rest| ensures rest[j] != s[0] {
          assert rest[j] == s[j + 1];
        }
        assert multiset(rest)[s[0]] == 0;
      }
      if forall x :: multiset(s)[x] <= 1 {
        assert multiset(s)[s[0]] == multiset(rest)[s[0]] + 1;
        assert forall x :: multiset(rest)[x] <= multiset(s)[x];
        forall i, j | 0 <= i < j < |s| ensures s[i] != s[j] {
          if i == 0 {
            assert rest[j - 1] == s[j];
            assert multiset(rest)[s[0]] == 0;
            assert s[j] in multiset(rest);
          } else {
            assert rest[i - 1] == s[i] && rest[j - 1] == s[j];
          }
        }
      }
    }
  }

  /** Permuting a duplicate-free sequence keeps it duplicate-free. */
  lemma NoDupPermutation<T>(s: seq<T>, t: seq<T>)
    requires multiset(s) == multiset(t)
    requires NoDup(s)
    ensures NoDup(t)
  {
    NoDupMultiset(s);
    NoDupMultiset(t);
  }
}
