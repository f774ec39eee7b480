/** Facts about sequences shared by the components: subsequences,
    de-duplication that keeps first occurrences, and distinctness. */
module Seqs {

  /** No element occurs twice. */
  predicate Distinct<T(==)>(xs: seq<T>) {
    forall i, j :: 0 <= i < j < |xs| ==> xs[i] != xs[j]
  }

  /** `a` is obtained from `b` by deleting elements, the rest kept in order. */
  predicate Subseq<T(==)>(a: seq<T>, b: seq<T>)
    decreases |b|
  {
    if a == [] then true
    else if b == [] then false
    else (a[|a| - 1] == b[|b| - 1] && Subseq(a[..|a| - 1], b[..|b| - 1])) || Subseq(a, b[..|b| - 1])
  }

  lemma AppendAssoc<T>(a: seq<T>, b: seq<T>, c: seq<T>)
    ensures a + (b + c) == (a + b) + c
  {
  }

  /** An element of a concatenation comes from one of its parts. */
  lemma InConcat<T>(a: seq<T>, b: seq<T>, x: T)
    requires x in a + b
    ensures x in a || x in b
  {
    var k :| 0 <= k < |a + b| && (a + b)[k] == x;
    if k >= |a| {
      assert b[k - |a|] == x;
    }
  }

  lemma {:induction false} SubseqRefl<T>(a: seq<T>)
    ensures Subseq(a, a)
    decreases |a|
  {
    if a != [] {
      SubseqRefl(a[..|a| - 1]);
    }
  }

  /** A subsequence stays one when an element is appended to the longer
      sequence, or to both. */
  lemma SubseqSnoc<T>(a: seq<T>, b: seq<T>, x: T)
    requires Subseq(a, b)
    ensures Subseq(a, b + [x]) && Subseq(a + [x], b + [x])
  {
    assert (b + [x])[..|b|] == b;
    assert (a + [x])[..|a|] == a;
  }

  lemma {:induction false} SubseqMembers<T>(a: seq<T>, b: seq<T>)
    requires Subseq(a, b)
    ensures forall x :: x in a ==> x in b
    decreases |b|
  {
    if a != [] && b != [] {
      var a', b' := a[..|a| - 1], b[..|b| - 1];
      assert b == b' + [b[|b| - 1]];
      if a[|a| - 1] == b[|b| - 1] && Subseq(a', b') {
        SubseqMembers(a', b');
        assert a == a' + [a[|a| - 1]];
      } else {
        SubseqMembers(a, b');
      }
    }
  }

  /** Index of the first occurrence of `x`. */
  function FirstIndex<T(==)>(xs: seq<T>, x: T): (k: nat)
    requires x in xs
    ensures k < |xs| && xs[k] == x && x !in xs[..k]
  {
    if xs[0] == x then 0 else 1 + FirstIndex(xs[1..], x)
  }

  lemma FirstIndexSnoc<T>(xs: seq<T>, y: T, x: T)
    requires x in xs + [y]
    ensures x in xs ==> FirstIndex(xs + [y], x) == FirstIndex(xs, x)
    ensures x !in xs ==> FirstIndex(xs + [y], x) == |xs|
  {
    var k := FirstIndex(xs + [y], x);
    if x in xs {
      var j := FirstIndex(xs, x);
      assert (xs + [y])[j] == x;
      assert x !in xs[..k] by {
        if k <= |xs| {
          assert (xs + [y])[..k] == xs[..k];
        }
      }
    } else {
      assert (xs + [y])[..k] == xs[..k] || k == |xs|;
    }
  }

  /** Python's "append unless already present" fold: first occurrences, in order. */
  function Dedup<T(==)>(xs: seq<T>): (r: seq<T>)
    ensures Distinct(r)
    ensures |r| <= |xs|
  {
    if xs == [] then []
    else
      var init, last := xs[..|xs| - 1], xs[|xs| - 1];
      assert xs == init + [last];
      var d := Dedup(init);
      if last in d then d else d + [last]
  }

  /** Dedup drops repeats only: it holds exactly the values of its input. */
  lemma {:induction false} DedupHas<T>(xs: seq<T>, x: T)
    ensures x in Dedup(xs) <==> x in xs
    decreases |xs|
  {
    if xs != [] {
      var init, last := xs[..|xs| - 1], xs[|xs| - 1];
      assert xs == init + [last];
      DedupHas(init, x);
      DedupHas(init, last);
    }
  }

  lemma DedupSnoc<T>(xs: seq<T>, x: T)
    ensures Dedup(xs + [x]) == if x in xs then Dedup(xs) else Dedup(xs) + [x]
  {
    assert (xs + [x])[..|xs|] == xs;
    DedupHas(xs, x);
  }

  /** `a` and `b` both occur in `xs`, and `a` first occurs before `b` does. */
  predicate SeenBefore<T(==)>(xs: seq<T>, a: T, b: T) {
    a in xs && b in xs && FirstIndex(xs, a) < FirstIndex(xs, b)
  }

  /** Dedup keeps the first occurrence of each value, in the order those
      first occurrences appear in the input. */
  lemma {:induction false} DedupFirstSeen<T>(xs: seq<T>)
    ensures forall i, j :: 0 <= i < j < |Dedup(xs)| ==> SeenBefore(xs, Dedup(xs)[i], Dedup(xs)[j])
    decreases |xs|
  {
    if xs != [] {
      var init, last := xs[..|xs| - 1], xs[|xs| - 1];
      assert xs == init + [last];
      DedupFirstSeen(init);
      var d, r := Dedup(init), Dedup(xs);
      DedupHas(init, last);
      forall i, j | 0 <= i < j < |r|
        ensures SeenBefore(xs, r[i], r[j])
      {
        DedupHas(xs, r[i]);
        DedupHas(xs, r[j]);
        assert r[i] in d;
        DedupHas(init, r[i]);
        FirstIndexSnoc(init, last, r[i]);
        FirstIndexSnoc(init, last, r[j]);
        if j >= |d| {
          assert r[j] == last && last !in init;
        } else {
          DedupHas(init, r[j]);
        }
      }
    }
  }

  lemma {:induction false} DedupSubseq<T>(xs: seq<T>)
    ensures Subseq(Dedup(xs), xs)
    decreases |xs|
  {
    if xs != [] {
      var init, last := xs[..|xs| - 1], xs[|xs| - 1];
      assert xs == init + [last];
      DedupSubseq(init);
      var d := Dedup(init);
      if last !in d {
        assert (d + [last])[..|d|] == d;
      } else {
        assert Subseq(d, xs[..|xs| - 1]);
        assert Dedup(xs) == d;
        if d != [] {
          assert Subseq(d, xs);
        }
      }
    }
  }

  lemma {:induction false} DedupOfDistinct<T>(xs: seq<T>)
    requires Distinct(xs)
    ensures Dedup(xs) == xs
    decreases |xs|
  {
    if xs != [] {
      var init := xs[..|xs| - 1];
      assert Distinct(init);
      DedupOfDistinct(init);
      assert xs[|xs| - 1] !in init;
      assert xs == init + [xs[|xs| - 1]];
    }
  }

  /** Concatenation of a sequence of sequences. */
  function Flatten<T>(xss: seq<seq<T>>): (r: seq<T>)
  {
    if xss == [] then [] else Flatten(xss[..|xss| - 1]) + xss[|xss| - 1]
  }

  /** Distinct sequences are exactly those in which each value has multiplicity at most one. */
  lemma {:induction false} DistinctMultiset<T>(xs: seq<T>)
    ensures Distinct(xs) <==> forall x :: multiset(xs)[x] <= 1
    decreases |xs|
  {
    if xs != [] {
      var init, last := xs[..|xs| - 1], xs[|xs| - 1];
      assert xs == init + [last];
      DistinctMultiset(init);
      if Distinct(xs) {
        assert Distinct(init) && last !in init;
        forall x ensures multiset(xs)[x] <= 1 {
          assert multiset(xs)[x] == multiset(init)[x] + multiset{last}[x];
        }
      }
      if forall x :: multiset(xs)[x] <= 1 {
        forall x ensures multiset(init)[x] <= 1 {
          assert multiset(xs)[x] == multiset(init)[x] + multiset{last}[x];
        }
        assert multiset(xs)[last] == multiset(init)[last] + 1;
        assert last !in init;
        forall i, j | 0 <= i < j < |xs| ensures xs[i] != xs[j] {
          if j == |xs| - 1 {
            assert xs[i] in init;
          } else {
            assert init[i] != init[j];
          }
        }
      }
    }
  }

  lemma DistinctPermutation<T>(xs: seq<T>, ys: seq<T>)
    requires Distinct(xs) && multiset(xs) == multiset(ys)
    ensures Distinct(ys)
  {
    DistinctMultiset(xs);
    DistinctMultiset(ys);
  }

  /** A subset is no larger. */
  lemma {:induction false} SubsetCard<T>(a: set<T>, b: set<T>)
    requires a <= b
    ensures |a| <= |b|
    decreases a
  {
    if a != {} {
      var x :| x in a;
      SubsetCard(a - {x}, b - {x});
    }
  }
}
