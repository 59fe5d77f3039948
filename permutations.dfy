/** Axis permutations, and the invariance of element counts and sums under them. */
module Permutations {
  import opened Common

  /** Every entry of `p` is a valid index into a sequence of length `n`. */
  predicate Indices(p: seq<int>, n: nat)
  {
    forall i :: 0 <= i < |p| ==> 0 <= p[i] < n
  }

  predicate Distinct(p: seq<int>)
  {
    forall i, j :: 0 <= i < j < |p| ==> p[i] != p[j]
  }

  /** `p` lists every axis in [0, n) exactly once. */
  predicate IsPermutation(p: seq<int>, n: nat)
  {
    |p| == n && Indices(p, n) && Distinct(p)
  }

  /** `s` read through `p`: element `i` of the result is `s[p[i]]`. */
  function Permute<T>(s: seq<T>, p: seq<int>): seq<T>
    requires Indices(p, |s|)
  {
    seq(|p|, i requires 0 <= i < |p| => s[p[i]])
  }

  function Sum(s: seq<nat>): nat
  {
    if |s| == 0 then 0 else s[0] + Sum(s[1..])
  }

  // ---------------------------------------------------------------------------
  // A permutation of [0, n) covers [0, n)
  // ---------------------------------------------------------------------------

  function Range(n: nat): (r: set<int>)
    ensures forall x :: x in r <==> 0 <= x < n
    ensures |r| == n
  {
    if n == 0 then {} else
      assert n - 1 !in Range(n - 1);
      Range(n - 1) + {n - 1}
  }

  function Elements(p: seq<int>): set<int>
  {
    set i | 0 <= i < |p| :: p[i]
  }

  lemma {:induction false} DistinctCard(p: seq<int>)
    requires Distinct(p)
    ensures |Elements(p)| == |p|
  {
    if |p| > 0 {
      var k := |p| - 1;
      var front := p[..k];
      assert Elements(p) == Elements(front) + {p[k]};
      assert p[k] !in Elements(front);
      DistinctCard(front);
    }
  }

  lemma StrictSubsetCard(a: set<int>, b: set<int>, j: int)
    requires a <= b && j in b && j !in a
    ensures |a| < |b|
  {
    assert b == a + (b - a);
    assert a * (b - a) == {};
    assert j in b - a;
  }

  /** Pigeonhole: `n` distinct entries below `n` include every axis below `n`. */
  lemma Covers(p: seq<int>, n: nat, j: int)
    requires IsPermutation(p, n) && 0 <= j < n
    ensures j in p
  {
    if j !in p {
      assert Elements(p) <= Range(n);
      assert j !in Elements(p);
      StrictSubsetCard(Elements(p), Range(n), j);
      DistinctCard(p);
    }
  }

  /** The first position of `j` in `p`. */
  function Position<T(==)>(p: seq<T>, j: T): (r: nat)
    requires j in p
    ensures r < |p| && p[r] == j
    ensures forall i :: 0 <= i < r ==> p[i] != j
  {
    if p[0] == j then 0 else 1 + Position(p[1..], j)
  }

  /** The inverse permutation: entry `j` is the position of axis `j`. */
  function Inverse(p: seq<int>, n: nat): (q: seq<int>)
    requires IsPermutation(p, n)
    ensures IsPermutation(q, n)
    ensures forall i :: 0 <= i < n ==> q[p[i]] == i
    ensures forall j :: 0 <= j < n ==> p[q[j]] == j
  {
    var q := seq(n, j requires 0 <= j < n => Covers(p, n, j); Position(p, j) as int);
    assert forall i :: 0 <= i < n ==> q[p[i]] == i by {
      forall i | 0 <= i < n ensures q[p[i]] == i {
        var r := Position(p, p[i]);
        assert r == i by {
          if r < i {} else if r > i {}
        }
      }
    }
    q
  }

  // ---------------------------------------------------------------------------
  // Reordering preserves the multiset, hence sums and products
  // ---------------------------------------------------------------------------

  /** Removing the entry at `k` from a permutation of [0, n) whose entry there
      is the largest axis leaves a permutation of [0, n - 1). */
  lemma RemoveLast(p: seq<int>, n: nat, k: nat)
    requires IsPermutation(p, n) && k < n && p[k] == n - 1
    ensures IsPermutation(p[..k] + p[k + 1..], n - 1)
  {
    var r := p[..k] + p[k + 1..];
    forall i | 0 <= i < |r| ensures 0 <= r[i] < n - 1 {
      if i < k { assert r[i] == p[i]; } else { assert r[i] == p[i + 1]; }
    }
    forall i, j | 0 <= i < j < |r| ensures r[i] != r[j] {
      var i', j' := if i < k then i else i + 1, if j < k then j else j + 1;
      assert r[i] == p[i'] && r[j] == p[j'];
    }
  }

  lemma {:induction false} PermuteMultiset<T>(s: seq<T>, p: seq<int>)
    requires IsPermutation(p, |s|)
    ensures multiset(Permute(s, p)) == multiset(s)
    decreases |s|
  {
    var n := |s|;
    if n > 0 {
      Covers(p, n, n - 1);
      var k := Position(p, n - 1);
      var t := Permute(s, p);
      var p' := p[..k] + p[k + 1..];
      RemoveLast(p, n, k);
      var s' := s[..n - 1];
      var t' := Permute(s', p');
      assert t == t[..k] + [s[n - 1]] + t[k + 1..];
      assert t' == t[..k] + t[k + 1..] by {
        forall i | 0 <= i < |t'| ensures t'[i] == (t[..k] + t[k + 1..])[i] {
          if i < k { assert p'[i] == p[i]; } else { assert p'[i] == p[i + 1]; }
        }
      }
      PermuteMultiset(s', p');
      assert s == s' + [s[n - 1]];
    }
  }

  lemma {:induction false} SumConcat(a: seq<nat>, b: seq<nat>)
    ensures Sum(a + b) == Sum(a) + Sum(b)
  {
    if |a| > 0 {
      assert (a + b)[1..] == a[1..] + b;
      SumConcat(a[1..], b);
    } else {
      assert a + b == b;
    }
  }

  lemma {:induction false} ProductConcat(a: seq<nat>, b: seq<nat>)
    ensures Product(a + b) == Product(a) * Product(b)
  {
    var s := a + b;
    ProductSplit(s, |a|);
    assert s[..|a|] == a && s[|a|..] == b;
  }

  /** Finds `a[0]` in `b`; what is left of `b` has the multiset of `a[1..]`. */
  lemma Extract(a: seq<nat>, b: seq<nat>) returns (k: nat)
    requires |a| > 0 && multiset(a) == multiset(b)
    ensures k < |b| && b[k] == a[0]
    ensures multiset(a[1..]) == multiset(b[..k] + b[k + 1..])
  {
    assert a[0] in multiset(b);
    k := Position(b, a[0]);
    var rest := b[..k] + b[k + 1..];
    assert a == [a[0]] + a[1..];
    assert b == b[..k] + [b[k]] + b[k + 1..];
    assert multiset(b) == multiset(rest) + multiset{a[0]};
    assert multiset(a) == multiset(a[1..]) + multiset{a[0]};
    assert multiset(rest) == multiset(b) - multiset{a[0]};
    assert multiset(a[1..]) == multiset(a) - multiset{a[0]};
  }

  lemma {:induction false} SumMultiset(a: seq<nat>, b: seq<nat>)
    requires multiset(a) == multiset(b)
    ensures Sum(a) == Sum(b)
    decreases |a|
  {
    if |a| == 0 {
      assert |b| == |multiset(b)| == 0;
    } else {
      var k := Extract(a, b);
      var front, back := b[..k], b[k + 1..];
      SumMultiset(a[1..], front + back);
      assert b == front + ([b[k]] + back);
      SumConcat(front, [b[k]] + back);
      SumConcat(front, back);
      assert Sum([b[k]] + back) == b[k] + Sum(back);
    }
  }

  lemma {:induction false} ProductMultiset(a: seq<nat>, b: seq<nat>)
    requires multiset(a) == multiset(b)
    ensures Product(a) == Product(b)
    decreases |a|
  {
    if |a| == 0 {
      assert |b| == |multiset(b)| == 0;
    } else {
      var k := Extract(a, b);
      var front, back := b[..k], b[k + 1..];
      ProductMultiset(a[1..], front + back);
      assert b == front + ([b[k]] + back);
      ProductConcat(front, [b[k]] + back);
      ProductConcat(front, back);
      assert ([b[k]] + back)[1..] == back;
      MulRotate(b[k], Product(front), Product(back));
    }
  }

  lemma MulRotate(x: nat, f: nat, g: nat)
    ensures f * (x * g) == x * (f * g)
  {
  }

  /** Reordering the dims of a shape does not change its element count. */
  lemma ProductPermute(s: seq<nat>, p: seq<int>)
    requires IsPermutation(p, |s|)
    ensures Product(Permute(s, p)) == Product(s)
  {
    PermuteMultiset(s, p);
    ProductMultiset(Permute(s, p), s);
  }

  /** Reordering the terms of a sum does not change it. */
  lemma SumPermute(s: seq<nat>, p: seq<int>)
    requires IsPermutation(p, |s|)
    ensures Sum(Permute(s, p)) == Sum(s)
  {
    PermuteMultiset(s, p);
    SumMultiset(Permute(s, p), s);
  }
}
