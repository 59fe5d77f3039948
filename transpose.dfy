/** The Transpose operator: its permutation attribute and its shape inference. */
module TransposeOp {
  import opened Common
  import opened Permutations

  function Identity(rank: nat): (p: seq<int>)
    ensures IsPermutation(p, rank)
  {
    seq(rank, i requires 0 <= i < rank => i)
  }

  /** The permutation the constructor stores: the identity of the input's rank
      when none is given, otherwise the given one, whose length must be the rank. */
  method StoredPermutation(rank: nat, permute: seq<int>) returns (r: Result<seq<int>>)
    ensures |permute| == 0 ==> r == Ok(Identity(rank))
    ensures |permute| > 0 && |permute| == rank ==> r == Ok(permute)
    ensures |permute| > 0 && |permute| != rank ==> r == Err(AssertFailed)
  {
    if |permute| == 0 {
      var p: seq<int> := [];
      var i := 0;
      while i < rank
        invariant 0 <= i <= rank && p == Identity(i)
      {
        p := p + [i];
        i := i + 1;
      }
      return Ok(p);
    }
    if rank != |permute| {
      return Err(AssertFailed);
    }
    return Ok(permute);
  }

  /** The identity permutation leaves every shape unchanged. */
  lemma IdentityKeepsShape(s: seq<nat>)
    ensures Permute(s, Identity(|s|)) == s
  {
  }

  /** inferShape: the permutation must have the input's rank and list every axis
      once; output dim `i` is input dim `perm[i]`. */
  method InferShape(input: seq<nat>, perm: seq<int>) returns (r: Result<seq<nat>>)
    ensures r.Ok? <==> IsPermutation(perm, |input|)
    ensures r.Ok? ==> r.value == Permute(input, perm)
    ensures r.Err? ==> r.failure == AssertFailed
  {
    var rank := |input|;
    if |perm| != rank {
      return Err(AssertFailed);
    }
    var used := new bool[rank](_ => false);
    var i := 0;
    while i < rank
      invariant 0 <= i <= rank
      invariant forall j :: 0 <= j < i ==> 0 <= perm[j] < rank
      invariant forall j, j' :: 0 <= j < j' < i ==> perm[j] != perm[j']
      invariant forall v :: 0 <= v < rank ==> (used[v] <==> exists j :: 0 <= j < i && perm[j] == v)
    {
      var p := perm[i];
      if !(0 <= p < rank) {
        return Err(AssertFailed);
      }
      if used[p] {
        return Err(AssertFailed);
      }
      used[p] := true;
      i := i + 1;
    }
    var output := input;
    i := 0;
    while i < rank
      invariant 0 <= i <= rank && |output| == rank
      invariant forall j :: 0 <= j < i ==> output[j] == input[perm[j]]
    {
      output := output[i := input[perm[i]]];
      i := i + 1;
    }
    return Ok(output);
  }

  /** Two transposes whose permutations compose to the identity
      (`perm2[perm1[i]] == i`) give back the original shape, and more generally
      any sequence laid out along the axes. */
  lemma InversePermutesBack<T>(s: seq<T>, perm1: seq<int>, perm2: seq<int>)
    requires IsPermutation(perm1, |s|) && |perm2| == |s|
    requires forall i :: 0 <= i < |s| ==> 0 <= perm1[i] < |perm2| && perm2[perm1[i]] == i
    ensures IsPermutation(perm2, |s|)
    ensures Permute(Permute(s, perm1), perm2) == s
  {
    var n := |s|;
    var q := Inverse(perm1, n);
    forall j | 0 <= j < n ensures perm2[j] == q[j] {
      assert perm2[perm1[q[j]]] == q[j];
    }
    assert perm2 == q;
  }

  /** (2,3) with [1,0] gives (3,2). */
  lemma InferShapeExample()
    ensures IsPermutation([1, 0], 2)
    ensures Permute([2, 3], [1, 0]) == [3, 2]
  {
  }

  /** The permutation keeps every axis but the last two, which it exchanges. */
  predicate SwapsLastTwo(perm: seq<int>)
  {
    var n := |perm|;
    n >= 2 && (forall i :: 0 <= i < n - 2 ==> perm[i] == i) && perm[n - 1] == n - 2 && perm[n - 2] == n - 1
  }

  /** The last two dims of a shape exchanged. */
  function SwapLastTwo(s: seq<nat>): seq<nat>
    requires |s| >= 2
  {
    s[..|s| - 2] + [s[|s| - 1], s[|s| - 2]]
  }

  /** Such a permutation is a permutation, and transposing by it exchanges the last two dims. */
  lemma SwapPermutes(s: seq<nat>, perm: seq<int>)
    requires SwapsLastTwo(perm) && |s| == |perm|
    ensures IsPermutation(perm, |s|)
    ensures Permute(s, perm) == SwapLastTwo(s)
  {
    var n := |s|;
    assert IsPermutation(perm, n) by {
      forall i, j | 0 <= i < j < n ensures perm[i] != perm[j] {
        if j < n - 2 {} else if i < n - 2 {} else {}
      }
    }
    var t := Permute(s, perm);
    forall i | 0 <= i < n ensures t[i] == SwapLastTwo(s)[i] {
      if i < n - 2 { assert perm[i] == i; }
    }
  }
}
