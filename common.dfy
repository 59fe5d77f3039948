/** Small shared vocabulary: optional values, error results and products of shapes. */
module Common {

  datatype Option<T> = None | Some(value: T)

  /** Why a shape computation produced no shape: `NoShape` is an empty optional
      returned by the operator, `AssertFailed` a fatal assertion in the source. */
  datatype Failure = NoShape | AssertFailed

  datatype Result<T> = Ok(value: T) | Err(failure: Failure)

  function Max(a: int, b: int): int { if a < b then b else a }

  /** Number of elements of a tensor with the given dims. */
  function Product(s: seq<nat>): nat
  {
    if |s| == 0 then 1 else s[0] * Product(s[1..])
  }

  /** Largest element of a non-empty sequence. */
  function SeqMax(s: seq<nat>): (r: nat)
    requires |s| > 0
    ensures r in s
    ensures forall k :: 0 <= k < |s| ==> s[k] <= r
  {
    if |s| == 1 then s[0] else Max(s[0], SeqMax(s[1..])) as nat
  }

  lemma {:induction false} SeqMaxSnoc(s: seq<nat>, x: nat)
    requires |s| > 0
    ensures SeqMax(s + [x]) == Max(SeqMax(s), x)
  {
    if |s| > 1 {
      assert (s + [x])[1..] == s[1..] + [x];
      SeqMaxSnoc(s[1..], x);
    }
  }

  lemma {:induction false} ProductSplit(s: seq<nat>, k: nat)
    requires k <= |s|
    ensures Product(s) == Product(s[..k]) * Product(s[k..])
  {
    if k > 0 {
      assert s[..k][1..] == s[1..][..k - 1];
      assert s[k..] == s[1..][k - 1..];
      ProductSplit(s[1..], k - 1);
    } else {
      assert s[k..] == s;
    }
  }

  lemma {:induction false} ProductPositive(s: seq<nat>)
    requires forall d :: 0 <= d < |s| ==> s[d] > 0
    ensures Product(s) > 0
  {
    if |s| > 0 {
      ProductPositive(s[1..]);
    }
  }
}
