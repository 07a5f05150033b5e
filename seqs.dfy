/** Sequence and arithmetic facts shared by the search and the import:
    concatenating a sequence of blocks, and mixed-radix positions. */
module Seqs {

  /** The concatenation of xss in order. */
  function Flatten<T>(xss: seq<seq<T>>): seq<T> {
    if xss == [] then [] else Flatten(xss[..|xss| - 1]) + xss[|xss| - 1]
  }

  lemma FlattenSnoc<T>(xss: seq<seq<T>>, j: nat)
    requires j < |xss|
    ensures Flatten(xss[..j + 1]) == Flatten(xss[..j]) + xss[j]
  {
    assert xss[..j + 1][..j] == xss[..j];
  }

  lemma {:induction false} FlattenUniformLength<T>(bs: seq<seq<T>>, n: nat)
    requires forall j :: 0 <= j < |bs| ==> |bs[j]| == n
    ensures |Flatten(bs)| == |bs| * n
  {
    if bs != [] {
      FlattenUniformLength(bs[..|bs| - 1], n);
      assert |bs| * n == (|bs| - 1) * n + n;
    }
  }

  lemma {:induction false} FlattenUniformAt<T>(bs: seq<seq<T>>, n: nat, j: nat, r: nat)
    requires forall i :: 0 <= i < |bs| ==> |bs[i]| == n
    requires j < |bs| && r < n
    ensures j * n + r < |Flatten(bs)| && Flatten(bs)[j * n + r] == bs[j][r]
  {
    var init := bs[..|bs| - 1];
    FlattenUniformLength(init, n);
    FlattenUniformLength(bs, n);
    MixedRadixBound(j, |bs|, r, n);
    if j < |bs| - 1 {
      FlattenUniformAt(init, n, j, r);
    } else {
      assert j * n == |init| * n;
    }
  }

  lemma MixedRadixBound(d: nat, n: nat, r: nat, p: nat)
    requires d < n && r < p
    ensures d * p + r < n * p
  {
    assert d * p + p == (d + 1) * p;
    assert (d + 1) * p <= n * p by {
      MulMonotone(d + 1, n, p);
    }
  }

  lemma MulMonotone(a: nat, b: nat, p: nat)
    requires a <= b
    ensures a * p <= b * p
  {
    assert b * p == a * p + (b - a) * p;
  }

  lemma DivBound(k: nat, n: nat, p: nat)
    requires k < n * p
    ensures p > 0 && k / p < n && k % p < p
  {
    if p == 0 {
      assert false;
    }
    assert k == (k / p) * p + k % p;
    if k / p >= n {
      MulMonotone(n, k / p, p);
      assert false;
    }
  }

  /** q * p + r with r < p divides by p as quotient q and remainder r. */
  lemma DivModUnique(q: nat, r: nat, p: nat)
    requires r < p
    ensures (q * p + r) / p == q && (q * p + r) % p == r
  {
    var k := q * p + r;
    assert k == (k / p) * p + k % p;
    if k / p > q {
      MulMonotone(q + 1, k / p, p);
      assert false;
    } else if k / p < q {
      MulMonotone(k / p + 1, q, p);
      assert false;
    }
  }

  /** Integer division by p is monotone, and splits ties by the remainder. */
  lemma DivOrder(k1: nat, k2: nat, p: nat)
    requires k1 < k2 && p > 0
    ensures k1 / p <= k2 / p
    ensures k1 / p == k2 / p ==> k1 % p < k2 % p
  {
    assert k1 == (k1 / p) * p + k1 % p;
    assert k2 == (k2 / p) * p + k2 % p;
    if k1 / p > k2 / p {
      MulMonotone(k2 / p + 1, k1 / p, p);
      assert false;
    }
  }
}
