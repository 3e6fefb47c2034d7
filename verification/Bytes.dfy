// Bytes, and numbers as bytes with the lowest first.
module Bytes {
  import opened Powers

  type Byte = b: int | 0 <= b < 256

  function Pow256(k: nat): (p: nat)
    ensures p > 0
  {
    if k == 0 then 1 else 256 * Pow256(k - 1)
  }

  // The low k bytes of n.
  function Le(n: nat, k: nat): (s: seq<Byte>)
    ensures |s| == k
  {
    if k == 0 then [] else [n % 256] + Le(n / 256, k - 1)
  }

  function Number(s: seq<Byte>): nat {
    if s == [] then 0 else s[0] + 256 * Number(s[1..])
  }

  // The number that the low k bytes stand for.
  lemma {:induction false} NumberOfLe(n: nat, k: nat)
    ensures Number(Le(n, k)) == n % Pow256(k)
    decreases k
  {
    if k > 0 {
      NumberOfLe(n / 256, k - 1);
      LowPart(n, Pow256(k - 1));
    }
  }

  lemma LowPart(n: nat, p: nat)
    requires p > 0
    ensures n % (256 * p) == n % 256 + 256 * (n / 256 % p)
  {
    var q, r := n / 256 / p, n / 256 % p;
    assert n / 256 == q * p + r;
    assert 256 * (q * p + r) == q * (256 * p) + 256 * r;
    RemainderIs(q, 256 * p, 256 * r + n % 256);
  }
}
