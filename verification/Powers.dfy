// Powers of two, the floor of the binary logarithm, and remainders.
module Powers {
  function Pow2(k: nat): (p: nat)
    ensures p > 0
  {
    if k == 0 then 1 else 2 * Pow2(k - 1)
  }

  lemma {:induction false} Pow2Grows(j: nat, k: nat)
    requires j <= k
    ensures Pow2(j) <= Pow2(k)
    ensures j < k ==> 2 * Pow2(j) <= Pow2(k)
    decreases k
  {
    if j < k { Pow2Grows(j, k - 1); }
  }

  lemma {:induction false} Pow2Adds(j: nat, k: nat)
    ensures Pow2(j + k) == Pow2(j) * Pow2(k)
  {
    if j > 0 {
      Pow2Adds(j - 1, k);
      assert j + k - 1 == (j - 1) + k;
    }
  }

  // Floor of the binary logarithm.
  function Log2(n: nat): nat {
    if n < 2 then 0 else 1 + Log2(n / 2)
  }

  lemma {:induction false} Log2Bounds(n: nat)
    requires n > 0
    ensures Pow2(Log2(n)) <= n < 2 * Pow2(Log2(n))
  {
    if n >= 2 { Log2Bounds(n / 2); }
  }

  lemma {:induction false} Log2Is(n: nat, k: nat)
    requires Pow2(k) <= n < 2 * Pow2(k)
    ensures Log2(n) == k
  {
    if k > 0 { Log2Is(n / 2, k - 1); }
  }

  lemma Log2OfPow2(k: nat)
    ensures Log2(Pow2(k)) == k
  {
    Log2Is(Pow2(k), k);
  }

  lemma {:induction false} Log2Monotone(a: nat, b: nat)
    requires a <= b
    ensures Log2(a) <= Log2(b)
    decreases b
  {
    if a >= 2 { Log2Monotone(a / 2, b / 2); }
  }

  lemma NoMultipleBelow(d: int, align: nat)
    requires align > 0 && d * align < align && d * align + align > 0
    ensures d == 0
  {
  }

  // The remainder of a multiple plus something small.
  lemma RemainderIs(k: nat, align: nat, low: nat)
    requires low < align
    ensures (k * align + low) % align == low
  {
    var x := k * align + low;
    var q, r := x / align, x % align;
    assert x == q * align + r;
    assert (k - q) * align == r - low;
    NoMultipleBelow(k - q, align);
  }
}
