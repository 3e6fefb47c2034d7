// Bit operations and bit scans of the allocator. A word is a number; & and | work digit by
// digit, << multiplies, and a 32-bit complement subtracts from all ones.
module TlsfBits {
  import opened Powers

  function And(a: nat, b: nat): nat {
    if a == 0 || b == 0 then 0 else 2 * And(a / 2, b / 2) + (if a % 2 == 1 && b % 2 == 1 then 1 else 0)
  }

  function Or(a: nat, b: nat): nat {
    if a == 0 then b else 2 * Or(a / 2, b / 2) + (if a % 2 == 1 || b % 2 == 1 then 1 else 0)
  }

  const WORD: nat := 0x1_0000_0000

  // ~w
  function Not(w: nat): nat
    requires w < WORD
  {
    WORD - 1 - w
  }

  // The digit of w at position i.
  predicate Bit(w: nat, i: nat) {
    if i == 0 then w % 2 == 1 else Bit(w / 2, i - 1)
  }

  lemma {:induction false} AndBit(a: nat, b: nat, i: nat)
    ensures Bit(And(a, b), i) <==> Bit(a, i) && Bit(b, i)
    decreases i
  {
    if a == 0 || b == 0 {
      ZeroBit(i);
    } else if i > 0 {
      assert And(a, b) / 2 == And(a / 2, b / 2);
      AndBit(a / 2, b / 2, i - 1);
    }
  }

  lemma {:induction false} OrBit(a: nat, b: nat, i: nat)
    ensures Bit(Or(a, b), i) <==> Bit(a, i) || Bit(b, i)
    decreases i
  {
    if a == 0 {
      ZeroBit(i);
    } else if i > 0 {
      assert Or(a, b) / 2 == Or(a / 2, b / 2);
      OrBit(a / 2, b / 2, i - 1);
    }
  }

  lemma {:induction false} ZeroBit(i: nat)
    ensures !Bit(0, i)
    decreases i
  {
    if i > 0 { ZeroBit(i - 1); }
  }

  lemma {:induction false} Pow2Bit(k: nat, i: nat)
    ensures Bit(Pow2(k), i) <==> k == i
    decreases i
  {
    if k == 0 {
      if i > 0 { ZeroBit(i - 1); }
    } else if i > 0 {
      Pow2Bit(k - 1, i - 1);
    }
  }

  // The digits of n ones.
  lemma {:induction false} OnesBit(n: nat, i: nat)
    ensures Bit(Pow2(n) - 1, i) <==> i < n
    decreases i
  {
    if n == 0 {
      ZeroBit(i);
    } else if i > 0 {
      assert (Pow2(n) - 1) / 2 == Pow2(n - 1) - 1;
      OnesBit(n - 1, i - 1);
    }
  }

  // Complementing within n digits.
  lemma {:induction false} ComplementBit(n: nat, w: nat, i: nat)
    requires w < Pow2(n) && i < n
    ensures Bit(Pow2(n) - 1 - w, i) <==> !Bit(w, i)
    decreases i
  {
    if i > 0 {
      assert (Pow2(n) - 1 - w) / 2 == Pow2(n - 1) - 1 - w / 2;
      ComplementBit(n - 1, w / 2, i - 1);
    }
  }

  // ~0 << i, truncated to the word.
  function High(i: nat): nat
    requires i <= 32
  {
    Word32();
    Pow2Grows(i, 32);
    WORD - Pow2(i)
  }

  lemma Word32()
    ensures Pow2(32) == WORD
  {
    assert Pow2(8) == 0x100;
    Pow2Adds(8, 8);
    Pow2Adds(16, 16);
  }

  lemma {:induction false} HighBitOf(n: nat, k: nat, i: nat)
    requires k <= n
    ensures Pow2(k) <= Pow2(n)
    ensures Bit(Pow2(n) - Pow2(k), i) <==> k <= i < n
    decreases i
  {
    Pow2Grows(k, n);
    if k == 0 {
      OnesBit(n, i);
    } else if i > 0 {
      Pow2Grows(k - 1, n - 1);
      assert (Pow2(n) - Pow2(k)) / 2 == Pow2(n - 1) - Pow2(k - 1);
      HighBitOf(n - 1, k - 1, i - 1);
    }
  }

  // ----- Bitmap words -----

  function With(w: nat, i: nat): nat { Or(w, Pow2(i)) }

  function Without(w: nat, i: nat): nat
    requires w < WORD && i < 32
  {
    Word32();
    Pow2Grows(i + 1, 32);
    And(w, Not(Pow2(i)))
  }

  function From(w: nat, i: nat): nat
    requires i <= 32
  {
    And(w, High(i))
  }

  lemma WithBit(w: nat, i: nat, j: nat)
    ensures Bit(With(w, i), j) <==> j == i || Bit(w, j)
  {
    hide Bit, Or, Pow2;
    OrBit(w, Pow2(i), j);
    Pow2Bit(i, j);
  }

  lemma WithoutBit(w: nat, i: nat, j: nat)
    requires w < WORD && i < 32 && j < 32
    ensures Bit(Without(w, i), j) <==> j != i && Bit(w, j)
  {
    hide Bit, And, Pow2;
    Word32();
    Pow2Grows(i + 1, 32);
    Pow2Positive(i);
    AndBit(w, Not(Pow2(i)), j);
    ComplementBit(32, Pow2(i), j);
    Pow2Bit(i, j);
  }

  lemma Pow2Positive(i: nat)
    ensures Pow2(i + 1) == 2 * Pow2(i)
  {
  }

  lemma FromBit(w: nat, i: nat, j: nat)
    requires i <= 32 && j < 32
    ensures Bit(From(w, i), j) <==> j >= i && Bit(w, j)
  {
    hide Bit, And, Pow2;
    Word32();
    AndBit(w, High(i), j);
    HighBitOf(32, i, j);
  }

  lemma {:induction false} OrBound(n: nat, a: nat, b: nat)
    requires a < Pow2(n) && b < Pow2(n)
    ensures Or(a, b) < Pow2(n)
    decreases n
  {
    if n > 0 && a != 0 { OrBound(n - 1, a / 2, b / 2); }
  }

  lemma {:induction false} AndBound(a: nat, b: nat)
    ensures And(a, b) <= a
  {
    if a != 0 && b != 0 { AndBound(a / 2, b / 2); }
  }

  lemma WordStays(w: nat, i: nat)
    requires w < WORD && i < 32
    ensures With(w, i) < WORD && Without(w, i) < WORD
  {
    hide Or, And, Pow2;
    Word32();
    Pow2Grows(i + 1, 32);
    Pow2Positive(i);
    OrBound(32, w, Pow2(i));
    AndBound(w, Not(Pow2(i)));
  }

  // The position of the lowest one.
  function Lowest(w: nat): nat
    requires w > 0
  {
    if w % 2 == 1 then 0 else 1 + Lowest(w / 2)
  }

  lemma {:induction false} LowestIsLowest(w: nat)
    requires w > 0
    ensures Bit(w, Lowest(w)) && forall j :: 0 <= j < Lowest(w) ==> !Bit(w, j)
  {
    if w % 2 == 0 {
      LowestIsLowest(w / 2);
      forall j | 0 <= j < Lowest(w)
        ensures !Bit(w, j)
      {
        if j > 0 { assert Bit(w, j) == Bit(w / 2, j - 1); }
      }
    }
  }

  lemma {:induction false} LowestBelow(n: nat, w: nat)
    requires 0 < w < Pow2(n)
    ensures Lowest(w) < n
    decreases n
  {
    if w % 2 == 0 { LowestBelow(n - 1, w / 2); }
  }

  // A nonzero word has a one; zero has none.
  lemma BitIsNonzero(w: nat, i: nat)
    requires Bit(w, i)
    ensures w > 0
  {
    if w == 0 { ZeroBit(i); }
  }

  // ----- Scans -----

  lemma {:induction false} HighTestOf(n: nat, k: nat, w: nat)
    requires k <= n && w < Pow2(n)
    ensures Pow2(k) <= Pow2(n)
    ensures And(w, Pow2(n) - Pow2(k)) == 0 <==> w < Pow2(k)
    decreases k, w
  {
    Pow2Grows(k, n);
    if k == n {
      AndZero(w);
    } else if w > 0 && k > 0 {
      Pow2Grows(k - 1, n - 1);
      assert (Pow2(n) - Pow2(k)) / 2 == Pow2(n - 1) - Pow2(k - 1);
      HighTestOf(n - 1, k - 1, w / 2);
    } else if w > 0 {
      AndOnes(n, w);
    }
  }

  lemma AndZero(w: nat)
    ensures And(w, 0) == 0
  {
  }

  lemma {:induction false} AndOnes(n: nat, w: nat)
    requires w < Pow2(n)
    ensures And(w, Pow2(n) - 1) == w
    decreases n
  {
    if n > 0 && w > 0 {
      assert (Pow2(n) - 1) / 2 == Pow2(n - 1) - 1;
      AndOnes(n - 1, w / 2);
    }
  }

  // Testing the bits from k on, as the scan does.
  lemma HighTest(k: nat, w: nat)
    requires k <= 32 && w < WORD
    ensures And(w, High(k)) == 0 <==> w < Pow2(k)
  {
    hide And, Pow2;
    Word32();
    HighTestOf(32, k, w);
  }

  lemma ScaledUp(a: nat, b: nat, q: nat)
    requires b <= a
    ensures b * q <= a * q
  {
    assert a * q == b * q + (a - b) * q;
  }

  lemma Scaled(a: nat, b: nat, q: nat)
    requires q > 0
    ensures a < b ==> a * q + q <= b * q
    ensures a >= b ==> a * q >= b * q
    ensures a <= a * q
  {
    if a < b {
      ScaledUp(b, a + 1, q);
      assert (a + 1) * q == a * q + q;
    } else {
      ScaledUp(a, b, q);
    }
    ScaledUp(q, 1, a);
    assert q * a == a * q;
  }

  // One step of the scan: if the top k digits are zero, shift them out.
  lemma Shifting(origin: nat, shift: nat, w: nat, k: nat)
    requires 2 * k <= 32 && w == origin * Pow2(shift) && w < Pow2(32 - k)
    ensures w * Pow2(k) == origin * Pow2(shift + k) && w * Pow2(k) < WORD
    ensures w >= Pow2(32 - 2 * k) ==> w * Pow2(k) >= Pow2(32 - k)
  {
    hide Pow2;
    Pow2Adds(shift, k);
    Pow2Adds(32 - k, k);
    Pow2Adds(32 - 2 * k, k);
    Word32();
    Scaled(w, Pow2(32 - k), Pow2(k));
    Scaled(w, Pow2(32 - 2 * k), Pow2(k));
    assert origin * Pow2(shift) * Pow2(k) == origin * (Pow2(shift) * Pow2(k));
  }

  method ScanStep(word: nat, bit: int, k: nat, ghost origin: nat, ghost shift: nat)
    returns (word': nat, bit': int, ghost shift': nat)
    requires 0 < k && 2 * k <= 32 && word < WORD && word == origin * Pow2(shift)
    ensures word' < WORD && word' == origin * Pow2(shift')
    ensures bit' + shift' == bit + shift && shift <= shift' <= shift + k
    ensures word >= Pow2(32 - 2 * k) ==> word' >= Pow2(32 - k)
    ensures word == 0 ==> word' == 0 && bit' == bit - k
  {
    hide And, Pow2;
    word', bit', shift' := word, bit, shift;
    HighTest(32 - k, word);
    if And(word, High(32 - k)) == 0 {
      Shifting(origin, shift, word, k);
      word' := word * Pow2(k);
      bit' := bit - k;
      shift' := shift + k;
    }
  }

  // One more than the position of the highest one; 0 for 0.
  method FlsGeneric(word: nat) returns (bit: int)
    requires word < WORD
    ensures bit == if word == 0 then 0 else Log2(word) + 1
  {
    hide And, Pow2, Log2;
    bit := 32;
    if word == 0 {
      bit := bit - 1;
    }
    ghost var shift := 0;
    var w := word;
    Units();
    w, bit, shift := ScanStep(w, bit, 16, word, shift);
    w, bit, shift := ScanStep(w, bit, 8, word, shift);
    w, bit, shift := ScanStep(w, bit, 4, word, shift);
    w, bit, shift := ScanStep(w, bit, 2, word, shift);
    w, bit, shift := ScanStep(w, bit, 1, word, shift);
    if word != 0 {
      NormalisedLog2(word, w, shift);
    }
  }

  lemma Units()
    ensures Pow2(0) == 1
  {
  }

  lemma NormalisedLog2(word: nat, w: nat, shift: nat)
    requires shift <= 31 && w == word * Pow2(shift) && Pow2(31) <= w < WORD
    ensures Log2(word) == 31 - shift
  {
    hide Pow2, Log2;
    var p, q := Pow2(31 - shift), Pow2(shift);
    Pow2Adds(31 - shift, shift);
    Word32();
    Pow2Positive(31);
    Scaled(word, p, q);
    Scaled(2 * p, word, q);
    Scaled(word, 2 * p, q);
    assert (2 * p) * q == 2 * (p * q);
    Log2Is(word, 31 - shift);
  }

  // word & (~word + 1) leaves the lowest one.
  lemma {:induction false} Isolates(n: nat, w: nat)
    requires 0 < w < Pow2(n)
    ensures And(w, Pow2(n) - w) == Pow2(Lowest(w))
    decreases n
  {
    if w % 2 == 0 {
      assert (Pow2(n) - w) / 2 == Pow2(n - 1) - w / 2;
      Isolates(n - 1, w / 2);
    } else {
      assert (Pow2(n) - w) / 2 == Pow2(n - 1) - w / 2 - 1;
      AndComplement(n - 1, w / 2);
    }
  }

  lemma {:induction false} AndComplement(n: nat, w: nat)
    requires w < Pow2(n)
    ensures And(w, Pow2(n) - 1 - w) == 0
    decreases n
  {
    if n > 0 && w > 0 {
      assert (Pow2(n) - 1 - w) / 2 == Pow2(n - 1) - 1 - w / 2;
      AndComplement(n - 1, w / 2);
    }
  }

  // The position of the lowest one; -1 for 0.
  method Ffs(word: nat) returns (i: int)
    requires word < WORD
    ensures i == if word == 0 then -1 else Lowest(word)
  {
    hide And, Pow2, Log2, Lowest;
    Word32();
    ghost var low := if word > 0 then Lowest(word) else 0;
    if word > 0 {
      Isolates(32, word);
      LowestBelow(32, word);
      Pow2Grows(low + 1, 32);
      Pow2Positive(low);
      Log2OfPow2(low);
    } else {
      ZeroAnd();
    }
    var bit := FlsGeneric(And(word, (Not(word) + 1) % WORD));
    i := bit - 1;
  }

  lemma ZeroAnd()
    ensures And(0, 0) == 0
  {
  }

  // tlsf_fls_sizet on 64-bit sizes.
  method FlsSize(size: nat) returns (k: int)
    requires size < WORD * WORD
    ensures k == if size == 0 then -1 else Log2(size)
  {
    hide Log2;
    var high := size / WORD;
    if high != 0 {
      var bit := FlsGeneric(high);
      k := 32 + (bit - 1);
      HighLog2(size);
    } else {
      var bit := FlsGeneric(size % WORD);
      k := bit - 1;
    }
  }

  lemma HighLog2(size: nat)
    requires size >= WORD
    ensures Log2(size) == 32 + Log2(size / WORD)
  {
    hide Pow2, Log2;
    var high := size / WORD;
    var p := Pow2(Log2(high));
    Log2Bounds(high);
    Pow2Adds(32, Log2(high));
    Word32();
    assert size == high * WORD + size % WORD;
    Log2Is(size, 32 + Log2(high));
  }
}
