// Request arithmetic: rounding up, the size asked of the free lists, and the gap in front of
// an aligned block.
module TlsfSizes {
  import opened Powers
  import opened TlsfBits
  import opened TlsfMapping

  // align_up and align_ptr, for a power of two
  function AlignUp(x: nat, align: nat): (r: nat)
    requires align > 0
    ensures x <= r < x + align
  {
    x + (align - 1) - (x + (align - 1)) % align
  }

  lemma AlignUpAligned(x: nat, align: nat)
    requires align > 0
    ensures AlignUp(x, align) % align == 0
  {
    var s := x + (align - 1);
    assert s == s / align * align + s % align;
    RemainderIs(s / align, align, 0);
  }

  lemma AlignUpStays(x: nat, align: nat)
    requires align > 0 && x % align == 0
    ensures AlignUp(x, align) == x
  {
    assert x == x / align * align;
    RemainderIs(x / align, align, align - 1);
  }

  lemma MultipleOf(x: nat, align: nat, unit: nat)
    requires unit > 0 && align > 0 && align % unit == 0 && x % align == 0
    ensures x % unit == 0
  {
    var k, j := x / align, align / unit;
    assert x == k * align && align == j * unit;
    assert x == (k * j) * unit;
    RemainderIs(k * j, unit, 0);
  }

  // adjust_request_size
  function Adjusted(size: nat, align: nat): nat
    requires align > 0
  {
    if 0 < size < BLOCK_SIZE_MAX then
      if AlignUp(size, align) > BLOCK_SIZE_MIN then AlignUp(size, align) else BLOCK_SIZE_MIN
    else 0
  }

  lemma AdjustedFacts(size: nat, align: nat)
    requires align > 0 && align % ALIGN_SIZE == 0
    ensures var a := Adjusted(size, align);
      && a % ALIGN_SIZE == 0 && (a == 0 <==> size == 0 || size >= BLOCK_SIZE_MAX)
      && (a != 0 ==> a >= BLOCK_SIZE_MIN && a >= size)
  {
    AlignUpAligned(size, align);
    MultipleOf(AlignUp(size, align), align, ALIGN_SIZE);
  }

  // What tlsf_memalign asks of the free lists.
  function AlignedRequest(align: nat, size: nat): nat
    requires align > 0
  {
    var adjust := Adjusted(size, ALIGN_SIZE);
    if align <= ALIGN_SIZE then adjust else Adjusted(adjust + align + HEADER, align)
  }

  ghost predicate PowerOfTwo(align: nat) {
    exists k: nat {:trigger Pow2(k)} :: align == Pow2(k)
  }

  lemma SmallPowers()
    ensures Pow2(0) == 1 && Pow2(1) == 2 && Pow2(2) == 4 && Pow2(3) == 8 && Pow2(4) == 16
  {
  }

  lemma LargeAlign(align: nat)
    requires PowerOfTwo(align) && align > ALIGN_SIZE
    ensures align % 16 == 0 && (align == 16 || align >= 32)
  {
    hide Pow2;
    var k: nat :| align == Pow2(k);
    SmallPowers();
    if k < 4 { Pow2Grows(k, 3); }
    Pow2Adds(k - 4, 4);
    RemainderIs(Pow2(k - 4), 16, 0);
  }

  lemma SmallAlign(align: nat)
    requires PowerOfTwo(align) && align <= ALIGN_SIZE
    ensures align == 1 || align == 2 || align == 4 || align == 8
  {
    hide Pow2;
    var k: nat :| align == Pow2(k);
    SmallPowers();
    if k >= 4 { Pow2Grows(4, k); }
  }

  // How far in front of the aligned address the pointer is, moved on to the next aligned
  // address when that leaves no room for a free block.
  function Gap(ptr: nat, align: nat): nat
    requires align > 0
  {
    var aligned := AlignUp(ptr, align);
    var gap := aligned - ptr;
    if 0 < gap < HEADER then
      AlignUp(aligned + (if HEADER - gap > align then HEADER - gap else align), align) - ptr
    else gap
  }

  lemma GapAligned(ptr: nat, align: nat)
    requires align > 0
    ensures (ptr + Gap(ptr, align)) % align == 0
  {
    hide AlignUp;
    var aligned := AlignUp(ptr, align);
    var gap := aligned - ptr;
    AlignUpAligned(ptr, align);
    AlignUpAligned(aligned + (if HEADER - gap > align then HEADER - gap else align), align);
  }

  lemma AlignedToEight(x: nat, align: nat)
    requires PowerOfTwo(align) && align > ALIGN_SIZE
    ensures AlignUp(x, align) % ALIGN_SIZE == 0 && (align == 16 ==> AlignUp(x, align) % 16 == 0)
    ensures align == 16 || (align >= 32 && AlignUp(AlignUp(x, align) + align, align) == AlignUp(x, align) + align)
  {
    hide PowerOfTwo, AlignUp;
    LargeAlign(align);
    Sixteenths(align);
    AlignUpAligned(x, align);
    MultipleOf(AlignUp(x, align), align, 8);
    NextAligned(AlignUp(x, align), align);
  }

  // The gap is nothing or room for a free block, and never more than the request allows for.
  lemma GapBound(ptr: nat, align: nat)
    requires PowerOfTwo(align) && align > ALIGN_SIZE && ptr % ALIGN_SIZE == 0
    ensures Gap(ptr, align) % ALIGN_SIZE == 0
    ensures Gap(ptr, align) == 0 || HEADER <= Gap(ptr, align) <= align + HEADER - ALIGN_SIZE
  {
    hide PowerOfTwo, AlignUp;
    var aligned := AlignUp(ptr, align);
    var gap := aligned - ptr;
    var offset := if HEADER - gap > align then HEADER - gap else align;
    var next := AlignUp(aligned + offset, align);
    AlignedToEight(ptr, align);
    AlignedToEight(aligned + offset, align);
    DifferenceOfEights(aligned, ptr);
    DifferenceOfEights(next, ptr);
    if 0 < gap < HEADER && align == 16 { SixteenCase(aligned, gap, next); }
  }

  lemma Sixteenths(x: nat)
    requires x % 16 == 0
    ensures x % 8 == 0
  {
    RemainderIs(2 * (x / 16), 8, 0);
  }

  lemma DifferenceOfEights(x: nat, y: nat)
    requires x % 8 == 0 && y % 8 == 0 && x >= y
    ensures (x - y) % 8 == 0
  {
    RemainderIs(x / 8 - y / 8, 8, 0);
  }

  // With an alignment of 16 the next aligned address is 16 or 32 further on.
  lemma SixteenCase(aligned: nat, gap: nat, next: nat)
    requires 0 < gap < 16 && gap % 8 == 0 && aligned % 16 == 0 && next % 16 == 0
    requires var offset := if HEADER - gap > 16 then HEADER - gap else 16; aligned + offset <= next < aligned + offset + 16
    ensures next == aligned + 32
  {
    var a, n := aligned / 16, next / 16;
    assert aligned == 16 * a && next == 16 * n;
    assert gap == 8;
  }

  lemma NextAligned(x: nat, align: nat)
    requires align > 0 && x % align == 0
    ensures AlignUp(x + align, align) == x + align
  {
    assert x == x / align * align;
    assert x + align == (x / align + 1) * align;
    RemainderIs(x / align + 1, align, 0);
    AlignUpStays(x + align, align);
  }

  // Small alignments are met as it is.
  lemma NoGap(ptr: nat, align: nat)
    requires PowerOfTwo(align) && align <= ALIGN_SIZE && ptr % ALIGN_SIZE == 0
    ensures Gap(ptr, align) == 0 && ptr % align == 0
  {
    hide PowerOfTwo, AlignUp;
    SmallAlign(align);
    MultipleOf(ptr, 8, align);
    AlignUpStays(ptr, align);
  }

  // A block found for the request keeps enough behind the gap, and can be cut there.
  lemma GapLeaves(ptr: nat, align: nat, size: nat, block: nat)
    requires PowerOfTwo(align) && ptr % ALIGN_SIZE == 0 && Adjusted(size, ALIGN_SIZE) != 0
    requires AlignedRequest(align, size) != 0 && block >= AlignedRequest(align, size)
    ensures AlignedRequest(align, size) % ALIGN_SIZE == 0
    ensures var gap := Gap(ptr, align);
      && (ptr + gap) % align == 0 && gap % ALIGN_SIZE == 0 && block >= gap + Adjusted(size, ALIGN_SIZE)
      && (gap > 0 ==> gap >= HEADER && block >= gap + HEADER)
  {
    hide PowerOfTwo, AlignUp, Gap;
    AdjustedFacts(size, ALIGN_SIZE);
    if align <= ALIGN_SIZE {
      NoGap(ptr, align);
    } else {
      LargeAlign(align);
      Sixteenths(align);
      GapBound(ptr, align);
      GapAligned(ptr, align);
      AdjustedFacts(Adjusted(size, ALIGN_SIZE) + align + HEADER, align);
    }
  }

  // ----- Bytes of a word, lowest first -----

  function Byte(word: nat, i: nat): nat {
    if i == 0 then word % 256 else Byte(word / 256, i - 1)
  }

  // The first n bytes of `new`, then those of `old`.
  function Mixed(was: nat, now: nat, n: nat): nat {
    if n == 0 then was else 256 * Mixed(was / 256, now / 256, n - 1) + now % 256
  }

  lemma {:induction false} MixedByte(was: nat, now: nat, n: nat, i: nat)
    ensures Byte(Mixed(was, now, n), i) == if i < n then Byte(now, i) else Byte(was, i)
    decreases n
  {
    if n > 0 {
      var rest := Mixed(was / 256, now / 256, n - 1);
      assert (256 * rest + now % 256) / 256 == rest && (256 * rest + now % 256) % 256 == now % 256;
      if i > 0 { MixedByte(was / 256, now / 256, n - 1, i - 1); }
    }
  }
}
