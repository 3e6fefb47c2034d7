// Size classes of the allocator (64-bit configuration): which free list holds a block of a
// given size, and which lists are searched for a request.
module TlsfMapping {
  import opened Powers
  import opened TlsfBits

  const ALIGN_SIZE: nat := 8
  const SL_INDEX_COUNT: nat := 32
  const FL_INDEX_COUNT: nat := 25
  const FL_INDEX_SHIFT: nat := 8
  const SMALL_BLOCK_SIZE: nat := 256
  const LISTS: nat := 800
  // sizeof(block_header_t), the part of it in front of the payload, and the overhead of a block
  const HEADER: nat := 32
  const START: nat := 16
  const OVERHEAD: nat := 8
  const BLOCK_SIZE_MIN: nat := 24
  const BLOCK_SIZE_MAX: nat := 0x1_0000_0000

  // mapping_insert
  function Fl(size: nat): nat {
    if size < SMALL_BLOCK_SIZE then 0 else LargeFl(Log2(size))
  }

  function LargeFl(k: nat): nat {
    if k < FL_INDEX_SHIFT - 1 then 0 else k - (FL_INDEX_SHIFT - 1)
  }

  // Width of the class of a large size.
  function Width(size: nat): (g: nat)
    ensures g > 0
  {
    var k := Log2(size);
    Pow2(if k >= 5 then k - 5 else 0)
  }

  // The leading digit at position 5 is always one; exclusive-or with 32 removes it.
  function Sl(size: nat): nat {
    if size < SMALL_BLOCK_SIZE then size / ALIGN_SIZE
    else if size / Width(size) >= 32 then size / Width(size) - 32 else 0
  }

  // The list number: first level times 32 plus second level.
  function Class(size: nat): nat {
    Fl(size) * SL_INDEX_COUNT + Sl(size)
  }

  // mapping_search: sizes are rounded up to the next class first.
  function Rounded(size: nat): nat {
    if size >= 32 then size + (Width(size) - 1) else size
  }

  lemma LargeSize(size: nat)
    requires size >= SMALL_BLOCK_SIZE
    ensures Log2(size) >= 8
    ensures Pow2(Log2(size)) == 32 * Width(size)
    ensures 32 <= size / Width(size) < 64
    ensures Pow2(Log2(size)) <= size < 2 * Pow2(Log2(size))
  {
    hide Log2, Pow2;
    var k := Log2(size);
    Log2Bounds(size);
    Pow2Small();
    if k < 8 { Pow2Grows(k + 1, 8); Pow2Positive(k); }
    Pow2Adds(k - 5, 5);
    QuotientBounds(size, Width(size));
  }

  lemma Pow2Small()
    ensures Pow2(5) == 32 && Pow2(8) == 256
  {
  }

  lemma QuotientBounds(size: nat, g: nat)
    requires g > 0 && 32 * g <= size < 64 * g
    ensures 32 <= size / g < 64
  {
    var q := size / g;
    assert size == q * g + size % g;
    if q < 32 { ScaledUp(31, q, g); }
    if q >= 64 { ScaledUp(q, 64, g); }
  }

  lemma LargeClass(size: nat)
    requires size >= SMALL_BLOCK_SIZE
    ensures Fl(size) == Log2(size) - 7 >= 1
    ensures Sl(size) == size / Width(size) - 32 < 32
    ensures Class(size) == (Log2(size) - 7) * 32 + size / Width(size) - 32
  {
    hide Log2, Width;
    LargeSize(size);
  }

  lemma ClassInRange(size: nat)
    requires size < BLOCK_SIZE_MAX
    ensures Fl(size) < FL_INDEX_COUNT && Sl(size) < SL_INDEX_COUNT && Class(size) < LISTS
  {
    hide Log2, Pow2, Width;
    if size >= SMALL_BLOCK_SIZE {
      LargeClass(size);
      LargeSize(size);
      Word32();
      if Log2(size) >= 32 { Pow2Grows(32, Log2(size)); }
    }
  }

  // Bigger sizes are in the same or a later list.
  lemma ClassMonotone(a: nat, b: nat)
    requires a <= b
    ensures Class(a) <= Class(b)
  {
    hide Log2, Pow2, Width;
    if b < SMALL_BLOCK_SIZE {
      assert a / ALIGN_SIZE <= b / ALIGN_SIZE;
    } else if a < SMALL_BLOCK_SIZE {
      LargeClass(b);
    } else {
      LargeClass(a);
      LargeClass(b);
      Log2Monotone(a, b);
      if Log2(a) == Log2(b) {
        SameWidth(a, b);
        QuotientMonotone(a, b, Width(a));
      }
    }
  }

  lemma SameWidth(a: nat, b: nat)
    requires Log2(a) == Log2(b)
    ensures Width(a) == Width(b)
  {
  }

  lemma QuotientMonotone(a: nat, b: nat, g: nat)
    requires a <= b && g > 0
    ensures a / g <= b / g
  {
    var p, q := a / g, b / g;
    assert a == p * g + a % g && b == q * g + b % g;
    Scaled(q, p, g);
  }

  // Sizes in one large class share the exponent and the leading digits.
  lemma SameLargeClass(a: nat, b: nat)
    requires a >= SMALL_BLOCK_SIZE && b >= SMALL_BLOCK_SIZE && Class(a) == Class(b)
    ensures Log2(a) == Log2(b) && a / Width(a) == b / Width(b)
  {
    hide Log2, Pow2, Width, Class;
    LargeClass(a);
    LargeClass(b);
  }

  // Good fit: every block in the list searched first, or in a later one, is large enough.
  lemma SearchedIsEnough(size: nat, block: nat)
    requires size % ALIGN_SIZE == 0 && block % ALIGN_SIZE == 0
    requires Class(block) >= Class(Rounded(size))
    ensures block >= size
  {
    hide Log2, Pow2, Width, Class;
    var r := Rounded(size);
    if Class(block) > Class(r) {
      if block <= r { ClassMonotone(block, r); }
    } else if r < SMALL_BLOCK_SIZE {
      SmallClass(r);
      if block < SMALL_BLOCK_SIZE { SmallClass(block); }
    } else if block < SMALL_BLOCK_SIZE {
      SmallClass(block);
      LargeClass(r);
    } else {
      SameLargeClass(block, r);
      if size >= SMALL_BLOCK_SIZE { LargeReaches(size, block); }
    }
  }

  lemma LargeReaches(size: nat, block: nat)
    requires SMALL_BLOCK_SIZE <= size && SMALL_BLOCK_SIZE <= block
    requires var r := Rounded(size); Log2(block) == Log2(r) && block / Width(block) == r / Width(r)
    ensures block >= size
  {
    hide Log2, Pow2, Width;
    var r := Rounded(size);
    LargeSize(size);
    LargeSize(block);
    Log2Monotone(size, r);
    SameWidth(block, r);
    if Log2(size) == Log2(r) {
      SameWidth(size, r);
      CeilingReaches(size, Width(size), block);
    } else {
      Pow2Grows(Log2(size), Log2(r));
    }
  }

  lemma SmallClass(size: nat)
    requires size < SMALL_BLOCK_SIZE
    ensures Class(size) == size / ALIGN_SIZE < 32
  {
  }

  lemma CeilingReaches(size: nat, g: nat, block: nat)
    requires g > 0 && block / g == (size + (g - 1)) / g
    ensures block >= size
  {
    var q := block / g;
    assert block == q * g + block % g;
    assert size + (g - 1) == q * g + (size + (g - 1)) % g;
  }

  method MappingInsert(size: nat) returns (fl: nat, sl: nat)
    requires size < BLOCK_SIZE_MAX
    ensures fl == Fl(size) < FL_INDEX_COUNT && sl == Sl(size) < SL_INDEX_COUNT
  {
    hide Log2, Pow2;
    ClassInRange(size);
    if size < SMALL_BLOCK_SIZE {
      fl := 0;
      sl := size / (SMALL_BLOCK_SIZE / SL_INDEX_COUNT);
    } else {
      LargeClass(size);
      LargeSize(size);
      var k := FlsSize(size);
      sl := size / Pow2(k - 5) - 32;
      fl := k - (FL_INDEX_SHIFT - 1);
    }
  }

  method MappingSearch(size: nat) returns (fl: nat, sl: nat)
    requires Rounded(size) < BLOCK_SIZE_MAX
    ensures fl == Fl(Rounded(size)) < FL_INDEX_COUNT && sl == Sl(Rounded(size)) < SL_INDEX_COUNT
  {
    hide Log2, Pow2, Fl, Sl;
    var s := size;
    if size >= 32 {
      AtLeast32(size);
      var k := FlsSize(size);
      s := size + (Pow2(k - 5) - 1);
    }
    fl, sl := MappingInsert(s);
  }

  lemma AtLeast32(size: nat)
    requires size >= 32
    ensures Log2(size) >= 5
  {
    Log2Monotone(32, size);
    assert Log2(32) == 5;
  }
}
