// Requests that the allocator does not survive, and exactly which they are.
module TlsfEdges {
  import opened Powers
  import opened TlsfBits
  import opened TlsfMapping
  import opened TlsfSizes
  import opened TlsfLayout
  import opened TlsfKeep

  // The width of the last classes.
  const TOP_CLASS: nat := 0x400_0000

  // A size has a list exactly when it is below the maximum: a pool of exactly the maximum
  // size, which is accepted, starts with a block that has none.
  lemma HasList(size: nat)
    ensures Fl(size) < FL_INDEX_COUNT <==> size < BLOCK_SIZE_MAX
  {
    hide Log2, Pow2, Width, Class, Sl;
    if size < BLOCK_SIZE_MAX {
      ClassInRange(size);
    } else {
      Log2Monotone(BLOCK_SIZE_MAX, size);
      Word32();
      Log2OfPow2(32);
    }
  }

  lemma TopPowers()
    ensures Pow2(26) == TOP_CLASS && Pow2(31) == 0x8000_0000 && Pow2(32) == BLOCK_SIZE_MAX
  {
    Word32();
    Pow2Adds(26, 6);
    assert Pow2(3) == 8;
    assert Pow2(6) == 8 * Pow2(3);
  }

  lemma TopRounded(size: nat)
    requires size < BLOCK_SIZE_MAX
    ensures size >= 0x8000_0000 ==> Rounded(size) == size + (TOP_CLASS - 1)
    ensures size < 0x8000_0000 ==> Rounded(size) < size + TOP_CLASS
  {
    hide Log2, Pow2;
    TopPowers();
    if size >= 0x8000_0000 {
      Pow2Double(31);
      Log2Is(size, 31);
    } else if size >= 32 {
      Log2Monotone(size, 0x8000_0000);
      Log2OfPow2(31);
      Pow2Grows(if Log2(size) >= 5 then Log2(size) - 5 else 0, 26);
    }
  }

  lemma Pow2Double(k: nat)
    ensures Pow2(k + 1) == 2 * Pow2(k)
  {
  }

  lemma AdjustedUp(size: nat)
    requires 0 < size < BLOCK_SIZE_MAX
    ensures var a := Adjusted(size, ALIGN_SIZE); a % 8 == 0 && size <= a && (a < size + 8 || a == BLOCK_SIZE_MIN)
  {
    AdjustedFacts(size, ALIGN_SIZE);
  }

  // The list searched for a request lies in the table exactly when the request is not among
  // the 2^26 - 1 sizes below the maximum.
  lemma Searchable(size: nat)
    requires size > 0
    ensures Fl(Rounded(Adjusted(size, ALIGN_SIZE))) < FL_INDEX_COUNT <==> Rounded(Adjusted(size, ALIGN_SIZE)) < BLOCK_SIZE_MAX
    ensures Rounded(Adjusted(size, ALIGN_SIZE)) < BLOCK_SIZE_MAX <==> size <= BLOCK_SIZE_MAX - TOP_CLASS || size >= BLOCK_SIZE_MAX
  {
    hide Log2, Pow2, Fl, Rounded, Adjusted;
    var a := Adjusted(size, ALIGN_SIZE);
    HasList(Rounded(a));
    AdjustedFacts(size, ALIGN_SIZE);
    RoundsUp(a);
    if 0 < size < BLOCK_SIZE_MAX {
      AdjustedUp(size);
      if a < BLOCK_SIZE_MAX { TopRounded(a); }
    }
  }

  lemma RoundsUp(size: nat)
    ensures size <= Rounded(size) && (size == 0 ==> Rounded(size) == 0)
  {
  }

  // Cutting a block of the row at 0, as for a request adjusted to 0.
  lemma ZeroCut(row: Row, b: nat)
    requires Tiled(row) && b in row.bs && b != row.last && row.bs[b].size >= HEADER
    ensures Next(row.bs, b) in row.bs && !Tiled(row.(bs := Split(row.bs, b, 0)))
  {
    AtBlock(row, b);
    var after := row.(bs := Split(row.bs, b, 0));
    assert after.bs[b].size == 0;
    assert !Fits(after, b);
  }

  // Resizing a live block to the maximum size or more is not refused: the block is cut to
  // nothing if a header fits, and in no case is as large as was asked.
  lemma HugeRealloc(row: Row, b: nat, size: nat)
    requires Tiled(row) && InUse(row, b) && size > 0
    ensures Adjusted(size, ALIGN_SIZE) == 0 <==> size >= BLOCK_SIZE_MAX
    ensures size >= BLOCK_SIZE_MAX ==> row.bs[b].size < size
    ensures size >= BLOCK_SIZE_MAX && row.bs[b].size >= HEADER ==>
      Next(row.bs, b) in row.bs && !Tiled(row.(bs := Split(row.bs, b, Adjusted(size, ALIGN_SIZE))))
  {
    AdjustedFacts(size, ALIGN_SIZE);
    AtBlock(row, b);
    if row.bs[b].size >= HEADER { ZeroCut(row, b); }
  }
}
