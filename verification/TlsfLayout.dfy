// The pool as a row of blocks: how blocks tile it, and how splitting and absorbing a block
// changes the row. Addresses are those of block headers; a block's successor starts right
// after its payload, less the word that the two share.
module TlsfLayout {
  import opened TlsfMapping

  // A block: payload size, whether it is free, and the block before it.
  datatype Blk = Blk(size: nat, free: bool, prev: nat)

  type Blocks = map<nat, Blk>

  function Next(bs: Blocks, a: nat): nat
    requires a in bs
  {
    a + bs[a].size + OVERHEAD
  }

  // The row: its first block, the sentinel that ends it, and what lies between.
  datatype Row = Row(first: nat, last: nat, bs: Blocks)

  // Block a fits between its neighbours.
  ghost predicate Fits(row: Row, a: nat)
    requires a in row.bs
  {
    var bs := row.bs;
    && row.first <= a <= row.last && a % ALIGN_SIZE == 0 && bs[a].size % ALIGN_SIZE == 0
    && (a != row.last ==> bs[a].size >= BLOCK_SIZE_MIN && Next(bs, a) in bs && bs[Next(bs, a)].prev == a)
    && (a != row.first ==> bs[a].prev in bs && bs[a].prev != row.last && Next(bs, bs[a].prev) == a)
  }

  // Blocks a and b do not overlap.
  ghost predicate Apart(bs: Blocks, a: nat, b: nat)
    requires a in bs && b in bs
  {
    (a < b ==> Next(bs, a) <= b) && (b < a ==> Next(bs, b) <= a)
  }

  // Blocks tile the pool from the first block up to the zero-size sentinel.
  ghost predicate Tiled(row: Row) {
    && row.first in row.bs && row.last in row.bs
    && row.first < row.last <= row.first + OVERHEAD + BLOCK_SIZE_MAX - ALIGN_SIZE
    && row.bs[row.last].size == 0 && !row.bs[row.last].free
    && (forall a {:trigger Fits(row, a)} :: a in row.bs ==> Fits(row, a))
    && (forall a, b {:trigger Apart(row.bs, a, b)} :: a in row.bs && b in row.bs ==> Apart(row.bs, a, b))
  }

  // A free block is followed by a used one.
  ghost predicate NextUsed(row: Row, a: nat)
    requires a in row.bs
  {
    a != row.last && row.bs[a].free ==> Next(row.bs, a) in row.bs && !row.bs[Next(row.bs, a)].free
  }

  // No two free blocks are adjacent.
  ghost predicate Coalesced(row: Row) {
    forall a {:trigger NextUsed(row, a)} :: a in row.bs ==> NextUsed(row, a)
  }

  // The block in front, if any, is free.
  predicate PrevFree(row: Row, a: nat)
    requires a in row.bs
  {
    a != row.first && row.bs[a].prev in row.bs && row.bs[row.bs[a].prev].free
  }

  // What the row says about a block and its successor.
  lemma AtBlock(row: Row, a: nat)
    requires Tiled(row) && a in row.bs && a != row.last
    ensures row.first <= a < row.last && a % ALIGN_SIZE == 0 && row.bs[a].size % ALIGN_SIZE == 0
    ensures BLOCK_SIZE_MIN <= row.bs[a].size < BLOCK_SIZE_MAX
    ensures Next(row.bs, a) in row.bs && row.bs[Next(row.bs, a)].prev == a && a + HEADER <= Next(row.bs, a) <= row.last
    ensures a != row.first ==> row.bs[a].prev in row.bs && row.bs[a].prev != row.last && Next(row.bs, row.bs[a].prev) == a
  {
    assert Fits(row, a);
    assert Apart(row.bs, a, row.last);
  }

  // The headers of two blocks do not overlap.
  lemma HeadersApart(row: Row, a: nat, b: nat)
    requires Tiled(row) && a in row.bs && b in row.bs && a != b
    ensures a + HEADER <= b || b + HEADER <= a
  {
    assert Apart(row.bs, a, b);
    assert Fits(row, a) && Fits(row, b);
    if a < b { AtBlock(row, a); } else { AtBlock(row, b); }
  }

  // ----- Splitting -----

  // Cut block a after `size` bytes; the rest becomes a free block.
  function Split(bs: Blocks, a: nat, size: nat): Blocks
    requires a in bs && Next(bs, a) in bs && size + HEADER <= bs[a].size
  {
    var r, n := a + size + OVERHEAD, Next(bs, a);
    bs[a := bs[a].(size := size)][r := Blk(bs[a].size - size - OVERHEAD, true, a)][n := bs[n].(prev := r)]
  }

  predicate CanSplit(row: Row, a: nat, size: nat) {
    && a in row.bs && a != row.last
    && size >= BLOCK_SIZE_MIN && size % ALIGN_SIZE == 0 && size + HEADER <= row.bs[a].size
  }

  lemma SplitPoint(row: Row, a: nat, size: nat)
    requires Tiled(row) && CanSplit(row, a, size)
    ensures var r, n := a + size + OVERHEAD, Next(row.bs, a);
      a + HEADER <= r && r + HEADER <= n && r !in row.bs && n in row.bs
  {
    var r := a + size + OVERHEAD;
    AtBlock(row, a);
    forall b | b in row.bs
      ensures b != r
    {
      assert Apart(row.bs, a, b);
    }
  }

  lemma SplitApart(row: Row, a: nat, size: nat, b: nat)
    requires Tiled(row) && CanSplit(row, a, size) && b in row.bs
    ensures var r := a + size + OVERHEAD; b != r && (b + HEADER <= r || r + HEADER <= b)
  {
    SplitPoint(row, a, size);
    assert Apart(row.bs, a, b);
    if b < a { HeadersApart(row, a, b); }
  }

  lemma SplitTiled(row: Row, a: nat, size: nat)
    requires Tiled(row) && CanSplit(row, a, size)
    ensures Next(row.bs, a) in row.bs
    ensures Tiled(row.(bs := Split(row.bs, a, size)))
  {
    AtBlock(row, a);
    SplitPoint(row, a, size);
    var after := row.(bs := Split(row.bs, a, size));
    SplitEnds(row, a, size);
    forall x | x in after.bs
      ensures Fits(after, x)
    {
      SplitFits(row, a, size, x);
    }
    forall x, y | x in after.bs && y in after.bs
      ensures Apart(after.bs, x, y)
    {
      SplitOrdered(row, a, size, x, y);
    }
  }

  lemma SplitEnds(row: Row, a: nat, size: nat)
    requires Tiled(row) && CanSplit(row, a, size) && Next(row.bs, a) in row.bs
    ensures var after := Split(row.bs, a, size);
      row.first in after && row.last in after && after[row.last].size == 0 && !after[row.last].free
  {
    SplitPoint(row, a, size);
    AtBlock(row, a);
  }

  lemma SplitFits(row: Row, a: nat, size: nat, x: nat)
    requires Tiled(row) && CanSplit(row, a, size) && Next(row.bs, a) in row.bs
    requires x in Split(row.bs, a, size)
    ensures Fits(row.(bs := Split(row.bs, a, size)), x)
  {
    var r, n := a + size + OVERHEAD, Next(row.bs, a);
    SplitPoint(row, a, size);
    AtBlock(row, a);
    assert Fits(row, a);
    if x != r {
      assert Fits(row, x);
      if x != a && x != row.last { AtBlock(row, x); }
    }
  }

  lemma SplitOrdered(row: Row, a: nat, size: nat, x: nat, y: nat)
    requires Tiled(row) && CanSplit(row, a, size) && Next(row.bs, a) in row.bs
    requires x in Split(row.bs, a, size) && y in Split(row.bs, a, size)
    ensures Apart(Split(row.bs, a, size), x, y)
  {
    var r := a + size + OVERHEAD;
    SplitPoint(row, a, size);
    if x != r { assert Apart(row.bs, a, x); }
    if y != r { assert Apart(row.bs, a, y); }
    if x != r && y != r { assert Apart(row.bs, x, y); }
  }

  // ----- Absorbing -----

  // Block a takes over its successor.
  function Absorb(bs: Blocks, a: nat): Blocks
    requires a in bs && Next(bs, a) in bs && Next(bs, Next(bs, a)) in bs
  {
    var b := Next(bs, a);
    var n := Next(bs, b);
    (bs - {b})[a := bs[a].(size := bs[a].size + bs[b].size + OVERHEAD)][n := bs[n].(prev := a)]
  }

  predicate CanAbsorb(row: Row, a: nat) {
    && a in row.bs && a != row.last && Next(row.bs, a) in row.bs && Next(row.bs, a) != row.last
    && Next(row.bs, Next(row.bs, a)) in row.bs
  }

  lemma AbsorbPossible(row: Row, a: nat)
    requires Tiled(row) && a in row.bs && a != row.last && Next(row.bs, a) != row.last
    ensures CanAbsorb(row, a)
    ensures a + HEADER <= Next(row.bs, a) && Next(row.bs, a) + HEADER <= Next(row.bs, Next(row.bs, a)) <= row.last
  {
    AtBlock(row, a);
    AtBlock(row, Next(row.bs, a));
  }

  lemma AbsorbTiled(row: Row, a: nat)
    requires Tiled(row) && CanAbsorb(row, a)
    ensures Tiled(row.(bs := Absorb(row.bs, a)))
  {
    AbsorbPossible(row, a);
    var after := row.(bs := Absorb(row.bs, a));
    AbsorbEnds(row, a);
    forall x | x in after.bs
      ensures Fits(after, x)
    {
      AbsorbFits(row, a, x);
    }
    forall x, y | x in after.bs && y in after.bs
      ensures Apart(after.bs, x, y)
    {
      AbsorbOrdered(row, a, x, y);
    }
  }

  lemma AbsorbEnds(row: Row, a: nat)
    requires Tiled(row) && CanAbsorb(row, a)
    ensures var after := Absorb(row.bs, a);
      row.first in after && row.last in after && after[row.last].size == 0 && !after[row.last].free
  {
    AbsorbPossible(row, a);
    AtBlock(row, a);
  }

  lemma AbsorbFits(row: Row, a: nat, x: nat)
    requires Tiled(row) && CanAbsorb(row, a) && x in Absorb(row.bs, a)
    ensures Fits(row.(bs := Absorb(row.bs, a)), x)
  {
    var b := Next(row.bs, a);
    var n := Next(row.bs, b);
    AbsorbPossible(row, a);
    AtBlock(row, a);
    AtBlock(row, b);
    assert Fits(row, x);
    if x != a && x != row.last {
      AtBlock(row, x);
    }
  }

  lemma AbsorbOrdered(row: Row, a: nat, x: nat, y: nat)
    requires Tiled(row) && CanAbsorb(row, a) && x in Absorb(row.bs, a) && y in Absorb(row.bs, a)
    ensures Apart(Absorb(row.bs, a), x, y)
  {
    var b := Next(row.bs, a);
    AbsorbPossible(row, a);
    assert Apart(row.bs, x, y) && Apart(row.bs, a, x) && Apart(row.bs, a, y) && Apart(row.bs, b, x) && Apart(row.bs, b, y);
  }

  function SetFree(bs: Blocks, a: nat, free: bool): Blocks
    requires a in bs
  {
    bs[a := bs[a].(free := free)]
  }

  lemma SetFreeTiled(row: Row, a: nat, free: bool)
    requires Tiled(row) && a in row.bs && a != row.last
    ensures Tiled(row.(bs := SetFree(row.bs, a, free)))
  {
    var after := row.(bs := SetFree(row.bs, a, free));
    forall x | x in after.bs
      ensures Fits(after, x)
    {
      assert Fits(row, x);
    }
    forall x, y | x in after.bs && y in after.bs
      ensures Apart(after.bs, x, y)
    {
      assert Apart(row.bs, x, y);
    }
  }
}
