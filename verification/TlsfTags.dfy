// Boundary tags: how the words of the memory describe the row of blocks. A block header holds
// the previous block's address (only while that block is free, and stored in its last word)
// and a size word whose two low bits say whether this block and the previous one are free.
module TlsfTags {
  import opened TlsfMapping
  import opened TlsfLayout

  // The pool's memory, one word per eight bytes.
  type Mem = map<nat, nat>

  function Rd(m: Mem, w: nat): nat {
    if w in m then m[w] else 0
  }

  // ----- The size word -----

  function SizeOf(word: nat): nat { word - word % 4 }

  predicate FreeBit(word: nat) { word % 4 % 2 == 1 }

  predicate PrevBit(word: nat) { word % 4 >= 2 }

  lemma LowBits(size: nat, low: nat)
    requires size % 4 == 0 && low < 4
    ensures (size + low) % 4 == low
  {
  }

  lemma Quarters(size: nat)
    requires size % ALIGN_SIZE == 0
    ensures size % 4 == 0
  {
    var k := size / 8;
    assert size == 8 * k;
    assert size == 4 * (2 * k);
  }

  lemma WholeQuarters(more: nat, word: nat)
    requires more % 4 == 0
    ensures (more + SizeOf(word)) % 4 == 0
  {
  }

  function Resized(word: nat, size: nat): (r: nat)
    requires size % ALIGN_SIZE == 0
    ensures SizeOf(r) == size && FreeBit(r) == FreeBit(word) && PrevBit(r) == PrevBit(word)
  {
    Quarters(size);
    LowBits(size, word % 4);
    size + word % 4
  }

  function Grown(word: nat, more: nat): (r: nat)
    requires more % ALIGN_SIZE == 0
    ensures SizeOf(r) == SizeOf(word) + more && FreeBit(r) == FreeBit(word) && PrevBit(r) == PrevBit(word)
  {
    Quarters(more);
    WholeQuarters(more, word);
    LowBits(more + SizeOf(word), word % 4);
    word + more
  }

  function WithFree(word: nat, free: bool): (r: nat)
    ensures SizeOf(r) == SizeOf(word) && FreeBit(r) == free && PrevBit(r) == PrevBit(word)
  {
    if FreeBit(word) == free then word else if free then word + 1 else word - 1
  }

  function WithPrev(word: nat, free: bool): (r: nat)
    ensures SizeOf(r) == SizeOf(word) && FreeBit(r) == FreeBit(word) && PrevBit(r) == free
  {
    if PrevBit(word) == free then word else if free then word + 2 else word - 2
  }

  // ----- Operations on one header -----

  function BlockSize(m: Mem, b: nat): nat { SizeOf(Rd(m, b + 8)) }

  predicate IsFree(m: Mem, b: nat) { FreeBit(Rd(m, b + 8)) }

  predicate IsPrevFree(m: Mem, b: nat) { PrevBit(Rd(m, b + 8)) }

  function BlockNext(m: Mem, b: nat): nat { b + BlockSize(m, b) + OVERHEAD }

  function SetSize(m: Mem, b: nat, size: nat): Mem
    requires size % ALIGN_SIZE == 0
  {
    m[b + 8 := Resized(Rd(m, b + 8), size)]
  }

  function SetBlockFree(m: Mem, b: nat, free: bool): Mem { m[b + 8 := WithFree(Rd(m, b + 8), free)] }

  function SetPrevFree(m: Mem, b: nat, free: bool): Mem { m[b + 8 := WithPrev(Rd(m, b + 8), free)] }

  function LinkNext(m: Mem, b: nat): Mem { m[BlockNext(m, b) := b] }

  function MarkFree(m: Mem, b: nat): Mem {
    SetBlockFree(SetPrevFree(LinkNext(m, b), BlockNext(m, b), true), b, true)
  }

  function MarkUsed(m: Mem, b: nat): Mem {
    SetBlockFree(SetPrevFree(m, BlockNext(m, b), false), b, false)
  }

  // ----- Tags that agree with the row -----

  ghost predicate SizeTag(m: Mem, row: Row, b: nat)
    requires b in row.bs
  {
    BlockSize(m, b) == row.bs[b].size && IsFree(m, b) == row.bs[b].free
  }

  ghost predicate PrevTag(m: Mem, row: Row, b: nat)
    requires b in row.bs
  {
    IsPrevFree(m, b) == PrevFree(row, b) && (PrevFree(row, b) ==> Rd(m, b) == row.bs[b].prev)
  }

  // Every tag is right, except perhaps what block x says about the block before it.
  ghost predicate TaggedBut(m: Mem, row: Row, x: nat) {
    && (forall b {:trigger SizeTag(m, row, b)} :: b in row.bs ==> SizeTag(m, row, b))
    && (forall b {:trigger PrevTag(m, row, b)} :: b in row.bs && b != x ==> PrevTag(m, row, b))
  }

  ghost predicate Tagged(m: Mem, row: Row) {
    && (forall b {:trigger SizeTag(m, row, b)} :: b in row.bs ==> SizeTag(m, row, b))
    && (forall b {:trigger PrevTag(m, row, b)} :: b in row.bs ==> PrevTag(m, row, b))
  }

  lemma TagAt(m: Mem, row: Row, b: nat)
    requires Tagged(m, row) && b in row.bs
    ensures BlockSize(m, b) == row.bs[b].size && IsFree(m, b) == row.bs[b].free
    ensures BlockNext(m, b) == Next(row.bs, b)
    ensures IsPrevFree(m, b) == PrevFree(row, b)
    ensures PrevFree(row, b) ==> Rd(m, b) == row.bs[b].prev
  {
    assert SizeTag(m, row, b) && PrevTag(m, row, b);
  }

  // block_split: the tail of block a becomes a free block whose own prev-free bit and
  // prev_phys_block word are whatever was there before.
  function SplitMem(m: Mem, a: nat, size: nat): Mem
    requires size % ALIGN_SIZE == 0 && BlockSize(m, a) >= size + OVERHEAD && BlockSize(m, a) % ALIGN_SIZE == 0
  {
    var rest := a + size + OVERHEAD;
    MarkFree(SetSize(SetSize(m, rest, BlockSize(m, a) - (size + OVERHEAD)), a, size), rest)
  }

  lemma SplitWords(m: Mem, row: Row, a: nat, size: nat)
    requires Tiled(row) && CanSplit(row, a, size) && SizeTag(m, row, a)
    ensures BlockSize(m, a) == row.bs[a].size && row.bs[a].size % ALIGN_SIZE == 0
    ensures var r, n := a + size + OVERHEAD, Next(row.bs, a);
      SplitMem(m, a, size) == m[r + 8 := WithFree(Resized(Rd(m, r + 8), row.bs[a].size - size - OVERHEAD), true)]
        [a + 8 := Resized(Rd(m, a + 8), size)][n := r][n + 8 := WithPrev(Rd(m, n + 8), true)]
  {
    hide SizeOf, FreeBit, PrevBit, Tiled;
    AtBlock(row, a);
    SplitPoint(row, a, size);
  }

  lemma SplitTagged(m: Mem, row: Row, a: nat, size: nat)
    requires Tiled(row) && CanSplit(row, a, size) && Tagged(m, row)
    ensures BlockSize(m, a) == row.bs[a].size && row.bs[a].size % ALIGN_SIZE == 0
    ensures Next(row.bs, a) in row.bs
    ensures TaggedBut(SplitMem(m, a, size), row.(bs := Split(row.bs, a, size)), a + size + OVERHEAD)
  {
    hide SizeOf, FreeBit, PrevBit, SplitMem, Tiled, Resized, WithFree, WithPrev;
    TagAt(m, row, a);
    AtBlock(row, a);
    SplitPoint(row, a, size);
    SplitWords(m, row, a, size);
    var after := row.(bs := Split(row.bs, a, size));
    forall x | x in after.bs
      ensures SizeTag(SplitMem(m, a, size), after, x)
      ensures x != a + size + OVERHEAD ==> PrevTag(SplitMem(m, a, size), after, x)
    {
      SplitTag(m, row, a, size, x);
    }
  }

  lemma SplitTag(m: Mem, row: Row, a: nat, size: nat, x: nat)
    requires Tiled(row) && CanSplit(row, a, size) && Tagged(m, row)
    requires BlockSize(m, a) == row.bs[a].size && row.bs[a].size % ALIGN_SIZE == 0 && Next(row.bs, a) in row.bs
    requires x in Split(row.bs, a, size)
    ensures SizeTag(SplitMem(m, a, size), row.(bs := Split(row.bs, a, size)), x)
    ensures x != a + size + OVERHEAD ==> PrevTag(SplitMem(m, a, size), row.(bs := Split(row.bs, a, size)), x)
  {
    hide SizeOf, FreeBit, PrevBit, SplitMem, Tiled, Resized, WithFree, WithPrev, Tagged;
    var r, n := a + size + OVERHEAD, Next(row.bs, a);
    AtBlock(row, a);
    TagAt(m, row, a);
    TagAt(m, row, n);
    AtBlock(row, a);
    SplitPoint(row, a, size);
    SplitWords(m, row, a, size);
    if x != r {
      TagAt(m, row, x);
      SplitApart(row, a, size, x);
      if x != a { HeadersApart(row, a, x); }
      if x != n { HeadersApart(row, n, x); }
      if x != n && x != row.first { PrevIs(row, x, a); }
    }
  }

  // Only its successor has block a in front of it.
  lemma PrevIs(row: Row, x: nat, a: nat)
    requires Tiled(row) && a in row.bs && x in row.bs && x != row.first && x != Next(row.bs, a)
    ensures row.bs[x].prev in row.bs && row.bs[x].prev != a
  {
    assert Fits(row, x);
  }

  // Writing down what block r says about the block before it completes the tags.
  lemma FixTagged(m: Mem, row: Row, r: nat, after: Mem)
    requires Tiled(row) && r in row.bs && TaggedBut(m, row, r)
    requires Rd(after, r + 8) == WithPrev(Rd(m, r + 8), PrevFree(row, r))
    requires PrevFree(row, r) ==> Rd(after, r) == row.bs[r].prev
    requires forall w {:trigger Rd(after, w)} :: w != r && w != r + 8 ==> Rd(after, w) == Rd(m, w)
    ensures Tagged(after, row)
  {
    hide SizeOf, FreeBit, PrevBit, Tiled, WithPrev;
    forall x | x in row.bs
      ensures SizeTag(after, row, x) && PrevTag(after, row, x)
    {
      assert SizeTag(m, row, x);
      if x != r {
        assert PrevTag(m, row, x);
        HeadersApart(row, x, r);
      }
    }
  }

  // block_absorb: block a takes over its successor; flags stay.
  function AbsorbMem(m: Mem, a: nat, b: nat): Mem
    requires BlockSize(m, b) % ALIGN_SIZE == 0
  {
    LinkNext(m[a + 8 := Grown(Rd(m, a + 8), BlockSize(m, b) + OVERHEAD)], a)
  }

  lemma AbsorbWords(m: Mem, row: Row, a: nat)
    requires Tiled(row) && CanAbsorb(row, a) && SizeTag(m, row, a) && SizeTag(m, row, Next(row.bs, a))
    ensures BlockSize(m, Next(row.bs, a)) % ALIGN_SIZE == 0
    ensures var b := Next(row.bs, a);
      AbsorbMem(m, a, b) == m[a + 8 := Grown(Rd(m, a + 8), row.bs[b].size + OVERHEAD)][Next(row.bs, b) := a]
  {
    hide SizeOf, FreeBit, PrevBit, Tiled;
    AbsorbPossible(row, a);
    AtBlock(row, Next(row.bs, a));
  }

  // The tags are right again, except that the block behind keeps its prev-free bit.
  lemma AbsorbTagged(m: Mem, row: Row, a: nat)
    requires Tiled(row) && CanAbsorb(row, a) && Tagged(m, row) && row.bs[Next(row.bs, a)].free
    ensures BlockSize(m, Next(row.bs, a)) % ALIGN_SIZE == 0
    ensures var after := row.(bs := Absorb(row.bs, a));
      var b := Next(row.bs, a);
      && TaggedBut(AbsorbMem(m, a, b), after, Next(row.bs, b))
      && (row.bs[a].free ==> Tagged(AbsorbMem(m, a, b), after))
  {
    hide SizeOf, FreeBit, PrevBit, Tiled, AbsorbMem, Tagged, Grown;
    var b := Next(row.bs, a);
    TagAt(m, row, a);
    TagAt(m, row, b);
    AbsorbPossible(row, a);
    AbsorbWords(m, row, a);
    var after := row.(bs := Absorb(row.bs, a));
    forall x | x in after.bs
      ensures SizeTag(AbsorbMem(m, a, b), after, x)
      ensures x != Next(row.bs, b) || row.bs[a].free ==> PrevTag(AbsorbMem(m, a, b), after, x)
    {
      AbsorbTag(m, row, a, x);
    }
    assert TaggedBut(AbsorbMem(m, a, b), after, Next(row.bs, b));
    if row.bs[a].free { AllTagged(AbsorbMem(m, a, b), after); }
  }

  lemma AllTagged(m: Mem, row: Row)
    requires forall x :: x in row.bs ==> SizeTag(m, row, x) && PrevTag(m, row, x)
    ensures Tagged(m, row)
  {
  }

  lemma AbsorbTag(m: Mem, row: Row, a: nat, x: nat)
    requires Tiled(row) && CanAbsorb(row, a) && Tagged(m, row) && row.bs[Next(row.bs, a)].free
    requires BlockSize(m, Next(row.bs, a)) % ALIGN_SIZE == 0
    requires x in Absorb(row.bs, a)
    ensures var after := row.(bs := Absorb(row.bs, a));
      var b := Next(row.bs, a);
      && SizeTag(AbsorbMem(m, a, b), after, x)
      && (x != Next(row.bs, b) || row.bs[a].free ==> PrevTag(AbsorbMem(m, a, b), after, x))
  {
    hide SizeOf, FreeBit, PrevBit, AbsorbMem, Tiled, Grown, Tagged;
    var b := Next(row.bs, a);
    var n := Next(row.bs, b);
    AbsorbPossible(row, a);
    TagAt(m, row, a);
    TagAt(m, row, b);
    TagAt(m, row, x);
    AbsorbWords(m, row, a);
    AtBlock(row, b);
    if x != a { HeadersApart(row, a, x); }
    if x != n { HeadersApart(row, n, x); }
    if x != n && x != row.first { PrevIs(row, x, b); }
  }

  lemma MarkFreeTagged(m: Mem, row: Row, a: nat)
    requires Tiled(row) && a in row.bs && a != row.last && Tagged(m, row)
    ensures Tagged(MarkFree(m, a), row.(bs := SetFree(row.bs, a, true)))
  {
    hide SizeOf, FreeBit, PrevBit, Tiled, WithFree, WithPrev, Tagged;
    TagAt(m, row, a);
    AtBlock(row, a);
    var n := Next(row.bs, a);
    var after := row.(bs := SetFree(row.bs, a, true));
    forall x | x in after.bs
      ensures SizeTag(MarkFree(m, a), after, x) && PrevTag(MarkFree(m, a), after, x)
    {
      TagAt(m, row, x);
      if x != a { HeadersApart(row, a, x); }
      if x != n { HeadersApart(row, n, x); }
      if x != n && x != row.first { PrevIs(row, x, a); }
    }
    AllTagged(MarkFree(m, a), after);
  }

  lemma MarkUsedTagged(m: Mem, row: Row, a: nat)
    requires Tiled(row) && a in row.bs && a != row.last && TaggedBut(m, row, Next(row.bs, a))
    ensures Tagged(MarkUsed(m, a), row.(bs := SetFree(row.bs, a, false)))
  {
    hide SizeOf, FreeBit, PrevBit, Tiled, WithFree, WithPrev;
    AtBlock(row, a);
    var n := Next(row.bs, a);
    var after := row.(bs := SetFree(row.bs, a, false));
    assert SizeTag(m, row, a);
    forall x | x in after.bs
      ensures SizeTag(MarkUsed(m, a), after, x) && PrevTag(MarkUsed(m, a), after, x)
    {
      assert SizeTag(m, row, x);
      if x != a { HeadersApart(row, a, x); }
      if x != n {
        assert PrevTag(m, row, x);
        HeadersApart(row, n, x);
      }
      if x != n && x != row.first { PrevIs(row, x, a); }
    }
  }

  lemma TaggedIsTaggedBut(m: Mem, row: Row, x: nat)
    requires Tagged(m, row)
    ensures TaggedBut(m, row, x)
  {
  }
}
