// What the operations do to a row as a whole: merging leaves no two free neighbours, and
// the bytes of the pool are conserved.
module TlsfRows {
  import opened TlsfMapping
  import opened TlsfLayout

  // ----- Merging -----

  // No two free neighbours, except perhaps x and the block in front of or behind it.
  ghost predicate CoalescedBut(row: Row, x: nat) {
    forall a {:trigger NextUsed(row, a)} :: a in row.bs && a != x && Next(row.bs, a) != x ==> NextUsed(row, a)
  }

  function MergedPrev(row: Row, a: nat): Row
    requires a in row.bs && (PrevFree(row, a) ==> CanAbsorb(row, row.bs[a].prev))
  {
    if PrevFree(row, a) then row.(bs := Absorb(row.bs, row.bs[a].prev)) else row
  }

  function MergedAt(row: Row, a: nat): nat
    requires a in row.bs
  {
    if PrevFree(row, a) then row.bs[a].prev else a
  }

  predicate NextFree(row: Row, a: nat)
    requires a in row.bs
  {
    Next(row.bs, a) in row.bs && row.bs[Next(row.bs, a)].free
  }

  function MergedNext(row: Row, a: nat): Row
    requires a in row.bs && (NextFree(row, a) ==> CanAbsorb(row, a))
  {
    if NextFree(row, a) then row.(bs := Absorb(row.bs, a)) else row
  }

  lemma SentinelUsed(row: Row)
    requires Tiled(row)
    ensures row.last in row.bs && !row.bs[row.last].free && row.first in row.bs && row.first != row.last
  {
  }

  lemma CanMerge(row: Row, a: nat)
    requires Tiled(row) && a in row.bs && a != row.last
    ensures NextFree(row, a) ==> CanAbsorb(row, a)
    ensures PrevFree(row, a) ==> CanAbsorb(row, row.bs[a].prev) && Next(row.bs, row.bs[a].prev) == a
  {
    hide Tiled;
    SentinelUsed(row);
    AtBlock(row, a);
    if NextFree(row, a) { AbsorbPossible(row, a); }
    if PrevFree(row, a) { AbsorbPossible(row, row.bs[a].prev); }
  }

  lemma FreedCoalesced(row: Row, a: nat)
    requires Tiled(row) && Coalesced(row) && a in row.bs && a != row.last
    ensures CoalescedBut(row.(bs := SetFree(row.bs, a, true)), a)
  {
    var after := row.(bs := SetFree(row.bs, a, true));
    forall b | b in after.bs && b != a && Next(after.bs, b) != a
      ensures NextUsed(after, b)
    {
      assert NextUsed(row, b);
    }
  }

  lemma MergePrevCoalesced(row: Row, a: nat)
    requires Tiled(row) && CoalescedBut(row, a) && a in row.bs && a != row.last
    ensures PrevFree(row, a) ==> CanAbsorb(row, row.bs[a].prev)
    ensures var after, p := MergedPrev(row, a), MergedAt(row, a);
      p in after.bs && CoalescedBut(after, p) && !PrevFree(after, p)
  {
    hide Tiled;
    CanMerge(row, a);
    if PrevFree(row, a) {
      var p := row.bs[a].prev;
      AbsorbPossible(row, p);
      AtBlock(row, p);
      var after := MergedPrev(row, a);
      forall b | b in after.bs && b != p && Next(after.bs, b) != p
        ensures NextUsed(after, b)
      {
        MergedNextUsed(row, a, p, b);
      }
      NotPrevFree(row, a, p);
    }
  }

  lemma MergedNextUsed(row: Row, a: nat, p: nat, b: nat)
    requires Tiled(row) && CoalescedBut(row, a) && a in row.bs && p in row.bs && Next(row.bs, p) == a
    requires CanAbsorb(row, p) && b in Absorb(row.bs, p) && b != p && Next(Absorb(row.bs, p), b) != p
    ensures NextUsed(row.(bs := Absorb(row.bs, p)), b)
  {
    hide Tiled;
    AbsorbPossible(row, p);
    if b != row.last && b != a {
      AtBlock(row, b);
      AtBlock(row, p);
      assert Next(row.bs, b) != a;
      assert NextUsed(row, b);
    }
  }

  lemma NotPrevFree(row: Row, a: nat, p: nat)
    requires Tiled(row) && CoalescedBut(row, a) && a in row.bs && p in row.bs && Next(row.bs, p) == a && row.bs[p].free
    requires CanAbsorb(row, p)
    ensures !PrevFree(row.(bs := Absorb(row.bs, p)), p)
  {
    hide Tiled;
    AbsorbPossible(row, p);
    AtBlock(row, p);
    if p != row.first {
      var q := row.bs[p].prev;
      AtBlock(row, q);
      assert q != a && Next(row.bs, q) != a;
      assert NextUsed(row, q);
    }
  }

  // Merging with the block behind leaves no two free neighbours.
  lemma MergeNextCoalesced(row: Row, a: nat)
    requires Tiled(row) && CoalescedBut(row, a) && a in row.bs && a != row.last
    requires !PrevFree(row, a) || !row.bs[a].free
    ensures NextFree(row, a) ==> CanAbsorb(row, a)
    ensures Coalesced(MergedNext(row, a))
  {
    hide Tiled;
    CanMerge(row, a);
    var after := MergedNext(row, a);
    forall b | b in after.bs
      ensures NextUsed(after, b)
    {
      MergedCoalesced(row, a, b);
    }
  }

  lemma MergedCoalesced(row: Row, a: nat, b: nat)
    requires Tiled(row) && CoalescedBut(row, a) && a in row.bs && a != row.last
    requires !PrevFree(row, a) || !row.bs[a].free
    requires NextFree(row, a) ==> CanAbsorb(row, a)
    requires b in MergedNext(row, a).bs
    ensures NextUsed(MergedNext(row, a), b)
  {
    hide Tiled;
    var n := Next(row.bs, a);
    AtBlock(row, a);
    if b != row.last && b != n {
      AtBlock(row, b);
      if b != a && Next(row.bs, b) != a { assert NextUsed(row, b); }
    }
    if NextFree(row, a) {
      AbsorbPossible(row, a);
      AtBlock(row, n);
      assert NextUsed(row, n);
    } else if b == n && b != row.last {
      AtBlock(row, b);
      assert NextUsed(row, b);
    }
  }

  // Cutting block a changes nothing for other blocks.
  lemma SplitNextUsed(row: Row, a: nat, size: nat, b: nat)
    requires Tiled(row) && CanSplit(row, a, size) && Next(row.bs, a) in row.bs
    requires b in row.bs && b != a && NextUsed(row, b)
    ensures b in Split(row.bs, a, size) && NextUsed(row.(bs := Split(row.bs, a, size)), b)
    ensures b != row.last ==> Next(Split(row.bs, a, size), b) == Next(row.bs, b) != a + size + OVERHEAD
  {
    hide Tiled;
    SplitPoint(row, a, size);
    if b != row.last { AtBlock(row, b); }
  }

  // The tail cut off a free block is followed by a used one.
  lemma SplitRest(row: Row, a: nat, size: nat)
    requires Tiled(row) && CanSplit(row, a, size) && row.bs[a].free && NextUsed(row, a)
    ensures Next(row.bs, a) in row.bs
    ensures var after := row.(bs := Split(row.bs, a, size));
      a + size + OVERHEAD in after.bs && NextUsed(after, a + size + OVERHEAD)
  {
    hide Tiled;
    AtBlock(row, a);
    SplitPoint(row, a, size);
  }

  lemma SplitCoalesced(row: Row, a: nat, size: nat)
    requires Tiled(row) && CanSplit(row, a, size) && row.bs[a].free && CoalescedBut(row, a) && NextUsed(row, a)
    ensures Next(row.bs, a) in row.bs
    ensures CoalescedBut(row.(bs := Split(row.bs, a, size)), a)
  {
    hide Tiled;
    SplitRest(row, a, size);
    SplitPoint(row, a, size);
    var r, after := a + size + OVERHEAD, row.(bs := Split(row.bs, a, size));
    forall b | b in after.bs && b != a && Next(after.bs, b) != a
      ensures NextUsed(after, b)
    {
      if b != r {
        assert NextUsed(row, b) by { SplitNextSame(row, a, size, b); }
        SplitNextUsed(row, a, size, b);
      }
    }
  }

  lemma SplitNextSame(row: Row, a: nat, size: nat, b: nat)
    requires Tiled(row) && CanSplit(row, a, size) && Next(row.bs, a) in row.bs
    requires b in Split(row.bs, a, size) && b != a && b != a + size + OVERHEAD
    ensures b in row.bs && Next(Split(row.bs, a, size), b) == Next(row.bs, b)
  {
    hide Tiled;
    SplitPoint(row, a, size);
  }

  // Seen from the tail, nothing else can be wrong.
  lemma TailCoalesced(row: Row, a: nat, size: nat)
    requires Tiled(row) && CanSplit(row, a, size) && Coalesced(row)
    ensures Next(row.bs, a) in row.bs
    ensures CoalescedBut(row.(bs := Split(row.bs, a, size)), a + size + OVERHEAD)
  {
    hide Tiled;
    AtBlock(row, a);
    SplitPoint(row, a, size);
    var r, after := a + size + OVERHEAD, row.(bs := Split(row.bs, a, size));
    forall b | b in after.bs && b != r && Next(after.bs, b) != r
      ensures NextUsed(after, b)
    {
      if b != a {
        SplitNextSame(row, a, size, b);
        assert NextUsed(row, b);
        SplitNextUsed(row, a, size, b);
      }
    }
  }

  // Taking the block into use settles the rest.
  lemma UsedCoalesced(row: Row, a: nat)
    requires Tiled(row) && a in row.bs && CoalescedBut(row, a)
    ensures Coalesced(row.(bs := SetFree(row.bs, a, false)))
  {
    var after := row.(bs := SetFree(row.bs, a, false));
    forall b | b in after.bs
      ensures NextUsed(after, b)
    {
      if b != row.last { AtBlock(row, b); }
      if b != a && Next(row.bs, b) != a { assert NextUsed(row, b); }
    }
  }

  lemma CoalescedAt(row: Row, a: nat)
    requires Coalesced(row) && a in row.bs
    ensures CoalescedBut(row, a) && NextUsed(row, a)
  {
  }

  // ----- Conservation -----

  // Bytes in used blocks, and bytes in all blocks with their overhead, from block x on.
  ghost function UsedFrom(row: Row, x: nat): nat
    requires Tiled(row) && x in row.bs
    decreases row.last - x
  {
    if x == row.last then 0
    else
      AtBlock(row, x);
      (if row.bs[x].free then 0 else row.bs[x].size) + UsedFrom(row, Next(row.bs, x))
  }

  ghost function BytesFrom(row: Row, x: nat): nat
    requires Tiled(row) && x in row.bs
    decreases row.last - x
  {
    if x == row.last then 0
    else
      AtBlock(row, x);
      row.bs[x].size + OVERHEAD + BytesFrom(row, Next(row.bs, x))
  }

  ghost function UsedBytes(row: Row): nat
    requires Tiled(row)
  {
    UsedFrom(row, row.first)
  }

  // However the pool is cut up, blocks and overhead fill it exactly.
  lemma {:induction false} Conservation(row: Row, x: nat)
    requires Tiled(row) && x in row.bs
    ensures BytesFrom(row, x) == row.last - x
    decreases row.last - x
  {
    hide Tiled;
    if x != row.last {
      AtBlock(row, x);
      Conservation(row, Next(row.bs, x));
    }
  }

  // Two rows with the same blocks from x on.
  ghost predicate SameAt(row: Row, after: Row, b: nat) {
    && (b in row.bs <==> b in after.bs)
    && (b in row.bs ==> row.bs[b].size == after.bs[b].size && row.bs[b].free == after.bs[b].free)
  }

  lemma {:induction false} SameTail(row: Row, after: Row, x: nat)
    requires Tiled(row) && Tiled(after) && row.last == after.last && x in row.bs && x in after.bs
    requires forall b: nat {:trigger SameAt(row, after, b)} :: b >= x ==> SameAt(row, after, b)
    ensures UsedFrom(row, x) == UsedFrom(after, x)
    decreases row.last - x
  {
    hide Tiled;
    if x != row.last {
      AtBlock(row, x);
      AtBlock(after, x);
      assert SameAt(row, after, x);
      SameTail(row, after, Next(row.bs, x));
    }
  }

  // Rows with the same blocks in front of a differ by what they have from a on.
  lemma {:induction false} SameFront(row: Row, after: Row, x: nat, a: nat)
    requires Tiled(row) && Tiled(after) && row.last == after.last && a in row.bs && a in after.bs
    requires x in row.bs && x in after.bs && x <= a
    requires forall b: nat {:trigger SameAt(row, after, b)} :: b < a ==> SameAt(row, after, b)
    ensures UsedFrom(after, x) - UsedFrom(after, a) == UsedFrom(row, x) - UsedFrom(row, a)
    decreases row.last - x
  {
    hide Tiled;
    if x < a {
      TiledAt(row, x, a);
      AtBlock(row, x);
      AtBlock(after, x);
      assert SameAt(row, after, x);
      TiledAt(after, x, a);
      SameFront(row, after, Next(row.bs, x), a);
    }
  }

  lemma TiledAt(row: Row, x: nat, a: nat)
    requires Tiled(row) && x in row.bs && a in row.bs && x < a
    ensures x != row.last && Next(row.bs, x) <= a
  {
    assert Apart(row.bs, x, a);
    assert Fits(row, a);
  }

  lemma FrontOf(row: Row, a: nat)
    requires Tiled(row) && a in row.bs
    ensures row.first <= a && row.first in row.bs
  {
    assert Fits(row, a);
  }

  lemma UsedSetFree(row: Row, a: nat)
    requires Tiled(row) && a in row.bs && a != row.last
    ensures var after := row.(bs := SetFree(row.bs, a, !row.bs[a].free));
      Tiled(after) &&
      UsedBytes(after) == if row.bs[a].free then UsedBytes(row) + row.bs[a].size else UsedBytes(row) - row.bs[a].size
  {
    hide Tiled;
    SetFreeTiled(row, a, !row.bs[a].free);
    var after := row.(bs := SetFree(row.bs, a, !row.bs[a].free));
    AtBlock(row, a);
    FrontOf(row, a);
    forall b: nat | b != a
      ensures SameAt(row, after, b)
    {
    }
    SameFront(row, after, row.first, a);
    SameTail(row, after, Next(row.bs, a));
  }

  lemma UsedSplit(row: Row, a: nat, size: nat)
    requires Tiled(row) && CanSplit(row, a, size)
    ensures Next(row.bs, a) in row.bs
    ensures var after := row.(bs := Split(row.bs, a, size));
      Tiled(after) &&
      UsedBytes(after) == if row.bs[a].free then UsedBytes(row) else UsedBytes(row) - row.bs[a].size + size
  {
    hide Tiled;
    SplitTiled(row, a, size);
    SplitPoint(row, a, size);
    var r, n, after := a + size + OVERHEAD, Next(row.bs, a), row.(bs := Split(row.bs, a, size));
    AtBlock(row, a);
    FrontOf(row, a);
    forall b: nat | b < a || b >= n
      ensures SameAt(row, after, b)
    {
    }
    SameFront(row, after, row.first, a);
    SameTail(row, after, n);
    assert UsedFrom(after, r) == UsedFrom(after, n) by { AtBlock(after, r); }
    assert UsedFrom(after, a) == (if row.bs[a].free then 0 else size) + UsedFrom(after, r) by { AtBlock(after, a); }
  }

  lemma UsedAbsorb(row: Row, a: nat)
    requires Tiled(row) && CanAbsorb(row, a) && row.bs[Next(row.bs, a)].free
    ensures var after := row.(bs := Absorb(row.bs, a));
      Tiled(after) &&
      UsedBytes(after) == if row.bs[a].free then UsedBytes(row) else UsedBytes(row) + row.bs[Next(row.bs, a)].size + OVERHEAD
  {
    hide Tiled;
    AbsorbTiled(row, a);
    AbsorbPossible(row, a);
    var b := Next(row.bs, a);
    var n, after := Next(row.bs, b), row.(bs := Absorb(row.bs, a));
    AtBlock(row, a);
    FrontOf(row, a);
    forall x: nat | x < a || x >= n
      ensures SameAt(row, after, x)
    {
    }
    SameFront(row, after, row.first, a);
    SameTail(row, after, n);
    assert UsedFrom(row, a) == (if row.bs[a].free then 0 else row.bs[a].size) + UsedFrom(row, b);
    assert UsedFrom(after, a) == (if row.bs[a].free then 0 else after.bs[a].size) + UsedFrom(after, n) by { AtBlock(after, a); }
  }

  // A coalesced pool without used blocks is one free block that takes all of it.
  lemma CanonicalEmpty(row: Row)
    requires Tiled(row) && Coalesced(row)
    requires forall b :: b in row.bs && b != row.last ==> row.bs[b].free
    ensures row.bs.Keys == {row.first, row.last}
    ensures row.bs[row.first].free && row.first + row.bs[row.first].size + OVERHEAD == row.last
  {
    SentinelUsed(row);
    AtBlock(row, row.first);
    assert NextUsed(row, row.first);
    assert Next(row.bs, row.first) == row.last;
    forall b | b in row.bs
      ensures b == row.first || b == row.last
    {
      assert Apart(row.bs, row.first, b) && Fits(row, b);
      assert Apart(row.bs, row.last, b);
    }
  }

  // ----- Freeing a block -----

  lemma MergedTiled(row: Row, a: nat)
    requires Tiled(row) && a in row.bs && a != row.last
    ensures NextFree(row, a) ==> CanAbsorb(row, a)
    ensures var after := MergedNext(row, a);
      Tiled(after) && a in after.bs && after.bs[a].free == row.bs[a].free && after.last == row.last && after.first == row.first
    ensures row.bs[a].free ==> UsedBytes(MergedNext(row, a)) == UsedBytes(row)
    ensures !row.bs[a].free ==> UsedBytes(MergedNext(row, a)) == UsedBytes(row) + (MergedNext(row, a).bs[a].size - row.bs[a].size)
  {
    hide Tiled;
    CanMerge(row, a);
    if NextFree(row, a) {
      AbsorbPossible(row, a);
      AbsorbTiled(row, a);
      UsedAbsorb(row, a);
    }
  }

  lemma MergedPrevTiled(row: Row, a: nat)
    requires Tiled(row) && a in row.bs && a != row.last && row.bs[a].free
    ensures PrevFree(row, a) ==> CanAbsorb(row, row.bs[a].prev)
    ensures var after, b := MergedPrev(row, a), MergedAt(row, a);
      && Tiled(after) && b in after.bs && after.bs[b].free && after.last == row.last && after.first == row.first
      && b != row.last && (b == a || a !in after.bs)
      && UsedBytes(after) == UsedBytes(row)
  {
    hide Tiled;
    CanMerge(row, a);
    if PrevFree(row, a) {
      var p := row.bs[a].prev;
      AbsorbPossible(row, p);
      AbsorbTiled(row, p);
      UsedAbsorb(row, p);
    }
  }

  // The row after block a was freed and joined to its free neighbours.
  ghost function FreedRow(row: Row, a: nat): Row
    requires Tiled(row) && a in row.bs && a != row.last
  {
    SetFreeTiled(row, a, true);
    var freed := row.(bs := SetFree(row.bs, a, true));
    MergedPrevTiled(freed, a);
    var joined := MergedPrev(freed, a);
    MergedTiled(joined, MergedAt(freed, a));
    MergedNext(joined, MergedAt(freed, a))
  }

  lemma FreedRowFacts(row: Row, a: nat)
    requires Tiled(row) && Coalesced(row) && a in row.bs && a != row.last && !row.bs[a].free
    ensures Tiled(FreedRow(row, a)) && Coalesced(FreedRow(row, a))
    ensures UsedBytes(FreedRow(row, a)) == UsedBytes(row) - row.bs[a].size
    ensures a in FreedRow(row, a).bs ==> FreedRow(row, a).bs[a].free
  {
    hide Tiled;
    SetFreeTiled(row, a, true);
    UsedSetFree(row, a);
    FreedCoalesced(row, a);
    var freed := row.(bs := SetFree(row.bs, a, true));
    MergedPrevTiled(freed, a);
    MergePrevCoalesced(freed, a);
    var joined, b := MergedPrev(freed, a), MergedAt(freed, a);
    MergedTiled(joined, b);
    MergeNextCoalesced(joined, b);
    if a !in joined.bs { MergedAdds(joined, b, a); }
  }

  lemma MergedAdds(row: Row, b: nat, a: nat)
    requires Tiled(row) && b in row.bs && b != row.last && a !in row.bs
    requires NextFree(row, b) ==> CanAbsorb(row, b)
    ensures a !in MergedNext(row, b).bs
  {
  }
}
