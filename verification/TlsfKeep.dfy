// What a write leaves alone: the payloads of used blocks, the links of listed blocks, the
// tags, and the word of the pool that counts used bytes (it is the first block's
// prev_phys_block word).
module TlsfKeep {
  import opened TlsfMapping
  import opened TlsfLayout
  import opened TlsfTags
  import opened TlsfChains
  import opened TlsfLists

  // The words that belong to block b's user, or to the free list it is in. A payload ends in
  // the word in front of the next block's size word.
  ghost predicate Inner(bs: Blocks, b: nat, w: nat)
    requires b in bs
  {
    b + START <= w < if bs[b].free then b + HEADER else Next(bs, b) + OVERHEAD
  }

  ghost predicate KeptAt(m: Mem, after: Mem, bs: Blocks, b: nat)
    requires b in bs
  {
    forall w: nat {:trigger Rd(after, w)} :: Inner(bs, b, w) ==> Rd(after, w) == Rd(m, w)
  }

  // Nothing inside a block outside `loose` has changed.
  ghost predicate Kept(m: Mem, after: Mem, row: Row, loose: set<nat>) {
    forall b {:trigger KeptAt(m, after, row.bs, b)} ::
      b in row.bs && b != row.last && b !in loose ==> KeptAt(m, after, row.bs, b)
  }

  // Nothing inside the payload of a used block outside `loose` has changed.
  ghost predicate PayloadsKept(m: Mem, after: Mem, row: Row, loose: set<nat>) {
    forall b {:trigger KeptAt(m, after, row.bs, b)} ::
      b in row.bs && b != row.last && b !in loose && !row.bs[b].free ==> KeptAt(m, after, row.bs, b)
  }

  ghost predicate Harmless(row: Row, loose: set<nat>, w: nat) {
    forall b {:trigger Inner(row.bs, b, w)} :: b in row.bs && b != row.last && b !in loose ==> !Inner(row.bs, b, w)
  }

  // A size word is outside every block.
  lemma TagHarmless(row: Row, loose: set<nat>, x: nat)
    requires Tiled(row) && x in row.bs
    ensures Harmless(row, loose, x + 8) && row.first != x + 8
  {
    hide Tiled;
    forall b | b in row.bs && b != row.last
      ensures !Inner(row.bs, b, x + 8)
    {
      AtBlock(row, b);
      if b != x {
        HeadersApart(row, b, x);
        assert x < b || Next(row.bs, b) <= x by { TiledApart(row, b, x); }
      }
    }
    TiledFits(row, x);
  }

  lemma TiledApart(row: Row, a: nat, b: nat)
    requires Tiled(row) && a in row.bs && b in row.bs
    ensures Apart(row.bs, a, b)
  {
  }

  // So is the inside of a loose block, and the last word of a free one.
  lemma InsideHarmless(row: Row, loose: set<nat>, a: nat, w: nat)
    requires Tiled(row) && a in row.bs && a != row.last && a + 8 <= w <= Next(row.bs, a)
    requires a in loose || (row.bs[a].free && w == Next(row.bs, a))
    ensures Harmless(row, loose, w) && row.first != w
  {
    hide Tiled;
    AtBlock(row, a);
    forall b | b in row.bs && b != row.last && b !in loose
      ensures !Inner(row.bs, b, w)
    {
      AtBlock(row, b);
      TiledApart(row, a, b);
      if b != Next(row.bs, a) { HeadersApart(row, b, Next(row.bs, a)); }
    }
  }

  lemma OnlyHarmless(m: Mem, after: Mem, row: Row, loose: set<nat>)
    requires forall w: nat {:trigger Rd(after, w)} :: Rd(after, w) == Rd(m, w) || Harmless(row, loose, w)
    ensures Kept(m, after, row, loose)
  {
    forall b, w: nat | b in row.bs && b != row.last && b !in loose && Inner(row.bs, b, w)
      ensures Rd(after, w) == Rd(m, w)
    {
    }
  }

  lemma SplitKept(m: Mem, row: Row, loose: set<nat>, a: nat, size: nat)
    requires Tiled(row) && CanSplit(row, a, size) && SizeTag(m, row, a) && a in loose
    ensures BlockSize(m, a) == row.bs[a].size && row.bs[a].size % ALIGN_SIZE == 0
    ensures Kept(m, SplitMem(m, a, size), row, loose) && Rd(SplitMem(m, a, size), row.first) == Rd(m, row.first)
  {
    hide Tiled, SplitMem, Harmless, Kept, Resized, WithFree, WithPrev, SizeOf;
    var r, n := a + size + OVERHEAD, Next(row.bs, a);
    AtBlock(row, a);
    SplitWords(m, row, a, size);
    SplitPoint(row, a, size);
    InsideHarmless(row, loose, a, r + 8);
    InsideHarmless(row, loose, a, n);
    TagHarmless(row, loose, a);
    TagHarmless(row, loose, n);
    OnlyHarmless(m, SplitMem(m, a, size), row, loose);
  }

  lemma AbsorbKept(m: Mem, row: Row, loose: set<nat>, a: nat)
    requires Tiled(row) && CanAbsorb(row, a) && Tagged(m, row) && a in loose && Next(row.bs, a) in loose
    ensures BlockSize(m, Next(row.bs, a)) % ALIGN_SIZE == 0
    ensures var after := AbsorbMem(m, a, Next(row.bs, a));
      Kept(m, after, row, loose) && Rd(after, row.first) == Rd(m, row.first)
  {
    hide Tiled, AbsorbMem, Harmless, Kept, Grown, SizeOf, Tagged, FreeBit;
    var b := Next(row.bs, a);
    TagAt(m, row, a);
    TagAt(m, row, b);
    AbsorbPossible(row, a);
    AtBlock(row, b);
    AbsorbWords(m, row, a);
    InsideHarmless(row, loose, b, Next(row.bs, b));
    TagHarmless(row, loose, a);
    OnlyHarmless(m, AbsorbMem(m, a, b), row, loose);
  }

  lemma MarkFreeKept(m: Mem, row: Row, loose: set<nat>, a: nat)
    requires Tiled(row) && a in row.bs && a != row.last && Tagged(m, row) && a in loose
    ensures Kept(m, MarkFree(m, a), row, loose) && Rd(MarkFree(m, a), row.first) == Rd(m, row.first)
  {
    hide Tiled, Harmless, Kept, WithFree, WithPrev, SizeOf, Tagged, FreeBit;
    AtBlock(row, a);
    TagAt(m, row, a);
    InsideHarmless(row, loose, a, Next(row.bs, a));
    TagHarmless(row, loose, a);
    TagHarmless(row, loose, Next(row.bs, a));
    OnlyHarmless(m, MarkFree(m, a), row, loose);
  }

  lemma MarkUsedKept(m: Mem, row: Row, loose: set<nat>, a: nat)
    requires Tiled(row) && a in row.bs && a != row.last && SizeTag(m, row, a)
    ensures Kept(m, MarkUsed(m, a), row, loose) && Rd(MarkUsed(m, a), row.first) == Rd(m, row.first)
  {
    hide Tiled, Harmless, Kept, WithFree, WithPrev, SizeOf, FreeBit;
    AtBlock(row, a);
    TagHarmless(row, loose, a);
    TagHarmless(row, loose, Next(row.bs, a));
    OnlyHarmless(m, MarkUsed(m, a), row, loose);
  }

  // Writing a block's prev-free bit, and its prev_phys_block word when that block is free.
  lemma FixKept(m: Mem, after: Mem, row: Row, loose: set<nat>, r: nat)
    requires Tiled(row) && r in row.bs && r != row.first
    requires PrevFree(row, r) || Rd(after, r) == Rd(m, r)
    requires forall w {:trigger Rd(after, w)} :: w != r && w != r + 8 ==> Rd(after, w) == Rd(m, w)
    ensures Kept(m, after, row, loose) && Rd(after, row.first) == Rd(m, row.first)
  {
    hide Tiled, Harmless, Kept;
    TagHarmless(row, loose, r);
    if PrevFree(row, r) {
      TiledFits(row, r);
      AtBlock(row, row.bs[r].prev);
      InsideHarmless(row, loose, row.bs[r].prev, r);
    }
    OnlyHarmless(m, after, row, loose);
  }

  lemma KeptChains(m: Mem, after: Mem, row: Row, lists: seq<seq<nat>>, loose: set<nat>, base: nat)
    requires Listed(row, lists, loose) && AllChained(m, base, lists) && Kept(m, after, row, loose)
    ensures AllChained(after, base, lists)
  {
    hide Class, Chained, NoDup;
    forall c: nat | c < |lists|
      ensures Chained(after, base, lists[c])
    {
      assert Chained(m, base, lists[c]);
      forall x | x in lists[c]
        ensures SameLinks(m, after, x)
      {
        assert Belongs(row, loose, c, x);
        assert KeptAt(m, after, row.bs, x);
      }
      ChainFrame(m, after, base, lists[c]);
    }
  }

  // ----- List operations write link words only -----

  ghost predicate TagsSame(m: Mem, after: Mem, row: Row) {
    forall x: nat {:trigger Rd(after, x + 8)} :: x in row.bs ==> Rd(after, x) == Rd(m, x) && Rd(after, x + 8) == Rd(m, x + 8)
  }

  lemma TagsSameTagged(m: Mem, after: Mem, row: Row)
    requires TagsSame(m, after, row) && Tagged(m, row)
    ensures Tagged(after, row)
  {
    hide SizeOf, FreeBit, PrevBit;
    forall x | x in row.bs
      ensures SizeTag(after, row, x) && PrevTag(after, row, x)
    {
      assert SizeTag(m, row, x) && PrevTag(m, row, x);
    }
  }

  // Writes for list c and block x reach neither tags, nor payloads, nor the count of used bytes.
  ghost predicate LinksOnly(m: Mem, after: Mem, row: Row) {
    TagsSame(m, after, row) && PayloadsKept(m, after, row, {}) && Rd(after, row.first) == Rd(m, row.first)
  }

  lemma LinkWordPlace(row: Row, lists: seq<seq<nat>>, loose: set<nat>, base: nat, c: nat, x: nat, w: nat)
    requires Tiled(row) && base + HEADER <= row.first && Listed(row, lists, loose) && c < LISTS
    requires x in row.bs && x != row.last && row.bs[x].free
    requires LinkWord(base, lists[c], x, w)
    ensures w + OVERHEAD <= row.first ||
      exists y {:trigger row.bs[y]} :: y in row.bs && y != row.last && row.bs[y].free && (w == y + 16 || w == y + 24)
  {
    hide Class, Tiled, NoDup;
    if w != base + 16 && w != base + 24 && w != x + 16 && w != x + 24 {
      var i: nat :| i < |lists[c]| && (w == lists[c][i] + 16 || w == lists[c][i] + 24);
      assert lists[c][i] in lists[c];
      assert Belongs(row, loose, c, lists[c][i]);
    } else if w == x + 16 || w == x + 24 {
      assert row.bs[x].free;
    }
  }

  lemma LinkWrites(m: Mem, after: Mem, row: Row, lists: seq<seq<nat>>, loose: set<nat>, base: nat, c: nat, x: nat)
    requires Tiled(row) && base + HEADER <= row.first && Listed(row, lists, loose) && c < LISTS
    requires x in row.bs && x != row.last && row.bs[x].free
    requires forall w: nat {:trigger Rd(after, w)} :: Rd(after, w) == Rd(m, w) || LinkWord(base, lists[c], x, w)
    ensures LinksOnly(m, after, row)
  {
    hide Class, Tiled, NoDup, LinkWord, Rd, Inner;
    forall w: nat | LinkWord(base, lists[c], x, w)
      ensures w != row.first && forall b :: b in row.bs ==> w != b && w != b + 8
      ensures forall b :: b in row.bs && b != row.last && !row.bs[b].free ==> !Inner(row.bs, b, w)
    {
      LinkWordPlace(row, lists, loose, base, c, x, w);
      forall b | b in row.bs
        ensures w != b && w != b + 8
        ensures b != row.last && !row.bs[b].free ==> !Inner(row.bs, b, w)
      {
        LinkWordClear(row, w, b);
      }
      assert row.first in row.bs by { EndsThere(row); }
    }
  }

  lemma EndsThere(row: Row)
    requires Tiled(row)
    ensures row.first in row.bs && row.last in row.bs && row.first < row.last
    ensures row.bs[row.last].size == 0 && !row.bs[row.last].free
    ensures row.last <= row.first + OVERHEAD + BLOCK_SIZE_MAX - ALIGN_SIZE
  {
  }

  lemma LinkWordClear(row: Row, w: nat, b: nat)
    requires Tiled(row) && b in row.bs
    requires w + OVERHEAD <= row.first ||
      exists y {:trigger row.bs[y]} :: y in row.bs && y != row.last && row.bs[y].free && (w == y + 16 || w == y + 24)
    ensures w != b && w != b + 8
    ensures b != row.last && !row.bs[b].free ==> !Inner(row.bs, b, w)
  {
    hide Tiled;
    TiledFits(row, b);
    if b != row.last { AtBlock(row, b); }
    if w + OVERHEAD > row.first {
      var y :| y in row.bs && y != row.last && row.bs[y].free && (w == y + 16 || w == y + 24);
      AtBlock(row, y);
      if y != b {
        HeadersApart(row, y, b);
        TiledApart(row, y, b);
      }
    }
  }

  // ----- Used blocks from one state to the next -----

  ghost predicate InUse(row: Row, b: nat) {
    b in row.bs && b != row.last && !row.bs[b].free
  }

  ghost predicate UsedSame(row: Row, after: Row, b: nat) {
    (InUse(row, b) <==> InUse(after, b)) && (InUse(row, b) ==> after.bs[b].size == row.bs[b].size)
  }

  ghost predicate SameUsers(row: Row, after: Row, except: set<nat>) {
    && row.first == after.first && row.last == after.last
    && forall b: nat {:trigger UsedSame(row, after, b)} :: b !in except ==> UsedSame(row, after, b)
  }

  // Outside `except`, the same blocks are in use, with the same sizes and the same contents.
  ghost predicate Isolated(m: Mem, row: Row, after: Mem, rowAfter: Row, except: set<nat>) {
    SameUsers(row, rowAfter, except) && PayloadsKept(m, after, row, except)
  }

  lemma SameInner(row: Row, after: Row, b: nat, w: nat)
    requires InUse(row, b) && InUse(after, b) && row.bs[b].size == after.bs[b].size
    ensures Inner(row.bs, b, w) == Inner(after.bs, b, w)
  {
  }

  lemma IsolatedThen(m0: Mem, row0: Row, m1: Mem, row1: Row, m2: Mem, row2: Row, e0: set<nat>, e1: set<nat>)
    requires Isolated(m0, row0, m1, row1, e0) && Isolated(m1, row1, m2, row2, e1)
    ensures Isolated(m0, row0, m2, row2, e0 + e1)
  {
    hide Inner;
    var e := e0 + e1;
    forall b: nat | b !in e
      ensures UsedSame(row0, row2, b)
    {
      assert UsedSame(row0, row1, b) && UsedSame(row1, row2, b);
    }
    forall b | b in row0.bs && b != row0.last && b !in e && !row0.bs[b].free
      ensures KeptAt(m0, m2, row0.bs, b)
    {
      assert UsedSame(row0, row1, b);
      assert KeptAt(m0, m1, row0.bs, b) && KeptAt(m1, m2, row1.bs, b);
      forall w: nat | Inner(row0.bs, b, w)
        ensures Rd(m2, w) == Rd(m0, w)
      {
        SameInner(row0, row1, b, w);
        assert Rd(m1, w) == Rd(m0, w);
      }
    }
  }

  lemma IsolatedMore(m: Mem, row: Row, after: Mem, rowAfter: Row, e: set<nat>, more: set<nat>)
    requires Isolated(m, row, after, rowAfter, e) && e <= more
    ensures Isolated(m, row, after, rowAfter, more)
  {
  }

  // A block that was not in use needs no exception as long as it still is not.
  lemma IsolatedLess(m: Mem, row: Row, after: Mem, rowAfter: Row, e: set<nat>, x: nat)
    requires Isolated(m, row, after, rowAfter, e) && !InUse(row, x) && !InUse(rowAfter, x)
    ensures Isolated(m, row, after, rowAfter, e - {x})
  {
    forall b: nat | b !in e - {x}
      ensures UsedSame(row, rowAfter, b)
    {
      if b != x { assert b !in e; }
    }
    forall b | b in row.bs && b != row.last && b !in e - {x} && !row.bs[b].free
      ensures KeptAt(m, after, row.bs, b)
    {
      assert InUse(row, b);
      assert b !in e;
    }
  }

  lemma KeptIsolated(m: Mem, after: Mem, row: Row, rowAfter: Row, loose: set<nat>)
    requires Kept(m, after, row, loose) && SameUsers(row, rowAfter, loose)
    ensures Isolated(m, row, after, rowAfter, loose)
  {
  }

  // ----- Lists and users across a change of the row -----

  lemma SplitLists(row: Row, lists: seq<seq<nat>>, loose: set<nat>, a: nat, size: nat)
    requires Tiled(row) && CanSplit(row, a, size) && a in loose && Listed(row, lists, loose)
    ensures Next(row.bs, a) in row.bs
    ensures var after := row.(bs := Split(row.bs, a, size));
      Listed(after, lists, loose + {a + size + OVERHEAD}) && SameUsers(row, after, loose)
  {
    hide Tiled, Listed;
    AtBlock(row, a);
    SplitPoint(row, a, size);
    var r, after := a + size + OVERHEAD, row.(bs := Split(row.bs, a, size));
    forall x: nat
      ensures SameFree(row, loose, after, loose + {r}, x)
    {
    }
    ListedStays(row, lists, loose, after, loose + {r});
    assert r != row.last by { EndsThere(row); }
    forall b: nat | b !in loose
      ensures UsedSame(row, after, b)
    {
    }
  }

  lemma AbsorbLists(row: Row, lists: seq<seq<nat>>, loose: set<nat>, a: nat)
    requires Tiled(row) && CanAbsorb(row, a) && a in loose && Next(row.bs, a) in loose && Listed(row, lists, loose)
    requires row.bs[Next(row.bs, a)].free
    ensures var after := row.(bs := Absorb(row.bs, a));
      Listed(after, lists, loose - {Next(row.bs, a)}) && SameUsers(row, after, loose - {Next(row.bs, a)})
  {
    hide Tiled, Listed;
    AbsorbPossible(row, a);
    var b, after := Next(row.bs, a), row.(bs := Absorb(row.bs, a));
    forall x: nat
      ensures SameFree(row, loose, after, loose - {b}, x)
    {
    }
    ListedStays(row, lists, loose, after, loose - {b});
    forall x: nat | x !in loose - {b}
      ensures UsedSame(row, after, x)
    {
    }
  }

  lemma SetFreeLists(row: Row, lists: seq<seq<nat>>, loose: set<nat>, a: nat, free: bool)
    requires Tiled(row) && a in row.bs && a in loose && Listed(row, lists, loose)
    ensures var after := row.(bs := SetFree(row.bs, a, free));
      Listed(after, lists, loose) && SameUsers(row, after, loose)
  {
    hide Tiled, Listed;
    var after := row.(bs := SetFree(row.bs, a, free));
    forall x: nat
      ensures SameFree(row, loose, after, loose, x)
    {
    }
    ListedStays(row, lists, loose, after, loose);
    forall x: nat | x !in loose
      ensures UsedSame(row, after, x)
    {
    }
  }

  // A used block is in no list, loose or not.
  lemma UsedLoose(row: Row, lists: seq<seq<nat>>, loose: set<nat>, more: set<nat>, a: nat)
    requires a in row.bs && !row.bs[a].free
    requires Listed(row, lists, loose) || Listed(row, lists, loose + {a})
    requires more == loose || more == loose + {a}
    ensures Listed(row, lists, more)
  {
    hide Listed;
    forall x: nat
      ensures SameFree(row, loose, row, more, x) && SameFree(row, loose + {a}, row, more, x)
    {
    }
    if Listed(row, lists, loose) { ListedStays(row, lists, loose, row, more); } else { ListedStays(row, lists, loose + {a}, row, more); }
  }

  // ----- The user's own writes -----

  lemma PayloadHarmless(row: Row, b: nat, w: nat)
    requires Tiled(row) && InUse(row, b) && Inner(row.bs, b, w)
    ensures Harmless(row, {b}, w) && w != row.first
  {
    hide Tiled;
    AtBlock(row, b);
    forall c | c in row.bs && c != row.last && c != b
      ensures !Inner(row.bs, c, w)
    {
      AtBlock(row, c);
      TiledApart(row, b, c);
    }
  }

  // Writing inside the payload of a used block disturbs neither tags nor lists nor others.
  lemma UserWrites(m: Mem, after: Mem, row: Row, lists: seq<seq<nat>>, base: nat, b: nat)
    requires Tiled(row) && Tagged(m, row) && Listed(row, lists, {}) && AllChained(m, base, lists) && InUse(row, b)
    requires forall w: nat {:trigger Rd(after, w)} :: !Inner(row.bs, b, w) ==> Rd(after, w) == Rd(m, w)
    ensures Tagged(after, row) && AllChained(after, base, lists)
    ensures Isolated(m, row, after, row, {b}) && Rd(after, row.first) == Rd(m, row.first)
  {
    hide Tiled, Class, Listed, AllChained, Tagged, SizeOf, FreeBit, PrevBit, Kept, Isolated, Inner, Harmless, SameUsers;
    forall w: nat
      ensures Rd(after, w) == Rd(m, w) || Harmless(row, {b}, w)
    {
      if Inner(row.bs, b, w) { PayloadHarmless(row, b, w); }
    }
    OnlyHarmless(m, after, row, {b});
    SameUsersSelf(row, {b});
    KeptIsolated(m, after, row, row, {b});
    UsedUnlisted(row, lists, b);
    KeptChains(m, after, row, lists, {b}, base);
    forall x | x in row.bs
      ensures SizeTag(after, row, x) && PrevTag(after, row, x)
    {
      TagAt(m, row, x);
      TagOutside(row, b, x);
    }
    AllTagged(after, row);
    CountOutside(row, b);
  }

  lemma UsedUnlisted(row: Row, lists: seq<seq<nat>>, b: nat)
    requires Listed(row, lists, {}) && InUse(row, b)
    ensures Listed(row, lists, {b})
  {
    hide Listed;
    UsedLoose(row, lists, {}, {} + {b}, b);
    assert {} + {b} == {b};
  }

  lemma TagOutside(row: Row, b: nat, x: nat)
    requires Tiled(row) && InUse(row, b) && x in row.bs
    ensures !Inner(row.bs, b, x + 8) && (PrevFree(row, x) ==> !Inner(row.bs, b, x))
  {
    hide Tiled;
    TagHarmless(row, {}, x);
    if PrevFree(row, x) {
      TiledFits(row, x);
      AtBlock(row, row.bs[x].prev);
      InsideHarmless(row, {}, row.bs[x].prev, x);
    }
  }

  lemma CountOutside(row: Row, b: nat)
    requires Tiled(row) && InUse(row, b)
    ensures !Inner(row.bs, b, row.first)
  {
    hide Tiled;
    TiledFits(row, b);
  }

  lemma SameUsersSelf(row: Row, e: set<nat>)
    ensures SameUsers(row, row, e)
  {
  }
}
