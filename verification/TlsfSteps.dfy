// What each step of the allocator establishes, on values; the class in TlsfPool takes the steps.
module TlsfSteps {
  import opened Powers
  import opened TlsfBits
  import opened TlsfMapping
  import opened TlsfLayout
  import opened TlsfTags
  import opened TlsfChains
  import opened TlsfLists
  import opened TlsfKeep
  import opened TlsfRows
  import opened TlsfSizes
  import opened TlsfCopy

  // Offset of the count of used bytes in the pool structure; the first block starts there.
  const USED_OFFSET: nat := 6536
  // Size of the pool structure and two block overheads.
  const POOL_OVERHEAD: nat := 6560
  const SIZE_T: nat := 0x1_0000_0000_0000_0000

  // Which list head and bits change when x leaves list l.
  lemma HeadLeaves(m: Mem, base: nat, l: seq<nat>, x: nat)
    requires Chained(m, base, l) && Spaced(base, l) && x in l
    ensures l[0] == x ==> Rd(m, x + 16) == Head(base, Take(l, x)) && (Rd(m, x + 16) == base <==> Take(l, x) == [])
    ensures l[0] != x ==> Take(l, x) != [] && Take(l, x)[0] == l[0]
  {
    var i := Position(l, x);
    ChainedAt(m, base, l, i);
    if i > 0 {
      assert Clear(l[0], l[i]);
    } else if |l| > 1 {
      assert base + HEADER <= l[1];
    }
  }

  lemma ListedSlot(row: Row, lists: seq<seq<nat>>, loose: set<nat>, x: nat)
    requires Tiled(row) && Listed(row, lists, loose) && x in row.bs && x != row.last && row.bs[x].free && x !in loose
    ensures Class(row.bs[x].size) < LISTS && x in lists[Class(row.bs[x].size)]
  {
    hide Class, Tiled;
    assert Filed(row, lists, loose, x);
  }

  lemma ListedEntry(row: Row, lists: seq<seq<nat>>, loose: set<nat>, c: nat, x: nat)
    requires Listed(row, lists, loose) && c < LISTS && x in lists[c]
    ensures Belongs(row, loose, c, x) && |lists| == LISTS
  {
  }

  lemma ChainOf(m: Mem, base: nat, lists: seq<seq<nat>>, c: nat)
    requires AllChained(m, base, lists) && c < |lists|
    ensures Chained(m, base, lists[c])
  {
  }

  lemma UnlinkIs(m: Mem, x: nat)
    ensures UnlinkMem(m, x) == m[Rd(m, x + 16) + 24 := Rd(m, x + 24)][Rd(m, x + 24) + 16 := Rd(m, x + 16)]
  {
  }

  lemma UnlinkLinksOnly(m: Mem, row: Row, lists: seq<seq<nat>>, loose: set<nat>, base: nat, c: nat, x: nat)
    requires Tiled(row) && base + HEADER <= row.first && Listed(row, lists, loose) && c < LISTS && x in lists[c]
    requires AllChained(m, base, lists)
    ensures LinksOnly(m, UnlinkMem(m, x), row)
  {
    hide Tiled, Class, Chained, Listed, LinksOnly, LinkWord, UnlinkMem;
    ListedEntry(row, lists, loose, c, x);
    ChainOf(m, base, lists, c);
    forall w: nat
      ensures Rd(UnlinkMem(m, x), w) == Rd(m, w) || LinkWord(base, lists[c], x, w)
    {
      UnlinkWrites(m, base, lists[c], x, w);
    }
    LinkWrites(m, UnlinkMem(m, x), row, lists, loose, base, c, x);
  }

  lemma PushLinksOnly(m: Mem, row: Row, lists: seq<seq<nat>>, loose: set<nat>, base: nat, c: nat, x: nat)
    requires Tiled(row) && base + HEADER <= row.first && Listed(row, lists, loose) && c < LISTS
    requires x in row.bs && x != row.last && row.bs[x].free
    ensures LinksOnly(m, PushMem(m, base, Head(base, lists[c]), x), row)
  {
    hide Tiled, Class, LinksOnly, LinkWord, PushMem, NoDup;
    var after := PushMem(m, base, Head(base, lists[c]), x);
    forall w: nat
      ensures Rd(after, w) == Rd(m, w) || LinkWord(base, lists[c], x, w)
    {
      PushWrites(m, base, lists[c], x, w);
    }
    LinkWrites(m, after, row, lists, loose, base, c, x);
  }

  // The first n bytes of block a's payload are as they were.
  ghost predicate BodyKept(m: Mem, after: Mem, a: nat, n: nat) {
    forall w: nat {:trigger Rd(after, w)} :: a + START <= w < a + START + n ==> Rd(after, w) == Rd(m, w)
  }

  lemma SplitBody(m: Mem, row: Row, a: nat, size: nat)
    requires Tiled(row) && CanSplit(row, a, size) && SizeTag(m, row, a)
    ensures BlockSize(m, a) == row.bs[a].size && row.bs[a].size % ALIGN_SIZE == 0
    ensures BodyKept(m, SplitMem(m, a, size), a, size)
  {
    hide Tiled, SplitMem, Resized, WithFree, WithPrev, SizeOf, FreeBit;
    AtBlock(row, a);
    SplitPoint(row, a, size);
    SplitWords(m, row, a, size);
  }

  lemma AbsorbBody(m: Mem, row: Row, a: nat)
    requires Tiled(row) && CanAbsorb(row, a) && Tagged(m, row)
    ensures BlockSize(m, Next(row.bs, a)) % ALIGN_SIZE == 0
    ensures BodyKept(m, AbsorbMem(m, a, Next(row.bs, a)), a, row.bs[a].size)
  {
    hide Tiled, AbsorbMem, Grown, SizeOf, FreeBit, PrevBit, Tagged;
    TagAt(m, row, a);
    TagAt(m, row, Next(row.bs, a));
    AbsorbPossible(row, a);
    AbsorbWords(m, row, a);
  }

  lemma MarkUsedBody(m: Mem, row: Row, a: nat)
    requires Tiled(row) && a in row.bs && a != row.last && SizeTag(m, row, a)
    ensures BodyKept(m, MarkUsed(m, a), a, row.bs[a].size)
  {
    hide Tiled, WithFree, WithPrev, SizeOf, FreeBit;
  }

  lemma IsolatedBody(m: Mem, row: Row, after: Mem, rowAfter: Row, e: set<nat>, a: nat)
    requires Isolated(m, row, after, rowAfter, e) && InUse(row, a) && a !in e
    ensures BodyKept(m, after, a, row.bs[a].size)
  {
    assert KeptAt(m, after, row.bs, a);
  }

  lemma BodyNothing(m: Mem, a: nat, n: nat)
    ensures BodyKept(m, m, a, n)
  {
  }

  lemma BodyThen(m0: Mem, m1: Mem, m2: Mem, a: nat, n: nat, k: nat)
    requires BodyKept(m0, m1, a, n) && BodyKept(m1, m2, a, k)
    ensures BodyKept(m0, m2, a, if n < k then n else k)
  {
  }

  lemma TrimBody(m0: Mem, m1: Mem, m2: Mem, row: Row, m3: Mem, rowAfter: Row, m4: Mem, a: nat, size: nat)
    requires BodyKept(m0, m1, a, size) && InUse(row, a) && row.bs[a].size == size
    requires forall w {:trigger Rd(m2, w)} :: w != a + size + OVERHEAD + 8 ==> Rd(m2, w) == Rd(m1, w)
    requires Isolated(m2, row, m3, rowAfter, {a + size + OVERHEAD}) && Isolated(m3, rowAfter, m4, rowAfter, {})
    ensures BodyKept(m0, m4, a, size)
  {
    hide Isolated;
    var e := {a + size + OVERHEAD};
    IsolatedThen(m2, row, m3, rowAfter, m4, rowAfter, e, {});
    IsolatedBody(m2, row, m4, rowAfter, e + {}, a);
  }

  lemma PushIs(m: Mem, base: nat, head: nat, x: nat)
    ensures PushMem(m, base, head, x) == m[x + 16 := head][x + 24 := base][head + 24 := x]
  {
  }

  lemma SlotIsClass(size: nat)
    ensures Slot(Fl(size), Sl(size)) == Class(size)
  {
    hide Fl, Sl;
  }

  lemma SameUsersMore(row: Row, after: Row, e: set<nat>, more: set<nat>)
    requires SameUsers(row, after, e) && e <= more
    ensures SameUsers(row, after, more)
  {
  }

  // The row after a used block was cut down to `size`.
  ghost function TrimmedUsed(row: Row, a: nat, size: nat): Row
    requires Tiled(row) && InUse(row, a) && size >= BLOCK_SIZE_MIN && size % ALIGN_SIZE == 0
  {
    if row.bs[a].size >= size + HEADER then
      SplitTiled(row, a, size);
      TailFacts(row, a, size);
      CanMerge(row.(bs := Split(row.bs, a, size)), a + size + OVERHEAD);
      MergedNext(row.(bs := Split(row.bs, a, size)), a + size + OVERHEAD)
    else row
  }

  lemma TailFacts(row: Row, a: nat, size: nat)
    requires Tiled(row) && CanSplit(row, a, size)
    ensures Next(row.bs, a) in row.bs
    ensures var r, after := a + size + OVERHEAD, row.(bs := Split(row.bs, a, size));
      && r in after.bs && r != row.last && r != row.first && after.bs[r].free && after.bs[r].prev == a
      && after.bs[a].free == row.bs[a].free && PrevFree(after, r) == row.bs[a].free && Next(after.bs, a) == r
      && Next(after.bs, r) == Next(row.bs, a) && !InUse(row, r) && !InUse(after, r) && after.bs[a].size == size
  {
    hide Tiled;
    AtBlock(row, a);
    SplitPoint(row, a, size);
    EndsThere(row);
  }

  lemma LinksTagged(m: Mem, after: Mem, row: Row)
    requires LinksOnly(m, after, row) && Tagged(m, row)
    ensures Tagged(after, row) && Isolated(m, row, after, row, {}) && Rd(after, row.first) == Rd(m, row.first)
  {
    hide Tagged;
    TagsSameTagged(m, after, row);
  }

  lemma FrontSize(m: Mem, row: Row, b: nat)
    requires Tagged(m, row) && b in row.bs
    ensures SizeTag(m, row, b)
  {
  }

  lemma SplitSize(m: Mem, row: Row, x: nat, b: nat)
    requires TaggedBut(m, row, x) && b in row.bs
    ensures BlockNext(m, b) == Next(row.bs, b)
  {
    assert SizeTag(m, row, b);
  }

  lemma IsolatedNothing(m: Mem, row: Row, e: set<nat>)
    ensures Isolated(m, row, m, row, e)
  {
  }

  // A cut, a corrected tag and an insertion, seen together.
  lemma Settled(m0: Mem, row0: Row, m1: Mem, m2: Mem, m3: Mem, row: Row, e: set<nat>, r: nat)
    requires Isolated(m0, row0, m1, row, e) && Kept(m1, m2, row, e + {r}) && Isolated(m2, row, m3, row, {})
    requires !InUse(row0, r) && !InUse(row, r)
    ensures Isolated(m0, row0, m3, row, e)
  {
    hide Isolated, Kept;
    SameUsersSelf(row, e + {r});
    KeptIsolated(m1, m2, row, row, e + {r});
    IsolatedThen(m1, row, m2, row, m3, row, e + {r}, {});
    IsolatedThen(m0, row0, m1, row, m3, row, e, e + {r} + {});
    IsolatedLess(m0, row0, m3, row, e + (e + {r} + {}), r);
    IsolatedMore(m0, row0, m3, row, e + (e + {r} + {}) - {r}, e);
  }

  lemma SettledUsed(m0: Mem, row0: Row, m1: Mem, row1: Row, m2: Mem, m3: Mem, m4: Mem, row: Row, a: nat, r: nat)
    requires Isolated(m0, row0, m1, row1, {a}) && Kept(m1, m2, row1, {a} + {r})
    requires Isolated(m2, row1, m3, row, {r}) && Isolated(m3, row, m4, row, {})
    requires !InUse(row0, r) && !InUse(row1, r) && !InUse(row, r)
    ensures Isolated(m0, row0, m4, row, {a})
  {
    hide Isolated, Kept;
    SameUsersSelf(row1, {a} + {r});
    KeptIsolated(m1, m2, row1, row1, {a} + {r});
    IsolatedThen(m0, row0, m1, row1, m2, row1, {a}, {a} + {r});
    IsolatedThen(m2, row1, m3, row, m4, row, {r}, {});
    IsolatedThen(m0, row0, m2, row1, m4, row, {a} + ({a} + {r}), {r} + {});
    IsolatedLess(m0, row0, m4, row, {a} + ({a} + {r}) + ({r} + {}), r);
    IsolatedMore(m0, row0, m4, row, {a} + ({a} + {r}) + ({r} + {}) - {r}, {a});
  }

  lemma SplitSizeStays(m: Mem, row: Row, x: nat, b: nat)
    requires TaggedBut(m, row, x) && b in row.bs && b != x
    ensures BlockNext(SetPrevFree(m, x, true), b) == Next(row.bs, b)
  {
    assert SizeTag(m, row, b);
  }

  lemma ButSize(m: Mem, row: Row, b: nat)
    requires b in row.bs && TaggedBut(m, row, Next(row.bs, b))
    ensures SizeTag(m, row, b)
  {
  }

  // No free block is in a class that a request for `size` bytes searches.
  ghost predicate NoneLarge(row: Row, size: nat) {
    forall b :: b in row.bs && b != row.last && row.bs[b].free ==> Class(row.bs[b].size) < Class(Rounded(size))
  }

  lemma HitFacts(row: Row, lists: seq<seq<nat>>, size: nat, c: nat)
    requires Tiled(row) && Listed(row, lists, {}) && FirstFrom(lists, Class(Rounded(size)), c)
    ensures var b := lists[c][0];
      && b in lists[c] && b in row.bs && b != row.last && row.bs[b].free && Class(row.bs[b].size) >= Class(Rounded(size))
      && !NoneLarge(row, size)
  {
    hide Tiled, Class, Rounded;
    assert lists[c][0] in lists[c];
    assert Belongs(row, {}, c, lists[c][0]);
  }

  lemma MissFacts(row: Row, lists: seq<seq<nat>>, size: nat)
    requires Tiled(row) && Listed(row, lists, {}) && NoneFrom(lists, Class(Rounded(size)))
    ensures NoneLarge(row, size)
  {
    hide Tiled, Class, Rounded;
    forall b | b in row.bs && b != row.last && row.bs[b].free
      ensures Class(row.bs[b].size) < Class(Rounded(size))
    {
      assert Filed(row, lists, {}, b);
    }
  }

  // The block behind pointer p was free space and is now in use, with less than a header to spare.
  ghost predicate Granted(row: Row, after: Row, p: nat, size: nat) {
    && p >= START && p % ALIGN_SIZE == 0 && !InUse(row, p - START) && InUse(after, p - START)
    && size <= after.bs[p - START].size < size + HEADER
  }

  lemma UsedAligned(row: Row, b: nat)
    requires Tiled(row) && b in row.bs
    ensures (b + START) % ALIGN_SIZE == 0 && b >= row.first
  {
    assert Fits(row, b);
  }

  lemma Congruent(count: int, sum: int, delta: int)
    requires count % SIZE_T == sum % SIZE_T
    ensures (count + delta) % SIZE_T % SIZE_T == (sum + delta) % SIZE_T
  {
    var k := count / SIZE_T - sum / SIZE_T;
    assert count + delta == sum + delta + k * SIZE_T;
    Wraps(sum + delta, k);
  }

  lemma CongruentLess(count: nat, sum: nat, size: nat)
    requires count % SIZE_T == sum % SIZE_T
    ensures (count + SIZE_T - size) % SIZE_T % SIZE_T == (sum - size) % SIZE_T
  {
    Congruent(count, sum, SIZE_T - size);
    Wraps(sum - size, 1);
  }

  lemma Wraps(x: int, k: int)
    ensures (x + k * SIZE_T) % SIZE_T == x % SIZE_T
  {
  }

  // Writing the count of used bytes disturbs nothing.
  lemma CountWritten(m: Mem, row: Row, lists: seq<seq<nat>>, base: nat, loose: set<nat>, value: nat)
    requires Tiled(row) && base + HEADER <= row.first && Listed(row, lists, loose) && AllChained(m, base, lists)
    requires Tagged(m, row)
    ensures var after := m[row.first := value];
      Tagged(after, row) && AllChained(after, base, lists) && Isolated(m, row, after, row, {}) && Rd(after, row.first) == value
  {
    hide Tiled, Class, Listed, Tagged, Chained, SizeOf, FreeBit, PrevBit;
    var after := m[row.first := value];
    forall x | x in row.bs
      ensures SizeTag(after, row, x) && PrevTag(after, row, x)
    {
      TagAt(m, row, x);
      TiledFits(row, x);
    }
    AllTagged(after, row);
    forall b | b in row.bs && b != row.last
      ensures KeptAt(m, after, row.bs, b)
    {
      TiledFits(row, b);
    }
    KeptChains(m, after, row, lists, loose, base);
    SameUsersSelf(row, {});
    KeptIsolated(m, after, row, row, {});
  }

  // Cutting a free block before it is taken into use.
  lemma TrimFacts(row: Row, a: nat, size: nat)
    requires Tiled(row) && a in row.bs && a != row.last && row.bs[a].free && CoalescedBut(row, a) && NextUsed(row, a)
    requires size % ALIGN_SIZE == 0 && BLOCK_SIZE_MIN <= size <= row.bs[a].size
    ensures row.bs[a].size >= size + HEADER ==> CanSplit(row, a, size) && Next(row.bs, a) in row.bs
    ensures var after := if row.bs[a].size >= size + HEADER then row.(bs := Split(row.bs, a, size)) else row;
      && Tiled(after) && a in after.bs && after.bs[a].free && CoalescedBut(after, a) && UsedBytes(after) == UsedBytes(row)
      && size <= after.bs[a].size < size + HEADER && after.last == row.last && after.first == row.first
  {
    hide Tiled, CoalescedBut, NextUsed, UsedFrom, UsedBytes;
    if row.bs[a].size >= size + HEADER {
      SplitCoalesced(row, a, size);
      UsedSplit(row, a, size);
      TailFacts(row, a, size);
    }
  }

  lemma FreedParts(row: Row, a: nat)
    requires Tiled(row) && InUse(row, a)
    ensures var freed := row.(bs := SetFree(row.bs, a, true));
      var b := MergedAt(freed, a);
      && Tiled(freed) && (PrevFree(freed, a) ==> CanAbsorb(freed, freed.bs[a].prev))
      && b in MergedPrev(freed, a).bs && b != row.last && (!InUse(row, b) || b == a)
      && (NextFree(MergedPrev(freed, a), b) ==> CanAbsorb(MergedPrev(freed, a), b))
      && FreedRow(row, a) == MergedNext(MergedPrev(freed, a), b)
  {
    hide Tiled;
    SetFreeTiled(row, a, true);
    var freed := row.(bs := SetFree(row.bs, a, true));
    MergedPrevTiled(freed, a);
    MergedTiled(MergedPrev(freed, a), MergedAt(freed, a));
  }

  lemma FreedIsolated(m0: Mem, row0: Row, m1: Mem, m2: Mem, row2: Row, m3: Mem, row3: Row, m4: Mem, m5: Mem, row: Row, a: nat, b: nat)
    requires Isolated(m0, row0, m1, row0, {}) && Isolated(m1, row0, m2, row2, {a}) && Isolated(m2, row2, m3, row3, {b, a})
    requires Isolated(m3, row3, m4, row, {b}) && Isolated(m4, row, m5, row, {})
    requires a == b || (!InUse(row0, b) && !InUse(row, b))
    ensures Isolated(m0, row0, m5, row, {a})
  {
    hide Isolated;
    IsolatedThen(m0, row0, m1, row0, m2, row2, {}, {a});
    IsolatedThen(m2, row2, m3, row3, m4, row, {b, a}, {b});
    IsolatedThen(m2, row2, m4, row, m5, row, {b, a} + {b}, {});
    IsolatedThen(m0, row0, m2, row2, m5, row, {} + {a}, {b, a} + {b} + {});
    var e := {} + {a} + ({b, a} + {b} + {});
    if a == b {
      assert e == {a};
    } else {
      IsolatedLess(m0, row0, m5, row, e, b);
      assert e - {b} == {a};
    }
  }

  lemma RequestAligned(align: nat, size: nat)
    requires PowerOfTwo(align) && align > 0
    ensures AlignedRequest(align, size) % ALIGN_SIZE == 0
  {
    hide PowerOfTwo, AlignUp, Adjusted;
    AdjustedFacts(size, ALIGN_SIZE);
    if align > ALIGN_SIZE {
      LargeAlign(align);
      Sixteenths(align);
      AdjustedFacts(Adjusted(size, ALIGN_SIZE) + align + HEADER, align);
    }
  }

  // Cutting the gap off the front.
  lemma LeadingFacts(row: Row, a: nat, gap: nat)
    requires Tiled(row) && Coalesced(row) && a in row.bs && a != row.last && row.bs[a].free
    requires gap % ALIGN_SIZE == 0 && gap >= HEADER && row.bs[a].size >= gap + HEADER
    ensures CanSplit(row, a, gap - OVERHEAD) && Next(row.bs, a) in row.bs
    ensures var after := row.(bs := Split(row.bs, a, gap - OVERHEAD));
      var r := a + gap;
      && Tiled(after) && r in after.bs && r != row.last && after.bs[r].free && after.bs[r].size == row.bs[a].size - gap
      && CoalescedBut(after, r) && NextUsed(after, r) && UsedBytes(after) == UsedBytes(row)
      && !InUse(row, r) && !InUse(row, a) && !InUse(after, a)
  {
    hide Tiled, CoalescedBut, NextUsed, UsedFrom, UsedBytes, Coalesced;
    DifferenceOfEights(gap, OVERHEAD);
    TailCoalesced(row, a, gap - OVERHEAD);
    CoalescedAt(row, a);
    SplitRest(row, a, gap - OVERHEAD);
    UsedSplit(row, a, gap - OVERHEAD);
    TailFacts(row, a, gap - OVERHEAD);
  }

  lemma LeadingIsolated(m0: Mem, row0: Row, m2: Mem, row2: Row, m3: Mem, row: Row, a: nat, r: nat)
    requires Isolated(m0, row0, m2, row2, {} + {a, r}) && Isolated(m2, row2, m3, row, {r}) && a != r
    requires !InUse(row0, a) && !InUse(row2, a)
    ensures Isolated(m0, row0, m3, row, {r})
  {
    IsolatedStays(m2, row2, m3, row, {r}, a);
    IsolatedThen(m0, row0, m2, row2, m3, row, {} + {a, r}, {r});
    IsolatedLess(m0, row0, m3, row, {} + {a, r} + {r}, a);
    assert {} + {a, r} + {r} - {a} == {r};
  }

  lemma IsolatedStays(m: Mem, row: Row, after: Mem, rowAfter: Row, e: set<nat>, x: nat)
    requires Isolated(m, row, after, rowAfter, e) && x !in e
    ensures InUse(row, x) <==> InUse(rowAfter, x)
  {
    assert UsedSame(row, rowAfter, x);
  }

  // The block behind is free and makes enough room.
  ghost predicate CanGrow(row: Row, a: nat, size: nat) {
    a in row.bs && NextFree(row, a) && size <= row.bs[a].size + row.bs[Next(row.bs, a)].size + OVERHEAD
  }

  lemma GrownFacts(row: Row, a: nat)
    requires Tiled(row) && Coalesced(row) && InUse(row, a) && NextFree(row, a)
    ensures CanAbsorb(row, a)
    ensures var after := MergedNext(row, a);
      && Tiled(after) && Coalesced(after) && a in after.bs && !after.bs[a].free && after.last == row.last && after.first == row.first
      && after.bs[a].size == row.bs[a].size + row.bs[Next(row.bs, a)].size + OVERHEAD
      && UsedBytes(after) == UsedBytes(row) + (after.bs[a].size - row.bs[a].size)
  {
    hide Tiled, CoalescedBut, NextUsed, UsedFrom, UsedBytes, Coalesced;
    MergedTiled(row, a);
    CoalescedAt(row, a);
    MergeNextCoalesced(row, a);
    AbsorbPossible(row, a);
  }

  lemma AlreadyUsed(row: Row, a: nat)
    requires a in row.bs && !row.bs[a].free
    ensures row.(bs := SetFree(row.bs, a, false)) == row
  {
    assert SetFree(row.bs, a, false) == row.bs;
  }

  lemma TrimmedUsedFacts(row: Row, a: nat, size: nat)
    requires Tiled(row) && Coalesced(row) && InUse(row, a)
    requires size % ALIGN_SIZE == 0 && BLOCK_SIZE_MIN <= size <= row.bs[a].size
    ensures var after := TrimmedUsed(row, a, size);
      && Tiled(after) && Coalesced(after) && InUse(after, a) && after.last == row.last && after.first == row.first
      && size <= after.bs[a].size < size + HEADER
      && UsedBytes(after) == UsedBytes(row) - row.bs[a].size + after.bs[a].size
  {
    hide Tiled, CoalescedBut, NextUsed, UsedFrom, UsedBytes, Coalesced;
    if row.bs[a].size >= size + HEADER {
      SplitTiled(row, a, size);
      UsedSplit(row, a, size);
      TailFacts(row, a, size);
      TailCoalesced(row, a, size);
      var r, cut := a + size + OVERHEAD, row.(bs := Split(row.bs, a, size));
      MergedTiled(cut, r);
      MergeNextCoalesced(cut, r);
      if NextFree(cut, r) { AbsorbPossible(cut, r); }
      AtBlock(cut, a);
    }
  }

  lemma ResizeIsolated(m0: Mem, row0: Row, m1: Mem, m3: Mem, row3: Row, m4: Mem, m5: Mem, row: Row, a: nat)
    requires Isolated(m0, row0, m1, row0, {}) && Isolated(m1, row0, m3, row3, {a})
    requires Isolated(m3, row3, m4, row, {a}) && Isolated(m4, row, m5, row, {})
    ensures Isolated(m0, row0, m5, row, {a})
  {
    hide Isolated;
    IsolatedThen(m0, row0, m1, row0, m3, row3, {}, {a});
    IsolatedThen(m3, row3, m4, row, m5, row, {a}, {});
    IsolatedThen(m0, row0, m3, row3, m5, row, {} + {a}, {a} + {});
    assert {} + {a} + ({a} + {}) == {a};
  }

  // Block a cannot grow to `size` where it is.
  ghost predicate MustMove(row: Row, a: nat, size: nat) {
    a in row.bs && size > row.bs[a].size && !CanGrow(row, a, size)
  }

  // Nor can it move.
  ghost predicate Stuck(row: Row, a: nat, size: nat) {
    MustMove(row, a, size) && NoneLarge(row, size)
  }

  function Shorter(a: nat, b: nat): nat { if a < b then a else b }

  // The first n bytes behind q are those that were behind p.
  ghost predicate BytesKept(m: Mem, after: Mem, p: nat, q: nat, n: nat) {
    forall i: nat {:trigger SameByte(m, after, p, q, i)} :: i < n ==> SameByte(m, after, p, q, i)
  }

  ghost predicate SameByte(m: Mem, after: Mem, p: nat, q: nat, i: nat) {
    ByteAt(after, q + i) == ByteAt(m, p + i)
  }

  lemma BodyBytes(m: Mem, after: Mem, p: nat, n: nat, k: nat)
    requires p >= START && p % 8 == 0 && n <= k && BodyKept(m, after, p - START, k)
    ensures BytesKept(m, after, p, p, n)
  {
    hide Byte;
    forall i: nat | i < n
      ensures SameByte(m, after, p, p, i)
    {
      WordAbove(p, i);
    }
  }

  lemma WordAbove(p: nat, i: nat)
    requires p % 8 == 0
    ensures p <= p + i - (p + i) % 8
  {
  }

  lemma IsolatedBoth(m: Mem, row: Row, after: Mem, rowAfter: Row, e: set<nat>, x: nat)
    requires Isolated(m, row, after, rowAfter, e) && InUse(row, x) && x !in e
    ensures InUse(rowAfter, x) && rowAfter.bs[x].size == row.bs[x].size
    ensures BodyKept(m, after, x, row.bs[x].size)
  {
    assert UsedSame(row, rowAfter, x);
    IsolatedBody(m, row, after, rowAfter, e, x);
  }

  // malloc, then memcpy: the new block holds the old one's bytes.
  lemma MovedBytes(m0: Mem, row0: Row, m1: Mem, row: Row, a: nat, b: nat, n: nat)
    requires Tiled(row) && InUse(row, a) && InUse(row, b) && a != b && n <= row.bs[a].size && n <= row.bs[b].size
    requires BodyKept(m0, m1, a, row.bs[a].size)
    ensures BytesKept(m0, CopyBytes(m1, a + START, b + START, n), a + START, b + START, n)
  {
    hide Tiled, CopyBytes, Byte;
    TiledApart(row, a, b);
    AtBlock(row, a);
    AtBlock(row, b);
    var src, dst := a + START, b + START;
    BodyBytes(m0, m1, src, n, row.bs[a].size);
    forall i: nat | i < n
      ensures SameByte(m0, CopyBytes(m1, src, dst, n), src, dst, i)
    {
      CopiedByte(m1, src, dst, n, i);
      assert SameByte(m0, m1, src, src, i);
    }
  }

  // Freeing the old block leaves the new one's bytes.
  lemma FreedBytes(m0: Mem, m2: Mem, row1: Row, m3: Mem, p: nat, b: nat, n: nat)
    requires BytesKept(m0, m2, p, b + START, n) && Tiled(row1) && InUse(row1, b) && n <= row1.bs[b].size
    requires BodyKept(m2, m3, b, row1.bs[b].size)
    ensures BytesKept(m0, m3, p, b + START, n)
  {
    hide Tiled, Byte;
    AtBlock(row1, b);
    var q := b + START;
    BodyBytes(m2, m3, q, n, row1.bs[b].size);
    forall i: nat | i < n
      ensures SameByte(m0, m3, p, q, i)
    {
      assert SameByte(m2, m3, q, q, i) && SameByte(m0, m2, p, q, i);
    }
  }

  ghost function NoLists(): (lists: seq<seq<nat>>)
    ensures |lists| == LISTS && forall c: nat :: c < LISTS ==> lists[c] == []
  {
    seq(LISTS, _ => [])
  }

  lemma EmptyIndexed(base: nat, slMap: seq<nat>, heads: seq<nat>)
    requires |slMap| == FL_INDEX_COUNT && |heads| == LISTS
    requires forall k :: 0 <= k < |slMap| ==> slMap[k] == 0
    requires forall k :: 0 <= k < |heads| ==> heads[k] == base
    ensures Indexed(base, 0, slMap, heads, NoLists())
  {
    hide Bit;
    forall f: nat
      ensures !Bit(0, f)
    {
      ZeroBit(f);
    }
    forall f: nat | f < FL_INDEX_COUNT
      ensures WordOk(0, slMap, f)
    {
    }
    forall f: nat, s: nat | f < FL_INDEX_COUNT && s < SL_INDEX_COUNT
      ensures SlotOk(base, slMap, heads, NoLists(), f, s)
    {
    }
  }

  // What the check finds at an entry of a list.
  lemma EntryFacts(m: Mem, row: Row, lists: seq<seq<nat>>, base: nat, c: nat, i: nat)
    requires Tiled(row) && Tagged(m, row) && Coalesced(row) && Listed(row, lists, {}) && AllChained(m, base, lists)
    requires c < LISTS && i < |lists[c]|
    ensures var b := lists[c][i];
      && b in row.bs && b != row.last && BlockSize(m, b) == row.bs[b].size && BLOCK_SIZE_MIN <= row.bs[b].size < BLOCK_SIZE_MAX
      && IsFree(m, b) && !IsPrevFree(m, b)
      && !IsFree(m, BlockNext(m, b)) && IsPrevFree(m, BlockNext(m, b))
      && Class(row.bs[b].size) == c && Rd(m, b + 16) == After(base, lists[c], i)
  {
    hide Tiled, Class, Tagged, SizeOf, FreeBit, PrevBit, NoDup;
    var b := lists[c][i];
    ListedEntry(row, lists, {}, c, b);
    TagAt(m, row, b);
    AtBlock(row, b);
    TagAt(m, row, Next(row.bs, b));
    ChainOf(m, base, lists, c);
    ChainedAt(m, base, lists[c], i);
    assert NextUsed(row, b);
    if b != row.first {
      AtBlock(row, row.bs[b].prev);
      assert NextUsed(row, row.bs[b].prev);
    }
    EndsThere(row);
    AtFirst(row, Next(row.bs, b));
  }

  lemma AtFirst(row: Row, b: nat)
    requires Tiled(row) && b in row.bs
    ensures row.first <= b
  {
    assert Fits(row, b);
  }

  lemma DownToEight(x: nat)
    ensures (x - x % ALIGN_SIZE) % ALIGN_SIZE == 0
  {
    RemainderIs(x / 8, 8, 0);
  }

  // One free block and the sentinel.
  ghost function FirstRow(base: nat, poolBytes: nat): Row {
    var first := base + USED_OFFSET;
    var last := first + OVERHEAD + poolBytes;
    Row(first, last, map[first := Blk(poolBytes, true, 0), last := Blk(0, false, first)])
  }

  lemma FirstRowFacts(base: nat, poolBytes: nat)
    requires base % ALIGN_SIZE == 0 && poolBytes % ALIGN_SIZE == 0 && BLOCK_SIZE_MIN <= poolBytes < BLOCK_SIZE_MAX
    ensures var row := FirstRow(base, poolBytes);
      Tiled(row) && Coalesced(row) && UsedBytes(row) == 0 && Listed(row, NoLists(), {row.first})
  {
    hide Class;
    var row := FirstRow(base, poolBytes);
    RemainderIs(base / 8 + 817, 8, 0);
    RemainderIs(base / 8 + 817 + 1 + poolBytes / 8, 8, 0);
    forall a | a in row.bs
      ensures Fits(row, a) && NextUsed(row, a) && Filed(row, NoLists(), {row.first}, a)
    {
    }
    forall a, b | a in row.bs && b in row.bs
      ensures Apart(row.bs, a, b)
    {
    }
    assert Tiled(row);
    assert UsedFrom(row, row.last) == 0;
    assert UsedFrom(row, row.first) == UsedFrom(row, row.last);
  }

  lemma InsertedTags(m: Mem, after: Mem, row: Row)
    requires LinksOnly(m, after, row) && row.first in row.bs && SizeTag(m, row, row.first)
    ensures Rd(after, row.first + 8) == Rd(m, row.first + 8) && Rd(after, row.first) == Rd(m, row.first)
    ensures SizeTag(after, row, row.first)
  {
  }

  // The header of the first block, and the words that writing it leaves alone.
  lemma HeaderTags(m: Mem, base: nat, poolBytes: nat)
    requires poolBytes % ALIGN_SIZE == 0
    ensures var row := FirstRow(base, poolBytes);
      var after := SetPrevFree(SetBlockFree(SetSize(m, row.first, poolBytes), row.first, true), row.first, false);
      && SizeTag(after, row, row.first) && !IsPrevFree(after, row.first) && Rd(after, row.first) == Rd(m, row.first)
  {
    hide SizeOf, FreeBit, PrevBit, Resized, WithFree, WithPrev;
  }

  lemma SentinelTags(m: Mem, base: nat, poolBytes: nat)
    requires SizeTag(m, FirstRow(base, poolBytes), base + USED_OFFSET) && !IsPrevFree(m, base + USED_OFFSET)
    requires poolBytes >= BLOCK_SIZE_MIN
    ensures var row := FirstRow(base, poolBytes);
      var linked := LinkNext(m, row.first);
      var after := SetPrevFree(SetBlockFree(SetSize(linked, row.last, 0), row.last, false), row.last, true);
      && BlockNext(m, row.first) == row.last && Tagged(after, row)
      && forall w: nat {:trigger Rd(after, w)} :: w != row.last && w != row.last + 8 ==> Rd(after, w) == Rd(m, w)
  {
    hide SizeOf, FreeBit, PrevBit, Resized, WithFree, WithPrev, Tagged;
    var row := FirstRow(base, poolBytes);
    var linked := LinkNext(m, row.first);
    var after := SetPrevFree(SetBlockFree(SetSize(linked, row.last, 0), row.last, false), row.last, true);
    forall x | x in row.bs
      ensures SizeTag(after, row, x) && PrevTag(after, row, x)
    {
    }
    AllTagged(after, row);
  }

  lemma NoChains(m: Mem, base: nat)
    ensures AllChained(m, base, NoLists())
  {
  }

  lemma FirstKept(m: Mem, after: Mem, row: Row)
    requires Tiled(row) && row.bs[row.first].free && Next(row.bs, row.first) == row.last
    requires forall w: nat {:trigger Rd(after, w)} :: w != row.last && w != row.last + 8 ==> Rd(after, w) == Rd(m, w)
    ensures Kept(m, after, row, {}) && Rd(after, row.first) == Rd(m, row.first)
  {
    hide Tiled, Harmless, Kept;
    EndsThere(row);
    TagHarmless(row, {}, row.last);
    AtBlock(row, row.first);
    InsideHarmless(row, {}, row.first, row.last);
    OnlyHarmless(m, after, row, {});
  }
}
