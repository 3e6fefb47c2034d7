// The allocator. Its state is the pool's memory, the bitmaps and the list heads; the row of
// blocks and the contents of the lists are kept beside them as ghost state.
module TlsfPool {
  import opened TlsfBits
  import opened TlsfMapping
  import opened TlsfLayout
  import opened TlsfTags
  import opened TlsfChains
  import opened TlsfLists
  import opened TlsfKeep
  import opened TlsfRows
  import opened TlsfSizes
  import opened TlsfCopy
  import opened TlsfSteps

  class Pool {
    const base: nat
    // The first value of the count of used bytes, which nothing initialises.
    ghost const start: nat
    var mem: Mem
    var flMap: nat
    var slMap: seq<nat>
    var heads: seq<nat>
    ghost var row: Row
    ghost var lists: seq<seq<nat>>

    // Blocks, lists and bitmaps agree, with the blocks in `loose` in no list.
    ghost predicate Whole(loose: set<nat>)
      reads this
    {
      && base + USED_OFFSET == row.first && Tiled(row) && Listed(row, lists, loose)
      && AllChained(mem, base, lists) && Indexed(base, flMap, slMap, heads, lists)
    }

    // The invariant between operations.
    ghost predicate Valid()
      reads this
    {
      && Whole({}) && Tagged(mem, row) && Coalesced(row)
      && Rd(mem, row.first) % SIZE_T == (start + UsedBytes(row)) % SIZE_T
    }

    // ----- Free lists -----

    // The first block of the first non-empty list from (f, s) on, or 0.
    method SearchSuitableBlock(f: nat, s: nat) returns (block: nat, fl: nat, sl: nat)
      requires Whole({}) && f < FL_INDEX_COUNT && s < SL_INDEX_COUNT
      ensures block == 0 ==> NoneFrom(lists, Slot(f, s))
      ensures block != 0 ==> fl < FL_INDEX_COUNT && sl < SL_INDEX_COUNT && FirstFrom(lists, Slot(f, s), Slot(fl, sl))
      ensures block != 0 ==> block == lists[Slot(fl, sl)][0]
    {
      hide Bit, From, Lowest, Tiled, Chained, Class;
      fl, sl := f, s;
      assert WordOk(flMap, slMap, f);
      FromBelow(slMap[f], s);
      var word := From(slMap[fl], sl);
      if word == 0 {
        FromBelow(flMap, f + 1);
        var rows := From(flMap, fl + 1);
        if rows == 0 {
          NothingFound(base, flMap, slMap, heads, lists, f, s);
          return 0, fl, sl;
        }
        RowsHit(base, flMap, slMap, heads, lists, f, s);
        fl := Ffs(rows);
        word := slMap[fl];
      } else {
        RowHit(base, flMap, slMap, heads, lists, f, s);
      }
      sl := Ffs(word);
      assert SlotOk(base, slMap, heads, lists, fl, sl);
      block := heads[Slot(fl, sl)];
      assert block in lists[Slot(fl, sl)];
      ListedEntry(row, lists, {}, Slot(fl, sl), block);
      AtBlock(row, block);
    }

    // Takes a block out of list (f, s).
    method RemoveFreeBlock(block: nat, f: nat, s: nat, ghost loose: set<nat>)
      requires Whole(loose) && f < FL_INDEX_COUNT && s < SL_INDEX_COUNT && block in lists[Slot(f, s)]
      modifies this
      ensures Whole(loose + {block}) && row == old(row) && LinksOnly(old(mem), mem, row)
      ensures lists == old(lists)[Slot(f, s) := Take(old(lists[Slot(f, s)]), block)]
    {
      hide Bit, Tiled, Class, Listed, AllChained, Take, With, Without, LinksOnly, LinkWord, UnlinkMem, Chained, Spaced, WordOk;
      ghost var c := Slot(f, s);
      ghost var l := lists[c];
      ListedEntry(row, lists, loose, c, block);
      assert Chained(mem, base, l) by { ChainOf(mem, base, lists, c); }
      ListedSpaced(row, lists, loose, base, c);
      HeadLeaves(mem, base, l, block);
      UnlinkChained(mem, row, lists, loose, base, c, block);
      ListedTake(row, lists, loose, c, block);
      UnlinkLinksOnly(mem, row, lists, loose, base, c, block);
      assert SlotOk(base, slMap, heads, lists, f, s);
      ghost var was := mem;
      ghost var flWas, slWas, headsWas := flMap, slMap, heads;

      var prev := Rd(mem, block + 24);
      var next := Rd(mem, block + 16);
      mem := mem[next + 24 := prev];
      mem := mem[prev + 16 := next];
      assert mem == UnlinkMem(was, block) by { UnlinkIs(was, block); }
      if heads[Slot(f, s)] == block {
        heads := heads[Slot(f, s) := next];
        if next == base {
          IndexEmptied(base, flWas, slWas, headsWas, lists, f, s);
          slMap := slMap[f := Without(slMap[f], s)];
          if slMap[f] == 0 {
            flMap := Without(flMap, f);
          }
        } else {
          IndexKept(base, flWas, slWas, headsWas, lists, f, s, Take(l, block));
        }
      } else {
        IndexKept(base, flWas, slWas, headsWas, lists, f, s, Take(l, block));
        assert heads[c := l[0]] == heads;
      }
      lists := lists[c := Take(l, block)];
    }

    // Puts a free block at the head of list (f, s).
    method InsertFreeBlock(block: nat, f: nat, s: nat, ghost loose: set<nat>)
      requires Whole(loose) && f < FL_INDEX_COUNT && s < SL_INDEX_COUNT
      requires block in loose && block in row.bs && block != row.last && row.bs[block].free
      requires Slot(f, s) == Class(row.bs[block].size)
      modifies this
      ensures Whole(loose - {block}) && row == old(row) && LinksOnly(old(mem), mem, row)
      ensures lists == old(lists)[Slot(f, s) := [block] + old(lists[Slot(f, s)])]
    {
      hide Bit, Tiled, Class, Listed, AllChained, With, LinksOnly, LinkWord, PushMem, Chained, WordOk;
      ghost var c := Slot(f, s);
      PushChained(mem, row, lists, loose, base, c, block);
      ListedPush(row, lists, loose, block);
      PushLinksOnly(mem, row, lists, loose, base, c, block);
      assert SlotOk(base, slMap, heads, lists, f, s);
      IndexFilled(base, flMap, slMap, heads, lists, f, s, [block] + lists[c]);
      ghost var was := mem;

      var current := heads[Slot(f, s)];
      mem := mem[block + 16 := current];
      mem := mem[block + 24 := base];
      mem := mem[current + 24 := block];
      assert mem == PushMem(was, base, current, block) by { PushIs(was, base, current, block); }
      heads := heads[Slot(f, s) := block];
      flMap := With(flMap, f);
      slMap := slMap[f := With(slMap[f], s)];
      lists := lists[c := [block] + lists[c]];
    }

    // Takes a free block out of its list.
    method BlockRemove(block: nat, ghost loose: set<nat>)
      requires Whole(loose) && block in row.bs && block != row.last && row.bs[block].free && block !in loose
      requires SizeTag(mem, row, block)
      modifies this
      ensures Whole(loose + {block}) && row == old(row) && LinksOnly(old(mem), mem, row)
    {
      hide Tiled, Class, Listed, AllChained, Indexed, LinksOnly, Take, SizeOf, FreeBit, Fl, Sl;
      AtBlock(row, block);
      ListedSlot(row, lists, loose, block);
      SlotIsClass(row.bs[block].size);
      var fl, sl := MappingInsert(BlockSize(mem, block));
      RemoveFreeBlock(block, fl, sl, loose);
    }

    // Puts a free block into its list.
    method BlockInsert(block: nat, ghost loose: set<nat>)
      requires Whole(loose) && block in row.bs && block != row.last && row.bs[block].free && block in loose
      requires SizeTag(mem, row, block)
      modifies this
      ensures Whole(loose - {block}) && row == old(row) && LinksOnly(old(mem), mem, row)
    {
      hide Tiled, Class, Listed, AllChained, Indexed, LinksOnly, SizeOf, FreeBit, Fl, Sl;
      AtBlock(row, block);
      SlotIsClass(row.bs[block].size);
      var fl, sl := MappingInsert(BlockSize(mem, block));
      InsertFreeBlock(block, fl, sl, loose);
    }

    // ----- Cutting and joining -----

    // Cuts a block; the tail's prev-free bit and prev_phys_block are left to the caller.
    method BlockSplit(block: nat, size: nat, ghost loose: set<nat>) returns (remaining: nat)
      requires Whole(loose) && Tagged(mem, row) && CanSplit(row, block, size) && block in loose
      modifies this
      ensures remaining == block + size + OVERHEAD
      ensures old(Next(row.bs, block) in row.bs) && row == old(row.(bs := Split(row.bs, block, size)))
      ensures Whole(loose + {remaining}) && TaggedBut(mem, row, remaining) && lists == old(lists)
      ensures Isolated(old(mem), old(row), mem, row, loose) && Rd(mem, row.first) == Rd(old(mem), row.first)
      ensures BodyKept(old(mem), mem, block, size)
    {
      hide Tiled, Class, Listed, AllChained, Indexed, Tagged, TaggedBut, Kept, SameUsers, PayloadsKept, SizeOf, FreeBit, PrevBit, Isolated;
      hide Resized, WithFree, WithPrev, BodyKept;
      TagAt(mem, row, block);
      SplitBody(mem, row, block, size);
      SplitTagged(mem, row, block, size);
      SplitTiled(row, block, size);
      SplitKept(mem, row, loose, block, size);
      SplitLists(row, lists, loose, block, size);
      KeptChains(mem, SplitMem(mem, block, size), row, lists, loose, base);
      ghost var was := mem;

      remaining := block + START + (size - OVERHEAD);
      var remainSize := BlockSize(mem, block) - (size + OVERHEAD);
      mem := SetSize(mem, remaining, remainSize);
      mem := SetSize(mem, block, size);
      mem := MarkFree(mem, remaining);
      row := row.(bs := Split(row.bs, block, size));
      KeptIsolated(was, mem, old(row), row, loose);
    }

    // The block takes over its free successor; flags stay.
    method BlockAbsorb(prev: nat, block: nat, ghost loose: set<nat>)
      requires Whole(loose) && Tagged(mem, row) && CanAbsorb(row, prev) && block == Next(row.bs, prev)
      requires row.bs[block].free && prev in loose && block in loose
      modifies this
      ensures row == old(row.(bs := Absorb(row.bs, prev)))
      ensures Whole(loose - {block}) && TaggedBut(mem, row, Next(row.bs, prev)) && lists == old(lists)
      ensures row.bs[prev].free ==> Tagged(mem, row)
      ensures Isolated(old(mem), old(row), mem, row, loose) && Rd(mem, row.first) == Rd(old(mem), row.first)
      ensures BodyKept(old(mem), mem, prev, old(row.bs[prev].size))
    {
      hide Tiled, Class, Listed, AllChained, Indexed, Tagged, TaggedBut, Kept, SameUsers, PayloadsKept, SizeOf, FreeBit, PrevBit, Isolated;
      hide Grown, BodyKept;
      AbsorbBody(mem, row, prev);
      TagAt(mem, row, block);
      AtBlock(row, prev);
      AbsorbTagged(mem, row, prev);
      AbsorbTiled(row, prev);
      AbsorbKept(mem, row, loose, prev);
      AbsorbLists(row, lists, loose, prev);
      AbsorbPossible(row, prev);
      KeptChains(mem, AbsorbMem(mem, prev, block), row, lists, loose, base);
      ghost var was := mem;

      mem := mem[prev + 8 := Grown(Rd(mem, prev + 8), BlockSize(mem, block) + OVERHEAD)];
      mem := LinkNext(mem, prev);
      assert mem == AbsorbMem(was, prev, block);
      row := row.(bs := Absorb(row.bs, prev));
      SameUsersMore(old(row), row, loose - {block}, loose);
      KeptIsolated(was, mem, old(row), row, loose);
    }

    // Joins a freed block to the block in front of it when that is free.
    method BlockMergePrev(block: nat) returns (b: nat)
      requires Whole({block}) && Tagged(mem, row) && block in row.bs && block != row.last && row.bs[block].free
      modifies this
      ensures old(PrevFree(row, block) ==> CanAbsorb(row, row.bs[block].prev))
      ensures b == old(MergedAt(row, block)) && row == old(MergedPrev(row, block))
      ensures Whole({b}) && Tagged(mem, row) && b in row.bs && b != row.last && row.bs[b].free
      ensures Isolated(old(mem), old(row), mem, row, {b, block}) && Rd(mem, row.first) == Rd(old(mem), row.first)
    {
      hide Tiled, Class, Listed, AllChained, Indexed, Tagged, TaggedBut, SameUsers, PayloadsKept, SizeOf, FreeBit, PrevBit, Isolated, LinksOnly;
      b := block;
      CanMerge(row, block);
      TagAt(mem, row, block);
      if IsPrevFree(mem, block) {
        var prev := Rd(mem, block);
        FrontSize(mem, row, prev);
        BlockRemove(prev, {block});
        LinksTagged(old(mem), mem, row);
        assert {block} + {prev} - {block} == {prev};
        ghost var m1 := mem;
        BlockAbsorb(prev, block, {block} + {prev});
        IsolatedThen(old(mem), old(row), m1, old(row), mem, row, {}, {block} + {prev});
        assert {} + ({block} + {prev}) == {prev, block};
        b := prev;
      } else {
        IsolatedNothing(mem, row, {b, block});
      }
    }

    // Joins a block to the block behind it when that is free.
    method BlockMergeNext(block: nat)
      requires Whole({block}) && Tagged(mem, row) && block in row.bs && block != row.last
      modifies this
      ensures old(NextFree(row, block) ==> CanAbsorb(row, block))
      ensures row == old(MergedNext(row, block))
      ensures block in row.bs && block != row.last && row.bs[block].free == old(row.bs[block].free)
      ensures Whole({block}) && TaggedBut(mem, row, Next(row.bs, block)) && (row.bs[block].free ==> Tagged(mem, row))
      ensures Isolated(old(mem), old(row), mem, row, {block}) && Rd(mem, row.first) == Rd(old(mem), row.first)
      ensures old(InUse(row, block)) ==> BodyKept(old(mem), mem, block, old(row.bs[block].size))
    {
      hide Tiled, Class, Listed, AllChained, Indexed, Tagged, TaggedBut, SameUsers, PayloadsKept, SizeOf, FreeBit, PrevBit, Isolated, LinksOnly;
      hide BodyKept;
      CanMerge(row, block);
      TagAt(mem, row, block);
      AtBlock(row, block);
      var next := BlockNext(mem, block);
      TagAt(mem, row, next);
      if IsFree(mem, next) {
        FrontSize(mem, row, next);
        SentinelUsed(row);
        BlockRemove(next, {block});
        LinksTagged(old(mem), mem, row);
        assert {block} + {next} - {next} == {block};
        ghost var m1 := mem;
        BlockAbsorb(block, next, {block} + {next});
        if old(InUse(row, block)) {
          IsolatedBody(old(mem), old(row), m1, old(row), {}, block);
          BodyThen(old(mem), m1, mem, block, old(row.bs[block].size), old(row.bs[block].size));
        }
        IsolatedThen(old(mem), old(row), m1, old(row), mem, row, {}, {block} + {next});
        IsolatedLess(old(mem), old(row), mem, row, {} + ({block} + {next}), next);
        assert {} + ({block} + {next}) - {next} == {block};
      } else {
        IsolatedNothing(mem, row, {block});
        BodyNothing(mem, block, row.bs[block].size);
        TaggedIsTaggedBut(mem, row, Next(row.bs, block));
      }
    }

    // Returns what a free block has beyond `size` to the free lists.
    method BlockTrimFree(block: nat, size: nat)
      requires Whole({block}) && Tagged(mem, row) && block in row.bs && block != row.last && row.bs[block].free
      requires size % ALIGN_SIZE == 0 && size >= BLOCK_SIZE_MIN
      modifies this
      ensures old(row.bs[block].size >= size + HEADER ==> CanSplit(row, block, size) && Next(row.bs, block) in row.bs)
      ensures row == old(if row.bs[block].size >= size + HEADER then row.(bs := Split(row.bs, block, size)) else row)
      ensures Whole({block}) && Tagged(mem, row)
      ensures Isolated(old(mem), old(row), mem, row, {block}) && Rd(mem, row.first) == Rd(old(mem), row.first)
    {
      hide Tiled, Class, Listed, AllChained, Indexed, Tagged, TaggedBut, SameUsers, PayloadsKept, SizeOf, FreeBit, PrevBit, Isolated, LinksOnly;
      hide WithPrev, Kept, Fits;
      TagAt(mem, row, block);
      AtBlock(row, block);
      if BlockSize(mem, block) >= HEADER + size {
        var remaining := BlockSplit(block, size, {block});
        ghost var m1, r1 := mem, row;
        TailFacts(old(row), block, size);
        SplitSize(mem, row, remaining, block);
        assert remaining == BlockNext(mem, block);
        mem := LinkNext(mem, block);
        mem := SetPrevFree(mem, remaining, true);
        FixTagged(m1, row, remaining, mem);
        FixKept(m1, mem, row, {block} + {remaining}, remaining);
        KeptChains(m1, mem, row, lists, {block} + {remaining}, base);
        ghost var m2 := mem;
        FrontSize(mem, row, remaining);
        BlockInsert(remaining, {block} + {remaining});
        assert {block} + {remaining} - {remaining} == {block};
        LinksTagged(m2, mem, row);
        Settled(old(mem), old(row), m1, m2, mem, row, {block}, remaining);
      } else {
        IsolatedNothing(mem, row, {block});
      }
    }

    // Returns what a used block has beyond `size`, joined to a free block behind it.
    method BlockTrimUsed(block: nat, size: nat)
      requires Whole({}) && Tagged(mem, row) && InUse(row, block)
      requires size % ALIGN_SIZE == 0 && size >= BLOCK_SIZE_MIN
      modifies this
      ensures row == old(TrimmedUsed(row, block, size))
      ensures Whole({}) && Tagged(mem, row)
      ensures Isolated(old(mem), old(row), mem, row, {block}) && Rd(mem, row.first) == Rd(old(mem), row.first)
      ensures BodyKept(old(mem), mem, block, if old(row.bs[block].size) < size then old(row.bs[block].size) else size)
    {
      hide Tiled, Class, Listed, AllChained, Indexed, Tagged, TaggedBut, SameUsers, PayloadsKept, SizeOf, FreeBit, PrevBit, Isolated, LinksOnly;
      hide BodyKept;
      hide WithPrev, Kept, Fits;
      TagAt(mem, row, block);
      AtBlock(row, block);
      if BlockSize(mem, block) >= HEADER + size {
        UsedLoose(row, lists, {}, {} + {block}, block);
        assert {} + {block} == {block};
        var remaining := BlockSplit(block, size, {block});
        ghost var m1, r1 := mem, row;
        TailFacts(old(row), block, size);
        mem := SetPrevFree(mem, remaining, false);
        FixTagged(m1, row, remaining, mem);
        FixKept(m1, mem, row, {block} + {remaining}, remaining);
        KeptChains(m1, mem, row, lists, {block} + {remaining}, base);
        ghost var m2 := mem;
        assert {block} + {remaining} == {remaining} + {block};
        UsedLoose(row, lists, {remaining}, {remaining}, block);
        BlockMergeNext(remaining);
        ghost var m3, r3 := mem, row;
        FrontSize(mem, row, remaining);
        BlockInsert(remaining, {remaining});
        assert {remaining} - {remaining} == {};
        LinksTagged(m3, mem, row);
        SettledUsed(old(mem), old(row), m1, r1, m2, m3, mem, row, block, remaining);
        TrimBody(old(mem), m1, m2, r1, m3, row, mem, block, size);
      } else {
        IsolatedNothing(mem, row, {block});
        BodyNothing(mem, block, if row.bs[block].size < size then row.bs[block].size else size);
      }
    }

    // Cuts `size` bytes off the front of a free block and returns them to the free lists.
    method BlockTrimFreeLeading(block: nat, size: nat) returns (rest: nat)
      requires Whole({block}) && Tagged(mem, row) && block in row.bs && block != row.last && row.bs[block].free
      requires size % ALIGN_SIZE == 0 && size >= HEADER
      modifies this
      ensures old(row.bs[block].size >= size + HEADER ==>
                  CanSplit(row, block, size - OVERHEAD) && Next(row.bs, block) in row.bs)
      ensures rest == if old(row.bs[block].size >= size + HEADER) then block + size else block
      ensures row == old(if row.bs[block].size >= size + HEADER then row.(bs := Split(row.bs, block, size - OVERHEAD)) else row)
      ensures Whole({rest}) && Tagged(mem, row)
      ensures Isolated(old(mem), old(row), mem, row, {block, rest}) && Rd(mem, row.first) == Rd(old(mem), row.first)
    {
      hide Tiled, Class, Listed, AllChained, Indexed, Tagged, TaggedBut, SameUsers, PayloadsKept, SizeOf, FreeBit, PrevBit, Isolated, LinksOnly;
      hide WithPrev, Kept, Fits;
      rest := block;
      TagAt(mem, row, block);
      AtBlock(row, block);
      if BlockSize(mem, block) >= HEADER + size {
        rest := BlockSplit(block, size - OVERHEAD, {block});
        ghost var m1, r1 := mem, row;
        TailFacts(old(row), block, size - OVERHEAD);
        SplitSize(mem, row, rest, block);
        mem := SetPrevFree(mem, rest, true);
        SplitSizeStays(m1, row, rest, block);
        mem := LinkNext(mem, block);
        FixTagged(m1, row, rest, mem);
        FixKept(m1, mem, row, {block} + {rest}, rest);
        KeptChains(m1, mem, row, lists, {block} + {rest}, base);
        ghost var m2 := mem;
        FrontSize(mem, row, block);
        BlockInsert(block, {block} + {rest});
        assert {block} + {rest} - {block} == {rest};
        LinksTagged(m2, mem, row);
        Settled(old(mem), old(row), m1, m2, mem, row, {block}, rest);
        IsolatedMore(old(mem), old(row), mem, row, {block}, {block, rest});
      } else {
        IsolatedNothing(mem, row, {block, rest});
      }
    }

    // Finds and unlists a free block for `size` bytes.
    method BlockLocateFree(size: nat) returns (block: nat)
      requires Whole({}) && Tagged(mem, row) && Rounded(size) < BLOCK_SIZE_MAX && size % ALIGN_SIZE == 0
      modifies this
      ensures row == old(row) && Tagged(mem, row)
      ensures block == 0 <==> size == 0 || NoneLarge(row, size)
      ensures block == 0 ==> mem == old(mem) && Whole({})
      ensures block != 0 ==> Whole({block}) && block in row.bs && block != row.last && row.bs[block].free && size <= row.bs[block].size
      ensures Isolated(old(mem), old(row), mem, row, {}) && Rd(mem, row.first) == Rd(old(mem), row.first)
    {
      hide Tiled, Class, Listed, AllChained, Indexed, Tagged, SameUsers, PayloadsKept, SizeOf, FreeBit, PrevBit, Isolated, LinksOnly;
      hide Fl, Sl, Rounded, Take, FirstFrom, NoneFrom, NoneLarge;
      block := 0;
      if size != 0 {
        var fl, sl := MappingSearch(size);
        SlotIsClass(Rounded(size));
        ghost var least := Slot(fl, sl);
        block, fl, sl := SearchSuitableBlock(fl, sl);
        if block != 0 {
          HitFacts(row, lists, size, Slot(fl, sl));
          AtBlock(row, block);
          SearchedIsEnough(size, row.bs[block].size);
          RemoveFreeBlock(block, fl, sl, {});
          assert {} + {block} == {block};
          LinksTagged(old(mem), mem, row);
        } else {
          MissFacts(row, lists, size);
        }
      }
      if block == 0 { IsolatedNothing(mem, row, {}); }
    }

    // Marks a block used and gives it to the caller.
    method BlockMarkAsUsed(block: nat)
      requires Whole({block}) && block in row.bs && block != row.last && TaggedBut(mem, row, Next(row.bs, block))
      modifies this
      ensures row == old(row.(bs := SetFree(row.bs, block, false)))
      ensures Whole({}) && Tagged(mem, row)
      ensures Isolated(old(mem), old(row), mem, row, {block}) && Rd(mem, row.first) == Rd(old(mem), row.first)
      ensures BodyKept(old(mem), mem, block, row.bs[block].size)
    {
      hide Tiled, Class, Listed, AllChained, Indexed, Tagged, TaggedBut, SameUsers, PayloadsKept, SizeOf, FreeBit, PrevBit, Isolated, Kept;
      hide WithFree, WithPrev, MarkUsed, BodyKept;
      ghost var was := mem;
      ButSize(mem, row, block);
      MarkUsedBody(mem, row, block);
      MarkUsedTagged(mem, row, block);
      MarkUsedKept(mem, row, {block}, block);
      KeptChains(mem, MarkUsed(mem, block), row, lists, {block}, base);
      SetFreeTiled(row, block, false);
      SetFreeLists(row, lists, {block}, block, false);
      mem := MarkUsed(mem, block);
      row := row.(bs := SetFree(row.bs, block, false));
      assert {} + {block} == {block};
      UsedLoose(row, lists, {}, {}, block);
      KeptIsolated(was, mem, old(row), row, {block});
    }

    // Marks a used block free; it is in no list yet.
    method BlockMarkAsFree(block: nat)
      requires Whole({}) && Tagged(mem, row) && InUse(row, block)
      modifies this
      ensures row == old(row.(bs := SetFree(row.bs, block, true)))
      ensures Whole({block}) && Tagged(mem, row)
      ensures Isolated(old(mem), old(row), mem, row, {block}) && Rd(mem, row.first) == Rd(old(mem), row.first)
    {
      hide Tiled, Class, Listed, AllChained, Indexed, Tagged, SameUsers, PayloadsKept, SizeOf, FreeBit, PrevBit, Isolated, Kept;
      hide WithFree, WithPrev, MarkFree;
      ghost var was := mem;
      MarkFreeTagged(mem, row, block);
      MarkFreeKept(mem, row, {block}, block);
      assert {} + {block} == {block};
      UsedLoose(row, lists, {}, {block}, block);
      KeptChains(mem, MarkFree(mem, block), row, lists, {block}, base);
      SetFreeTiled(row, block, true);
      SetFreeLists(row, lists, {block}, block, true);
      mem := MarkFree(mem, block);
      row := row.(bs := SetFree(row.bs, block, true));
      KeptIsolated(was, mem, old(row), row, {block});
    }

    // ----- The interface -----

    // Cuts a block found for a request down to size, marks it used and counts it.
    method BlockPrepareUsed(block: nat, size: nat) returns (p: nat)
      requires block == 0 ==> Valid()
      requires block != 0 ==> Whole({block}) && Tagged(mem, row) && block in row.bs && block != row.last && row.bs[block].free
      requires block != 0 ==> CoalescedBut(row, block) && NextUsed(row, block)
      requires block != 0 ==> size % ALIGN_SIZE == 0 && BLOCK_SIZE_MIN <= size <= row.bs[block].size
      requires block != 0 ==> Rd(mem, row.first) % SIZE_T == (start + UsedBytes(row)) % SIZE_T
      modifies this
      ensures Valid()
      ensures block == 0 ==> p == 0 && mem == old(mem) && row == old(row)
      ensures block != 0 ==> p == block + START && InUse(row, block) && size <= row.bs[block].size < size + HEADER
      ensures block != 0 ==> Isolated(old(mem), old(row), mem, row, {block})
      ensures block != 0 ==> UsedBytes(row) == old(UsedBytes(row)) + row.bs[block].size
    {
      hide Tiled, Class, Listed, AllChained, Indexed, Tagged, TaggedBut, SameUsers, PayloadsKept, SizeOf, FreeBit, PrevBit, Isolated;
      hide Coalesced, CoalescedBut, UsedFrom, UsedBytes, NextUsed, Kept;
      p := 0;
      if block != 0 {
        TrimFacts(row, block, size);
        BlockTrimFree(block, size);
        ghost var m1, r1 := mem, row;
        TaggedIsTaggedBut(mem, row, Next(row.bs, block));
        UsedCoalesced(row, block);
        UsedSetFree(row, block);
        BlockMarkAsUsed(block);
        IsolatedThen(old(mem), old(row), m1, r1, mem, row, {block}, {block});
        ghost var m2 := mem;
        FrontSize(mem, row, block);
        mem := mem[base + USED_OFFSET := (Rd(mem, base + USED_OFFSET) + BlockSize(mem, block)) % SIZE_T];
        CountWritten(m2, row, lists, base, {}, (Rd(m2, base + USED_OFFSET) + BlockSize(m2, block)) % SIZE_T);
        IsolatedThen(old(mem), old(row), m2, row, mem, row, {block} + {block}, {});
        assert {block} + {block} + {} == {block};
        Congruent(Rd(m2, row.first), start + UsedBytes(r1), row.bs[block].size);
        p := block + START;
      }
    }

    // tlsf_malloc: fails exactly when no free block is in a class the request searches.
    method Malloc(size: nat) returns (p: nat)
      requires Valid() && Rounded(Adjusted(size, ALIGN_SIZE)) < BLOCK_SIZE_MAX
      modifies this
      ensures Valid()
      ensures p == 0 <==> Adjusted(size, ALIGN_SIZE) == 0 || NoneLarge(old(row), Adjusted(size, ALIGN_SIZE))
      ensures p == 0 ==> mem == old(mem) && row == old(row)
      ensures p != 0 ==> Granted(old(row), row, p, Adjusted(size, ALIGN_SIZE))
      ensures p != 0 ==> Isolated(old(mem), old(row), mem, row, {p - START})
      ensures p != 0 ==> UsedBytes(row) == old(UsedBytes(row)) + row.bs[p - START].size
    {
      hide Tiled, Class, Listed, AllChained, Indexed, Tagged, SameUsers, PayloadsKept, SizeOf, FreeBit, PrevBit, Isolated;
      hide Coalesced, CoalescedBut, UsedFrom, UsedBytes, NextUsed, Adjusted, Rounded, NoneLarge;
      var adjust := Adjusted(size, ALIGN_SIZE);
      AdjustedFacts(size, ALIGN_SIZE);
      var block := BlockLocateFree(adjust);
      ghost var m1 := mem;
      if block != 0 { CoalescedAt(row, block); }
      p := BlockPrepareUsed(block, adjust);
      if block != 0 {
        IsolatedThen(old(mem), old(row), m1, old(row), mem, row, {}, {block});
        assert {} + {block} == {block};
        UsedAligned(row, block);
      }
    }

    // tlsf_free
    method Free(p: nat)
      requires Valid() && (p != 0 ==> p >= START && InUse(row, p - START))
      modifies this
      ensures Valid()
      ensures p == 0 ==> mem == old(mem) && row == old(row)
      ensures p != 0 ==> row == FreedRow(old(row), p - START) && !InUse(row, p - START)
      ensures p != 0 ==> Isolated(old(mem), old(row), mem, row, {p - START})
      ensures p != 0 ==> UsedBytes(row) == old(UsedBytes(row)) - old(row.bs[p - START].size)
    {
      hide Tiled, Class, Listed, AllChained, Indexed, Tagged, TaggedBut, SameUsers, PayloadsKept, SizeOf, FreeBit, PrevBit, Isolated;
      hide Coalesced, CoalescedBut, UsedFrom, UsedBytes, NextUsed, Kept, Fits, LinksOnly, FreedRow, MergedNext;
      if p != 0 {
        var block := p - START;
        FreedRowFacts(row, block);
        FrontSize(mem, row, block);
        FreedParts(row, block);
        mem := mem[base + USED_OFFSET := (Rd(mem, base + USED_OFFSET) + SIZE_T - BlockSize(mem, block)) % SIZE_T];
        ghost var count := Rd(mem, row.first);
        CountWritten(old(mem), row, lists, base, {}, count);
        ghost var m1 := mem;
        BlockMarkAsFree(block);
        ghost var m2, r2 := mem, row;
        var b := BlockMergePrev(block);
        ghost var m3, r3 := mem, row;
        BlockMergeNext(b);
        ghost var m4 := mem;
        FrontSize(mem, row, b);
        BlockInsert(b, {b});
        assert {b} - {b} == {};
        LinksTagged(m4, mem, row);
        CongruentLess(Rd(old(mem), row.first), start + UsedBytes(old(row)), old(row.bs[block].size));
        FreedIsolated(old(mem), old(row), m1, m2, r2, m3, r3, m4, mem, row, block, b);
      }
    }

    // The gap to the aligned pointer; if no block fits it, to the next one.
    method GapInFront(ptr: nat, align: nat, gapMinimum: nat) returns (gap: nat)
      requires align > 0 && gapMinimum == HEADER
      ensures gap == Gap(ptr, align)
    {
      hide AlignUp;
      var aligned := AlignUp(ptr, align);
      gap := aligned - ptr;
      if gap != 0 && gap < gapMinimum {
        var gapRemain := gapMinimum - gap;
        var offset := if gapRemain > align then gapRemain else align;
        aligned := AlignUp(aligned + offset, align);
        gap := aligned - ptr;
      }
    }

    // tlsf_memalign: an aligned block; whatever is in front of it stays free.
    method Memalign(align: nat, size: nat) returns (p: nat)
      requires Valid() && PowerOfTwo(align) && align > 0 && (Adjusted(size, ALIGN_SIZE) != 0 || align <= ALIGN_SIZE)
      requires Rounded(AlignedRequest(align, size)) < BLOCK_SIZE_MAX
      modifies this
      ensures Valid()
      ensures p == 0 <==> AlignedRequest(align, size) == 0 || NoneLarge(old(row), AlignedRequest(align, size))
      ensures p == 0 ==> mem == old(mem) && row == old(row)
      ensures p != 0 ==> Granted(old(row), row, p, Adjusted(size, ALIGN_SIZE)) && p % align == 0
      ensures p != 0 ==> Isolated(old(mem), old(row), mem, row, {p - START})
      ensures p != 0 ==> UsedBytes(row) == old(UsedBytes(row)) + row.bs[p - START].size
    {
      hide Tiled, Class, Listed, AllChained, Indexed, Tagged, SameUsers, PayloadsKept, SizeOf, FreeBit, PrevBit, Isolated;
      hide Coalesced, CoalescedBut, UsedFrom, UsedBytes, NextUsed, Adjusted, AlignUp, Rounded, NoneLarge, PowerOfTwo, Gap;
      var adjust := Adjusted(size, ALIGN_SIZE);
      AdjustedFacts(size, ALIGN_SIZE);
      RequestAligned(align, size);
      var gapMinimum := HEADER;
      var sizeWithGap := Adjusted(adjust + align + gapMinimum, align);
      var alignedSize := if align <= ALIGN_SIZE then adjust else sizeWithGap;
      var block := BlockLocateFree(alignedSize);
      ghost var m1, found := mem, block;
      if block != 0 {
        var ptr := block + START;
        UsedAligned(row, block);
        GapLeaves(ptr, align, size, row.bs[block].size);
        var gap := GapInFront(ptr, align, gapMinimum);
        CoalescedAt(row, block);
        if gap != 0 {
          LeadingFacts(row, block, gap);
          block := BlockTrimFreeLeading(block, gap);
          IsolatedThen(old(mem), old(row), m1, old(row), mem, row, {}, {found, block});
        }
      }
      ghost var m2, r2 := mem, row;
      p := BlockPrepareUsed(block, adjust);
      if block != 0 {
        UsedAligned(row, block);
        if block == found {
          IsolatedThen(old(mem), old(row), m1, old(row), mem, row, {}, {block});
          assert {} + {block} == {block};
        } else {
          LeadingIsolated(old(mem), old(row), m2, r2, mem, row, found, block);
        }
      }
    }

    // The user writes a word of a block in use.
    method Store(b: nat, w: nat, value: nat)
      requires Valid() && InUse(row, b) && Inner(row.bs, b, w)
      modifies this
      ensures Valid() && row == old(row) && mem == old(mem)[w := value]
      ensures Isolated(old(mem), old(row), mem, row, {b})
    {
      hide Tiled, Class, Listed, AllChained, Indexed, Tagged, SameUsers, PayloadsKept, SizeOf, Isolated, Inner, Coalesced, UsedBytes;
      UserWrites(mem, mem[w := value], row, lists, base, b);
      mem := mem[w := value];
    }

    // Copies into a block in use.
    method Memcpy(dst: nat, src: nat, n: nat)
      requires Valid() && dst >= START && InUse(row, dst - START) && n <= row.bs[dst - START].size
      modifies this
      ensures Valid() && row == old(row) && mem == CopyBytes(old(mem), src, dst, n)
      ensures Isolated(old(mem), old(row), mem, row, {dst - START})
    {
      hide Tiled, Class, Listed, AllChained, Indexed, Tagged, SameUsers, PayloadsKept, SizeOf, Isolated, Coalesced, UsedBytes, CopyBytes;
      forall w: nat | !Inner(row.bs, dst - START, w)
        ensures Rd(CopyBytes(mem, src, dst, n), w) == Rd(mem, w)
      {
        CopyElsewhere(mem, src, dst, n, w);
      }
      UserWrites(mem, CopyBytes(mem, src, dst, n), row, lists, base, dst - START);
      mem := CopyBytes(mem, src, dst, n);
    }

    // tlsf_realloc where the block can stay: it takes in a free block behind it if it has to
    // grow, and gives back what it does not need.
    method Resize(block: nat, adjust: nat)
      requires Valid() && InUse(row, block) && adjust % ALIGN_SIZE == 0 && adjust >= BLOCK_SIZE_MIN
      requires adjust > row.bs[block].size ==> CanGrow(row, block, adjust)
      modifies this
      ensures Valid() && InUse(row, block) && adjust <= row.bs[block].size < adjust + HEADER
      ensures Isolated(old(mem), old(row), mem, row, {block})
      ensures BodyKept(old(mem), mem, block, if old(row.bs[block].size) < adjust then old(row.bs[block].size) else adjust)
    {
      hide Tiled, Class, Listed, AllChained, Indexed, Tagged, TaggedBut, SameUsers, PayloadsKept, SizeOf, FreeBit, PrevBit, Isolated;
      hide Coalesced, CoalescedBut, UsedFrom, UsedBytes, NextUsed, BodyKept, TrimmedUsed, MergedNext;
      FrontSize(mem, row, block);
      var cursize := BlockSize(mem, block);
      AtBlock(row, block);
      mem := mem[base + USED_OFFSET := (Rd(mem, base + USED_OFFSET) + SIZE_T - cursize) % SIZE_T];
      CountWritten(old(mem), row, lists, base, {}, Rd(mem, row.first));
      CongruentLess(Rd(old(mem), row.first), start + UsedBytes(row), cursize);
      IsolatedBody(old(mem), row, mem, row, {}, block);
      ghost var m1 := mem;
      if adjust > cursize {
        GrownFacts(row, block);
        UsedUnlisted(row, lists, block);
        BlockMergeNext(block);
        ghost var m2 := mem;
        BlockMarkAsUsed(block);
        AlreadyUsed(old(MergedNext(row, block)), block);
        IsolatedThen(m1, old(row), m2, row, mem, row, {block}, {block});
        assert {block} + {block} == {block};
        BodyThen(m1, m2, mem, block, cursize, row.bs[block].size);
      } else {
        IsolatedNothing(mem, row, {block});
        BodyNothing(mem, block, cursize);
      }
      ghost var m3, r3 := mem, row;
      TrimmedUsedFacts(row, block, adjust);
      BlockTrimUsed(block, adjust);
      ghost var m4 := mem;
      FrontSize(mem, row, block);
      mem := mem[base + USED_OFFSET := (Rd(mem, base + USED_OFFSET) + BlockSize(mem, block)) % SIZE_T];
      CountWritten(m4, row, lists, base, {}, Rd(mem, row.first));
      Congruent(Rd(m4, row.first), start + old(UsedBytes(row)) - cursize, row.bs[block].size);
      ResizeIsolated(old(mem), old(row), m1, m3, r3, m4, mem, row, block);
      IsolatedBody(m4, row, mem, row, {}, block);
      BodyThen(old(mem), m1, m3, block, cursize, cursize);
      BodyThen(old(mem), m3, m4, block, cursize, adjust);
      BodyThen(old(mem), m4, mem, block, if cursize < adjust then cursize else adjust, row.bs[block].size);
    }

    // tlsf_realloc where the block has to move.
    method Move(p: nat, size: nat) returns (q: nat)
      requires Valid() && p >= START && InUse(row, p - START) && Adjusted(size, ALIGN_SIZE) != 0
      requires Rounded(Adjusted(size, ALIGN_SIZE)) < BLOCK_SIZE_MAX
      modifies this
      ensures Valid()
      ensures q == 0 <==> NoneLarge(old(row), Adjusted(size, ALIGN_SIZE))
      ensures q == 0 ==> mem == old(mem) && row == old(row)
      ensures q != 0 ==> Granted(old(row), row, q, Adjusted(size, ALIGN_SIZE)) && !InUse(row, p - START)
      ensures q != 0 ==> Isolated(old(mem), old(row), mem, row, {p - START, q - START})
      ensures q != 0 ==> BytesKept(old(mem), mem, p, q, Shorter(old(row.bs[p - START].size), size))
    {
      hide Tiled, Class, Listed, AllChained, Indexed, Tagged, SameUsers, PayloadsKept, SizeOf, FreeBit, PrevBit, Isolated;
      hide Coalesced, UsedFrom, UsedBytes, Adjusted, Rounded, NoneLarge, FreedRow, CopyBytes, BytesKept;
      AdjustedFacts(size, ALIGN_SIZE);
      FrontSize(mem, row, p - START);
      var cursize := BlockSize(mem, p - START);
      q := Malloc(size);
      if q != 0 {
        ghost var m1, r1, a, b := mem, row, p - START, q - START;
        var minsize := if cursize < size then cursize else size;
        IsolatedBoth(old(mem), old(row), m1, r1, {b}, a);
        Memcpy(q, p, minsize);
        ghost var m2 := mem;
        MovedBytes(old(mem), old(row), m1, r1, a, b, minsize);
        IsolatedStays(m1, r1, m2, r1, {b}, a);
        Free(p);
        IsolatedThen(old(mem), old(row), m1, r1, m2, r1, {b}, {b});
        IsolatedThen(old(mem), old(row), m2, r1, mem, row, {b} + {b}, {a});
        assert {b} + {b} + {a} == {a, b};
        IsolatedBoth(m2, r1, mem, row, {a}, b);
        FreedBytes(old(mem), m2, r1, mem, p, b, minsize);
      }
    }

    // tlsf_realloc
    method Realloc(p: nat, size: nat) returns (q: nat)
      requires Valid() && (p != 0 ==> p >= START && InUse(row, p - START))
      requires p != 0 && size != 0 ==> Adjusted(size, ALIGN_SIZE) != 0
      requires (p == 0 || MustMove(row, p - START, Adjusted(size, ALIGN_SIZE))) ==> Rounded(Adjusted(size, ALIGN_SIZE)) < BLOCK_SIZE_MAX
      modifies this
      ensures Valid()
      // a null pointer: malloc
      ensures p == 0 ==> (q == 0 <==> Adjusted(size, ALIGN_SIZE) == 0 || NoneLarge(old(row), Adjusted(size, ALIGN_SIZE)))
      ensures p == 0 && q != 0 ==> Granted(old(row), row, q, Adjusted(size, ALIGN_SIZE))
      ensures p == 0 && q != 0 ==> Isolated(old(mem), old(row), mem, row, {q - START})
      // no size: free
      ensures p != 0 && size == 0 ==> q == 0 && row == FreedRow(old(row), p - START) && !InUse(row, p - START)
      ensures p != 0 && size == 0 ==> Isolated(old(mem), old(row), mem, row, {p - START})
      // otherwise the block grows, shrinks or moves, and keeps its bytes
      ensures p != 0 && size != 0 && q != 0 ==>
        q >= START && InUse(row, q - START) && Adjusted(size, ALIGN_SIZE) <= row.bs[q - START].size < Adjusted(size, ALIGN_SIZE) + HEADER
      ensures p != 0 && size != 0 && q != 0 ==> Isolated(old(mem), old(row), mem, row, {p - START, q - START})
      ensures p != 0 && size != 0 && q != 0 ==> BytesKept(old(mem), mem, p, q, Shorter(old(row.bs[p - START].size), size))
      ensures p != 0 && size != 0 && q != 0 && q != p ==> !InUse(row, p - START) && !InUse(old(row), q - START)
      // it fails only when it can neither grow nor move
      ensures p != 0 && size != 0 ==> (q == 0 <==> Stuck(old(row), p - START, Adjusted(size, ALIGN_SIZE)))
      ensures (p == 0 || size != 0) && q == 0 ==> mem == old(mem) && row == old(row)
    {
      hide Tiled, Class, Listed, AllChained, Indexed, Tagged, SameUsers, PayloadsKept, SizeOf, FreeBit, PrevBit, Isolated;
      hide Coalesced, UsedFrom, UsedBytes, Adjusted, Rounded, NoneLarge, FreedRow, BytesKept, BodyKept;
      q := 0;
      if p != 0 && size == 0 {
        Free(p);
      } else if p == 0 {
        q := Malloc(size);
      } else {
        var block := p - START;
        AtBlock(row, block);
        FrontSize(mem, row, block);
        var next := BlockNext(mem, block);
        FrontSize(mem, row, next);
        var cursize := BlockSize(mem, block);
        var combined := cursize + BlockSize(mem, next) + OVERHEAD;
        var adjust := Adjusted(size, ALIGN_SIZE);
        AdjustedFacts(size, ALIGN_SIZE);
        if adjust > cursize && (!IsFree(mem, next) || adjust > combined) {
          q := Move(p, size);
        } else {
          UsedAligned(row, block);
          Resize(block, adjust);
          q := p;
          assert {p - START, q - START} == {block};
          BodyBytes(old(mem), mem, p, Shorter(cursize, size), if cursize < adjust then cursize else adjust);
        }
      }
    }

    // ----- Checking -----

    // tlsf_walk_heap with integrity_walker: one fault for each tag that disagrees.
    method WalkHeap() returns (faults: int)
      requires Valid()
      ensures faults == 0
    {
      hide Tiled, Class, Listed, AllChained, Indexed, Tagged, SizeOf, FreeBit, PrevBit, Coalesced, UsedBytes;
      faults := 0;
      var block := base + USED_OFFSET;
      var prevStatus := false;
      SentinelUsed(row);
      FrontSize(mem, row, block);
      EndsThere(row);
      while BlockSize(mem, block) != 0
        invariant block in row.bs && SizeTag(mem, row, block) && prevStatus == PrevFree(row, block) && faults == 0
        decreases row.last - block
      {
        assert block != row.last by { EndsThere(row); }
        TagAt(mem, row, block);
        AtBlock(row, block);
        if prevStatus != IsPrevFree(mem, block) {
          faults := faults + 1;
        }
        prevStatus := IsFree(mem, block);
        block := BlockNext(mem, block);
        FrontSize(mem, row, block);
      }
    }

    // The list part of tlsf_check_heap, for list (f, s).
    method CheckList(f: nat, s: nat) returns (faults: int)
      requires Valid() && f < FL_INDEX_COUNT && s < SL_INDEX_COUNT
      ensures faults == 0
    {
      hide Tiled, Class, Listed, Tagged, SizeOf, FreeBit, PrevBit, Coalesced, UsedBytes, Bit, Chained, Fl, Sl;
      faults := 0;
      ghost var c := Slot(f, s);
      ghost var l := lists[c];
      assert SlotOk(base, slMap, heads, lists, f, s) && WordOk(flMap, slMap, f);
      var flBit, slList := Bit(flMap, f), slMap[f];
      var slBit := Bit(slList, s);
      var block := heads[Slot(f, s)];
      if slBit { BitIsNonzero(slList, s); }
      if !flBit && slBit { faults := faults + 1; }
      if !slBit {
        if block != base { faults := faults + 1; }
      } else {
        if slList == 0 { faults := faults + 1; }
        ListedSpaced(row, lists, {}, base, c);
        if block == base { faults := faults + 1; }
        ghost var i := 0;
        while block != base
          invariant i <= |l| && block == (if i < |l| then l[i] else base) && faults == 0
          decreases |l| - i
        {
          EntryFacts(mem, row, lists, base, c, i);
          var next := BlockNext(mem, block);
          if !IsFree(mem, block) { faults := faults + 1; }
          if IsPrevFree(mem, block) { faults := faults + 1; }
          if IsFree(mem, next) { faults := faults + 1; }
          if !IsPrevFree(mem, next) { faults := faults + 1; }
          if BlockSize(mem, block) < BLOCK_SIZE_MIN { faults := faults + 1; }
          SlotIsClass(row.bs[block].size);
          var fl, sl := MappingInsert(BlockSize(mem, block));
          SlotsDiffer(f, s, fl, sl);
          if fl != f || sl != s { faults := faults + 1; }
          block := Rd(mem, block + 16);
          i := i + 1;
        }
      }
    }

    // tlsf_check_heap: zero in every state that satisfies the invariant.
    method CheckHeap() returns (status: int)
      requires Valid()
      ensures status == 0
    {
      hide Tiled, Class, Listed, AllChained, Indexed, Tagged, Coalesced, UsedBytes;
      var walked := WalkHeap();
      status := -walked;
      for f: nat := 0 to FL_INDEX_COUNT
        invariant status == 0
      {
        for s: nat := 0 to SL_INDEX_COUNT
          invariant status == 0
        {
          var faults := CheckList(f, s);
          status := status - faults;
        }
      }
    }

    // ----- Creation -----

    // pool_construct: empty lists, empty bitmaps.
    constructor (base: nat, memory: Mem)
      ensures this.base == base && Indexed(base, flMap, slMap, heads, lists) && AllChained(mem, base, lists)
      ensures flMap == 0 && lists == NoLists()
      ensures mem == memory[base + 16 := base][base + 24 := base] && start == Rd(memory, base + USED_OFFSET)
    {
      this.base := base;
      this.start := Rd(memory, base + USED_OFFSET);
      this.mem := memory[base + 16 := base][base + 24 := base];
      this.flMap := 0;
      this.lists := NoLists();
      var words: seq<nat>, empty: seq<nat> := [], [];
      for i: nat := 0 to FL_INDEX_COUNT
        invariant |words| == i && |empty| == Slot(i, 0)
        invariant forall k :: 0 <= k < |words| ==> words[k] == 0
        invariant forall k :: 0 <= k < |empty| ==> empty[k] == base
      {
        words := words + [0];
        for j: nat := 0 to SL_INDEX_COUNT
          invariant |empty| == Slot(i, j)
          invariant forall k :: 0 <= k < |empty| ==> empty[k] == base
        {
          empty := empty + [base];
        }
      }
      this.slMap := words;
      this.heads := empty;
      EmptyIndexed(base, words, empty);
    }

    // The rest of tlsf_create: one free block, then the sentinel behind it.
    method Format(poolBytes: nat)
      requires Indexed(base, flMap, slMap, heads, lists) && AllChained(mem, base, lists) && lists == NoLists()
      requires base % ALIGN_SIZE == 0 && poolBytes % ALIGN_SIZE == 0 && BLOCK_SIZE_MIN <= poolBytes < BLOCK_SIZE_MAX
      requires Rd(mem, base + USED_OFFSET) == start
      modifies this
      ensures Valid() && row == FirstRow(base, poolBytes)
    {
      hide Tiled, Class, Indexed, Tagged, SizeOf, FreeBit, PrevBit, Coalesced, UsedFrom, Resized, WithFree, WithPrev, LinksOnly, Listed, Kept;
      hide SetSize, SetBlockFree, SetPrevFree, LinkNext, AllChained;
      HeaderTags(mem, base, poolBytes);
      row := FirstRow(base, poolBytes);
      FirstRowFacts(base, poolBytes);
      var block := base + USED_OFFSET;
      mem := SetSize(mem, block, poolBytes);
      mem := SetBlockFree(mem, block, true);
      mem := SetPrevFree(mem, block, false);
      ghost var m1 := mem;
      NoChains(mem, base);
      BlockInsert(block, {block});
      ghost var m2 := mem;
      assert {block} - {block} == {};
      InsertedTags(m1, m2, row);
      var next := BlockNext(mem, block);
      mem := LinkNext(mem, block);
      mem := SetSize(mem, next, 0);
      mem := SetBlockFree(mem, next, false);
      mem := SetPrevFree(mem, next, true);
      SentinelTags(m2, base, poolBytes);
      FirstKept(m2, mem, row);
      KeptChains(m2, mem, row, lists, {}, base);
    }
  }

  // The size of the first block in `bytes` bytes of memory; size_t arithmetic wraps.
  function PoolBytes(bytes: nat): nat
    requires bytes < SIZE_T
  {
    var left := (bytes + SIZE_T - POOL_OVERHEAD) % SIZE_T;
    left - left % ALIGN_SIZE
  }

  // tlsf_create
  method Create(base: nat, bytes: nat, memory: Mem) returns (pool: Pool?)
    requires base % ALIGN_SIZE == 0 && bytes < SIZE_T && PoolBytes(bytes) != BLOCK_SIZE_MAX
    ensures pool == null <==> PoolBytes(bytes) < BLOCK_SIZE_MIN || PoolBytes(bytes) > BLOCK_SIZE_MAX
    ensures pool != null ==> fresh(pool) && pool.Valid() && pool.row == FirstRow(base, PoolBytes(bytes))
  {
    hide Tiled, Class, Indexed, Tagged, Coalesced, UsedBytes, FirstRow, Listed;
    var poolBytes := PoolBytes(bytes);
    DownToEight((bytes + SIZE_T - POOL_OVERHEAD) % SIZE_T);
    if poolBytes < BLOCK_SIZE_MIN || poolBytes > BLOCK_SIZE_MAX {
      return null;
    }
    pool := new Pool(base, memory);
    pool.Format(poolBytes);
  }
}
