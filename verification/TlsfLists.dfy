// The free lists, one per size class, and the two-level bitmap that indexes them.
module TlsfLists {
  import opened Powers
  import opened TlsfBits
  import opened TlsfMapping
  import opened TlsfLayout
  import opened TlsfTags
  import opened TlsfChains

  // ----- Which blocks are listed -----

  // Blocks in `loose` are being worked on and in no list.
  ghost predicate Belongs(row: Row, loose: set<nat>, c: nat, x: nat) {
    x in row.bs && x != row.last && row.bs[x].free && x !in loose && Class(row.bs[x].size) == c
  }

  ghost predicate Filed(row: Row, lists: seq<seq<nat>>, loose: set<nat>, x: nat)
    requires |lists| == LISTS && x in row.bs
  {
    row.bs[x].free && x !in loose ==>
      Class(row.bs[x].size) < LISTS && x in lists[Class(row.bs[x].size)]
  }

  // Every free block that is not loose is in exactly the list of its size class.
  ghost predicate Listed(row: Row, lists: seq<seq<nat>>, loose: set<nat>) {
    && |lists| == LISTS
    && (forall c: nat, x {:trigger x in lists[c]} :: c < LISTS && x in lists[c] ==> Belongs(row, loose, c, x))
    && (forall x {:trigger Filed(row, lists, loose, x)} :: x in row.bs ==> Filed(row, lists, loose, x))
    && (forall c: nat {:trigger lists[c]} :: c < LISTS ==> NoDup(lists[c]))
  }

  lemma NotIn(row: Row, lists: seq<seq<nat>>, loose: set<nat>, c: nat, x: nat)
    requires Listed(row, lists, loose) && c < LISTS && !Belongs(row, loose, c, x)
    ensures x !in lists[c]
  {
  }

  lemma ListedTake(row: Row, lists: seq<seq<nat>>, loose: set<nat>, c: nat, x: nat)
    requires Listed(row, lists, loose) && c < LISTS && x in lists[c]
    ensures Listed(row, lists[c := Take(lists[c], x)], loose + {x})
  {
    hide Class, Take, NoDup;
    var after := lists[c := Take(lists[c], x)];
    TakeMembers(lists[c], x);
    assert Belongs(row, loose, c, x);
    forall y | y in row.bs
      ensures Filed(row, after, loose + {x}, y)
    {
      assert Filed(row, lists, loose, y);
    }
    forall d: nat, y | d < LISTS && y in after[d]
      ensures Belongs(row, loose + {x}, d, y)
    {
      assert y in lists[d];
      assert Belongs(row, loose, d, y);
    }
  }

  lemma ListedPush(row: Row, lists: seq<seq<nat>>, loose: set<nat>, x: nat)
    requires Listed(row, lists, loose) && x in loose && x in row.bs && x != row.last && row.bs[x].free
    requires Class(row.bs[x].size) < LISTS
    ensures var c := Class(row.bs[x].size);
      Listed(row, lists[c := [x] + lists[c]], loose - {x})
  {
    hide Class, NoDup;
    var c := Class(row.bs[x].size);
    var after := lists[c := [x] + lists[c]];
    NotIn(row, lists, loose, c, x);
    PushMembers(lists[c], x);
    forall y | y in row.bs
      ensures Filed(row, after, loose - {x}, y)
    {
      assert Filed(row, lists, loose, y);
    }
    forall d: nat, y | d < LISTS && y in after[d]
      ensures Belongs(row, loose - {x}, d, y)
    {
      if y != x {
        assert y in lists[d];
        assert Belongs(row, loose, d, y);
      }
    }
  }

  // What a change of the row leaves in the lists.
  ghost predicate SameFree(row: Row, loose: set<nat>, after: Row, stray: set<nat>, x: nat) {
    && (x in row.bs && row.bs[x].free && x !in loose ==>
          x in after.bs && after.bs[x].free && x !in stray && after.bs[x].size == row.bs[x].size)
    && (x in after.bs && after.bs[x].free && x !in stray ==>
          x in row.bs && row.bs[x].free && x !in loose && after.bs[x].size == row.bs[x].size)
  }

  lemma ListedStays(row: Row, lists: seq<seq<nat>>, loose: set<nat>, after: Row, stray: set<nat>)
    requires Listed(row, lists, loose) && row.last == after.last
    requires forall x {:trigger SameFree(row, loose, after, stray, x)} :: SameFree(row, loose, after, stray, x)
    ensures Listed(after, lists, stray)
  {
    hide Class, NoDup;
    forall y | y in after.bs
      ensures Filed(after, lists, stray, y)
    {
      assert SameFree(row, loose, after, stray, y);
      if y in row.bs { assert Filed(row, lists, loose, y); }
    }
    forall d: nat, y | d < LISTS && y in lists[d]
      ensures Belongs(after, stray, d, y)
    {
      assert Belongs(row, loose, d, y);
      assert SameFree(row, loose, after, stray, y);
    }
  }

  // Listed blocks lie apart, and in front of them the pool's null block.
  lemma ListedSpaced(row: Row, lists: seq<seq<nat>>, loose: set<nat>, base: nat, c: nat)
    requires Tiled(row) && base + HEADER <= row.first && Listed(row, lists, loose) && c < LISTS
    ensures Spaced(base, lists[c])
  {
    hide Class, Tiled;
    var l := lists[c];
    forall i: nat | i < |l|
      ensures base + HEADER <= l[i]
    {
      assert l[i] in lists[c];
      assert Belongs(row, loose, c, l[i]);
      AtBlock(row, l[i]);
    }
    forall i: nat, j: nat | i < |l| && j < |l| && i != j
      ensures Clear(l[i], l[j])
    {
      assert l[i] in lists[c] && l[j] in lists[c];
      assert Belongs(row, loose, c, l[i]) && Belongs(row, loose, c, l[j]);
      assert NoDup(l);
      HeadersApart(row, l[i], l[j]);
    }
  }

  // A block that is not in list c lies clear of it.
  lemma ListedFresh(row: Row, lists: seq<seq<nat>>, loose: set<nat>, base: nat, c: nat, x: nat)
    requires Tiled(row) && base + HEADER <= row.first && Listed(row, lists, loose) && c < LISTS
    requires x in row.bs && x !in lists[c]
    ensures Fresh(base, lists[c], x)
  {
    hide Class, Tiled, NoDup;
    var l := lists[c];
    assert x >= row.first by { assert Fits(row, x) by { TiledFits(row, x); } }
    forall i: nat | i < |l|
      ensures Clear(x, l[i])
    {
      assert l[i] in lists[c];
      assert Belongs(row, loose, c, l[i]);
      HeadersApart(row, x, l[i]);
    }
  }

  lemma TiledFits(row: Row, x: nat)
    requires Tiled(row) && x in row.bs
    ensures Fits(row, x)
  {
  }

  ghost predicate AllChained(m: Mem, base: nat, lists: seq<seq<nat>>) {
    forall c: nat {:trigger Chained(m, base, lists[c])} :: c < |lists| ==> Chained(m, base, lists[c])
  }

  lemma UnlinkChained(m: Mem, row: Row, lists: seq<seq<nat>>, loose: set<nat>, base: nat, c: nat, x: nat)
    requires Tiled(row) && base + HEADER <= row.first && Listed(row, lists, loose) && c < LISTS && x in lists[c]
    requires AllChained(m, base, lists)
    ensures AllChained(UnlinkMem(m, x), base, lists[c := Take(lists[c], x)])
  {
    hide Class, Tiled, Chained, Spaced, Fresh, UnlinkMem, Take, NoDup;
    ListedSpaced(row, lists, loose, base, c);
    var after := lists[c := Take(lists[c], x)];
    forall d: nat | d < |after|
      ensures Chained(UnlinkMem(m, x), base, after[d])
    {
      assert Chained(m, base, lists[c]) && Chained(m, base, lists[d]);
      if d == c {
        ChainUnlink(m, base, lists[c], x);
      } else {
        forall y | y in lists[d]
          ensures SameLinks(m, UnlinkMem(m, x), y)
        {
          assert Belongs(row, loose, d, y);
          NotIn(row, lists, loose, c, y);
          ListedFresh(row, lists, loose, base, c, y);
          UnlinkElsewhere(m, base, lists[c], x, y);
        }
        ChainFrame(m, UnlinkMem(m, x), base, lists[d]);
      }
    }
  }

  lemma PushChained(m: Mem, row: Row, lists: seq<seq<nat>>, loose: set<nat>, base: nat, c: nat, x: nat)
    requires Tiled(row) && base + HEADER <= row.first && Listed(row, lists, loose) && c < LISTS
    requires x in row.bs && x in loose
    requires AllChained(m, base, lists)
    ensures AllChained(PushMem(m, base, Head(base, lists[c]), x), base, lists[c := [x] + lists[c]])
  {
    hide Class, Tiled, Chained, Spaced, Fresh, PushMem, NoDup;
    ListedSpaced(row, lists, loose, base, c);
    var after := lists[c := [x] + lists[c]];
    forall d: nat | d < LISTS
      ensures x !in lists[d]
    {
      NotIn(row, lists, loose, d, x);
    }
    ListedFresh(row, lists, loose, base, c, x);
    forall d: nat | d < |after|
      ensures Chained(PushMem(m, base, Head(base, lists[c]), x), base, after[d])
    {
      assert Chained(m, base, lists[c]) && Chained(m, base, lists[d]);
      if d == c {
        ChainPush(m, base, lists[c], x);
      } else {
        forall y | y in lists[d]
          ensures SameLinks(m, PushMem(m, base, Head(base, lists[c]), x), y)
        {
          assert Belongs(row, loose, d, y);
          NotIn(row, lists, loose, c, y);
          ListedFresh(row, lists, loose, base, c, y);
          HeadersApart(row, x, y);
          PushElsewhere(m, base, lists[c], x, y);
        }
        ChainFrame(m, PushMem(m, base, Head(base, lists[c]), x), base, lists[d]);
      }
    }
  }

  // ----- The bitmaps -----

  function Slot(f: nat, s: nat): nat { f * SL_INDEX_COUNT + s }

  ghost predicate SlotOk(base: nat, slMap: seq<nat>, heads: seq<nat>, lists: seq<seq<nat>>, f: nat, s: nat)
    requires |slMap| == FL_INDEX_COUNT && |heads| == LISTS && |lists| == LISTS && f < FL_INDEX_COUNT && s < SL_INDEX_COUNT
  {
    var c := Slot(f, s);
    heads[c] == Head(base, lists[c]) && (Bit(slMap[f], s) <==> lists[c] != [])
  }

  ghost predicate WordOk(flMap: nat, slMap: seq<nat>, f: nat)
    requires f < |slMap|
  {
    slMap[f] < WORD && (Bit(flMap, f) <==> slMap[f] > 0)
  }

  // Heads and bitmaps describe the lists: a bit is set exactly when its list is non-empty.
  ghost predicate Indexed(base: nat, flMap: nat, slMap: seq<nat>, heads: seq<nat>, lists: seq<seq<nat>>) {
    && |slMap| == FL_INDEX_COUNT && |heads| == LISTS && |lists| == LISTS
    && flMap < WORD
    && (forall f: nat {:trigger Bit(flMap, f)} :: FL_INDEX_COUNT <= f < 32 ==> !Bit(flMap, f))
    && (forall f: nat {:trigger WordOk(flMap, slMap, f)} :: f < FL_INDEX_COUNT ==> WordOk(flMap, slMap, f))
    && (forall f: nat, s: nat {:trigger SlotOk(base, slMap, heads, lists, f, s)} ::
          f < FL_INDEX_COUNT && s < SL_INDEX_COUNT ==> SlotOk(base, slMap, heads, lists, f, s))
  }

  lemma SlotsDiffer(f: nat, s: nat, g: nat, t: nat)
    requires s < SL_INDEX_COUNT && t < SL_INDEX_COUNT && Slot(f, s) == Slot(g, t)
    ensures f == g && s == t
  {
  }

  // A list that stays non-empty, or becomes so.
  lemma IndexFilled(base: nat, flMap: nat, slMap: seq<nat>, heads: seq<nat>, lists: seq<seq<nat>>, f: nat, s: nat, l: seq<nat>)
    requires Indexed(base, flMap, slMap, heads, lists) && f < FL_INDEX_COUNT && s < SL_INDEX_COUNT && l != []
    ensures Indexed(base, With(flMap, f), slMap[f := With(slMap[f], s)], heads[Slot(f, s) := l[0]], lists[Slot(f, s) := l])
  {
    hide Bit, With;
    var c := Slot(f, s);
    assert WordOk(flMap, slMap, f);
    WordStays(flMap, f);
    WordStays(slMap[f], s);
    var fl', sl', heads', lists' := With(flMap, f), slMap[f := With(slMap[f], s)], heads[c := l[0]], lists[c := l];
    WithBit(slMap[f], s, s);
    BitIsNonzero(sl'[f], s);
    forall g: nat | g < FL_INDEX_COUNT
      ensures WordOk(fl', sl', g)
    {
      WithBit(flMap, f, g);
      assert WordOk(flMap, slMap, g);
    }
    forall g: nat | FL_INDEX_COUNT <= g < 32
      ensures !Bit(fl', g)
    {
      WithBit(flMap, f, g);
    }
    forall g: nat, t: nat | g < FL_INDEX_COUNT && t < SL_INDEX_COUNT
      ensures SlotOk(base, sl', heads', lists', g, t)
    {
      assert SlotOk(base, slMap, heads, lists, g, t);
      WithBit(slMap[f], s, t);
      if Slot(g, t) == c { SlotsDiffer(f, s, g, t); }
    }
  }

  // A list that stays non-empty: only its head may change.
  lemma IndexKept(base: nat, flMap: nat, slMap: seq<nat>, heads: seq<nat>, lists: seq<seq<nat>>, f: nat, s: nat, l: seq<nat>)
    requires Indexed(base, flMap, slMap, heads, lists) && f < FL_INDEX_COUNT && s < SL_INDEX_COUNT
    requires l != [] && lists[Slot(f, s)] != []
    ensures Indexed(base, flMap, slMap, heads[Slot(f, s) := l[0]], lists[Slot(f, s) := l])
  {
    hide Bit;
    var c := Slot(f, s);
    var heads', lists' := heads[c := l[0]], lists[c := l];
    forall g: nat, t: nat | g < FL_INDEX_COUNT && t < SL_INDEX_COUNT
      ensures SlotOk(base, slMap, heads', lists', g, t)
    {
      assert SlotOk(base, slMap, heads, lists, g, t);
      if Slot(g, t) == c { SlotsDiffer(f, s, g, t); }
    }
  }

  // The first-level word after `word` became the second-level word of row f.
  function FlAfter(flMap: nat, f: nat, word: nat): nat
    requires flMap < WORD && f < 32
  {
    if word == 0 then Without(flMap, f) else flMap
  }

  // A list that becomes empty.
  lemma IndexEmptied(base: nat, flMap: nat, slMap: seq<nat>, heads: seq<nat>, lists: seq<seq<nat>>, f: nat, s: nat)
    requires Indexed(base, flMap, slMap, heads, lists) && f < FL_INDEX_COUNT && s < SL_INDEX_COUNT
    ensures slMap[f] < WORD
    ensures var word := Without(slMap[f], s);
      Indexed(base, FlAfter(flMap, f, word), slMap[f := word],
              heads[Slot(f, s) := base], lists[Slot(f, s) := []])
  {
    hide Bit, Without;
    var c := Slot(f, s);
    assert WordOk(flMap, slMap, f);
    var word := Without(slMap[f], s);
    WordStays(flMap, f);
    WordStays(slMap[f], s);
    var fl', sl', heads', lists' := FlAfter(flMap, f, word), slMap[f := word], heads[c := base], lists[c := []];
    if word > 0 { NonzeroFrom(slMap[f], s); }
    forall g: nat | g < FL_INDEX_COUNT
      ensures WordOk(fl', sl', g)
    {
      WithoutBit(flMap, f, g);
      assert WordOk(flMap, slMap, g);
    }
    forall g: nat | FL_INDEX_COUNT <= g < 32
      ensures !Bit(fl', g)
    {
      WithoutBit(flMap, f, g);
    }
    forall g: nat, t: nat | g < FL_INDEX_COUNT && t < SL_INDEX_COUNT
      ensures SlotOk(base, sl', heads', lists', g, t)
    {
      assert SlotOk(base, slMap, heads, lists, g, t);
      WithoutBit(slMap[f], s, t);
      if Slot(g, t) == c { SlotsDiffer(f, s, g, t); }
    }
  }

  lemma NonzeroFrom(w: nat, s: nat)
    requires w < WORD && s < 32 && Without(w, s) > 0
    ensures w > 0
  {
    hide And;
    AndBound(w, Not(Pow2(s)));
  }

  // ----- Searching -----

  ghost predicate FirstFrom(lists: seq<seq<nat>>, least: nat, c: nat) {
    && least <= c < |lists| && lists[c] != []
    && forall d: nat {:trigger lists[d]} :: least <= d < c ==> lists[d] == []
  }

  ghost predicate NoneFrom(lists: seq<seq<nat>>, least: nat) {
    forall d: nat {:trigger lists[d]} :: least <= d < |lists| ==> lists[d] == []
  }

  // Nothing at slots (f, s) and up in the same row of the bitmap.
  lemma RowEmpty(base: nat, flMap: nat, slMap: seq<nat>, heads: seq<nat>, lists: seq<seq<nat>>, f: nat, s: nat, t: nat)
    requires Indexed(base, flMap, slMap, heads, lists) && f < FL_INDEX_COUNT && s <= t < SL_INDEX_COUNT
    requires From(slMap[f], s) == 0 || t < Lowest(From(slMap[f], s))
    ensures lists[Slot(f, t)] == []
  {
    hide Bit, From, Lowest;
    assert SlotOk(base, slMap, heads, lists, f, t);
    FromBit(slMap[f], s, t);
    if From(slMap[f], s) == 0 { ZeroBit(t); } else { LowestIsLowest(From(slMap[f], s)); }
  }

  // Nothing in the rows that the first-level scan skips.
  lemma RowsEmpty(base: nat, flMap: nat, slMap: seq<nat>, heads: seq<nat>, lists: seq<seq<nat>>, f: nat, g: nat, t: nat)
    requires Indexed(base, flMap, slMap, heads, lists) && f <= g < FL_INDEX_COUNT && t < SL_INDEX_COUNT
    requires From(flMap, f) == 0 || g < Lowest(From(flMap, f))
    ensures lists[Slot(g, t)] == []
  {
    hide Bit, From, Lowest;
    assert WordOk(flMap, slMap, g) && SlotOk(base, slMap, heads, lists, g, t);
    FromBit(flMap, f, g);
    if From(flMap, f) == 0 { ZeroBit(g); } else { LowestIsLowest(From(flMap, f)); }
    ZeroBit(t);
  }

  lemma FromBelow(w: nat, i: nat)
    requires w < WORD && i <= 32
    ensures From(w, i) < WORD
  {
    hide And;
    AndBound(w, High(i));
  }

  // The row hit by the second-level scan.
  lemma RowHit(base: nat, flMap: nat, slMap: seq<nat>, heads: seq<nat>, lists: seq<seq<nat>>, f: nat, s: nat)
    requires Indexed(base, flMap, slMap, heads, lists) && f < FL_INDEX_COUNT && s < SL_INDEX_COUNT
    requires From(slMap[f], s) > 0
    ensures var t := Lowest(From(slMap[f], s)); s <= t < SL_INDEX_COUNT && FirstFrom(lists, Slot(f, s), Slot(f, t))
  {
    hide Bit, From, Lowest, FirstFrom;
    var w := From(slMap[f], s);
    var t := Lowest(w);
    assert WordOk(flMap, slMap, f);
    FromBelow(slMap[f], s);
    Word32();
    LowestBelow(32, w);
    LowestIsLowest(w);
    FromBit(slMap[f], s, t);
    assert SlotOk(base, slMap, heads, lists, f, t);
    forall d: nat | Slot(f, s) <= d < Slot(f, t)
      ensures lists[d] == []
    {
      RowEmpty(base, flMap, slMap, heads, lists, f, s, d - Slot(f, 0));
    }
    assert FirstFrom(lists, Slot(f, s), Slot(f, t)) by { IsFirst(lists, Slot(f, s), Slot(f, t)); }
  }

  lemma IsFirst(lists: seq<seq<nat>>, least: nat, c: nat)
    requires least <= c < |lists| && lists[c] != []
    requires forall d: nat :: least <= d < c ==> lists[d] == []
    ensures FirstFrom(lists, least, c)
  {
  }

  // The row found by the first-level scan after the first row came up empty.
  lemma RowsHit(base: nat, flMap: nat, slMap: seq<nat>, heads: seq<nat>, lists: seq<seq<nat>>, f: nat, s: nat)
    requires Indexed(base, flMap, slMap, heads, lists) && f < FL_INDEX_COUNT && s < SL_INDEX_COUNT
    requires From(slMap[f], s) == 0 && From(flMap, f + 1) > 0
    ensures var g := Lowest(From(flMap, f + 1));
      f < g < FL_INDEX_COUNT && 0 < slMap[g] < WORD && Lowest(slMap[g]) < SL_INDEX_COUNT && FirstFrom(lists, Slot(f, s), Slot(g, Lowest(slMap[g])))
  {
    hide Bit, From, Lowest, FirstFrom;
    var w := From(flMap, f + 1);
    var g := Lowest(w);
    FromBelow(flMap, f + 1);
    Word32();
    LowestBelow(32, w);
    LowestIsLowest(w);
    FromBit(flMap, f + 1, g);
    assert WordOk(flMap, slMap, g);
    LowestBelow(32, slMap[g]);
    LowestIsLowest(slMap[g]);
    var t := Lowest(slMap[g]);
    assert SlotOk(base, slMap, heads, lists, g, t);
    forall d: nat | Slot(f, s) <= d < Slot(g, t)
      ensures lists[d] == []
    {
      var e, u := d / SL_INDEX_COUNT, d % SL_INDEX_COUNT;
      assert d == Slot(e, u);
      if e == f {
        RowEmpty(base, flMap, slMap, heads, lists, f, s, u);
      } else if e < g {
        RowsEmpty(base, flMap, slMap, heads, lists, f + 1, e, u);
      } else {
        assert SlotOk(base, slMap, heads, lists, g, u);
      }
    }
    IsFirst(lists, Slot(f, s), Slot(g, t));
  }

  lemma NothingFound(base: nat, flMap: nat, slMap: seq<nat>, heads: seq<nat>, lists: seq<seq<nat>>, f: nat, s: nat)
    requires Indexed(base, flMap, slMap, heads, lists) && f < FL_INDEX_COUNT && s < SL_INDEX_COUNT
    requires From(slMap[f], s) == 0 && From(flMap, f + 1) == 0
    ensures NoneFrom(lists, Slot(f, s))
  {
    hide Bit, From, Lowest;
    forall d: nat | Slot(f, s) <= d < |lists|
      ensures lists[d] == []
    {
      var e, u := d / SL_INDEX_COUNT, d % SL_INDEX_COUNT;
      assert d == Slot(e, u);
      if e == f {
        RowEmpty(base, flMap, slMap, heads, lists, f, s, u);
      } else {
        RowsEmpty(base, flMap, slMap, heads, lists, f + 1, e, u);
      }
    }
  }
}
