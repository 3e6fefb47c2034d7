// The cache's table of items: 256 chains, chosen by the low byte of the key's digest.
module BlobTable {
  import opened Bytes
  import opened Options

  const ITEM_HASH_SIZE: nat := 256

  datatype Item = Item(key: nat, content: nat, lastaccess: nat, expiry: nat, modtime: nat, size: nat,
                       flags: nat, typeLen: nat, etag: Option<seq<Byte>>)

  type Chain = seq<Item>

  type Table = seq<Chain>

  function Slot(key: nat): nat { key % ITEM_HASH_SIZE }

  function FindIn(chain: Chain, key: nat): Option<Item> {
    if chain == [] then None else if chain[0].key == key then Some(chain[0]) else FindIn(chain[1..], key)
  }

  // Keys are unique in a chain, and every item is in the chain of its key.
  ghost predicate Unique(chain: Chain) {
    forall i, j :: 0 <= i < j < |chain| ==> chain[i].key != chain[j].key
  }

  ghost predicate InSlot(chain: Chain, slot: nat) {
    forall i :: 0 <= i < |chain| ==> Slot(chain[i].key) == slot
  }

  ghost predicate Hashed(t: Table) {
    |t| == ITEM_HASH_SIZE && forall i: nat {:trigger t[i]} :: i < |t| ==> Unique(t[i]) && InSlot(t[i], i)
  }

  function Find(t: Table, key: nat): Option<Item>
    requires |t| == ITEM_HASH_SIZE
  {
    FindIn(t[Slot(key)], key)
  }

  function EmptyTable(): (t: Table)
    ensures |t| == ITEM_HASH_SIZE && forall i: nat :: i < |t| ==> t[i] == []
  {
    seq(ITEM_HASH_SIZE, _ => [])
  }

  // An item joins at the head of its chain.
  function Push(t: Table, item: Item): Table
    requires |t| == ITEM_HASH_SIZE
  {
    t[Slot(item.key) := [item] + t[Slot(item.key)]]
  }

  // The chain with entry i taken out, or replaced.
  function Cut(chain: Chain, i: nat): Chain
    requires i < |chain|
  {
    chain[..i] + chain[i + 1..]
  }

  lemma {:induction false} FoundAt(chain: Chain, i: nat)
    requires Unique(chain) && i < |chain|
    ensures FindIn(chain, chain[i].key) == Some(chain[i])
  {
    if i > 0 {
      assert chain[0].key != chain[i].key;
      assert Unique(chain[1..]) && chain[1..][i - 1] == chain[i];
      FoundAt(chain[1..], i - 1);
    }
  }

  lemma {:induction false} NotFound(chain: Chain, key: nat)
    ensures FindIn(chain, key) == None <==> forall i :: 0 <= i < |chain| ==> chain[i].key != key
    ensures FindIn(chain, key).Some? ==> FindIn(chain, key).value in chain && FindIn(chain, key).value.key == key
  {
    if chain != [] {
      NotFound(chain[1..], key);
      assert forall i :: 0 < i < |chain| ==> chain[i] == chain[1..][i - 1];
      assert forall i :: 0 <= i < |chain| - 1 ==> chain[1..][i] == chain[i + 1];
    }
  }

  lemma {:induction false} FindCut(chain: Chain, i: nat, key: nat)
    requires Unique(chain) && i < |chain|
    ensures FindIn(Cut(chain, i), key) == if key == chain[i].key then None else FindIn(chain, key)
  {
    if i == 0 {
      assert Cut(chain, 0) == chain[1..];
      if key == chain[0].key {
        NotFound(chain[1..], key);
        assert forall j :: 0 <= j < |chain| - 1 ==> chain[1..][j] == chain[j + 1];
      }
    } else {
      assert Unique(chain[1..]) && chain[1..][i - 1] == chain[i];
      FindCut(chain[1..], i - 1, key);
      assert Cut(chain, i)[1..] == Cut(chain[1..], i - 1);
    }
  }

  lemma {:induction false} FindUpdated(chain: Chain, i: nat, item: Item, key: nat)
    requires Unique(chain) && i < |chain| && item.key == chain[i].key
    ensures FindIn(chain[i := item], key) == if key == item.key then Some(item) else FindIn(chain, key)
  {
    if i > 0 {
      assert chain[0].key != chain[i].key;
      assert Unique(chain[1..]) && chain[1..][i - 1] == chain[i];
      FindUpdated(chain[1..], i - 1, item, key);
      assert chain[i := item][1..] == chain[1..][i - 1 := item];
    } else {
      assert chain[0 := item][1..] == chain[1..];
    }
  }

  lemma CutUnique(chain: Chain, i: nat, slot: nat)
    requires Unique(chain) && InSlot(chain, slot) && i < |chain|
    ensures Unique(Cut(chain, i)) && InSlot(Cut(chain, i), slot)
  {
  }

  lemma RemoveFinds(t: Table, slot: nat, i: nat, key: nat)
    requires Hashed(t) && slot < ITEM_HASH_SIZE && i < |t[slot]|
    ensures var after := t[slot := Cut(t[slot], i)];
      Hashed(after) && Find(after, key) == if key == t[slot][i].key then None else Find(t, key)
  {
    hide Unique, FindIn, Cut;
    assert Unique(t[slot]) && InSlot(t[slot], slot);
    CutUnique(t[slot], i, slot);
    FindCut(t[slot], i, key);
    var after := t[slot := Cut(t[slot], i)];
    forall s: nat | s < ITEM_HASH_SIZE
      ensures Unique(after[s]) && InSlot(after[s], s)
    {
      assert Unique(t[s]) && InSlot(t[s], s);
    }
  }

  lemma UpdateFinds(t: Table, slot: nat, i: nat, item: Item, key: nat)
    requires Hashed(t) && slot < ITEM_HASH_SIZE && i < |t[slot]| && item.key == t[slot][i].key
    ensures var after := t[slot := t[slot][i := item]];
      Hashed(after) && Find(after, key) == if key == item.key then Some(item) else Find(t, key)
  {
    hide FindIn;
    assert Unique(t[slot]) && InSlot(t[slot], slot);
    FindUpdated(t[slot], i, item, key);
    var after := t[slot := t[slot][i := item]];
    forall s: nat | s < ITEM_HASH_SIZE
      ensures Unique(after[s]) && InSlot(after[s], s)
    {
      assert Unique(t[s]) && InSlot(t[s], s);
    }
  }

  lemma PushFinds(t: Table, item: Item, key: nat)
    requires Hashed(t) && Find(t, item.key) == None
    ensures Hashed(Push(t, item)) && Find(Push(t, item), key) == if key == item.key then Some(item) else Find(t, key)
  {
    var slot := Slot(item.key);
    assert Unique(t[slot]) && InSlot(t[slot], slot);
    NotFound(t[slot], item.key);
    assert ([item] + t[slot])[1..] == t[slot];
    forall s: nat | s < ITEM_HASH_SIZE
      ensures Unique(Push(t, item)[s]) && InSlot(Push(t, item)[s], s)
    {
      assert Unique(t[s]) && InSlot(t[s], s);
    }
  }

  // ----- Sizes -----

  function ChainSize(chain: Chain): nat {
    if chain == [] then 0 else chain[0].size + ChainSize(chain[1..])
  }

  function TableSize(t: Table): nat {
    if t == [] then 0 else ChainSize(t[0]) + TableSize(t[1..])
  }

  lemma {:induction false} TableSizeChange(t: Table, slot: nat, chain: Chain)
    requires slot < |t|
    ensures TableSize(t[slot := chain]) == TableSize(t) - ChainSize(t[slot]) + ChainSize(chain)
  {
    if slot == 0 {
      assert t[0 := chain][1..] == t[1..];
    } else {
      assert t[slot := chain][1..] == t[1..][slot - 1 := chain];
      TableSizeChange(t[1..], slot - 1, chain);
    }
  }

  lemma {:induction false} ChainSizeCut(chain: Chain, i: nat)
    requires i < |chain|
    ensures ChainSize(Cut(chain, i)) == ChainSize(chain) - chain[i].size
  {
    if i == 0 {
      assert Cut(chain, 0) == chain[1..];
    } else {
      assert Cut(chain, i)[1..] == Cut(chain[1..], i - 1);
      ChainSizeCut(chain[1..], i - 1);
    }
  }

  lemma {:induction false} ChainSizeUpdate(chain: Chain, i: nat, item: Item)
    requires i < |chain|
    ensures ChainSize(chain[i := item]) == ChainSize(chain) - chain[i].size + item.size
  {
    if i == 0 {
      assert chain[0 := item][1..] == chain[1..];
    } else {
      assert chain[i := item][1..] == chain[1..][i - 1 := item];
      ChainSizeUpdate(chain[1..], i - 1, item);
    }
  }

  lemma ChainSizePush(chain: Chain, item: Item)
    ensures ChainSize([item] + chain) == item.size + ChainSize(chain)
  {
    assert ([item] + chain)[1..] == chain;
  }

  lemma {:induction false} EmptySize(t: Table)
    requires forall i :: 0 <= i < |t| ==> t[i] == []
    ensures TableSize(t) == 0
  {
    if t != [] { EmptySize(t[1..]); }
  }

  // ----- All items, and a table built from a list -----

  function Items(t: Table): Chain {
    if t == [] then [] else t[0] + Items(t[1..])
  }

  lemma {:induction false} SizeAppend(a: Chain, b: Chain)
    ensures ChainSize(a + b) == ChainSize(a) + ChainSize(b)
  {
    if a == [] {
      assert a + b == b;
    } else {
      assert (a + b)[1..] == a[1..] + b;
      SizeAppend(a[1..], b);
    }
  }

  lemma {:induction false} ItemsSize(t: Table)
    ensures ChainSize(Items(t)) == TableSize(t)
  {
    if t != [] {
      SizeAppend(t[0], Items(t[1..]));
      ItemsSize(t[1..]);
    }
  }

  // Items are pushed in order, the first one first.
  function Built(items: Chain): (t: Table)
    ensures |t| == ITEM_HASH_SIZE
  {
    if items == [] then EmptyTable() else Push(Built(items[..|items| - 1]), items[|items| - 1])
  }

  lemma {:induction false} FindAppend(a: Chain, b: Chain, key: nat)
    ensures FindIn(a + b, key) == if FindIn(a, key).Some? then FindIn(a, key) else FindIn(b, key)
  {
    if a == [] {
      assert a + b == b;
    } else {
      assert (a + b)[1..] == a[1..] + b;
      FindAppend(a[1..], b, key);
    }
  }

  // A table built from items with distinct keys finds what the list holds.
  lemma {:induction false} BuiltFinds(items: Chain, key: nat)
    requires Unique(items)
    ensures Hashed(Built(items)) && Find(Built(items), key) == FindIn(items, key)
    decreases |items|
  {
    hide Unique, Find, Push;
    if items == [] {
      EmptyFinds(key);
    } else {
      var n := |items| - 1;
      var rest, last := items[..n], items[n];
      assert items == rest + [last];
      UniquePrefix(items, n);
      BuiltFinds(rest, key);
      BuiltFinds(rest, last.key);
      LastIsNew(items);
      PushFinds(Built(rest), last, key);
      FindAppend(rest, [last], key);
      OneFinds(last, key);
    }
  }

  lemma OneFinds(item: Item, key: nat)
    ensures FindIn([item], key) == if item.key == key then Some(item) else None
  {
  }

  lemma EmptyFinds(key: nat)
    ensures Hashed(EmptyTable()) && Find(EmptyTable(), key) == None
  {
  }

  lemma UniquePrefix(items: Chain, n: nat)
    requires Unique(items) && n <= |items|
    ensures Unique(items[..n])
  {
  }

  lemma LastIsNew(items: Chain)
    requires Unique(items) && items != []
    ensures FindIn(items[..|items| - 1], items[|items| - 1].key) == None
  {
    NotFound(items[..|items| - 1], items[|items| - 1].key);
  }

  lemma {:induction false} BuiltSize(items: Chain)
    ensures TableSize(Built(items)) == ChainSize(items)
    decreases |items|
  {
    if items == [] {
      EmptySize(EmptyTable());
    } else {
      var n := |items| - 1;
      var t, last := Built(items[..n]), items[n];
      assert items == items[..n] + [last];
      BuiltSize(items[..n]);
      SizeAppend(items[..n], [last]);
      TableSizeChange(t, Slot(last.key), [last] + t[Slot(last.key)]);
      ChainSizePush(t[Slot(last.key)], last);
      assert [last][1..] == [];
    }
  }

  // The items of a whole table have distinct keys, and searching them is searching the table.
  lemma {:induction false} ItemsFind(t: Table, from: nat, key: nat)
    requires Hashed(t) && from <= ITEM_HASH_SIZE
    ensures Slot(key) >= from ==> FindIn(Items(t[from..]), key) == Find(t, key)
    ensures Slot(key) < from ==> FindIn(Items(t[from..]), key) == None
    decreases ITEM_HASH_SIZE - from
  {
    hide Unique, InSlot;
    if from < ITEM_HASH_SIZE {
      assert t[from..][1..] == t[from + 1..] && t[from..][0] == t[from];
      ItemsFind(t, from + 1, key);
      FindAppend(t[from], Items(t[from + 1..]), key);
      if Slot(key) != from { WrongSlot(t[from], from, key); }
    }
  }

  lemma WrongSlot(chain: Chain, slot: nat, key: nat)
    requires InSlot(chain, slot) && Slot(key) != slot
    ensures FindIn(chain, key) == None
  {
    NotFound(chain, key);
  }

  lemma {:induction false} ItemsUnique(t: Table, from: nat)
    requires Hashed(t) && from <= ITEM_HASH_SIZE
    ensures Unique(Items(t[from..]))
    ensures forall i :: 0 <= i < |Items(t[from..])| ==> Slot(Items(t[from..])[i].key) >= from
    decreases ITEM_HASH_SIZE - from
  {
    if from < ITEM_HASH_SIZE {
      assert t[from..][1..] == t[from + 1..] && t[from..][0] == t[from];
      assert Unique(t[from]) && InSlot(t[from], from);
      ItemsUnique(t, from + 1);
    }
  }
}
