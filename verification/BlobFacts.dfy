// When the table, the queue of writes and the disk together hold what was last put.
module BlobFacts {
  import opened Bytes
  import opened Options
  import opened BlobTable
  import opened BlobIndex

  const SIZE_MOD: nat := 0x1_0000_0000

  datatype Buf = Buf(body: seq<Byte>, ctype: Option<seq<Byte>>)

  datatype Flush = Flush(key: nat, buf: Buf)

  type Disk = map<nat, seq<Byte>>

  function TypeBytes(b: Buf): seq<Byte> {
    if b.ctype.Some? then b.ctype.value else []
  }

  // What the flush writes: the content type, then the body.
  function FileOf(b: Buf): seq<Byte> { TypeBytes(b) + b.body }

  // The newest queued write for a key.
  function LastQueued(queue: seq<Flush>, key: nat): Option<Buf> {
    if queue == [] then None
    else if queue[|queue| - 1].key == key then Some(queue[|queue| - 1].buf)
    else LastQueued(queue[..|queue| - 1], key)
  }

  function FileAt(disk: Disk, key: nat): Option<seq<Byte>> {
    if key in disk then Some(disk[key]) else None
  }

  // Two bodies that an item cannot tell apart.
  ghost predicate Collide(digest: seq<Byte> -> nat, a: seq<Byte>, b: seq<Byte>) {
    a != b && digest(a) == digest(b) && |a| % SIZE_MOD == |b|
  }

  // The item describes the body, with a content type of the recorded length.
  ghost predicate Describes(digest: seq<Byte> -> nat, item: Item, body: seq<Byte>) {
    digest(body) == item.content && |body| % SIZE_MOD == item.size
  }

  // An item stands for what was last put under its key: that is the newest queued write, or else
  // the file holds it, is gone, or is an older one that could not be opened for writing. Of a
  // loose item, which came from an index that may be older than the put, nothing is said.
  ghost predicate Backed(digest: seq<Byte> -> nat, item: Option<Item>, last: Option<Buf>, queued: Option<Buf>, file: Option<seq<Byte>>,
                         stale: bool, loose: bool) {
    item.Some? ==>
      && Fits(item.value)
      && (!loose ==>
            && last.Some? && Describes(digest, item.value, last.value.body) && item.value.typeLen == |TypeBytes(last.value)| % 256
            && (queued.Some? ==> queued == last)
            && (queued.None? && file.Some? && !stale ==> file.value == FileOf(last.value)))
  }

  function LastAt(last: map<nat, Buf>, key: nat): Option<Buf> {
    if key in last then Some(last[key]) else None
  }

  ghost predicate BackedAt(digest: seq<Byte> -> nat, t: Table, last: map<nat, Buf>, queue: seq<Flush>, disk: Disk, stale: set<nat>, loose: set<nat>, key: nat)
    requires |t| == ITEM_HASH_SIZE
  {
    Backed(digest, Find(t, key), LastAt(last, key), LastQueued(queue, key), FileAt(disk, key), key in stale, key in loose)
  }

  ghost predicate Consistent(digest: seq<Byte> -> nat, t: Table, last: map<nat, Buf>, queue: seq<Flush>, disk: Disk, stale: set<nat>, loose: set<nat>) {
    && Hashed(t)
    && forall key: nat {:trigger BackedAt(digest, t, last, queue, disk, stale, loose, key)} :: BackedAt(digest, t, last, queue, disk, stale, loose, key)
  }

  // The head of the queue has been written, its file unlinked, or not opened, but it is still
  // queued.
  ghost predicate Written(queue: seq<Flush>, disk: Disk, stale: set<nat>) {
    queue != [] && (queue[0].key in disk && queue[0].key !in stale ==> disk[queue[0].key] == FileOf(queue[0].buf))
  }

  // A put of a new body.
  lemma PutKeeps(digest: seq<Byte> -> nat, t: Table, now: Table, last: map<nat, Buf>, queue: seq<Flush>, disk: Disk, stale: set<nat>, loose: set<nat>, item: Item, b: Buf)
    requires Consistent(digest, t, last, queue, disk, stale, loose) && Hashed(now)
    requires forall k: nat {:trigger Find(now, k)} :: Find(now, k) == if k == item.key then Some(item) else Find(t, k)
    requires Describes(digest, item, b.body) && item.typeLen == |TypeBytes(b)| % 256 && Fits(item)
    ensures Consistent(digest, now, last[item.key := b], queue + [Flush(item.key, b)], disk, stale, loose - {item.key})
  {
    hide Describes, Find, Fits;
    var more, latest := queue + [Flush(item.key, b)], last[item.key := b];
    assert more[..|queue|] == queue;
    forall k: nat
      ensures BackedAt(digest, now, latest, more, disk, stale, loose - {item.key}, k)
    {
      assert BackedAt(digest, t, last, queue, disk, stale, loose, k);
    }
  }

  // Under a table that does not know of the put, such as that of the index, its key is loose.
  lemma UnseenPut(digest: seq<Byte> -> nat, t: Table, last: map<nat, Buf>, queue: seq<Flush>, disk: Disk, stale: set<nat>, loose: set<nat>, key: nat, b: Buf)
    requires Consistent(digest, t, last, queue, disk, stale, loose)
    ensures Consistent(digest, t, last[key := b], queue + [Flush(key, b)], disk, stale, loose + {key})
  {
    hide Describes, Find, Fits;
    var more, latest := queue + [Flush(key, b)], last[key := b];
    assert more[..|queue|] == queue;
    forall k: nat
      ensures BackedAt(digest, t, latest, more, disk, stale, loose + {key}, k)
    {
      assert BackedAt(digest, t, last, queue, disk, stale, loose, k);
    }
  }

  // The item changed only in what says nothing about the body.
  lemma TouchKeeps(digest: seq<Byte> -> nat, t: Table, now: Table, last: map<nat, Buf>, queue: seq<Flush>, disk: Disk, stale: set<nat>, loose: set<nat>, was: Item, item: Item)
    requires Consistent(digest, t, last, queue, disk, stale, loose) && Hashed(now) && Find(t, item.key) == Some(was)
    requires forall k: nat {:trigger Find(now, k)} :: Find(now, k) == if k == item.key then Some(item) else Find(t, k)
    requires item.content == was.content && item.size == was.size && item.typeLen == was.typeLen && Fits(item)
    ensures Consistent(digest, now, last, queue, disk, stale, loose)
  {
    hide Find, LastQueued, Fits;
    forall k: nat
      ensures BackedAt(digest, now, last, queue, disk, stale, loose, k)
    {
      assert BackedAt(digest, t, last, queue, disk, stale, loose, k);
    }
  }

  // Finding a body's digest and size means that the body is the last one, unless the two
  // collide or the item is loose.
  lemma SameBody(digest: seq<Byte> -> nat, t: Table, last: map<nat, Buf>, queue: seq<Flush>, disk: Disk, stale: set<nat>, loose: set<nat>, item: Item, body: seq<Byte>)
    requires Consistent(digest, t, last, queue, disk, stale, loose) && Find(t, item.key) == Some(item) && item.key !in loose
    ensures item.key in last
    ensures digest(body) == item.content && item.size == |body| <==>
      Collide(digest, last[item.key].body, body) || (last[item.key].body == body && |body| < SIZE_MOD)
  {
    hide Find, LastQueued, Fits;
    assert BackedAt(digest, t, last, queue, disk, stale, loose, item.key);
  }

  // Items and files may go, as long as the items that stay keep their files.
  ghost predicate Shrunk(t: Table, disk: Disk, now: Table, after: Disk, key: nat)
    requires |t| == ITEM_HASH_SIZE && |now| == ITEM_HASH_SIZE
  {
    && (Find(now, key).Some? ==> Find(now, key) == Find(t, key) && FileAt(after, key) == FileAt(disk, key))
    && (key in after ==> key in disk && after[key] == disk[key])
  }

  lemma ShrinkKeeps(digest: seq<Byte> -> nat, t: Table, now: Table, last: map<nat, Buf>, queue: seq<Flush>, disk: Disk, after: Disk, stale: set<nat>, loose: set<nat>)
    requires Consistent(digest, t, last, queue, disk, stale, loose) && Hashed(now)
    requires forall k: nat {:trigger Shrunk(t, disk, now, after, k)} :: Shrunk(t, disk, now, after, k)
    ensures Consistent(digest, now, last, queue, after, stale, loose)
    ensures Written(queue, disk, stale) ==> Written(queue, after, stale)
  {
    hide Find, LastQueued, Describes, Fits;
    forall k: nat
      ensures BackedAt(digest, now, last, queue, after, stale, loose, k)
    {
      assert BackedAt(digest, t, last, queue, disk, stale, loose, k) && Shrunk(t, disk, now, after, k);
    }
    if Written(queue, disk, stale) { assert Shrunk(t, disk, now, after, queue[0].key); }
  }

  // Files may go from under any table, such as the one an index that is still on disk holds.
  lemma FewerFiles(digest: seq<Byte> -> nat, t: Table, last: map<nat, Buf>, queue: seq<Flush>, disk: Disk, after: Disk, stale: set<nat>, loose: set<nat>)
    requires Consistent(digest, t, last, queue, disk, stale, loose)
    requires forall k :: k in after ==> k in disk && after[k] == disk[k]
    ensures Consistent(digest, t, last, queue, after, stale, loose)
  {
    hide Find, LastQueued, Describes, Fits;
    forall k: nat
      ensures BackedAt(digest, t, last, queue, after, stale, loose, k)
    {
      assert BackedAt(digest, t, last, queue, disk, stale, loose, k);
    }
  }

  // What the flush thread does about the head of the queue: it writes the file whole, or fails
  // and unlinks it, or cannot open it and leaves what is there.
  datatype Outcome = Whole | Failed | Unopened

  function AfterWrite(f: Flush, disk: Disk, outcome: Outcome): Disk {
    match outcome
    case Whole => disk[f.key := FileOf(f.buf)]
    case Failed => disk - {f.key}
    case Unopened => disk
  }

  function StaleAfter(f: Flush, stale: set<nat>, outcome: Outcome): set<nat> {
    if outcome.Unopened? then stale + {f.key} else stale - {f.key}
  }

  lemma WriteKeeps(digest: seq<Byte> -> nat, t: Table, last: map<nat, Buf>, queue: seq<Flush>, disk: Disk, stale: set<nat>, loose: set<nat>, outcome: Outcome)
    requires Consistent(digest, t, last, queue, disk, stale, loose) && queue != []
    ensures var after, left := AfterWrite(queue[0], disk, outcome), StaleAfter(queue[0], stale, outcome);
      Consistent(digest, t, last, queue, after, left, loose) && Written(queue, after, left)
  {
    hide Find, Describes, Fits;
    HeadQueued(queue);
    var after, left := AfterWrite(queue[0], disk, outcome), StaleAfter(queue[0], stale, outcome);
    forall k: nat
      ensures BackedAt(digest, t, last, queue, after, left, loose, k)
    {
      assert BackedAt(digest, t, last, queue, disk, stale, loose, k);
    }
  }

  lemma {:induction false} HeadQueued(queue: seq<Flush>)
    requires queue != []
    ensures LastQueued(queue, queue[0].key).Some?
  {
    if |queue| > 1 { HeadQueued(queue[..|queue| - 1]); }
  }

  // Taking the head off the queue uncovers its file only for its own key, and only when no
  // later write is queued.
  lemma {:induction false} DequeueLast(queue: seq<Flush>, key: nat)
    requires queue != []
    ensures LastQueued(queue[1..], key).Some? ==> LastQueued(queue[1..], key) == LastQueued(queue, key)
    ensures LastQueued(queue[1..], key).None? ==>
      LastQueued(queue, key) == if queue[0].key == key then Some(queue[0].buf) else None
  {
    var n := |queue| - 1;
    if n > 0 {
      assert queue[1..][..n - 1] == queue[..n][1..] && queue[1..][n - 1] == queue[n];
      DequeueLast(queue[..n], key);
    }
  }

  lemma DequeueKeeps(digest: seq<Byte> -> nat, t: Table, last: map<nat, Buf>, queue: seq<Flush>, disk: Disk, stale: set<nat>, loose: set<nat>)
    requires Consistent(digest, t, last, queue, disk, stale, loose) && Written(queue, disk, stale)
    ensures Consistent(digest, t, last, queue[1..], disk, stale, loose)
  {
    hide Find, LastQueued, Describes, FileOf, Fits;
    forall k: nat
      ensures BackedAt(digest, t, last, queue[1..], disk, stale, loose, k)
    {
      assert BackedAt(digest, t, last, queue, disk, stale, loose, k);
      DequeueLast(queue, k);
    }
  }

  // The length a file must have, as 32-bit arithmetic has it.
  function FileLength(item: Item): nat { (item.size + item.typeLen) % SIZE_MOD }

  // A file of the expected length has the content type and the last body where they are read.
  lemma ReadBack(digest: seq<Byte> -> nat, item: Item, last: Buf)
    requires Describes(digest, item, last.body) && item.typeLen == |TypeBytes(last)| % 256 && |FileOf(last)| == FileLength(item)
    ensures var file := FileOf(last);
      |file| == item.size + item.typeLen && file[item.typeLen..] == last.body && file[..item.typeLen] == TypeBytes(last)
  {
    assert item.size <= |last.body| && item.typeLen <= |TypeBytes(last)|;
  }

  // What a read makes of a file.
  function ReadFile(item: Item, file: seq<Byte>): Buf
    requires item.typeLen + item.size <= |file|
  {
    Buf(file[item.typeLen..item.typeLen + item.size], if item.typeLen == 0 then None else Some(file[..item.typeLen]))
  }

  // ----- Pruning order -----

  predicate Important(item: Item) { item.flags % 2 == 1 }

  // accesstimecmp: the difference of the times is taken in 32 bits, with sign.
  function AccessCmp(a: Item, b: Item): int {
    if Important(a) != Important(b) then (if Important(a) then 1 else -1)
    else
      var d := (a.lastaccess - b.lastaccess) % SIZE_MOD;
      if d < 0x8000_0000 then d else d - SIZE_MOD
  }

  // a may be pruned before b: unimportant first, then the one used longest ago.
  predicate Before(a: Item, b: Item) {
    if Important(a) != Important(b) then Important(b) else a.lastaccess <= b.lastaccess
  }

  // Close enough for the 32-bit difference to have the right sign.
  predicate Near(a: Item, b: Item) {
    Important(a) != Important(b) || -0x8000_0000 <= a.lastaccess - b.lastaccess < 0x8000_0000
  }

  // The comparison is right about exactly the items that are near.
  lemma CmpIsBefore(a: Item, b: Item)
    ensures Near(a, b) ==> (AccessCmp(a, b) <= 0 <==> Before(a, b))
    ensures a.lastaccess < SIZE_MOD && b.lastaccess < SIZE_MOD ==> ((AccessCmp(a, b) <= 0 <==> Before(a, b)) <==> Near(a, b))
  {
    hide Important;
  }

  // An item whose access time is all that matters.
  function At(time: nat): Item { Item(0, 0, time, 0, 0, 0, 0, 0, None) }

  // A wrong answer, for two items used 2^31 apart, and three that go round in a circle.
  lemma CmpIsNoOrder()
    ensures AccessCmp(At(0x8000_0000), At(0)) <= 0 && !Before(At(0x8000_0000), At(0))
    ensures AccessCmp(At(0), At(0x6000_0000)) < 0 && AccessCmp(At(0x6000_0000), At(0xC000_0000)) < 0
    ensures AccessCmp(At(0xC000_0000), At(0)) < 0
  {
  }

  ghost predicate InOrder(items: Chain) {
    forall i, j :: 0 <= i < j < |items| ==> Before(items[i], items[j])
  }

  // Any two of the items are near.
  ghost predicate Comparable(items: Chain) {
    forall a, b {:trigger Near(a, b)} :: a in items && b in items ==> Near(a, b)
  }

  // The library's sort, by accesstimecmp.
  method SortItems(items: Chain) returns (sorted: Chain)
    ensures multiset(sorted) == multiset(items)
    ensures Comparable(items) ==> InOrder(sorted)
  {
    hide Near, Before;
    sorted := [];
    for i: nat := 0 to |items|
      invariant multiset(sorted) == multiset(items[..i])
      invariant Comparable(items) ==> InOrder(sorted)
    {
      assert items[..i + 1] == items[..i] + [items[i]];
      SameMembers(sorted, items[..i]);
      sorted := InsertItem(sorted, items[i]);
    }
    assert items[..|items|] == items;
  }

  lemma SameMembers(a: Chain, b: Chain)
    requires multiset(a) == multiset(b)
    ensures forall x :: x in a <==> x in b
  {
    forall x
      ensures x in a <==> x in b
    {
      assert x in a <==> x in multiset(a);
      assert x in b <==> x in multiset(b);
    }
  }

  // Into a list in order, before the first item that does not go before it.
  method InsertItem(items: Chain, x: Item) returns (now: Chain)
    ensures multiset(now) == multiset(items) + multiset{x}
    ensures Comparable(items + [x]) && InOrder(items) ==> InOrder(now)
  {
    hide AccessCmp, Before, InOrder, Near;
    var p := 0;
    ghost var all := items + [x];
    while p < |items| && AccessCmp(items[p], x) <= 0
      invariant 0 <= p <= |items|
      invariant Comparable(all) ==> forall i :: 0 <= i < p ==> Before(items[i], x)
    {
      assert items[p] in all && x in all;
      CmpIsBefore(items[p], x);
      p := p + 1;
    }
    now := items[..p] + [x] + items[p..];
    assert items == items[..p] + items[p..];
    if Comparable(all) && InOrder(items) {
      if p < |items| {
        assert items[p] in all && x in all;
        CmpIsBefore(items[p], x);
      }
      InsertedInOrder(items, x, p);
    }
  }

  lemma InsertedInOrder(items: Chain, x: Item, p: nat)
    requires InOrder(items) && p <= |items|
    requires forall i :: 0 <= i < p ==> Before(items[i], x)
    requires p < |items| ==> !Before(items[p], x)
    ensures InOrder(items[..p] + [x] + items[p..])
  {
    var now := items[..p] + [x] + items[p..];
    forall i, j | 0 <= i < j < |now|
      ensures Before(now[i], now[j])
    {
      if i == p { assert Before(x, items[p]) && (j - 1 == p || Before(items[p], items[j - 1])); }
    }
  }

  lemma {:induction false} FoundMember(items: Chain, item: Item)
    requires Unique(items) && item in items
    ensures FindIn(items, item.key) == Some(item)
  {
    var i :| 0 <= i < |items| && items[i] == item;
    FoundAt(items, i);
  }

  lemma PermutedUnique(a: Chain, b: Chain)
    requires Unique(a) && multiset(a) == multiset(b)
    ensures Unique(b)
  {
    forall i, j | 0 <= i < j < |b|
      ensures b[i].key != b[j].key
    {
      TwiceIn(b, i, j);
      assert multiset(a)[b[i]] == multiset(b)[b[i]];
      assert b[i] in multiset(b) && b[j] in multiset(b);
      assert b[i] in a && b[j] in a;
      if b[i] == b[j] {
        OnceIn(a, b[i]);
      } else {
        FoundMember(a, b[i]);
        FoundMember(a, b[j]);
      }
    }
  }

  lemma TwiceIn(b: Chain, i: nat, j: nat)
    requires i < j < |b|
    ensures b[i] == b[j] ==> multiset(b)[b[i]] >= 2
  {
    assert b == b[..i] + [b[i]] + b[i + 1..j] + [b[j]] + b[j + 1..];
  }

  lemma {:induction false} OnceIn(a: Chain, x: Item)
    requires Unique(a) && x in a
    ensures multiset(a)[x] == 1
  {
    var i :| 0 <= i < |a| && a[i] == x;
    assert a == a[..i] + [x] + a[i + 1..];
    assert x !in a[..i] && x !in a[i + 1..];
  }

  // Searching a rearranged list finds the same.
  lemma PermutedFind(a: Chain, b: Chain, key: nat)
    requires Unique(a) && multiset(a) == multiset(b)
    ensures FindIn(b, key) == FindIn(a, key)
  {
    PermutedUnique(a, b);
    NotFound(a, key);
    NotFound(b, key);
    if FindIn(a, key).Some? {
      assert FindIn(a, key).value in multiset(b);
      FoundMember(b, FindIn(a, key).value);
    } else {
      forall i | 0 <= i < |b|
        ensures b[i].key != key
      {
        assert b[i] in multiset(b);
        assert b[i] in a;
      }
    }
  }

  lemma CutBag(items: Chain, i: nat)
    requires i < |items|
    ensures multiset(Cut(items, i)) == multiset(items) - multiset{items[i]}
  {
    assert items == items[..i] + ([items[i]] + items[i + 1..]);
  }

  lemma CutHead(items: Chain)
    requires items != []
    ensures Cut(items, 0) == items[1..]
  {
  }

  lemma {:induction false} PermutedSize(a: Chain, b: Chain)
    requires multiset(a) == multiset(b)
    ensures ChainSize(a) == ChainSize(b)
    decreases |a|
  {
    hide Cut;
    if a == [] {
      assert |b| == |multiset(b)|;
    } else {
      assert a[0] in multiset(b);
      var i: nat :| i < |b| && b[i] == a[0];
      CutBag(b, i);
      CutBag(a, 0);
      CutHead(a);
      ChainSizeCut(b, i);
      PermutedSize(a[1..], Cut(b, i));
    }
  }

  // What is left after the first n went.
  lemma SuffixFind(items: Chain, n: nat, key: nat)
    requires Unique(items) && n <= |items|
    ensures Unique(items[n..])
    ensures FindIn(items[n..], key).Some? ==> FindIn(items, key) == FindIn(items[n..], key)
    ensures FindIn(items[n..], key).Some? ==> forall i :: 0 <= i < n ==> items[i].key != key
  {
    NotFound(items[n..], key);
    if FindIn(items[n..], key).Some? {
      var x := FindIn(items[n..], key).value;
      var i :| 0 <= i < |items| - n && items[n..][i] == x;
      assert items[n + i] == x;
      FoundAt(items, n + i);
    }
  }

  // ----- Facts for the steps -----

  lemma Facts(digest: seq<Byte> -> nat, t: Table, last: map<nat, Buf>, queue: seq<Flush>, disk: Disk, stale: set<nat>, loose: set<nat>)
    requires Consistent(digest, t, last, queue, disk, stale, loose)
    ensures Hashed(t) && |t| == ITEM_HASH_SIZE
  {
  }

  lemma FactsAt(digest: seq<Byte> -> nat, t: Table, last: map<nat, Buf>, queue: seq<Flush>, disk: Disk, stale: set<nat>, loose: set<nat>, key: nat)
    requires Consistent(digest, t, last, queue, disk, stale, loose)
    ensures BackedAt(digest, t, last, queue, disk, stale, loose, key)
  {
  }

  lemma ItemFits(digest: seq<Byte> -> nat, t: Table, last: map<nat, Buf>, queue: seq<Flush>, disk: Disk, stale: set<nat>, loose: set<nat>, key: nat)
    requires Consistent(digest, t, last, queue, disk, stale, loose) && Find(t, key).Some?
    ensures Fits(Find(t, key).value)
  {
    FactsAt(digest, t, last, queue, disk, stale, loose, key);
  }

  lemma StoredDescribes(digest: seq<Byte> -> nat, item: Item, body: seq<Byte>)
    requires item.content == digest(body) && item.size == |body| % SIZE_MOD
    ensures Describes(digest, item, body)
  {
  }

  lemma Updated(t: Table, slot: nat, i: nat, q: Item)
    requires Hashed(t) && slot < ITEM_HASH_SIZE && i < |t[slot]| && q.key == t[slot][i].key
    ensures var after := t[slot := t[slot][i := q]];
      && Hashed(after) && TableSize(after) == TableSize(t) - t[slot][i].size + q.size
      && forall k: nat {:trigger Find(after, k)} :: Find(after, k) == if k == q.key then Some(q) else Find(t, k)
  {
    hide Unique, InSlot, Find, TableSize, ChainSize;
    UpdateFinds(t, slot, i, q, q.key);
    var after := t[slot := t[slot][i := q]];
    forall k: nat
      ensures Find(after, k) == if k == q.key then Some(q) else Find(t, k)
    {
      UpdateFinds(t, slot, i, q, k);
    }
    TableSizeChange(t, slot, t[slot][i := q]);
    ChainSizeUpdate(t[slot], i, q);
  }

  lemma Pushed(t: Table, q: Item)
    requires Hashed(t) && Find(t, q.key) == None
    ensures var after := Push(t, q);
      && Hashed(after) && TableSize(after) == TableSize(t) + q.size
      && forall k: nat {:trigger Find(after, k)} :: Find(after, k) == if k == q.key then Some(q) else Find(t, k)
  {
    hide Find, TableSize, ChainSize;
    forall k: nat
      ensures Hashed(Push(t, q)) && Find(Push(t, q), k) == if k == q.key then Some(q) else Find(t, k)
    {
      PushFinds(t, q, k);
    }
    assert Find(Push(t, q), 0) == Find(Push(t, q), 0);
    TableSizeChange(t, Slot(q.key), [q] + t[Slot(q.key)]);
    ChainSizePush(t[Slot(q.key)], q);
  }

  lemma Removed(t: Table, slot: nat, i: nat)
    requires Hashed(t) && slot < ITEM_HASH_SIZE && i < |t[slot]|
    ensures var after := t[slot := Cut(t[slot], i)];
      && Hashed(after) && TableSize(after) == TableSize(t) - t[slot][i].size
      && forall k: nat {:trigger Find(after, k)} :: Find(after, k) == if k == t[slot][i].key then None else Find(t, k)
  {
    hide Unique, InSlot, Find, TableSize, ChainSize, Cut;
    RemoveFinds(t, slot, i, 0);
    var after := t[slot := Cut(t[slot], i)];
    forall k: nat
      ensures Find(after, k) == if k == t[slot][i].key then None else Find(t, k)
    {
      RemoveFinds(t, slot, i, k);
    }
    TableSizeChange(t, slot, Cut(t[slot], i));
    ChainSizeCut(t[slot], i);
  }

  lemma QueuedWritten(queue: seq<Flush>, disk: Disk, stale: set<nat>, f: Flush)
    ensures Written(queue, disk, stale) ==> Written(queue + [f], disk, stale)
  {
  }

  // What is read is what was last put: body and content type.
  predicate SameContent(a: Buf, b: Buf) {
    a.body == b.body && TypeBytes(a) == TypeBytes(b)
  }

  lemma QueuedContent(digest: seq<Byte> -> nat, item: Item, last: Option<Buf>, queued: Option<Buf>, file: Option<seq<Byte>>, stale: bool)
    requires Backed(digest, Some(item), last, queued, file, stale, false) && queued.Some?
    ensures last == queued && SameContent(last.value, queued.value)
  {
  }

  lemma FiledBody(digest: seq<Byte> -> nat, item: Item, last: Option<Buf>, file: seq<Byte>)
    requires Backed(digest, Some(item), last, None, Some(file), false, false) && |file| == FileLength(item)
    ensures |file| == item.size + item.typeLen && last.Some? && SameContent(last.value, ReadFile(item, file))
  {
    ReadBack(digest, item, last.value);
    assert file[item.typeLen..item.typeLen + item.size] == file[item.typeLen..];
  }

  // ----- Restarts -----

  lemma EmptyKeeps(digest: seq<Byte> -> nat, last: map<nat, Buf>, queue: seq<Flush>, disk: Disk, stale: set<nat>, loose: set<nat>)
    ensures Consistent(digest, EmptyTable(), last, queue, disk, stale, loose)
  {
    hide Find, LastQueued, Describes, Fits;
    EmptyFinds(0);
    forall k: nat
      ensures BackedAt(digest, EmptyTable(), last, queue, disk, stale, loose, k)
    {
      EmptyFinds(k);
    }
  }

  // Items of a consistent table fit the fields of the index.
  lemma ItemsFit(digest: seq<Byte> -> nat, t: Table, last: map<nat, Buf>, queue: seq<Flush>, disk: Disk, stale: set<nat>, loose: set<nat>)
    requires Consistent(digest, t, last, queue, disk, stale, loose)
    ensures AllFit(Items(t))
  {
    hide Find, FindIn, LastQueued, Describes, Fits;
    var items := Items(t);
    assert t[0..] == t;
    ItemsUnique(t, 0);
    forall i | 0 <= i < |items|
      ensures Fits(items[i])
    {
      FoundAt(items, i);
      ItemsFind(t, 0, items[i].key);
      assert BackedAt(digest, t, last, queue, disk, stale, loose, items[i].key);
    }
  }

  // The table read back from a saved index is as good as the one that was saved.
  lemma SavedKeeps(digest: seq<Byte> -> nat, t: Table, last: map<nat, Buf>, queue: seq<Flush>, disk: Disk, stale: set<nat>, loose: set<nat>, now: nat, sha: seq<Byte> -> seq<Byte>)
    requires Consistent(digest, t, last, queue, disk, stale, loose) && AllFit(Items(t)) && now < SIZE_MOD
    requires forall s :: |sha(s)| == DIGEST
    ensures Consistent(digest, LoadTable(FileBytes(Items(t), now, sha), sha), last, queue, disk, stale, loose)
  {
    hide Find, LastQueued, LoadTable, FileBytes, AllFit, Items, Hashed;
    Facts(digest, t, last, queue, disk, stale, loose);
    var after := LoadTable(FileBytes(Items(t), now, sha), sha);
    IndexRoundTrip(t, now, sha, 0);
    forall k: nat
      ensures BackedAt(digest, after, last, queue, disk, stale, loose, k)
    {
      IndexRoundTrip(t, now, sha, k);
      assert BackedAt(digest, t, last, queue, disk, stale, loose, k);
    }
  }

  // So is what a part of that index loads, or it is empty.
  lemma TornKeeps(digest: seq<Byte> -> nat, t: Table, last: map<nat, Buf>, queue: seq<Flush>, disk: Disk, stale: set<nat>, loose: set<nat>, now: nat, sha: seq<Byte> -> seq<Byte>, k: nat)
    requires Consistent(digest, t, last, queue, disk, stale, loose) && AllFit(Items(t)) && now < SIZE_MOD
    requires forall s :: |sha(s)| == DIGEST
    requires k <= |FileBytes(Items(t), now, sha)|
    ensures Consistent(digest, LoadTable(FileBytes(Items(t), now, sha)[..k], sha), last, queue, disk, stale, loose)
  {
    hide Consistent, FileBytes, AllFit, Items, LoadFile, AllLoaded;
    FileRead(Items(t), now, sha);
    PartLoads(FileBytes(Items(t), now, sha), k, sha);
    SavedKeeps(digest, t, last, queue, disk, stale, loose, now, sha);
    EmptyKeeps(digest, last, queue, disk, stale, loose);
  }

  function QueuedKeys(queue: seq<Flush>): set<nat> { set f | f in queue :: f.key }

  lemma {:induction false} QueuedKey(queue: seq<Flush>, key: nat)
    ensures LastQueued(queue, key).Some? <==> key in QueuedKeys(queue)
  {
    if queue != [] {
      var n := |queue| - 1;
      assert queue == queue[..n] + [queue[n]];
      QueuedKey(queue[..n], key);
    }
  }

  // Writes that are still queued when the cache goes down leave older files behind, or parts of
  // the new ones; other files are there or gone.
  lemma QueueLost(digest: seq<Byte> -> nat, t: Table, last: map<nat, Buf>, queue: seq<Flush>, disk: Disk, after: Disk, stale: set<nat>, loose: set<nat>)
    requires Consistent(digest, t, last, queue, disk, stale, loose)
    requires forall k: nat {:trigger Survives(queue, disk, after, k)} :: Survives(queue, disk, after, k)
    ensures Consistent(digest, t, last, [], after, stale + QueuedKeys(queue), loose)
  {
    hide Find, Describes, Fits, QueuedKeys;
    forall k: nat
      ensures BackedAt(digest, t, last, [], after, stale + QueuedKeys(queue), loose, k)
    {
      QueuedKey(queue, k);
      assert BackedAt(digest, t, last, queue, disk, stale, loose, k) && Survives(queue, disk, after, k);
    }
  }

  predicate Survives(queue: seq<Flush>, disk: Disk, after: Disk, key: nat) {
    key !in QueuedKeys(queue) && key in after ==> key in disk && after[key] == disk[key]
  }

  // ----- Pruning -----

  // A file after pruning: that of an item that went is gone, every other is as it was.
  ghost function FileLeft(t: Table, all: Disk, now: Table, key: nat): Option<seq<Byte>>
    requires |t| == ITEM_HASH_SIZE == |now|
  {
    if Find(t, key).Some? && Find(now, key).None? then None else FileAt(all, key)
  }

  // The items from the n-th on stay: they are small enough, and with one more they were not.
  ghost predicate Pruned(order: Chain, n: nat, kept: Chain, maxsize: nat) {
    && n <= |order| && kept == order[n..] && (ChainSize(kept) < maxsize || kept == [])
    && PrunedFar(order, n, maxsize)
  }

  ghost predicate PrunedFar(order: Chain, n: nat, maxsize: nat)
    requires n <= |order|
  {
    n > 0 ==> ChainSize(order[n - 1..]) >= maxsize
  }

  lemma OneLess(order: Chain, i: nat, maxsize: nat)
    requires i < |order| && ChainSize(order[i..]) >= maxsize
    ensures ChainSize(order[i + 1..]) == ChainSize(order[i..]) - order[i].size
    ensures PrunedFar(order, i + 1, maxsize)
  {
    assert order[i..][1..] == order[i + 1..];
  }

  lemma WholeSuffix(order: Chain, maxsize: nat)
    ensures order[0..] == order && PrunedFar(order, 0, maxsize)
  {
  }

  // Exactly the files of the first n items are gone.
  ghost predicate Unlinked(all: Disk, disk: Disk, order: Chain, n: nat)
    requires n <= |order|
  {
    && (forall k :: k in disk ==> k in all && disk[k] == all[k])
    && (forall k :: k in all && (forall j :: 0 <= j < n ==> order[j].key != k) ==> k in disk)
    && (forall j :: 0 <= j < n ==> order[j].key !in disk)
  }

  lemma UnlinkedNone(all: Disk, order: Chain)
    ensures Unlinked(all, all, order, 0)
  {
  }

  lemma UnlinkedMore(all: Disk, disk: Disk, order: Chain, n: nat)
    requires n < |order| && Unlinked(all, disk, order, n)
    ensures Unlinked(all, disk - {order[n].key}, order, n + 1)
  {
  }

  lemma SortedFacts(t: Table, order: Chain)
    requires Hashed(t) && multiset(order) == multiset(Items(t))
    ensures Unique(order) && ChainSize(order) == ChainSize(Items(t))
    ensures forall k: nat {:trigger FindIn(order, k)} :: FindIn(order, k) == Find(t, k)
  {
    hide FindIn, Unique, ChainSize, Items;
    assert t[0..] == t;
    ItemsUnique(t, 0);
    PermutedUnique(Items(t), order);
    PermutedSize(Items(t), order);
    forall k: nat
      ensures FindIn(order, k) == Find(t, k)
    {
      ItemsFind(t, 0, k);
      PermutedFind(Items(t), order, k);
    }
  }

  lemma BuiltNext(order: Chain, i: nat, j: nat)
    requires i <= j < |order|
    ensures Built(order[i..j + 1]) == Push(Built(order[i..j]), order[j])
  {
    assert order[i..j + 1][..j - i] == order[i..j];
  }

  lemma PrunedFacts(t: Table, order: Chain, n: nat, all: Disk, disk: Disk, k: nat)
    requires |t| == ITEM_HASH_SIZE && Unique(order) && n <= |order| && FindIn(order, k) == Find(t, k) && Unlinked(all, disk, order, n)
    ensures var now := Built(order[n..]);
      Hashed(now) && Find(now, k) == FindIn(order[n..], k) && Shrunk(t, all, now, disk, k) && FileAt(disk, k) == FileLeft(t, all, now, k)
  {
    hide FindIn, Unique, Built, Hashed, Find;
    SuffixFind(order, n, k);
    BuiltFinds(order[n..], k);
    if FindIn(order, k).Some? && FindIn(order[n..], k).None? { WentEarly(order, n, k); } else { StaysOut(order, n, k); }
  }

  lemma WentEarly(order: Chain, n: nat, k: nat)
    requires n <= |order| && FindIn(order, k).Some? && FindIn(order[n..], k).None?
    ensures exists j :: 0 <= j < n && order[j].key == k
  {
    assert order == order[..n] + order[n..];
    FindAppend(order[..n], order[n..], k);
    NotFound(order[..n], k);
  }

  lemma StaysOut(order: Chain, n: nat, k: nat)
    requires Unique(order) && n <= |order| && (FindIn(order, k).None? || FindIn(order[n..], k).Some?)
    ensures forall j :: 0 <= j < n ==> order[j].key != k
  {
    NotFound(order, k);
    SuffixFind(order, n, k);
  }
}
