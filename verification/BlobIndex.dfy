// The index file: a header, the items one after another, and a digest of everything before it.
module BlobIndex {
  import opened Bytes
  import opened Options
  import opened BlobTable

  const MAGIC_07: nat := 0x62630207
  const MAGIC_06: nat := 0x62630206
  const MAGIC_05: nat := 0x62630205
  const DIGEST: nat := 20

  // Values fit the fields they are written to.
  predicate Fits(item: Item) {
    && item.key < 0x1_0000_0000_0000_0000 && item.content < 0x1_0000_0000_0000_0000
    && item.lastaccess < 0x1_0000_0000 && item.expiry < 0x1_0000_0000 && item.modtime < 0x1_0000_0000
    && item.size < 0x1_0000_0000 && item.flags < 256 && item.typeLen < 256
    && (item.etag.Some? ==> |item.etag.value| <= 255)
  }

  predicate AllFit(items: Chain) {
    forall i :: 0 <= i < |items| ==> Fits(items[i])
  }

  function Tag(item: Item): seq<Byte> {
    if item.etag.Some? then item.etag.value else []
  }

  // blobcache_diskitem_07_t and the etag behind it
  function ItemBytes(item: Item): seq<Byte>
    requires Fits(item)
  {
    Le(item.key, 8) + Le(item.content, 8) + Le(item.lastaccess, 4) + Le(item.expiry, 4) + Le(item.modtime, 4)
    + Le(item.size, 4) + [item.flags] + [|Tag(item)|] + [item.typeLen] + Tag(item)
  }

  function ItemsBytes(items: Chain): seq<Byte>
    requires AllFit(items)
  {
    if items == [] then [] else ItemBytes(items[0]) + ItemsBytes(items[1..])
  }

  function Header(count: nat, now: nat): seq<Byte> {
    Le(MAGIC_07, 4) + Le(count, 4) + Le(now, 4)
  }

  // A file, for a digest function.
  function FileBytes(items: Chain, now: nat, sha: seq<Byte> -> seq<Byte>): seq<Byte>
    requires AllFit(items)
  {
    var body := Header(|items|, now) + ItemsBytes(items);
    body + sha(body)
  }

  // ----- Reading -----

  // Where the fields of an item are; older files have no flags.
  function ItemAt(s: seq<Byte>, at: nat, flagged: bool): Option<(Item, nat)> {
    var fixed := if flagged then 35 else 34;
    if at + fixed > |s| then None
    else
      var b := at + 32 + (if flagged then 1 else 0);
      var etagLen := s[b];
      if at + fixed + etagLen > |s| then None
      else
        Some((Item(Number(s[at..at + 8]), Number(s[at + 8..at + 16]), Number(s[at + 16..at + 20]), Number(s[at + 20..at + 24]),
                   Number(s[at + 24..at + 28]), Number(s[at + 28..at + 32]), if flagged then s[at + 32] else 0, s[b + 1],
                   if etagLen == 0 then None else Some(s[at + fixed..at + fixed + etagLen])),
              at + fixed + etagLen))
  }

  // An empty etag comes back as none.
  function Loaded(item: Item): Item {
    if item.etag == Some([]) then item.(etag := None) else item
  }

  lemma Powers()
    ensures Pow256(4) == 0x1_0000_0000 && Pow256(8) == 0x1_0000_0000_0000_0000
  {
    assert Pow256(2) == 0x1_0000;
    assert Pow256(4) == 256 * (256 * Pow256(2));
    assert Pow256(6) == 256 * (256 * Pow256(4));
    assert Pow256(8) == 256 * (256 * Pow256(6));
  }

  // The fields of the written item, by their places.
  lemma FieldPlaces(item: Item)
    requires Fits(item)
    ensures var s := ItemBytes(item);
      && |s| == 35 + |Tag(item)|
      && s[0..8] == Le(item.key, 8) && s[8..16] == Le(item.content, 8) && s[16..20] == Le(item.lastaccess, 4)
      && s[20..24] == Le(item.expiry, 4) && s[24..28] == Le(item.modtime, 4) && s[28..32] == Le(item.size, 4)
      && s[32] == item.flags && s[33] == |Tag(item)| && s[34] == item.typeLen && s[35..] == Tag(item)
  {
    hide Le;
  }

  lemma ItemReadAlone(item: Item)
    requires Fits(item)
    ensures ItemAt(ItemBytes(item), 0, true) == Some((Loaded(item), |ItemBytes(item)|))
  {
    hide Le, Number, ItemBytes;
    FieldPlaces(item);
    Powers();
    NumberOfLe(item.key, 8);
    NumberOfLe(item.content, 8);
    NumberOfLe(item.lastaccess, 4);
    NumberOfLe(item.expiry, 4);
    NumberOfLe(item.modtime, 4);
    NumberOfLe(item.size, 4);
    var s := ItemBytes(item);
    assert s[35..35 + |Tag(item)|] == s[35..];
  }

  // Reading looks at nothing but the item's own bytes.
  lemma ItemReadInside(a: seq<Byte>, s: seq<Byte>, b: seq<Byte>, item: Item)
    requires ItemAt(s, 0, true) == Some((item, |s|))
    ensures ItemAt(a + s + b, |a|, true) == Some((item, |a| + |s|))
  {
    hide Number;
    var t, at := a + s + b, |a|;
    assert |s| >= 35;
    forall i: nat, j: nat | i <= j <= |s|
      ensures t[at + i..at + j] == s[i..j]
    {
    }
    assert t[at..at + 8] == s[0..8] && t[at + 8..at + 16] == s[8..16] && t[at + 16..at + 20] == s[16..20];
    assert t[at + 20..at + 24] == s[20..24] && t[at + 24..at + 28] == s[24..28] && t[at + 28..at + 32] == s[28..32];
    assert t[at + 32] == s[32] && t[at + 33] == s[33] && t[at + 34] == s[34];
    assert t[at + 35..at + 35 + s[33]] == s[35..35 + s[33]];
  }

  // The items read one after another.
  function ItemsAt(s: seq<Byte>, at: nat, count: nat, flagged: bool): Option<Chain>
    decreases count
  {
    if count == 0 then Some([])
    else
      match ItemAt(s, at, flagged)
      case None => None
      case Some((item, next)) =>
        match ItemsAt(s, next, count - 1, flagged)
        case None => None
        case Some(rest) => Some([item] + rest)
  }

  // The number of items is read as a signed one.
  function SignedCount(word: nat): (count: nat)
    ensures count <= word && (count == word <==> word < 0x8000_0000)
  {
    if word % 0x1_0000_0000 < 0x8000_0000 then word % 0x1_0000_0000 else 0
  }

  function AllLoaded(items: Chain): Chain {
    if items == [] then [] else [Loaded(items[0])] + AllLoaded(items[1..])
  }

  lemma {:induction false} ItemsRead(a: seq<Byte>, items: Chain, b: seq<Byte>)
    requires AllFit(items)
    ensures ItemsAt(a + ItemsBytes(items) + b, |a|, |items|, true) == Some(AllLoaded(items))
    decreases |items|
  {
    hide ItemBytes, ItemAt, Fits;
    if items != [] {
      var first, rest := ItemBytes(items[0]), ItemsBytes(items[1..]);
      ItemReadAlone(items[0]);
      ItemReadInside(a, first, rest + b, Loaded(items[0]));
      assert a + first + (rest + b) == a + ItemsBytes(items) + b;
      ItemsRead(a + first, items[1..], b);
      assert (a + first) + rest + b == a + ItemsBytes(items) + b;
    }
  }

  lemma {:induction false} BytesAppend(a: Chain, b: Chain)
    requires AllFit(a) && AllFit(b)
    ensures AllFit(a + b) && ItemsBytes(a + b) == ItemsBytes(a) + ItemsBytes(b)
    decreases |a|
  {
    hide ItemBytes, Fits;
    if a == [] {
      assert a + b == b;
    } else {
      assert (a + b)[1..] == a[1..] + b;
      BytesAppend(a[1..], b);
    }
  }

  datatype Load = NoIndex | Index(from: nat, items: Chain)

  // load_index on the bytes of a file. Too short, a wrong digest or an unknown magic number
  // load nothing; items that run past the end are not told apart here from a bad digest.
  function LoadFile(s: seq<Byte>, sha: seq<Byte> -> seq<Byte>): Load {
    if |s| < DIGEST || sha(s[..|s| - DIGEST]) != s[|s| - DIGEST..] then NoIndex
    else
      var magic, count := Number(s[..4]), SignedCount(Number(s[4..8]));
      if magic == MAGIC_07 || magic == MAGIC_06 then
        match ItemsAt(s, 12, count, magic == MAGIC_07)
        case None => NoIndex
        case Some(items) => Index(Number(s[8..12]), items)
      else if magic == MAGIC_05 then
        match ItemsAt(s, 8, count, false)
        case None => NoIndex
        case Some(items) => Index(0, items)
      else NoIndex
  }

  lemma HeaderPlaces(count: nat, now: nat, rest: seq<Byte>)
    ensures var s := Header(count, now) + rest;
      |Header(count, now)| == 12 && s[..4] == Le(MAGIC_07, 4) && s[4..8] == Le(count, 4) && s[8..12] == Le(now, 4)
  {
    hide Le;
  }

  lemma DigestPlaces(body: seq<Byte>, digest: seq<Byte>)
    requires |digest| == DIGEST
    ensures var s := body + digest; s[..|s| - DIGEST] == body && s[|s| - DIGEST..] == digest
  {
  }

  // The header and the digest, as they are read.
  lemma HeaderRead(count: nat, now: nat, rest: seq<Byte>)
    requires now < 0x1_0000_0000
    ensures var s := Header(count, now) + rest;
      |s| >= 12 && Number(s[..4]) == MAGIC_07 && Number(s[4..8]) == count % 0x1_0000_0000 && Number(s[8..12]) == now
  {
    hide Le, Number, Header;
    HeaderPlaces(count, now, rest);
    Powers();
    NumberOfLe(MAGIC_07, 4);
    NumberOfLe(count, 4);
    NumberOfLe(now, 4);
  }

  // Reading a written file gives back items in order, and the time of writing.
  lemma FileRead(items: Chain, now: nat, sha: seq<Byte> -> seq<Byte>)
    requires AllFit(items) && now < 0x1_0000_0000
    requires forall s :: |sha(s)| == DIGEST
    ensures LoadFile(FileBytes(items, now, sha), sha) == Index(now, AllLoaded(items[..SignedCount(|items|)]))
  {
    hide Le, Number, ItemsBytes, ItemsAt, AllFit, AllLoaded, Header;
    var n := SignedCount(|items|);
    var some, more := items[..n], items[n..];
    assert items == some + more;
    PartsFit(items, n);
    BytesAppend(some, more);
    var head, body := Header(|items|, now), Header(|items|, now) + ItemsBytes(items);
    var s := FileBytes(items, now, sha);
    assert s == head + (ItemsBytes(items) + sha(body)) && s == head + ItemsBytes(some) + (ItemsBytes(more) + sha(body));
    DigestPlaces(body, sha(body));
    HeaderRead(|items|, now, ItemsBytes(items) + sha(body));
    HeaderPlaces(|items|, now, []);
    ItemsRead(head, some, ItemsBytes(more) + sha(body));
    assert SignedCount(|items| % 0x1_0000_0000) == n;
  }

  // They are all of the items exactly when their number is not negative as it is read.
  lemma AllRead(items: Chain)
    ensures AllLoaded(items[..SignedCount(|items|)]) == AllLoaded(items) <==> |items| < 0x8000_0000
  {
    hide AllLoaded, SignedCount;
    var some := items[..SignedCount(|items|)];
    LoadedKeys(some);
    LoadedKeys(items);
    if |some| == |items| { assert some == items; }
  }

  lemma PartsFit(items: Chain, n: nat)
    requires AllFit(items) && n <= |items|
    ensures AllFit(items[..n]) && AllFit(items[n..])
  {
    hide Fits;
  }

  // ----- Tables -----

  lemma {:induction false} LoadedFinds(items: Chain, key: nat)
    ensures FindIn(AllLoaded(items), key) ==
      if FindIn(items, key).Some? then Some(Loaded(FindIn(items, key).value)) else None
  {
    if items != [] {
      assert ([Loaded(items[0])] + AllLoaded(items[1..]))[1..] == AllLoaded(items[1..]);
      LoadedFinds(items[1..], key);
    }
  }

  lemma {:induction false} LoadedKeys(items: Chain)
    ensures |AllLoaded(items)| == |items|
    ensures forall i :: 0 <= i < |items| ==> AllLoaded(items)[i] == Loaded(items[i])
    ensures ChainSize(AllLoaded(items)) == ChainSize(items)
  {
    if items != [] {
      assert ([Loaded(items[0])] + AllLoaded(items[1..]))[1..] == AllLoaded(items[1..]);
      LoadedKeys(items[1..]);
    }
  }

  lemma LoadedUnique(items: Chain)
    requires Unique(items)
    ensures Unique(AllLoaded(items))
  {
    LoadedKeys(items);
  }

  // The table that load_index makes of a file.
  function LoadTable(s: seq<Byte>, sha: seq<Byte> -> seq<Byte>): (t: Table)
    ensures |t| == ITEM_HASH_SIZE
  {
    var load := LoadFile(s, sha);
    if load.Index? then Built(load.items) else EmptyTable()
  }

  // ----- A file of which only a part was written -----

  lemma ItemInPart(s: seq<Byte>, k: nat, at: nat, flagged: bool)
    requires k <= |s| && ItemAt(s[..k], at, flagged).Some?
    ensures ItemAt(s, at, flagged) == ItemAt(s[..k], at, flagged)
  {
    hide Number;
    var t := s[..k];
    forall i: nat, j: nat | i <= j <= k
      ensures t[i..j] == s[i..j]
    {
    }
    assert t[at..at + 8] == s[at..at + 8] && t[at + 8..at + 16] == s[at + 8..at + 16];
    assert t[at + 16..at + 20] == s[at + 16..at + 20] && t[at + 20..at + 24] == s[at + 20..at + 24];
    assert t[at + 24..at + 28] == s[at + 24..at + 28] && t[at + 28..at + 32] == s[at + 28..at + 32];
  }

  lemma {:induction false} ItemsInPart(s: seq<Byte>, k: nat, at: nat, count: nat, flagged: bool)
    requires k <= |s| && ItemsAt(s[..k], at, count, flagged).Some?
    ensures ItemsAt(s, at, count, flagged) == ItemsAt(s[..k], at, count, flagged)
    decreases count
  {
    hide ItemAt;
    if count > 0 {
      ItemInPart(s, k, at, flagged);
      ItemsInPart(s, k, ItemAt(s, at, flagged).value.1, count - 1, flagged);
    }
  }

  // The first part of a file that loads is no index, or should its digest be right the same one.
  lemma PartLoads(s: seq<Byte>, k: nat, sha: seq<Byte> -> seq<Byte>)
    requires k <= |s| && LoadFile(s, sha).Index?
    ensures LoadFile(s[..k], sha) == NoIndex || LoadFile(s[..k], sha) == LoadFile(s, sha)
  {
    hide Number, ItemsAt;
    var t := s[..k];
    if LoadFile(t, sha) != NoIndex {
      assert t[..4] == s[..4] && t[4..8] == s[4..8] && t[8..12] == s[8..12];
      var magic, count := Number(s[..4]), SignedCount(Number(s[4..8]));
      if magic == MAGIC_05 { ItemsInPart(s, k, 8, count, false); } else { ItemsInPart(s, k, 12, count, magic == MAGIC_07); }
    }
  }

  // Saving a table and loading it gives only items of the table, and the same item for every
  // key unless there are too many; the counted size is then the sum of the sizes.
  lemma IndexRoundTrip(t: Table, now: nat, sha: seq<Byte> -> seq<Byte>, key: nat)
    requires Hashed(t) && AllFit(Items(t)) && now < 0x1_0000_0000
    requires forall s :: |sha(s)| == DIGEST
    ensures var after := LoadTable(FileBytes(Items(t), now, sha), sha);
      && Hashed(after)
      && (Find(after, key).Some? ==> Find(t, key).Some? && Find(after, key).value == Loaded(Find(t, key).value))
      && (|Items(t)| < 0x8000_0000 ==> (Find(t, key).Some? ==> Find(after, key).Some?) && TableSize(after) == TableSize(t))
  {
    hide FileBytes, LoadFile, Find, Loaded, FindIn, AllLoaded, AllFit, Hashed, Unique;
    var items, n := Items(t), SignedCount(|Items(t)|);
    FileRead(items, now, sha);
    assert t[0..] == t;
    ItemsUnique(t, 0);
    ItemsFind(t, 0, key);
    UniquePrefix(items, n);
    assert items == items[..n] + items[n..];
    FindAppend(items[..n], items[n..], key);
    LoadedUnique(items[..n]);
    LoadedFinds(items[..n], key);
    BuiltFinds(AllLoaded(items[..n]), key);
    if n == |items| {
      assert items[..n] == items;
      BuiltSize(AllLoaded(items));
      LoadedKeys(items);
      ItemsSize(t);
    }
  }
}
