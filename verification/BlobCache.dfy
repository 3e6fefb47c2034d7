// The disk cache. Each method is one critical section; the flush thread's turn is two of
// them, with the file written in between while the lock is free.
module BlobCache {
  import opened Bytes
  import opened Options
  import opened BlobTable
  import opened BlobIndex
  import opened BlobFacts

  datatype State = BadClock | Running | Stopping

  // What a successful read returns.
  datatype Hit = Hit(buf: Buf, etag: Option<seq<Byte>>, modtime: nat, expired: bool)

  // What becomes of the index file when it is written: all of it, some of it, or nothing.
  datatype Saving = Saved | NotOpened | Torn(kept: nat)

  const GOOD_CLOCK: nat := 1426926328
  const INT32_MAX: int := 0x7fff_ffff

  function Word(x: int): nat { x % SIZE_MOD }

  function Expired(item: Item, now: nat): bool { now > item.expiry && now >= GOOD_CLOCK }

  // The expiry that a put of a new body leaves, and the one that a put of the same body leaves.
  function StoredExpiry(now: nat, maxage: int): nat {
    Word(if maxage + now < INT32_MAX then maxage + now else INT32_MAX)
  }

  function RenewedExpiry(now: nat, maxage: int): nat { Word(now + maxage) }

  // A body stored with an age that has not passed is nevertheless expired at once exactly when
  // the clock is past 2^31 - 1; one that is renewed, exactly when its time wraps.
  lemma ExpiredAtOnce(item: Item, now: nat, maxage: int)
    requires GOOD_CLOCK <= now < SIZE_MOD && -0x8000_0000 <= maxage <= INT32_MAX
    ensures item.expiry == StoredExpiry(now, maxage) ==>
      (Expired(item, now) <==> now > INT32_MAX || (maxage < 0 <= now + maxage))
    ensures item.expiry == RenewedExpiry(now, maxage) ==>
      (Expired(item, now) <==> now + maxage >= SIZE_MOD || (maxage < 0 <= now + maxage))
  {
  }

  // The item is there and not too old.
  ghost predicate Offered(t: Table, key: nat, now: nat, ignoreExpiry: bool)
    requires |t| == ITEM_HASH_SIZE
  {
    Find(t, key).Some? && (Expired(Find(t, key).value, now) ==> ignoreExpiry)
  }

  // The file is there with the length the item expects.
  ghost predicate Sound(item: Item, file: Option<seq<Byte>>) {
    file.Some? && |file.value| == FileLength(item)
  }

  // There is as much to read as the item says; a length that wrapped has less.
  ghost predicate Enough(item: Item, file: Option<seq<Byte>>) {
    Sound(item, file) && item.typeLen + item.size <= |file.value|
  }

  class Cache {
    // digest_content and SHA-1
    const digest: seq<Byte> -> nat
    const sha: seq<Byte> -> seq<Byte>
    var hash: Table
    var queue: seq<Flush>
    var disk: Disk
    var index: seq<Byte>
    var size: int
    var dirty: bool
    var state: State
    // What was last stored under each key.
    ghost var last: map<nat, Buf>
    // Keys whose file may hold an earlier body, because a later one was never written.
    ghost var stale: set<nat>
    // Keys whose item may describe an earlier body, because the index that was loaded did not
    // have the later one.
    ghost var loose: set<nat>
    // Keys stored since the index was last written.
    ghost var unsaved: set<nat>
    // Bytes of items that reads dropped since the size was last recounted.
    ghost var dropped: int
    // Where the flush thread is: it has dealt with the head of the queue and not yet taken it off.
    var written: bool

    ghost predicate Valid()
      reads this
    {
      && Consistent(digest, hash, last, queue, disk, stale, loose)
      && (written ==> Written(queue, disk, stale))
      && size == TableSize(hash) + dropped
      && (forall s {:trigger sha(s)} :: |sha(s)| == DIGEST)
      && (!dirty ==> unsaved == {})
      && Restorable()
    }

    // A start from the index on disk is as good as the table, but for what was stored since it
    // was written.
    ghost predicate Restorable()
      reads this
    {
      Consistent(digest, LoadTable(index, sha), last, queue, disk, stale, loose + unsaved)
    }

    // blobcache_init: the table is loaded from the index over what is on disk.
    constructor (digest: seq<Byte> -> nat, sha: seq<Byte> -> seq<Byte>, disk: Disk, index: seq<Byte>,
                 ghost last: map<nat, Buf>, ghost stale: set<nat>, ghost loose: set<nat>)
      requires Consistent(digest, LoadTable(index, sha), last, [], disk, stale, loose)
      requires forall s {:trigger sha(s)} :: |sha(s)| == DIGEST
      ensures Valid() && hash == LoadTable(index, sha) && queue == [] && state == BadClock && !dirty && !written
      ensures this.digest == digest && this.sha == sha && this.disk == disk && this.index == index
      ensures this.last == last && this.stale == stale && this.loose == loose && unsaved == {} && dropped == 0
    {
      hide Consistent, TableSize, LoadTable;
      this.digest, this.sha := digest, sha;
      hash, queue, this.disk, this.index := EmptyTable(), [], disk, index;
      size, dirty, state := 0, false, BadClock;
      this.last, this.stale, this.loose, unsaved, dropped, written := last, stale, loose, {}, 0, false;
      new;
      assert loose + {} == loose;
      var _ := LoadIndex();
    }

    // load_index: into the empty table of a cache that starts.
    method LoadIndex() returns (from: nat)
      requires hash == EmptyTable() && size == 0
      modifies this`hash, this`size
      ensures hash == LoadTable(index, sha) && size == TableSize(hash)
      ensures LoadFile(index, sha).Index? ==> from == LoadFile(index, sha).from
    {
      hide ItemsAt, Push, ChainSize, TableSize;
      from := 0;
      EmptySize(hash);
      match LoadFile(index, sha) {
        case NoIndex =>
        case Index(at, items) =>
          from := at;
          NoItems();
          assert items[..0] == [];
          for i: nat := 0 to |items|
            invariant hash == Built(items[..i]) && size == ChainSize(items[..i])
          {
            BuiltNext(items, 0, i);
            assert items[0..i + 1] == items[..i + 1] && items[0..i] == items[..i];
            hash := Push(hash, items[i]);
            SizeNext(items, i);
            size := size + items[i].size;
          }
          assert items[..|items|] == items;
          BuiltSize(items);
      }
    }

    // The flush thread accepts writes once the clock looks right, until the cache is stopped.
    method CheckClock(now: nat)
      requires Valid()
      modifies this`state
      ensures Valid() && state == if old(state) == BadClock && now >= GOOD_CLOCK then Running else old(state)
    {
      if state == BadClock && now >= GOOD_CLOCK { state := Running; }
    }

    method Stop()
      requires Valid()
      modifies this`state
      ensures Valid() && state == Stopping
    {
      state := Stopping;
    }

    // What a put leaves in the item.
    ghost predicate Records(item: Item, b: Buf, now: nat, modtime: int, flags: int, etag: Option<seq<Byte>>) {
      && item.content == digest(b.body) && item.size == Word(|b.body|) && item.lastaccess == now
      && item.modtime == Word(modtime) && item.flags == flags % 256
      && item.etag == if etag.Some? && |etag.value| > 255 then None else etag
    }

    // The item is there with this body's digest and size already.
    ghost predicate Holding(item: Option<Item>, b: Buf) {
      item.Some? && item.value.content == digest(b.body) && item.value.size == |b.body|
    }

    // The item is there and cannot tell the last body from this one.
    ghost predicate Mistaken(key: nat, body: seq<Byte>)
      requires |hash| == ITEM_HASH_SIZE
      reads this
    {
      Find(hash, key).Some? && key in last && Collide(digest, last[key].body, body)
    }

    // The place of a key in its chain; the chain's length if it is not there.
    method FindItem(key: nat) returns (i: nat)
      requires Hashed(hash)
      ensures i <= |hash[Slot(key)]|
      ensures i < |hash[Slot(key)]| ==> hash[Slot(key)][i].key == key && Find(hash, key) == Some(hash[Slot(key)][i])
      ensures i == |hash[Slot(key)]| ==> Find(hash, key) == None
    {
      var chain := hash[Slot(key)];
      i := 0;
      while i < |chain| && chain[i].key != key
        invariant 0 <= i <= |chain| && forall j :: 0 <= j < i ==> chain[j].key != key
      {
        i := i + 1;
      }
      assert Unique(hash[Slot(key)]);
      if i < |chain| { FoundAt(chain, i); } else { NotFound(chain, key); }
    }

    // blobcache_put: stores nothing when the cache is not running, or when the item has the
    // digest and size of the body. The key then stands for the body unless that is a mistake,
    // or the item is from an index too old to tell.
    method Put(key: nat, b: Buf, now: nat, maxage: int, etag: Option<seq<Byte>>, modtime: int, flags: int) returns (stored: bool)
      requires Valid() && now < SIZE_MOD
      requires key < 0x1_0000_0000_0000_0000 && digest(b.body) < 0x1_0000_0000_0000_0000
      modifies this`hash, this`queue, this`size, this`dirty, this`last, this`loose, this`unsaved
      ensures Valid()
      ensures state != Running ==> !stored && hash == old(hash) && queue == old(queue)
      ensures last == if state != Running || stored then old(last) else old(last)[key := b]
      ensures loose == if state != Running || stored then old(loose) else old(loose) - {key}
      ensures unsaved == if state != Running || stored then old(unsaved) else old(unsaved) + {key}
      ensures state == Running && key !in old(loose) ==>
        key in last && (last[key].body == b.body <==> !old(Mistaken(key, b.body)))
      ensures state == Running ==> dirty && Find(hash, key).Some? && Records(Find(hash, key).value, b, now, modtime, flags, etag)
      ensures stored <==> state == Running && Holding(Find(old(hash), key), b)
      ensures state == Running ==>
        Find(hash, key).value.expiry == if stored then RenewedExpiry(now, maxage) else StoredExpiry(now, maxage)
      ensures state == Running ==>
        (Find(hash, key).value.typeLen == if stored then Find(old(hash), key).value.typeLen else |TypeBytes(b)| % 256)
      ensures forall k: nat {:trigger Find(hash, k)} :: k != key ==> Find(hash, k) == Find(old(hash), k)
      ensures queue == if state != Running || stored then old(queue) else old(queue) + [Flush(key, b)]
    {
      hide Consistent, TableSize, Hashed, FindIn, Find, Written, ChainSize, Describes, LoadTable;
      var tag := if etag.Some? && |etag.value| > 255 then None else etag;
      if state != Running {
        return false;
      }
      Facts(digest, hash, last, queue, disk, stale, loose);
      var i := FindItem(key);
      var slot, content := Slot(key), digest(b.body);
      if i < |hash[slot]| {
        if key !in loose { SameBody(digest, hash, last, queue, disk, stale, loose, hash[slot][i], b.body); }
        FactsAt(digest, hash, last, queue, disk, stale, loose, key);
      }
      if i < |hash[slot]| && hash[slot][i].content == content && hash[slot][i].size == |b.body| {
        var p := hash[slot][i];
        var q := p.(modtime := Word(modtime), expiry := Word(now + maxage), lastaccess := now, flags := flags % 256, etag := tag);
        Touch(p, q, slot, i);
        return true;
      }
      var q := Item(key, content, now, StoredExpiry(now, maxage), Word(modtime), Word(|b.body|), flags % 256, |TypeBytes(b)| % 256, tag);
      assert Describes(digest, q, b.body) by { StoredDescribes(digest, q, b.body); }
      Enqueue(q, b, slot, i);
      stored := false;
    }

    // An item changes in what says nothing about its body.
    method Touch(p: Item, q: Item, slot: nat, i: nat)
      requires Valid() && slot == Slot(p.key) && i < |hash[slot]| && hash[slot][i] == p && Find(hash, p.key) == Some(p)
      requires q.key == p.key && q.content == p.content && q.size == p.size && q.typeLen == p.typeLen && Fits(q)
      modifies this`hash, this`dirty
      ensures Valid() && dirty
      ensures forall k: nat {:trigger Find(hash, k)} :: Find(hash, k) == if k == q.key then Some(q) else Find(old(hash), k)
    {
      hide Consistent, TableSize, Hashed, FindIn, Find, Written, ChainSize, Fits, LoadTable;
      Facts(digest, hash, last, queue, disk, stale, loose);
      Updated(hash, slot, i, q);
      TouchKeeps(digest, hash, hash[slot := hash[slot][i := q]], last, queue, disk, stale, loose, p, q);
      hash := hash[slot := hash[slot][i := q]];
      dirty := true;
    }

    // The item is made, or made over.
    method SetItem(q: Item, slot: nat, i: nat)
      requires Hashed(hash) && slot == Slot(q.key) && i <= |hash[slot]| && (i == |hash[slot]| ==> Find(hash, q.key) == None)
      requires i < |hash[slot]| ==> hash[slot][i].key == q.key
      modifies this`hash, this`size
      ensures Hashed(hash) && size - TableSize(hash) == old(size - TableSize(hash))
      ensures forall k: nat {:trigger Find(hash, k)} :: Find(hash, k) == if k == q.key then Some(q) else Find(old(hash), k)
    {
      hide TableSize, Unique, InSlot, FindIn, Find, ChainSize;
      if i == |hash[slot]| {
        Pushed(hash, q);
        hash := Push(hash, q);
        size := size + q.size;
      } else {
        Updated(hash, slot, i, q);
        size := size - hash[slot][i].size + q.size;
        hash := hash[slot := hash[slot][i := q]];
      }
    }

    // The storing half of a put: the write is queued and the item made, or made over.
    method Enqueue(q: Item, b: Buf, slot: nat, i: nat)
      requires Valid() && slot == Slot(q.key) && Describes(digest, q, b.body) && q.typeLen == |TypeBytes(b)| % 256 && Fits(q)
      requires i <= |hash[slot]| && (i == |hash[slot]| ==> Find(hash, q.key) == None)
      requires i < |hash[slot]| ==> hash[slot][i].key == q.key
      modifies this`hash, this`size, this`queue, this`last, this`dirty, this`loose, this`unsaved
      ensures Valid() && last == old(last)[q.key := b] && queue == old(queue) + [Flush(q.key, b)] && dirty
      ensures loose == old(loose) - {q.key} && unsaved == old(unsaved) + {q.key}
      ensures forall k: nat {:trigger Find(hash, k)} :: Find(hash, k) == if k == q.key then Some(q) else Find(old(hash), k)
    {
      hide Consistent, TableSize, Hashed, FindIn, Find, Written, ChainSize, Describes, Fits, LoadTable;
      Facts(digest, hash, last, queue, disk, stale, loose);
      ghost var was := hash;
      SetItem(q, slot, i);
      PutKeeps(digest, was, hash, last, queue, disk, stale, loose, q, b);
      UnseenPut(digest, LoadTable(index, sha), last, queue, disk, stale, loose + unsaved, q.key, b);
      QueuedWritten(queue, disk, stale, Flush(q.key, b));
      queue := queue + [Flush(q.key, b)];
      last := last[q.key := b];
      assert (loose - {q.key}) + (unsaved + {q.key}) == loose + unsaved + {q.key};
      loose, unsaved := loose - {q.key}, unsaved + {q.key};
      dirty := true;
    }

    // Only a good clock marks an item as used.
    function Touched(item: Item, now: nat): Item
      reads this
    {
      if state == Running then item.(lastaccess := now) else item
    }

    lemma TouchedFits(item: Item, now: nat)
      requires Fits(item) && now < SIZE_MOD
      ensures Fits(Touched(item, now))
    {
    }

    // blobcache_get: the newest queued body, or what the file holds. Body and content type are
    // those last stored under the key, unless an older file was left behind or the item is from
    // an older index.
    method Get(key: nat, now: nat, ignoreExpiry: bool) returns (hit: Option<Hit>)
      requires Valid() && now < SIZE_MOD
      modifies this`hash, this`disk, this`dirty, this`dropped
      ensures Valid()
      ensures hit.Some? <==>
        (state != Stopping && Offered(old(hash), key, now, ignoreExpiry) &&
         (LastQueued(queue, key).Some? || Enough(Find(old(hash), key).value, FileAt(old(disk), key))))
      ensures hit.Some? ==>
        (hit.value.buf == if LastQueued(queue, key).Some? then LastQueued(queue, key).value
                          else ReadFile(Find(old(hash), key).value, old(disk)[key]))
      ensures hit.Some? && key !in loose && (key !in stale || LastQueued(queue, key).Some?) ==>
        key in last && SameContent(last[key], hit.value.buf)
      ensures hit.Some? ==> hit.value.expired == Expired(Find(old(hash), key).value, now)
      ensures hit.Some? ==> hit.value.etag == Find(old(hash), key).value.etag && hit.value.modtime == Find(old(hash), key).value.modtime
      // the item is touched, or it is dropped
      ensures state != Stopping ==>
        (Find(hash, key) ==
         if Offered(old(hash), key, now, ignoreExpiry) &&
            (LastQueued(queue, key).Some? || Sound(Find(old(hash), key).value, FileAt(old(disk), key)))
         then Some(Touched(Find(old(hash), key).value, now))
         else None)
      ensures forall k: nat {:trigger Find(hash, k)} :: k != key || state == Stopping ==> Find(hash, k) == Find(old(hash), k)
      // a file of another length goes
      ensures disk ==
        if state != Stopping && Offered(old(hash), key, now, ignoreExpiry) && LastQueued(queue, key).None?
           && !Sound(Find(old(hash), key).value, FileAt(old(disk), key))
        then old(disk) - {key} else old(disk)
    {
      hide Consistent, TableSize, Hashed, FindIn, Find, Written, ChainSize, Backed, LastQueued, LoadTable, ReadFile, Fits, FileLength, SameContent;
      if state == Stopping {
        return None;
      }
      Facts(digest, hash, last, queue, disk, stale, loose);
      var i := FindItem(key);
      var slot := Slot(key);
      if i == |hash[slot]| {
        return None;
      }
      var p := hash[slot][i];
      var expired := Expired(p, now);
      if expired && !ignoreExpiry {
        Drop(key, slot, i, false);
        return None;
      }
      var queued := SearchQueue(key);
      if queued.None? {
        if key !in disk {
          Drop(key, slot, i, false);
          assert disk == disk - {key};
          return None;
        }
        if |disk[key]| != FileLength(p) {
          Drop(key, slot, i, true);
          return None;
        }
      }
      hit := Serve(p, slot, i, now, expired, queued);
    }

    // The succeeding end of a read: the item is touched and the body fetched.
    method Serve(p: Item, slot: nat, i: nat, now: nat, expired: bool, queued: Option<Buf>) returns (hit: Option<Hit>)
      requires Valid() && now < SIZE_MOD && slot == Slot(p.key) && i < |hash[slot]| && hash[slot][i] == p && Find(hash, p.key) == Some(p)
      requires queued == LastQueued(queue, p.key) && (queued.None? ==> Sound(p, FileAt(disk, p.key)))
      modifies this`hash, this`dirty
      ensures Valid()
      ensures forall k: nat {:trigger Find(hash, k)} :: Find(hash, k) == if k == p.key then Some(Touched(p, now)) else Find(old(hash), k)
      ensures hit.Some? <==> queued.Some? || Enough(p, FileAt(disk, p.key))
      ensures hit.Some? ==>
        hit.value == Hit(if queued.Some? then queued.value else ReadFile(p, disk[p.key]), p.etag, p.modtime, expired)
      ensures hit.Some? && p.key !in loose && (p.key !in stale || queued.Some?) ==>
        p.key in last && SameContent(last[p.key], hit.value.buf)
    {
      hide Consistent, TableSize, Hashed, FindIn, Find, Written, ChainSize, Backed, LastQueued, LoadTable, ReadFile, Fits, FileLength, SameContent;
      var key := p.key;
      FactsAt(digest, hash, last, queue, disk, stale, loose, key);
      ItemFits(digest, hash, last, queue, disk, stale, loose, key);
      TouchedFits(p, now);
      Touch(p, Touched(p, now), slot, i);
      if queued.Some? {
        if key !in loose { QueuedContent(digest, p, LastAt(last, key), queued, FileAt(disk, key), key in stale); }
        hit := Some(Hit(queued.value, p.etag, p.modtime, expired));
      } else if p.typeLen + p.size <= |disk[key]| {
        if key !in stale && key !in loose { FiledBody(digest, p, LastAt(last, key), disk[key]); }
        hit := Some(Hit(ReadFile(p, disk[key]), p.etag, p.modtime, expired));
      } else {
        hit := None;
      }
    }

    // The reversed search of the queue.
    method SearchQueue(key: nat) returns (b: Option<Buf>)
      ensures b == LastQueued(queue, key)
    {
      var i := |queue|;
      assert queue[..i] == queue;
      while i > 0 && queue[i - 1].key != key
        invariant 0 <= i <= |queue| && LastQueued(queue, key) == LastQueued(queue[..i], key)
      {
        assert queue[..i][..i - 1] == queue[..i - 1];
        i := i - 1;
      }
      b := if i > 0 then Some(queue[i - 1].buf) else None;
    }

    // The failing end of a read: the item goes, its bytes stay counted.
    method Drop(key: nat, slot: nat, i: nat, unlink: bool)
      requires Valid() && slot == Slot(key) && i < |hash[slot]| && hash[slot][i].key == key
      modifies this`hash, this`disk, this`dropped
      ensures Valid() && Find(hash, key) == None
      ensures disk == if unlink then old(disk) - {key} else old(disk)
      ensures forall k: nat {:trigger Find(hash, k)} :: k != key ==> Find(hash, k) == Find(old(hash), k)
    {
      hide Consistent, TableSize, Hashed, FindIn, Find, Written, ChainSize, LoadTable;
      Facts(digest, hash, last, queue, disk, stale, loose);
      Removed(hash, slot, i);
      ghost var was, all, gone := hash, disk, hash[slot][i].size;
      hash := hash[slot := Cut(hash[slot], i)];
      if unlink { disk := disk - {key}; }
      KeepFewer(was, all, key);
      dropped := dropped + gone;
    }

    // An item that goes, with its file or without.
    lemma KeepFewer(was: Table, all: Disk, key: nat)
      requires Consistent(digest, was, last, queue, all, stale, loose) && (disk == all || disk == all - {key})
      requires Hashed(hash) && |hash| == ITEM_HASH_SIZE && forall k: nat {:trigger Find(hash, k)} :: Find(hash, k) == if k == key then None else Find(was, k)
      ensures Consistent(digest, hash, last, queue, disk, stale, loose)
      ensures Written(queue, all, stale) ==> Written(queue, disk, stale)
      ensures Consistent(digest, LoadTable(index, sha), last, queue, all, stale, loose + unsaved) ==> Restorable()
    {
      hide Consistent, Hashed, Find, Written, LoadTable;
      Facts(digest, was, last, queue, all, stale, loose);
      forall k: nat
        ensures Shrunk(was, all, hash, disk, k)
      {
        assert Find(hash, k) == if k == key then None else Find(was, k);
      }
      ShrinkKeeps(digest, was, hash, last, queue, all, disk, stale, loose);
      if Consistent(digest, LoadTable(index, sha), last, queue, all, stale, loose + unsaved) {
        FewerFiles(digest, LoadTable(index, sha), last, queue, all, disk, stale, loose + unsaved);
      }
    }

    // blobcache_evict
    method Evict(key: nat)
      requires Valid()
      modifies this`hash, this`disk, this`size
      ensures Valid()
      ensures disk == if state == Running && Find(old(hash), key).Some? then old(disk) - {key} else old(disk)
      ensures state == Running ==> Find(hash, key) == None
      ensures forall k: nat {:trigger Find(hash, k)} :: k != key || state != Running ==> Find(hash, k) == Find(old(hash), k)
    {
      hide Consistent, TableSize, Hashed, FindIn, Find, Written, ChainSize, LoadTable;
      if state == Running {
        Facts(digest, hash, last, queue, disk, stale, loose);
        var i := FindItem(key);
        var slot := Slot(key);
        if i < |hash[slot]| {
          size := size - hash[slot][i].size;
          ghost var was, all := hash, disk;
          Removed(hash, slot, i);
          hash := hash[slot := Cut(hash[slot], i)];
          disk := disk - {key};
          KeepFewer(was, all, key);
        }
      }
    }

    // The flush thread, without the lock: the head of the queue is written whole, or fails and
    // is unlinked, or cannot be opened.
    method FlushWrite(outcome: Outcome)
      requires Valid() && queue != [] && !written
      modifies this`disk, this`written, this`stale
      ensures Valid() && written
      ensures disk == AfterWrite(queue[0], old(disk), outcome) && stale == StaleAfter(queue[0], old(stale), outcome)
    {
      hide Consistent, TableSize, LoadTable, AfterWrite, StaleAfter, Written;
      WriteKeeps(digest, hash, last, queue, disk, stale, loose, outcome);
      WriteKeeps(digest, LoadTable(index, sha), last, queue, disk, stale, loose + unsaved, outcome);
      disk, stale := AfterWrite(queue[0], disk, outcome), StaleAfter(queue[0], stale, outcome);
      written := true;
    }

    // The flush thread, with the lock again.
    method FlushDone(maxsize: nat, now: nat, saving: Saving)
      requires Valid() && queue != [] && written && now < SIZE_MOD
      modifies this`hash, this`disk, this`size, this`dirty, this`dropped, this`queue, this`written, this`index, this`unsaved
      ensures Valid() && !written && queue == old(queue)[1..]
      ensures size <= maxsize || hash == EmptyTable()
      ensures old(size) <= maxsize ==> hash == old(hash) && disk == old(disk) && index == old(index)
      ensures unsaved == if old(size) <= maxsize || saving.NotOpened? then old(unsaved) else {}
      ensures forall k: nat {:trigger Find(hash, k)} :: Find(hash, k).Some? ==> Find(hash, k) == Find(old(hash), k)
      ensures forall k: nat {:trigger FileAt(disk, k)} :: FileAt(disk, k) == FileLeft(old(hash), old(disk), hash, k)
    {
      hide Consistent, TableSize, Hashed, FindIn, Find, Written, ChainSize, LoadTable, FileBytes, LoadFile;
      DequeueKeeps(digest, hash, last, queue, disk, stale, loose);
      DequeueKeeps(digest, LoadTable(index, sha), last, queue, disk, stale, loose + unsaved);
      queue := queue[1..];
      written := false;
      if maxsize < size {
        var _ := PruneToSize(maxsize, now, saving);
      }
    }

    // prune_to_size: the size is recounted, then items go in pruning order, with their files,
    // until it is small enough; no more go than have to. The index is saved.
    method PruneToSize(maxsize: nat, now: nat, saving: Saving) returns (kept: Chain)
      requires Valid() && now < SIZE_MOD
      modifies this`hash, this`disk, this`size, this`dirty, this`dropped, this`index, this`unsaved
      ensures Valid() && dropped == 0 && size == ChainSize(kept)
      ensures exists order: Chain, n: nat {:trigger Pruned(order, n, kept, maxsize)} ::
        multiset(order) == multiset(Items(old(hash))) && (Comparable(Items(old(hash))) ==> InOrder(order)) && Pruned(order, n, kept, maxsize)
      ensures hash == Built(kept)
      ensures unsaved == if saving.NotOpened? then old(unsaved) else {}
      ensures forall k: nat {:trigger Find(hash, k)} :: Find(hash, k) == FindIn(kept, k)
      ensures forall k: nat {:trigger Find(hash, k)} :: Find(hash, k).Some? ==> Find(hash, k) == Find(old(hash), k)
      ensures forall k: nat {:trigger FileAt(disk, k)} :: FileAt(disk, k) == FileLeft(old(hash), old(disk), hash, k)
    {
      hide Consistent, TableSize, Hashed, FindIn, Find, Written, ChainSize, Comparable, InOrder, Unique;
      hide Unlinked, PrunedFar, Items, Push, LoadTable, FileBytes, LoadFile, FileLeft, FileAt;
      ghost var was, all, dirty0 := hash, disk, dirty;
      Facts(digest, hash, last, queue, disk, stale, loose);
      var sv := Collect();
      size := SumSizes(sv);
      sv := SortItems(sv);
      SortedFacts(was, sv);
      var i := Unlink(sv, maxsize);
      kept := sv[i..];
      Rehash(kept);
      dropped := 0;
      BuiltSize(kept);
      PrunedFacts(was, sv, i, all, disk, 0);
      forall k: nat
        ensures Find(hash, k) == FindIn(kept, k) && Shrunk(was, all, hash, disk, k) && FileAt(disk, k) == FileLeft(was, all, hash, k)
      {
        PrunedFacts(was, sv, i, all, disk, k);
      }
      PruneKeeps(was, all);
      assert Pruned(sv, i, kept, maxsize);
      SaveIndex(now, saving);
    }

    // Items go, from the first on, with their files.
    method Unlink(order: Chain, maxsize: nat) returns (n: nat)
      requires size == ChainSize(order)
      modifies this`disk, this`size, this`dirty
      ensures n <= |order| && size == ChainSize(order[n..]) && (size < maxsize || n == |order|)
      ensures Unlinked(old(disk), disk, order, n) && PrunedFar(order, n, maxsize) && dirty == (old(dirty) || n > 0)
    {
      hide Unlinked, PrunedFar, ChainSize;
      n := 0;
      WholeSuffix(order, maxsize);
      UnlinkedNone(disk, order);
      while n < |order| && size >= maxsize
        invariant n <= |order| && size == ChainSize(order[n..])
        invariant Unlinked(old(disk), disk, order, n) && PrunedFar(order, n, maxsize)
        invariant dirty == (old(dirty) || n > 0)
      {
        OneLess(order, n, maxsize);
        UnlinkedMore(old(disk), disk, order, n);
        size := size - order[n].size;
        disk := disk - {order[n].key};
        dirty := true;
        n := n + 1;
      }
    }

    // The chains are made again from what is left.
    method Rehash(items: Chain)
      modifies this`hash
      ensures hash == Built(items)
    {
      hide Push;
      hash := EmptyTable();
      NoItems();
      assert items[..0] == [];
      for i: nat := 0 to |items|
        invariant hash == Built(items[..i])
      {
        BuiltNext(items, 0, i);
        assert items[0..i + 1] == items[..i + 1] && items[0..i] == items[..i];
        hash := Push(hash, items[i]);
      }
      assert items[..|items|] == items;
    }

    // Items that go with their files disturb neither the others nor the index.
    lemma PruneKeeps(was: Table, all: Disk)
      requires Consistent(digest, was, last, queue, all, stale, loose) && Hashed(hash)
      requires Consistent(digest, LoadTable(index, sha), last, queue, all, stale, loose + unsaved)
      requires |was| == ITEM_HASH_SIZE == |hash| && forall k: nat {:trigger Shrunk(was, all, hash, disk, k)} :: Shrunk(was, all, hash, disk, k)
      ensures Consistent(digest, hash, last, queue, disk, stale, loose) && Restorable()
      ensures Written(queue, all, stale) ==> Written(queue, disk, stale)
    {
      hide Consistent, Hashed, Find, Written, LoadTable;
      ShrinkKeeps(digest, was, hash, last, queue, all, disk, stale, loose);
      forall k | k in disk
        ensures k in all && disk[k] == all[k]
      {
        assert Shrunk(was, all, hash, disk, k);
      }
      FewerFiles(digest, LoadTable(index, sha), last, queue, all, disk, stale, loose + unsaved);
    }

    // All items, chain by chain.
    method Collect() returns (items: Chain)
      requires |hash| == ITEM_HASH_SIZE
      ensures items == Items(hash)
    {
      items := [];
      for i: nat := 0 to ITEM_HASH_SIZE
        invariant items + Items(hash[i..]) == Items(hash)
      {
        assert hash[i..][1..] == hash[i + 1..];
        items := items + hash[i];
      }
      assert items + [] == items;
    }

    method SumSizes(items: Chain) returns (total: nat)
      ensures total == ChainSize(items)
    {
      total := 0;
      assert items[0..] == items;
      for i: nat := 0 to |items|
        invariant total + ChainSize(items[i..]) == ChainSize(items)
      {
        assert items[i..][1..] == items[i + 1..];
        total := total + items[i].size;
      }
    }

    // save_index: the index file becomes the bytes of the table's items, if there is anything
    // to save; until that worked there is. A part of them does not load, so nothing that was
    // stored is behind it either.
    method SaveIndex(now: nat, saving: Saving)
      requires Valid() && now < SIZE_MOD
      modifies this`dirty, this`index, this`unsaved
      ensures Valid() && AllFit(Items(hash))
      ensures dirty == (old(dirty) && !saving.Saved?)
      ensures unsaved == if saving.NotOpened? then old(unsaved) else {}
      ensures index ==
        if !old(dirty) || saving.NotOpened? then old(index)
        else if saving.Saved? || saving.kept >= |FileBytes(Items(hash), now, sha)| then FileBytes(Items(hash), now, sha)
        else FileBytes(Items(hash), now, sha)[..saving.kept]
    {
      hide Consistent, TableSize, Hashed, ItemBytes, Header, Fits, LoadTable, Items;
      Facts(digest, hash, last, queue, disk, stale, loose);
      ItemsFit(digest, hash, last, queue, disk, stale, loose);
      if !dirty || saving.NotOpened? {
        return;
      }
      var items := Collect();
      var out := Header(|items|, now);
      ghost var head := out;
      assert items[0..] == items;
      for i: nat := 0 to |items|
        invariant AllFit(items[i..]) && out + ItemsBytes(items[i..]) == head + ItemsBytes(items)
      {
        assert items[i..][1..] == items[i + 1..] && items[i..][0] == items[i];
        assert Fits(items[i..][0]);
        out := out + ItemBytes(items[i]);
        assert out + ItemsBytes(items[i + 1..]) == head + ItemsBytes(items);
      }
      assert items[|items|..] == [];
      assert out + ItemsBytes([]) == out;
      index := out + sha(out);
      unsaved := {};
      assert loose + unsaved == loose;
      SavedKeeps(digest, hash, last, queue, disk, stale, loose, now, sha);
      if saving.Torn? {
        if saving.kept < |index| {
          TornKeeps(digest, hash, last, queue, disk, stale, loose, now, sha, saving.kept);
          index := index[..saving.kept];
        }
      } else {
        dirty := false;
      }
    }
  }

  lemma NoItems()
    ensures Built([]) == EmptyTable() && ChainSize([]) == 0
  {
  }

  lemma SizeNext(items: Chain, i: nat)
    requires i < |items|
    ensures ChainSize(items[..i + 1]) == ChainSize(items[..i]) + items[i].size
  {
    assert items[..i + 1] == items[..i] + [items[i]];
    SizeAppend(items[..i], [items[i]]);
    assert [items[i]][1..] == [];
  }
}
