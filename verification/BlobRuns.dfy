// Whole lives of a disk cache, restarts and crashes included: what its reads return, told from
// what was stored, without looking into the cache.
module BlobRuns {
  import opened Bytes
  import opened Options
  import opened BlobTable
  import opened BlobIndex
  import opened BlobFacts
  import opened BlobCache

  // A crash cuts off the file that is being written, and finds some files already removed.
  datatype Call =
    | PutCall(key: nat, b: Buf, now: nat, maxage: int, etag: Option<seq<Byte>>, modtime: int, flags: int)
    | GetCall(key: nat, now: nat, ignoreExpiry: bool)
    | EvictCall(key: nat)
    | WriteCall(outcome: Outcome)
    | DoneCall(maxsize: nat, now: nat, saving: Saving)
    | PruneCall(maxsize: nat, now: nat, saving: Saving)
    | SaveCall(now: nat, saving: Saving)
    | ClockCall(now: nat)
    | RestartCall(now: nat, saving: Saving)
    | CrashCall(part: nat, gone: set<nat>)

  // What can be seen of a call. A put that finds its body there renews it; a file is rewritten
  // or removed, or was not opened; the index is written, or has nothing new; a cache goes down
  // without the writes that are lost, and with or without having written its index.
  datatype Event =
    | Stored(key: nat, b: Buf)
    | Renewed(key: nat, b: Buf)
    | Read(key: nat, b: Buf)
    | Rewritten(key: nat)
    | Unwritten(key: nat)
    | IndexWritten
    | Restarted(lost: set<nat>, written: bool)
    | Nothing

  // Times are 32-bit, keys and digests 64-bit.
  predicate Legal(digest: seq<Byte> -> nat, call: Call) {
    match call
    case PutCall(key, b, now, _, _, _, _) =>
      now < SIZE_MOD && key < 0x1_0000_0000_0000_0000 && digest(b.body) < 0x1_0000_0000_0000_0000
    case GetCall(_, now, _) => now < SIZE_MOD
    case DoneCall(_, now, _) => now < SIZE_MOD
    case PruneCall(_, now, _) => now < SIZE_MOD
    case SaveCall(now, _) => now < SIZE_MOD
    case RestartCall(now, _) => now < SIZE_MOD
    case _ => true
  }

  // What was stored last.
  function LastStored(past: seq<Event>, key: nat): Option<Buf> {
    if past == [] then None
    else
      var e := past[|past| - 1];
      if e.Stored? && e.key == key then Some(e.b) else LastStored(past[..|past| - 1], key)
  }

  // The file may be older than what was stored last.
  predicate LeftBehind(past: seq<Event>, key: nat) {
    if past == [] then false
    else
      var e := past[|past| - 1];
      if (e.Unwritten? && e.key == key) || (e.Restarted? && key in e.lost) then true
      else if e.Rewritten? && e.key == key then false
      else LeftBehind(past[..|past| - 1], key)
  }

  // Stored since the index was written.
  predicate Unindexed(past: seq<Event>, key: nat) {
    if past == [] then false
    else
      var e := past[|past| - 1];
      if e.Stored? && e.key == key then true
      else if e.IndexWritten? || e.Restarted? then false
      else Unindexed(past[..|past| - 1], key)
  }

  // Stored, then not indexed before the cache went down, and not stored again since.
  predicate Doubtful(past: seq<Event>, key: nat) {
    if past == [] then false
    else
      var e, before := past[|past| - 1], past[..|past| - 1];
      if e.Stored? && e.key == key then false
      else if e.Restarted? && !e.written && Unindexed(before, key) then true
      else Doubtful(before, key)
  }

  // What is read is what was stored last, body and content type, unless an older file was left
  // behind or an older index was started from; a body that is renewed is the one stored last,
  // or collides with it, unless an older index was started from.
  ghost predicate Explained(digest: seq<Byte> -> nat, past: seq<Event>, e: Event) {
    && (e.Read? && !LeftBehind(past, e.key) && !Doubtful(past, e.key) ==>
          LastStored(past, e.key).Some? && SameContent(LastStored(past, e.key).value, e.b))
    && (e.Renewed? && !Doubtful(past, e.key) ==>
          LastStored(past, e.key).Some? &&
          (LastStored(past, e.key).value.body == e.b.body || Collide(digest, LastStored(past, e.key).value.body, e.b.body)))
  }

  ghost predicate AllExplained(digest: seq<Byte> -> nat, events: seq<Event>) {
    forall i {:trigger events[i]} :: 0 <= i < |events| ==> Explained(digest, events[..i], events[i])
  }

  predicate Matches(call: Call, e: Event) {
    match call
    case PutCall(key, b, _, _, _, _, _) => e == Nothing || e == Stored(key, b) || e == Renewed(key, b)
    case GetCall(key, _, _) => e == Nothing || (e.Read? && e.key == key)
    case WriteCall(outcome) => e == Nothing || if outcome.Unopened? then e.Unwritten? else e.Rewritten?
    case DoneCall(_, _, saving) => e == Nothing || (e == IndexWritten && !saving.NotOpened?)
    case PruneCall(_, _, saving) => e == if saving.NotOpened? then Nothing else IndexWritten
    case SaveCall(_, saving) => e == if saving.NotOpened? then Nothing else IndexWritten
    case RestartCall(_, saving) => e.Restarted? && e.written == !saving.NotOpened?
    case CrashCall(_, _) => e.Restarted? && !e.written
    case _ => e == Nothing
  }

  // The cache's own account of what was stored.
  datatype Account = Account(last: map<nat, Buf>, stale: set<nat>, loose: set<nat>, unsaved: set<nat>)

  ghost function AccountOf(c: Cache): Account
    reads c
  {
    Account(c.last, c.stale, c.loose, c.unsaved)
  }

  // It agrees with the events.
  ghost predicate Tracks(a: Account, past: seq<Event>) {
    forall key: nat {:trigger TracksAt(a, past, key)} :: TracksAt(a, past, key)
  }

  ghost predicate TracksAt(a: Account, past: seq<Event>, key: nat) {
    && LastAt(a.last, key) == LastStored(past, key) && (key in a.stale <==> LeftBehind(past, key))
    && (key in a.loose <==> Doubtful(past, key)) && (key in a.unsaved <==> Unindexed(past, key))
  }

  // What an event does to it.
  function After(a: Account, e: Event): Account {
    match e
    case Stored(key, b) => Account(a.last[key := b], a.stale, a.loose - {key}, a.unsaved + {key})
    case Rewritten(key) => a.(stale := a.stale - {key})
    case Unwritten(key) => a.(stale := a.stale + {key})
    case IndexWritten => a.(unsaved := {})
    case Restarted(lost, written) => Account(a.last, a.stale + lost, if written then a.loose else a.loose + a.unsaved, {})
    case _ => a
  }

  lemma TrackedAt(a: Account, past: seq<Event>, key: nat)
    requires Tracks(a, past)
    ensures TracksAt(a, past, key)
  {
  }

  lemma TracksOn(a: Account, past: seq<Event>, e: Event)
    requires Tracks(a, past)
    ensures Tracks(After(a, e), past + [e])
  {
    forall key: nat
      ensures TracksAt(After(a, e), past + [e], key)
    {
      assert TracksAt(a, past, key);
      assert (past + [e])[..|past|] == past;
    }
  }

  method PutStep(c: Cache, call: Call, ghost past: seq<Event>) returns (e: Event)
    requires c.Valid() && Tracks(AccountOf(c), past) && call.PutCall? && Legal(c.digest, call)
    modifies c
    ensures c.Valid() && Tracks(AccountOf(c), past + [e]) && Matches(call, e) && Explained(c.digest, past, e)
  {
    hide Consistent, LastStored, LeftBehind, Doubtful, Unindexed, Tracks, TableSize, LoadTable, Written, Find, LastQueued;
    TrackedAt(AccountOf(c), past, call.key);
    var key, b := call.key, call.b;
    var stored := c.Put(key, b, call.now, call.maxage, call.etag, call.modtime, call.flags);
    if c.state != Running {
      e := Nothing;
    } else if stored {
      e := Renewed(key, b);
    } else {
      e := Stored(key, b);
    }
    TracksOn(old(AccountOf(c)), past, e);
  }

  method GetStep(c: Cache, call: Call, ghost past: seq<Event>) returns (e: Event)
    requires c.Valid() && Tracks(AccountOf(c), past) && call.GetCall? && Legal(c.digest, call)
    modifies c
    ensures c.Valid() && Tracks(AccountOf(c), past + [e]) && Matches(call, e) && Explained(c.digest, past, e)
  {
    hide Consistent, LastStored, LeftBehind, Doubtful, Unindexed, Tracks, TableSize, LoadTable, Written, LastQueued, Find, SameContent;
    TrackedAt(AccountOf(c), past, call.key);
    var hit := c.Get(call.key, call.now, call.ignoreExpiry);
    e := if hit.Some? then Read(call.key, hit.value.buf) else Nothing;
    TracksOn(old(AccountOf(c)), past, e);
  }

  // The flush thread's turn on the file, if there is one to take.
  method WriteStep(c: Cache, call: Call, ghost past: seq<Event>) returns (e: Event)
    requires c.Valid() && Tracks(AccountOf(c), past) && call.WriteCall?
    modifies c
    ensures c.Valid() && Tracks(AccountOf(c), past + [e]) && Matches(call, e) && Explained(c.digest, past, e)
  {
    hide Consistent, LastStored, LeftBehind, Doubtful, Unindexed, TracksAt, Tracks, TableSize, LoadTable, Written;
    e := Nothing;
    if c.queue != [] && !c.written {
      var key := c.queue[0].key;
      c.FlushWrite(call.outcome);
      e := if call.outcome.Unopened? then Unwritten(key) else Rewritten(key);
    }
    TracksOn(old(AccountOf(c)), past, e);
  }

  // The calls that may write the index.
  method SaveStep(c: Cache, call: Call, ghost past: seq<Event>) returns (e: Event)
    requires c.Valid() && Tracks(AccountOf(c), past) && Legal(c.digest, call)
    requires call.DoneCall? || call.PruneCall? || call.SaveCall?
    modifies c
    ensures c.Valid() && Tracks(AccountOf(c), past + [e]) && Matches(call, e) && Explained(c.digest, past, e)
  {
    hide Consistent, LastStored, LeftBehind, Doubtful, Unindexed, TracksAt, Tracks, TableSize, LoadTable, Written, Find, FileBytes, FindIn;
    e := if call.saving.NotOpened? then Nothing else IndexWritten;
    match call {
      case DoneCall(maxsize, now, saving) =>
        if c.queue == [] || !c.written || c.size <= maxsize { e := Nothing; }
        if c.queue != [] && c.written { c.FlushDone(maxsize, now, saving); }
      case PruneCall(maxsize, now, saving) => var _ := c.PruneToSize(maxsize, now, saving);
      case SaveCall(now, saving) => c.SaveIndex(now, saving);
    }
    TracksOn(old(AccountOf(c)), past, e);
  }

  // The calls that say nothing about bodies.
  method OtherStep(c: Cache, call: Call, ghost past: seq<Event>)
    requires c.Valid() && Tracks(AccountOf(c), past) && (call.EvictCall? || call.ClockCall?)
    modifies c
    ensures c.Valid() && Tracks(AccountOf(c), past + [Nothing])
  {
    hide Consistent, LastStored, LeftBehind, Doubtful, Unindexed, TracksAt, Tracks, TableSize, LoadTable, Written, Find;
    match call {
      case EvictCall(key) => c.Evict(key);
      case ClockCall(now) => c.CheckClock(now);
    }
    TracksOn(old(AccountOf(c)), past, Nothing);
  }

  // Another cache starts from the index and the files that are there.
  method StartAgain(c: Cache, disk: Disk) returns (d: Cache)
    requires c.Valid() && forall k: nat {:trigger Survives(c.queue, c.disk, disk, k)} :: Survives(c.queue, c.disk, disk, k)
    ensures fresh(d) && d.Valid() && d.digest == c.digest && d.sha == c.sha
    ensures AccountOf(d) == Account(c.last, c.stale + QueuedKeys(c.queue), c.loose + c.unsaved, {})
    ensures d.hash == LoadTable(c.index, c.sha) && d.disk == disk && d.queue == [] && d.state == BadClock && !d.written
  {
    hide Consistent, TableSize, LoadTable, Written, QueuedKeys, Survives;
    QueueLost(c.digest, LoadTable(c.index, c.sha), c.last, c.queue, c.disk, disk, c.stale, c.loose + c.unsaved);
    d := new Cache(c.digest, c.sha, disk, c.index, c.last, c.stale + QueuedKeys(c.queue), c.loose + c.unsaved);
  }

  // The cache is stopped and tries to save its index; another one starts from what is there.
  method RestartStep(c: Cache, call: Call, ghost past: seq<Event>) returns (d: Cache, e: Event)
    requires c.Valid() && Tracks(AccountOf(c), past) && call.RestartCall? && Legal(c.digest, call)
    modifies c
    ensures fresh(d) && d.Valid() && d.digest == c.digest
    ensures Tracks(AccountOf(d), past + [e]) && Matches(call, e) && Explained(c.digest, past, e)
  {
    hide Consistent, LastStored, LeftBehind, Doubtful, Unindexed, TracksAt, Tracks, TableSize, LoadTable, Written, FileBytes, QueuedKeys;
    e := Restarted(QueuedKeys(c.queue), !call.saving.NotOpened?);
    TracksOn(AccountOf(c), past, e);
    c.Stop();
    c.SaveIndex(call.now, call.saving);
    d := StartAgain(c, c.disk);
    assert c.loose + {} == c.loose;
  }

  // The cache goes down with nothing more written than a part of a file.
  method CrashStep(c: Cache, call: Call, ghost past: seq<Event>) returns (d: Cache, e: Event)
    requires c.Valid() && Tracks(AccountOf(c), past) && call.CrashCall?
    ensures fresh(d) && d.Valid() && d.digest == c.digest
    ensures Tracks(AccountOf(d), past + [e]) && Matches(call, e) && Explained(c.digest, past, e)
  {
    hide Consistent, LastStored, LeftBehind, Doubtful, Unindexed, TracksAt, Tracks, TableSize, LoadTable, Written, FileOf;
    e := Restarted(QueuedKeys(c.queue), false);
    TracksOn(AccountOf(c), past, e);
    var disk := c.disk - call.gone;
    if c.queue != [] && !c.written {
      var f := c.queue[0];
      disk := disk[f.key := if call.part < |FileOf(f.buf)| then FileOf(f.buf)[..call.part] else FileOf(f.buf)];
    }
    d := StartAgain(c, disk);
  }

  method Step(c: Cache, call: Call, ghost past: seq<Event>) returns (d: Cache, e: Event)
    requires c.Valid() && Tracks(AccountOf(c), past) && Legal(c.digest, call)
    modifies c
    ensures d == c || fresh(d)
    ensures d.Valid() && Tracks(AccountOf(d), past + [e]) && Matches(call, e) && Explained(c.digest, past, e) && d.digest == c.digest
  {
    hide Consistent, LastStored, LeftBehind, Doubtful, Unindexed, TracksAt, Tracks, TableSize, LoadTable, Written;
    d, e := c, Nothing;
    match call {
      case PutCall(_, _, _, _, _, _, _) => e := PutStep(c, call, past);
      case GetCall(_, _, _) => e := GetStep(c, call, past);
      case WriteCall(_) => e := WriteStep(c, call, past);
      case EvictCall(_) => OtherStep(c, call, past);
      case ClockCall(_) => OtherStep(c, call, past);
      case RestartCall(_, _) => d, e := RestartStep(c, call, past);
      case CrashCall(_, _) => d, e := CrashStep(c, call, past);
      case _ => e := SaveStep(c, call, past);
    }
  }

  // In every life of a cache, from an empty index over any files, whatever is read is
  // explained by what was stored before.
  method Run(digest: seq<Byte> -> nat, sha: seq<Byte> -> seq<Byte>, disk: Disk, calls: seq<Call>) returns (events: seq<Event>)
    requires forall s {:trigger sha(s)} :: |sha(s)| == DIGEST
    requires forall i :: 0 <= i < |calls| ==> Legal(digest, calls[i])
    ensures |events| == |calls| && forall i :: 0 <= i < |calls| ==> Matches(calls[i], events[i])
    ensures AllExplained(digest, events)
  {
    hide Consistent, TableSize, LoadFile, Written, Legal, Matches, Explained;
    assert LoadTable([], sha) == EmptyTable() by { NoFile(sha); }
    EmptyKeeps(digest, map[], [], disk, {}, {});
    var c := new Cache(digest, sha, disk, [], map[], {}, {});
    events := [];
    for i := 0 to |calls|
      invariant |events| == i && fresh(c) && c.Valid() && c.digest == digest && Tracks(AccountOf(c), events)
      invariant forall j :: 0 <= j < i ==> Matches(calls[j], events[j])
      invariant AllExplained(digest, events)
    {
      var e;
      c, e := Step(c, calls[i], events);
      Extended(digest, events, e);
      events := events + [e];
    }
  }

  lemma NoFile(sha: seq<Byte> -> seq<Byte>)
    ensures LoadTable([], sha) == EmptyTable()
  {
  }

  lemma Extended(digest: seq<Byte> -> nat, events: seq<Event>, e: Event)
    requires AllExplained(digest, events) && Explained(digest, events, e)
    ensures AllExplained(digest, events + [e])
  {
    hide Explained;
    var more := events + [e];
    forall i | 0 <= i < |more|
      ensures Explained(digest, more[..i], more[i])
    {
      if i < |events| { assert more[..i] == events[..i] && more[i] == events[i]; } else { assert more[..i] == events; }
    }
  }

  // ----- Runs that go wrong -----

  // Nothing is known of any key but 0.
  ghost predicate OnlyZero(t: Table)
    requires |t| == ITEM_HASH_SIZE
  {
    forall k: nat {:trigger Find(t, k)} :: k != 0 ==> Find(t, k) == None
  }

  // A new body is put under key 0 and its write dealt with.
  method PutFlushed(c: Cache, b: Buf, outcome: Outcome)
    requires c.Valid() && c.state == Running && c.queue == [] && !c.written && OnlyZero(c.hash)
    requires c.digest(b.body) < 0x1_0000_0000_0000_0000 && !c.Holding(Find(c.hash, 0), b)
    modifies c
    ensures c.Valid() && c.queue == [] && !c.written && c.state == Running && c.dirty && c.index == old(c.index) && OnlyZero(c.hash)
    ensures 0 in c.last && c.last[0] == b && c.disk == AfterWrite(Flush(0, b), old(c.disk), outcome)
    ensures Find(c.hash, 0).Some? && Find(c.hash, 0).value.content == c.digest(b.body)
    ensures Find(c.hash, 0).value.size == Word(|b.body|) && Find(c.hash, 0).value.typeLen == |TypeBytes(b)| % 256
  {
    hide Consistent, TableSize, LoadTable, Written, Find, AfterWrite, FileBytes, FindIn;
    var stored := c.Put(0, b, GOOD_CLOCK, 60, None, 0, 0);
    c.FlushWrite(outcome);
    c.FlushDone(if c.size > 0 then c.size else 0, 0, NotOpened);
  }

  method NewCache(digest: seq<Byte> -> nat, sha: seq<Byte> -> seq<Byte>) returns (c: Cache)
    requires forall s {:trigger sha(s)} :: |sha(s)| == DIGEST
    ensures fresh(c) && c.Valid() && c.digest == digest && c.sha == sha && c.state == Running && c.queue == [] && !c.written
    ensures c.hash == EmptyTable() && OnlyZero(c.hash) && Find(c.hash, 0) == None && c.disk == map[]
  {
    hide Consistent, TableSize, LoadTable, LoadFile, Written, Find, Hashed;
    NoFile(sha);
    EmptyKeeps(digest, map[], [], map[], {}, {});
    c := new Cache(digest, sha, map[], [], map[], {}, {});
    c.CheckClock(GOOD_CLOCK);
    forall k: nat
      ensures Find(c.hash, k) == None
    {
      EmptyFinds(k);
    }
  }

  // What was put last need not be what is read: a second body of the length of the first is
  // put, its file cannot be opened, and the first one comes back.
  method OldBody(digest: seq<Byte> -> nat, sha: seq<Byte> -> seq<Byte>) returns (hit: Option<Hit>, c: Cache)
    requires forall s {:trigger sha(s)} :: |sha(s)| == DIGEST
    requires digest([1]) != digest([2]) && digest([1]) < 0x1_0000_0000_0000_0000 && digest([2]) < 0x1_0000_0000_0000_0000
    ensures hit.Some? && hit.value.buf.body == [1] && 0 in c.last && c.last[0].body == [2]
  {
    hide Consistent, TableSize, LoadTable, LoadFile, Written, FileBytes, Find, Hashed;
    c := NewCache(digest, sha);
    PutFlushed(c, Buf([1], None), Whole);
    PutFlushed(c, Buf([2], None), Unopened);
    assert c.disk[0] == [1];
    hit := c.Get(0, GOOD_CLOCK, true);
  }

  // The index is saved with a first body under key 0, and not again with a second one.
  method IndexBehind(digest: seq<Byte> -> nat, sha: seq<Byte> -> seq<Byte>) returns (c: Cache)
    requires forall s {:trigger sha(s)} :: |sha(s)| == DIGEST
    requires digest([1]) != digest([2]) && digest([1]) < 0x1_0000_0000_0000_0000 && digest([2]) < 0x1_0000_0000_0000_0000
    ensures fresh(c) && c.Valid() && c.digest == digest && c.sha == sha && c.state == Running && c.queue == [] && 0 in c.disk && c.disk[0] == [2]
    ensures var item := Find(LoadTable(c.index, sha), 0);
      item.Some? && item.value.content == digest([1]) && item.value.size == 1 && item.value.typeLen == 0
  {
    hide Consistent, TableSize, LoadTable, LoadFile, Written, FileBytes, Find, Hashed, Items, Fits, AllFit;
    c := NewCache(digest, sha);
    PutFlushed(c, Buf([1], None), Whole);
    c.SaveIndex(GOOD_CLOCK, Saved);
    Facts(c.digest, c.hash, c.last, c.queue, c.disk, c.stale, c.loose);
    SavedZero(c.hash, GOOD_CLOCK, sha);
    PutFlushed(c, Buf([2], None), Whole);
    assert c.disk[0] == [2];
  }

  // Nor need a body that the cache says it has be what is read: it stops and cannot save its
  // index; started again it takes the first body for there already, and gives the second.
  method OldIndex(digest: seq<Byte> -> nat, sha: seq<Byte> -> seq<Byte>) returns (stored: bool, hit: Option<Hit>)
    requires forall s {:trigger sha(s)} :: |sha(s)| == DIGEST
    requires digest([1]) != digest([2]) && digest([1]) < 0x1_0000_0000_0000_0000 && digest([2]) < 0x1_0000_0000_0000_0000
    ensures stored && hit.Some? && hit.value.buf.body == [2]
  {
    hide Consistent, TableSize, LoadTable, LoadFile, Written, FileBytes, Find, Hashed, Survives, Items;
    var c := IndexBehind(digest, sha);
    c.Stop();
    c.SaveIndex(GOOD_CLOCK, NotOpened);
    AllSurvive(c.queue, c.disk);
    var d := StartAgain(c, c.disk);
    d.CheckClock(GOOD_CLOCK);
    stored := d.Put(0, Buf([1], None), GOOD_CLOCK, 60, None, 0, 0);
    hit := d.Get(0, GOOD_CLOCK, true);
  }

  lemma AllSurvive(queue: seq<Flush>, disk: Disk)
    ensures forall k: nat {:trigger Survives(queue, disk, disk, k)} :: Survives(queue, disk, disk, k)
  {
  }

  // The only item of a table comes back from its index.
  lemma SavedZero(t: Table, now: nat, sha: seq<Byte> -> seq<Byte>)
    requires Hashed(t) && AllFit(Items(t)) && OnlyZero(t) && Find(t, 0).Some? && now < SIZE_MOD
    requires forall s {:trigger sha(s)} :: |sha(s)| == DIGEST
    ensures Find(LoadTable(FileBytes(Items(t), now, sha), sha), 0) == Some(Loaded(Find(t, 0).value))
  {
    hide Find, FindIn, Hashed, LoadTable, FileBytes, AllFit, Unique;
    OneItem(t);
    IndexRoundTrip(t, now, sha, 0);
  }

  lemma OneItem(t: Table)
    requires Hashed(t) && OnlyZero(t)
    ensures |Items(t)| <= 1
  {
    hide Find, FindIn, Hashed, Items;
    var items := Items(t);
    assert t[0..] == t;
    ItemsUnique(t, 0);
    assert Unique(items);
    if |items| > 1 {
      FoundAt(items, 0);
      FoundAt(items, 1);
      ItemsFind(t, 0, items[0].key);
      ItemsFind(t, 0, items[1].key);
      assert false;
    }
  }
}
