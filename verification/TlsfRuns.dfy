// Whole runs: a pool in the hands of a caller who may allocate, resize, write and free in any
// order, and who finds in each block what was written there.
module TlsfRuns {
  import opened TlsfMapping
  import opened TlsfSizes
  import opened TlsfLayout
  import opened TlsfTags
  import opened TlsfChains
  import opened TlsfKeep
  import opened TlsfRows
  import opened TlsfSteps
  import opened TlsfCopy
  import opened TlsfPool

  // Freeing, resizing and writing name a live pointer by its place; a place past the end is a
  // null pointer.
  datatype Call =
    | CallMalloc(size: nat)
    | CallMemalign(align: nat, size: nat)
    | CallFree(place: nat)
    | CallRealloc(place: nat, size: nat)
    | CallStore(place: nat, offset: nat, value: nat)

  // What the allocator asks of sizes: they do not round past the top class.
  ghost predicate Legal(call: Call) {
    match call
    case CallMalloc(size) => Rounded(Adjusted(size, ALIGN_SIZE)) < BLOCK_SIZE_MAX
    case CallMemalign(align, size) =>
      && align > 0 && PowerOfTwo(align) && (Adjusted(size, ALIGN_SIZE) != 0 || align <= ALIGN_SIZE)
      && Rounded(AlignedRequest(align, size)) < BLOCK_SIZE_MAX
    case CallRealloc(_, size) => size < BLOCK_SIZE_MAX && Rounded(Adjusted(size, ALIGN_SIZE)) < BLOCK_SIZE_MAX
    case _ => true
  }

  // ----- What the user knows: the live pointers, and the bytes written behind each -----

  datatype User = User(live: seq<nat>, kept: seq<map<nat, nat>>)

  predicate Paired(u: User) { |u.kept| == |u.live| }

  function Added(u: User, p: nat): User { User(u.live + [p], u.kept + [map[]]) }

  function Dropped(u: User, i: nat): (v: User)
    requires i < |u.live| && Paired(u)
    ensures Paired(v)
  {
    User(WithoutPlace(u.live, i), u.kept[..i] + u.kept[i + 1..])
  }

  function First(bytes: map<nat, nat>, n: nat): map<nat, nat> {
    map o | o in bytes && o < n :: bytes[o]
  }

  function BytesAt(offset: nat): (s: set<nat>)
    ensures forall o: nat :: o in s <==> offset <= o < offset + 8
  {
    {offset, offset + 1, offset + 2, offset + 3, offset + 4, offset + 5, offset + 6, offset + 7}
  }

  // A word written at an offset, as bytes.
  function Overlaid(bytes: map<nat, nat>, offset: nat, value: nat): map<nat, nat> {
    map o: nat | o in bytes.Keys + BytesAt(offset) ::
      if offset <= o < offset + 8 then Byte(value, o - offset) else bytes[o]
  }

  // What a call and its reply tell the user: a pointer or null, and 1 for a write inside a block.
  function AfterCall(u: User, call: Call, reply: nat): (v: User)
    requires Paired(u)
    ensures Paired(v)
  {
    match call
    case CallMalloc(_) => if reply != 0 then Added(u, reply) else u
    case CallMemalign(_, _) => if reply != 0 then Added(u, reply) else u
    case CallFree(place) => if place < |u.live| then Dropped(u, place) else u
    case CallRealloc(place, size) =>
      if place >= |u.live| then (if reply != 0 then Added(u, reply) else u)
      else if size == 0 then Dropped(u, place)
      else if reply != 0 then User(u.live[place := reply], u.kept[place := First(u.kept[place], size)])
      else u
    case CallStore(place, offset, value) =>
      if place < |u.live| && reply != 0 then u.(kept := u.kept[place := Overlaid(u.kept[place], offset, value)]) else u
  }

  function Replayed(calls: seq<Call>, replies: seq<nat>): (u: User)
    requires |replies| == |calls|
    ensures Paired(u)
  {
    if calls == [] then User([], [])
    else
      var n := |calls| - 1;
      AfterCall(Replayed(calls[..n], replies[..n]), calls[n], replies[n])
  }

  lemma ReplayedNext(calls: seq<Call>, replies: seq<nat>, i: nat, reply: nat)
    requires i < |calls| && |replies| == i
    ensures Replayed(calls[..i + 1], replies + [reply]) == AfterCall(Replayed(calls[..i], replies), calls[i], reply)
  {
    hide AfterCall;
    assert calls[..i + 1][..i] == calls[..i] && (replies + [reply])[..i] == replies;
  }

  // The block behind p holds the bytes.
  ghost predicate HoldsBytes(m: Mem, row: Row, p: nat, bytes: map<nat, nat>) {
    && p >= START && InUse(row, p - START) && p % 8 == 0
    && forall o {:trigger bytes[o]} :: o in bytes ==> o < row.bs[p - START].size && ByteAt(m, p + o) == bytes[o]
  }

  ghost predicate Remembers(m: Mem, row: Row, u: User) {
    && Paired(u)
    && forall i: nat {:trigger HoldsBytes(m, row, u.live[i], u.kept[i])} :: i < |u.live| ==> HoldsBytes(m, row, u.live[i], u.kept[i])
  }

  // The live pointers are those of the blocks in use, each once.
  ghost predicate Holds(row: Row, live: seq<nat>) {
    && (forall i: nat {:trigger live[i]} :: i < |live| ==> live[i] >= START && InUse(row, live[i] - START))
    && (forall b: nat {:trigger InUse(row, b)} :: InUse(row, b) ==> b + START in live)
    && NoDup(live)
  }

  function WithoutPlace(live: seq<nat>, i: nat): seq<nat>
    requires i < |live|
  {
    Cut(live, i)
  }

  lemma NotTwice(live: seq<nat>, i: nat, j: nat)
    requires NoDup(live) && i < |live| && j < |live| && i != j
    ensures live[i] != live[j]
  {
  }

  lemma CutNoDup(live: seq<nat>, i: nat)
    requires NoDup(live) && i < |live|
    ensures NoDup(WithoutPlace(live, i))
  {
  }

  lemma UpdateNoDup(live: seq<nat>, i: nat, q: nat)
    requires NoDup(live) && i < |live|
    requires forall j: nat :: j < |live| && j != i ==> live[j] != q
    ensures NoDup(live[i := q])
  {
  }

  lemma HoldsGranted(row: Row, after: Row, live: seq<nat>, p: nat)
    requires Holds(row, live) && p >= START && !InUse(row, p - START) && InUse(after, p - START)
    requires SameUsers(row, after, {p - START})
    ensures Holds(after, live + [p])
  {
    hide InUse;
    var more := live + [p];
    forall i: nat | i < |more|
      ensures more[i] >= START && InUse(after, more[i] - START)
    {
      if i < |live| {
        assert InUse(row, live[i] - START);
        assert live[i] != p;
        assert UsedSame(row, after, live[i] - START);
      }
    }
    forall b: nat | InUse(after, b)
      ensures b + START in more
    {
      assert UsedSame(row, after, b) || b == p - START;
      if b != p - START {
        assert b + START in live;
      } else {
        assert more[|live|] == b + START;
      }
    }
  }

  lemma HoldsFreed(row: Row, after: Row, live: seq<nat>, i: nat)
    requires Holds(row, live) && i < |live| && !InUse(after, live[i] - START)
    requires SameUsers(row, after, {live[i] - START})
    ensures Holds(after, WithoutPlace(live, i))
  {
    hide InUse, NoDup, Position;
    CutNoDup(live, i);
    var less := WithoutPlace(live, i);
    forall j: nat | j < |less|
      ensures less[j] >= START && InUse(after, less[j] - START)
    {
      var k := if j < i then j else j + 1;
      NotTwice(live, i, k);
      assert less[j] == live[k];
      assert UsedSame(row, after, live[k] - START);
    }
    forall b: nat | InUse(after, b)
      ensures b + START in less
    {
      assert UsedSame(row, after, b);
      assert b + START in live;
      var k := Position(live, b + START);
      if k < i { assert less[k] == b + START; } else { assert less[k - 1] == b + START; }
    }
  }

  lemma HoldsMoved(row: Row, after: Row, live: seq<nat>, i: nat, q: nat)
    requires Holds(row, live) && i < |live| && q >= START && InUse(after, q - START)
    requires q != live[i] ==> !InUse(after, live[i] - START) && !InUse(row, q - START)
    requires SameUsers(row, after, {live[i] - START, q - START})
    ensures Holds(after, live[i := q])
  {
    hide InUse, NoDup, Position;
    var now := live[i := q];
    forall j: nat | j < |now|
      ensures now[j] >= START && InUse(after, now[j] - START)
    {
      if j != i {
        assert InUse(row, live[j] - START);
        NotTwice(live, i, j);
        assert live[j] != q;
        assert UsedSame(row, after, live[j] - START);
      }
    }
    forall b: nat | InUse(after, b)
      ensures b + START in now
    {
      if b == q - START {
        assert now[i] == b + START;
      } else {
        assert b != live[i] - START;
        assert UsedSame(row, after, b);
        assert b + START in live;
        var k := Position(live, b + START);
        assert now[k] == b + START;
      }
    }
    forall j: nat | j < |live| && j != i
      ensures live[j] != q
    {
      assert InUse(row, live[j] - START);
      NotTwice(live, i, j);
    }
    UpdateNoDup(live, i, q);
  }

  // ----- Bytes that stay -----

  // A byte of a payload is in a word of the payload.
  lemma ByteInside(p: nat, o: nat, size: nat)
    requires p % 8 == 0 && o < size
    ensures p <= p + o - (p + o) % 8 <= p + o
  {
  }

  lemma Unmoved(m: Mem, row: Row, after: Mem, rowAfter: Row, e: set<nat>, p: nat, bytes: map<nat, nat>)
    requires Isolated(m, row, after, rowAfter, e) && HoldsBytes(m, row, p, bytes) && p - START !in e
    ensures HoldsBytes(after, rowAfter, p, bytes)
  {
    hide Byte, Rd;
    var b := p - START;
    assert UsedSame(row, rowAfter, b) && KeptAt(m, after, row.bs, b);
    forall o | o in bytes
      ensures o < rowAfter.bs[b].size && ByteAt(after, p + o) == bytes[o]
    {
      assert bytes[o] == ByteAt(m, p + o);
      ByteInside(p, o, row.bs[b].size);
      assert Inner(row.bs, b, p + o - (p + o) % 8);
    }
  }

  lemma AddedRemembers(m: Mem, row: Row, after: Mem, rowAfter: Row, u: User, p: nat)
    requires Remembers(m, row, u) && p >= START && p % 8 == 0 && !InUse(row, p - START) && InUse(rowAfter, p - START)
    requires Isolated(m, row, after, rowAfter, {p - START})
    ensures Remembers(after, rowAfter, Added(u, p))
  {
    hide InUse, Isolated, HoldsBytes;
    var v := Added(u, p);
    forall i: nat | i < |v.live|
      ensures HoldsBytes(after, rowAfter, v.live[i], v.kept[i])
    {
      if i < |u.live| {
        assert HoldsBytes(m, row, u.live[i], u.kept[i]);
        InUseThere(m, row, u.live[i], u.kept[i]);
        Unmoved(m, row, after, rowAfter, {p - START}, u.live[i], u.kept[i]);
      } else {
        NoBytes(after, rowAfter, p);
      }
    }
  }

  lemma InUseThere(m: Mem, row: Row, p: nat, bytes: map<nat, nat>)
    requires HoldsBytes(m, row, p, bytes)
    ensures p >= START && InUse(row, p - START) && p % 8 == 0
  {
  }

  lemma NoBytes(m: Mem, row: Row, p: nat)
    requires p >= START && p % 8 == 0 && InUse(row, p - START)
    ensures HoldsBytes(m, row, p, map[])
  {
  }

  lemma DroppedRemembers(m: Mem, row: Row, after: Mem, rowAfter: Row, u: User, i: nat)
    requires Remembers(m, row, u) && i < |u.live| && NoDup(u.live) && u.live[i] >= START
    requires Isolated(m, row, after, rowAfter, {u.live[i] - START})
    ensures Remembers(after, rowAfter, Dropped(u, i))
  {
    hide InUse, Isolated, HoldsBytes, NoDup;
    var v := Dropped(u, i);
    forall j: nat | j < |v.live|
      ensures HoldsBytes(after, rowAfter, v.live[j], v.kept[j])
    {
      var k := if j < i then j else j + 1;
      assert v.live[j] == u.live[k] && v.kept[j] == u.kept[k];
      NotTwice(u.live, i, k);
      assert HoldsBytes(m, row, u.live[k], u.kept[k]);
      InUseThere(m, row, u.live[k], u.kept[k]);
      Unmoved(m, row, after, rowAfter, {u.live[i] - START}, u.live[k], u.kept[k]);
    }
  }

  // One block's bytes change, and maybe its place.
  lemma ChangedRemembers(m: Mem, row: Row, after: Mem, rowAfter: Row, u: User, i: nat, q: nat, bytes: map<nat, nat>)
    requires Remembers(m, row, u) && i < |u.live| && NoDup(u.live) && u.live[i] >= START && q >= START
    requires q != u.live[i] ==> !InUse(row, q - START)
    requires Isolated(m, row, after, rowAfter, {u.live[i] - START, q - START}) && HoldsBytes(after, rowAfter, q, bytes)
    ensures Remembers(after, rowAfter, User(u.live[i := q], u.kept[i := bytes]))
  {
    hide InUse, Isolated, HoldsBytes, NoDup;
    var v := User(u.live[i := q], u.kept[i := bytes]);
    forall j: nat | j < |v.live|
      ensures HoldsBytes(after, rowAfter, v.live[j], v.kept[j])
    {
      if j != i {
        NotTwice(u.live, i, j);
        assert HoldsBytes(m, row, u.live[j], u.kept[j]);
        InUseThere(m, row, u.live[j], u.kept[j]);
        Unmoved(m, row, after, rowAfter, {u.live[i] - START, q - START}, u.live[j], u.kept[j]);
      }
    }
  }

  // What a resized block still holds.
  lemma ResizedBytes(m: Mem, row: Row, after: Mem, rowAfter: Row, p: nat, q: nat, bytes: map<nat, nat>, size: nat)
    requires HoldsBytes(m, row, p, bytes) && q >= START && q % 8 == 0 && InUse(rowAfter, q - START)
    requires rowAfter.bs[q - START].size >= size && BytesKept(m, after, p, q, Shorter(row.bs[p - START].size, size))
    ensures HoldsBytes(after, rowAfter, q, First(bytes, size))
  {
    hide ByteAt;
    var some: map<nat, nat> := First(bytes, size);
    forall o | o in some
      ensures o < rowAfter.bs[q - START].size && ByteAt(after, q + o) == some[o]
    {
      assert some[o] == bytes[o] == ByteAt(m, p + o);
      assert SameByte(m, after, p, q, o);
    }
  }

  // What a block holds after a word was written.
  lemma WrittenBytes(m: Mem, row: Row, p: nat, bytes: map<nat, nat>, offset: nat, value: nat)
    requires HoldsBytes(m, row, p, bytes) && offset % 8 == 0 && offset + 8 <= row.bs[p - START].size
    ensures HoldsBytes(m[p + offset := value], row, p, Overlaid(bytes, offset, value))
  {
    hide Byte, ByteAt, Overlaid;
    var after, now: map<nat, nat> := m[p + offset := value], Overlaid(bytes, offset, value);
    forall o | o in now
      ensures o < row.bs[p - START].size && ByteAt(after, p + o) == now[o]
    {
      OverlaidAt(bytes, offset, value, o);
      if offset <= o < offset + 8 {
        WrittenByte(m, p + offset, value, o - offset);
        assert p + offset + (o - offset) == p + o;
      } else {
        assert bytes[o] == ByteAt(m, p + o);
        SourceStays(m, p + offset, value, p + o);
      }
    }
  }

  lemma OverlaidAt(bytes: map<nat, nat>, offset: nat, value: nat, o: nat)
    requires o in Overlaid(bytes, offset, value)
    ensures !(offset <= o < offset + 8) ==> o in bytes
    ensures Overlaid(bytes, offset, value)[o] == if offset <= o < offset + 8 then Byte(value, o - offset) else bytes[o]
  {
  }

  lemma WrittenByte(m: Mem, w: nat, value: nat, j: nat)
    requires w % 8 == 0 && j < 8
    ensures ByteAt(m[w := value], w + j) == Byte(value, j)
  {
    hide Byte;
    WordOf(w, j);
  }

  // Every run of legal calls on a fresh pool: after each call the invariant holds and
  // tlsf_check_heap returns 0, the pointers handed out are those of the blocks in use, and in
  // each block are the bytes that the user wrote and did not cut off.
  method RunCalls(pool: Pool, calls: seq<Call>) returns (replies: seq<nat>, statuses: seq<int>)
    requires pool.Valid() && Holds(pool.row, [])
    requires forall i :: 0 <= i < |calls| ==> Legal(calls[i])
    modifies pool
    ensures pool.Valid() && |replies| == |calls|
    ensures Holds(pool.row, Replayed(calls, replies).live) && Remembers(pool.mem, pool.row, Replayed(calls, replies))
    ensures |statuses| == |calls| && forall i :: 0 <= i < |statuses| ==> statuses[i] == 0
    ensures pool.row.first == old(pool.row.first) && pool.row.last == old(pool.row.last)
  {
    hide Tiled, Tagged, Coalesced, UsedBytes, InUse, Holds, Remembers, Adjusted, Rounded, SameUsers, AfterCall;
    replies, statuses := [], [];
    NothingKnown(pool.mem, pool.row);
    var u := User([], []);
    assert calls[..0] == [];
    for i: nat := 0 to |calls|
      invariant pool.Valid() && |replies| == i && u == Replayed(calls[..i], replies)
      invariant Holds(pool.row, u.live) && Remembers(pool.mem, pool.row, u)
      invariant |statuses| == i && forall j :: 0 <= j < |statuses| ==> statuses[j] == 0
      invariant pool.row.first == old(pool.row.first) && pool.row.last == old(pool.row.last)
    {
      var reply := OneCall(pool, calls[i], u);
      ReplayedNext(calls, replies, i, reply);
      u := AfterCall(u, calls[i], reply);
      replies := replies + [reply];
      var status := pool.CheckHeap();
      statuses := statuses + [status];
    }
    assert calls[..|calls|] == calls;
  }

  lemma NothingKnown(m: Mem, row: Row)
    ensures Remembers(m, row, User([], []))
  {
  }

  lemma PlaceInUse(row: Row, live: seq<nat>, i: nat)
    requires Holds(row, live) && i < |live|
    ensures live[i] >= START && InUse(row, live[i] - START) && NoDup(live)
  {
  }

  lemma IsolatedUsers(m: Mem, row: Row, after: Mem, rowAfter: Row, e: set<nat>)
    requires Isolated(m, row, after, rowAfter, e)
    ensures SameUsers(row, rowAfter, e) && rowAfter.first == row.first && rowAfter.last == row.last
  {
  }

  // The user's account before and after a call.
  ghost predicate Accounts(pool: Pool, u: User)
    reads pool
  {
    Holds(pool.row, u.live) && Remembers(pool.mem, pool.row, u)
  }

  lemma Allocated(m: Mem, row: Row, after: Mem, rowAfter: Row, u: User, p: nat)
    requires Holds(row, u.live) && Remembers(m, row, u)
    requires p >= START && p % 8 == 0 && !InUse(row, p - START) && InUse(rowAfter, p - START)
    requires Isolated(m, row, after, rowAfter, {p - START})
    ensures Holds(rowAfter, u.live + [p]) && Remembers(after, rowAfter, Added(u, p))
    ensures rowAfter.first == row.first && rowAfter.last == row.last
  {
    hide Holds, Remembers, Isolated, SameUsers, InUse;
    IsolatedUsers(m, row, after, rowAfter, {p - START});
    HoldsGranted(row, rowAfter, u.live, p);
    AddedRemembers(m, row, after, rowAfter, u, p);
  }

  lemma Released(m: Mem, row: Row, after: Mem, rowAfter: Row, u: User, i: nat)
    requires Holds(row, u.live) && Remembers(m, row, u) && i < |u.live| && u.live[i] >= START
    requires !InUse(rowAfter, u.live[i] - START) && Isolated(m, row, after, rowAfter, {u.live[i] - START})
    ensures Holds(rowAfter, WithoutPlace(u.live, i)) && Remembers(after, rowAfter, Dropped(u, i))
    ensures rowAfter.first == row.first && rowAfter.last == row.last
  {
    hide Holds, Remembers, Isolated, SameUsers, InUse, WithoutPlace;
    PlaceInUse(row, u.live, i);
    IsolatedUsers(m, row, after, rowAfter, {u.live[i] - START});
    HoldsFreed(row, rowAfter, u.live, i);
    DroppedRemembers(m, row, after, rowAfter, u, i);
  }

  lemma Resized(m: Mem, row: Row, after: Mem, rowAfter: Row, u: User, i: nat, q: nat, size: nat)
    requires Holds(row, u.live) && Remembers(m, row, u) && i < |u.live| && u.live[i] >= START
    requires q >= START && q % 8 == 0 && InUse(rowAfter, q - START) && InUse(row, u.live[i] - START)
    requires q != u.live[i] ==> !InUse(rowAfter, u.live[i] - START) && !InUse(row, q - START)
    requires Isolated(m, row, after, rowAfter, {u.live[i] - START, q - START})
    requires rowAfter.bs[q - START].size >= size && BytesKept(m, after, u.live[i], q, Shorter(row.bs[u.live[i] - START].size, size))
    ensures Holds(rowAfter, u.live[i := q]) && Remembers(after, rowAfter, User(u.live[i := q], u.kept[i := First(u.kept[i], size)]))
    ensures rowAfter.first == row.first && rowAfter.last == row.last
  {
    hide Holds, Isolated, SameUsers, HoldsBytes, BytesKept, First;
    PlaceInUse(row, u.live, i);
    IsolatedUsers(m, row, after, rowAfter, {u.live[i] - START, q - START});
    HoldsMoved(row, rowAfter, u.live, i, q);
    assert HoldsBytes(m, row, u.live[i], u.kept[i]);
    ResizedBytes(m, row, after, rowAfter, u.live[i], q, u.kept[i], size);
    ChangedRemembers(m, row, after, rowAfter, u, i, q, First(u.kept[i], size));
  }

  method OneCall(pool: Pool, call: Call, u: User) returns (reply: nat)
    requires pool.Valid() && Accounts(pool, u) && Legal(call)
    modifies pool
    ensures pool.Valid() && Accounts(pool, AfterCall(u, call, reply))
    ensures pool.row.first == old(pool.row.first) && pool.row.last == old(pool.row.last)
  {
    hide Tiled, Tagged, Coalesced, UsedBytes, Holds, Remembers, Adjusted, Rounded, SameUsers, Isolated, NoneLarge, CanGrow, FreedRow, PowerOfTwo, BytesKept;
    reply := 0;
    match call {
      case CallMalloc(size) =>
        reply := pool.Malloc(size);
        if reply != 0 { Allocated(old(pool.mem), old(pool.row), pool.mem, pool.row, u, reply); }
      case CallMemalign(align, size) =>
        reply := pool.Memalign(align, size);
        if reply != 0 { Allocated(old(pool.mem), old(pool.row), pool.mem, pool.row, u, reply); }
      case CallFree(place) =>
        if place < |u.live| {
          PlaceInUse(pool.row, u.live, place);
          pool.Free(u.live[place]);
          Released(old(pool.mem), old(pool.row), pool.mem, pool.row, u, place);
        } else {
          pool.Free(0);
        }
      case CallRealloc(_, _) =>
        reply := OneRealloc(pool, call, u);
      case CallStore(_, _, _) =>
        reply := OneStore(pool, call, u);
    }
  }

  method OneRealloc(pool: Pool, call: Call, u: User) returns (q: nat)
    requires pool.Valid() && Accounts(pool, u) && Legal(call) && call.CallRealloc?
    modifies pool
    ensures pool.Valid() && Accounts(pool, AfterCall(u, call, q))
    ensures pool.row.first == old(pool.row.first) && pool.row.last == old(pool.row.last)
  {
    hide Tiled, Tagged, Coalesced, UsedBytes, Holds, Remembers, Adjusted, Rounded, SameUsers, Isolated, NoneLarge, CanGrow, FreedRow, BytesKept, Stuck;
    var place, size := call.place, call.size;
    AdjustedFacts(size, ALIGN_SIZE);
    if place >= |u.live| {
      q := pool.Realloc(0, size);
      if q != 0 { Allocated(old(pool.mem), old(pool.row), pool.mem, pool.row, u, q); }
    } else {
      PlaceInUse(pool.row, u.live, place);
      q := pool.Realloc(u.live[place], size);
      if size == 0 {
        Released(old(pool.mem), old(pool.row), pool.mem, pool.row, u, place);
      } else if q != 0 {
        UsedAligned(pool.row, q - START);
        Resized(old(pool.mem), old(pool.row), pool.mem, pool.row, u, place, q, size);
      }
    }
  }

  // The user writes a word, if it lies inside the block.
  method OneStore(pool: Pool, call: Call, u: User) returns (reply: nat)
    requires pool.Valid() && Accounts(pool, u) && call.CallStore?
    modifies pool
    ensures pool.Valid() && Accounts(pool, AfterCall(u, call, reply)) && pool.row == old(pool.row)
    ensures reply != 0 <==> call.place < |u.live| && call.offset % 8 == 0 && call.offset < old(pool.row).bs[u.live[call.place] - START].size
  {
    hide Tiled, Tagged, Coalesced, UsedBytes, Holds, Remembers, SameUsers, Isolated, SizeOf;
    reply := 0;
    if call.place < |u.live| {
      var p := u.live[call.place];
      PlaceInUse(pool.row, u.live, call.place);
      var b := p - START;
      FrontSize(pool.mem, pool.row, b);
      AtBlock(pool.row, b);
      if call.offset % 8 == 0 && call.offset < BlockSize(pool.mem, b) {
        ghost var m, row := pool.mem, pool.row;
        pool.Store(b, p + call.offset, call.value);
        Overwritten(m, row, pool.mem, u, call.place, call.offset, call.value);
        reply := 1;
      }
    }
  }

  lemma Overwritten(m: Mem, row: Row, after: Mem, u: User, i: nat, offset: nat, value: nat)
    requires Holds(row, u.live) && Remembers(m, row, u) && i < |u.live| && u.live[i] >= START && InUse(row, u.live[i] - START)
    requires offset % 8 == 0 && offset + 8 <= row.bs[u.live[i] - START].size && after == m[u.live[i] + offset := value]
    requires Isolated(m, row, after, row, {u.live[i] - START})
    ensures Remembers(after, row, u.(kept := u.kept[i := Overlaid(u.kept[i], offset, value)]))
  {
    hide Holds, Isolated, SameUsers, HoldsBytes, Overlaid, InUse;
    PlaceInUse(row, u.live, i);
    assert HoldsBytes(m, row, u.live[i], u.kept[i]);
    WrittenBytes(m, row, u.live[i], u.kept[i], offset, value);
    var b := u.live[i] - START;
    assert {b, b} == {b};
    ChangedRemembers(m, row, after, row, u, i, u.live[i], Overlaid(u.kept[i], offset, value));
    assert u.live[i := u.live[i]] == u.live;
  }

  // Freeing everything, in whatever order, leaves one free block that is the whole pool.
  method FreeAll(pool: Pool, live: seq<nat>)
    requires pool.Valid() && Holds(pool.row, live)
    modifies pool
    ensures pool.Valid() && UsedBytes(pool.row) == 0
    ensures pool.row.first == old(pool.row.first) && pool.row.last == old(pool.row.last)
    ensures pool.row.bs.Keys == {pool.row.first, pool.row.last} && pool.row.bs[pool.row.first].free
    ensures pool.row.first + pool.row.bs[pool.row.first].size + OVERHEAD == pool.row.last
  {
    hide Tiled, Tagged, Coalesced, UsedBytes, UsedFrom, Holds, SameUsers, Isolated, FreedRow;
    var rest: seq<nat> := live;
    while rest != []
      invariant pool.Valid() && Holds(pool.row, rest)
      invariant pool.row.first == old(pool.row.first) && pool.row.last == old(pool.row.last)
      decreases |rest|
    {
      PlaceInUse(pool.row, rest, 0);
      ghost var m, row := pool.mem, pool.row;
      pool.Free(rest[0]);
      IsolatedUsers(m, row, pool.mem, pool.row, {rest[0] - START});
      HoldsFreed(row, pool.row, rest, 0);
      rest := WithoutPlace(rest, 0);
    }
    NobodyLeft(pool.row);
  }

  lemma NobodyLeft(row: Row)
    requires Tiled(row) && Coalesced(row) && Holds(row, [])
    ensures UsedBytes(row) == 0 && row.bs.Keys == {row.first, row.last} && row.bs[row.first].free
    ensures row.first + row.bs[row.first].size + OVERHEAD == row.last
  {
    forall b | b in row.bs && b != row.last
      ensures row.bs[b].free
    {
      assert !InUse(row, b);
    }
    CanonicalEmpty(row);
    SentinelUsed(row);
    assert UsedFrom(row, row.last) == 0;
  }

  // The whole life of a pool: whatever was done with it, when all is freed it is again one free
  // block of its size, and every heap check on the way came out clean.
  method Life(base: nat, bytes: nat, memory: Mem, calls: seq<Call>) returns (pool: Pool?, statuses: seq<int>)
    requires base % ALIGN_SIZE == 0 && bytes < SIZE_T && PoolBytes(bytes) != BLOCK_SIZE_MAX
    requires forall i :: 0 <= i < |calls| ==> Legal(calls[i])
    ensures pool == null <==> PoolBytes(bytes) < BLOCK_SIZE_MIN || PoolBytes(bytes) > BLOCK_SIZE_MAX
    ensures pool != null ==> |statuses| == |calls| && forall i :: 0 <= i < |statuses| ==> statuses[i] == 0
    ensures pool != null ==> pool.Valid() && UsedBytes(pool.row) == 0 && pool.row.first == base + USED_OFFSET
    ensures pool != null ==>
      pool.row.bs.Keys == {pool.row.first, pool.row.last} && pool.row.bs[pool.row.first].free
      && pool.row.bs[pool.row.first].size == PoolBytes(bytes)
  {
    hide Tiled, Tagged, Coalesced, UsedBytes, UsedFrom, InUse, Holds, Remembers, Legal, Replayed;
    statuses := [];
    pool := Create(base, bytes, memory);
    if pool != null {
      NobodyYet(base, PoolBytes(bytes));
      var replies;
      replies, statuses := RunCalls(pool, calls);
      FreeAll(pool, Replayed(calls, replies).live);
    }
  }

  lemma NobodyYet(base: nat, poolBytes: nat)
    ensures Holds(FirstRow(base, poolBytes), [])
  {
  }
}
