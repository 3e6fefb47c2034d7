// The doubly linked free lists in memory. Each list ends, at both ends, in the pool's null
// block, whose own link words are scratch: unlinking and pushing write to them.
module TlsfChains {
  import opened TlsfMapping
  import opened TlsfLayout
  import opened TlsfTags

  // What the links of entry i hold.
  function After(base: nat, l: seq<nat>, i: nat): nat {
    if i + 1 < |l| then l[i + 1] else base
  }

  function Before(base: nat, l: seq<nat>, i: nat): nat
    requires i <= |l|
  {
    if i > 0 then l[i - 1] else base
  }

  ghost predicate Linked(m: Mem, base: nat, l: seq<nat>, i: nat)
    requires i < |l|
  {
    Rd(m, l[i] + 16) == After(base, l, i) && Rd(m, l[i] + 24) == Before(base, l, i)
  }

  ghost predicate Chained(m: Mem, base: nat, l: seq<nat>) {
    forall i: nat {:trigger Linked(m, base, l, i)} :: i < |l| ==> Linked(m, base, l, i)
  }

  // Two headers at different places do not overlap.
  predicate Clear(x: nat, y: nat) { x + HEADER <= y || y + HEADER <= x }

  // The null block and the entries are distinct, non-overlapping headers.
  ghost predicate Spaced(base: nat, l: seq<nat>) {
    && (forall i: nat {:trigger l[i]} :: i < |l| ==> base + HEADER <= l[i])
    && (forall i: nat, j: nat {:trigger l[i], l[j]} :: i < |l| && j < |l| && i != j ==> Clear(l[i], l[j]))
  }

  function Position(l: seq<nat>, x: nat): (i: nat)
    requires x in l
    ensures i < |l| && l[i] == x
  {
    if l[0] == x then 0 else 1 + Position(l[1..], x)
  }

  // The list without entry i, or without block x.
  function Cut(l: seq<nat>, i: nat): seq<nat>
    requires i < |l|
  {
    l[..i] + l[i + 1..]
  }

  function Take(l: seq<nat>, x: nat): seq<nat>
    requires x in l
  {
    Cut(l, Position(l, x))
  }

  ghost predicate NoDup(l: seq<nat>) {
    forall i: nat, j: nat :: i < j < |l| ==> l[i] != l[j]
  }

  lemma TakeMembers(l: seq<nat>, x: nat)
    requires NoDup(l) && x in l
    ensures NoDup(Take(l, x))
    ensures forall y :: y in Take(l, x) <==> y in l && y != x
  {
    var i := Position(l, x);
    forall y | y in l && y != x
      ensures y in Take(l, x)
    {
      var j := Position(l, y);
      if j < i { assert Take(l, x)[j] == y; } else { assert Take(l, x)[j - 1] == y; }
    }
  }

  lemma PushMembers(l: seq<nat>, x: nat)
    requires NoDup(l) && x !in l
    ensures NoDup([x] + l)
    ensures forall y :: y in [x] + l <==> y in l || y == x
  {
  }

  // remove_free_block's writes
  function UnlinkMem(m: Mem, x: nat): Mem {
    var prev, next := Rd(m, x + 24), Rd(m, x + 16);
    m[next + 24 := prev][prev + 16 := next]
  }

  // insert_free_block's writes
  function PushMem(m: Mem, base: nat, head: nat, x: nat): Mem {
    m[x + 16 := head][x + 24 := base][head + 24 := x]
  }

  lemma ChainUnlink(m: Mem, base: nat, l: seq<nat>, x: nat)
    requires Chained(m, base, l) && Spaced(base, l) && x in l
    ensures Chained(UnlinkMem(m, x), base, Take(l, x))
  {
    hide Rd, Position, NoDup;
    var i := Position(l, x);
    var k := Take(l, x);
    assert Linked(m, base, l, i);
    forall j: nat | j < |k|
      ensures Linked(UnlinkMem(m, x), base, k, j)
    {
      UnlinkEntry(m, base, l, i, j);
    }
  }

  lemma UnlinkEntry(m: Mem, base: nat, l: seq<nat>, i: nat, j: nat)
    requires Chained(m, base, l) && Spaced(base, l) && i < |l| && j < |l| - 1
    ensures Linked(UnlinkMem(m, l[i]), base, Cut(l, i), j)
  {
    hide Chained;
    var p := if j < i then j else j + 1;
    assert Linked(m, base, l, i) && Linked(m, base, l, p) by { ChainedAt(m, base, l, i); ChainedAt(m, base, l, p); }
    assert Cut(l, i)[j] == l[p];
    assert Clear(l[p], l[i]);
    var prev, next := Before(base, l, i), After(base, l, i);
    assert next + 24 != l[p] + 16 && prev + 16 != l[p] + 24 by { EntriesClear(base, l, i, p); }
    assert (next + 24 == l[p] + 24) == (p == i + 1) by { EntriesClear(base, l, i, p); }
    assert (prev + 16 == l[p] + 16) == (p + 1 == i) by { EntriesClear(base, l, i, p); }
  }

  lemma ChainedAt(m: Mem, base: nat, l: seq<nat>, i: nat)
    requires Chained(m, base, l) && i < |l|
    ensures Linked(m, base, l, i)
  {
  }

  // The neighbours of entry i, compared with another entry p.
  lemma EntriesClear(base: nat, l: seq<nat>, i: nat, p: nat)
    requires Spaced(base, l) && i < |l| && p < |l| && p != i
    ensures After(base, l, i) == l[p] || Clear(After(base, l, i), l[p])
    ensures Before(base, l, i) == l[p] || Clear(Before(base, l, i), l[p])
    ensures After(base, l, i) == l[p] <==> p == i + 1
    ensures Before(base, l, i) == l[p] <==> p + 1 == i
  {
    assert base + HEADER <= l[p];
    if i + 1 < |l| && p != i + 1 { assert Clear(l[i + 1], l[p]); }
    if i > 0 && p + 1 != i { assert Clear(l[i - 1], l[p]); }
  }

  // x can join l: it is clear of the null block and of every entry.
  ghost predicate Fresh(base: nat, l: seq<nat>, x: nat) {
    base + HEADER <= x && forall i: nat {:trigger l[i]} :: i < |l| ==> Clear(x, l[i])
  }

  function Head(base: nat, l: seq<nat>): nat {
    if l == [] then base else l[0]
  }

  lemma PushSpaced(base: nat, l: seq<nat>, x: nat)
    requires Spaced(base, l) && Fresh(base, l, x)
    ensures Spaced(base, [x] + l)
  {
  }

  lemma PushedLink(m: Mem, base: nat, l: seq<nat>, x: nat, j: nat)
    requires Chained(m, base, l) && Spaced(base, l) && Fresh(base, l, x) && j <= |l|
    ensures Linked(PushMem(m, base, Head(base, l), x), base, [x] + l, j)
  {
    hide Chained;
    var k := [x] + l;
    if j > 0 {
      ChainedAt(m, base, l, j - 1);
      assert Clear(x, l[j - 1]);
      assert k[j] == l[j - 1];
      if j > 1 { assert Clear(l[0], l[j - 1]); }
    } else if |l| > 0 {
      assert Clear(x, l[0]);
    }
  }

  lemma ChainPush(m: Mem, base: nat, l: seq<nat>, x: nat)
    requires Chained(m, base, l) && Spaced(base, l) && Fresh(base, l, x)
    ensures Chained(PushMem(m, base, Head(base, l), x), base, [x] + l)
    ensures Spaced(base, [x] + l)
  {
    hide Linked, Spaced, Fresh, PushMem, Head;
    PushSpaced(base, l, x);
    var k, after := [x] + l, PushMem(m, base, Head(base, l), x);
    forall j: nat | j < |k|
      ensures Linked(after, base, k, j)
    {
      PushedLink(m, base, l, x, j);
    }
  }

  // Memory that agrees on the links of l.
  ghost predicate SameLinks(m: Mem, after: Mem, x: nat) {
    Rd(after, x + 16) == Rd(m, x + 16) && Rd(after, x + 24) == Rd(m, x + 24)
  }

  lemma ChainFrame(m: Mem, after: Mem, base: nat, l: seq<nat>)
    requires Chained(m, base, l)
    requires forall x {:trigger SameLinks(m, after, x)} :: x in l ==> SameLinks(m, after, x)
    ensures Chained(after, base, l)
  {
    forall j: nat | j < |l|
      ensures Linked(after, base, l, j)
    {
      ChainedAt(m, base, l, j);
      assert SameLinks(m, after, l[j]);
    }
  }

  // The links of blocks clear of list l and of the null block stay when l changes.
  lemma UnlinkElsewhere(m: Mem, base: nat, l: seq<nat>, x: nat, y: nat)
    requires Chained(m, base, l) && Spaced(base, l) && x in l && Fresh(base, l, y)
    ensures SameLinks(m, UnlinkMem(m, x), y)
  {
    var i := Position(l, x);
    ChainedAt(m, base, l, i);
    if i + 1 < |l| { assert Clear(y, l[i + 1]); }
    if i > 0 { assert Clear(y, l[i - 1]); }
  }

  lemma PushElsewhere(m: Mem, base: nat, l: seq<nat>, x: nat, y: nat)
    requires Fresh(base, l, y) && Clear(x, y)
    ensures SameLinks(m, PushMem(m, base, Head(base, l), x), y)
  {
    if |l| > 0 { assert Clear(y, l[0]); }
  }

  // The words written when x leaves or joins a list are link words of entries, of x, or of the null block.
  ghost predicate LinkWord(base: nat, l: seq<nat>, x: nat, w: nat) {
    || w == base + 16 || w == base + 24 || w == x + 16 || w == x + 24
    || (exists i: nat {:trigger l[i]} :: i < |l| && (w == l[i] + 16 || w == l[i] + 24))
  }

  lemma UnlinkWrites(m: Mem, base: nat, l: seq<nat>, x: nat, w: nat)
    requires Chained(m, base, l) && x in l
    ensures Rd(UnlinkMem(m, x), w) == Rd(m, w) || LinkWord(base, l, x, w)
  {
    var i := Position(l, x);
    ChainedAt(m, base, l, i);
    assert i + 1 < |l| ==> l[i + 1] == Rd(m, x + 16);
    assert i > 0 ==> l[i - 1] == Rd(m, x + 24);
  }

  lemma PushWrites(m: Mem, base: nat, l: seq<nat>, x: nat, w: nat)
    ensures Rd(PushMem(m, base, Head(base, l), x), w) == Rd(m, w) || LinkWord(base, l, x, w)
  {
    assert l != [] ==> l[0] == Head(base, l);
  }
}
