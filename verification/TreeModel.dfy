// The AA-tree as a value: what skew, split and insert do to its shape and to its entries.
module TreeModel {
  import opened Options
  import opened Powers

  datatype Entry<V> = Entry(key: string, value: V)

  // The empty tree is the sentinel, at level 0.
  datatype Tree<V> = Leaf | Node(left: Tree<V>, entry: Entry<V>, level: nat, right: Tree<V>)

  // ----- Order of keys -----

  // strcmp
  function Cmp(a: string, b: string): int {
    if a == b then 0
    else if a == [] then -1
    else if b == [] then 1
    else if a[0] < b[0] then -1
    else if a[0] > b[0] then 1
    else Cmp(a[1..], b[1..])
  }

  lemma {:induction false} CmpZero(a: string, b: string)
    ensures Cmp(a, b) == 0 <==> a == b
  {
    if a != b && a != [] && b != [] && a[0] == b[0] {
      assert a == [a[0]] + a[1..] && b == [b[0]] + b[1..];
      CmpZero(a[1..], b[1..]);
    }
  }

  lemma {:induction false} CmpFlips(a: string, b: string)
    ensures Cmp(a, b) < 0 <==> Cmp(b, a) > 0
  {
    if a != b && a != [] && b != [] && a[0] == b[0] { CmpFlips(a[1..], b[1..]); }
  }

  lemma {:induction false} CmpThrough(a: string, b: string, c: string)
    requires Cmp(a, b) <= 0 && Cmp(b, c) <= 0
    ensures Cmp(a, c) <= 0
    ensures Cmp(a, b) < 0 || Cmp(b, c) < 0 ==> Cmp(a, c) < 0
  {
    CmpZero(a, b);
    CmpZero(b, c);
    if a != b && b != c && a != [] && b != [] && c != [] && a[0] == b[0] && b[0] == c[0] {
      CmpThrough(a[1..], b[1..], c[1..]);
      CmpZero(a[1..], c[1..]);
    }
  }

  // ----- Shape -----

  function Level<V>(t: Tree<V>): nat {
    if t.Leaf? then 0 else t.level
  }

  // The level rules: a left child is exactly one level down, a right child at most one and
  // never two in a row on the same level.
  predicate LevelRules<V>(t: Tree<V>) {
    t.Node? ==>
      && LevelRules(t.left) && LevelRules(t.right)
      && t.level == Level(t.left) + 1
      && Level(t.right) <= t.level <= Level(t.right) + 1
      && (t.right.Node? ==> Level(t.right.right) < t.level)
  }

  function Skew<V>(t: Tree<V>): Tree<V> {
    if t.Node? && t.left.Node? && t.left.level == t.level then
      t.left.(right := t.(left := t.left.right))
    else t
  }

  function Split<V>(t: Tree<V>): Tree<V> {
    if t.Node? && t.right.Node? && t.right.right.Node? && t.right.right.level == t.level then
      t.right.(left := t.(right := t.right.left), level := t.right.level + 1)
    else t
  }

  function Insert<V>(t: Tree<V>, key: string, value: V): Tree<V> {
    if t.Leaf? then Node(Leaf, Entry(key, value), 1, Leaf)
    else if Cmp(key, t.entry.key) < 0 then Split(Skew(t.(left := Insert(t.left, key, value))))
    else Split(Skew(t.(right := Insert(t.right, key, value))))
  }

  // The root rises by at most one level, only when it had a right child on its own level,
  // and has none afterwards.
  predicate Risen<V>(t: Tree<V>, r: Tree<V>) {
    && r.Node? && LevelRules(r)
    && (Level(r) == Level(t) ||
        (Level(r) == Level(t) + 1 && Level(r.right) < Level(r) && (t.Node? ==> Level(t.right) == Level(t))))
  }

  lemma LeftRisen<V>(t: Tree<V>, l: Tree<V>)
    requires LevelRules(t) && t.Node? && Risen(t.left, l)
    ensures Risen(t, Split(Skew(t.(left := l))))
  {
    if Level(l) == t.level {
      var lower := t.(left := l.right);
      assert LevelRules(lower);
      assert Skew(t.(left := l)) == l.(right := lower);
    }
  }

  lemma RightRisen<V>(t: Tree<V>, r: Tree<V>)
    requires LevelRules(t) && t.Node? && Risen(t.right, r)
    ensures Risen(t, Split(Skew(t.(right := r))))
  {
    var now := t.(right := r);
    assert Skew(now) == now;
    if r.right.Node? && r.right.level == t.level {
      assert r.level == t.level;
      assert Level(r.left) == t.level - 1 && LevelRules(r.left);
      assert r.left.Node? ==> Level(r.left.right) <= Level(r.left);
      assert LevelRules(t.(right := r.left));
    }
  }

  // Insertion keeps the level rules.
  lemma {:induction false} InsertKeepsRules<V>(t: Tree<V>, key: string, value: V)
    requires LevelRules(t)
    ensures LevelRules(Insert(t, key, value)) && Risen(t, Insert(t, key, value))
  {
    hide Cmp, Risen, Skew, Split;
    if t.Leaf? {
      MadeRisen(t, key, value);
    } else if Cmp(key, t.entry.key) < 0 {
      InsertKeepsRules(t.left, key, value);
      LeftRisen(t, Insert(t.left, key, value));
      RisenRules(t, Insert(t, key, value));
    } else {
      InsertKeepsRules(t.right, key, value);
      RightRisen(t, Insert(t.right, key, value));
      RisenRules(t, Insert(t, key, value));
    }
  }

  lemma MadeRisen<V>(t: Tree<V>, key: string, value: V)
    requires t.Leaf?
    ensures LevelRules(Insert(t, key, value)) && Risen(t, Insert(t, key, value))
  {
  }

  lemma RisenRules<V>(t: Tree<V>, r: Tree<V>)
    requires Risen(t, r)
    ensures LevelRules(r)
  {
  }

  // ----- Contents -----

  function Entries<V>(t: Tree<V>): seq<Entry<V>> {
    if t.Leaf? then [] else Entries(t.left) + [t.entry] + Entries(t.right)
  }

  lemma SkewEntries<V>(t: Tree<V>)
    ensures Entries(Skew(t)) == Entries(t)
  {
  }

  lemma SplitEntries<V>(t: Tree<V>)
    ensures Entries(Split(t)) == Entries(t)
  {
  }

  predicate Ordered<V>(s: seq<Entry<V>>) {
    forall i, j :: 0 <= i < j < |s| ==> Cmp(s[i].key, s[j].key) <= 0
  }

  // `after` is `s` with e behind every key up to its own and in front of every later one.
  ghost predicate PlacedAt<V>(s: seq<Entry<V>>, e: Entry<V>, after: seq<Entry<V>>, i: nat) {
    && i <= |s| && |after| == |s| + 1 && after[..i] == s[..i] && after[i] == e && after[i + 1..] == s[i..]
    && (forall j :: 0 <= j < i ==> Cmp(s[j].key, e.key) <= 0)
    && (forall j :: i <= j < |s| ==> Cmp(e.key, s[j].key) < 0)
  }

  lemma SliceOrdered<V>(s: seq<Entry<V>>, i: nat, j: nat)
    requires Ordered(s) && i <= j <= |s|
    ensures Ordered(s[i..j])
  {
    hide Cmp;
  }

  lemma OrderedParts<V>(t: Tree<V>)
    requires t.Node? && Ordered(Entries(t))
    ensures Ordered(Entries(t.left)) && Ordered(Entries(t.right))
    ensures forall e :: e in Entries(t.left) ==> Cmp(e.key, t.entry.key) <= 0
    ensures forall e :: e in Entries(t.right) ==> Cmp(t.entry.key, e.key) <= 0
  {
    OrderedAround(Entries(t.left), t.entry, Entries(t.right));
  }

  lemma OrderedAround<V>(l: seq<Entry<V>>, m: Entry<V>, r: seq<Entry<V>>)
    requires Ordered(l + [m] + r)
    ensures Ordered(l) && Ordered(r)
    ensures forall e :: e in l ==> Cmp(e.key, m.key) <= 0
    ensures forall e :: e in r ==> Cmp(m.key, e.key) <= 0
  {
    hide Cmp;
    var s, n := l + [m] + r, |l|;
    assert s[..n] == l && s[n + 1..] == r;
    SliceOrdered(s, 0, n);
    SliceOrdered(s, n + 1, |s|);
    assert s[0..n] == l && s[n + 1..|s|] == r;
    forall i | 0 <= i < n
      ensures Cmp(l[i].key, m.key) <= 0
    {
      assert s[i] == l[i] && s[n] == m;
    }
    forall i | 0 <= i < |r|
      ensures Cmp(m.key, r[i].key) <= 0
    {
      assert s[n + 1 + i] == r[i] && s[n] == m;
    }
  }

  lemma PlacedLeft<V>(l: seq<Entry<V>>, m: Entry<V>, r: seq<Entry<V>>, e: Entry<V>, after: seq<Entry<V>>, i: nat)
    requires PlacedAt(l, e, after, i) && Cmp(e.key, m.key) < 0
    requires forall x :: x in r ==> Cmp(m.key, x.key) <= 0
    ensures PlacedAt(l + [m] + r, e, after + [m] + r, i)
  {
    hide Cmp;
    var s, now := l + [m] + r, after + [m] + r;
    assert now[..i] == after[..i] && s[..i] == l[..i];
    assert now[i + 1..] == after[i + 1..] + [m] + r && s[i..] == l[i..] + [m] + r;
    forall j | i <= j < |s|
      ensures Cmp(e.key, s[j].key) < 0
    {
      if j > |l| {
        assert s[j] == r[j - |l| - 1];
        CmpThrough(e.key, m.key, s[j].key);
      }
    }
  }

  lemma PlacedRight<V>(l: seq<Entry<V>>, m: Entry<V>, r: seq<Entry<V>>, e: Entry<V>, after: seq<Entry<V>>, i: nat)
    requires PlacedAt(r, e, after, i) && Cmp(m.key, e.key) <= 0
    requires forall x :: x in l ==> Cmp(x.key, m.key) <= 0
    ensures PlacedAt(l + [m] + r, e, l + [m] + after, |l| + 1 + i)
  {
    hide Cmp;
    var s, now, k := l + [m] + r, l + [m] + after, |l| + 1 + i;
    assert now[..k] == l + [m] + after[..i] && s[..k] == l + [m] + r[..i];
    assert now[k + 1..] == after[i + 1..] && s[k..] == r[i..];
    forall j | 0 <= j < k
      ensures Cmp(s[j].key, e.key) <= 0
    {
      if j < |l| {
        assert s[j] == l[j];
        CmpThrough(s[j].key, m.key, e.key);
      } else if j > |l| {
        assert s[j] == r[j - |l| - 1];
      }
    }
    forall j | k <= j < |s|
      ensures Cmp(e.key, s[j].key) < 0
    {
      assert s[j] == r[j - |l| - 1];
    }
  }

  // The entries after an insertion: the old ones in their order, the new one behind every
  // entry with a key up to its own.
  lemma {:induction false} InsertPlaces<V>(t: Tree<V>, key: string, value: V) returns (i: nat)
    requires Ordered(Entries(t))
    ensures PlacedAt(Entries(t), Entry(key, value), Entries(Insert(t, key, value)), i)
  {
    hide Cmp, Ordered, PlacedAt;
    if t.Leaf? {
      i := 0;
      PlacedFirst(Entry(key, value));
      assert Entries(Insert(t, key, value)) == [Entry(key, value)];
    } else {
      OrderedParts(t);
      if Cmp(key, t.entry.key) < 0 {
        i := InsertPlaces(t.left, key, value);
        PlacedLeft(Entries(t.left), t.entry, Entries(t.right), Entry(key, value), Entries(Insert(t.left, key, value)), i);
        var now := t.(left := Insert(t.left, key, value));
        SkewEntries(now);
        SplitEntries(Skew(now));
      } else {
        CmpFlips(key, t.entry.key);
        CmpFlips(t.entry.key, key);
        i := InsertPlaces(t.right, key, value);
        PlacedRight(Entries(t.left), t.entry, Entries(t.right), Entry(key, value), Entries(Insert(t.right, key, value)), i);
        i := |Entries(t.left)| + 1 + i;
        var now := t.(right := Insert(t.right, key, value));
        SkewEntries(now);
        SplitEntries(Skew(now));
      }
    }
  }

  lemma PlacedFirst<V>(e: Entry<V>)
    ensures PlacedAt([], e, [e], 0)
  {
  }

  // So the entries stay in order.
  lemma InsertKeepsOrder<V>(t: Tree<V>, key: string, value: V)
    requires Ordered(Entries(t))
    ensures Ordered(Entries(Insert(t, key, value)))
  {
    var i := InsertPlaces(t, key, value);
    PlacedOrdered(Entries(t), Entry(key, value), Entries(Insert(t, key, value)), i);
  }

  lemma PlacedOrdered<V>(s: seq<Entry<V>>, e: Entry<V>, after: seq<Entry<V>>, i: nat)
    requires Ordered(s) && PlacedAt(s, e, after, i)
    ensures Ordered(after)
  {
    hide Cmp;
    forall j, k | 0 <= j < k < |after|
      ensures Cmp(after[j].key, after[k].key) <= 0
    {
      assert j < i ==> after[j] == after[..i][j] == s[j];
      assert k < i ==> after[k] == after[..i][k] == s[k];
      assert j > i ==> after[j] == after[i + 1..][j - i - 1] == s[j - 1];
      assert k > i ==> after[k] == after[i + 1..][k - i - 1] == s[k - 1];
    }
  }

  // ----- Lookup -----

  function Find<V>(t: Tree<V>, key: string): Option<V> {
    if t.Leaf? then None
    else if Cmp(key, t.entry.key) == 0 then Some(t.entry.value)
    else if Cmp(key, t.entry.key) < 0 then Find(t.left, key)
    else Find(t.right, key)
  }

  // ----- Runs of insertions -----

  // An entry behind every key up to its own.
  function Place<V>(s: seq<Entry<V>>, e: Entry<V>): seq<Entry<V>> {
    if s == [] || Cmp(e.key, s[0].key) < 0 then [e] + s else [s[0]] + Place(s[1..], e)
  }

  // The entries placed one after the other.
  function Sorted<V>(s: seq<Entry<V>>): seq<Entry<V>> {
    if s == [] then [] else Place(Sorted(s[..|s| - 1]), s[|s| - 1])
  }

  lemma {:induction false} PlacedIsPlace<V>(s: seq<Entry<V>>, e: Entry<V>, after: seq<Entry<V>>, i: nat)
    requires PlacedAt(s, e, after, i)
    ensures after == Place(s, e)
    decreases i
  {
    hide Cmp;
    assert after == after[..i] + [after[i]] + after[i + 1..];
    if i > 0 {
      CmpFlips(e.key, s[0].key);
      assert after[0] == after[..i][0] == s[0];
      assert after[1..][..i - 1] == s[1..][..i - 1] && after[1..][i..] == s[1..][i - 1..];
      PlacedIsPlace(s[1..], e, after[1..], i - 1);
    }
  }

  // The entries with one key, in their order.
  function With<V>(s: seq<Entry<V>>, key: string): seq<Entry<V>> {
    if s == [] then [] else if s[0].key == key then [s[0]] + With(s[1..], key) else With(s[1..], key)
  }

  lemma {:induction false} WithAppend<V>(a: seq<Entry<V>>, b: seq<Entry<V>>, key: string)
    ensures With(a + b, key) == With(a, key) + With(b, key)
  {
    if a == [] {
      assert a + b == b;
    } else {
      assert (a + b)[0] == a[0] && (a + b)[1..] == a[1..] + b;
      WithAppend(a[1..], b, key);
      assert [a[0]] + (With(a[1..], key) + With(b, key)) == [a[0]] + With(a[1..], key) + With(b, key);
    }
  }

  // Of the entries in order, those with its key stand in front of the one that is placed.
  lemma {:induction false} PlaceWith<V>(s: seq<Entry<V>>, e: Entry<V>, key: string)
    requires Ordered(s)
    ensures With(Place(s, e), key) == With(s, key) + With([e], key)
    decreases |s|
  {
    hide Cmp, Ordered, Place, With;
    PlaceStep(s, e);
    if s == [] || Cmp(e.key, s[0].key) < 0 {
      WithAppend([e], s, key);
      WithOne(e, key);
      if s == [] { NoneWith(s, key); } else if key == e.key { AboveWith(s, key); }
    } else {
      SliceOrdered(s, 1, |s|);
      assert s[1..|s|] == s[1..] && s == [s[0]] + s[1..];
      PlaceWith(s[1..], e, key);
      WithAppend([s[0]], Place(s[1..], e), key);
      WithAppend([s[0]], s[1..], key);
    }
  }

  lemma PlaceStep<V>(s: seq<Entry<V>>, e: Entry<V>)
    ensures Place(s, e) == if s == [] || Cmp(e.key, s[0].key) < 0 then [e] + s else [s[0]] + Place(s[1..], e)
  {
    hide Cmp;
  }

  lemma WithOne<V>(e: Entry<V>, key: string)
    ensures With([e], key) == if e.key == key then [e] else []
  {
    assert [e][1..] == [];
  }

  lemma NoneWith<V>(s: seq<Entry<V>>, key: string)
    requires s == []
    ensures With(s, key) == []
  {
  }

  lemma {:induction false} PlaceAdds<V>(s: seq<Entry<V>>, e: Entry<V>)
    ensures multiset(Place(s, e)) == multiset(s) + multiset{e}
    decreases |s|
  {
    hide Cmp;
    if s != [] && Cmp(e.key, s[0].key) >= 0 {
      assert s == [s[0]] + s[1..];
      PlaceAdds(s[1..], e);
    }
  }

  lemma {:induction false} AboveWith<V>(s: seq<Entry<V>>, key: string)
    requires Ordered(s) && s != [] && Cmp(key, s[0].key) < 0
    ensures With(s, key) == []
    decreases |s|
  {
    hide Ordered;
    CmpZero(key, s[0].key);
    if |s| > 1 {
      SliceOrdered(s, 1, |s|);
      assert s[1..|s|] == s[1..];
      FirstTwo(s);
      CmpThrough(key, s[0].key, s[1].key);
      AboveWith(s[1..], key);
    }
  }

  lemma FirstTwo<V>(s: seq<Entry<V>>)
    requires Ordered(s) && |s| > 1
    ensures Cmp(s[0].key, s[1].key) <= 0
  {
  }

  // What a run of insertions leaves: the entries in order, equal keys as they came in.
  lemma {:induction false} SortedIsStable<V>(s: seq<Entry<V>>, key: string)
    ensures Ordered(Sorted(s)) && multiset(Sorted(s)) == multiset(s) && With(Sorted(s), key) == With(s, key)
    decreases |s|
  {
    hide Cmp, Ordered, Place, With;
    if s == [] {
      NothingOrdered<V>();
    } else {
      var n := |s| - 1;
      var rest := Sorted(s[..n]);
      assert s == s[..n] + [s[n]];
      SortedIsStable(s[..n], key);
      PlaceWith(rest, s[n], key);
      PlaceAdds(rest, s[n]);
      WithAppend(s[..n], [s[n]], key);
      PlaceOrdered(rest, s[n]);
    }
  }

  lemma NothingOrdered<V>()
    ensures Ordered<V>([])
  {
  }

  lemma PlaceOrdered<V>(s: seq<Entry<V>>, e: Entry<V>)
    requires Ordered(s)
    ensures Ordered(Place(s, e))
  {
    hide Cmp, Ordered, Place, PlacedAt;
    var i := PlaceOf(s, e);
    PlacedOrdered(s, e, Place(s, e), i);
  }

  lemma {:induction false} PlaceOf<V>(s: seq<Entry<V>>, e: Entry<V>) returns (i: nat)
    requires Ordered(s)
    ensures PlacedAt(s, e, Place(s, e), i)
    decreases |s|
  {
    if s == [] {
      i := 0;
    } else if Cmp(e.key, s[0].key) < 0 {
      i := 0;
      AllAbove(s, e.key);
    } else {
      SliceOrdered(s, 1, |s|);
      assert s[1..|s|] == s[1..];
      var j := PlaceOf(s[1..], e);
      PlacedBehind(s, e, Place(s[1..], e), j);
      i := j + 1;
    }
  }

  lemma AllAbove<V>(s: seq<Entry<V>>, key: string)
    requires Ordered(s) && s != [] && Cmp(key, s[0].key) < 0
    ensures forall j :: 0 <= j < |s| ==> Cmp(key, s[j].key) < 0
  {
    forall j | 0 <= j < |s|
      ensures Cmp(key, s[j].key) < 0
    {
      hide Cmp;
      if j > 0 { CmpThrough(key, s[0].key, s[j].key); }
    }
  }

  lemma PlacedBehind<V>(s: seq<Entry<V>>, e: Entry<V>, after: seq<Entry<V>>, j: nat)
    requires s != [] && Cmp(e.key, s[0].key) >= 0 && PlacedAt(s[1..], e, after, j)
    ensures PlacedAt(s, e, [s[0]] + after, j + 1)
  {
    hide Cmp;
    CmpFlips(e.key, s[0].key);
    var now := [s[0]] + after;
    assert now[..j + 1] == [s[0]] + after[..j] && s[..j + 1] == [s[0]] + s[1..][..j];
    assert now[j + 2..] == after[j + 1..] && s[j + 1..] == s[1..][j..];
    assert forall k :: 0 < k < |s| ==> s[k] == s[1..][k - 1];
  }

  ghost predicate Present<V>(s: seq<Entry<V>>, key: string) {
    exists i :: 0 <= i < |s| && s[i].key == key
  }

  lemma PresentJoin<V>(a: seq<Entry<V>>, m: Entry<V>, b: seq<Entry<V>>, key: string)
    ensures Present(a + [m] + b, key) <==> Present(a, key) || m.key == key || Present(b, key)
  {
    var s, n := a + [m] + b, |a|;
    assert s[n] == m;
    if Present(a, key) {
      var i :| 0 <= i < n && a[i].key == key;
      assert s[i].key == key;
    }
    if Present(b, key) {
      var i :| 0 <= i < |b| && b[i].key == key;
      assert s[n + 1 + i].key == key;
    }
  }

  lemma PresentSplits<V>(t: Tree<V>, key: string)
    requires t.Node?
    ensures Present(Entries(t), key) <==> Present(Entries(t.left), key) || t.entry.key == key || Present(Entries(t.right), key)
  {
    hide Present;
    PresentJoin(Entries(t.left), t.entry, Entries(t.right), key);
  }

  // A lookup succeeds exactly when the key is present, with the value of an entry for it.
  lemma {:induction false} FindFinds<V>(t: Tree<V>, key: string)
    requires Ordered(Entries(t))
    ensures Find(t, key).Some? <==> Present(Entries(t), key)
    ensures Find(t, key).Some? ==> Entry(key, Find(t, key).value) in Entries(t)
  {
    hide Cmp, Ordered, Present;
    if t.Node? {
      OrderedParts(t);
      PresentSplits(t, key);
      CmpZero(key, t.entry.key);
      if Cmp(key, t.entry.key) < 0 {
        FindFinds(t.left, key);
        NotLater(t.entry.key, Entries(t.right), key);
      } else if Cmp(key, t.entry.key) > 0 {
        FindFinds(t.right, key);
        NotEarlier(t.entry.key, Entries(t.left), key);
      } else {
        assert Entry(key, t.entry.value) == t.entry;
      }
    } else {
      EmptyHasNone<V>(key);
    }
  }

  lemma EmptyHasNone<V>(key: string)
    ensures !Present<V>([], key)
  {
  }

  lemma NotLater<V>(pivot: string, s: seq<Entry<V>>, key: string)
    requires Cmp(key, pivot) < 0 && forall e :: e in s ==> Cmp(pivot, e.key) <= 0
    ensures !Present(s, key)
  {
    hide Cmp;
    forall i | 0 <= i < |s|
      ensures s[i].key != key
    {
      assert s[i] in s;
      CmpThrough(key, pivot, s[i].key);
      CmpZero(key, s[i].key);
    }
  }

  lemma NotEarlier<V>(pivot: string, s: seq<Entry<V>>, key: string)
    requires Cmp(key, pivot) > 0 && forall e :: e in s ==> Cmp(e.key, pivot) <= 0
    ensures !Present(s, key)
  {
    hide Cmp;
    forall i | 0 <= i < |s|
      ensures s[i].key != key
    {
      assert s[i] in s;
      CmpFlips(pivot, key);
      CmpThrough(s[i].key, pivot, key);
      CmpZero(s[i].key, key);
    }
  }

  // ----- Depth -----

  function Height<V>(t: Tree<V>): nat {
    if t.Leaf? then 0
    else 1 + if Height(t.left) > Height(t.right) then Height(t.left) else Height(t.right)
  }

  lemma {:induction false} HeightByLevel<V>(t: Tree<V>)
    requires LevelRules(t)
    ensures Height(t) <= 2 * Level(t)
    ensures t.Node? && Level(t.right) < t.level ==> Height(t) < 2 * Level(t)
  {
    if t.Node? {
      HeightByLevel(t.left);
      HeightByLevel(t.right);
    }
  }

  lemma {:induction false} FullEnough<V>(t: Tree<V>)
    requires LevelRules(t)
    ensures Pow2(Level(t)) <= |Entries(t)| + 1
  {
    if t.Node? {
      FullEnough(t.left);
      FullEnough(t.right);
      Pow2Grows(Level(t.left), Level(t.right));
    }
  }

  // No path is longer than twice the logarithm of the number of entries plus one.
  lemma Balanced<V>(t: Tree<V>)
    requires LevelRules(t)
    ensures Height(t) <= 2 * Log2(|Entries(t)| + 1)
  {
    hide Pow2, Log2;
    HeightByLevel(t);
    FullEnough(t);
    Log2OfPow2(Level(t));
    Log2Monotone(Pow2(Level(t)), |Entries(t)| + 1);
  }
}
