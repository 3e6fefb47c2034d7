// The AA-tree in memory. A null reference stands for both a null pointer and the sentinel,
// whose level is 0 and whose children are itself.
module TreeNodes {
  import opened Options
  import opened Powers
  import opened TreeModel

  class Cell<V> {
    const key: string
    const value: V
    var left: Cell?<V>
    var right: Cell?<V>
    var level: nat
    ghost var model: Tree<V>
    ghost var repr: set<object>

    ghost predicate Valid()
      reads this, repr
      decreases repr
    {
      && this in repr && level > 0
      && (left != null ==> left in repr && left.repr <= repr && this !in left.repr && left.Valid())
      && (right != null ==> right in repr && right.repr <= repr && this !in right.repr && right.Valid())
      && (left != null && right != null ==> left.repr !! right.repr)
      && model == Node(ModelOf(left), Entry(key, value), level, ModelOf(right))
    }

    // tree_make
    constructor (key: string, value: V)
      ensures Valid() && fresh(repr) && model == Node(Leaf, Entry(key, value), 1, Leaf)
    {
      this.key := key;
      this.value := value;
      this.left, this.right := null, null;
      this.level := 1;
      this.model := Node(Leaf, Entry(key, value), 1, Leaf);
      this.repr := {this};
    }

    // Hangs a tree on the left, or on the right, of this node.
    method SetLeft(child: Cell?<V>)
      requires level > 0 && ValidTree(child) && ValidTree(right)
      requires this !in ReprOf(child) && this !in ReprOf(right) && ReprOf(child) !! ReprOf(right)
      modifies this`left, this`model, this`repr
      ensures Valid() && repr == {this} + ReprOf(child) + ReprOf(right)
      ensures left == child && model == Node(ModelOf(child), Entry(key, value), level, ModelOf(right))
    {
      left := child;
      model := Node(ModelOf(left), Entry(key, value), level, ModelOf(right));
      repr := {this} + ReprOf(left) + ReprOf(right);
    }

    method SetRight(child: Cell?<V>)
      requires level > 0 && ValidTree(child) && ValidTree(left)
      requires this !in ReprOf(child) && this !in ReprOf(left) && ReprOf(left) !! ReprOf(child)
      modifies this`right, this`model, this`repr
      ensures Valid() && repr == {this} + ReprOf(left) + ReprOf(child)
      ensures right == child && model == Node(ModelOf(left), Entry(key, value), level, ModelOf(child))
    {
      right := child;
      model := Node(ModelOf(left), Entry(key, value), level, ModelOf(right));
      repr := {this} + ReprOf(left) + ReprOf(right);
    }
  }

  ghost function ModelOf<V>(node: Cell?<V>): Tree<V>
    reads if node == null then {} else {node}
  {
    if node == null then Leaf else node.model
  }

  ghost function ReprOf<V>(node: Cell?<V>): set<object>
    reads if node == null then {} else {node}
  {
    if node == null then {} else node.repr
  }

  ghost predicate ValidTree<V>(node: Cell?<V>)
    reads node, ReprOf(node)
  {
    node != null ==> node.Valid()
  }

  // tree_skew
  method SkewNode<V>(node: Cell<V>) returns (r: Cell<V>)
    requires node.Valid()
    modifies node.repr
    ensures r.Valid() && r.repr <= old(node.repr) && r.model == Skew(old(node.model))
  {
    r := node;
    if node.left != null && node.left.level == node.level {
      var save := node;
      r := node.left;
      assert save.model.left == r.model && r.model.right == ModelOf(r.right);
      assert r.Valid() && ReprOf(r.right) !! ReprOf(save.right);
      save.SetLeft(r.right);
      r.SetRight(save);
    }
  }

  // tree_split
  method SplitNode<V>(node: Cell<V>) returns (r: Cell<V>)
    requires node.Valid()
    modifies node.repr
    ensures r.Valid() && r.repr <= old(node.repr) && r.model == Split(old(node.model))
  {
    r := node;
    assert node.right != null ==> node.right.Valid() && node.model.right == node.right.model;
    assert node.right != null ==> node.right.model.right == ModelOf(node.right.right) && ValidTree(node.right.right);
    if node.right != null && node.right.right != null && node.right.right.level == node.level {
      var save := node;
      r := node.right;
      assert ReprOf(r.left) !! ReprOf(save.left);
      save.SetRight(r.left);
      r.level := r.level + 1;
      r.SetLeft(save);
    }
  }

  // tree_insert
  method InsertNode<V>(node: Cell?<V>, key: string, value: V) returns (r: Cell<V>)
    requires ValidTree(node)
    modifies ReprOf(node)
    ensures r.Valid() && fresh(r.repr - old(ReprOf(node)))
    ensures r.model == Insert(old(ModelOf(node)), key, value)
    decreases ReprOf(node)
  {
    hide Skew, Split, Cmp;
    if node == null {
      r := new Cell(key, value);
    } else {
      InsertBelow(node, key, value);
      r := SkewNode(node);
      r := SplitNode(r);
    }
  }

  // The recursive step: into the left or the right subtree.
  method InsertBelow<V>(node: Cell<V>, key: string, value: V)
    requires node.Valid()
    modifies node.repr
    ensures node.Valid() && fresh(node.repr - old(node.repr))
    ensures node.model == old(if Cmp(key, node.key) < 0 then node.model.(left := Insert(node.model.left, key, value))
                              else node.model.(right := Insert(node.model.right, key, value)))
    decreases node.repr, 0
  {
    hide Cmp, Insert;
    var c := Cmp(key, node.key);
    if c < 0 {
      ghost var r := node.right;
      var child := InsertNode(node.left, key, value);
      assert node.right == r && ValidTree(r);
      node.SetLeft(child);
    } else {
      ghost var l := node.left;
      var child := InsertNode(node.right, key, value);
      assert node.left == l && ValidTree(l);
      node.SetRight(child);
    }
  }

  // tree_lookup, and how many nodes it visits
  method Lookup<V>(root: Cell?<V>, key: string) returns (found: Option<V>, ghost steps: nat)
    requires ValidTree(root)
    ensures found == Find(ModelOf(root), key)
    ensures steps <= Height(ModelOf(root))
  {
    var node := root;
    steps := 0;
    while node != null
      invariant ValidTree(node) && Find(ModelOf(node), key) == Find(ModelOf(root), key)
      invariant steps + Height(ModelOf(node)) <= Height(ModelOf(root))
      decreases ReprOf(node)
    {
      steps := steps + 1;
      var c := Cmp(key, node.key);
      if c == 0 {
        return Some(node.value), steps;
      } else if c < 0 {
        node := node.left;
      } else {
        node := node.right;
      }
    }
    found := None;
  }

  // What callers rely on: a tree that keeps the level rules and the order.
  ghost predicate Proper<V>(t: Tree<V>) {
    LevelRules(t) && Ordered(Entries(t))
  }

  lemma EmptyProper<V>()
    ensures Proper<V>(Leaf)
  {
  }

  // Inserting into a proper tree gives a proper tree with one entry more, in its place.
  method InsertEntry<V>(root: Cell?<V>, key: string, value: V) returns (r: Cell<V>, ghost place: nat)
    requires ValidTree(root) && Proper(ModelOf(root))
    modifies ReprOf(root)
    ensures r.Valid() && fresh(r.repr - old(ReprOf(root))) && Proper(r.model)
    ensures PlacedAt(old(Entries(ModelOf(root))), Entry(key, value), Entries(r.model), place)
  {
    hide Ordered, LevelRules, Cmp, PlacedAt, Insert, Entries, Risen;
    ghost var t := ModelOf(root);
    InsertKeepsRules(t, key, value);
    InsertKeepsOrder(t, key, value);
    place := InsertPlaces(t, key, value);
    r := InsertNode(root, key, value);
  }

  // A tree made by insertions holds the entries in order, those with equal keys as they came.
  method InsertAll<V>(entries: seq<Entry<V>>) returns (root: Cell?<V>)
    ensures ValidTree(root) && fresh(ReprOf(root)) && Proper(ModelOf(root))
    ensures Entries(ModelOf(root)) == Sorted(entries)
  {
    hide Proper, Sorted, Entries, PlacedAt, Place;
    root := null;
    EmptyProper<V>();
    NoneSorted<V>();
    assert entries[..0] == [];
    for i := 0 to |entries|
      invariant ValidTree(root) && fresh(ReprOf(root)) && Proper(ModelOf(root))
      invariant Entries(ModelOf(root)) == Sorted(entries[..i])
    {
      ghost var was := Entries(ModelOf(root));
      ghost var place;
      root, place := InsertEntry(root, entries[i].key, entries[i].value);
      assert Entry(entries[i].key, entries[i].value) == entries[i];
      PlacedIsPlace(was, entries[i], Entries(root.model), place);
      OneMoreSorted(entries, i);
    }
    assert entries[..|entries|] == entries;
  }

  lemma NoneSorted<V>()
    ensures Sorted<V>([]) == Entries<V>(Leaf) == []
  {
  }

  lemma OneMoreSorted<V>(s: seq<Entry<V>>, i: nat)
    requires i < |s|
    ensures Sorted(s[..i + 1]) == Place(Sorted(s[..i]), s[i])
  {
    assert s[..i + 1][..i] == s[..i];
  }

  // Looking up in a proper tree finds the key exactly when it is there, along a short path.
  method LookupEntry<V>(root: Cell?<V>, key: string) returns (found: Option<V>, ghost steps: nat)
    requires ValidTree(root) && Proper(ModelOf(root))
    ensures found.Some? <==> Present(Entries(ModelOf(root)), key)
    ensures found.Some? ==> Entry(key, found.value) in Entries(ModelOf(root))
    ensures steps <= 2 * Log2(|Entries(ModelOf(root))| + 1)
  {
    hide Ordered, LevelRules, Cmp, Find, Height, Present, Log2, Entries;
    FindFinds(ModelOf(root), key);
    Balanced(ModelOf(root));
    found, steps := Lookup(root, key);
  }
}
