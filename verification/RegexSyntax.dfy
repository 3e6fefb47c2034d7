// The pattern tree that the parser builds and the purely syntactic functions on it:
// `empty`, `count`, and the exact number of instructions `compile` emits.
module RegexSyntax {

  type Rune = nat

  // Runes are 32 bits wide.
  const RUNE_MAX: nat := 0xFFFF_FFFF

  const REPINF: nat := 255
  const MAXSUB: nat := 8

  // Inclusive ranges of runes, in the order the lexer added them.
  datatype Class = Class(spans: seq<(Rune, Rune)>)

  // `Nil` is the null pointer: an empty alternative such as the one in "a|".
  datatype Node =
    | Nil
    | Cat(x: Node, y: Node)
    | Alt(x: Node, y: Node)
    | Rep(ng: bool, m: nat, n: nat, x: Node)
    | Bol | Eol | Word | NWord
    | Par(n: nat, x: Node)
    | Pla(x: Node)
    | Nla(x: Node)
    | Any
    | Chr(c: Rune)
    | CClass(cc: Class)
    | NCClass(cc: Class)
    | Ref(n: nat, x: Node)

  // The program's own, conservative, emptiness test.
  predicate Empty(node: Node) {
    match node
    case Cat(x, y) => Empty(x) && Empty(y)
    case Alt(x, y) => Empty(x) || Empty(y)
    case Rep(_, m, _, x) => Empty(x) || m == 0
    case Par(_, x) => Empty(x)
    case Ref(_, x) => Empty(x)
    case Any => false
    case Chr(_) => false
    case CClass(_) => false
    case NCClass(_) => false
    case _ => true
  }

  // Every match of the node advances the subject. Differs from !Empty only on
  // back-references: one to a group that has not matched matches the empty string.
  predicate Consumes(node: Node) {
    match node
    case Cat(x, y) => Consumes(x) || Consumes(y)
    case Alt(x, y) => Consumes(x) && Consumes(y)
    case Rep(_, m, _, x) => Consumes(x) && m > 0
    case Par(_, x) => Consumes(x)
    case Any => true
    case Chr(_) => true
    case CClass(_) => true
    case NCClass(_) => true
    case _ => false
  }

  predicate RefFree(node: Node) {
    match node
    case Cat(x, y) => RefFree(x) && RefFree(y)
    case Alt(x, y) => RefFree(x) && RefFree(y)
    case Rep(_, _, _, x) => RefFree(x)
    case Par(_, x) => RefFree(x)
    case Pla(x) => RefFree(x)
    case Nla(x) => RefFree(x)
    case Ref(_, _) => false
    case _ => true
  }

  predicate LookFree(node: Node) {
    match node
    case Cat(x, y) => LookFree(x) && LookFree(y)
    case Alt(x, y) => LookFree(x) && LookFree(y)
    case Rep(_, _, _, x) => LookFree(x)
    case Par(_, x) => LookFree(x)
    case Pla(_) => false
    case Nla(_) => false
    case _ => true
  }

  // What `newrep` and the quantifier checks guarantee of every repetition.
  predicate RepsChecked(node: Node) {
    match node
    case Cat(x, y) => RepsChecked(x) && RepsChecked(y)
    case Alt(x, y) => RepsChecked(x) && RepsChecked(y)
    case Rep(_, m, n, x) => m <= n <= REPINF && m < REPINF && (n == REPINF ==> !Empty(x)) && RepsChecked(x)
    case Par(_, x) => RepsChecked(x)
    case Pla(x) => RepsChecked(x)
    case Nla(x) => RepsChecked(x)
    case Ref(_, _) => true
    case _ => true
  }

  // Every unbounded repetition has a body that consumes.
  predicate WellLooped(node: Node) {
    match node
    case Cat(x, y) => WellLooped(x) && WellLooped(y)
    case Alt(x, y) => WellLooped(x) && WellLooped(y)
    case Rep(_, m, n, x) => m <= n <= REPINF && m < REPINF && (n == REPINF ==> Consumes(x)) && WellLooped(x)
    case Par(_, x) => WellLooped(x)
    case Pla(x) => WellLooped(x)
    case Nla(x) => WellLooped(x)
    case _ => true
  }

  // The body of every unbounded lazy repetition consumes.
  predicate LazyConsume(node: Node) {
    match node
    case Cat(x, y) => LazyConsume(x) && LazyConsume(y)
    case Alt(x, y) => LazyConsume(x) && LazyConsume(y)
    case Rep(ng, _, n, x) => (ng && n == REPINF ==> Consumes(x)) && LazyConsume(x)
    case Par(_, x) => LazyConsume(x)
    case Pla(x) => LazyConsume(x)
    case Nla(x) => LazyConsume(x)
    case _ => true
  }

  // What makes the code of a node end: its bounds are in order, and the body of every unbounded
  // repetition consumes, except that a cut-off ends greedy ones too.
  predicate Ending(node: Node, cut: bool) {
    match node
    case Cat(x, y) => Ending(x, cut) && Ending(y, cut)
    case Alt(x, y) => Ending(x, cut) && Ending(y, cut)
    case Rep(ng, m, n, x) =>
      m <= n <= REPINF && m < REPINF && (n == REPINF ==> Consumes(x) || (cut && !ng)) && Ending(x, cut)
    case Par(_, x) => Ending(x, cut)
    case Pla(x) => Ending(x, cut)
    case Nla(x) => Ending(x, cut)
    case _ => true
  }

  lemma {:induction false} WellLoopedEnding(node: Node, cut: bool)
    requires WellLooped(node)
    ensures Ending(node, cut)
  {
    match node
    case Cat(x, y) => WellLoopedEnding(x, cut); WellLoopedEnding(y, cut);
    case Alt(x, y) => WellLoopedEnding(x, cut); WellLoopedEnding(y, cut);
    case Rep(_, _, _, x) => WellLoopedEnding(x, cut);
    case Par(_, x) => WellLoopedEnding(x, cut);
    case Pla(x) => WellLoopedEnding(x, cut);
    case Nla(x) => WellLoopedEnding(x, cut);
    case _ =>
  }

  // With references, only the lazy loops that the parser lets through are in doubt.
  lemma {:induction false} LazyConsumeEnding(node: Node)
    requires RepsChecked(node)
    ensures LazyConsume(node) <==> Ending(node, true)
  {
    match node
    case Cat(x, y) => LazyConsumeEnding(x); LazyConsumeEnding(y);
    case Alt(x, y) => LazyConsumeEnding(x); LazyConsumeEnding(y);
    case Rep(_, _, _, x) => LazyConsumeEnding(x);
    case Par(_, x) => LazyConsumeEnding(x);
    case Pla(x) => LazyConsumeEnding(x);
    case Nla(x) => LazyConsumeEnding(x);
    case _ =>
  }

  // Group numbers used by the node.
  function Groups(node: Node): set<nat> {
    match node
    case Cat(x, y) => Groups(x) + Groups(y)
    case Alt(x, y) => Groups(x) + Groups(y)
    case Rep(_, _, _, x) => Groups(x)
    case Par(n, x) => Groups(x) + {n}
    case Pla(x) => Groups(x)
    case Nla(x) => Groups(x)
    case _ => {}
  }

  // Group numbers fit the capture array and no group contains itself.
  predicate GroupsNested(node: Node) {
    match node
    case Cat(x, y) => GroupsNested(x) && GroupsNested(y)
    case Alt(x, y) => GroupsNested(x) && GroupsNested(y)
    case Rep(_, _, _, x) => GroupsNested(x)
    case Par(n, x) => 0 < n < MAXSUB && n !in Groups(x) && GroupsNested(x)
    case Pla(x) => GroupsNested(x)
    case Nla(x) => GroupsNested(x)
    case Ref(n, _) => n < MAXSUB
    case _ => true
  }

  // Groups that hold a nonempty stretch of the subject after a match of the node, if those in s
  // do before it.
  function Fills(node: Node, s: set<nat>): set<nat> {
    match node
    case Cat(x, y) => Fills(y, Fills(x, s))
    case Alt(x, y) => Fills(x, s) * Fills(y, s)
    case Rep(_, m, _, x) => if m > 0 then Fills(x, s - Groups(x)) else s - Groups(x)
    case Par(n, x) =>
      var inside := Fills(x, s - {n}) - {n};
      if Moves(x, s - {n}) then inside + {n} else inside
    case Pla(x) => Fills(x, s)
    case _ => s
  }

  // Every match of the node then advances the subject.
  predicate Moves(node: Node, s: set<nat>) {
    match node
    case Cat(x, y) => Moves(x, s) || Moves(y, Fills(x, s))
    case Alt(x, y) => Moves(x, s) && Moves(y, s)
    case Rep(_, m, _, x) => m > 0 && Moves(x, s - Groups(x))
    case Par(n, x) => Moves(x, s - {n})
    case Ref(n, _) => n in s
    case Any => true
    case Chr(_) => true
    case CClass(_) => true
    case NCClass(_) => true
    case _ => false
  }

  // Every unbounded repetition has a body that then advances.
  predicate Looped(node: Node, s: set<nat>) {
    match node
    case Cat(x, y) => Looped(x, s) && Looped(y, Fills(x, s))
    case Alt(x, y) => Looped(x, s) && Looped(y, s)
    case Rep(_, m, n, x) =>
      m <= n <= REPINF && m < REPINF && (n == REPINF ==> Moves(x, s - Groups(x))) && Looped(x, s - Groups(x))
    case Par(n, x) => Looped(x, s - {n})
    case Pla(x) => Looped(x, s)
    case Nla(x) => Looped(x, s)
    case _ => true
  }

  lemma {:induction false} ConsumesMoves(node: Node, s: set<nat>)
    requires Consumes(node)
    ensures Moves(node, s)
  {
    match node
    case Cat(x, y) => if Consumes(x) { ConsumesMoves(x, s); } else { ConsumesMoves(y, Fills(x, s)); }
    case Alt(x, y) => ConsumesMoves(x, s); ConsumesMoves(y, s);
    case Rep(_, _, _, x) => ConsumesMoves(x, s - Groups(x));
    case Par(n, x) => ConsumesMoves(x, s - {n});
    case _ =>
  }

  // Whatever the groups hold.
  lemma {:induction false} WellLoopedLooped(node: Node, s: set<nat>)
    requires WellLooped(node)
    ensures Looped(node, s)
  {
    match node
    case Cat(x, y) => WellLoopedLooped(x, s); WellLoopedLooped(y, Fills(x, s));
    case Alt(x, y) => WellLoopedLooped(x, s); WellLoopedLooped(y, s);
    case Rep(_, _, n, x) =>
      WellLoopedLooped(x, s - Groups(x));
      if n == REPINF { ConsumesMoves(x, s - Groups(x)); }
    case Par(n, x) => WellLoopedLooped(x, s - {n});
    case Pla(x) => WellLoopedLooped(x, s);
    case Nla(x) => WellLoopedLooped(x, s);
    case _ =>
  }

  // Groups outside the node stay as they are.
  lemma {:induction false} FillsKeeps(node: Node, s: set<nat>)
    ensures s - Groups(node) <= Fills(node, s)
  {
    match node
    case Cat(x, y) => FillsKeeps(x, s); FillsKeeps(y, Fills(x, s));
    case Alt(x, y) => FillsKeeps(x, s); FillsKeeps(y, s);
    case Rep(_, _, _, x) => FillsKeeps(x, s - Groups(x));
    case Par(n, x) => FillsKeeps(x, s - {n});
    case Pla(x) => FillsKeeps(x, s);
    case _ =>
  }

  lemma {:induction false} ConsumesIsNotEmpty(node: Node)
    requires RefFree(node)
    ensures Consumes(node) <==> !Empty(node)
  {
    match node
    case Cat(x, y) => ConsumesIsNotEmpty(x); ConsumesIsNotEmpty(y);
    case Alt(x, y) => ConsumesIsNotEmpty(x); ConsumesIsNotEmpty(y);
    case Rep(_, _, _, x) => ConsumesIsNotEmpty(x);
    case Par(_, x) => ConsumesIsNotEmpty(x);
    case _ =>
  }

  // The parser's check on `empty` is enough for patterns without back-references.
  lemma {:induction false} CheckedIsWellLooped(node: Node)
    requires RefFree(node) && RepsChecked(node)
    ensures WellLooped(node)
  {
    match node
    case Cat(x, y) => CheckedIsWellLooped(x); CheckedIsWellLooped(y);
    case Alt(x, y) => CheckedIsWellLooped(x); CheckedIsWellLooped(y);
    case Rep(_, _, _, x) => CheckedIsWellLooped(x); ConsumesIsNotEmpty(x);
    case Par(_, x) => CheckedIsWellLooped(x);
    case Pla(x) => CheckedIsWellLooped(x);
    case Nla(x) => CheckedIsWellLooped(x);
    case _ =>
  }

  // Size of k adjacent copies of a piece of code of size s.
  function Span(s: nat, k: nat): nat {
    if k == 0 then 0 else s + Span(s, k - 1)
  }

  // Turns of a loop from m up to n.
  function Beyond(m: nat, n: nat): nat {
    if m <= n then n - m else 0
  }

  // Number of instructions that `compile` emits.
  function Size(node: Node): nat {
    match node
    case Nil => 0
    case Cat(x, y) => Size(x) + Size(y)
    case Alt(x, y) => Size(x) + Size(y) + 2
    case Rep(_, m, n, x) =>
      Span(Size(x), m) +
      (if m == n then 0
       else if n < REPINF then Span(Size(x) + 1, Beyond(m, n))
       else if m == 0 then Size(x) + 2
       else 1)
    case Par(_, x) => Size(x) + 2
    case Pla(x) => Size(x) + 2
    case Nla(x) => Size(x) + 2
    case _ => 1
  }

  // The program's bound on that number, before truncation to 32 bits.
  function Count(node: Node): nat {
    match node
    case Nil => 0
    case Cat(x, y) => Count(x) + Count(y)
    case Alt(x, y) => Count(x) + Count(y) + 2
    case Rep(_, m, n, x) =>
      if m == n then Count(x) * m
      else if n < REPINF then Count(x) * n + Beyond(m, n)
      else Count(x) * (m + 1) + 2
    case Par(_, x) => Count(x) + 2
    case Pla(x) => Count(x) + 2
    case Nla(x) => Count(x) + 2
    case _ => 1
  }

  lemma {:induction false} SpanIsProduct(s: nat, k: nat)
    ensures Span(s, k) == s * k
  {
    if k > 0 {
      SpanIsProduct(s, k - 1);
      assert s * k == s * (k - 1) + s;
    }
  }

  lemma SpanMonotone(s: nat, t: nat, k: nat)
    requires s <= t
    ensures Span(s, k) <= Span(t, k)
  {
  }

  lemma {:induction false} SpanExtra(s: nat, k: nat)
    ensures Span(s + 1, k) == Span(s, k) + k
  {
    if k > 0 { SpanExtra(s, k - 1); }
  }

  lemma {:induction false} SpanSplit(s: nat, j: nat, k: nat)
    ensures Span(s, j + k) == Span(s, j) + Span(s, k)
  {
    if j > 0 {
      SpanSplit(s, j - 1, k);
      assert j + k - 1 == (j - 1) + k;
    }
  }

  // Buffers are large enough: the compiled code never exceeds the program's count.
  lemma {:induction false} SizeWithinCount(node: Node)
    requires RepsChecked(node)
    ensures Size(node) <= Count(node)
  {
    match node
    case Cat(x, y) => SizeWithinCount(x); SizeWithinCount(y);
    case Alt(x, y) => SizeWithinCount(x); SizeWithinCount(y);
    case Rep(_, m, n, x) =>
      SizeWithinCount(x);
      RepSizeWithinCount(Size(x), Count(x), m, n);
    case Par(_, x) => SizeWithinCount(x);
    case Pla(x) => SizeWithinCount(x);
    case Nla(x) => SizeWithinCount(x);
    case _ =>
  }

  lemma RepSizeWithinCount(s: nat, c: nat, m: nat, n: nat)
    requires s <= c && m <= n
    ensures Span(s, m) <= c * m
    ensures Span(s, m) + Span(s + 1, n - m) <= c * n + (n - m)
    ensures Span(s, m) + s + 2 <= c * (m + 1) + 2
  {
    SpanMonotone(s, c, m);
    SpanIsProduct(c, m);
    SpanExtra(s, n - m);
    SpanSplit(s, m, n - m);
    SpanMonotone(s, c, n);
    SpanIsProduct(c, n);
    SpanMonotone(s, c, m + 1);
    SpanIsProduct(c, m + 1);
  }
}
