// The language of patterns: which tree a sequence of tokens stands for. Groups are numbered
// in the order of their opening parentheses, from lo up to hi.
module RegexGrammar {
  import opened RegexSyntax
  import opened RegexLexemes

  function Symbol(c: char): Lexeme { LexSymbol(Code(c)) }

  // alternatives, from left to right
  ghost predicate IsAlt(ts: seq<Lexeme>, lo: nat, node: Node, hi: nat)
    decreases |ts|, 5
  {
    || IsCat(ts, lo, node, hi)
    || exists i: nat, mid: nat {:trigger AltAt(ts, lo, node, hi, i, mid)} :: AltAt(ts, lo, node, hi, i, mid)
  }

  ghost predicate AltAt(ts: seq<Lexeme>, lo: nat, node: Node, hi: nat, i: nat, mid: nat)
    decreases |ts|, 4
  {
    && node.Alt? && i < |ts| && ts[i] == Symbol('|')
    && IsAlt(ts[..i], lo, node.x, mid) && IsCat(ts[i + 1..], mid, node.y, hi)
  }

  ghost predicate IsCat(ts: seq<Lexeme>, lo: nat, node: Node, hi: nat)
    decreases |ts|, 3
  {
    (ts == [] && node == Nil && lo == hi) || IsRun(ts, lo, node, hi)
  }

  // one or more quantified atoms, from left to right
  ghost predicate IsRun(ts: seq<Lexeme>, lo: nat, node: Node, hi: nat)
    decreases |ts|, 2
  {
    || IsRep(ts, lo, node, hi)
    || exists i: nat, mid: nat {:trigger RunAt(ts, lo, node, hi, i, mid)} :: RunAt(ts, lo, node, hi, i, mid)
  }

  ghost predicate RunAt(ts: seq<Lexeme>, lo: nat, node: Node, hi: nat, i: nat, mid: nat)
    decreases |ts|, 1
  {
    node.Cat? && 0 < i < |ts| && IsRun(ts[..i], lo, node.x, mid) && IsRep(ts[i..], mid, node.y, hi)
  }

  ghost predicate IsAssertion(ts: seq<Lexeme>, node: Node) {
    || (ts == [Symbol('^')] && node == Bol) || (ts == [Symbol('$')] && node == Eol)
    || (ts == [LexWord] && node == Word) || (ts == [LexNotWord] && node == NWord)
  }

  ghost predicate IsQuantifier(q: seq<Lexeme>, ng: bool, m: nat, n: nat) {
    && |q| == (if ng then 2 else 1) && (ng ==> q[1] == Symbol('?'))
    && (|| (q[0] == Symbol('*') && m == 0 && n == REPINF)
        || (q[0] == Symbol('+') && m == 1 && n == REPINF)
        || (q[0] == Symbol('?') && m == 0 && n == 1)
        || (q[0] == LexCount(m, n) && m <= n))
  }

  // an assertion, or an atom with at most one quantifier
  ghost predicate IsRep(ts: seq<Lexeme>, lo: nat, node: Node, hi: nat)
    decreases |ts|, 1
  {
    || (IsAssertion(ts, node) && lo == hi)
    || IsAtom(ts, lo, node, hi)
    || (node.Rep? &&
        var k := if node.ng then 2 else 1;
        |ts| > k && IsAtom(ts[..|ts| - k], lo, node.x, hi) && IsQuantifier(ts[|ts| - k..], node.ng, node.m, node.n))
  }

  ghost predicate IsLeaf(t: Lexeme, node: Node) {
    match t
    case LexChar(c) => node == Chr(c)
    case LexClass(cc) => node == CClass(cc)
    case LexNotClass(cc) => node == NCClass(cc)
    case LexRef(n) => node.Ref? && node.n == n && node.x.Par? && node.x.n == n
    case LexSymbol(c) => c == Code('.') && node == Any
    case _ => false
  }

  ghost predicate IsAtom(ts: seq<Lexeme>, lo: nat, node: Node, hi: nat)
    decreases |ts|, 0
  {
    || (|ts| == 1 && lo == hi && IsLeaf(ts[0], node))
    || (|ts| >= 2 && ts[|ts| - 1] == Symbol(')') &&
        var inner := ts[1..|ts| - 1];
        || (ts[0] == Symbol('(') && node.Par? && node.n == lo && IsAlt(inner, lo + 1, node.x, hi))
        || (ts[0] == LexNoCapture && IsAlt(inner, lo, node, hi))
        || (ts[0] == LexLook && node.Pla? && IsAlt(inner, lo, node.x, hi))
        || (ts[0] == LexNotLook && node.Nla? && IsAlt(inner, lo, node.x, hi)))
  }

  // The tree is one that the grammar gives to the tokens of the pattern.
  ghost predicate Derives(pat: seq<Rune>, ts: seq<Lexeme>, node: Node) {
    && (exists end: nat {:trigger IsWhole(pat, ts, end)} :: IsWhole(pat, ts, end))
    && (exists hi: nat {:trigger IsAlt(ts, 1, node, hi)} :: IsAlt(ts, 1, node, hi))
  }

  // ----- Putting tokens together -----

  lemma AltJoins(a: seq<Lexeme>, b: seq<Lexeme>, lo: nat, mid: nat, hi: nat, x: Node, y: Node)
    requires IsAlt(a, lo, x, mid) && IsCat(b, mid, y, hi)
    ensures IsAlt(a + [Symbol('|')] + b, lo, Alt(x, y), hi)
  {
    hide IsCat;
    var ts := a + [Symbol('|')] + b;
    assert ts[..|a|] == a && ts[|a| + 1..] == b;
    assert AltAt(ts, lo, Alt(x, y), hi, |a|, mid);
  }

  lemma RunJoins(a: seq<Lexeme>, b: seq<Lexeme>, lo: nat, mid: nat, hi: nat, x: Node, y: Node)
    requires IsRun(a, lo, x, mid) && IsRep(b, mid, y, hi) && a != [] && b != []
    ensures IsRun(a + b, lo, Cat(x, y), hi)
  {
    hide IsRep;
    var ts := a + b;
    assert ts[..|a|] == a && ts[|a|..] == b;
    assert RunAt(ts, lo, Cat(x, y), hi, |a|, mid);
  }

  lemma LazyQuantifier(t: Lexeme, m: nat, n: nat)
    requires IsQuantifier([t], false, m, n)
    ensures IsQuantifier([t, Symbol('?')], true, m, n)
  {
  }

  lemma Quantified(a: seq<Lexeme>, q: seq<Lexeme>, lo: nat, hi: nat, x: Node, ng: bool, m: nat, n: nat)
    requires IsAtom(a, lo, x, hi) && a != [] && IsQuantifier(q, ng, m, n)
    ensures IsRep(a + q, lo, Rep(ng, m, n, x), hi)
  {
    hide IsAtom, IsAssertion;
    var ts := a + q;
    assert ts[..|a|] == a && ts[|a|..] == q;
  }

  lemma Grouped(open: Lexeme, a: seq<Lexeme>, lo: nat, hi: nat, x: Node)
    requires open == Symbol('(') ==> IsAlt(a, lo + 1, x, hi)
    requires open != Symbol('(') ==> IsAlt(a, lo, x, hi)
    ensures var ts := [open] + a + [Symbol(')')];
      && (open == Symbol('(') ==> IsAtom(ts, lo, Par(lo, x), hi))
      && (open == LexNoCapture ==> IsAtom(ts, lo, x, hi))
      && (open == LexLook ==> IsAtom(ts, lo, Pla(x), hi))
      && (open == LexNotLook ==> IsAtom(ts, lo, Nla(x), hi))
  {
    hide IsAlt;
    var ts := [open] + a + [Symbol(')')];
    assert ts[1..|ts| - 1] == a;
  }

  lemma AtomNonempty(ts: seq<Lexeme>, lo: nat, node: Node, hi: nat)
    requires IsAtom(ts, lo, node, hi)
    ensures ts != [] && IsRep(ts, lo, node, hi)
  {
    hide IsAlt;
  }

  lemma RepNonempty(ts: seq<Lexeme>, lo: nat, node: Node, hi: nat)
    requires IsRep(ts, lo, node, hi)
    ensures ts != [] && IsRun(ts, lo, node, hi)
  {
    hide IsAlt;
  }

  lemma RunIsCat(ts: seq<Lexeme>, lo: nat, node: Node, hi: nat)
    requires IsRun(ts, lo, node, hi)
    ensures IsCat(ts, lo, node, hi) && IsAlt(ts, lo, node, hi)
  {
    hide IsRun;
  }

  lemma CatIsAlt(ts: seq<Lexeme>, lo: nat, node: Node, hi: nat)
    requires IsCat(ts, lo, node, hi)
    ensures IsAlt(ts, lo, node, hi)
  {
    hide IsCat;
  }
}
