// The buffer for the compiled code: its size is counted in 32-bit arithmetic, and whether the
// code fits it.
module RegexBuffer {
  import opened Options
  import opened Powers
  import opened RegexSyntax
  import opened RegexLexemes
  import opened RegexGrammar
  import opened RegexAccept

  // `count` as the program computes it, in 32-bit unsigned arithmetic.
  const WORD: nat := 0x1_0000_0000

  function Word(n: nat): nat {
    n % WORD
  }

  function CountWord(node: Node): nat {
    match node
    case Nil => 0
    case Cat(x, y) => Word(CountWord(x) + CountWord(y))
    case Alt(x, y) => Word(CountWord(x) + CountWord(y) + 2)
    case Rep(_, m, n, x) =>
      if m == n then Word(CountWord(x) * m)
      else if n < REPINF then Word(CountWord(x) * n + Beyond(m, n))
      else Word(CountWord(x) * (m + 1) + 2)
    case Par(_, x) => Word(CountWord(x) + 2)
    case Pla(x) => Word(CountWord(x) + 2)
    case Nla(x) => Word(CountWord(x) + 2)
    case _ => 1
  }

  // Instructions that the buffer has room for.
  function Capacity(node: Node): nat {
    Word(CountWord(node) + 6)
  }

  // Instructions that the program takes: the node's code and six around it.
  predicate Fits(node: Node) {
    Size(node) + 6 <= Capacity(node)
  }

  lemma {:induction false} CountWordIsCount(node: Node)
    ensures CountWord(node) == Word(Count(node))
    decreases node, 1
  {
    hide Word, Count, CountWord;
    match node
    case Cat(x, y) =>
      CountWordIsCount(x);
      CountWordIsCount(y);
      CatCounts(x, y);
      AddWord(Count(x), Count(y), 0);
    case Alt(x, y) =>
      CountWordIsCount(x);
      CountWordIsCount(y);
      AltCounts(x, y);
      AddWord(Count(x), Count(y), 2);
    case Rep(ng, m, n, x) => RepCountWord(ng, m, n, x);
    case Par(n, x) => CountWordIsCount(x); WrapCounts(n, x); AddWord(Count(x), 0, 2);
    case Pla(x) => CountWordIsCount(x); WrapCounts(0, x); AddWord(Count(x), 0, 2);
    case Nla(x) => CountWordIsCount(x); WrapCounts(0, x); AddWord(Count(x), 0, 2);
    case _ => LeafCounts(node);
  }

  lemma CatCounts(x: Node, y: Node)
    ensures Count(Cat(x, y)) == Count(x) + Count(y) && CountWord(Cat(x, y)) == Word(CountWord(x) + CountWord(y))
  {
    hide Word;
  }

  lemma AltCounts(x: Node, y: Node)
    ensures Count(Alt(x, y)) == Count(x) + Count(y) + 2 && CountWord(Alt(x, y)) == Word(CountWord(x) + CountWord(y) + 2)
  {
    hide Word;
  }

  lemma WrapCounts(n: nat, x: Node)
    ensures Count(Par(n, x)) == Count(Pla(x)) == Count(Nla(x)) == Count(x) + 2
    ensures CountWord(Par(n, x)) == CountWord(Pla(x)) == CountWord(Nla(x)) == Word(CountWord(x) + 2)
  {
    hide Word;
  }

  lemma LeafCounts(node: Node)
    requires !(node.Cat? || node.Alt? || node.Rep? || node.Par? || node.Pla? || node.Nla?)
    ensures CountWord(node) == Word(Count(node)) == Count(node) <= 1
  {
  }

  lemma {:induction false} RepCountWord(ng: bool, m: nat, n: nat, x: Node)
    ensures CountWord(Rep(ng, m, n, x)) == Word(Count(Rep(ng, m, n, x)))
    decreases Rep(ng, m, n, x), 0
  {
    hide Word, Count, CountWord;
    var c, w := Count(x), CountWord(x);
    CountWordIsCount(x);
    RepShapeOfCounts(ng, m, n, x);
    if m == n {
      MulWord(c, m, 0);
    } else if n < REPINF {
      MulWord(c, n, Beyond(m, n));
    } else {
      MulWord(c, m + 1, 2);
    }
  }

  lemma RepShapeOfCounts(ng: bool, m: nat, n: nat, x: Node)
    ensures Count(Rep(ng, m, n, x)) ==
      (if m == n then Count(x) * m else if n < REPINF then Count(x) * n + Beyond(m, n) else Count(x) * (m + 1) + 2)
    ensures CountWord(Rep(ng, m, n, x)) ==
      (if m == n then Word(CountWord(x) * m)
       else if n < REPINF then Word(CountWord(x) * n + Beyond(m, n))
       else Word(CountWord(x) * (m + 1) + 2))
  {
    hide Word, Beyond;
  }

  lemma AddWord(a: nat, b: nat, k: nat)
    ensures Word(Word(a) + Word(b) + k) == Word(a + b + k)
    ensures Word(Word(a) + k) == Word(a + k)
  {
  }

  lemma MulWord(a: nat, k: nat, j: nat)
    ensures Word(Word(a) * k) == Word(a * k)
    ensures Word(Word(a) * k + j) == Word(a * k + j)
  {
    var q := a / WORD;
    assert a == q * WORD + a % WORD;
    assert a * k == (a % WORD) * k + (q * k) * WORD;
    WordMultiple((a % WORD) * k, q * k);
    WordMultiple((a % WORD) * k + j, q * k);
  }

  lemma {:induction false} WordMultiple(a: nat, k: nat)
    ensures (a + k * WORD) % WORD == a % WORD
    decreases k
  {
    if k > 0 {
      WordMultiple(a, k - 1);
      assert a + k * WORD == (a + (k - 1) * WORD) + WORD;
    }
  }

  // The code fits exactly when it is no longer than what remains of the count after wrapping;
  // a count that does not wrap is always enough.
  lemma FitsIf(node: Node)
    requires RepsChecked(node)
    ensures Fits(node) <==> Size(node) + 6 <= (Count(node) + 6) % WORD
    ensures Count(node) + 6 < WORD ==> Fits(node) && Capacity(node) == Count(node) + 6
  {
    hide Count, CountWord, Size, RepsChecked;
    CountWordIsCount(node);
    AddWord(Count(node), 0, 6);
    SizeWithinCount(node);
  }

  // ----- Nested repetitions -----

  // A character, repeated, k times over.
  function Plus(k: nat): Node {
    if k == 0 then Any else Rep(false, 1, REPINF, Plus(k - 1))
  }

  lemma {:induction false} PlusCounts(k: nat)
    ensures RepsChecked(Plus(k)) && !Empty(Plus(k))
    ensures Size(Plus(k)) == k + 1 && Count(Plus(k)) == 3 * Pow2(k) - 2
  {
    if k > 0 {
      PlusCounts(k - 1);
      OneMorePlus(Plus(k - 1));
    }
  }

  lemma OneMorePlus(x: Node)
    ensures Size(Rep(false, 1, REPINF, x)) == Size(x) + 1 && Count(Rep(false, 1, REPINF, x)) == Count(x) * 2 + 2
  {
    assert Span(Size(x), 1) == Size(x) + Span(Size(x), 0);
  }

  lemma SmallPow2()
    ensures Pow2(8) == 256 && Pow2(16) == 0x1_0000 && Pow2(30) == 0x4000_0000 && Pow2(31) == 0x8000_0000 && Pow2(32) == WORD
  {
    assert Pow2(2) == 4 && Pow2(4) == 4 * Pow2(2) && Pow2(6) == 4 * Pow2(4) && Pow2(8) == 4 * Pow2(6);
    Pow2Adds(8, 8);
    Pow2Adds(16, 8);
    Pow2Adds(24, 6);
  }

  // The count doubles with every level while the code grows by one instruction: 31 levels
  // still fit although the count wraps, 32 or more never do.
  lemma PlusFits(k: nat)
    ensures Fits(Plus(k)) <==> k < 32
    ensures Count(Plus(k)) + 6 >= WORD <==> k >= 31
  {
    hide Count, CountWord, Size, RepsChecked, Fits;
    PlusCounts(k);
    FitsIf(Plus(k));
    SmallPow2();
    if k <= 30 {
      Pow2Grows(k, 30);
    } else if k > 31 {
      Pow2Adds(k - 32, 32);
      Pow2Grows(32, k);
      WordMultiple(4, 3 * Pow2(k - 32));
      assert 3 * Pow2(k) + 4 == 4 + 3 * Pow2(k - 32) * WORD;
    }
  }

  // Patterns for them.
  function PlusPattern(k: nat): string {
    if k == 0 then "." else "(?:" + PlusPattern(k - 1) + ")+"
  }

  function Runes(s: string): (pat: seq<Rune>)
    ensures |pat| == |s| && forall i :: 0 <= i < |s| ==> pat[i] == Code(s[i])
  {
    seq(|s|, i requires 0 <= i < |s| => Code(s[i]))
  }

  function PlusTokens(k: nat): seq<Lexeme> {
    if k == 0 then [Symbol('.')] else [LexNoCapture] + PlusTokens(k - 1) + [Symbol(')')] + [Symbol('+')]
  }

  lemma SymbolRead(pat: seq<Rune>, at: nat, c: char)
    requires at < |pat| && pat[at] == Code(c) && (c == '.' || c == ')' || c == '+')
    ensures LexemeAt(pat, at) == Some((Symbol(c), at + 1))
  {
    hide OneOf;
    SymbolsAre();
  }

  lemma SymbolsAre()
    ensures IsSymbol(Code('.')) && IsSymbol(Code(')')) && IsSymbol(Code('+')) && !IsSymbol(Code('('))
  {
    var symbols := "$)*+.?^|";
    assert symbols[1] == ')' && symbols[3] == '+' && symbols[4] == '.';
  }

  lemma OpenRead(pat: seq<Rune>, at: nat)
    requires at + 3 <= |pat| && pat[at] == Code('(') && pat[at + 1] == Code('?') && pat[at + 2] == Code(':')
    ensures LexemeAt(pat, at) == Some((LexNoCapture, at + 3))
  {
    hide OneOf;
    SymbolsAre();
  }

  lemma {:induction false} PlusRead(k: nat, pat: seq<Rune>, at: nat)
    requires at + |PlusPattern(k)| <= |pat|
    requires forall i :: 0 <= i < |PlusPattern(k)| ==> pat[at + i] == Code(PlusPattern(k)[i])
    ensures Tokens(pat, at, PlusTokens(k), at + |PlusPattern(k)|)
    decreases k
  {
    hide LexemeAt;
    if k == 0 {
      SymbolRead(pat, at, '.');
      assert PlusTokens(0)[1..] == [];
    } else {
      var inner, ts := PlusPattern(k - 1), PlusTokens(k - 1);
      var close := at + 3 + |inner|;
      assert forall i :: 0 <= i < |inner| ==> inner[i] == PlusPattern(k)[3 + i];
      PlusRead(k - 1, pat, at + 3);
      assert pat[at] == Code(PlusPattern(k)[0]) && pat[at + 1] == Code(PlusPattern(k)[1]) && pat[at + 2] == Code(PlusPattern(k)[2]);
      OpenRead(pat, at);
      assert ([LexNoCapture] + ts)[1..] == ts;
      assert pat[close] == Code(PlusPattern(k)[3 + |inner|]) && pat[close + 1] == Code(PlusPattern(k)[4 + |inner|]);
      SymbolRead(pat, close, ')');
      SymbolRead(pat, close + 1, '+');
      OneMoreToken(pat, at, [LexNoCapture] + ts, close, Symbol(')'), close + 1);
      OneMoreToken(pat, at, [LexNoCapture] + ts + [Symbol(')')], close + 1, Symbol('+'), close + 2);
    }
  }

  lemma {:induction false} PlusParsed(k: nat)
    ensures IsAlt(PlusTokens(k), 1, Plus(k), 1)
  {
    hide IsAlt, IsRep, IsAtom;
    var ts := PlusTokens(k);
    if k == 0 {
      DotParsed();
    } else {
      var inner := PlusTokens(k - 1);
      PlusParsed(k - 1);
      Grouped(LexNoCapture, inner, 1, 1, Plus(k - 1));
      var atom := [LexNoCapture] + inner + [Symbol(')')];
      Quantified(atom, [Symbol('+')], 1, 1, Plus(k - 1), false, 1, REPINF);
    }
    RepNonempty(ts, 1, Plus(k), 1);
    RunIsCat(ts, 1, Plus(k), 1);
  }

  lemma DotParsed()
    ensures IsAtom([Symbol('.')], 1, Any, 1) && IsRep([Symbol('.')], 1, Any, 1)
  {
  }

  lemma {:induction false} PlusWithin(k: nat, sub: Subs)
    ensures GroupsNested(Plus(k)) && RefsBound(Plus(k), sub)
  {
    if k > 0 { PlusWithin(k - 1, sub); }
  }

  lemma {:induction false} PlusClasses(k: nat)
    ensures Classes(PlusTokens(k)) == 0
  {
    if k == 0 {
      ClassesNext([], Symbol('.'));
      assert [] + [Symbol('.')] == PlusTokens(0);
    } else {
      var inner := PlusTokens(k - 1);
      PlusClasses(k - 1);
      assert ([LexNoCapture] + inner)[1..] == inner;
      ClassesNext([LexNoCapture] + inner, Symbol(')'));
      ClassesNext([LexNoCapture] + inner + [Symbol(')')], Symbol('+'));
    }
  }

  // The pattern of k nested repetitions is one that the parser takes, for that tree.
  lemma PlusAccepted(k: nat)
    ensures Acceptable(Runes(PlusPattern(k)), PlusTokens(k), Plus(k))
    ensures |PlusPattern(k)| == 5 * k + 1
  {
    hide Tokens, IsAlt, LexemeAt, Classes, RepsChecked, GroupsNested, RefsBound;
    var pat := Runes(PlusPattern(k));
    PlusRead(k, pat, 0);
    PlusParsed(k);
    EndRead(pat);
    PlusLength(k);
    PlusCounts(k);
    PlusWithin(k, NoSubs);
    PlusClasses(k);
    assert IsWhole(pat, PlusTokens(k), |pat|);
    assert IsAlt(PlusTokens(k), 1, Plus(k), 1);
  }

  lemma EndRead(pat: seq<Rune>)
    ensures LexemeAt(pat, |pat|) == Some((LexEnd, |pat| + 1))
  {
  }

  lemma {:induction false} PlusLength(k: nat)
    ensures |PlusPattern(k)| == 5 * k + 1
  {
    if k > 0 { PlusLength(k - 1); }
  }
}
