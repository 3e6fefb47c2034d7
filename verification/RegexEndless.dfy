// A lazy loop over a group that has not matched, in a pattern that the parser takes: on which
// subjects the program answers, and that it misses matches where it does not.
module RegexEndless {
  import opened Options
  import opened RegexSyntax
  import opened RegexMeaning
  import opened RegexMachine
  import opened RegexMatch
  import opened RegexCode
  import opened RegexTermination
  import opened RegexLexemes
  import opened RegexGrammar
  import opened RegexAccept
  import opened RegexProgram
  import opened RegexCutoff
  import opened RegexUnset

  // (a)?\1*?b
  const Lazy: Node := Cat(Head, Chr(Code('b')))

  const Head: Node := Cat(MaybeA, Spin)

  const Spin: Node := Rep(true, 0, REPINF, Ref(1, GroupA))

  const LazyPattern: seq<Rune> :=
    [Code('('), Code('a'), Code(')'), Code('?'), Code('\\'), Code('1'), Code('*'), Code('?'), Code('b')]

  const LazyTokens: seq<Lexeme> :=
    [Symbol('('), LexChar(Code('a')), Symbol(')'), Symbol('?'), LexRef(1), Symbol('*'), Symbol('?'), LexChar(Code('b'))]

  lemma LazyAccepted()
    ensures Acceptable(LazyPattern, LazyTokens, Lazy)
  {
    hide Tokens, IsAlt, LexemeAt, RefsBound;
    LazyRead();
    LazyParsed();
    LazySizes();
    LazyClasses();
    assert IsWhole(LazyPattern, LazyTokens, 9);
    assert IsAlt(LazyTokens, 1, Lazy, 2);
  }

  lemma LazyClasses()
    ensures Classes(LazyTokens) == 0
  {
    var ts := LazyTokens;
    ClassesNext(ts[..7], ts[7]);
    ClassesNext(ts[..6], ts[6]);
    assert ts == ts[..7] + [ts[7]] && ts[..7] == ts[..6] + [ts[6]];
    assert Classes(ts[..6]) == 0;
  }

  lemma LazyRead()
    ensures Tokens(LazyPattern, 0, LazyTokens, 9) && LexemeAt(LazyPattern, 9) == Some((LexEnd, 10))
  {
    hide LexemeAt;
    var pat, ts := LazyPattern, LazyTokens;
    LazyLexemes();
    OneMoreToken(pat, 0, [], 0, ts[0], 1);
    assert [] + [ts[0]] == [ts[0]];
    OneMoreToken(pat, 0, [ts[0]], 1, ts[1], 2);
    assert [ts[0]] + [ts[1]] == [ts[0], ts[1]];
    OneMoreToken(pat, 0, [ts[0], ts[1]], 2, ts[2], 3);
    assert [ts[0], ts[1]] + [ts[2]] == [ts[0], ts[1], ts[2]];
    OneMoreToken(pat, 0, [ts[0], ts[1], ts[2]], 3, ts[3], 4);
    assert [ts[0], ts[1], ts[2]] + [ts[3]] == [ts[0], ts[1], ts[2], ts[3]];
    OneMoreToken(pat, 0, [ts[0], ts[1], ts[2], ts[3]], 4, ts[4], 6);
    assert [ts[0], ts[1], ts[2], ts[3]] + [ts[4]] == [ts[0], ts[1], ts[2], ts[3], ts[4]];
    LazyReadRest([ts[0], ts[1], ts[2], ts[3], ts[4]]);
  }

  lemma LazyReadRest(five: seq<Lexeme>)
    requires five == LazyTokens[..5] && Tokens(LazyPattern, 0, five, 6)
    ensures Tokens(LazyPattern, 0, LazyTokens, 9)
  {
    hide LexemeAt, Tokens;
    var pat, ts := LazyPattern, LazyTokens;
    LazyLexemes();
    OneMoreToken(pat, 0, five, 6, ts[5], 7);
    OneMoreToken(pat, 0, five + [ts[5]], 7, ts[6], 8);
    OneMoreToken(pat, 0, five + [ts[5]] + [ts[6]], 8, ts[7], 9);
    assert five + [ts[5]] + [ts[6]] + [ts[7]] == ts;
  }

  lemma LazyLexemes()
    ensures LexemeAt(LazyPattern, 0) == Some((Symbol('('), 1)) && LexemeAt(LazyPattern, 1) == Some((LexChar(Code('a')), 2))
    ensures LexemeAt(LazyPattern, 2) == Some((Symbol(')'), 3)) && LexemeAt(LazyPattern, 3) == Some((Symbol('?'), 4))
    ensures LexemeAt(LazyPattern, 4) == Some((LexRef(1), 6)) && LexemeAt(LazyPattern, 6) == Some((Symbol('*'), 7))
    ensures LexemeAt(LazyPattern, 7) == Some((Symbol('?'), 8)) && LexemeAt(LazyPattern, 8) == Some((LexChar(Code('b')), 9))
    ensures LexemeAt(LazyPattern, 9) == Some((LexEnd, 10))
  {
    hide OneOf;
    UnsetSymbols();
    FooledSymbols();
  }

  lemma LazyParsed()
    ensures IsAlt(LazyTokens, 1, Lazy, 2)
  {
    hide IsAlt, IsRep, IsAtom, IsRun;
    var ts := LazyTokens;
    var a, maybe, again, star, b := [ts[1]], [ts[3]], [ts[4]], [ts[5], ts[6]], [ts[7]];
    LetterAt('a', 2);
    AtomNonempty(a, 2, Chr(Code('a')), 2);
    RepNonempty(a, 2, Chr(Code('a')), 2);
    RunIsCat(a, 2, Chr(Code('a')), 2);
    Grouped(Symbol('('), a, 1, 2, Chr(Code('a')));
    var group := [Symbol('(')] + a + [Symbol(')')];
    Quantified(group, maybe, 1, 2, GroupA, false, 0, 1);
    RepNonempty(group + maybe, 1, MaybeA, 2);
    RefParsed();
    Quantified(again, star, 2, 2, Ref(1, GroupA), true, 0, REPINF);
    RunJoins(group + maybe, again + star, 1, 2, 2, MaybeA, Spin);
    LetterAt('b', 2);
    AtomNonempty(b, 2, Chr(Code('b')), 2);
    RunJoins(group + maybe + (again + star), b, 1, 2, 2, Head, Chr(Code('b')));
    assert group + maybe + (again + star) + b == ts;
    RunIsCat(ts, 1, Lazy, 2);
  }

  function LazyCode(): (code: seq<Inst>)
    ensures |code| == 14
  {
    [Branch(I_SPLIT, 3, 1), Plain(I_ANYNL), Branch(I_JUMP, 0, 0), Mark(I_LPAR, 0), Branch(I_SPLIT, 5, 8),
     Mark(I_LPAR, 1), Letter('a'), Mark(I_RPAR, 1), Branch(I_SPLIT, 11, 9), Mark(I_REF, 1), Branch(I_JUMP, 8, 0),
     Letter('b'), Mark(I_RPAR, 0), Plain(I_END)]
  }

  lemma LazySizes()
    ensures Size(MaybeA) == 4 && Size(Spin) == 3 && Size(Head) == 7 && Size(Lazy) == 8
    ensures RepsChecked(Lazy) && GroupsNested(Lazy) && RefsBound(Lazy, NoSubs) && !LazyConsume(Lazy) && !Sound(Lazy, {})
  {
    UnsetSizes();
    assert Span(1, 0) == 0;
    assert Size(Chr(Code('b'))) == 1;
  }

  lemma LazyGroupLoaded()
    ensures Loaded(LazyCode(), false, 5, GroupA)
  {
    hide Loaded, Size;
    LetterLoaded(LazyCode(), 6, 'a');
    LeafBuild(LazyCode(), false, 6, Chr(Code('a')));
    ParBuild(LazyCode(), false, 5, 1, Chr(Code('a')));
  }

  lemma LazyMaybeLoaded()
    ensures Loaded(LazyCode(), false, 4, MaybeA)
  {
    hide Loaded, Size, LoadedTimes;
    var code := LazyCode();
    UnsetSizes();
    LazyGroupLoaded();
    NoTimes(code, 4, GroupA);
    RepBuild(code, false, 4, false, 0, 1, GroupA);
    OneOptional(code, 4, GroupA);
  }

  lemma SpinHere()
    ensures IsRefLoop(LazyCode(), 8, 1, true)
  {
  }

  lemma SpinLoaded()
    ensures Loaded(LazyCode(), false, 8, Spin)
  {
    hide Loaded, IsRefLoop, LazyCode, GroupA;
    SpinHere();
    RefLoopLoaded(LazyCode(), false, 8, 1, GroupA, true);
  }

  lemma LazyLoaded()
    ensures LoadedProgram(LazyCode(), false, Lazy)
  {
    hide Loaded, Size, MaybeA, Spin;
    var code := LazyCode();
    LazySizes();
    LazyMaybeLoaded();
    SpinLoaded();
    CatBuild(code, false, 4, MaybeA, Spin);
    LetterLoaded(code, 11, 'b');
    CatBuild(code, false, 4, Head, Chr(Code('b')));
  }

  // What the instruction at pc does.
  lemma LazyMove(txt: seq<Rune>, pc: nat, p: nat, c: Caps)
    requires pc < 14 && p <= |txt| && pc != 1 && pc != 9 && IsSubject(txt)
    ensures Decode(PlainEnv(txt), LazyCode(), pc, p, c) ==
      match pc
      case 0 => Fork(3, 1)
      case 2 => Goto(0, p, c)
      case 3 => Goto(4, p, c[0 := c[0].(sp := p)])
      case 4 => Fork(5, 8)
      case 5 => Goto(6, p, c[1 := c[1].(sp := p)])
      case 6 => On(p < |txt| && txt[p] == Code('a'), 7, p + 1, c)
      case 7 => Goto(8, p, c[1 := c[1].(ep := p)])
      case 8 => Fork(11, 9)
      case 10 => Goto(8, p, c)
      case 11 => On(p < |txt| && txt[p] == Code('b'), 12, p + 1, c)
      case 12 => Goto(13, p, c[0 := c[0].(ep := p)])
      case _ => Halt
  {
  }

  // From p on the subject has letters a and then a b.
  predicate LettersThenB(txt: seq<Rune>, p: nat)
    decreases |txt| - p
  {
    p < |txt| && (txt[p] == Code('b') || (txt[p] == Code('a') && LettersThenB(txt, p + 1)))
  }

  // The way out of the loop.
  lemma OutRun(txt: seq<Rune>, f: nat, p: nat, c: Caps, d: nat)
    requires IsSubject(txt) && p <= |txt| && f >= 3
    ensures var o := Run(PlainEnv(txt), LazyCode(), Real, f, 11, p, c, d);
      if p < |txt| && txt[p] == Code('b') then o.Found? else o == Dead
  {
    hide Decode, LazyCode;
    var env, code := PlainEnv(txt), LazyCode();
    LazyMove(txt, 11, p, c);
    if p < |txt| && txt[p] == Code('b') {
      LazyMove(txt, 12, p + 1, c);
      LazyMove(txt, 13, p + 1, c[0 := c[0].(ep := p + 1)]);
      assert Run(env, code, Real, f - 1, 12, p + 1, c, d) == Run(env, code, Real, f - 2, 13, p + 1, c[0 := c[0].(ep := p + 1)], d);
    }
  }

  // The loop over a group that holds the letter a.
  lemma {:induction false} LettersRun(txt: seq<Rune>, f: nat, p: nat, c: Caps, d: nat)
    requires IsSubject(txt) && p <= |txt| && d < CUTOFF && f >= 3 * (|txt| - p) + 4
    requires c[1] == Cap(0, 1) && txt != [] && txt[0] == Code('a')
    ensures var o := Run(PlainEnv(txt), LazyCode(), Real, f, 8, p, c, d);
      if LettersThenB(txt, p) then o.Found? else o == Dead
    decreases |txt| - p
  {
    hide Decode, LazyCode, RefAdvance, IsRefLoop;
    var env, code := PlainEnv(txt), LazyCode();
    SpinHere();
    LazyMove(txt, 8, p, c);
    OutRun(txt, f - 1, p, c, d + 1);
    RefLoopMove(env, code, 8, 1, true, p, c);
    LetterAgain(txt, p);
    if p < |txt| && txt[p] == Code('a') {
      LettersRun(txt, f - 3, p + 1, c, d);
      LazyMove(txt, 10, p + 1, c);
      assert Run(env, code, Real, f - 2, 10, p + 1, c, d) == Run(env, code, Real, f - 3, 8, p + 1, c, d);
      assert Run(env, code, Real, f - 1, 9, p, c, d) == Run(env, code, Real, f - 2, 10, p + 1, c, d);
    } else {
      assert Run(env, code, Real, f - 1, 9, p, c, d) == Dead;
    }
  }

  lemma LetterAgain(txt: seq<Rune>, p: nat)
    requires IsSubject(txt) && p <= |txt| && txt != [] && txt[0] == Code('a')
    ensures RefAdvance(PlainEnv(txt), Cap(0, 1), p) == if p < |txt| && txt[p] == Code('a') then 1 else -1
  {
    assert At(PlainEnv(txt), 0) == Code('a') && (p < |txt| ==> At(PlainEnv(txt), 0 - 0 + p) == txt[p]);
  }

  // With the letter a taken by the group.
  lemma GroupRun(txt: seq<Rune>, f: nat, c: Caps, d: nat)
    requires IsSubject(txt) && d < CUTOFF && f >= 3 * |txt| + 7
    ensures var o := Run(PlainEnv(txt), LazyCode(), Real, f, 5, 0, c, d);
      if LettersThenB(txt, 0) && txt[0] == Code('a') then o.Found? else o == Dead
  {
    hide Decode, LazyCode;
    var env, code := PlainEnv(txt), LazyCode();
    var c1 := c[1 := c[1].(sp := 0)];
    LazyMove(txt, 5, 0, c);
    LazyMove(txt, 6, 0, c1);
    if txt != [] && txt[0] == Code('a') {
      var c2 := c1[1 := c1[1].(ep := 1)];
      LazyMove(txt, 7, 1, c1);
      LettersRun(txt, f - 3, 1, c2, d);
      assert Run(env, code, Real, f - 2, 7, 1, c1, d) == Run(env, code, Real, f - 3, 8, 1, c2, d);
    }
    assert Run(env, code, Real, f, 5, 0, c, d) == Run(env, code, Real, f - 1, 6, 0, c1, d);
  }

  // The first attempt at a match: if the group can take no part in one, the loop is entered
  // with the group unset, and left only for a b.
  lemma FirstAttempt(txt: seq<Rune>, f: nat, c: Caps)
    requires IsSubject(txt) && c[1] == NoCap && f >= 3 * |txt| + 8
    ensures var o := Run(PlainEnv(txt), LazyCode(), Real, f, 4, 0, c, 1);
      if LettersThenB(txt, 0) then o.Found? else o == Undefined
  {
    hide Decode, LazyCode, RefAdvance, IsRefLoop;
    var env, code := PlainEnv(txt), LazyCode();
    LazyMove(txt, 4, 0, c);
    GroupRun(txt, f - 1, c, 2);
    LazyMove(txt, 8, 0, c);
    OutRun(txt, f - 2, 0, c, 2);
    if !LettersThenB(txt, 0) {
      SpinHere();
      StaysPut(env);
      LazyLoopGoesOn(env, code, Real, 8, 1, f - 1, f - 2, 0, c, 1);
    }
  }

  lemma StaysPut(env: Env)
    ensures RefAdvance(env, NoCap, 0) == 0
  {
  }

  lemma LazyRun(txt: seq<Rune>, f: nat)
    requires IsSubject(txt) && f >= 3 * |txt| + 10
    ensures var o := Run(PlainEnv(txt), LazyCode(), Real, f, 0, 0, NoCaps, 0);
      if LettersThenB(txt, 0) then o.Found? else o == Undefined
  {
    hide Decode, LazyCode;
    var env, code, c := PlainEnv(txt), LazyCode(), NoCaps[0 := NoCaps[0].(sp := 0)];
    LazyMove(txt, 0, 0, NoCaps);
    LazyMove(txt, 3, 0, NoCaps);
    FirstAttempt(txt, f - 2, c);
    assert Run(env, code, Real, f - 1, 3, 0, NoCaps, 1) == Run(env, code, Real, f - 2, 4, 0, c, 1);
  }

  // Around a b, the loop taken no times, there is always a match.
  lemma LazyAttempt(env: Env, s: nat)
    requires GroupsNested(Lazy) && !env.icase && !env.ci && s < |env.txt| && env.txt[s] == Code('b')
    ensures AttemptsAt(env, Lazy, s) != []
  {
    var c := Started(s);
    NoMaybeA(env, s, c);
    SpinOnce(env, s, c);
    LazyResults(env, s, c);
    hide Results;
    var one := [Res(s, c)];
    assert one[1..] == [];
    assert Each(env, Spin, one) == one + Each(env, Spin, []);
    assert Each(env, Chr(Code('b')), one) == Results(env, Chr(Code('b')), s, c) + Each(env, Chr(Code('b')), []);
  }

  lemma LazyResults(env: Env, s: nat, c: Caps)
    requires GroupsNested(Lazy) && s < |env.txt| && !env.icase && !env.ci && env.txt[s] == Code('b')
    ensures Results(env, Lazy, s, c) == Each(env, Chr(Code('b')), Each(env, Spin, Results(env, MaybeA, s, c)))
    ensures Results(env, Chr(Code('b')), s, c) == [Res(s + 1, c)]
  {
    hide Each;
  }

  lemma SpinOnce(env: Env, p: nat, c: Caps)
    requires GroupsNested(Spin) && p <= |env.txt| && c[1] == NoCap
    ensures Results(env, Spin, p, c) == [Res(p, c)]
  {
    var x, one := Ref(1, GroupA), [Res(p, c)];
    assert Results(env, x, p, c) == one;
    hide Results;
    SpinResults(env, p, c);
    assert one[1..] == [];
    assert LoopEach(env, x, true, one, p + 1) == [] + LoopEach(env, x, true, [], p + 1);
    assert Loop(env, x, true, p, c) == one + [];
    assert LoopEach(env, x, true, one, 0) == one + LoopEach(env, x, true, [], 0);
  }

  lemma SpinResults(env: Env, p: nat, c: Caps)
    requires GroupsNested(Spin) && p <= |env.txt|
    ensures Results(env, Spin, p, c) == LoopEach(env, Ref(1, GroupA), true, [Res(p, c)], 0)
  {
    hide LoopEach;
    assert Times(env, Ref(1, GroupA), 0, [Res(p, c)]) == [Res(p, c)];
  }

  lemma LazyMatches(txt: seq<Rune>)
    requires Code('b') in txt && GroupsNested(Lazy)
    ensures FirstMatch(PlainEnv(txt), Lazy, 0).Some?
  {
    hide Results, AttemptsAt, FirstMatch;
    var s :| 0 <= s < |txt| && txt[s] == Code('b');
    LazyAttempt(PlainEnv(txt), s);
    FirstMatchIsLeftmost(PlainEnv(txt), Lazy, 0);
  }

  // The program for (a)?\1*?b answers exactly on the subjects that start with letters a and a b.
  // On all others it runs for ever, although each of them that has a b has a match.
  lemma LazyAnswers(txt: seq<Rune>)
    requires IsSubject(txt)
    ensures Answer(PlainEnv(txt), LazyCode(), Real) != Undefined <==> LettersThenB(txt, 0)
    ensures Code('b') in txt ==> FirstMatch(PlainEnv(txt), Lazy, 0).Some?
    ensures LoadedProgram(LazyCode(), false, Lazy)
  {
    hide Run, Decode, LazyCode, Results, FirstMatch, Loaded, Size, LettersThenB;
    var env, code := PlainEnv(txt), LazyCode();
    LazyLoaded();
    LazySizes();
    if Code('b') in txt { LazyMatches(txt); }
    var m := 3 * |txt| + 10;
    LazyRun(txt, m);
    if Answer(env, code, Real) != Undefined {
      var f := AnswerBy(env, code, Real);
      LazyRun(txt, f + m);
    } else {
      assert Run(env, code, Real, m, 0, 0, NoCaps, 0) == Undefined;
    }
  }
}
