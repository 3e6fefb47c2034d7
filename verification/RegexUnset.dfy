// Back-references to a group that has not matched: a loop over one does not advance. A greedy
// loop then goes round up to the cut-off, a lazy one for ever unless its way out succeeds.
module RegexUnset {
  import opened Options
  import opened RegexSyntax
  import opened RegexMeaning
  import opened RegexMachine
  import opened RegexCode
  import opened RegexTermination
  import opened RegexLexemes
  import opened RegexGrammar
  import opened RegexAccept
  import opened RegexProgram
  import opened RegexCutoff

  // ----- Loops over one reference, in any program -----

  predicate IsRefLoop(code: seq<Inst>, at: nat, n: nat, ng: bool): (r: bool)
    ensures r ==> n < MAXSUB
  {
    && n < MAXSUB
    && Has(code, at, Choice(ng, at + 1, at + 3))
    && Has(code, at + 1, Mark(I_REF, n))
    && Has(code, at + 2, Branch(I_JUMP, at, 0))
  }

  lemma RefLoopLoaded(code: seq<Inst>, ci: bool, at: nat, n: nat, x: Node, ng: bool)
    requires n < MAXSUB
    ensures IsRefLoop(code, at, n, ng) <==> Loaded(code, ci, at, Rep(ng, 0, REPINF, Ref(n, x)))
  {
    hide LoadedTimes, Has, Choice;
    RepBuild(code, ci, at, ng, 0, REPINF, Ref(n, x));
    assert LoadedTimes(code, ci, at, Ref(n, x), 0) by { NoCopies(code, ci, at, Ref(n, x)); }
  }

  lemma NoCopies(code: seq<Inst>, ci: bool, at: nat, x: Node)
    ensures LoadedTimes(code, ci, at, x, 0)
  {
  }

  lemma RefLoopMove(env: Env, code: seq<Inst>, at: nat, n: nat, ng: bool, p: nat, c: Caps)
    requires IsRefLoop(code, at, n, ng) && p <= |env.txt|
    ensures Decode(env, code, at, p, c) == if ng then Fork(at + 3, at + 1) else Fork(at + 1, at + 3)
    ensures Decode(env, code, at + 2, p, c) == Goto(at, p, c)
    ensures var adv := RefAdvance(env, c[n], p);
            Decode(env, code, at + 1, p, c) == if adv < 0 then Move.Fail else Goto(at + 2, p + adv, c)
  {
    hide RefAdvance;
  }

  // A greedy loop whose reference stays where it is leaves one more thread waiting each time
  // round: its way out is never tried.
  lemma {:induction false} GreedyLoopIsCut(env: Env, code: seq<Inst>, mode: Mode, at: nat, n: nat, f: nat, p: nat, c: Caps, d: nat)
    requires IsRefLoop(code, at, n, false) && p <= |env.txt| && mode != Ideal && RefAdvance(env, c[n], p) == 0
    requires f >= 3 * (if d < CUTOFF then CUTOFF - d else 0) + 1
    ensures Run(env, code, mode, f, at, p, c, d) == Cut
    decreases f
  {
    hide Decode, RefAdvance, IsRefLoop;
    RefLoopMove(env, code, at, n, false, p, c);
    if d < CUTOFF {
      GreedyLoopIsCut(env, code, mode, at, n, f - 3, p, c, d + 1);
      assert Run(env, code, mode, f - 1, at + 1, p, c, d + 1) == Run(env, code, mode, f - 2, at + 2, p, c, d + 1)
        == Run(env, code, mode, f - 3, at, p, c, d + 1);
    }
  }

  // Some number of steps gives an answer.
  ghost predicate Answers(env: Env, code: seq<Inst>, mode: Mode, pc: nat, p: nat, c: Caps, d: nat) {
    exists f: nat :: Run(env, code, mode, f, pc, p, c, d) != Undefined
  }

  ghost predicate Dies(env: Env, code: seq<Inst>, mode: Mode, pc: nat, p: nat, c: Caps, d: nat) {
    exists f: nat :: Run(env, code, mode, f, pc, p, c, d) == Dead
  }

  // A lazy loop over one reference, behind which everything ends, answers exactly if there is
  // no room for its split, the reference moves or fails, or its way out does not die.
  lemma LazyLoopAnswers(env: Env, code: seq<Inst>, mode: Mode, at: nat, n: nat, p: nat, c: Caps, d: nat)
    requires IsRefLoop(code, at, n, true) && p <= |env.txt| && EndsFrom(env, code, mode, at + 3, p, d)
    ensures Answers(env, code, mode, at, p, c, d) <==>
      || (mode != Ideal && d >= CUTOFF)
      || RefAdvance(env, c[n], p) != 0
      || !Dies(env, code, mode, at + 3, p, c, d + 1)
  {
    hide Decode, RefAdvance, IsRefLoop, Ends, Run;
    if mode != Ideal && d >= CUTOFF {
      LazyLoopCut(env, code, mode, at, n, p, c, d);
    } else if RefAdvance(env, c[n], p) == 0 && Dies(env, code, mode, at + 3, p, c, d + 1) {
      var g: nat :| Run(env, code, mode, g, at + 3, p, c, d + 1) == Dead;
      forall f: nat
        ensures Run(env, code, mode, f, at, p, c, d) == Undefined
      {
        LazyLoopGoesOn(env, code, mode, at, n, f, g, p, c, d);
      }
    } else {
      LazyLoopEnds(env, code, mode, at, n, p, c, d);
    }
  }

  lemma LazyLoopCut(env: Env, code: seq<Inst>, mode: Mode, at: nat, n: nat, p: nat, c: Caps, d: nat)
    requires IsRefLoop(code, at, n, true) && p <= |env.txt| && mode != Ideal && d >= CUTOFF
    ensures Answers(env, code, mode, at, p, c, d)
  {
    hide Decode, IsRefLoop;
    RefLoopMove(env, code, at, n, true, p, c);
    assert Run(env, code, mode, 1, at, p, c, d) == Cut;
  }

  // The saved thread for the body is taken when the way out dies, and comes back to the same
  // split with no more threads waiting.
  lemma {:induction false} LazyLoopGoesOn(env: Env, code: seq<Inst>, mode: Mode, at: nat, n: nat, f: nat, g: nat, p: nat, c: Caps, d: nat)
    requires IsRefLoop(code, at, n, true) && p <= |env.txt| && (mode == Ideal || d < CUTOFF)
    requires RefAdvance(env, c[n], p) == 0 && Run(env, code, mode, g, at + 3, p, c, d + 1) == Dead
    ensures Run(env, code, mode, f, at, p, c, d) == Undefined
    decreases f
  {
    hide Decode, RefAdvance, IsRefLoop;
    RefLoopMove(env, code, at, n, true, p, c);
    if f > 0 {
      var o := Run(env, code, mode, f - 1, at + 3, p, c, d + 1);
      if o != Undefined {
        MoreFuel(env, code, mode, f - 1, f + g, at + 3, p, c, d + 1);
        MoreFuel(env, code, mode, g, f + g, at + 3, p, c, d + 1);
        if f >= 3 {
          LazyLoopGoesOn(env, code, mode, at, n, f - 3, g, p, c, d);
          assert Run(env, code, mode, f - 2, at + 2, p, c, d) == Run(env, code, mode, f - 3, at, p, c, d);
        }
        assert f >= 2 ==> Run(env, code, mode, f - 1, at + 1, p, c, d) == Run(env, code, mode, f - 2, at + 2, p, c, d);
        assert Run(env, code, mode, f, at, p, c, d) == Run(env, code, mode, f - 1, at + 1, p, c, d);
      }
    }
  }

  lemma {:induction false} LazyLoopEnds(env: Env, code: seq<Inst>, mode: Mode, at: nat, n: nat, p: nat, c: Caps, d: nat)
    requires IsRefLoop(code, at, n, true) && p <= |env.txt| && EndsFrom(env, code, mode, at + 3, p, d)
    requires mode == Ideal || d < CUTOFF
    requires RefAdvance(env, c[n], p) != 0 || !Dies(env, code, mode, at + 3, p, c, d + 1)
    ensures Answers(env, code, mode, at, p, c, d)
    decreases |env.txt| - p
  {
    hide Decode, RefAdvance, IsRefLoop;
    RefLoopMove(env, code, at, n, true, p, c);
    assert Ends(env, code, mode, at + 3, p, d);
    var g: nat :| EndsBy(env, code, mode, g, at + 3, p, d);
    var o := Run(env, code, mode, g, at + 3, p, c, d + 1);
    assert o != Undefined;
    if o != Dead {
      assert Run(env, code, mode, g + 1, at, p, c, d) == o;
    } else {
      var adv := RefAdvance(env, c[n], p);
      if adv < 0 {
        MoreFuel(env, code, mode, g, g + 1, at + 3, p, c, d + 1);
        assert Run(env, code, mode, g + 1, at + 1, p, c, d) == Dead;
        assert Run(env, code, mode, g + 2, at, p, c, d) == Dead;
      } else {
        RefStillMoves(env, c[n], p, p + adv);
        LazyLoopEnds(env, code, mode, at, n, p + adv, c, d);
        var h: nat :| Run(env, code, mode, h, at, p + adv, c, d) != Undefined;
        RefLoopMove(env, code, at, n, true, p + adv, c);
        LazyRound(env, code, mode, at, g, h, p, p + adv, c, d);
      }
    }
  }

  lemma LazyRound(env: Env, code: seq<Inst>, mode: Mode, at: nat, g: nat, h: nat, p: nat, q: nat, c: Caps, d: nat)
    requires mode == Ideal || d < CUTOFF
    requires Decode(env, code, at, p, c) == Fork(at + 3, at + 1) && Decode(env, code, at + 1, p, c) == Goto(at + 2, q, c)
    requires Decode(env, code, at + 2, q, c) == Goto(at, q, c)
    requires Run(env, code, mode, g, at + 3, p, c, d + 1) == Dead && Run(env, code, mode, h, at, q, c, d) != Undefined
    ensures Answers(env, code, mode, at, p, c, d)
  {
    hide Decode;
    MoreFuel(env, code, mode, g, g + h + 2, at + 3, p, c, d + 1);
    MoreFuel(env, code, mode, h, g + h, at, q, c, d);
    assert Run(env, code, mode, g + h + 1, at + 2, q, c, d) == Run(env, code, mode, g + h, at, q, c, d);
    assert Run(env, code, mode, g + h + 2, at + 1, p, c, d) == Run(env, code, mode, g + h + 1, at + 2, q, c, d);
    assert Run(env, code, mode, g + h + 3, at, p, c, d) != Undefined;
  }

  lemma RefStillMoves(env: Env, cap: Cap, p: nat, q: nat)
    requires p <= |env.txt| && q <= |env.txt| && RefAdvance(env, cap, p) > 0
    ensures RefAdvance(env, cap, q) != 0
  {
  }

  // Behind the group itself the loop is sound, greedy or lazy: (a)\1* and (a)\1*?
  lemma SetIsSound(ng: bool)
    ensures var node := Cat(GroupA, Rep(ng, 0, REPINF, Ref(1, GroupA)));
      Sound(node, {}) && RepsChecked(node) && RefsBound(node, NoSubs) && !WellLooped(node)
  {
    assert Fills(GroupA, {}) == {1};
    assert {1} - Groups(Ref(1, GroupA)) == {1};
  }

  // ----- A greedy loop -----

  // (a)?\1*
  const Unset: Node := Cat(MaybeA, Again)

  const GroupA: Node := Par(1, Chr(Code('a')))

  const MaybeA: Node := Rep(false, 0, 1, GroupA)

  const Again: Node := Rep(false, 0, REPINF, Ref(1, GroupA))

  const UnsetPattern: seq<Rune> :=
    [Code('('), Code('a'), Code(')'), Code('?'), Code('\\'), Code('1'), Code('*')]

  const UnsetTokens: seq<Lexeme> :=
    [Symbol('('), LexChar(Code('a')), Symbol(')'), Symbol('?'), LexRef(1), Symbol('*')]

  // The pattern is read and parsed to that tree, its reference being to a group that is closed.
  lemma UnsetAccepted()
    ensures Acceptable(UnsetPattern, UnsetTokens, Unset)
  {
    hide Tokens, IsAlt, LexemeAt, RefsBound;
    UnsetRead();
    UnsetParsed();
    UnsetSizes();
    assert IsWhole(UnsetPattern, UnsetTokens, 7);
    assert IsAlt(UnsetTokens, 1, Unset, 2);
    assert Classes(UnsetTokens) == 0;
  }

  lemma UnsetRead()
    ensures Tokens(UnsetPattern, 0, UnsetTokens, 7) && LexemeAt(UnsetPattern, 7) == Some((LexEnd, 8))
  {
    hide LexemeAt;
    var pat, ts := UnsetPattern, UnsetTokens;
    UnsetLexemes();
    OneMoreToken(pat, 0, [], 0, ts[0], 1);
    assert [] + [ts[0]] == [ts[0]];
    OneMoreToken(pat, 0, [ts[0]], 1, ts[1], 2);
    assert [ts[0]] + [ts[1]] == [ts[0], ts[1]];
    OneMoreToken(pat, 0, [ts[0], ts[1]], 2, ts[2], 3);
    assert [ts[0], ts[1]] + [ts[2]] == [ts[0], ts[1], ts[2]];
    OneMoreToken(pat, 0, [ts[0], ts[1], ts[2]], 3, ts[3], 4);
    assert [ts[0], ts[1], ts[2]] + [ts[3]] == [ts[0], ts[1], ts[2], ts[3]];
    OneMoreToken(pat, 0, [ts[0], ts[1], ts[2], ts[3]], 4, ts[4], 6);
    assert [ts[0], ts[1], ts[2], ts[3]] + [ts[4]] == [ts[0], ts[1], ts[2], ts[3], ts[4]];
    OneMoreToken(pat, 0, [ts[0], ts[1], ts[2], ts[3], ts[4]], 6, ts[5], 7);
    assert [ts[0], ts[1], ts[2], ts[3], ts[4]] + [ts[5]] == ts;
  }

  lemma UnsetLexemes()
    ensures LexemeAt(UnsetPattern, 0) == Some((Symbol('('), 1)) && LexemeAt(UnsetPattern, 1) == Some((LexChar(Code('a')), 2))
    ensures LexemeAt(UnsetPattern, 2) == Some((Symbol(')'), 3)) && LexemeAt(UnsetPattern, 3) == Some((Symbol('?'), 4))
    ensures LexemeAt(UnsetPattern, 4) == Some((LexRef(1), 6)) && LexemeAt(UnsetPattern, 6) == Some((Symbol('*'), 7))
    ensures LexemeAt(UnsetPattern, 7) == Some((LexEnd, 8))
  {
    hide OneOf;
    UnsetSymbols();
  }

  lemma UnsetSymbols()
    ensures !IsSymbol(Code('(')) && !IsSymbol(Code('a')) && IsSymbol(Code('*')) && IsSymbol(Code('?')) && IsSymbol(Code(')'))
    ensures IsEscape(Code('1'))
  {
    var symbols, escapes := "$)*+.?^|", "BbDdSsWw^$\\.*+?()[]{}|0123456789";
    assert symbols[1] == ')' && symbols[2] == '*' && symbols[5] == '?';
    assert escapes[23] == '1';
  }

  lemma UnsetParsed()
    ensures IsAlt(UnsetTokens, 1, Unset, 2)
  {
    hide IsAlt, IsRep, IsAtom, IsRun;
    var ts := UnsetTokens;
    var a, maybe, again, star := [ts[1]], [ts[3]], [ts[4]], [ts[5]];
    LetterAt('a', 2);
    AtomNonempty(a, 2, Chr(Code('a')), 2);
    RepNonempty(a, 2, Chr(Code('a')), 2);
    RunIsCat(a, 2, Chr(Code('a')), 2);
    Grouped(Symbol('('), a, 1, 2, Chr(Code('a')));
    var group := [Symbol('(')] + a + [Symbol(')')];
    Quantified(group, maybe, 1, 2, GroupA, false, 0, 1);
    RepNonempty(group + maybe, 1, MaybeA, 2);
    RefParsed();
    Quantified(again, star, 2, 2, Ref(1, GroupA), false, 0, REPINF);
    RunJoins(group + maybe, again + star, 1, 2, 2, MaybeA, Again);
    assert (group + maybe) + (again + star) == ts;
    RunIsCat(ts, 1, Unset, 2);
  }

  lemma LetterAt(c: char, lo: nat)
    ensures IsAtom([LexChar(Code(c))], lo, Chr(Code(c)), lo)
  {
  }

  lemma RefParsed()
    ensures IsAtom([LexRef(1)], 2, Ref(1, GroupA), 2)
  {
  }

  function UnsetCode(): (code: seq<Inst>)
    ensures |code| == 13
  {
    [Branch(I_SPLIT, 3, 1), Plain(I_ANYNL), Branch(I_JUMP, 0, 0), Mark(I_LPAR, 0), Branch(I_SPLIT, 5, 8),
     Mark(I_LPAR, 1), Letter('a'), Mark(I_RPAR, 1), Branch(I_SPLIT, 9, 11), Mark(I_REF, 1), Branch(I_JUMP, 8, 0),
     Mark(I_RPAR, 0), Plain(I_END)]
  }

  lemma UnsetSizes()
    ensures Size(GroupA) == 3 && Size(MaybeA) == 4 && Size(Again) == 3 && Size(Unset) == 7
    ensures RepsChecked(Unset) && GroupsNested(Unset) && RefsBound(Unset, NoSubs) && !Sound(Unset, {})
  {
    assert Span(4, 1) == 4 + Span(4, 0);
    assert Span(3, 0) == 0 && Span(1, 0) == 0;
    assert Size(Ref(1, GroupA)) == 1;
  }

  lemma GroupALoaded()
    ensures Loaded(UnsetCode(), false, 5, GroupA)
  {
    hide Loaded, Size;
    LetterLoaded(UnsetCode(), 6, 'a');
    LeafBuild(UnsetCode(), false, 6, Chr(Code('a')));
    ParBuild(UnsetCode(), false, 5, 1, Chr(Code('a')));
  }

  lemma MaybeALoaded()
    ensures Loaded(UnsetCode(), false, 4, MaybeA)
  {
    hide Loaded, Size, LoadedTimes;
    UnsetSizes();
    GroupALoaded();
    NoTimes(UnsetCode(), 4, GroupA);
    RepBuild(UnsetCode(), false, 4, false, 0, 1, GroupA);
    OneOptional(UnsetCode(), 4, GroupA);
  }

  lemma OneOptional(code: seq<Inst>, at: nat, x: Node)
    requires Has(code, at, Branch(I_SPLIT, at + 1, at + 1 + Size(x))) && Loaded(code, false, at + 1, x)
    ensures LoadedOptionals(code, false, at, x, false, 1)
  {
    hide Loaded, Size;
    assert LoadedOptionals(code, false, at + 1 + Size(x), x, false, 0);
  }

  lemma RefLoaded(code: seq<Inst>, at: nat, x: Node)
    requires Has(code, at, Mark(I_REF, 1))
    ensures Loaded(code, false, at, Ref(1, x)) && Size(Ref(1, x)) == 1
  {
  }

  lemma UnsetLoaded()
    ensures LoadedProgram(UnsetCode(), false, Unset)
  {
    hide Loaded, Size, MaybeA, Again;
    var code := UnsetCode();
    UnsetSizes();
    MaybeALoaded();
    RefLoaded(code, 9, GroupA);
    AgainLoaded(code);
    CatBuild(code, false, 4, MaybeA, Again);
  }

  lemma AgainLoaded(code: seq<Inst>)
    requires Size(Ref(1, GroupA)) == 1 && Loaded(code, false, 9, Ref(1, GroupA))
    requires Has(code, 8, Branch(I_SPLIT, 9, 11)) && Has(code, 10, Branch(I_JUMP, 8, 0))
    ensures Loaded(code, false, 8, Again)
  {
    hide Loaded, Size;
    StarLoaded(code, 8, Ref(1, GroupA));
  }

  lemma UnsetMove(txt: seq<Rune>, pc: nat, p: nat, c: Caps)
    requires pc < 13 && p == 0 && (txt == [] || txt[0] != Code('a')) && (pc == 9 ==> c[1] == NoCap)
    requires pc != 1
    ensures Decode(PlainEnv(txt), UnsetCode(), pc, p, c) ==
      match pc
      case 0 => Fork(3, 1)
      case 2 => Goto(0, p, c)
      case 3 => Goto(4, p, c[0 := c[0].(sp := p)])
      case 4 => Fork(5, 8)
      case 5 => Goto(6, p, c[1 := c[1].(sp := p)])
      case 6 => Move.Fail
      case 7 => Goto(8, p, c[1 := c[1].(ep := p)])
      case 8 => Fork(9, 11)
      case 9 => Goto(10, p, c)
      case 10 => Goto(8, p, c)
      case 11 => Goto(12, p, c[0 := c[0].(ep := p)])
      case _ => Halt
  {
  }

  lemma UnsetLoop()
    ensures IsRefLoop(UnsetCode(), 8, 1, false)
  {
  }

  lemma UnsetRun(txt: seq<Rune>, f: nat)
    requires (txt == [] || txt[0] != Code('a')) && f >= 3 * CUTOFF + 4
    ensures Run(PlainEnv(txt), UnsetCode(), Real, f, 0, 0, NoCaps, 0) == Cut
  {
    hide Decode, UnsetCode;
    var env, code, c := PlainEnv(txt), UnsetCode(), NoCaps[0 := NoCaps[0].(sp := 0)];
    UnsetMove(txt, 0, 0, NoCaps);
    UnsetMove(txt, 3, 0, NoCaps);
    UnsetMove(txt, 4, 0, c);
    UnsetMove(txt, 5, 0, c);
    UnsetMove(txt, 6, 0, c[1 := c[1].(sp := 0)]);
    assert IsRefLoop(code, 8, 1, false) by { UnsetLoop(); }
    GreedyLoopIsCut(env, code, Real, 8, 1, f - 3, 0, c, 1);
    assert Run(env, code, Real, f - 4, 6, 0, c[1 := c[1].(sp := 0)], 2) == Dead;
    assert Run(env, code, Real, f - 3, 5, 0, c, 2) == Dead;
    assert Run(env, code, Real, f - 2, 4, 0, c, 1) == Cut;
    assert Run(env, code, Real, f - 1, 3, 0, NoCaps, 1) == Cut;
  }

  lemma NoGroupA(env: Env, p: nat, c: Caps)
    requires GroupsNested(GroupA) && !env.icase && !env.ci && p <= |env.txt| && At(env, p) != Code('a')
    ensures Results(env, GroupA, p, c) == []
  {
    assert Results(env, Chr(Code('a')), p, c[1 := c[1].(sp := p)]) == [];
  }

  lemma NoMaybeA(env: Env, p: nat, c: Caps)
    requires GroupsNested(MaybeA) && !env.icase && !env.ci && p <= |env.txt| && At(env, p) != Code('a')
    ensures Results(env, MaybeA, p, c) == [Res(p, c)]
  {
    NoGroupA(env, p, c);
    hide Results;
    MaybeResults(env, p, c);
    var one := [Res(p, c)];
    assert one[1..] == [];
    assert OptionalEach(env, GroupA, false, one) == [] + one + [];
    assert Optionals(env, GroupA, false, 0, one) == one;
  }

  lemma MaybeResults(env: Env, p: nat, c: Caps)
    requires GroupsNested(MaybeA) && p <= |env.txt|
    ensures Results(env, MaybeA, p, c) == Optionals(env, GroupA, false, 1, [Res(p, c)])
  {
    hide Optionals;
    assert Times(env, GroupA, 0, [Res(p, c)]) == [Res(p, c)];
  }

  lemma AgainOnce(env: Env, c: Caps)
    requires GroupsNested(Again) && c[1] == NoCap
    ensures Results(env, Again, 0, c) == [Res(0, c)]
  {
    var x, one := Ref(1, GroupA), [Res(0, c)];
    assert Results(env, x, 0, c) == one;
    hide Results;
    AgainResults(env, c);
    assert one[1..] == [];
    assert LoopEach(env, x, false, one, 1) == [] + LoopEach(env, x, false, [], 1);
    assert Loop(env, x, false, 0, c) == [] + one;
    assert LoopEach(env, x, false, one, 0) == one + LoopEach(env, x, false, [], 0);
  }

  lemma AgainResults(env: Env, c: Caps)
    requires GroupsNested(Again)
    ensures Results(env, Again, 0, c) == LoopEach(env, Ref(1, GroupA), false, [Res(0, c)], 0)
  {
    hide LoopEach;
    assert Times(env, Ref(1, GroupA), 0, [Res(0, c)]) == [Res(0, c)];
  }

  lemma UnsetMatches(txt: seq<Rune>)
    requires (txt == [] || txt[0] != Code('a')) && GroupsNested(Unset)
    ensures FirstMatch(PlainEnv(txt), Unset, 0).Some?
  {
    var env, c := PlainEnv(txt), Started(0);
    NoMaybeA(env, 0, c);
    AgainOnce(env, c);
    UnsetResults(env, c);
    hide Results;
    var one := [Res(0, c)];
    assert one[1..] == [];
    assert Each(env, Again, one) == one + Each(env, Again, []);
  }

  lemma UnsetResults(env: Env, c: Caps)
    requires GroupsNested(Unset)
    ensures Results(env, Unset, 0, c) == Each(env, Again, Results(env, MaybeA, 0, c))
  {
    hide Each;
  }

  // Before a loop the parser takes a reference for as long as its group. When the group is unset
  // the loop goes round without advancing, up to the cut-off: on every subject that does not
  // start with an a, a match at the start is missed.
  lemma UnsetIsMissed(txt: seq<Rune>)
    requires txt == [] || txt[0] != Code('a')
    ensures Answer(PlainEnv(txt), UnsetCode(), Real) == Cut && FirstMatch(PlainEnv(txt), Unset, 0).Some?
    ensures LoadedProgram(UnsetCode(), false, Unset)
  {
    hide Run, Decode, UnsetCode, Results, FirstMatch, Loaded, Size;
    UnsetLoaded();
    var env, code := PlainEnv(txt), UnsetCode();
    UnsetSizes();
    UnsetMatches(txt);
    UnsetRun(txt, 3 * CUTOFF + 4);
    var f: nat :| Run(env, code, Real, f, 0, 0, NoCaps, 0) != Undefined
      && Answer(env, code, Real) == Run(env, code, Real, f, 0, 0, NoCaps, 0);
    UnsetRun(txt, f + 3 * CUTOFF + 4);
    MoreFuel(env, code, Real, f, f + 3 * CUTOFF + 4, 0, 0, NoCaps, 0);
  }
}
