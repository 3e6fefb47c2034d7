// The cut-off on waiting threads: a subject short enough for the program never reaches it, and
// inside a negative look-ahead reaching it turns a failure into a match.
module RegexCutoff {
  import opened Options
  import opened RegexSyntax
  import opened RegexMeaning
  import opened RegexMachine
  import opened RegexCode
  import opened RegexTermination
  import opened RegexRanks
  import opened RegexMatch
  import opened RegexLexemes
  import opened RegexGrammar
  import opened RegexAccept
  import opened RegexBuffer
  import opened RegexProgram

  // ----- Short subjects -----

  lemma ProgramRanks(code: seq<Inst>, ci: bool, node: Node) returns (r: seq<nat>)
    requires Steady(node) && LoadedProgram(code, ci, node)
    ensures RankedBelow(code, r, |code|)
  {
    hide Fine, Loaded, Size, GroupsNested, WellLooped, Compressed, Has, RankedBelow, Ranks, Start, Steady;
    var a := NodeRanks(code, ci, 4, node, 0);
    var s := AroundRanks(code, a, Size(node), Start(node, 0));
    r := Compressed(s);
    CompressedBelow(code, s);
  }

  // The search loop and the end around a ranking of the node's code.
  lemma AroundRanks(code: seq<Inst>, a: seq<nat>, n: nat, v: nat) returns (s: seq<nat>)
    requires Ranks(code, 4, a, n, v, 0) && |code| == n + 6
    requires Has(code, 0, Branch(I_SPLIT, 3, 1)) && Has(code, 1, Plain(I_ANYNL)) && Has(code, 2, Branch(I_JUMP, 0, 0))
    requires Has(code, 3, Mark(I_LPAR, 0)) && Has(code, 4 + n, Mark(I_RPAR, 0)) && Has(code, 5 + n, Plain(I_END))
    ensures |s| == |code| && forall pc: nat {:trigger Fine(code, 0, s, pc)} :: pc < |code| ==> Fine(code, 0, s, pc)
  {
    hide Fine, Has, Ranked;
    s := [v + 1, 0, v + 1, v] + a + [0];
    assert s[4..4 + |a|] == a;
    Embedded(code, 4, a, 0, s);
    SplitFine(code, 0, s, 0, 3, 1);
    AnyFine(code, s);
    JumpFine(code, 0, s, 2, 0);
    MarkFine(code, 0, s, 3, I_LPAR, 0);
    MarkFine(code, 0, s, 4 + n, I_RPAR, 0);
    EndFine(code, 0, s, 5 + n);
  }

  lemma AnyFine(code: seq<Inst>, s: seq<nat>)
    requires Has(code, 1, Plain(I_ANYNL)) && |s| > 1
    ensures Fine(code, 0, s, 1)
  {
  }

  // On a subject that is short for the program, what is reported is right, look-aheads or not.
  lemma ShortSubject(env: Env, code: seq<Inst>, node: Node)
    requires Steady(node) && LoadedProgram(code, env.ci, node) && IsSubject(env.txt)
    requires |code| * (|env.txt| + 1) <= CUTOFF
    ensures Answer(env, code, Strict) != Cut
    ensures Answer(env, code, Real) == Reported(FirstMatch(env, node, 0))
  {
    hide Run, Loaded, Size, FirstMatch, GroupsNested, WellLooped, Looped, Fine;
    var r := ProgramRanks(code, env.ci, node);
    SteadySound(node, {});
    var f := StrictAnswers(env, code, node);
    RoomAtAll(env, r, |code|, 0, 0);
    NeverCut(env, code, r, |code|, f, 0, 0, NoCaps, 0);
    UncutProgramIsCorrect(env, code, node);
  }

  // A short subject for the pattern's code.
  predicate IsShort(node: Node, txt: seq<Rune>) {
    (Size(node) + 6) * (|txt| + 1) <= CUTOFF
  }

  // When an answer is right: loops consume and the subject is short, or loops advance given the
  // groups that surely matched and no call is cut off.
  ghost predicate RightFor(env: Env, code: seq<Inst>, ts: seq<Lexeme>, node: Node) {
    || ((NoRefs(ts) || Steady(node)) && IsShort(node, env.txt))
    || ((NoRefs(ts) || Looped(node, {})) && Answer(env, code, Strict) != Cut)
  }

  // Compile a pattern and match a subject with it, as a caller does. Excluded are the patterns
  // that may run for ever. What is reported is right on a short subject, unless a loop is over a
  // reference, and wherever no call is cut off, unless a loop is over a group that may be unset.
  method Search(pat: seq<Rune>, env: Env) returns (r: Compilation, ok: bool, sub: Caps)
    requires IsSubject(pat) && IsSubject(env.txt)
    requires forall ts, node {:trigger Acceptable(pat, ts, node)} :: Acceptable(pat, ts, node) ==> AlwaysEnds(node)
    ensures r.Rejected? <==> !Spelled(pat)
    ensures forall ts, node {:trigger Acceptable(pat, ts, node)} :: Acceptable(pat, ts, node) ==> (r.Program? <==> Fits(node))
    ensures !r.Program? ==> !ok
    ensures r.Program? ==> r.prog.end <= r.prog.insts.Length
    ensures r.Program? ==>
      forall ts, node {:trigger Acceptable(pat, ts, node)} ::
        Acceptable(pat, ts, node) && RightFor(env, r.prog.Code(), ts, node) ==>
          var m := FirstMatch(env, node, 0);
          (ok <==> m.Some?) && sub == if ok then m.value.c else NoCaps
  {
    hide Loaded, Size, FirstMatch, Acceptable, LoadedProgram, AlwaysEnds, RepsChecked, GroupsNested, WellLooped, RightFor, NoRefs, Fits, Run;
    ok, sub := false, NoCaps;
    r := Regcomp(pat, env.ci);
    if r.Program? {
      ghost var code := r.prog.Code();
      ghost var ts, node :| Acceptable(pat, ts, node);
      AcceptedAnswers(env, code, pat, ts, node);
      ok, sub := Exec(r.prog, env.txt, env);
      forall ts, node | Acceptable(pat, ts, node) && RightFor(env, code, ts, node)
        ensures GroupsNested(node) && Answer(env, code, Real) == Reported(FirstMatch(env, node, 0))
      {
        RightAccepted(env, code, pat, ts, node);
      }
    }
  }

  lemma RightAccepted(env: Env, code: seq<Inst>, pat: seq<Rune>, ts: seq<Lexeme>, node: Node)
    requires Acceptable(pat, ts, node) && RightFor(env, code, ts, node)
    requires IsSubject(env.txt) && LoadedProgram(code, env.ci, node)
    ensures GroupsNested(node) && Answer(env, code, Real) == Reported(FirstMatch(env, node, 0))
  {
    hide Loaded, Size, FirstMatch, Acceptable, GroupsNested, WellLooped, Looped, NoRefs;
    AcceptableChecked(pat, ts, node);
    if (NoRefs(ts) || Steady(node)) && IsShort(node, env.txt) {
      ShortSubject(env, code, node);
    } else {
      UncutProgramIsCorrect(env, code, node);
    }
  }

  // ----- A failure that becomes a match -----

  // (?!a*b)
  const Fooled: Node := Nla(Ahead)

  const Ahead: Node := Cat(Letters, Chr(Code('b')))

  const Letters: Node := Rep(false, 0, REPINF, Chr(Code('a')))

  function Letter(c: char): Inst { Plain(I_CHAR).(c := Code(c)) }

  function FooledCode(): (code: seq<Inst>)
    ensures |code| == 12
  {
    [Branch(I_SPLIT, 3, 1), Plain(I_ANYNL), Branch(I_JUMP, 0, 0), Mark(I_LPAR, 0), Branch(I_NLA, 5, 10),
     Branch(I_SPLIT, 6, 8), Letter('a'), Branch(I_JUMP, 5, 0), Letter('b'), Plain(I_END), Mark(I_RPAR, 0), Plain(I_END)]
  }

  // k times the letter a, and b
  function Subject(k: nat): (txt: seq<Rune>)
    ensures |txt| == k + 1 && txt[k] == Code('b') && forall i :: 0 <= i < k ==> txt[i] == Code('a')
  {
    seq(k, _ => Code('a')) + [Code('b')]
  }

  function PlainEnv(txt: seq<Rune>): Env { Env(txt, false, false, false, false) }

  lemma FooledSizes()
    ensures Size(Letters) == 3 && Size(Ahead) == 4 && Size(Fooled) == 6
    ensures Steady(Letters) && Steady(Ahead) && Steady(Fooled)
  {
    assert Span(1, 0) == 0;
    assert Size(Chr(Code('a'))) == 1 && Size(Letters) == 3;
  }

  lemma LetterLoaded(code: seq<Inst>, at: nat, c: char)
    requires Has(code, at, Letter(c))
    ensures Loaded(code, false, at, Chr(Code(c)))
  {
  }

  lemma StarLoaded(code: seq<Inst>, at: nat, x: Node)
    requires Size(x) == 1 && Loaded(code, false, at + 1, x)
    requires Has(code, at, Branch(I_SPLIT, at + 1, at + 3)) && Has(code, at + 2, Branch(I_JUMP, at, 0))
    ensures Loaded(code, false, at, Rep(false, 0, REPINF, x))
  {
    hide Loaded, LoadedTimes;
    NoTimes(code, at, x);
    RepBuild(code, false, at, false, 0, REPINF, x);
  }

  lemma LettersLoaded()
    ensures Loaded(FooledCode(), false, 5, Letters) && Loaded(FooledCode(), false, 8, Chr(Code('b')))
  {
    hide Loaded;
    LetterLoaded(FooledCode(), 6, 'a');
    LetterLoaded(FooledCode(), 8, 'b');
    StarLoaded(FooledCode(), 5, Chr(Code('a')));
  }

  lemma FooledLoaded()
    ensures LoadedProgram(FooledCode(), false, Fooled) && Loaded(FooledCode(), false, 5, Ahead)
  {
    hide Loaded, Size, Letters;
    var code := FooledCode();
    FooledSizes();
    LettersLoaded();
    CatBuild(code, false, 5, Letters, Chr(Code('b')));
    LookBuild(code, false, 4, Fooled, Ahead, true);
  }

  lemma NoTimes(code: seq<Inst>, at: nat, x: Node)
    ensures LoadedTimes(code, false, at, x, 0) && Span(Size(x), 0) == 0
  {
  }

  const FooledPattern: seq<Rune> := [Code('('), Code('?'), Code('!'), Code('a'), Code('*'), Code('b'), Code(')')]

  const FooledTokens: seq<Lexeme> := [LexNotLook, LexChar(Code('a')), Symbol('*'), LexChar(Code('b')), Symbol(')')]

  // The pattern in full: it is read and parsed to that tree.
  lemma FooledAccepted()
    ensures Acceptable(FooledPattern, FooledTokens, Fooled)
  {
    hide Tokens, IsAlt, LexemeAt;
    FooledRead();
    FooledParsed();
    assert IsWhole(FooledPattern, FooledTokens, 7);
    assert IsAlt(FooledTokens, 1, Fooled, 1);
    assert Classes(FooledTokens) == 0;
  }

  lemma FooledRead()
    ensures Tokens(FooledPattern, 0, FooledTokens, 7) && LexemeAt(FooledPattern, 7) == Some((LexEnd, 8))
  {
    hide LexemeAt;
    var pat, ts := FooledPattern, FooledTokens;
    FooledLexemes();
    assert [] + [LexNotLook] == [LexNotLook];
    assert [LexNotLook] + [ts[1]] == [LexNotLook, ts[1]];
    assert [LexNotLook, ts[1]] + [ts[2]] == [LexNotLook, ts[1], ts[2]];
    assert [LexNotLook, ts[1], ts[2]] + [ts[3]] == [LexNotLook, ts[1], ts[2], ts[3]];
    assert [LexNotLook, ts[1], ts[2], ts[3]] + [ts[4]] == ts;
    OneMoreToken(pat, 0, [], 0, LexNotLook, 3);
    OneMoreToken(pat, 0, [LexNotLook], 3, ts[1], 4);
    OneMoreToken(pat, 0, [LexNotLook, ts[1]], 4, ts[2], 5);
    OneMoreToken(pat, 0, [LexNotLook, ts[1], ts[2]], 5, ts[3], 6);
    OneMoreToken(pat, 0, [LexNotLook, ts[1], ts[2], ts[3]], 6, ts[4], 7);
  }

  lemma FooledLexemes()
    ensures LexemeAt(FooledPattern, 0) == Some((LexNotLook, 3)) && LexemeAt(FooledPattern, 3) == Some((LexChar(Code('a')), 4))
    ensures LexemeAt(FooledPattern, 4) == Some((Symbol('*'), 5)) && LexemeAt(FooledPattern, 5) == Some((LexChar(Code('b')), 6))
    ensures LexemeAt(FooledPattern, 6) == Some((Symbol(')'), 7)) && LexemeAt(FooledPattern, 7) == Some((LexEnd, 8))
  {
    hide OneOf;
    FooledSymbols();
  }

  lemma FooledSymbols()
    ensures !IsSymbol(Code('(')) && !IsSymbol(Code('a')) && IsSymbol(Code('*')) && !IsSymbol(Code('b')) && IsSymbol(Code(')'))
  {
    var symbols := "$)*+.?^|";
    assert symbols[1] == ')' && symbols[2] == '*';
  }

  lemma FooledParsed()
    ensures IsAlt(FooledTokens, 1, Fooled, 1)
  {
    hide IsAlt, IsRep, IsAtom, IsRun;
    var ts := FooledTokens;
    var a, star, b := [ts[1]], [ts[2]], [ts[3]];
    assert IsAtom(a, 1, Chr(Code('a')), 1) && IsAtom(b, 1, Chr(Code('b')), 1) by { LetterParsed('a'); LetterParsed('b'); }
    Quantified(a, star, 1, 1, Chr(Code('a')), false, 0, REPINF);
    RepNonempty(a + star, 1, Letters, 1);
    AtomNonempty(b, 1, Chr(Code('b')), 1);
    RunJoins(a + star, b, 1, 1, 1, Letters, Chr(Code('b')));
    RunIsCat(a + star + b, 1, Ahead, 1);
    Grouped(LexNotLook, a + star + b, 1, 1, Ahead);
    assert [LexNotLook] + (a + star + b) + [Symbol(')')] == ts;
    AtomNonempty(ts, 1, Fooled, 1);
    RepNonempty(ts, 1, Fooled, 1);
    RunIsCat(ts, 1, Fooled, 1);
  }

  lemma LetterParsed(c: char)
    ensures IsAtom([LexChar(Code(c))], 1, Chr(Code(c)), 1)
  {
  }

  // What the instruction at pc does on such a subject.
  lemma FooledMove(k: nat, pc: nat, p: nat, c: Caps)
    requires pc < 12 && p <= k + 1
    ensures Decode(PlainEnv(Subject(k)), FooledCode(), pc, p, c) ==
      match pc
      case 0 => Fork(3, 1)
      case 1 => On(p <= k, 2, p + 1, c)
      case 2 => Goto(0, p, c)
      case 3 => Goto(4, p, c[0 := c[0].(sp := p)])
      case 4 => Look(true, 5, 10)
      case 5 => Fork(6, 8)
      case 6 => On(p < k, 7, p + 1, c)
      case 7 => Goto(5, p, c)
      case 8 => On(p == k, 9, p + 1, c)
      case 9 => Halt
      case 10 => Goto(11, p, c[0 := c[0].(ep := p)])
      case _ => Halt
  {
  }

  // The loop: each letter a leaves one more thread waiting.
  lemma {:induction false} LoopRun(k: nat, mode: Mode, f: nat, p: nat, c: Caps, d: nat)
    requires p <= k && f >= 3 * (k - p) + 4
    ensures Run(PlainEnv(Subject(k)), FooledCode(), mode, f, 5, p, c, d) ==
      if mode != Ideal && d + (k - p) >= CUTOFF then Cut else Found(k + 1, c)
    decreases k - p
  {
    hide Decode, Subject, FooledCode;
    var env, code := PlainEnv(Subject(k)), FooledCode();
    FooledMove(k, 5, p, c);
    FooledMove(k, 6, p, c);
    FooledMove(k, 8, p, c);
    if p < k {
      FooledMove(k, 7, p + 1, c);
      if mode == Ideal || d < CUTOFF {
        LoopRun(k, mode, f - 3, p + 1, c, d + 1);
        assert Run(env, code, mode, f - 1, 6, p, c, d + 1) == Run(env, code, mode, f - 2, 7, p + 1, c, d + 1)
          == Run(env, code, mode, f - 3, 5, p + 1, c, d + 1);
      }
    } else {
      FooledMove(k, 9, p + 1, c);
      assert Run(env, code, mode, f - 1, 6, p, c, d + 1) == Dead;
      assert Run(env, code, mode, f - 1, 8, p, c, d) == Run(env, code, mode, f - 2, 9, p + 1, c, d) == Found(p + 1, c);
    }
  }

  // One attempt at a position: the look-ahead fails where it should, up to the cut-off, and
  // holds behind the last letter.
  lemma AttemptRun(k: nat, mode: Mode, f: nat, p: nat, c: Caps, d: nat)
    requires p <= k + 1 && f >= 3 * (k + 1 - p) + 8
    ensures Run(PlainEnv(Subject(k)), FooledCode(), mode, f, 3, p, c, d) ==
      if p > k || (mode == Real && k - p >= CUTOFF) then Found(p, c[0 := Cap(p, p)])
      else if mode == Strict && k - p >= CUTOFF then Cut
      else Dead
  {
    hide Decode, Subject, FooledCode;
    var env, code := PlainEnv(Subject(k)), FooledCode();
    var c' := c[0 := c[0].(sp := p)];
    FooledMove(k, 3, p, c);
    FooledMove(k, 4, p, c');
    if p <= k {
      LoopRun(k, mode, f - 2, p, c', 0);
    } else {
      FooledMove(k, 5, p, c');
      FooledMove(k, 6, p, c');
      FooledMove(k, 8, p, c');
      assert Run(env, code, mode, f - 3, 6, p, c', 1) == Dead;
      assert Run(env, code, mode, f - 2, 5, p, c', 0) == Dead;
    }
    FooledMove(k, 10, p, c');
    FooledMove(k, 11, p, c'[0 := c'[0].(ep := p)]);
    assert Run(env, code, mode, f - 2, 10, p, c', d) == Found(p, c[0 := Cap(p, p)]);
  }

  // The whole search, while the subject is short enough.
  lemma {:induction false} SearchRun(k: nat, f: nat, p: nat)
    requires k < CUTOFF && p <= k + 1 && f >= 3 * (k + 1 - p) + 9
    ensures Run(PlainEnv(Subject(k)), FooledCode(), Strict, f, 0, p, NoCaps, 0).Found?
    decreases k + 1 - p
  {
    hide Decode, Subject, FooledCode;
    var env, code := PlainEnv(Subject(k)), FooledCode();
    FooledMove(k, 0, p, NoCaps);
    AttemptRun(k, Strict, f - 1, p, NoCaps, 1);
    if p <= k {
      FooledMove(k, 1, p, NoCaps);
      FooledMove(k, 2, p + 1, NoCaps);
      SearchRun(k, f - 3, p + 1);
      assert Run(env, code, Strict, f - 1, 1, p, NoCaps, 0) == Run(env, code, Strict, f - 2, 2, p + 1, NoCaps, 0)
        == Run(env, code, Strict, f - 3, 0, p + 1, NoCaps, 0);
    }
  }

  // The pattern matches nowhere among the letters.
  lemma NoAttempt(k: nat, p: nat)
    requires p <= k && IsSubject(Subject(k))
    ensures AttemptsAt(PlainEnv(Subject(k)), Fooled, p) == []
  {
    hide Results, Loaded, Size, Run, Val, Subject, FooledCode, Decode, WellLooped, Looped, GroupsNested;
    var env, code, c := PlainEnv(Subject(k)), FooledCode(), Started(p);
    FooledSizes();
    FooledLoaded();
    LoopRun(k, Ideal, 3 * (k - p) + 4, p, c, 0);
    ValOf(env, code, 3 * (k - p) + 4, 5, p, c, 0);
    SteadySound(Ahead, {});
    CodeMeaning(env, code, 5, Ahead, {}, p, c);
    NotAhead(env, p, c);
  }

  lemma NotAhead(env: Env, p: nat, c: Caps)
    requires p <= |env.txt| && GroupsNested(Ahead) && Results(env, Ahead, p, c) != []
    ensures Results(env, Fooled, p, c) == []
  {
    hide Results;
    LookResults(env, p, c);
  }

  lemma LookResults(env: Env, p: nat, c: Caps)
    requires p <= |env.txt| && GroupsNested(Ahead)
    ensures Results(env, Fooled, p, c) == If(Results(env, Ahead, p, c) == [], p, c)
  {
  }

  // The answer for (?!a*b) is right exactly while the letters are fewer than the threads that
  // may wait; from then on a match is reported at the start, where there is none.
  lemma CutoffFools(k: nat)
    ensures var env, code := PlainEnv(Subject(k)), FooledCode();
      && (Answer(env, code, Real) == Reported(FirstMatch(env, Fooled, 0)) <==> k < CUTOFF)
      && (k >= CUTOFF ==> Answer(env, code, Real) == Found(0, NoCaps[0 := Cap(0, 0)]) && AttemptsAt(env, Fooled, 0) == [])
    ensures LoadedProgram(FooledCode(), false, Fooled)
  {
    hide Run, Results, Loaded, Size, Subject, FooledCode, Decode, WellLooped, Looped, GroupsNested, Settled, FirstMatch, AttemptsAt;
    var env, code := PlainEnv(Subject(k)), FooledCode();
    FooledSizes();
    FooledLoaded();
    SubjectIs(k);
    SteadySettled(Strict, Fooled);
    SteadySettled(Real, Fooled);
    SteadySound(Fooled, {});
    if k < CUTOFF {
      var f := AnswerOf(env, code, Strict, Fooled);
      SearchRun(k, f + 3 * k + 12, 0);
      UncutProgramIsCorrect(env, code, Fooled);
    } else {
      var f := AnswerOf(env, code, Real, Fooled);
      StartRun(k, f + 3 * k + 12);
      NoAttempt(k, 0);
      LaterMatch(k);
    }
  }

  lemma SubjectIs(k: nat)
    ensures IsSubject(Subject(k))
  {
  }

  lemma StartRun(k: nat, f: nat)
    requires k >= CUTOFF && f >= 3 * k + 12
    ensures Run(PlainEnv(Subject(k)), FooledCode(), Real, f, 0, 0, NoCaps, 0) == Found(0, NoCaps[0 := Cap(0, 0)])
  {
    hide Decode, Subject, FooledCode;
    FooledMove(k, 0, 0, NoCaps);
    AttemptRun(k, Real, f - 1, 0, NoCaps, 1);
  }

  lemma LaterMatch(k: nat)
    requires GroupsNested(Fooled) && AttemptsAt(PlainEnv(Subject(k)), Fooled, 0) == []
    ensures Reported(FirstMatch(PlainEnv(Subject(k)), Fooled, 0)) != Found(0, NoCaps[0 := Cap(0, 0)])
  {
    hide Results, AttemptsAt, GroupsNested, FirstMatch;
    FirstMatchIsLeftmost(PlainEnv(Subject(k)), Fooled, 0);
  }
}
