// A whole compiled pattern: the unanchored search loop around the code of the node, what it
// finds, and the public entry points that build and run it.
module RegexProgram {
  import opened Options
  import opened RegexSyntax
  import opened RegexMeaning
  import opened RegexAdvance
  import opened RegexMachine
  import opened RegexCode
  import opened RegexTermination
  import opened RegexCompile
  import opened RegexMatch
  import opened RegexLexemes
  import opened RegexGrammar
  import opened RegexBuffer
  import opened RegexAccept
  import RegexParser

  predicate LoadedProgram(code: seq<Inst>, ci: bool, node: Node) {
    && |code| == Size(node) + 6
    && Has(code, 0, Branch(I_SPLIT, 3, 1))
    && Has(code, 1, Plain(I_ANYNL))
    && Has(code, 2, Branch(I_JUMP, 0, 0))
    && Has(code, 3, Mark(I_LPAR, 0))
    && Loaded(code, ci, 4, node)
    && Has(code, 4 + Size(node), Mark(I_RPAR, 0))
    && Has(code, 5 + Size(node), Plain(I_END))
  }

  // Captures at the start of an attempt at s: only the start of the whole match is known.
  function Started(s: nat): Caps {
    NoCaps[0 := Cap(s, NULL)]
  }

  // The ways the pattern can match starting exactly at s.
  function AttemptsAt(env: Env, node: Node, s: nat): (rs: seq<Res>)
    requires GroupsNested(node) && s <= |env.txt|
  {
    Results(env, node, s, Started(s))
  }

  // The preferred match at the first position from s on that has one.
  function FirstMatch(env: Env, node: Node, s: nat): Option<Res>
    requires GroupsNested(node) && s <= |env.txt|
    decreases |env.txt| - s
  {
    var rs := AttemptsAt(env, node, s);
    if rs != [] then Some(Res(rs[0].p, rs[0].c[0 := rs[0].c[0].(ep := rs[0].p)]))
    else if s < |env.txt| then FirstMatch(env, node, s + 1)
    else None
  }

  // A match is leftmost, preferred among those that start there, and its groups are sane.
  lemma {:induction false} FirstMatchIsLeftmost(env: Env, node: Node, s: nat)
    requires GroupsNested(node) && s <= |env.txt|
    ensures FirstMatch(env, node, s).None? ==>
      forall q: nat :: s <= q <= |env.txt| ==> AttemptsAt(env, node, q) == []
    ensures FirstMatch(env, node, s).Some? ==>
      var r := FirstMatch(env, node, s).value;
      var start := r.c[0].sp;
      && s <= start <= r.p <= |env.txt| && r.c[0] == Cap(start, r.p)
      && AttemptsAt(env, node, start) != []
      && AttemptsAt(env, node, start)[0].p == r.p
      && (forall g: nat :: 0 < g < MAXSUB ==>
            r.c[g] == AttemptsAt(env, node, start)[0].c[g] && (Unset(r.c[g]) || Proper(env, r.c[g])))
      && (forall q: nat :: s <= q < start ==> AttemptsAt(env, node, q) == [])
    decreases |env.txt| - s
  {
    hide Results;
    var rs := AttemptsAt(env, node, s);
    if rs != [] {
      ResultsAdvance(env, node, s, Started(s));
      assert Continues(env, Groups(node), Step(node), Res(s, Started(s)), rs[0]);
      GroupsPositive(node);
    } else if s < |env.txt| {
      FirstMatchIsLeftmost(env, node, s + 1);
    }
  }

  lemma GroupsPositive(node: Node)
    requires GroupsNested(node)
    ensures 0 !in Groups(node)
  {
  }

  // The ideal machine finds exactly the first match.
  lemma {:induction false} ProgramMeaning(env: Env, code: seq<Inst>, node: Node, s: nat)
    requires Sound(node, {}) && LoadedProgram(code, env.ci, node) && IsSubject(env.txt) && s <= |env.txt|
    ensures Val(env, code, 0, s, NoCaps) ==
      match FirstMatch(env, node, s)
      case None => Dead
      case Some(r) => Found(r.p, r.c)
    decreases |env.txt| - s
  {
    hide Results, Loaded, Size, Val, GroupsNested, Looped, Tries;
    var rs := AttemptsAt(env, node, s);
    ValSplit(env, code, 0, 3, 1, s, NoCaps);
    ValOpen(env, code, 3, 0, s, NoCaps);
    CodeMeaning(env, code, 4, node, {}, s, Started(s));
    FinishMeaning(env, code, 4 + Size(node), rs);
    ValAnyNl(env, code, s);
    if s < |env.txt| {
      ValJump(env, code, 2, 0);
      ProgramMeaning(env, code, node, s + 1);
    }
  }

  lemma FinishMeaning(env: Env, code: seq<Inst>, at: nat, rs: seq<Res>)
    requires Has(code, at, Mark(I_RPAR, 0)) && Has(code, at + 1, Plain(I_END)) && InText(env, rs)
    ensures Tries(env, code, at, rs) ==
      if rs == [] then Dead else Found(rs[0].p, rs[0].c[0 := rs[0].c[0].(ep := rs[0].p)])
  {
    CloseMeaning(env, code, at, 0, rs);
    EndMeaning(env, code, at + 1, Close(0, rs));
  }

  lemma ValAnyNl(env: Env, code: seq<Inst>, s: nat)
    requires Has(code, 1, Plain(I_ANYNL)) && IsSubject(env.txt) && s <= |env.txt|
    ensures Val(env, code, 1, s, NoCaps) == if s < |env.txt| then Val(env, code, 2, s + 1, NoCaps) else Dead
  {
    Unfold(env, code, 1, s, NoCaps);
  }

  // Running the program of a tree that the mode lets end does end.
  lemma {:induction false} ProgramEnds(env: Env, code: seq<Inst>, mode: Mode, node: Node, s: nat)
    requires Settled(mode, node) && LoadedProgram(code, env.ci, node) && s <= |env.txt|
    ensures Ends(env, code, mode, 0, s, 0)
    decreases |env.txt| - s
  {
    hide Ends, Loaded, Size, Settled;
    EndEnds(env, code, mode, 5 + Size(node), s, 0);
    MarkEnds(env, code, mode, 4 + Size(node), I_RPAR, 0, s, 0);
    NodeEnds(env, code, mode, 4, node, s, 0);
    OpenEnds(env, code, mode, 3, 0, s, 0);
    Deeper(env, code, mode, 3, s, 0, 1);
    AnyNlEnds(env, code, mode, node, s);
    ForkEnds(env, code, mode, 0, s, 3, 1, 0);
  }

  lemma {:induction false} AnyNlEnds(env: Env, code: seq<Inst>, mode: Mode, node: Node, s: nat)
    requires Settled(mode, node) && LoadedProgram(code, env.ci, node) && s <= |env.txt|
    ensures Ends(env, code, mode, 1, s, 0)
    decreases |env.txt| - s, 0
  {
    forall q: nat | s + 1 <= q <= |env.txt|
      ensures Ends(env, code, mode, 2, q, 0)
    {
      hide Ends, Loaded, Size, Settled;
      ProgramEnds(env, code, mode, node, q);
      JumpHere(env, code, mode, q);
    }
    GotoEnds(env, code, mode, 1, s, 2, s + 1, 0);
  }

  lemma JumpHere(env: Env, code: seq<Inst>, mode: Mode, q: nat)
    requires Has(code, 2, Branch(I_JUMP, 0, 0)) && q <= |env.txt| && Ends(env, code, mode, 0, q, 0)
    ensures Ends(env, code, mode, 2, q, 0)
  {
    var f: nat :| EndsBy(env, code, mode, f, 0, q, 0);
    var g := f + 1;
    forall c: Caps, d: nat
      ensures Run(env, code, mode, g, 2, q, c, d) != Undefined
    {
      assert Decode(env, code, 2, q, c) == Goto(0, q, c);
    }
    assert EndsBy(env, code, mode, g, 2, q, 0);
  }

  // What running the program from the start of the subject answers.
  ghost function Answer(env: Env, code: seq<Inst>, mode: Mode): Outcome {
    Limit(env, code, mode, 0, 0, NoCaps)
  }

  // An answer there is at all is the one that enough fuel gives.
  lemma AnswerBy(env: Env, code: seq<Inst>, mode: Mode) returns (f: nat)
    requires Answer(env, code, mode) != Undefined
    ensures forall g: nat :: g >= f ==> Run(env, code, mode, g, 0, 0, NoCaps, 0) == Answer(env, code, mode)
  {
    hide Run;
    f :| Run(env, code, mode, f, 0, 0, NoCaps, 0) != Undefined
      && Answer(env, code, mode) == Run(env, code, mode, f, 0, 0, NoCaps, 0);
    forall g: nat | g >= f
      ensures Run(env, code, mode, g, 0, 0, NoCaps, 0) == Answer(env, code, mode)
    {
      MoreFuel(env, code, mode, f, g, 0, 0, NoCaps, 0);
    }
  }

  lemma AnswerOf(env: Env, code: seq<Inst>, mode: Mode, node: Node) returns (f: nat)
    requires Settled(mode, node) && LoadedProgram(code, env.ci, node)
    ensures Answer(env, code, mode) == Run(env, code, mode, f, 0, 0, NoCaps, 0) != Undefined
    ensures forall g: nat :: g >= f ==> Run(env, code, mode, g, 0, 0, NoCaps, 0) == Answer(env, code, mode)
  {
    hide Run, Loaded, Size, Settled;
    ProgramEnds(env, code, mode, node, 0);
    var h: nat :| EndsBy(env, code, mode, h, 0, 0, 0);
    assert Run(env, code, mode, h, 0, 0, NoCaps, 0) != Undefined;
    f := AnswerBy(env, code, mode);
  }

  function Reported(m: Option<Res>): Outcome {
    match m
    case None => Dead
    case Some(r) => Found(r.p, r.c)
  }

  // The program of a sound tree answers on every subject, if only that it was cut off.
  lemma StrictAnswers(env: Env, code: seq<Inst>, node: Node) returns (f: nat)
    requires Sound(node, {}) && LoadedProgram(code, env.ci, node) && IsSubject(env.txt)
    ensures Answer(env, code, Strict) != Undefined
    ensures forall g: nat :: g >= f ==> Run(env, code, Strict, g, 0, 0, NoCaps, 0) == Answer(env, code, Strict)
  {
    hide Run, Loaded, Size, FirstMatch, GroupsNested, Looped;
    ProgramMeaning(env, code, node, 0);
    var h := Enough(env, code, 0, 0, NoCaps);
    assert Run(env, code, Ideal, h, 0, 0, NoCaps, 0) != Undefined;
    StrictFollows(env, code, h, 0, 0, NoCaps, 0, 0);
    f := AnswerBy(env, code, Strict);
  }

  // Unless some call of `match` hits the cut-off, the program reports the leftmost match
  // that the pattern prefers, or that there is none.
  lemma UncutProgramIsCorrect(env: Env, code: seq<Inst>, node: Node)
    requires Sound(node, {}) && LoadedProgram(code, env.ci, node) && IsSubject(env.txt)
    requires Answer(env, code, Strict) != Cut
    ensures Answer(env, code, Real) == Answer(env, code, Strict) == Reported(FirstMatch(env, node, 0))
  {
    hide Run, Loaded, Size, FirstMatch, GroupsNested, Looped;
    var f := StrictAnswers(env, code, node);
    UncutIsIdeal(env, code, f, 0, 0, NoCaps, 0);
    assert Run(env, code, Real, f, 0, 0, NoCaps, 0) != Undefined;
    var g := AnswerBy(env, code, Real);
    UncutIsIdeal(env, code, f + g, 0, 0, NoCaps, 0);
    ValOf(env, code, f + g, 0, 0, NoCaps, 0);
    ProgramMeaning(env, code, node, 0);
  }

  predicate NoLooks(code: seq<Inst>) {
    forall i :: 0 <= i < |code| ==> code[i].op != I_PLA && code[i].op != I_NLA
  }

  predicate NoLooksIn(code: seq<Inst>, lo: nat, hi: nat) {
    forall i :: lo <= i < hi && i < |code| ==> code[i].op != I_PLA && code[i].op != I_NLA
  }

  // Code has look-aheads only where the tree does.
  lemma {:induction false} NodeNoLooks(code: seq<Inst>, ci: bool, at: nat, node: Node)
    requires RepsChecked(node) && LookFree(node) && Loaded(code, ci, at, node)
    ensures NoLooksIn(code, at, at + Size(node))
    decreases node, 1
  {
    hide Loaded, Size, NoLooksIn, Has;
    match node
    case Nil => assert NoLooksIn(code, at, at + Size(Nil)) by { NilBuild(code, ci, at); NoneNoLooks(code, at); }
    case Cat(x, y) =>
      CatBuild(code, ci, at, x, y);
      PairSizes(x, y);
      NodeNoLooks(code, ci, at, x);
      NodeNoLooks(code, ci, at + Size(x), y);
      JoinNoLooks(code, at, at + Size(x), at + Size(node));
    case Alt(x, y) =>
      AltBuild(code, ci, at, x, y);
      PairSizes(x, y);
      NodeNoLooks(code, ci, at + 1, x);
      NodeNoLooks(code, ci, at + Size(x) + 2, y);
      BranchesNoLooks(code, at, Size(x), Size(y));
    case Rep(ng, m, n, x) => RepNoLooks(code, ci, at, ng, m, n, x);
    case Par(n, x) =>
      ParBuild(code, ci, at, n, x);
      WrapSizes(n, x);
      NodeNoLooks(code, ci, at + 1, x);
      MarksNoLooks(code, at, n, Size(x));
    case _ => LeafNoLooks(code, ci, at, node);
  }

  lemma NoneNoLooks(code: seq<Inst>, at: nat)
    ensures NoLooksIn(code, at, at)
  {
  }

  lemma JoinNoLooks(code: seq<Inst>, lo: nat, mid: nat, hi: nat)
    requires NoLooksIn(code, lo, mid) && NoLooksIn(code, mid, hi)
    ensures NoLooksIn(code, lo, hi)
  {
  }

  lemma BranchesNoLooks(code: seq<Inst>, at: nat, n: nat, k: nat)
    requires Has(code, at, Branch(I_SPLIT, at + 1, at + n + 2)) && Has(code, at + 1 + n, Branch(I_JUMP, at + n + 2 + k, 0))
    requires NoLooksIn(code, at + 1, at + 1 + n) && NoLooksIn(code, at + n + 2, at + n + 2 + k)
    ensures NoLooksIn(code, at, at + n + k + 2)
  {
  }

  lemma MarksNoLooks(code: seq<Inst>, at: nat, g: nat, n: nat)
    requires Has(code, at, Mark(I_LPAR, g)) && Has(code, at + 1 + n, Mark(I_RPAR, g)) && NoLooksIn(code, at + 1, at + 1 + n)
    ensures NoLooksIn(code, at, at + n + 2)
  {
  }

  lemma LeafNoLooks(code: seq<Inst>, ci: bool, at: nat, node: Node)
    requires RegexCode.IsLeaf(node) && !node.Nil? && Loaded(code, ci, at, node)
    ensures NoLooksIn(code, at, at + Size(node))
  {
    hide Loaded;
    LeafBuild(code, ci, at, node);
  }

  lemma {:induction false} TimesNoLooks(code: seq<Inst>, ci: bool, at: nat, x: Node, k: nat)
    requires RepsChecked(x) && LookFree(x) && LoadedTimes(code, ci, at, x, k)
    ensures NoLooksIn(code, at, at + Span(Size(x), k))
    decreases x, 2, k
  {
    hide Loaded, Size, RepsChecked, LookFree;
    if k > 0 {
      NodeNoLooks(code, ci, at, x);
      TimesNoLooks(code, ci, at + Size(x), x, k - 1);
    }
  }

  lemma {:induction false} OptionalsNoLooks(code: seq<Inst>, ci: bool, at: nat, x: Node, ng: bool, k: nat)
    requires RepsChecked(x) && LookFree(x) && LoadedOptionals(code, ci, at, x, ng, k)
    ensures NoLooksIn(code, at, at + Span(Size(x) + 1, k))
    decreases x, 2, k
  {
    hide Loaded, Size, RepsChecked, LookFree;
    if k > 0 {
      NodeNoLooks(code, ci, at + 1, x);
      OptionalsNoLooks(code, ci, at + 1 + Size(x), x, ng, k - 1);
    }
  }

  lemma {:induction false} RepNoLooks(code: seq<Inst>, ci: bool, at: nat, ng: bool, m: nat, n: nat, x: Node)
    requires RepsChecked(Rep(ng, m, n, x)) && LookFree(x) && Loaded(code, ci, at, Rep(ng, m, n, x))
    ensures NoLooksIn(code, at, at + Size(Rep(ng, m, n, x)))
    decreases Rep(ng, m, n, x), 0
  {
    hide Loaded, Size, LoadedTimes, LoadedOptionals, Span, LookFree;
    RepBuild(code, ci, at, ng, m, n, x);
    RepSize(ng, m, n, x);
    var next := at + Span(Size(x), m);
    TimesNoLooks(code, ci, at, x, m);
    if m == n {
    } else if n < REPINF {
      OptionalsNoLooks(code, ci, next, x, ng, n - m);
    } else if m == 0 {
      NodeNoLooks(code, ci, next + 1, x);
    }
  }

  lemma ProgramNoLooks(code: seq<Inst>, ci: bool, node: Node)
    requires RepsChecked(node) && LookFree(node) && LoadedProgram(code, ci, node)
    ensures NoLooks(code)
  {
    hide Loaded, Size, RepsChecked, LookFree;
    NodeNoLooks(code, ci, 4, node);
  }

  lemma {:induction false} NoLooksSame(env: Env, code: seq<Inst>, f: nat, pc: nat, p: nat, c: Caps, d: nat)
    requires NoLooks(code)
    ensures Run(env, code, Real, f, pc, p, c, d) == Run(env, code, Strict, f, pc, p, c, d)
    decreases f
  {
    hide Decode;
    if f > 0 {
      NoLookMove(env, code, pc, p, c);
      match Decode(env, code, pc, p, c)
      case Goto(pc', p', c') => NoLooksSame(env, code, f - 1, pc', p', c', d);
      case Fork(x, y) =>
        NoLooksSame(env, code, f - 1, x, p, c, d + 1);
        NoLooksSame(env, code, f - 1, y, p, c, d);
      case _ =>
    }
  }

  lemma NoLookMove(env: Env, code: seq<Inst>, pc: nat, p: nat, c: Caps)
    requires NoLooks(code)
    ensures !Decode(env, code, pc, p, c).Look?
  {
  }

  // Without look-aheads it always answers, and the cut-off can only turn a match into a failure:
  // whatever is reported as a match is the right one.
  lemma ReportedMatchIsCorrect(env: Env, code: seq<Inst>, node: Node)
    requires Sound(node, {}) && LoadedProgram(code, env.ci, node) && IsSubject(env.txt) && NoLooks(code)
    ensures Answer(env, code, Real) != Undefined
    ensures Answer(env, code, Real).Found? ==> Answer(env, code, Real) == Reported(FirstMatch(env, node, 0))
  {
    hide Run, Loaded, Size, FirstMatch, GroupsNested, Looped;
    var f := StrictAnswers(env, code, node);
    NoLooksSame(env, code, f, 0, 0, NoCaps, 0);
    assert Run(env, code, Real, f, 0, 0, NoCaps, 0) != Undefined;
    var g := AnswerBy(env, code, Real);
    NoLooksSame(env, code, f + g, 0, 0, NoCaps, 0);
    if Answer(env, code, Real).Found? { UncutProgramIsCorrect(env, code, node); }
  }

  // A tree whose program always ends: the body of each unbounded lazy repetition consumes, or
  // every loop advances and there are no look-aheads.
  predicate AlwaysEnds(node: Node) {
    LazyConsume(node) || (Looped(node, {}) && LookFree(node))
  }

  // With back-references too, the program of such an accepted pattern answers on every subject.
  lemma AcceptedAnswers(env: Env, code: seq<Inst>, pat: seq<Rune>, ts: seq<Lexeme>, node: Node)
    requires Acceptable(pat, ts, node) && AlwaysEnds(node) && LoadedProgram(code, env.ci, node) && IsSubject(env.txt)
    ensures Answer(env, code, Real) != Undefined
  {
    hide Run, Loaded, Size, LoadedProgram, Acceptable, LazyConsume, GroupsNested, Ending, RepsChecked, Looped, LookFree, NoLooks, FirstMatch;
    AcceptableChecked(pat, ts, node);
    if LazyConsume(node) {
      LazyConsumeEnding(node);
      var f := AnswerOf(env, code, Real, node);
    } else {
      ProgramNoLooks(code, env.ci, node);
      ReportedMatchIsCorrect(env, code, node);
    }
  }

  // The search loop in front of the node's code.
  method Prologue(prog: Reprog)
    requires prog.end == 0 && prog.insts.Length >= 4
    modifies prog`end, prog.insts
    ensures prog.end == 4 && prog.Code() == [Branch(I_SPLIT, 3, 1), Plain(I_ANYNL), Branch(I_JUMP, 0, 0), Mark(I_LPAR, 0)]
  {
    var split := prog.Emit(Plain(I_SPLIT));
    prog.Patch(split, Branch(I_SPLIT, split + 3, split + 1));
    var _ := prog.Emit(Plain(I_ANYNL));
    var jump := prog.Emit(Plain(I_JUMP));
    prog.Patch(jump, Branch(I_JUMP, split, 0));
    var _ := prog.Emit(Mark(I_LPAR, 0));
  }

  // The six fixed instructions and the node's code, in a buffer of the counted size.
  method Assemble(node: Node, icase: bool, nsub: nat) returns (prog: Reprog)
    requires RepsChecked(node) && Fits(node)
    ensures prog.insts.Length == (Count(node) + 6) % WORD
    ensures prog.end <= prog.insts.Length && LoadedProgram(prog.Code(), icase, node)
    ensures prog.icase == icase && prog.nsub == nsub && fresh(prog) && fresh(prog.insts)
  {
    hide Loaded, Size, RepsChecked, CountWord, Count;
    CountWordIsCount(node);
    AddWord(Count(node), 0, 6);
    prog := new Reprog(Capacity(node), icase, nsub);
    Prologue(prog);
    ghost var c0 := prog.Code();
    prog.Compile(node);
    ghost var c1 := prog.Code();
    assert c1[..4] == c0;
    var close := prog.Emit(Mark(I_RPAR, 0));
    var end := prog.Emit(Plain(I_END));
    ProgramFinish(c0, c1, prog.Code(), icase, node);
  }

  lemma ProgramFinish(c0: seq<Inst>, c1: seq<Inst>, code: seq<Inst>, ci: bool, node: Node)
    requires RepsChecked(node)
    requires c0 == [Branch(I_SPLIT, 3, 1), Plain(I_ANYNL), Branch(I_JUMP, 0, 0), Mark(I_LPAR, 0)]
    requires |c1| == 4 + Size(node) && c1[..4] == c0 && Loaded(c1, ci, 4, node)
    requires code == c1 + [Mark(I_RPAR, 0)] + [Plain(I_END)]
    ensures LoadedProgram(code, ci, node)
  {
    hide Loaded, Size, RepsChecked;
    LoadedGrows(c1, code, ci, 4, node);
    assert forall i :: 0 <= i < 4 ==> code[i] == c1[..4][i];
  }

  // Oversized: the count wraps to less than the code takes; the source then writes past its
  // buffer.
  datatype Compilation = Program(prog: Reprog) | Rejected(message: string) | Oversized

  // Some tree within the limits is what the pattern spells; by OneTree there is no other.
  ghost predicate Spelled(pat: seq<Rune>) {
    exists ts, node {:trigger Acceptable(pat, ts, node)} :: Acceptable(pat, ts, node)
  }

  method Regcomp(pat: seq<Rune>, icase: bool) returns (r: Compilation)
    requires IsSubject(pat)
    ensures r.Rejected? <==> !Spelled(pat)
    ensures forall ts, node {:trigger Acceptable(pat, ts, node)} :: Acceptable(pat, ts, node) ==> (r.Program? <==> Fits(node))
    ensures r.Program? ==> r.prog.end <= r.prog.insts.Length && r.prog.icase == icase
    ensures r.Program? ==>
      forall ts, node {:trigger Acceptable(pat, ts, node)} :: Acceptable(pat, ts, node) ==> LoadedProgram(r.prog.Code(), icase, node)
  {
    hide Loaded, Size, Tokens, LexemeAt, IsAlt, IsWhole, RefsBound, Acceptable, LoadedProgram;
    var parser := new RegexParser.Parser(pat);
    var parsed := parser.Parse();
    if parsed.Die? {
      return Rejected(parsed.message);
    }
    ghost var read := parser.read;
    forall ts, node | Acceptable(pat, ts, node)
      ensures node == parsed.value
    {
      OneTree(pat, ts, node, read, parsed.value);
    }
    AcceptableChecked(pat, read, parsed.value);
    if !Fits(parsed.value) {
      return Oversized;
    }
    var prog := Assemble(parsed.value, icase, parser.nsub);
    return Program(prog);
  }

  // The tree of an accepted pattern is checked; if no back-reference is among its tokens that
  // makes it sound.
  lemma AcceptableChecked(pat: seq<Rune>, ts: seq<Lexeme>, node: Node)
    requires Acceptable(pat, ts, node)
    ensures RepsChecked(node) && GroupsNested(node)
    ensures NoRefs(ts) ==> RefFree(node)
    ensures RefFree(node) ==> Steady(node)
    ensures Steady(node) ==> Sound(node, {})
  {
    hide RefsBound, IsAlt, IsWhole, NoRefs;
    if RefFree(node) { CheckedIsWellLooped(node); }
    if Steady(node) { SteadySound(node, {}); }
    if NoRefs(ts) {
      var hi: nat :| IsAlt(ts, 1, node, hi);
      AltRefFree(ts, 1, node, hi);
    }
  }

  // Compiling k nested repetitions of a character, a pattern of 5k + 1 characters: it is never
  // refused, and from 32 of them on the program would not fit its buffer.
  method CompileNested(k: nat) returns (r: Compilation)
    ensures !r.Rejected? && (r.Program? <==> k < 32)
  {
    hide Acceptable, Fits, LoadedProgram, Plus, PlusPattern, PlusTokens;
    var pat := Runes(PlusPattern(k));
    PlusAccepted(k);
    PlusSubject(k);
    PlusFits(k);
    r := Regcomp(pat, false);
  }

  lemma {:induction false} PlusSubject(k: nat)
    ensures IsSubject(Runes(PlusPattern(k)))
  {
    if k > 0 {
      PlusSubject(k - 1);
      var inner, pat := PlusPattern(k - 1), PlusPattern(k);
      forall i | 0 <= i < |pat|
        ensures 0 < Runes(pat)[i] <= RUNE_MAX
      {
        assert Runes(pat)[i] == Code(pat[i]);
        if 3 <= i < 3 + |inner| { assert pat[i] == inner[i - 3] && Runes(inner)[i - 3] == Code(inner[i - 3]); }
      }
    }
  }

  // Match a subject: success and the captures, both of the real machine. The one run that is
  // excluded is the one that never answers.
  method Exec(prog: Reprog, txt: seq<Rune>, env: Env) returns (ok: bool, sub: Caps)
    requires env.txt == txt && env.ci == prog.icase && IsSubject(txt)
    requires prog.end <= prog.insts.Length && Answer(env, prog.Code(), Real) != Undefined
    ensures var o := Answer(env, prog.Code(), Real); (ok <==> o.Found?) && sub == if ok then o.c else NoCaps
    ensures forall node {:trigger LoadedProgram(prog.Code(), prog.icase, node)} ::
      Sound(node, {}) && LoadedProgram(prog.Code(), prog.icase, node) && Answer(env, prog.Code(), Strict) != Cut ==>
        var m := FirstMatch(env, node, 0);
        (ok <==> m.Some?) && (ok ==> sub == m.value.c)
  {
    hide Run, Loaded, Size, FirstMatch, GroupsNested, Looped, LoadedProgram;
    var code := prog.insts[..prog.end];
    ghost var fuel := AnswerBy(env, code, Real);
    ok, sub := Match(env, code, 0, 0, NoCaps, fuel);
    forall node | Sound(node, {}) && LoadedProgram(code, prog.icase, node) && Answer(env, code, Strict) != Cut
      ensures Answer(env, code, Real) == Reported(FirstMatch(env, node, 0))
    {
      UncutProgramIsCorrect(env, code, node);
    }
  }
}
