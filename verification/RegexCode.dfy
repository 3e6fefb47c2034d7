// What it means for code to hold the translation of a node, and the proof that running
// such code explores exactly the node's results, in order.
module RegexCode {
  import opened RegexSyntax
  import opened RegexMeaning
  import opened RegexAdvance
  import opened RegexMachine

  // A node whose loops advance in each round, if the groups in s hold something before it.
  predicate Sound(node: Node, s: set<nat>): (r: bool)
    ensures r ==> GroupsNested(node)
  {
    Looped(node, s) && GroupsNested(node)
  }

  // A node whose loops advance whatever the groups hold.
  predicate Steady(node: Node) {
    WellLooped(node) && GroupsNested(node)
  }

  lemma SteadySound(node: Node, s: set<nat>)
    requires Steady(node)
    ensures Sound(node, s)
  {
    WellLoopedLooped(node, s);
  }

  predicate Has(code: seq<Inst>, at: nat, inst: Inst) {
    at < |code| && code[at] == inst
  }

  // The instructions from `at` on are the translation of the node.
  predicate Loaded(code: seq<Inst>, ci: bool, at: nat, node: Node)
    decreases node, 0
  {
    match node
    case Nil => true
    case Cat(x, y) => Loaded(code, ci, at, x) && Loaded(code, ci, at + Size(x), y)
    case Alt(x, y) =>
      && Has(code, at, Branch(I_SPLIT, at + 1, at + Size(x) + 2))
      && Loaded(code, ci, at + 1, x)
      && Has(code, at + 1 + Size(x), Branch(I_JUMP, at + Size(x) + 2 + Size(y), 0))
      && Loaded(code, ci, at + Size(x) + 2, y)
    case Rep(ng, m, n, x) =>
      && LoadedTimes(code, ci, at, x, m)
      && (var next := at + Span(Size(x), m);
          if m == n then true
          else if n < REPINF then n > m && LoadedOptionals(code, ci, next, x, ng, n - m)
          else if m == 0 then LoadedStar(code, ci, next, x, ng)
          else Has(code, next, Choice(ng, next - Size(x), next + 1)))
    case Bol => Has(code, at, Plain(I_BOL))
    case Eol => Has(code, at, Plain(I_EOL))
    case Word => Has(code, at, Plain(I_WORD))
    case NWord => Has(code, at, Plain(I_NWORD))
    case Par(n, x) =>
      && Has(code, at, Mark(I_LPAR, n))
      && Loaded(code, ci, at + 1, x)
      && Has(code, at + 1 + Size(x), Mark(I_RPAR, n))
    case Pla(x) => LoadedLook(code, ci, at, x, I_PLA)
    case Nla(x) => LoadedLook(code, ci, at, x, I_NLA)
    case Any => Has(code, at, Plain(I_ANY))
    case Chr(c) => Has(code, at, Plain(I_CHAR).(c := if ci then Canon(c) else c))
    case CClass(cc) => Has(code, at, Plain(I_CCLASS).(cc := cc))
    case NCClass(cc) => Has(code, at, Plain(I_NCCLASS).(cc := cc))
    case Ref(n, _) => Has(code, at, Mark(I_REF, n))
  }

  // A split that prefers `more`, or `stop` when lazy.
  function Choice(ng: bool, more: int, stop: nat): Inst
  {
    var target := if more < 0 then 0 else more;
    if ng then Branch(I_SPLIT, stop, target) else Branch(I_SPLIT, target, stop)
  }

  predicate LoadedTimes(code: seq<Inst>, ci: bool, at: nat, x: Node, k: nat)
    decreases x, 1, k
  {
    k > 0 ==> Loaded(code, ci, at, x) && LoadedTimes(code, ci, at + Size(x), x, k - 1)
  }

  predicate LoadedOptionals(code: seq<Inst>, ci: bool, at: nat, x: Node, ng: bool, k: nat)
    decreases x, 1, k
  {
    k > 0 ==>
      && Has(code, at, Choice(ng, at + 1, at + 1 + Size(x)))
      && Loaded(code, ci, at + 1, x)
      && LoadedOptionals(code, ci, at + 1 + Size(x), x, ng, k - 1)
  }

  predicate LoadedStar(code: seq<Inst>, ci: bool, at: nat, x: Node, ng: bool)
    decreases x, 1
  {
    && Has(code, at, Choice(ng, at + 1, at + Size(x) + 2))
    && Loaded(code, ci, at + 1, x)
    && Has(code, at + 1 + Size(x), Branch(I_JUMP, at, 0))
  }

  predicate LoadedLook(code: seq<Inst>, ci: bool, at: nat, x: Node, op: Op)
    decreases x, 1
  {
    && Has(code, at, Branch(op, at + 1, at + Size(x) + 2))
    && Loaded(code, ci, at + 1, x)
    && Has(code, at + 1 + Size(x), Plain(I_END))
  }

  predicate IsLeaf(node: Node) {
    !(node.Cat? || node.Alt? || node.Rep? || node.Par? || node.Pla? || node.Nla?)
  }

  // Putting the code of a compound node together from its pieces.
  lemma CatBuild(code: seq<Inst>, ci: bool, at: nat, x: Node, y: Node)
    ensures Loaded(code, ci, at, Cat(x, y)) <==> Loaded(code, ci, at, x) && Loaded(code, ci, at + Size(x), y)
  {
    hide Size;
  }

  lemma PairSizes(x: Node, y: Node)
    ensures Size(Cat(x, y)) == Size(x) + Size(y)
    ensures Size(Alt(x, y)) == Size(x) + Size(y) + 2
  {
  }

  lemma AltBuild(code: seq<Inst>, ci: bool, at: nat, x: Node, y: Node)
    ensures Loaded(code, ci, at, Alt(x, y)) <==>
      && Has(code, at, Branch(I_SPLIT, at + 1, at + Size(x) + 2))
      && Loaded(code, ci, at + 1, x)
      && Has(code, at + 1 + Size(x), Branch(I_JUMP, at + Size(x) + 2 + Size(y), 0))
      && Loaded(code, ci, at + Size(x) + 2, y)
  {
    hide Has, Size;
  }

  lemma WrapSizes(n: nat, x: Node)
    ensures Size(Par(n, x)) == Size(Pla(x)) == Size(Nla(x)) == Size(x) + 2
  {
  }

  lemma ParBuild(code: seq<Inst>, ci: bool, at: nat, n: nat, x: Node)
    ensures Loaded(code, ci, at, Par(n, x)) <==>
      && Has(code, at, Mark(I_LPAR, n))
      && Loaded(code, ci, at + 1, x)
      && Has(code, at + 1 + Size(x), Mark(I_RPAR, n))
  {
    hide Has, Size;
  }

  lemma LookBuild(code: seq<Inst>, ci: bool, at: nat, node: Node, x: Node, negative: bool)
    requires node == if negative then Nla(x) else Pla(x)
    ensures Loaded(code, ci, at, node) <==>
      && Has(code, at, Branch(if negative then I_NLA else I_PLA, at + 1, at + Size(x) + 2))
      && Loaded(code, ci, at + 1, x)
      && Has(code, at + 1 + Size(x), Plain(I_END))
  {
    hide Has, Size;
  }

  function LeafInst(ci: bool, node: Node): Inst
    requires IsLeaf(node) && !node.Nil?
  {
    match node
    case Bol => Plain(I_BOL)
    case Eol => Plain(I_EOL)
    case Word => Plain(I_WORD)
    case NWord => Plain(I_NWORD)
    case Any => Plain(I_ANY)
    case Chr(c) => Plain(I_CHAR).(c := if ci then Canon(c) else c)
    case CClass(cc) => Plain(I_CCLASS).(cc := cc)
    case NCClass(cc) => Plain(I_NCCLASS).(cc := cc)
    case Ref(n, _) => Mark(I_REF, n)
  }

  lemma LeafBuild(code: seq<Inst>, ci: bool, at: nat, node: Node)
    requires IsLeaf(node) && !node.Nil?
    ensures Size(node) == 1
    ensures Loaded(code, ci, at, node) <==> Has(code, at, LeafInst(ci, node))
  {
    hide Has;
  }

  lemma NilBuild(code: seq<Inst>, ci: bool, at: nat)
    ensures Loaded(code, ci, at, Nil) && Size(Nil) == 0
  {
  }

  lemma RepBuild(code: seq<Inst>, ci: bool, at: nat, ng: bool, m: nat, n: nat, x: Node)
    requires m <= n
    ensures Loaded(code, ci, at, Rep(ng, m, n, x)) <==>
      && LoadedTimes(code, ci, at, x, m)
      && (var next := at + Span(Size(x), m);
          if m == n then true
          else if n < REPINF then LoadedOptionals(code, ci, next, x, ng, n - m)
          else if m == 0 then LoadedStar(code, ci, next, x, ng)
          else Has(code, next, Choice(ng, next - Size(x), next + 1)))
  {
    hide LoadedTimes, LoadedOptionals, LoadedStar, Has, Choice, Span, Size;
  }

  // The answers at the control instructions.
  lemma ValSplit(env: Env, code: seq<Inst>, at: nat, x: nat, y: nat, p: nat, c: Caps)
    requires Has(code, at, Branch(I_SPLIT, x, y)) && p <= |env.txt|
    ensures Val(env, code, at, p, c) == Then(Val(env, code, x, p, c), Val(env, code, y, p, c))
  {
    Unfold(env, code, at, p, c);
  }

  lemma ValJump(env: Env, code: seq<Inst>, at: nat, x: nat)
    requires Has(code, at, Branch(I_JUMP, x, 0))
    ensures forall p: nat, c: Caps :: p <= |env.txt| ==> Val(env, code, at, p, c) == Val(env, code, x, p, c)
  {
    forall p: nat, c: Caps | p <= |env.txt|
      ensures Val(env, code, at, p, c) == Val(env, code, x, p, c)
    {
      Unfold(env, code, at, p, c);
    }
  }

  lemma ValEnd(env: Env, code: seq<Inst>, at: nat, p: nat, c: Caps)
    requires Has(code, at, Plain(I_END)) && p <= |env.txt|
    ensures Val(env, code, at, p, c) == Found(p, c)
  {
    Unfold(env, code, at, p, c);
  }

  lemma ValOpen(env: Env, code: seq<Inst>, at: nat, n: nat, p: nat, c: Caps)
    requires Has(code, at, Mark(I_LPAR, n)) && n < MAXSUB && p <= |env.txt|
    ensures Val(env, code, at, p, c) == Val(env, code, at + 1, p, c[n := c[n].(sp := p)])
  {
    Unfold(env, code, at, p, c);
  }

  lemma ValClose(env: Env, code: seq<Inst>, at: nat, n: nat, p: nat, c: Caps)
    requires Has(code, at, Mark(I_RPAR, n)) && n < MAXSUB && p <= |env.txt|
    ensures Val(env, code, at, p, c) == Val(env, code, at + 1, p, c[n := c[n].(ep := p)])
  {
    Unfold(env, code, at, p, c);
  }

  lemma ValLook(env: Env, code: seq<Inst>, at: nat, negative: bool, x: nat, y: nat, p: nat, c: Caps)
    requires Has(code, at, Branch(if negative then I_NLA else I_PLA, x, y)) && p <= |env.txt|
    ensures Val(env, code, at, p, c) == AfterLook(env, code, negative, Val(env, code, x, p, c), y, p, c)
  {
    Unfold(env, code, at, p, c);
  }

  // The choice instruction of a repetition, greedy or lazy.
  lemma ValChoice(env: Env, code: seq<Inst>, at: nat, ng: bool, more: nat, stop: nat, p: nat, c: Caps)
    requires Has(code, at, Choice(ng, more, stop)) && p <= |env.txt|
    ensures Val(env, code, at, p, c) ==
            if ng then Then(Val(env, code, stop, p, c), Val(env, code, more, p, c))
            else Then(Val(env, code, more, p, c), Val(env, code, stop, p, c))
  {
    if ng { ValSplit(env, code, at, stop, more, p, c); } else { ValSplit(env, code, at, more, stop, p, c); }
  }

  // Try the continuations at pc in order until one does not die.
  ghost function Tries(env: Env, code: seq<Inst>, pc: nat, rs: seq<Res>): Outcome {
    if rs == [] then Dead
    else Then(Val(env, code, pc, rs[0].p, rs[0].c), Tries(env, code, pc, rs[1..]))
  }

  lemma TriesOne(env: Env, code: seq<Inst>, pc: nat, r: Res)
    ensures Tries(env, code, pc, [r]) == Val(env, code, pc, r.p, r.c)
  {
    assert Tries(env, code, pc, [r][1..]) == Dead;
  }

  lemma {:induction false} TriesConcat(env: Env, code: seq<Inst>, pc: nat, a: seq<Res>, b: seq<Res>)
    ensures Tries(env, code, pc, a + b) == Then(Tries(env, code, pc, a), Tries(env, code, pc, b))
  {
    if a == [] {
      assert a + b == b;
    } else {
      TriesConcat(env, code, pc, a[1..], b);
      assert (a + b)[1..] == a[1..] + b;
    }
  }

  // Moving every thread of the list one forced step does not change the outcome.
  lemma {:induction false} TriesForward(env: Env, code: seq<Inst>, pc: nat, to: nat, rs: seq<Res>)
    requires InText(env, rs)
    requires forall p: nat, c: Caps :: p <= |env.txt| ==> Val(env, code, pc, p, c) == Val(env, code, to, p, c)
    ensures Tries(env, code, pc, rs) == Tries(env, code, to, rs)
  {
    if rs != [] { TriesForward(env, code, pc, to, rs[1..]); }
  }

  // Compiled code means what the node means.
  lemma {:induction false} CodeMeaning(env: Env, code: seq<Inst>, at: nat, node: Node, s: set<nat>, p: nat, c: Caps)
    requires Sound(node, s) && Loaded(code, env.ci, at, node) && p <= |env.txt| && Holds(env, s, c)
    ensures Val(env, code, at, p, c) == Tries(env, code, at + Size(node), Results(env, node, p, c))
    decreases node, 1
  {
    hide Loaded, Results, Size, Val, Tries, GroupsNested, Looped, Holds;
    match node
    case Cat(x, y) => CatMeaning(env, code, at, x, y, s, p, c);
    case Alt(x, y) => AltMeaning(env, code, at, x, y, s, p, c);
    case Rep(ng, m, n, x) => RepMeaning(env, code, at, ng, m, n, x, s, p, c);
    case Par(n, x) => ParMeaning(env, code, at, n, x, s, p, c);
    case Pla(x) => LookMeaning(env, code, at, node, x, false, s, p, c);
    case Nla(x) => LookMeaning(env, code, at, node, x, true, s, p, c);
    case _ => LeafMeaning(env, code, at, node, p, c);
  }

  lemma LeafStep(env: Env, code: seq<Inst>, at: nat, node: Node, p: nat, c: Caps)
    requires IsLeaf(node)
    requires GroupsNested(node) && Loaded(code, env.ci, at, node) && p <= |env.txt|
    ensures |Results(env, node, p, c)| <= 1
    ensures node.Nil? || (
      var rs := Results(env, node, p, c);
      Decode(env, code, at, p, c) == if rs == [] then Fail else Goto(at + Size(node), rs[0].p, rs[0].c))
  {
  }

  lemma LeafMeaning(env: Env, code: seq<Inst>, at: nat, node: Node, p: nat, c: Caps)
    requires IsLeaf(node)
    requires GroupsNested(node) && Loaded(code, env.ci, at, node) && p <= |env.txt|
    ensures Val(env, code, at, p, c) == Tries(env, code, at + Size(node), Results(env, node, p, c))
  {
    LeafStep(env, code, at, node, p, c);
    if node.Nil? {
      TriesOne(env, code, at, Res(p, c));
    } else {
      hide Results, Decode, Loaded;
      Unfold(env, code, at, p, c);
      var rs := Results(env, node, p, c);
      if rs != [] {
        TriesOne(env, code, at + Size(node), rs[0]);
        assert rs == [rs[0]];
      }
    }
  }

  lemma CatShape(env: Env, code: seq<Inst>, at: nat, x: Node, y: Node, s: set<nat>, p: nat, c: Caps)
    requires Sound(Cat(x, y), s) && Loaded(code, env.ci, at, Cat(x, y)) && p <= |env.txt|
    ensures Size(Cat(x, y)) == Size(x) + Size(y) && Sound(x, s) && Sound(y, Fills(x, s))
    ensures Loaded(code, env.ci, at, x) && Loaded(code, env.ci, at + Size(x), y)
    ensures Results(env, Cat(x, y), p, c) == Each(env, y, Results(env, x, p, c))
  {
    hide Loaded, Size, Each;
    CatBuild(code, env.ci, at, x, y);
    PairSizes(x, y);
  }

  lemma {:induction false} CatMeaning(env: Env, code: seq<Inst>, at: nat, x: Node, y: Node, s: set<nat>, p: nat, c: Caps)
    requires Sound(Cat(x, y), s) && Loaded(code, env.ci, at, Cat(x, y)) && p <= |env.txt| && Holds(env, s, c)
    ensures Val(env, code, at, p, c) == Tries(env, code, at + Size(Cat(x, y)), Results(env, Cat(x, y), p, c))
    decreases Cat(x, y), 0
  {
    hide Loaded, Results, Each, Size, Val, Tries, GroupsNested, Looped, InText, Holds, Fills, Moves;
    CatShape(env, code, at, x, y, s, p, c);
    CodeMeaning(env, code, at, x, s, p, c);
    ResultsFill(env, x, s, p, c);
    EachMeaning(env, code, at + Size(x), y, Fills(x, s), Results(env, x, p, c));
  }

  lemma AltResults(env: Env, x: Node, y: Node, s: set<nat>, p: nat, c: Caps)
    requires Sound(Alt(x, y), s) && p <= |env.txt|
    ensures Sound(x, s) && Sound(y, s)
    ensures Results(env, Alt(x, y), p, c) == Results(env, x, p, c) + Results(env, y, p, c)
  {
  }

  lemma {:induction false} AltMeaning(env: Env, code: seq<Inst>, at: nat, x: Node, y: Node, s: set<nat>, p: nat, c: Caps)
    requires Sound(Alt(x, y), s) && Loaded(code, env.ci, at, Alt(x, y)) && p <= |env.txt| && Holds(env, s, c)
    ensures Val(env, code, at, p, c) == Tries(env, code, at + Size(Alt(x, y)), Results(env, Alt(x, y), p, c))
    decreases Alt(x, y), 0
  {
    hide Loaded, Results, Size, Val, Tries, GroupsNested, Looped, InText, Has, Branch, Holds;
    AltBuild(code, env.ci, at, x, y);
    PairSizes(x, y);
    AltResults(env, x, y, s, p, c);
    var end := at + Size(Alt(x, y));
    var rx, ry := Results(env, x, p, c), Results(env, y, p, c);
    ValSplit(env, code, at, at + 1, at + Size(x) + 2, p, c);
    CodeMeaning(env, code, at + 1, x, s, p, c);
    CodeMeaning(env, code, at + Size(x) + 2, y, s, p, c);
    ValJump(env, code, at + 1 + Size(x), end);
    TriesForward(env, code, at + 1 + Size(x), end, rx);
    TriesConcat(env, code, end, rx, ry);
  }

  lemma ParShape(env: Env, code: seq<Inst>, at: nat, n: nat, x: Node, s: set<nat>, p: nat, c: Caps)
    requires Sound(Par(n, x), s) && Loaded(code, env.ci, at, Par(n, x)) && p <= |env.txt|
    ensures Size(Par(n, x)) == Size(x) + 2 && Sound(x, s - {n}) && n < MAXSUB
    ensures Has(code, at, Mark(I_LPAR, n)) && Loaded(code, env.ci, at + 1, x)
    ensures Has(code, at + 1 + Size(x), Mark(I_RPAR, n))
    ensures Results(env, Par(n, x), p, c) == Close(n, Results(env, x, p, c[n := c[n].(sp := p)]))
  {
    hide Loaded, Size, Close;
    ParBuild(code, env.ci, at, n, x);
    WrapSizes(n, x);
  }

  lemma {:induction false} ParMeaning(env: Env, code: seq<Inst>, at: nat, n: nat, x: Node, s: set<nat>, p: nat, c: Caps)
    requires Sound(Par(n, x), s) && Loaded(code, env.ci, at, Par(n, x)) && p <= |env.txt| && Holds(env, s, c)
    ensures Val(env, code, at, p, c) == Tries(env, code, at + Size(Par(n, x)), Results(env, Par(n, x), p, c))
    decreases Par(n, x), 0
  {
    hide Loaded, Results, Size, Val, Tries, GroupsNested, Looped, InText, Has, Branch;
    ParShape(env, code, at, n, x, s, p, c);
    ValOpen(env, code, at, n, p, c);
    var c' := c[n := c[n].(sp := p)];
    HoldsOpen(env, s, n, p, c);
    CodeMeaning(env, code, at + 1, x, s - {n}, p, c');
    CloseMeaning(env, code, at + 1 + Size(x), n, Results(env, x, p, c'));
  }

  // Opening a group touches no other.
  lemma HoldsOpen(env: Env, s: set<nat>, n: nat, p: nat, c: Caps)
    requires Holds(env, s, c) && n < MAXSUB
    ensures Holds(env, s - {n}, c[n := c[n].(sp := p)])
  {
  }

  lemma {:induction false} CloseMeaning(env: Env, code: seq<Inst>, at: nat, n: nat, rs: seq<Res>)
    requires n < MAXSUB && Has(code, at, Mark(I_RPAR, n)) && InText(env, rs)
    ensures Tries(env, code, at, rs) == Tries(env, code, at + 1, Close(n, rs))
  {
    if rs != [] {
      ValClose(env, code, at, n, rs[0].p, rs[0].c);
      CloseMeaning(env, code, at, n, rs[1..]);
      assert Close(n, rs)[1..] == Close(n, rs[1..]);
    }
  }

  lemma LookShape(env: Env, code: seq<Inst>, at: nat, node: Node, x: Node, negative: bool, s: set<nat>, p: nat, c: Caps)
    requires node == if negative then Nla(x) else Pla(x)
    requires Sound(node, s) && Loaded(code, env.ci, at, node) && p <= |env.txt|
    ensures Size(node) == Size(x) + 2 && Sound(x, s)
    ensures Has(code, at, Branch(if negative then I_NLA else I_PLA, at + 1, at + Size(x) + 2))
    ensures Loaded(code, env.ci, at + 1, x) && Has(code, at + 1 + Size(x), Plain(I_END))
    ensures Results(env, node, p, c) ==
            (var inner := Results(env, x, p, c);
             if (inner == []) != negative then [] else [Res(p, if negative then c else inner[0].c)])
  {
    hide Loaded, Size, Has;
    LookBuild(code, env.ci, at, node, x, negative);
    WrapSizes(0, x);
  }

  lemma {:induction false} LookMeaning(env: Env, code: seq<Inst>, at: nat, node: Node, x: Node, negative: bool, s: set<nat>, p: nat, c: Caps)
    requires node == if negative then Nla(x) else Pla(x)
    requires Sound(node, s) && Loaded(code, env.ci, at, node) && p <= |env.txt| && Holds(env, s, c)
    ensures Val(env, code, at, p, c) == Tries(env, code, at + Size(node), Results(env, node, p, c))
    decreases node, 0
  {
    hide Loaded, Results, Size, Val, GroupsNested, Looped, InText, Has, Branch;
    LookShape(env, code, at, node, x, negative, s, p, c);
    ValLook(env, code, at, negative, at + 1, at + Size(x) + 2, p, c);
    CodeMeaning(env, code, at + 1, x, s, p, c);
    var inner := Results(env, x, p, c);
    EndMeaning(env, code, at + 1 + Size(x), inner);
    var rs := Results(env, node, p, c);
    if rs != [] { TriesOne(env, code, at + Size(node), rs[0]); }
  }

  // At an END instruction the first result is the answer.
  lemma EndMeaning(env: Env, code: seq<Inst>, at: nat, rs: seq<Res>)
    requires Has(code, at, Plain(I_END)) && InText(env, rs)
    ensures Tries(env, code, at, rs) == if rs == [] then Dead else Found(rs[0].p, rs[0].c)
  {
    if rs != [] { ValEnd(env, code, at, rs[0].p, rs[0].c); }
  }

  lemma {:induction false} EachMeaning(env: Env, code: seq<Inst>, at: nat, node: Node, s: set<nat>, rs: seq<Res>)
    requires Sound(node, s) && Loaded(code, env.ci, at, node) && InText(env, rs) && AllHold(env, s, 0, rs)
    ensures Tries(env, code, at, rs) == Tries(env, code, at + Size(node), Each(env, node, rs))
    decreases node, 2, |rs|
  {
    hide Loaded, Results, Size, Val, GroupsNested, Looped, Holds;
    if rs != [] {
      CodeMeaning(env, code, at, node, s, rs[0].p, rs[0].c);
      EachMeaning(env, code, at, node, s, rs[1..]);
      TriesConcat(env, code, at + Size(node), Results(env, node, rs[0].p, rs[0].c), Each(env, node, rs[1..]));
    }
  }

  lemma {:induction false} TimesMeaning(env: Env, code: seq<Inst>, at: nat, x: Node, t: set<nat>, k: nat, rs: seq<Res>)
    requires Sound(x, t) && t !! Groups(x) && LoadedTimes(code, env.ci, at, x, k) && InText(env, rs) && AllHold(env, t, 0, rs)
    ensures Tries(env, code, at, rs) == Tries(env, code, at + Span(Size(x), k), Times(env, x, k, rs))
    decreases x, 3, k
  {
    hide Loaded, Results, Size, Val, Tries, Each, Holds, Sound, Groups, Fills;
    if k > 0 {
      EachMeaning(env, code, at, x, t, rs);
      StillHold(env, x, t, rs);
      TimesMeaning(env, code, at + Size(x), x, t, k - 1, Each(env, x, rs));
    }
  }

  // One more match of a node leaves what was held outside it.
  lemma StillHold(env: Env, x: Node, t: set<nat>, rs: seq<Res>)
    requires GroupsNested(x) && t !! Groups(x) && InText(env, rs) && AllHold(env, t, 0, rs)
    ensures AllHold(env, t, 0, Each(env, x, rs))
  {
    hide Holds;
    EachFill(env, x, t, 0, rs);
    FillsKeeps(x, t);
    assert t - Groups(x) == t;
    HoldsFewer(env, Fills(x, t), t, Gain(x, t), 0, Each(env, x, rs));
  }

  lemma PreferMeaning(env: Env, code: seq<Inst>, end: nat, ng: bool, more: seq<Res>, stop: Res)
    ensures Tries(env, code, end, Prefer(ng, more, stop)) ==
            if ng then Then(Val(env, code, end, stop.p, stop.c), Tries(env, code, end, more))
            else Then(Tries(env, code, end, more), Val(env, code, end, stop.p, stop.c))
  {
    TriesOne(env, code, end, stop);
    TriesConcat(env, code, end, more, [stop]);
    TriesConcat(env, code, end, [stop], more);
  }

  lemma {:induction false} OptionalEachMeaning(env: Env, code: seq<Inst>, at: nat, x: Node, t: set<nat>, ng: bool, rs: seq<Res>)
    requires Sound(x, t) && InText(env, rs) && AllHold(env, t, 0, rs)
    requires Has(code, at, Choice(ng, at + 1, at + 1 + Size(x))) && Loaded(code, env.ci, at + 1, x)
    ensures Tries(env, code, at, rs) == Tries(env, code, at + 1 + Size(x), OptionalEach(env, x, ng, rs))
    decreases x, 2, |rs|
  {
    hide Loaded, Results, Size, Val, Holds, Sound;
    if rs != [] {
      var end := at + 1 + Size(x);
      var r, more := rs[0], Results(env, x, rs[0].p, rs[0].c);
      ValChoice(env, code, at, ng, at + 1, end, r.p, r.c);
      CodeMeaning(env, code, at + 1, x, t, r.p, r.c);
      PreferMeaning(env, code, end, ng, more, r);
      OptionalEachMeaning(env, code, at, x, t, ng, rs[1..]);
      TriesConcat(env, code, end, Prefer(ng, more, r), OptionalEach(env, x, ng, rs[1..]));
    }
  }

  lemma {:induction false} OptionalsMeaning(env: Env, code: seq<Inst>, at: nat, x: Node, t: set<nat>, ng: bool, k: nat, rs: seq<Res>)
    requires Sound(x, t) && t !! Groups(x) && InText(env, rs) && AllHold(env, t, 0, rs) && LoadedOptionals(code, env.ci, at, x, ng, k)
    ensures Tries(env, code, at, rs) == Tries(env, code, at + Span(Size(x) + 1, k), Optionals(env, x, ng, k, rs))
    decreases x, 3, k
  {
    hide Loaded, Results, Size, Val, Tries, OptionalEach, Holds, Sound, Groups, Fills;
    if k > 0 {
      OptionalEachMeaning(env, code, at, x, t, ng, rs);
      FillsKeeps(x, t);
      assert t - Groups(x) == t;
      OptionalEachFill(env, x, t, t, ng, 0, rs);
      OptionalsMeaning(env, code, at + 1 + Size(x), x, t, ng, k - 1, OptionalEach(env, x, ng, rs));
    }
  }

  // The shape shared by both translations of an unbounded repetition: at `head` the machine
  // chooses between one more body, which leads back to `head`, and the end.
  ghost predicate IsLoop(env: Env, code: seq<Inst>, head: nat, end: nat, x: Node, t: set<nat>, ng: bool)
    requires GroupsNested(x)
  {
    forall p: nat, c: Caps | p <= |env.txt| && Holds(env, t, c) ::
      Val(env, code, head, p, c) ==
      (var more := Tries(env, code, head, Results(env, x, p, c));
       var stop := Val(env, code, end, p, c);
       if ng then Then(stop, more) else Then(more, stop))
  }

  // What a loop needs of its body.
  predicate Turns(x: Node, t: set<nat>): (r: bool)
    ensures r ==> GroupsNested(x)
  {
    Sound(x, t) && Moves(x, t) && t !! Groups(x)
  }

  lemma BodyResults(env: Env, x: Node, t: set<nat>, p: nat, c: Caps)
    requires Turns(x, t) && p <= |env.txt| && Holds(env, t, c)
    ensures AllHold(env, t, p + 1, Results(env, x, p, c))
  {
    hide Results, Holds;
    ResultsFill(env, x, t, p, c);
    FillsKeeps(x, t);
    HoldsFewer(env, Fills(x, t), t, p + 1, p + 1, Results(env, x, p, c));
  }

  lemma {:induction false} LoopMeaning(env: Env, code: seq<Inst>, head: nat, end: nat, x: Node, t: set<nat>, ng: bool, p: nat, c: Caps)
    requires Turns(x, t) && IsLoop(env, code, head, end, x, t, ng) && p <= |env.txt| && Holds(env, t, c)
    ensures Val(env, code, head, p, c) == Tries(env, code, end, Loop(env, x, ng, p, c))
    decreases |env.txt| - p, 1
  {
    hide Results, Val, Tries, LoopEach, Holds;
    var body := Results(env, x, p, c);
    BodyResults(env, x, t, p, c);
    LoopEachMeaning(env, code, head, end, x, t, ng, body, p + 1);
    PreferMeaning(env, code, end, ng, LoopEach(env, x, ng, body, p + 1), Res(p, c));
  }

  lemma {:induction false} LoopEachMeaning(env: Env, code: seq<Inst>, head: nat, end: nat, x: Node, t: set<nat>, ng: bool, rs: seq<Res>, lo: nat)
    requires Turns(x, t) && IsLoop(env, code, head, end, x, t, ng)
    requires InText(env, rs) && AllHold(env, t, lo, rs)
    ensures Tries(env, code, head, rs) == Tries(env, code, end, LoopEach(env, x, ng, rs, lo))
    decreases if lo <= |env.txt| then |env.txt| + 1 - lo else 0, 0, |rs|
  {
    hide Results, Val, Loop, Holds, Turns, IsLoop;
    if rs != [] {
      LoopMeaning(env, code, head, end, x, t, ng, rs[0].p, rs[0].c);
      LoopEachMeaning(env, code, head, end, x, t, ng, rs[1..], lo);
      TriesConcat(env, code, end, Loop(env, x, ng, rs[0].p, rs[0].c), LoopEach(env, x, ng, rs[1..], lo));
    }
  }

  // {0,}: split, body, jump back.
  lemma {:induction false} StarIsLoop(env: Env, code: seq<Inst>, at: nat, x: Node, t: set<nat>, ng: bool)
    requires Sound(x, t) && LoadedStar(code, env.ci, at, x, ng)
    ensures IsLoop(env, code, at, at + Size(x) + 2, x, t, ng)
    decreases x, 2
  {
    hide Loaded, Results, Size, Val, Tries, GroupsNested, Looped, Holds;
    var back := at + 1 + Size(x);
    ValJump(env, code, back, at);
    forall p: nat, c: Caps | p <= |env.txt| && Holds(env, t, c)
      ensures Val(env, code, at, p, c) ==
              (var more := Tries(env, code, at, Results(env, x, p, c));
               var stop := Val(env, code, at + Size(x) + 2, p, c);
               if ng then Then(stop, more) else Then(more, stop))
    {
      ValChoice(env, code, at, ng, at + 1, at + Size(x) + 2, p, c);
      CodeMeaning(env, code, at + 1, x, t, p, c);
      TriesForward(env, code, back, at, Results(env, x, p, c));
    }
  }

  // {m,} with m > 0: a split back to the last mandatory copy.
  lemma {:induction false} PlusIsLoop(env: Env, code: seq<Inst>, head: nat, body: nat, x: Node, t: set<nat>, ng: bool)
    requires Sound(x, t) && Loaded(code, env.ci, body, x) && head == body + Size(x)
    requires Has(code, head, Choice(ng, body, head + 1))
    ensures IsLoop(env, code, head, head + 1, x, t, ng)
    decreases x, 2
  {
    hide Loaded, Results, Size, Val, Tries, GroupsNested, Looped, Holds;
    forall p: nat, c: Caps | p <= |env.txt| && Holds(env, t, c)
      ensures Val(env, code, head, p, c) ==
              (var more := Tries(env, code, head, Results(env, x, p, c));
               var stop := Val(env, code, head + 1, p, c);
               if ng then Then(stop, more) else Then(more, stop))
    {
      ValChoice(env, code, head, ng, body, head + 1, p, c);
      CodeMeaning(env, code, body, x, t, p, c);
    }
  }

  lemma {:induction false} LastCopy(code: seq<Inst>, ci: bool, at: nat, x: Node, k: nat)
    requires k > 0 && LoadedTimes(code, ci, at, x, k)
    ensures Span(Size(x), k) >= Size(x)
    ensures Loaded(code, ci, at + Span(Size(x), k) - Size(x), x)
    decreases k
  {
    hide Loaded;
    if k > 1 { LastCopy(code, ci, at + Size(x), x, k - 1); }
  }

  lemma RepShape(code: seq<Inst>, ci: bool, at: nat, ng: bool, m: nat, n: nat, x: Node, s: set<nat>)
    requires Sound(Rep(ng, m, n, x), s) && Loaded(code, ci, at, Rep(ng, m, n, x))
    ensures m <= n <= REPINF && m < REPINF && Sound(x, s - Groups(x)) && (n == REPINF ==> Turns(x, s - Groups(x)))
    ensures LoadedTimes(code, ci, at, x, m)
    ensures var next := at + Span(Size(x), m);
            if m == n then true
            else if n < REPINF then LoadedOptionals(code, ci, next, x, ng, n - m)
            else if m == 0 then LoadedStar(code, ci, next, x, ng)
            else Has(code, next, Choice(ng, next - Size(x), next + 1))
  {
    hide Loaded, Size, LoadedTimes, LoadedOptionals, LoadedStar, Has, Choice, Span;
    RepBuild(code, ci, at, ng, m, n, x);
  }

  lemma RepSize(ng: bool, m: nat, n: nat, x: Node)
    requires m <= n
    ensures Size(Rep(ng, m, n, x)) == Span(Size(x), m) +
              (if m == n then 0
               else if n < REPINF then Span(Size(x) + 1, n - m)
               else if m == 0 then Size(x) + 2
               else 1)
  {
    hide Span;
  }

  lemma RepResults(env: Env, ng: bool, m: nat, n: nat, x: Node, p: nat, c: Caps)
    requires GroupsNested(x) && p <= |env.txt| && m <= n
    ensures var first := Times(env, x, m, [Res(p, c)]);
            Results(env, Rep(ng, m, n, x), p, c) ==
              if m == n then first
              else if n < REPINF then Optionals(env, x, ng, n - m, first)
              else LoopEach(env, x, ng, first, 0)
  {
    hide Times, Optionals, LoopEach;
  }

  lemma {:induction false} RepMeaning(env: Env, code: seq<Inst>, at: nat, ng: bool, m: nat, n: nat, x: Node, s: set<nat>, p: nat, c: Caps)
    requires Sound(Rep(ng, m, n, x), s) && Loaded(code, env.ci, at, Rep(ng, m, n, x)) && p <= |env.txt| && Holds(env, s, c)
    ensures Val(env, code, at, p, c) == Tries(env, code, at + Size(Rep(ng, m, n, x)), Results(env, Rep(ng, m, n, x), p, c))
    decreases Rep(ng, m, n, x), 0
  {
    hide Loaded, Results, Size, Val, Tries, Times, Optionals, LoopEach, LoadedTimes, LoadedOptionals, LoadedStar, GroupsNested, Looped, Span, Has, Choice, Holds, Turns, Groups, Fills, Moves;
    RepShape(code, env.ci, at, ng, m, n, x, s);
    RepSize(ng, m, n, x);
    RepResults(env, ng, m, n, x, p, c);
    var next, t := at + Span(Size(x), m), s - Groups(x);
    var first := Times(env, x, m, [Res(p, c)]);
    TriesOne(env, code, at, Res(p, c));
    FirstCopies(env, x, s, m, p, c);
    TimesMeaning(env, code, at, x, t, m, [Res(p, c)]);
    if m == n {
    } else if n < REPINF {
      OptionalsMeaning(env, code, next, x, t, ng, n - m, first);
    } else if m == 0 {
      StarIsLoop(env, code, next, x, t, ng);
      LoopEachMeaning(env, code, next, next + Size(x) + 2, x, t, ng, first, 0);
    } else {
      LastCopy(code, env.ci, at, x, m);
      PlusIsLoop(env, code, next, next - Size(x), x, t, ng);
      LoopEachMeaning(env, code, next, next + 1, x, t, ng, first, 0);
    }
  }

  // What groups outside a repetition hold, behind its mandatory copies.
  lemma FirstCopies(env: Env, x: Node, s: set<nat>, m: nat, p: nat, c: Caps)
    requires GroupsNested(x) && p <= |env.txt| && Holds(env, s, c)
    ensures var t := s - Groups(x);
      AllHold(env, t, 0, [Res(p, c)]) && AllHold(env, t, 0, Times(env, x, m, [Res(p, c)]))
  {
    hide Holds;
    var t := s - Groups(x);
    HoldsPart(env, s, t, c);
    TimesFill(env, x, t, m, 0, [Res(p, c)]);
    FillsKeeps(x, t);
    HoldsFewer(env, if m > 0 then Fills(x, t) else t, t, if m > 0 then Gain(x, t) else 0, 0, Times(env, x, m, [Res(p, c)]));
  }
}
