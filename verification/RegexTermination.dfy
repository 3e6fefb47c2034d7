// Every thread started in compiled code answers after a bounded number of steps, in every
// mode of the machine, and control never leaves the code. A loop ends because its body consumes,
// or, being greedy, because each round leaves one more thread waiting until the cut-off.
module RegexTermination {
  import opened RegexSyntax
  import opened RegexMeaning
  import opened RegexAdvance
  import opened RegexMachine
  import opened RegexCode

  // Fuel f suffices at (pc, p) whatever the captures, with at least w threads waiting.
  ghost predicate EndsBy(env: Env, code: seq<Inst>, mode: Mode, f: nat, pc: nat, p: nat, w: nat) {
    forall c: Caps, d: nat :: d >= w ==> Run(env, code, mode, f, pc, p, c, d) != Undefined
  }

  ghost predicate Ends(env: Env, code: seq<Inst>, mode: Mode, pc: nat, p: nat, w: nat) {
    exists f: nat :: EndsBy(env, code, mode, f, pc, p, w)
  }

  // Every thread that reaches pc at lo or later ends.
  ghost predicate EndsFrom(env: Env, code: seq<Inst>, mode: Mode, pc: nat, lo: nat, w: nat) {
    forall q: nat :: lo <= q <= |env.txt| ==> Ends(env, code, mode, pc, q, w)
  }

  lemma EndsByMore(env: Env, code: seq<Inst>, mode: Mode, f: nat, g: nat, pc: nat, p: nat, w: nat)
    requires EndsBy(env, code, mode, f, pc, p, w) && f <= g
    ensures EndsBy(env, code, mode, g, pc, p, w)
  {
    hide Run;
    forall c: Caps, d: nat | d >= w
      ensures Run(env, code, mode, g, pc, p, c, d) != Undefined
    {
      assert Run(env, code, mode, f, pc, p, c, d) != Undefined;
      MoreFuel(env, code, mode, f, g, pc, p, c, d);
    }
  }

  // What ends with w threads waiting ends with more.
  lemma Deeper(env: Env, code: seq<Inst>, mode: Mode, pc: nat, p: nat, w: nat, v: nat)
    requires Ends(env, code, mode, pc, p, w) && w <= v
    ensures Ends(env, code, mode, pc, p, v)
  {
    hide Run;
    var f: nat :| EndsBy(env, code, mode, f, pc, p, w);
    assert EndsBy(env, code, mode, f, pc, p, v);
  }

  lemma DeeperFrom(env: Env, code: seq<Inst>, mode: Mode, pc: nat, lo: nat, w: nat, v: nat)
    requires EndsFrom(env, code, mode, pc, lo, w) && w <= v
    ensures EndsFrom(env, code, mode, pc, lo, v)
  {
    hide Ends;
    forall q: nat | lo <= q <= |env.txt|
      ensures Ends(env, code, mode, pc, q, v)
    {
      Deeper(env, code, mode, pc, q, w, v);
    }
  }

  // One fuel for all positions from lo on.
  lemma {:induction false} Uniform(env: Env, code: seq<Inst>, mode: Mode, pc: nat, lo: nat, w: nat) returns (f: nat)
    requires EndsFrom(env, code, mode, pc, lo, w)
    ensures forall q: nat :: lo <= q <= |env.txt| ==> EndsBy(env, code, mode, f, pc, q, w)
    decreases if lo <= |env.txt| then |env.txt| + 1 - lo else 0
  {
    hide Run, EndsBy;
    f := 0;
    if lo <= |env.txt| {
      var g := Uniform(env, code, mode, pc, lo + 1, w);
      assert Ends(env, code, mode, pc, lo, w);
      var h: nat :| EndsBy(env, code, mode, h, pc, lo, w);
      f := g + h;
      forall q: nat | lo <= q <= |env.txt|
        ensures EndsBy(env, code, mode, f, pc, q, w)
      {
        EndsByMore(env, code, mode, if q == lo then h else g, f, pc, q, w);
      }
    }
  }

  // A thread that fails at once, or goes on at `to` from position lo or later.
  lemma GotoEnds(env: Env, code: seq<Inst>, mode: Mode, pc: nat, p: nat, to: nat, lo: nat, w: nat)
    requires forall c: Caps :: var mv := Decode(env, code, pc, p, c);
               mv == Halt || mv == Fail || (mv.Goto? && mv.pc == to && lo <= mv.p <= |env.txt|)
    requires EndsFrom(env, code, mode, to, lo, w)
    ensures Ends(env, code, mode, pc, p, w)
  {
    hide Decode;
    var f := Uniform(env, code, mode, to, lo, w);
    var g := f + 1;
    forall c: Caps, d: nat | d >= w
      ensures Run(env, code, mode, g, pc, p, c, d) != Undefined
    {
      var mv := Decode(env, code, pc, p, c);
      if mv.Goto? { assert EndsBy(env, code, mode, f, to, mv.p, w); }
    }
    assert EndsBy(env, code, mode, g, pc, p, w);
  }

  // The first way of a split is tried with one more thread waiting.
  lemma ForkEnds(env: Env, code: seq<Inst>, mode: Mode, pc: nat, p: nat, x: nat, y: nat, w: nat)
    requires Has(code, pc, Branch(I_SPLIT, x, y)) && p <= |env.txt|
    requires Ends(env, code, mode, x, p, w + 1) && Ends(env, code, mode, y, p, w)
    ensures Ends(env, code, mode, pc, p, w)
  {
    var f: nat :| EndsBy(env, code, mode, f, x, p, w + 1);
    var g: nat :| EndsBy(env, code, mode, g, y, p, w);
    EndsByMore(env, code, mode, f, f + g, x, p, w + 1);
    EndsByMore(env, code, mode, g, f + g, y, p, w);
    var h := f + g + 1;
    forall c: Caps, d: nat | d >= w
      ensures Run(env, code, mode, h, pc, p, c, d) != Undefined
    {
      assert Decode(env, code, pc, p, c) == Fork(x, y);
    }
    assert EndsBy(env, code, mode, h, pc, p, w);
  }

  lemma CutEnds(env: Env, code: seq<Inst>, mode: Mode, pc: nat, p: nat, x: nat, y: nat, w: nat)
    requires Has(code, pc, Branch(I_SPLIT, x, y)) && p <= |env.txt| && mode != Ideal && w >= CUTOFF
    ensures Ends(env, code, mode, pc, p, w)
  {
    assert forall c: Caps :: Decode(env, code, pc, p, c) == Fork(x, y);
    assert EndsBy(env, code, mode, 1, pc, p, w);
  }

  // A look-ahead is a call of its own, with no thread waiting.
  lemma LookEnds(env: Env, code: seq<Inst>, mode: Mode, pc: nat, p: nat, negative: bool, x: nat, y: nat, w: nat)
    requires Has(code, pc, Branch(if negative then I_NLA else I_PLA, x, y)) && p <= |env.txt|
    requires Ends(env, code, mode, x, p, 0) && Ends(env, code, mode, y, p, w)
    ensures Ends(env, code, mode, pc, p, w)
  {
    var f: nat :| EndsBy(env, code, mode, f, x, p, 0);
    var g: nat :| EndsBy(env, code, mode, g, y, p, w);
    EndsByMore(env, code, mode, f, f + g, x, p, 0);
    EndsByMore(env, code, mode, g, f + g, y, p, w);
    var h := f + g + 1;
    forall c: Caps, d: nat | d >= w
      ensures Run(env, code, mode, h, pc, p, c, d) != Undefined
    {
      assert Decode(env, code, pc, p, c) == Look(negative, x, y);
    }
    assert EndsBy(env, code, mode, h, pc, p, w);
  }

  lemma ChoiceEnds(env: Env, code: seq<Inst>, mode: Mode, pc: nat, p: nat, ng: bool, more: nat, stop: nat, w: nat)
    requires Has(code, pc, Choice(ng, more, stop)) && p <= |env.txt|
    requires Ends(env, code, mode, more, p, w) && Ends(env, code, mode, stop, p, w)
    ensures Ends(env, code, mode, pc, p, w)
  {
    hide Ends, Has, Branch;
    if ng {
      Deeper(env, code, mode, stop, p, w, w + 1);
      ForkEnds(env, code, mode, pc, p, stop, more, w);
    } else {
      Deeper(env, code, mode, more, p, w, w + 1);
      ForkEnds(env, code, mode, pc, p, more, stop, w);
    }
  }

  lemma JumpEnds(env: Env, code: seq<Inst>, mode: Mode, pc: nat, x: nat, lo: nat, w: nat)
    requires Has(code, pc, Branch(I_JUMP, x, 0)) && EndsFrom(env, code, mode, x, lo, w)
    ensures EndsFrom(env, code, mode, pc, lo, w)
  {
    hide Ends;
    forall q: nat | lo <= q <= |env.txt|
      ensures Ends(env, code, mode, pc, q, w)
    {
      GotoEnds(env, code, mode, pc, q, x, q, w);
    }
  }

  lemma EndEnds(env: Env, code: seq<Inst>, mode: Mode, pc: nat, lo: nat, w: nat)
    requires Has(code, pc, Plain(I_END))
    ensures EndsFrom(env, code, mode, pc, lo, w)
  {
    forall q: nat | lo <= q <= |env.txt|
      ensures Ends(env, code, mode, pc, q, w)
    {
      assert EndsBy(env, code, mode, 1, pc, q, w);
    }
  }

  lemma MarkEnds(env: Env, code: seq<Inst>, mode: Mode, pc: nat, op: Op, n: nat, lo: nat, w: nat)
    requires Has(code, pc, Mark(op, n)) && (op == I_LPAR || op == I_RPAR) && n < MAXSUB
    requires EndsFrom(env, code, mode, pc + 1, lo, w)
    ensures EndsFrom(env, code, mode, pc, lo, w)
  {
    hide Ends;
    forall q: nat | lo <= q <= |env.txt|
      ensures Ends(env, code, mode, pc, q, w)
    {
      GotoEnds(env, code, mode, pc, q, pc + 1, q, w);
    }
  }

  // What the machine's mode asks of a node.
  predicate Settled(mode: Mode, node: Node) {
    Ending(node, mode != Ideal) && GroupsNested(node)
  }

  lemma SettledParts(mode: Mode, node: Node)
    requires Settled(mode, node)
    ensures match node
      case Cat(x, y) => Settled(mode, x) && Settled(mode, y)
      case Alt(x, y) => Settled(mode, x) && Settled(mode, y)
      case Rep(ng, m, n, x) => Settled(mode, x) && m <= n <= REPINF && m < REPINF && (n == REPINF ==> Consumes(x) || (mode != Ideal && !ng))
      case Par(n, x) => Settled(mode, x) && n < MAXSUB
      case Pla(x) => Settled(mode, x)
      case Nla(x) => Settled(mode, x)
      case _ => true
  {
  }

  lemma SteadySettled(mode: Mode, node: Node)
    requires Steady(node)
    ensures Settled(mode, node)
  {
    WellLoopedEnding(node, mode != Ideal);
  }

  // Code of a node ends when what follows it ends; if the node consumes, only later
  // positions matter there.
  lemma {:induction false} NodeEnds(env: Env, code: seq<Inst>, mode: Mode, at: nat, node: Node, p: nat, w: nat)
    requires Settled(mode, node) && Loaded(code, env.ci, at, node) && p <= |env.txt|
    requires EndsFrom(env, code, mode, at + Size(node), p + Step(node), w)
    ensures Ends(env, code, mode, at, p, w)
    decreases node, 1
  {
    hide Loaded, Size, Ends, GroupsNested, Ending;
    match node
    case Cat(x, y) => CatEnds(env, code, mode, at, x, y, p, w);
    case Alt(x, y) => AltEnds(env, code, mode, at, x, y, p, w);
    case Rep(ng, m, n, x) => RepEnds(env, code, mode, at, ng, m, n, x, p, w);
    case Par(n, x) => ParEnds(env, code, mode, at, n, x, p, w);
    case Pla(x) => LookNodeEnds(env, code, mode, at, node, x, false, p, w);
    case Nla(x) => LookNodeEnds(env, code, mode, at, node, x, true, p, w);
    case _ => LeafEnds(env, code, mode, at, node, p, w);
  }

  lemma LeafEnds(env: Env, code: seq<Inst>, mode: Mode, at: nat, node: Node, p: nat, w: nat)
    requires IsLeaf(node)
    requires GroupsNested(node) && Loaded(code, env.ci, at, node) && p <= |env.txt|
    requires EndsFrom(env, code, mode, at + Size(node), p + Step(node), w)
    ensures Ends(env, code, mode, at, p, w)
  {
    if !node.Nil? {
      forall c: Caps
        ensures var mv := Decode(env, code, at, p, c);
                mv == Fail || (mv.Goto? && mv.pc == at + Size(node) && p + Step(node) <= mv.p <= |env.txt|)
      {
        hide Loaded, Results, Decode, Size;
        LeafStep(env, code, at, node, p, c);
        ResultsAdvance(env, node, p, c);
        var rs := Results(env, node, p, c);
        assert rs != [] ==> Continues(env, Groups(node), Step(node), Res(p, c), rs[0]);
      }
      GotoEnds(env, code, mode, at, p, at + Size(node), p + Step(node), w);
    }
  }

  lemma {:induction false} CatEnds(env: Env, code: seq<Inst>, mode: Mode, at: nat, x: Node, y: Node, p: nat, w: nat)
    requires Settled(mode, Cat(x, y)) && Loaded(code, env.ci, at, Cat(x, y)) && p <= |env.txt|
    requires EndsFrom(env, code, mode, at + Size(Cat(x, y)), p + Step(Cat(x, y)), w)
    ensures Ends(env, code, mode, at, p, w)
    decreases Cat(x, y), 0
  {
    hide Loaded, Size, Ends, Ending, GroupsNested;
    CatBuild(code, env.ci, at, x, y);
    PairSizes(x, y);
    SettledParts(mode, Cat(x, y));
    var mid := at + Size(x);
    forall q: nat | p + Step(x) <= q <= |env.txt|
      ensures Ends(env, code, mode, mid, q, w)
    {
      NodeEnds(env, code, mode, mid, y, q, w);
    }
    NodeEnds(env, code, mode, at, x, p, w);
  }

  lemma {:induction false} AltEnds(env: Env, code: seq<Inst>, mode: Mode, at: nat, x: Node, y: Node, p: nat, w: nat)
    requires Settled(mode, Alt(x, y)) && Loaded(code, env.ci, at, Alt(x, y)) && p <= |env.txt|
    requires EndsFrom(env, code, mode, at + Size(Alt(x, y)), p + Step(Alt(x, y)), w)
    ensures Ends(env, code, mode, at, p, w)
    decreases Alt(x, y), 0
  {
    hide Loaded, Size, Ends, Has, Ending, GroupsNested;
    AltBuild(code, env.ci, at, x, y);
    PairSizes(x, y);
    SettledParts(mode, Alt(x, y));
    var end := at + Size(Alt(x, y));
    JumpEnds(env, code, mode, at + 1 + Size(x), end, p + Step(Alt(x, y)), w);
    NodeEnds(env, code, mode, at + 1, x, p, w);
    NodeEnds(env, code, mode, at + Size(x) + 2, y, p, w);
    Deeper(env, code, mode, at + 1, p, w, w + 1);
    ForkEnds(env, code, mode, at, p, at + 1, at + Size(x) + 2, w);
  }

  lemma {:induction false} ParEnds(env: Env, code: seq<Inst>, mode: Mode, at: nat, n: nat, x: Node, p: nat, w: nat)
    requires Settled(mode, Par(n, x)) && Loaded(code, env.ci, at, Par(n, x)) && p <= |env.txt|
    requires EndsFrom(env, code, mode, at + Size(Par(n, x)), p + Step(Par(n, x)), w)
    ensures Ends(env, code, mode, at, p, w)
    decreases Par(n, x), 0
  {
    hide Loaded, Size, Ends, Has, Ending, GroupsNested;
    ParBuild(code, env.ci, at, n, x);
    WrapSizes(n, x);
    SettledParts(mode, Par(n, x));
    MarkEnds(env, code, mode, at + 1 + Size(x), I_RPAR, n, p + Step(x), w);
    NodeEnds(env, code, mode, at + 1, x, p, w);
    OpenEnds(env, code, mode, at, n, p, w);
  }

  lemma OpenEnds(env: Env, code: seq<Inst>, mode: Mode, at: nat, n: nat, p: nat, w: nat)
    requires Has(code, at, Mark(I_LPAR, n)) && n < MAXSUB && p <= |env.txt|
    requires Ends(env, code, mode, at + 1, p, w)
    ensures Ends(env, code, mode, at, p, w)
  {
    var f: nat :| EndsBy(env, code, mode, f, at + 1, p, w);
    var g := f + 1;
    forall c: Caps, d: nat | d >= w
      ensures Run(env, code, mode, g, at, p, c, d) != Undefined
    {
      assert Decode(env, code, at, p, c) == Goto(at + 1, p, c[n := c[n].(sp := p)]);
    }
    assert EndsBy(env, code, mode, g, at, p, w);
  }

  lemma {:induction false} LookNodeEnds(env: Env, code: seq<Inst>, mode: Mode, at: nat, node: Node, x: Node,
                                        negative: bool, p: nat, w: nat)
    requires node == if negative then Nla(x) else Pla(x)
    requires Settled(mode, node) && Loaded(code, env.ci, at, node) && p <= |env.txt|
    requires EndsFrom(env, code, mode, at + Size(node), p, w)
    ensures Ends(env, code, mode, at, p, w)
    decreases node, 0
  {
    hide Loaded, Size, Ends, Has, Ending, GroupsNested;
    LookBuild(code, env.ci, at, node, x, negative);
    WrapSizes(0, x);
    SettledParts(mode, node);
    EndEnds(env, code, mode, at + 1 + Size(x), p + Step(x), 0);
    NodeEnds(env, code, mode, at + 1, x, p, 0);
    LookEnds(env, code, mode, at, p, negative, at + 1, at + Size(x) + 2, w);
  }

  lemma {:induction false} TimesEnds(env: Env, code: seq<Inst>, mode: Mode, at: nat, x: Node, k: nat, p: nat, w: nat)
    requires Settled(mode, x) && LoadedTimes(code, env.ci, at, x, k) && p <= |env.txt|
    requires EndsFrom(env, code, mode, at + Span(Size(x), k), if k > 0 then p + Step(x) else p, w)
    ensures Ends(env, code, mode, at, p, w)
    decreases x, 2, k
  {
    hide Loaded, Size, Ends, GroupsNested, Ending, Consumes;
    if k > 0 {
      var second := at + Size(x);
      forall q: nat | p + Step(x) <= q <= |env.txt|
        ensures Ends(env, code, mode, second, q, w)
      {
        TimesEnds(env, code, mode, second, x, k - 1, q, w);
      }
      NodeEnds(env, code, mode, at, x, p, w);
    }
  }

  lemma {:induction false} OptionalsEnd(env: Env, code: seq<Inst>, mode: Mode, at: nat, x: Node, ng: bool, k: nat, p: nat, w: nat)
    requires Settled(mode, x) && LoadedOptionals(code, env.ci, at, x, ng, k) && p <= |env.txt|
    requires EndsFrom(env, code, mode, at + Span(Size(x) + 1, k), p, w)
    ensures Ends(env, code, mode, at, p, w)
    decreases x, 2, k
  {
    hide Loaded, Size, Ends, GroupsNested, Ending, Consumes, Has, Choice;
    if k > 0 {
      var second := at + 1 + Size(x);
      forall q: nat | p <= q <= |env.txt|
        ensures Ends(env, code, mode, second, q, w)
      {
        OptionalsEnd(env, code, mode, second, x, ng, k - 1, q, w);
      }
      NodeEnds(env, code, mode, at + 1, x, p, w);
      ChoiceEnds(env, code, mode, at, p, ng, at + 1, at + 1 + Size(x), w);
    }
  }

  // A loop: a choice at head between its body and the way out, and behind the body the head
  // again or a jump there.
  predicate IsRound(code: seq<Inst>, ci: bool, head: nat, body: nat, x: Node, ng: bool, stop: nat) {
    && Has(code, head, Choice(ng, body, stop))
    && Loaded(code, ci, body, x)
    && (body + Size(x) == head || Has(code, body + Size(x), Branch(I_JUMP, head, 0)))
  }

  lemma RoundEnds(env: Env, code: seq<Inst>, mode: Mode, head: nat, body: nat, x: Node, ng: bool, stop: nat, lo: nat, w: nat)
    requires IsRound(code, env.ci, head, body, x, ng, stop)
    requires EndsFrom(env, code, mode, head, lo, w)
    ensures EndsFrom(env, code, mode, body + Size(x), lo, w)
  {
    hide Loaded, Size, Ends, Has, Choice, Branch;
    if body + Size(x) != head { JumpEnds(env, code, mode, body + Size(x), head, lo, w); }
  }

  // Each round moves on in the subject.
  lemma {:induction false} ConsumingLoopEnds(env: Env, code: seq<Inst>, mode: Mode, head: nat, body: nat, x: Node, ng: bool,
                                             stop: nat, lo: nat, w: nat)
    requires Settled(mode, x) && Consumes(x) && IsRound(code, env.ci, head, body, x, ng, stop)
    requires EndsFrom(env, code, mode, stop, lo, w)
    ensures EndsFrom(env, code, mode, head, lo, w)
    decreases x, 2, if lo <= |env.txt| then |env.txt| + 1 - lo else 0
  {
    hide Loaded, Size, Ends, GroupsNested, Ending, Consumes, Has, Choice, Branch;
    if lo <= |env.txt| {
      ConsumingLoopEnds(env, code, mode, head, body, x, ng, stop, lo + 1, w);
      RoundEnds(env, code, mode, head, body, x, ng, stop, lo + 1, w);
      NodeEnds(env, code, mode, body, x, lo, w);
      ChoiceEnds(env, code, mode, head, lo, ng, body, stop, w);
    }
  }

  // Each round of a greedy loop leaves one more thread waiting.
  lemma {:induction false} GreedyLoopEnds(env: Env, code: seq<Inst>, mode: Mode, head: nat, body: nat, x: Node,
                                          stop: nat, lo: nat, w: nat)
    requires Settled(mode, x) && mode != Ideal && IsRound(code, env.ci, head, body, x, false, stop)
    requires EndsFrom(env, code, mode, stop, lo, w)
    ensures EndsFrom(env, code, mode, head, lo, w)
    decreases x, 2, if w < CUTOFF then CUTOFF - w else 0
  {
    hide Loaded, Size, Ends, GroupsNested, Ending, Consumes, Has, Branch;
    if w < CUTOFF {
      DeeperFrom(env, code, mode, stop, lo, w, w + 1);
      GreedyLoopEnds(env, code, mode, head, body, x, stop, lo, w + 1);
      RoundEnds(env, code, mode, head, body, x, false, stop, lo, w + 1);
    }
    forall q: nat | lo <= q <= |env.txt|
      ensures Ends(env, code, mode, head, q, w)
    {
      if w < CUTOFF {
        NodeEnds(env, code, mode, body, x, q, w + 1);
        ForkEnds(env, code, mode, head, q, body, stop, w);
      } else {
        CutEnds(env, code, mode, head, q, body, stop, w);
      }
    }
  }

  // A loop whose body need not consume ends only if it is greedy and there is a cut-off.
  lemma {:induction false} LoopEnds(env: Env, code: seq<Inst>, mode: Mode, head: nat, body: nat, x: Node, ng: bool,
                                    stop: nat, lo: nat, w: nat)
    requires Settled(mode, x) && (Consumes(x) || (mode != Ideal && !ng)) && IsRound(code, env.ci, head, body, x, ng, stop)
    requires EndsFrom(env, code, mode, stop, lo, w)
    ensures EndsFrom(env, code, mode, head, lo, w)
    decreases x, 3
  {
    hide Loaded, Size, Ends, GroupsNested, Ending, Consumes, Has, Choice, EndsFrom, IsRound;
    if Consumes(x) {
      ConsumingLoopEnds(env, code, mode, head, body, x, ng, stop, lo, w);
    } else {
      GreedyLoopEnds(env, code, mode, head, body, x, stop, lo, w);
    }
  }

  lemma {:induction false} StarEnds(env: Env, code: seq<Inst>, mode: Mode, at: nat, x: Node, ng: bool, lo: nat, w: nat)
    requires Settled(mode, x) && (Consumes(x) || (mode != Ideal && !ng)) && LoadedStar(code, env.ci, at, x, ng)
    requires EndsFrom(env, code, mode, at + Size(x) + 2, lo, w)
    ensures EndsFrom(env, code, mode, at, lo, w)
    decreases x, 4
  {
    hide Loaded, Size, Ends, GroupsNested, Ending, Consumes, Has, Choice, Branch;
    LoopEnds(env, code, mode, at, at + 1, x, ng, at + Size(x) + 2, lo, w);
  }

  lemma {:induction false} PlusEnds(env: Env, code: seq<Inst>, mode: Mode, head: nat, body: nat, x: Node, ng: bool, lo: nat, w: nat)
    requires Settled(mode, x) && (Consumes(x) || (mode != Ideal && !ng))
    requires Loaded(code, env.ci, body, x) && head == body + Size(x) && Has(code, head, Choice(ng, body, head + 1))
    requires EndsFrom(env, code, mode, head + 1, lo, w)
    ensures EndsFrom(env, code, mode, head, lo, w)
    decreases x, 4
  {
    hide Loaded, Size, Ends, GroupsNested, Ending, Consumes, Has, Choice, Branch;
    LoopEnds(env, code, mode, head, body, x, ng, head + 1, lo, w);
  }

  lemma RepStep(ng: bool, m: nat, n: nat, x: Node)
    ensures Step(Rep(ng, m, n, x)) == if m > 0 then Step(x) else 0
  {
  }

  lemma {:induction false} RepEnds(env: Env, code: seq<Inst>, mode: Mode, at: nat, ng: bool, m: nat, n: nat, x: Node, p: nat, w: nat)
    requires Settled(mode, Rep(ng, m, n, x)) && Loaded(code, env.ci, at, Rep(ng, m, n, x)) && p <= |env.txt|
    requires EndsFrom(env, code, mode, at + Size(Rep(ng, m, n, x)), p + Step(Rep(ng, m, n, x)), w)
    ensures Ends(env, code, mode, at, p, w)
    decreases Rep(ng, m, n, x), 0
  {
    hide Loaded, Size, Ends, GroupsNested, Ending, Consumes, Has, Choice, Span, LoadedStar, LoadedTimes, LoadedOptionals, Step;
    SettledParts(mode, Rep(ng, m, n, x));
    RepBuild(code, env.ci, at, ng, m, n, x);
    RepSize(ng, m, n, x);
    RepStep(ng, m, n, x);
    var next := at + Span(Size(x), m);
    var lo := p + Step(Rep(ng, m, n, x));
    if m == n {
    } else if n < REPINF {
      forall q: nat | lo <= q <= |env.txt|
        ensures Ends(env, code, mode, next, q, w)
      {
        OptionalsEnd(env, code, mode, next, x, ng, n - m, q, w);
      }
    } else if m == 0 {
      StarEnds(env, code, mode, next, x, ng, lo, w);
    } else {
      LastCopy(code, env.ci, at, x, m);
      PlusEnds(env, code, mode, next, next - Size(x), x, ng, lo, w);
    }
    TimesEnds(env, code, mode, at, x, m, p, w);
  }
}
