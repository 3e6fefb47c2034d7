// The backtracking machine as a function: what one thread of `match` does from a given
// instruction, with the cut-off on pending threads that the program applies.
module RegexMachine {
  import opened RegexSyntax
  import opened RegexMeaning

  datatype Op =
    | I_END | I_JUMP | I_SPLIT | I_PLA | I_NLA
    | I_ANYNL | I_ANY | I_CHAR | I_CCLASS | I_NCCLASS | I_REF
    | I_BOL | I_EOL | I_WORD | I_NWORD
    | I_LPAR | I_RPAR

  // An instruction; x and y are code addresses, patched after `emit`.
  datatype Inst = Inst(op: Op, n: nat, c: Rune, cc: Class, x: nat, y: nat)

  const NoClass := Class([])

  function Plain(op: Op): Inst { Inst(op, 0, 0, NoClass, 0, 0) }
  function Branch(op: Op, x: nat, y: nat): Inst { Inst(op, 0, 0, NoClass, x, y) }
  function Mark(op: Op, n: nat): Inst { Inst(op, n, 0, NoClass, 0, 0) }

  // The most threads that may wait on the ready stack.
  const CUTOFF: nat := 2000

  // Real: reaching the cut-off makes that call of `match` fail, as in the program.
  // Strict: reaching it anywhere, look-aheads included, is reported at the top.
  // Ideal: no cut-off.
  datatype Mode = Real | Strict | Ideal

  // Undefined: no answer within the given fuel, or control left the code.
  datatype Outcome = Undefined | Found(p: nat, c: Caps) | Dead | Cut

  // The local effect of the instruction at pc.
  datatype Move =
    | Bad
    | Halt
    | Fail
    | Goto(pc: nat, p: nat, c: Caps)
    | Fork(x: nat, y: nat)
    | Look(negative: bool, x: nat, y: nat)

  function On(b: bool, pc: nat, p: nat, c: Caps): Move {
    if b then Goto(pc, p, c) else Fail
  }

  function Decode(env: Env, code: seq<Inst>, pc: nat, p: nat, c: Caps): (mv: Move)
    ensures p <= |env.txt| && mv.Goto? ==> p <= mv.p <= |env.txt|
  {
    if pc >= |code| || p > |env.txt| then Bad
    else
      var i := code[pc];
      match i.op
      case I_END => Halt
      case I_JUMP => Goto(i.x, p, c)
      case I_SPLIT => Fork(i.x, i.y)
      case I_PLA => Look(false, i.x, i.y)
      case I_NLA => Look(true, i.x, i.y)
      case I_ANYNL => On(AnyNlAt(env, p), pc + 1, p + 1, c)
      case I_ANY => On(AnyAt(env, p), pc + 1, p + 1, c)
      case I_CHAR => On(CharAt(env, i.c, p), pc + 1, p + 1, c)
      case I_CCLASS => On(ClassAt(env, i.cc, p), pc + 1, p + 1, c)
      case I_NCCLASS => On(NClassAt(env, i.cc, p), pc + 1, p + 1, c)
      case I_REF =>
        if i.n >= MAXSUB then Bad
        else
          var adv := RefAdvance(env, c[i.n], p);
          if adv < 0 then Fail else Goto(pc + 1, p + adv, c)
      case I_BOL => On(BolAt(env, p), pc + 1, p, c)
      case I_EOL => On(EolAt(env, p), pc + 1, p, c)
      case I_WORD => On(WordEdgeAt(env, p), pc + 1, p, c)
      case I_NWORD => On(!WordEdgeAt(env, p), pc + 1, p, c)
      case I_LPAR => if i.n >= MAXSUB then Bad else Goto(pc + 1, p, c[i.n := c[i.n].(sp := p)])
      case I_RPAR => if i.n >= MAXSUB then Bad else Goto(pc + 1, p, c[i.n := c[i.n].(ep := p)])
  }

  // Run one thread, with d threads waiting, and then the threads it spawns.
  function Run(env: Env, code: seq<Inst>, mode: Mode, fuel: nat, pc: nat, p: nat, c: Caps, d: nat): Outcome
    decreases fuel
  {
    if fuel == 0 then Undefined
    else
      match Decode(env, code, pc, p, c)
      case Bad => Undefined
      case Halt => Found(p, c)
      case Fail => Dead
      case Goto(pc', p', c') => Run(env, code, mode, fuel - 1, pc', p', c', d)
      case Fork(x, y) =>
        if mode != Ideal && d >= CUTOFF then Cut
        else
          var o := Run(env, code, mode, fuel - 1, x, p, c, d + 1);
          if o == Dead then Run(env, code, mode, fuel - 1, y, p, c, d) else o
      case Look(negative, x, y) =>
        var o := Run(env, code, mode, fuel - 1, x, p, c, 0);
        if o == Undefined || (mode == Strict && o == Cut) then o
        else if o.Found? == negative then Dead
        else Run(env, code, mode, fuel - 1, y, p, if negative then c else o.c, d)
  }

  // More fuel changes nothing once there is an answer.
  lemma {:induction false} MoreFuel(env: Env, code: seq<Inst>, mode: Mode, f: nat, g: nat, pc: nat, p: nat, c: Caps, d: nat)
    requires f <= g
    requires Run(env, code, mode, f, pc, p, c, d) != Undefined
    ensures Run(env, code, mode, g, pc, p, c, d) == Run(env, code, mode, f, pc, p, c, d)
    decreases f
  {
    hide Decode;
    match Decode(env, code, pc, p, c)
    case Bad =>
    case Halt =>
    case Fail =>
    case Goto(pc', p', c') => MoreFuel(env, code, mode, f - 1, g - 1, pc', p', c', d);
    case Fork(x, y) =>
      if mode == Ideal || d < CUTOFF {
        MoreFuel(env, code, mode, f - 1, g - 1, x, p, c, d + 1);
        if Run(env, code, mode, f - 1, x, p, c, d + 1) == Dead {
          MoreFuel(env, code, mode, f - 1, g - 1, y, p, c, d);
        }
      }
    case Look(negative, x, y) =>
      var o := Run(env, code, mode, f - 1, x, p, c, 0);
      MoreFuel(env, code, mode, f - 1, g - 1, x, p, c, 0);
      if !(mode == Strict && o == Cut) && o.Found? != negative {
        MoreFuel(env, code, mode, f - 1, g - 1, y, p, if negative then c else o.c, d);
      }
  }

  // Without a cut-off in any call, the depth and the mode make no difference.
  lemma {:induction false} UncutIsIdeal(env: Env, code: seq<Inst>, f: nat, pc: nat, p: nat, c: Caps, d: nat)
    requires Run(env, code, Strict, f, pc, p, c, d) != Cut
    ensures Run(env, code, Strict, f, pc, p, c, d) == Run(env, code, Ideal, f, pc, p, c, 0)
    ensures Run(env, code, Strict, f, pc, p, c, d) == Run(env, code, Real, f, pc, p, c, d)
    decreases f
  {
    hide Decode;
    if f > 0 {
      match Decode(env, code, pc, p, c)
      case Bad =>
      case Halt =>
      case Fail =>
      case Goto(pc', p', c') => UncutIsIdeal(env, code, f - 1, pc', p', c', d);
      case Fork(x, y) =>
        UncutIsIdeal(env, code, f - 1, x, p, c, d + 1);
        IdealIgnoresDepth(env, code, f - 1, x, p, c, 1, 0);
        if Run(env, code, Strict, f - 1, x, p, c, d + 1) == Dead {
          UncutIsIdeal(env, code, f - 1, y, p, c, d);
        }
      case Look(negative, x, y) =>
        var o := Run(env, code, Strict, f - 1, x, p, c, 0);
        UncutIsIdeal(env, code, f - 1, x, p, c, 0);
        if o != Undefined && o.Found? != negative {
          UncutIsIdeal(env, code, f - 1, y, p, if negative then c else o.c, d);
        }
    }
  }

  // What ends without a cut-off ends with one, if only at a cut.
  lemma {:induction false} StrictFollows(env: Env, code: seq<Inst>, f: nat, pc: nat, p: nat, c: Caps, e: nat, d: nat)
    requires Run(env, code, Ideal, f, pc, p, c, e) != Undefined
    ensures Run(env, code, Strict, f, pc, p, c, d) != Undefined
    decreases f
  {
    hide Decode;
    match Decode(env, code, pc, p, c)
    case Bad =>
    case Halt =>
    case Fail =>
    case Goto(pc', p', c') => StrictFollows(env, code, f - 1, pc', p', c', e, d);
    case Fork(x, y) =>
      if d < CUTOFF {
        StrictFollows(env, code, f - 1, x, p, c, e + 1, d + 1);
        if Run(env, code, Strict, f - 1, x, p, c, d + 1) == Dead {
          UncutIsIdeal(env, code, f - 1, x, p, c, d + 1);
          IdealIgnoresDepth(env, code, f - 1, x, p, c, e + 1, 0);
          StrictFollows(env, code, f - 1, y, p, c, e, d);
        }
      }
    case Look(negative, x, y) =>
      StrictFollows(env, code, f - 1, x, p, c, 0, 0);
      var o := Run(env, code, Strict, f - 1, x, p, c, 0);
      if o != Cut {
        UncutIsIdeal(env, code, f - 1, x, p, c, 0);
        if o.Found? != negative { StrictFollows(env, code, f - 1, y, p, if negative then c else o.c, e, d); }
      }
  }

  lemma {:induction false} IdealIgnoresDepth(env: Env, code: seq<Inst>, f: nat, pc: nat, p: nat, c: Caps, d: nat, e: nat)
    ensures Run(env, code, Ideal, f, pc, p, c, d) == Run(env, code, Ideal, f, pc, p, c, e)
    decreases f
  {
    hide Decode;
    if f > 0 {
      match Decode(env, code, pc, p, c)
      case Bad =>
      case Halt =>
      case Fail =>
      case Goto(pc', p', c') => IdealIgnoresDepth(env, code, f - 1, pc', p', c', d, e);
      case Fork(x, y) =>
        IdealIgnoresDepth(env, code, f - 1, x, p, c, d + 1, e + 1);
        IdealIgnoresDepth(env, code, f - 1, y, p, c, d, e);
      case Look(negative, x, y) =>
        var o := Run(env, code, Ideal, f - 1, x, p, c, 0);
        if o.Found? != negative {
          IdealIgnoresDepth(env, code, f - 1, y, p, if negative then c else o.c, d, e);
        }
    }
  }

  // The answer of a thread with none waiting: Undefined only when it never answers.
  ghost function Limit(env: Env, code: seq<Inst>, mode: Mode, pc: nat, p: nat, c: Caps): Outcome {
    if f: nat :| Run(env, code, mode, f, pc, p, c, 0) != Undefined then Run(env, code, mode, f, pc, p, c, 0) else Undefined
  }

  // The answer of the ideal machine.
  ghost function Val(env: Env, code: seq<Inst>, pc: nat, p: nat, c: Caps): Outcome {
    Limit(env, code, Ideal, pc, p, c)
  }

  lemma ValOf(env: Env, code: seq<Inst>, f: nat, pc: nat, p: nat, c: Caps, d: nat)
    requires Run(env, code, Ideal, f, pc, p, c, d) != Undefined
    ensures Val(env, code, pc, p, c) == Run(env, code, Ideal, f, pc, p, c, d)
  {
    hide Decode;
    IdealIgnoresDepth(env, code, f, pc, p, c, d, 0);
    var g: nat :| Run(env, code, Ideal, g, pc, p, c, 0) != Undefined
      && Val(env, code, pc, p, c) == Run(env, code, Ideal, g, pc, p, c, 0);
    MoreFuel(env, code, Ideal, f, f + g, pc, p, c, 0);
    MoreFuel(env, code, Ideal, g, f + g, pc, p, c, 0);
  }

  // Fuel that is enough to reach the answer.
  lemma Enough(env: Env, code: seq<Inst>, pc: nat, p: nat, c: Caps) returns (f: nat)
    requires Val(env, code, pc, p, c) != Undefined
    ensures forall g: nat, d: nat :: g >= f ==> Run(env, code, Ideal, g, pc, p, c, d) == Val(env, code, pc, p, c)
  {
    hide Decode;
    f :| Run(env, code, Ideal, f, pc, p, c, 0) != Undefined
      && Val(env, code, pc, p, c) == Run(env, code, Ideal, f, pc, p, c, 0);
    forall g: nat, d: nat | g >= f
      ensures Run(env, code, Ideal, g, pc, p, c, d) == Val(env, code, pc, p, c)
    {
      MoreFuel(env, code, Ideal, f, g, pc, p, c, 0);
      IdealIgnoresDepth(env, code, g, pc, p, c, 0, d);
    }
  }

  // Backtracking: the second outcome only if the first thread died.
  function Then(first: Outcome, second: Outcome): Outcome {
    if first == Dead then second else first
  }

  ghost function AfterLook(env: Env, code: seq<Inst>, negative: bool, inner: Outcome, y: nat, p: nat, c: Caps): Outcome {
    if inner == Undefined then Undefined
    else if inner.Found? == negative then Dead
    else Val(env, code, y, p, if negative then c else inner.c)
  }

  // One step of the ideal machine, in terms of the answers of its successors.
  ghost function StepVal(env: Env, code: seq<Inst>, mv: Move, p: nat, c: Caps): Outcome {
    match mv
    case Bad => Undefined
    case Halt => Found(p, c)
    case Fail => Dead
    case Goto(pc', p', c') => Val(env, code, pc', p', c')
    case Fork(x, y) => Then(Val(env, code, x, p, c), Val(env, code, y, p, c))
    case Look(negative, x, y) => AfterLook(env, code, negative, Val(env, code, x, p, c), y, p, c)
  }

  lemma Unfold(env: Env, code: seq<Inst>, pc: nat, p: nat, c: Caps)
    ensures Val(env, code, pc, p, c) == StepVal(env, code, Decode(env, code, pc, p, c), p, c)
  {
    hide Decode;
    var mv := Decode(env, code, pc, p, c);
    if StepVal(env, code, mv, p, c) != Undefined {
      UnfoldDefined(env, code, pc, p, c);
    } else if Val(env, code, pc, p, c) != Undefined {
      UnfoldUndefined(env, code, pc, p, c);
    }
  }

  lemma UnfoldDefined(env: Env, code: seq<Inst>, pc: nat, p: nat, c: Caps)
    requires StepVal(env, code, Decode(env, code, pc, p, c), p, c) != Undefined
    ensures Val(env, code, pc, p, c) == StepVal(env, code, Decode(env, code, pc, p, c), p, c)
  {
    hide Decode;
    match Decode(env, code, pc, p, c)
    case Halt => ValOf(env, code, 1, pc, p, c, 0);
    case Fail => ValOf(env, code, 1, pc, p, c, 0);
    case Goto(pc', p', c') =>
      var f := Enough(env, code, pc', p', c');
      ValOf(env, code, f + 1, pc, p, c, 0);
    case Fork(x, y) =>
      var f := Enough(env, code, x, p, c);
      var g := 0;
      if Val(env, code, x, p, c) == Dead { g := Enough(env, code, y, p, c); }
      ValOf(env, code, f + g + 1, pc, p, c, 0);
    case Look(negative, x, y) =>
      var f := Enough(env, code, x, p, c);
      var o := Val(env, code, x, p, c);
      var g := 0;
      if o.Found? != negative { g := Enough(env, code, y, p, if negative then c else o.c); }
      ValOf(env, code, f + g + 1, pc, p, c, 0);
  }

  lemma UnfoldUndefined(env: Env, code: seq<Inst>, pc: nat, p: nat, c: Caps)
    requires Val(env, code, pc, p, c) != Undefined
    ensures StepVal(env, code, Decode(env, code, pc, p, c), p, c) != Undefined
  {
    hide Decode;
    var f := Enough(env, code, pc, p, c);
    assert Run(env, code, Ideal, f + 1, pc, p, c, 0) != Undefined;
    match Decode(env, code, pc, p, c)
    case Halt =>
    case Fail =>
    case Goto(pc', p', c') => ValOf(env, code, f, pc', p', c', 0);
    case Fork(x, y) =>
      ValOf(env, code, f, x, p, c, 1);
      if Val(env, code, x, p, c) == Dead { ValOf(env, code, f, y, p, c, 0); }
    case Look(negative, x, y) =>
      ValOf(env, code, f, x, p, c, 0);
      var o := Val(env, code, x, p, c);
      if o.Found? != negative { ValOf(env, code, f, y, p, if negative then c else o.c, 0); }
  }
}
