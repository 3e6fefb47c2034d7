// The code generator: instructions are appended to a buffer and their targets patched once
// the end of the piece they jump over is known.
module RegexCompile {
  import opened RegexSyntax
  import opened RegexMeaning
  import opened RegexMachine
  import opened RegexCode

  // The two codes agree from lo up to hi.
  ghost predicate Same(a: seq<Inst>, b: seq<Inst>, lo: nat, hi: nat) {
    && hi <= |a| && hi <= |b|
    && forall i :: lo <= i < hi ==> a[i] == b[i]
  }

  lemma SameHas(a: seq<Inst>, b: seq<Inst>, lo: nat, hi: nat, at: nat, inst: Inst)
    requires Same(a, b, lo, hi) && lo <= at < hi && Has(a, at, inst)
    ensures Has(b, at, inst)
  {
  }

  // Only the instructions of the node's own piece matter.
  lemma {:induction false} LoadedFrame(a: seq<Inst>, b: seq<Inst>, ci: bool, at: nat, node: Node)
    requires Same(a, b, at, at + Size(node)) && Loaded(a, ci, at, node) && RepsChecked(node)
    ensures Loaded(b, ci, at, node)
    decreases node, 1
  {
    hide Loaded, Size, Has;
    match node
    case Nil => NilBuild(b, ci, at);
    case Cat(x, y) =>
      PairSizes(x, y);
      CatBuild(a, ci, at, x, y);
      CatBuild(b, ci, at, x, y);
      LoadedFrame(a, b, ci, at, x);
      LoadedFrame(a, b, ci, at + Size(x), y);
    case Alt(x, y) => AltFrame(a, b, ci, at, x, y);
    case Rep(ng, m, n, x) => RepFrame(a, b, ci, at, ng, m, n, x);
    case Par(n, x) =>
      WrapSizes(n, x);
      ParBuild(a, ci, at, n, x);
      ParBuild(b, ci, at, n, x);
      LoadedFrame(a, b, ci, at + 1, x);
      SameHas(a, b, at, at + Size(node), at, Mark(I_LPAR, n));
      SameHas(a, b, at, at + Size(node), at + 1 + Size(x), Mark(I_RPAR, n));
    case Pla(x) => LookFrame(a, b, ci, at, node, x, false);
    case Nla(x) => LookFrame(a, b, ci, at, node, x, true);
    case _ =>
      LeafBuild(a, ci, at, node);
      LeafBuild(b, ci, at, node);
      SameHas(a, b, at, at + 1, at, LeafInst(ci, node));
  }

  lemma {:induction false} AltFrame(a: seq<Inst>, b: seq<Inst>, ci: bool, at: nat, x: Node, y: Node)
    requires Same(a, b, at, at + Size(Alt(x, y))) && Loaded(a, ci, at, Alt(x, y)) && RepsChecked(x) && RepsChecked(y)
    ensures Loaded(b, ci, at, Alt(x, y))
    decreases Alt(x, y), 0
  {
    hide Loaded, Size, Has;
    PairSizes(x, y);
    var hi := at + Size(Alt(x, y));
    AltBuild(a, ci, at, x, y);
    AltBuild(b, ci, at, x, y);
    LoadedFrame(a, b, ci, at + 1, x);
    LoadedFrame(a, b, ci, at + Size(x) + 2, y);
    SameHas(a, b, at, hi, at, Branch(I_SPLIT, at + 1, at + Size(x) + 2));
    SameHas(a, b, at, hi, at + 1 + Size(x), Branch(I_JUMP, at + Size(x) + 2 + Size(y), 0));
  }

  lemma {:induction false} LookFrame(a: seq<Inst>, b: seq<Inst>, ci: bool, at: nat, node: Node, x: Node, negative: bool)
    requires node == if negative then Nla(x) else Pla(x)
    requires Same(a, b, at, at + Size(node)) && Loaded(a, ci, at, node) && RepsChecked(x)
    ensures Loaded(b, ci, at, node)
    decreases node, 0
  {
    hide Loaded, Size, Has;
    WrapSizes(0, x);
    LookBuild(a, ci, at, node, x, negative);
    LookBuild(b, ci, at, node, x, negative);
    LoadedFrame(a, b, ci, at + 1, x);
    SameHas(a, b, at, at + Size(node), at, Branch(if negative then I_NLA else I_PLA, at + 1, at + Size(x) + 2));
    SameHas(a, b, at, at + Size(node), at + 1 + Size(x), Plain(I_END));
  }

  lemma {:induction false} RepFrame(a: seq<Inst>, b: seq<Inst>, ci: bool, at: nat, ng: bool, m: nat, n: nat, x: Node)
    requires Same(a, b, at, at + Size(Rep(ng, m, n, x))) && RepsChecked(Rep(ng, m, n, x))
    requires Loaded(a, ci, at, Rep(ng, m, n, x))
    ensures Loaded(b, ci, at, Rep(ng, m, n, x))
    decreases Rep(ng, m, n, x), 0
  {
    hide Loaded, Size, Has, Span, Choice, LoadedTimes, LoadedOptionals;
    RepBuild(a, ci, at, ng, m, n, x);
    RepBuild(b, ci, at, ng, m, n, x);
    RepSize(ng, m, n, x);
    var next := at + Span(Size(x), m);
    TimesFrame(a, b, ci, at, x, m);
    if m == n {
    } else if n < REPINF {
      OptionalsFrame(a, b, ci, next, x, ng, n - m);
    } else if m == 0 {
      LoadedFrame(a, b, ci, next + 1, x);
      SameHas(a, b, at, next + Size(x) + 2, next, Choice(ng, next + 1, next + Size(x) + 2));
      SameHas(a, b, at, next + Size(x) + 2, next + 1 + Size(x), Branch(I_JUMP, next, 0));
    } else {
      SameHas(a, b, at, next + 1, next, Choice(ng, next - Size(x), next + 1));
    }
  }

  lemma {:induction false} TimesFrame(a: seq<Inst>, b: seq<Inst>, ci: bool, at: nat, x: Node, k: nat)
    requires Same(a, b, at, at + Span(Size(x), k)) && LoadedTimes(a, ci, at, x, k) && RepsChecked(x)
    ensures LoadedTimes(b, ci, at, x, k)
    decreases x, 2, k
  {
    hide Loaded, Size, RepsChecked;
    if k > 0 {
      LoadedFrame(a, b, ci, at, x);
      TimesFrame(a, b, ci, at + Size(x), x, k - 1);
    }
  }

  lemma {:induction false} OptionalsFrame(a: seq<Inst>, b: seq<Inst>, ci: bool, at: nat, x: Node, ng: bool, k: nat)
    requires Same(a, b, at, at + Span(Size(x) + 1, k)) && LoadedOptionals(a, ci, at, x, ng, k) && RepsChecked(x)
    ensures LoadedOptionals(b, ci, at, x, ng, k)
    decreases x, 2, k
  {
    hide Loaded, Choice, Size, RepsChecked, Has;
    if k > 0 {
      LoadedFrame(a, b, ci, at + 1, x);
      SameHas(a, b, at, at + Span(Size(x) + 1, k), at, Choice(ng, at + 1, at + 1 + Size(x)));
      OptionalsFrame(a, b, ci, at + 1 + Size(x), x, ng, k - 1);
    }
  }

  lemma SpanSnoc(s: nat, k: nat)
    ensures Span(s, k + 1) == Span(s, k) + s
  {
    SpanSplit(s, k, 1);
    assert Span(s, 1) == s + Span(s, 0);
  }

  lemma {:induction false} TimesSnoc(code: seq<Inst>, ci: bool, at: nat, x: Node, k: nat)
    requires LoadedTimes(code, ci, at, x, k) && Loaded(code, ci, at + Span(Size(x), k), x)
    ensures LoadedTimes(code, ci, at, x, k + 1)
    decreases k
  {
    hide Loaded, Size;
    if k > 0 {
      TimesSnoc(code, ci, at + Size(x), x, k - 1);
    } else {
      assert LoadedTimes(code, ci, at + Size(x), x, 0);
    }
  }

  lemma {:induction false} OptionalsSnoc(code: seq<Inst>, ci: bool, at: nat, x: Node, ng: bool, k: nat)
    requires LoadedOptionals(code, ci, at, x, ng, k)
    requires var next := at + Span(Size(x) + 1, k);
      Has(code, next, Choice(ng, next + 1, next + 1 + Size(x))) && Loaded(code, ci, next + 1, x)
    ensures LoadedOptionals(code, ci, at, x, ng, k + 1)
    decreases k
  {
    hide Loaded, Choice, Size, RepsChecked, Has;
    if k > 0 {
      OptionalsSnoc(code, ci, at + 1 + Size(x), x, ng, k - 1);
    } else {
      assert LoadedOptionals(code, ci, at + 1 + Size(x), x, ng, 0);
    }
  }

  // Appending one instruction to a prefix that holds a piece of code keeps it.
  lemma LoadedGrows(a: seq<Inst>, b: seq<Inst>, ci: bool, at: nat, node: Node)
    requires Loaded(a, ci, at, node) && RepsChecked(node) && at + Size(node) <= |a|
    requires |a| <= |b| && a == b[..|a|]
    ensures Loaded(b, ci, at, node)
  {
    hide Loaded, Size;
    assert Same(a, b, at, at + Size(node));
    LoadedFrame(a, b, ci, at, node);
  }

  // The final code of a choice, from the snapshots taken after each alternative.
  lemma AltFinish(c1: seq<Inst>, c2: seq<Inst>, code: seq<Inst>, ci: bool, at: nat, x: Node, y: Node)
    requires RepsChecked(x) && RepsChecked(y)
    requires |c1| == at + 1 + Size(x) && |c2| == |c1| + 1 + Size(y)
    requires Loaded(c1, ci, at + 1, x) && Loaded(c2, ci, |c1| + 1, y) && c2[..|c1|] == c1
    requires code == c2[at := Branch(I_SPLIT, at + 1, |c1| + 1)][|c1| := Branch(I_JUMP, |c2|, 0)]
    ensures Loaded(code, ci, at, Alt(x, y))
  {
    hide Loaded, Size, RepsChecked;
    AltBuild(code, ci, at, x, y);
    LoadedFrame(c1, code, ci, at + 1, x);
    LoadedFrame(c2, code, ci, |c1| + 1, y);
  }

  lemma ParFinish(c0: seq<Inst>, c1: seq<Inst>, code: seq<Inst>, ci: bool, at: nat, n: nat, x: Node)
    requires RepsChecked(x)
    requires |c0| == at + 1 && |c1| == at + 1 + Size(x) && c1[..|c0|] == c0
    requires c0[at] == Mark(I_LPAR, n) && Loaded(c1, ci, at + 1, x)
    requires code == c1 + [Mark(I_RPAR, n)]
    ensures Loaded(code, ci, at, Par(n, x))
  {
    hide Loaded, Size, RepsChecked;
    WrapSizes(n, x);
    ParBuild(code, ci, at, n, x);
    LoadedGrows(c1, code, ci, at + 1, x);
    assert c1[at] == c0[at];
  }

  lemma LookFinish(c1: seq<Inst>, code: seq<Inst>, ci: bool, at: nat, node: Node, x: Node, negative: bool)
    requires node == if negative then Nla(x) else Pla(x)
    requires RepsChecked(x)
    requires |c1| == at + 1 + Size(x) && Loaded(c1, ci, at + 1, x)
    requires code == (c1 + [Plain(I_END)])[at := Branch(if negative then I_NLA else I_PLA, at + 1, |c1| + 1)]
    ensures Loaded(code, ci, at, node)
  {
    hide Loaded, Size, RepsChecked;
    WrapSizes(0, x);
    LookBuild(code, ci, at, node, x, negative);
    LoadedFrame(c1, code, ci, at + 1, x);
  }

  // One optional copy appended to k of them.
  lemma OneMoreOptional(c0: seq<Inst>, code: seq<Inst>, ci: bool, at: nat, x: Node, ng: bool, k: nat)
    requires RepsChecked(x)
    requires |c0| == at + Span(Size(x) + 1, k) && LoadedOptionals(c0, ci, at, x, ng, k)
    requires |code| == |c0| + 1 + Size(x) && code[..|c0|] == c0
    requires Has(code, |c0|, Choice(ng, |c0| + 1, |code|)) && Loaded(code, ci, |c0| + 1, x)
    ensures LoadedOptionals(code, ci, at, x, ng, k + 1)
  {
    hide Loaded, Size, RepsChecked, LoadedOptionals, Span, Choice;
    assert Same(c0, code, at, |c0|);
    OptionalsFrame(c0, code, ci, at, x, ng, k);
    OptionalsSnoc(code, ci, at, x, ng, k);
  }

  lemma StarFinish(c1: seq<Inst>, code: seq<Inst>, ci: bool, at: nat, x: Node, ng: bool)
    requires RepsChecked(x)
    requires |c1| == at + 1 + Size(x) && Loaded(c1, ci, at + 1, x)
    requires code == (c1 + [Branch(I_JUMP, at, 0)])[at := Choice(ng, at + 1, |c1| + 1)]
    ensures LoadedStar(code, ci, at, x, ng)
  {
    hide Loaded, Size, RepsChecked, Choice;
    LoadedFrame(c1, code, ci, at + 1, x);
  }

  lemma TimesNone(code: seq<Inst>, ci: bool, at: nat, x: Node)
    ensures LoadedTimes(code, ci, at, x, 0) && Span(Size(x), 0) == 0
  {
  }

  lemma OptionalsNone(code: seq<Inst>, ci: bool, at: nat, x: Node, ng: bool)
    ensures LoadedOptionals(code, ci, at, x, ng, 0) && Span(Size(x) + 1, 0) == 0
  {
  }

  // Room for one more of m copies.
  lemma SpanRoom(s: nat, i: nat, m: nat)
    requires i < m
    ensures Span(s, i + 1) == Span(s, i) + s <= Span(s, m)
  {
    SpanSnoc(s, i);
    SpanSplit(s, i + 1, m - i - 1);
  }

  class Reprog {
    const insts: array<Inst>
    var end: nat
    const icase: bool
    const nsub: nat

    constructor (capacity: nat, icase: bool, nsub: nat)
      ensures end == 0 && insts.Length == capacity && fresh(insts)
      ensures this.icase == icase && this.nsub == nsub
    {
      insts := new Inst[capacity](_ => Plain(I_END));
      end := 0;
      this.icase := icase;
      this.nsub := nsub;
    }

    // The instructions emitted so far.
    ghost function Code(): seq<Inst>
      reads this, insts
      requires end <= insts.Length
    {
      insts[..end]
    }

    // What compiling a node adds: its code at the old end, nothing before it changed.
    twostate predicate Emitted(node: Node)
      reads this, insts
    {
      && old(end) + Size(node) == end <= insts.Length
      && old(end <= insts.Length) && insts[..old(end)] == old(insts[..end])
      && Loaded(Code(), icase, old(end), node)
    }

    method Emit(inst: Inst) returns (at: nat)
      requires end < insts.Length
      modifies this`end, insts
      ensures at == old(end) && end == at + 1
      ensures Code() == old(Code()) + [inst]
    {
      at := end;
      insts[at] := inst;
      end := end + 1;
    }

    // Set the targets of an instruction emitted before.
    method Patch(at: nat, inst: Inst)
      requires at < end <= insts.Length
      modifies insts
      ensures Code() == old(Code())[at := inst]
    {
      insts[at] := inst;
    }

    method Compile(node: Node)
      requires end + Size(node) <= insts.Length && RepsChecked(node)
      modifies this`end, insts
      ensures Emitted(node)
      decreases node, 1
    {
      hide Loaded, Size;
      match node
      case Nil =>
        NilBuild(Code(), icase, end);
      case Cat(x, y) => CompileCat(x, y);
      case Alt(x, y) => CompileAlt(x, y);
      case Rep(ng, m, n, x) => CompileRep(ng, m, n, x);
      case Par(n, x) => CompilePar(n, x);
      case Pla(x) => CompileLook(node, x, false);
      case Nla(x) => CompileLook(node, x, true);
      case _ =>
        LeafBuild(Code() + [LeafInst(icase, node)], icase, end, node);
        var _ := Emit(LeafInst(icase, node));
    }

    method CompileCat(x: Node, y: Node)
      requires end + Size(Cat(x, y)) <= insts.Length && RepsChecked(x) && RepsChecked(y)
      modifies this`end, insts
      ensures Emitted(Cat(x, y))
      decreases Cat(x, y), 0
    {
      hide Loaded, Size, RepsChecked;
      ghost var at := end;
      PairSizes(x, y);
      Compile(x);
      ghost var code := Code();
      Compile(y);
      LoadedGrows(code, Code(), icase, at, x);
      CatBuild(Code(), icase, at, x, y);
    }

    method CompileAlt(x: Node, y: Node)
      requires end + Size(Alt(x, y)) <= insts.Length && RepsChecked(x) && RepsChecked(y)
      modifies this`end, insts
      ensures Emitted(Alt(x, y))
      decreases Alt(x, y), 0
    {
      hide Loaded, Size, RepsChecked;
      PairSizes(x, y);
      var split := Emit(Plain(I_SPLIT));
      ghost var c0 := Code();
      Compile(x);
      ghost var c1 := Code();
      var jump := Emit(Plain(I_JUMP));
      ghost var c1' := Code();
      Compile(y);
      ghost var c2 := Code();
      assert c1[..split] == c0[..split] == old(Code());
      assert c2[..|c1|] == c1'[..|c1|] == c1;
      assert c2[..split] == c1[..split];
      Patch(split, Branch(I_SPLIT, split + 1, jump + 1));
      Patch(jump, Branch(I_JUMP, end, 0));
      assert insts[..split] == Code()[..split] == c2[..split];
      AltFinish(c1, c2, Code(), icase, split, x, y);
    }

    method CompilePar(n: nat, x: Node)
      requires end + Size(Par(n, x)) <= insts.Length && RepsChecked(x)
      modifies this`end, insts
      ensures Emitted(Par(n, x))
      decreases Par(n, x), 0
    {
      hide Loaded, Size, RepsChecked;
      WrapSizes(n, x);
      var at := Emit(Mark(I_LPAR, n));
      ghost var c0 := Code();
      Compile(x);
      ghost var c1 := Code();
      var _ := Emit(Mark(I_RPAR, n));
      assert c1[..at] == c0[..at] == old(Code());
      assert insts[..at] == Code()[..at] == c1[..at];
      ParFinish(c0, c1, Code(), icase, at, n, x);
    }

    method CompileLook(node: Node, x: Node, negative: bool)
      requires node == if negative then Nla(x) else Pla(x)
      requires end + Size(node) <= insts.Length && RepsChecked(x)
      modifies this`end, insts
      ensures Emitted(node)
      decreases node, 0
    {
      hide Loaded, Size, RepsChecked;
      WrapSizes(0, x);
      var op := if negative then I_NLA else I_PLA;
      var split := Emit(Plain(op));
      ghost var c0 := Code();
      Compile(x);
      ghost var c1 := Code();
      var _ := Emit(Plain(I_END));
      Patch(split, Branch(op, split + 1, end));
      assert c1[..split] == c0[..split] == old(Code());
      assert insts[..split] == Code()[..split] == c1[..split];
      LookFinish(c1, Code(), icase, split, node, x, negative);
    }

    // The m mandatory copies; `last` is where the last of them starts.
    method CompileTimes(x: Node, m: nat) returns (last: nat)
      requires end + Span(Size(x), m) <= insts.Length && RepsChecked(x)
      modifies this`end, insts
      ensures old(end) + Span(Size(x), m) == end <= insts.Length
      ensures insts[..old(end)] == old(insts[..end])
      ensures LoadedTimes(Code(), icase, old(end), x, m)
      ensures m > 0 ==> last + Size(x) == end
      decreases x, 3
    {
      hide Loaded, Size, RepsChecked, Span, LoadedTimes;
      var i := 0;
      last := 0;
      ghost var at := end;
      TimesNone(Code(), icase, at, x);
      while i < m
        invariant 0 <= i <= m && at + Span(Size(x), i) == end <= insts.Length
        invariant insts[..at] == old(insts[..end])
        invariant LoadedTimes(Code(), icase, at, x, i)
        invariant i > 0 ==> last + Size(x) == end
      {
        SpanRoom(Size(x), i, m);
        last := end;
        ghost var code := Code();
        Compile(x);
        assert Same(code, Code(), at, |code|);
        TimesFrame(code, Code(), icase, at, x, i);
        TimesSnoc(Code(), icase, at, x, i);
        i := i + 1;
      }
    }

    // The optional copies, each skipped by its own split.
    method CompileOptionals(ng: bool, x: Node, k: nat)
      requires end + Span(Size(x) + 1, k) <= insts.Length && RepsChecked(x)
      modifies this`end, insts
      ensures old(end) + Span(Size(x) + 1, k) == end <= insts.Length
      ensures insts[..old(end)] == old(insts[..end])
      ensures LoadedOptionals(Code(), icase, old(end), x, ng, k)
      decreases x, 3
    {
      hide Loaded, Size, RepsChecked, Span, LoadedOptionals, Choice;
      var i := 0;
      ghost var at := end;
      OptionalsNone(Code(), icase, at, x, ng);
      while i < k
        invariant 0 <= i <= k && at + Span(Size(x) + 1, i) == end <= insts.Length
        invariant insts[..at] == old(insts[..end])
        invariant LoadedOptionals(Code(), icase, at, x, ng, i)
      {
        SpanRoom(Size(x) + 1, i, k);
        ghost var c0 := Code();
        CompileOptional(ng, x);
        assert insts[..at] == Code()[..at] == c0[..at];
        OneMoreOptional(c0, Code(), icase, at, x, ng, i);
        i := i + 1;
      }
    }

    // One optional copy behind its split.
    method CompileOptional(ng: bool, x: Node)
      requires end + Size(x) + 1 <= insts.Length && RepsChecked(x)
      modifies this`end, insts
      ensures old(end) + Size(x) + 1 == end <= insts.Length
      ensures Code()[..old(end)] == old(Code())
      ensures Has(Code(), old(end), Choice(ng, old(end) + 1, end)) && Loaded(Code(), icase, old(end) + 1, x)
      decreases x, 2
    {
      hide Loaded, Size, RepsChecked, Choice;
      ghost var was := Code();
      var split := Emit(Plain(I_SPLIT));
      ghost var c0 := Code();
      Compile(x);
      ghost var c1 := Code();
      assert c1[..split] == c0[..split] == was;
      Patch(split, Choice(ng, split + 1, end));
      LoadedFrame(c1, Code(), icase, split + 1, x);
    }

    method CompileStar(ng: bool, x: Node)
      requires end + Size(x) + 2 <= insts.Length && RepsChecked(x)
      modifies this`end, insts
      ensures old(end) + Size(x) + 2 == end <= insts.Length
      ensures insts[..old(end)] == old(insts[..end])
      ensures LoadedStar(Code(), icase, old(end), x, ng)
      decreases x, 3
    {
      hide Loaded, Size, RepsChecked, LoadedStar, Choice;
      var split := Emit(Plain(I_SPLIT));
      ghost var c0 := Code();
      Compile(x);
      ghost var c1 := Code();
      assert c1[..split] == c0[..split] == old(Code());
      var jump := Emit(Plain(I_JUMP));
      Patch(split, Choice(ng, split + 1, end));
      Patch(jump, Branch(I_JUMP, split, 0));
      assert insts[..split] == Code()[..split] == c1[..split];
      assert Code() == (c1 + [Branch(I_JUMP, split, 0)])[split := Choice(ng, split + 1, |c1| + 1)];
      StarFinish(c1, Code(), icase, split, x, ng);
    }

    method CompileRep(ng: bool, m: nat, n: nat, x: Node)
      requires end + Size(Rep(ng, m, n, x)) <= insts.Length && RepsChecked(Rep(ng, m, n, x))
      modifies this`end, insts
      ensures Emitted(Rep(ng, m, n, x))
      decreases Rep(ng, m, n, x), 0
    {
      hide Loaded, Size, Span, LoadedTimes, LoadedOptionals, LoadedStar, Choice;
      RepSize(ng, m, n, x);
      ghost var at := end;
      var inst := CompileTimes(x, m);
      ghost var next, code := end, Code();
      if m == n {
      } else if n < REPINF {
        CompileOptionals(ng, x, n - m);
      } else if m == 0 {
        CompileStar(ng, x);
      } else {
        var split := Emit(Plain(I_SPLIT));
        Patch(split, Choice(ng, inst, end));
      }
      assert Same(code, Code(), at, next);
      TimesFrame(code, Code(), icase, at, x, m);
      RepBuild(Code(), icase, at, ng, m, n, x);
    }
  }
}
