// How many threads can wait. Between two advances of the subject no instruction of a program
// comes up twice, so there is a ranking of the instructions that every split lowers; the
// threads waiting are then bounded by the ranks left at each position.
module RegexRanks {
  import opened RegexSyntax
  import opened RegexMeaning
  import opened RegexMachine
  import opened RegexCode

  function Max(a: nat, b: nat): nat { if a < b then b else a }

  // The instruction at t is among those ranked by s, from base on, and its rank is small.
  predicate AtMost(base: nat, s: seq<nat>, t: nat, v: nat) {
    base <= t < base + |s| && s[t - base] <= v
  }

  predicate Under(base: nat, s: seq<nat>, t: nat, v: nat) {
    base <= t < base + |s| && s[t - base] < v
  }

  // A split goes to smaller ranks, and nothing goes to a higher one unless it advances.
  predicate Fine(code: seq<Inst>, base: nat, s: seq<nat>, pc: nat) {
    && base <= pc < base + |s| && pc < |code|
    && var v, i := s[pc - base], code[pc];
       match i.op
       case I_END => true
       case I_JUMP => AtMost(base, s, i.x, v)
       case I_SPLIT => Under(base, s, i.x, v) && Under(base, s, i.y, v)
       case I_PLA => AtMost(base, s, i.y, v)
       case I_NLA => AtMost(base, s, i.y, v)
       case I_ANYNL => true
       case I_ANY => true
       case I_CHAR => true
       case I_CCLASS => true
       case I_NCCLASS => true
       case _ => AtMost(base, s, pc + 1, v)
  }

  // s ranks a piece of code and, last, where it leads.
  ghost predicate Ranked(code: seq<Inst>, base: nat, s: seq<nat>) {
    s != [] && forall pc: nat {:trigger Fine(code, base, s, pc)} :: base <= pc < base + |s| - 1 ==> Fine(code, base, s, pc)
  }

  // ----- The ranking of a node's code, from the rank e of what follows -----

  function Start(node: Node, e: nat): nat
    decreases node, 0
  {
    match node
    case Nil => e
    case Cat(x, y) => Start(x, Start(y, e))
    case Alt(x, y) => 1 + Max(Start(x, e), Start(y, e))
    case Rep(_, m, n, x) =>
      TimesStart(x, m, AfterTimes(x, m, n, e))
    case Par(_, x) => Start(x, e)
    case Any => 0
    case Chr(_) => 0
    case CClass(_) => 0
    case NCClass(_) => 0
    case _ => e
  }

  function TimesStart(x: Node, k: nat, e: nat): nat
    decreases x, 1, k
  {
    if k == 0 then e else Start(x, TimesStart(x, k - 1, e))
  }

  function OptionalsStart(x: Node, k: nat, e: nat): nat
    decreases x, 1, k
  {
    if k == 0 then e else 1 + Max(Start(x, OptionalsStart(x, k - 1, e)), OptionalsStart(x, k - 1, e))
  }

  // The split of a loop. The body consumes, so its start does not depend on what follows it.
  function LoopStart(x: Node, e: nat): nat
    decreases x, 1
  {
    1 + Max(Start(x, 0), e)
  }

  lemma {:induction false} StartOfConsuming(node: Node, e: nat)
    requires Consumes(node)
    ensures Start(node, e) == Start(node, 0)
  {
    match node
    case Cat(x, y) =>
      if Consumes(x) {
        StartOfConsuming(x, Start(y, e));
        StartOfConsuming(x, Start(y, 0));
      } else {
        StartOfConsuming(y, e);
      }
    case Alt(x, y) => StartOfConsuming(x, e); StartOfConsuming(y, e);
    case Rep(_, m, n, x) =>
      StartOfConsuming(x, TimesStart(x, m - 1, AfterTimes(x, m, n, e)));
      StartOfConsuming(x, TimesStart(x, m - 1, AfterTimes(x, m, n, 0)));
    case Par(_, x) => StartOfConsuming(x, e);
    case _ =>
  }

  // The rank behind the mandatory copies.
  function AfterTimes(x: Node, m: nat, n: nat, e: nat): nat
    decreases x, 2
  {
    if m == n then e else if n < REPINF then OptionalsStart(x, Beyond(m, n), e) else LoopStart(x, e)
  }

  // ----- Putting rankings together -----

  // A ranking of a part is one inside the whole.
  lemma Embedded(code: seq<Inst>, lo: nat, part: seq<nat>, base: nat, s: seq<nat>)
    requires Ranked(code, lo, part) && base <= lo && lo - base + |part| <= |s|
    requires s[lo - base..lo - base + |part|] == part
    ensures forall pc: nat {:trigger Fine(code, base, s, pc)} :: lo <= pc < lo + |part| - 1 ==> Fine(code, base, s, pc)
  {
    forall pc: nat | lo <= pc < lo + |part| - 1
      ensures Fine(code, base, s, pc)
    {
      assert Fine(code, lo, part, pc);
      assert forall i: nat :: i < |part| ==> part[i] == s[lo - base + i];
    }
  }

  lemma Joined(code: seq<Inst>, at: nat, a: seq<nat>, b: seq<nat>)
    requires Ranked(code, at, a) && Ranked(code, at + |a| - 1, b) && a[|a| - 1] == b[0]
    ensures Ranked(code, at, a[..|a| - 1] + b)
  {
    hide Fine;
    var s := a[..|a| - 1] + b;
    assert s[0..|a|] == a && s[|a| - 1..|s|] == b;
    Embedded(code, at, a, at, s);
    Embedded(code, at + |a| - 1, b, at, s);
  }

  // What a ranking of the node's code is to be.
  ghost predicate Ranks(code: seq<Inst>, at: nat, s: seq<nat>, size: nat, first: nat, e: nat) {
    |s| == size + 1 && s[0] == first && s[size] == e && Ranked(code, at, s)
  }

  lemma RanksJoin(code: seq<Inst>, at: nat, a: seq<nat>, n: nat, v: nat, mid: nat, b: seq<nat>, k: nat, e: nat) returns (s: seq<nat>)
    requires Ranks(code, at, a, n, v, mid) && Ranks(code, at + n, b, k, mid, e)
    ensures Ranks(code, at, s, n + k, v, e)
  {
    hide Fine;
    s := a[..n] + b;
    Joined(code, at, a, b);
  }

  lemma PartsSteady(node: Node)
    requires Steady(node)
    ensures match node
      case Cat(x, y) => Steady(x) && Steady(y)
      case Alt(x, y) => Steady(x) && Steady(y)
      case Rep(_, m, n, x) => Steady(x) && m <= n <= REPINF && (n == REPINF ==> m < n && Consumes(x))
      case Par(_, x) => Steady(x)
      case Pla(x) => Steady(x)
      case Nla(x) => Steady(x)
      case _ => true
  {
  }

  lemma {:induction false} NodeRanks(code: seq<Inst>, ci: bool, at: nat, node: Node, e: nat) returns (s: seq<nat>)
    requires Steady(node) && Loaded(code, ci, at, node)
    ensures Ranks(code, at, s, Size(node), Start(node, e), e)
    decreases node, 1
  {
    hide Ranks, Ranked, Fine, Loaded, Size, GroupsNested, WellLooped;
    PartsSteady(node);
    match node
    case Nil => s := LeafRanks(code, ci, at, node, e);
    case Cat(x, y) =>
      CatBuild(code, ci, at, x, y);
      PairSizes(x, y);
      var b := NodeRanks(code, ci, at + Size(x), y, e);
      var a := NodeRanks(code, ci, at, x, Start(y, e));
      s := RanksJoin(code, at, a, Size(x), Start(node, e), Start(y, e), b, Size(y), e);
    case Alt(x, y) => s := AltRanks(code, ci, at, x, y, e);
    case Rep(ng, m, n, x) => s := RepRanks(code, ci, at, ng, m, n, x, e);
    case Par(n, x) => s := ParRanks(code, ci, at, n, x, e);
    case Pla(x) => s := LookRanks(code, ci, at, node, x, false, e);
    case Nla(x) => s := LookRanks(code, ci, at, node, x, true, e);
    case _ => s := LeafRanks(code, ci, at, node, e);
  }

  lemma LeafRanks(code: seq<Inst>, ci: bool, at: nat, node: Node, e: nat) returns (s: seq<nat>)
    requires IsLeaf(node) && Loaded(code, ci, at, node)
    ensures Ranks(code, at, s, Size(node), Start(node, e), e)
  {
    s := if node.Nil? then [e] else [Start(node, e), e];
    if !node.Nil? { assert Fine(code, at, s, at); }
  }

  lemma {:induction false} AltRanks(code: seq<Inst>, ci: bool, at: nat, x: Node, y: Node, e: nat) returns (s: seq<nat>)
    requires Steady(Alt(x, y)) && Loaded(code, ci, at, Alt(x, y))
    ensures Ranks(code, at, s, Size(Alt(x, y)), Start(Alt(x, y), e), e)
    decreases Alt(x, y), 0
  {
    hide Fine, Loaded, Size, GroupsNested, WellLooped, Start, Ranks, Has;
    PartsSteady(Alt(x, y));
    AltBuild(code, ci, at, x, y);
    PairSizes(x, y);
    var a := NodeRanks(code, ci, at + 1, x, e);
    var b := NodeRanks(code, ci, at + Size(x) + 2, y, e);
    var h := AltStart(x, y, e);
    s := ForkRanks(code, at, a, Size(x), Start(x, e), b, Size(y), Start(y, e), h, e);
  }

  lemma AltStart(x: Node, y: Node, e: nat) returns (h: nat)
    ensures h == Start(Alt(x, y), e) && h > Start(x, e) && h > Start(y, e)
  {
    h := 1 + Max(Start(x, e), Start(y, e));
  }

  // Two alternatives behind their split.
  lemma ForkRanks(code: seq<Inst>, at: nat, a: seq<nat>, n: nat, v: nat, b: seq<nat>, k: nat, w: nat, h: nat, e: nat) returns (s: seq<nat>)
    requires Ranks(code, at + 1, a, n, v, e) && Ranks(code, at + n + 2, b, k, w, e) && h > v && h > w
    requires Has(code, at, Branch(I_SPLIT, at + 1, at + n + 2)) && Has(code, at + 1 + n, Branch(I_JUMP, at + n + 2 + k, 0))
    ensures Ranks(code, at, s, n + k + 2, h, e)
  {
    hide Fine, Has;
    s := [h] + a + b;
    assert s[1..1 + |a|] == a && s[n + 2..n + 2 + |b|] == b;
    Embedded(code, at + 1, a, at, s);
    Embedded(code, at + n + 2, b, at, s);
    SplitFine(code, at, s, at, at + 1, at + n + 2);
    JumpFine(code, at, s, at + 1 + n, at + n + 2 + k);
  }

  lemma SplitFine(code: seq<Inst>, base: nat, s: seq<nat>, pc: nat, x: nat, y: nat)
    requires Has(code, pc, Branch(I_SPLIT, x, y)) && base <= pc < base + |s| && base <= x < base + |s| && base <= y < base + |s|
    requires s[x - base] < s[pc - base] && s[y - base] < s[pc - base]
    ensures Fine(code, base, s, pc)
  {
  }

  lemma JumpFine(code: seq<Inst>, base: nat, s: seq<nat>, pc: nat, x: nat)
    requires Has(code, pc, Branch(I_JUMP, x, 0)) && base <= pc < base + |s| && base <= x < base + |s|
    requires s[x - base] <= s[pc - base]
    ensures Fine(code, base, s, pc)
  {
  }

  lemma MarkFine(code: seq<Inst>, base: nat, s: seq<nat>, pc: nat, op: Op, n: nat)
    requires Has(code, pc, Mark(op, n)) && (op == I_LPAR || op == I_RPAR) && base <= pc < base + |s| - 1
    requires s[pc + 1 - base] <= s[pc - base]
    ensures Fine(code, base, s, pc)
  {
  }

  lemma {:induction false} ParRanks(code: seq<Inst>, ci: bool, at: nat, n: nat, x: Node, e: nat) returns (s: seq<nat>)
    requires Steady(Par(n, x)) && Loaded(code, ci, at, Par(n, x))
    ensures Ranks(code, at, s, Size(Par(n, x)), Start(Par(n, x), e), e)
    decreases Par(n, x), 0
  {
    hide Fine, Loaded, Size, GroupsNested, WellLooped, Start;
    PartsSteady(Par(n, x));
    ParBuild(code, ci, at, n, x);
    WrapSizes(n, x);
    var a := NodeRanks(code, ci, at + 1, x, e);
    WrapStart(n, x, e);
    s := [Start(x, e)] + a + [e];
    assert s[1..1 + |a|] == a;
    Embedded(code, at + 1, a, at, s);
    MarkFine(code, at, s, at, I_LPAR, n);
    MarkFine(code, at, s, at + 1 + Size(x), I_RPAR, n);
  }

  lemma WrapStart(n: nat, x: Node, e: nat)
    ensures Start(Par(n, x), e) == Start(x, e) && Start(Pla(x), e) == e && Start(Nla(x), e) == e
  {
  }

  lemma {:induction false} LookRanks(code: seq<Inst>, ci: bool, at: nat, node: Node, x: Node, negative: bool, e: nat) returns (s: seq<nat>)
    requires node == if negative then Nla(x) else Pla(x)
    requires Steady(node) && Loaded(code, ci, at, node)
    ensures Ranks(code, at, s, Size(node), Start(node, e), e)
    decreases node, 0
  {
    hide Fine, Loaded, Size, GroupsNested, WellLooped, Start;
    PartsSteady(node);
    LookBuild(code, ci, at, node, x, negative);
    WrapSizes(0, x);
    var a := NodeRanks(code, ci, at + 1, x, 0);
    WrapStart(0, x, e);
    s := [e] + a + [e];
    assert s[1..1 + |a|] == a;
    Embedded(code, at + 1, a, at, s);
    LookFine(code, at, s, at, at + 1, at + Size(x) + 2, negative);
    EndFine(code, at, s, at + 1 + Size(x));
  }

  lemma LookFine(code: seq<Inst>, base: nat, s: seq<nat>, pc: nat, x: nat, y: nat, negative: bool)
    requires Has(code, pc, Branch(if negative then I_NLA else I_PLA, x, y)) && base <= pc < base + |s| && base <= y < base + |s|
    requires s[y - base] <= s[pc - base]
    ensures Fine(code, base, s, pc)
  {
  }

  lemma EndFine(code: seq<Inst>, base: nat, s: seq<nat>, pc: nat)
    requires Has(code, pc, Plain(I_END)) && base <= pc < base + |s|
    ensures Fine(code, base, s, pc)
  {
  }

  lemma {:induction false} RepRanks(code: seq<Inst>, ci: bool, at: nat, ng: bool, m: nat, n: nat, x: Node, e: nat) returns (s: seq<nat>)
    requires Steady(Rep(ng, m, n, x)) && Loaded(code, ci, at, Rep(ng, m, n, x))
    ensures Ranks(code, at, s, Size(Rep(ng, m, n, x)), Start(Rep(ng, m, n, x), e), e)
    decreases Rep(ng, m, n, x), 0
  {
    hide Fine, Loaded, Size, GroupsNested, WellLooped, Ranks, Ranked, LoadedTimes, LoadedOptionals, LoadedStar, Span, Choice;
    PartsSteady(Rep(ng, m, n, x));
    RepBuild(code, ci, at, ng, m, n, x);
    RepSize(ng, m, n, x);
    var len := Span(Size(x), m);
    var next := at + len;
    if m == n {
      s := TimesRanks(code, ci, at, x, m, e);
    } else if n < REPINF {
      var mid := OptionalsStart(x, n - m, e);
      var a := TimesRanks(code, ci, at, x, m, mid);
      var b := OptionalsRanks(code, ci, next, x, ng, n - m, e);
      s := RanksJoin(code, at, a, len, TimesStart(x, m, mid), mid, b, Span(Size(x) + 1, n - m), e);
    } else if m == 0 {
      s := StarRanks(code, ci, next, x, ng, e);
      SpanNone(Size(x));
    } else {
      s := PlusRanks(code, ci, at, x, ng, m, e);
    }
  }

  lemma SpanNone(s: nat)
    ensures Span(s, 0) == 0
  {
  }

  lemma {:induction false} TimesRanks(code: seq<Inst>, ci: bool, at: nat, x: Node, k: nat, e: nat) returns (s: seq<nat>)
    requires Steady(x) && LoadedTimes(code, ci, at, x, k)
    ensures Ranks(code, at, s, Span(Size(x), k), TimesStart(x, k, e), e)
    decreases x, 2, k
  {
    hide Fine, Loaded, Size, GroupsNested, WellLooped, Start;
    if k == 0 {
      s := [e];
    } else {
      var mid := TimesStart(x, k - 1, e);
      var a := NodeRanks(code, ci, at, x, mid);
      var b := TimesRanks(code, ci, at + Size(x), x, k - 1, e);
      s := RanksJoin(code, at, a, Size(x), TimesStart(x, k, e), mid, b, Span(Size(x), k - 1), e);
    }
  }

  lemma {:induction false} OptionalsRanks(code: seq<Inst>, ci: bool, at: nat, x: Node, ng: bool, k: nat, e: nat) returns (s: seq<nat>)
    requires Steady(x) && LoadedOptionals(code, ci, at, x, ng, k)
    ensures Ranks(code, at, s, Span(Size(x) + 1, k), OptionalsStart(x, k, e), e)
    decreases x, 2, k
  {
    hide Fine, Loaded, Size, GroupsNested, WellLooped, Start, Choice;
    if k == 0 {
      s := [e];
    } else {
      var mid, h := OptionalsStart(x, k - 1, e), OptionalsStart(x, k, e);
      var a := NodeRanks(code, ci, at + 1, x, mid);
      var b := OptionalsRanks(code, ci, at + 1 + Size(x), x, ng, k - 1, e);
      s := OptionRanks(code, at, ng, a, Size(x), Start(x, mid), mid, h, b, Span(Size(x) + 1, k - 1), e);
    }
  }

  // One optional copy in front of what follows it.
  lemma OptionRanks(code: seq<Inst>, at: nat, ng: bool, a: seq<nat>, n: nat, v: nat, mid: nat, h: nat, b: seq<nat>, k: nat, e: nat) returns (s: seq<nat>)
    requires Ranks(code, at + 1, a, n, v, mid) && Ranks(code, at + 1 + n, b, k, mid, e) && h > v && h > mid
    requires Has(code, at, Choice(ng, at + 1, at + 1 + n))
    ensures Ranks(code, at, s, n + 1 + k, h, e)
  {
    hide Fine, Choice;
    s := [h] + a[..n] + b;
    assert s[1..1 + |a|] == a && s[1 + n..|s|] == b;
    Embedded(code, at + 1, a, at, s);
    Embedded(code, at + 1 + n, b, at, s);
    ChoiceFine(code, at, s, at, ng, at + 1, at + 1 + n);
  }

  lemma ChoiceFine(code: seq<Inst>, base: nat, s: seq<nat>, pc: nat, ng: bool, more: nat, stop: nat)
    requires Has(code, pc, Choice(ng, more, stop)) && base <= pc < base + |s| && base <= more < base + |s| && base <= stop < base + |s|
    requires s[more - base] < s[pc - base] && s[stop - base] < s[pc - base]
    ensures Fine(code, base, s, pc)
  {
  }

  lemma {:induction false} StarRanks(code: seq<Inst>, ci: bool, at: nat, x: Node, ng: bool, e: nat) returns (s: seq<nat>)
    requires Steady(x) && Consumes(x) && LoadedStar(code, ci, at, x, ng)
    ensures Ranks(code, at, s, Size(x) + 2, LoopStart(x, e), e)
    decreases x, 2
  {
    hide Fine, Loaded, Size, GroupsNested, WellLooped, Start, Choice, Consumes;
    var h := LoopStart(x, e);
    StartOfConsuming(x, h);
    var a := NodeRanks(code, ci, at + 1, x, h);
    s := [h] + a + [e];
    assert s[1..1 + |a|] == a;
    Embedded(code, at + 1, a, at, s);
    ChoiceFine(code, at, s, at, ng, at + 1, at + Size(x) + 2);
    JumpFine(code, at, s, at + 1 + Size(x), at);
  }

  // The mandatory copies and the split that goes back to the last of them.
  lemma {:induction false} PlusRanks(code: seq<Inst>, ci: bool, at: nat, x: Node, ng: bool, m: nat, e: nat) returns (s: seq<nat>)
    requires Steady(x) && Consumes(x) && m > 0 && LoadedTimes(code, ci, at, x, m)
    requires var next := at + Span(Size(x), m); Has(code, next, Choice(ng, next - Size(x), next + 1))
    ensures Ranks(code, at, s, Span(Size(x), m) + 1, TimesStart(x, m, LoopStart(x, e)), e)
    decreases x, 3, m
  {
    hide Fine, Loaded, Size, GroupsNested, WellLooped, Start, Choice, Consumes;
    var h := LoopStart(x, e);
    if m == 1 {
      SpanNone(Size(x));
      StartOfConsuming(x, h);
      var a := NodeRanks(code, ci, at, x, h);
      s := a + [e];
      assert s[0..|a|] == a;
      Embedded(code, at, a, at, s);
      ChoiceFine(code, at, s, at + Size(x), ng, at, at + Size(x) + 1);
    } else {
      var mid := TimesStart(x, m - 1, h);
      var a := NodeRanks(code, ci, at, x, mid);
      var b := PlusRanks(code, ci, at + Size(x), x, ng, m - 1, e);
      s := RanksJoin(code, at, a, Size(x), TimesStart(x, m, h), mid, b, Span(Size(x), m - 1) + 1, e);
    }
  }

  // ----- Small ranks -----

  // The ranks in use below v.
  function Below(s: seq<nat>, v: nat): set<nat> { set u | u in s && u < v }

  function Compressed(s: seq<nat>): (r: seq<nat>)
    ensures |r| == |s| && forall i :: 0 <= i < |s| ==> r[i] == |Below(s, s[i])|
  {
    seq(|s|, i requires 0 <= i < |s| => |Below(s, s[i])|)
  }

  lemma {:induction false} Subset(a: set<nat>, b: set<nat>)
    requires a <= b
    ensures |a| <= |b| && (a != b ==> |a| < |b|)
  {
    if a != b {
      assert !(b <= a);
      var x :| x in b && x !in a;
      if a == {} {
        assert |b| == |b - {x}| + 1;
      } else {
        var y :| y in a;
        Subset(a - {y}, b - {y});
        assert a - {y} != b - {y} by { assert x in b - {y} && x !in a - {y}; }
      }
    }
  }

  lemma BelowOrder(s: seq<nat>, u: nat, v: nat)
    ensures u <= v ==> |Below(s, u)| <= |Below(s, v)|
    ensures u < v && u in s ==> |Below(s, u)| < |Below(s, v)|
  {
    if u <= v {
      Subset(Below(s, u), Below(s, v));
      if u < v && u in s { assert u in Below(s, v) && u !in Below(s, u); }
    }
  }

  lemma {:induction false} BelowFew(s: seq<nat>, v: nat)
    ensures |Below(s, v)| <= |s|
  {
    if s == [] {
      assert Below(s, v) == {};
    } else {
      var n := |s| - 1;
      assert s == s[..n] + [s[n]];
      BelowFew(s[..n], v);
      Subset(Below(s, v), Below(s[..n], v) + {s[n]});
    }
  }

  lemma CompressedSmall(s: seq<nat>, i: nat)
    requires i < |s|
    ensures Compressed(s)[i] < |s|
  {
    BelowFew(s, s[i] + 1);
    BelowOrder(s, s[i], s[i] + 1);
  }

  lemma CompressedFine(code: seq<Inst>, s: seq<nat>, pc: nat)
    requires Fine(code, 0, s, pc)
    ensures Fine(code, 0, Compressed(s), pc)
  {
    hide Below;
    var r, i := Compressed(s), code[pc];
    if i.x < |s| { BelowOrder(s, s[i.x], s[pc]); }
    if i.y < |s| { BelowOrder(s, s[i.y], s[pc]); }
    if pc + 1 < |s| { BelowOrder(s, s[pc + 1], s[pc]); }
  }

  // ----- Threads waiting -----

  // Every instruction of the code has a rank below bound.
  ghost predicate RankedBelow(code: seq<Inst>, r: seq<nat>, bound: nat) {
    && |r| == |code| && (forall i: nat {:trigger r[i]} :: i < |r| ==> r[i] < bound)
    && forall pc: nat {:trigger Fine(code, 0, r, pc)} :: pc < |code| ==> Fine(code, 0, r, pc)
  }

  lemma CompressedBelow(code: seq<Inst>, s: seq<nat>)
    requires |s| == |code| && forall pc: nat {:trigger Fine(code, 0, s, pc)} :: pc < |code| ==> Fine(code, 0, s, pc)
    ensures RankedBelow(code, Compressed(s), |code|)
  {
    hide Fine, Below;
    var r := Compressed(s);
    forall pc: nat | pc < |code|
      ensures Fine(code, 0, r, pc)
    {
      assert Fine(code, 0, s, pc);
      CompressedFine(code, s, pc);
    }
    forall i: nat | i < |r|
      ensures r[i] < |code|
    {
      CompressedSmall(s, i);
    }
  }

  // What may still have to wait at pc and behind.
  function Room(env: Env, r: seq<nat>, bound: nat, pc: nat, p: nat): nat
    requires pc < |r| && p <= |env.txt|
  {
    bound * (|env.txt| - p) + r[pc]
  }

  lemma RoomAhead(env: Env, r: seq<nat>, bound: nat, pc: nat, p: nat, pc': nat, p': nat)
    requires pc < |r| && pc' < |r| && p <= p' <= |env.txt| && r[pc'] < bound && (p == p' ==> r[pc'] <= r[pc])
    ensures Room(env, r, bound, pc', p') <= Room(env, r, bound, pc, p)
  {
    var a, b := |env.txt| - p, |env.txt| - p';
    if p < p' {
      assert bound * a == bound * (b + 1) + bound * (a - b - 1);
      assert bound * (b + 1) == bound * b + bound;
    }
  }

  // A move that does not advance goes to an instruction of no higher rank.
  lemma MoveRank(env: Env, code: seq<Inst>, r: seq<nat>, pc: nat, p: nat, c: Caps)
    requires Fine(code, 0, r, pc) && |r| == |code| && p <= |env.txt|
    ensures var mv := Decode(env, code, pc, p, c);
      && (mv.Goto? && mv.p == p ==> mv.pc < |r| && r[mv.pc] <= r[pc])
      && (mv.Fork? ==> mv.x < |r| && mv.y < |r| && r[mv.x] < r[pc] && r[mv.y] < r[pc])
      && (mv.Look? ==> mv.y < |r| && r[mv.y] <= r[pc])
  {
  }

  lemma {:induction false} NeverCut(env: Env, code: seq<Inst>, r: seq<nat>, bound: nat, f: nat, pc: nat, p: nat, c: Caps, d: nat)
    requires RankedBelow(code, r, bound) && bound * (|env.txt| + 1) <= CUTOFF
    requires pc < |code| && p <= |env.txt| ==> d + Room(env, r, bound, pc, p) <= CUTOFF
    ensures Run(env, code, Strict, f, pc, p, c, d) != Cut
    decreases f
  {
    hide Decode, Fine, Room;
    if f > 0 && pc < |code| && p <= |env.txt| {
      assert Fine(code, 0, r, pc);
      MoveRank(env, code, r, pc, p, c);
      match Decode(env, code, pc, p, c)
      case Goto(pc', p', c') =>
        if pc' < |code| { RoomAhead(env, r, bound, pc, p, pc', p'); }
        NeverCut(env, code, r, bound, f - 1, pc', p', c', d);
      case Fork(x, y) =>
        RoomBelow(env, r, bound, pc, x, p);
        RoomBelow(env, r, bound, pc, y, p);
        NeverCut(env, code, r, bound, f - 1, x, p, c, d + 1);
        NeverCut(env, code, r, bound, f - 1, y, p, c, d);
      case Look(negative, x, y) =>
        if x < |code| { RoomAtAll(env, r, bound, x, p); }
        NeverCut(env, code, r, bound, f - 1, x, p, c, 0);
        RoomAhead(env, r, bound, pc, p, y, p);
        var o := Run(env, code, Strict, f - 1, x, p, c, 0);
        NeverCut(env, code, r, bound, f - 1, y, p, if negative || !o.Found? then c else o.c, d);
      case _ =>
    } else if f > 0 {
      OutsideIsBad(env, code, pc, p, c);
    }
  }

  lemma OutsideIsBad(env: Env, code: seq<Inst>, pc: nat, p: nat, c: Caps)
    requires pc >= |code| || p > |env.txt|
    ensures Decode(env, code, pc, p, c) == Bad
  {
  }

  lemma RoomBelow(env: Env, r: seq<nat>, bound: nat, pc: nat, x: nat, p: nat)
    requires pc < |r| && x < |r| && p <= |env.txt| && r[x] < r[pc]
    ensures 1 + Room(env, r, bound, x, p) <= Room(env, r, bound, pc, p)
  {
  }

  lemma RoomAtAll(env: Env, r: seq<nat>, bound: nat, x: nat, p: nat)
    requires x < |r| && p <= |env.txt| && r[x] < bound && bound * (|env.txt| + 1) <= CUTOFF
    ensures Room(env, r, bound, x, p) <= CUTOFF
  {
    var n := |env.txt|;
    assert bound * (n + 1) == bound * (n - p) + bound * (p + 1);
    assert bound * (p + 1) == bound * p + bound;
  }
}
