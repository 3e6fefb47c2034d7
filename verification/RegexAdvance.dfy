// What every result of a node has in common: it never moves back, it moves on when the
// node consumes, and it touches only the node's own groups, leaving them well formed.
module RegexAdvance {
  import opened RegexSyntax
  import opened RegexMeaning

  // A finished group of the subject.
  predicate Proper(env: Env, cap: Cap) {
    0 <= cap.sp <= cap.ep <= |env.txt|
  }

  predicate Unset(cap: Cap) {
    cap.sp == NULL && cap.ep == NULL
  }

  // b continues a by at least s characters, recording at most the groups in gs.
  predicate Continues(env: Env, gs: set<nat>, s: nat, a: Res, b: Res) {
    && a.p + s <= b.p
    && forall g: nat :: g < MAXSUB ==> b.c[g] == a.c[g] || (g in gs && Proper(env, b.c[g]))
  }

  predicate AllContinue(env: Env, gs: set<nat>, s: nat, a: Res, rs: seq<Res>) {
    forall i :: 0 <= i < |rs| ==> Continues(env, gs, s, a, rs[i])
  }

  function Step(node: Node): nat {
    if Consumes(node) then 1 else 0
  }

  lemma ContinuesThrough(env: Env, gs: set<nat>, s: nat, t: nat, a: Res, b: Res, rs: seq<Res>)
    requires Continues(env, gs, s, a, b) && AllContinue(env, gs, t, b, rs)
    ensures AllContinue(env, gs, s + t, a, rs)
  {
  }

  lemma Weaken(env: Env, gs: set<nat>, s: nat, hs: set<nat>, t: nat, a: Res, rs: seq<Res>)
    requires AllContinue(env, gs, s, a, rs) && gs <= hs && t <= s
    ensures AllContinue(env, hs, t, a, rs)
  {
  }

  lemma AllConcat(env: Env, gs: set<nat>, s: nat, a: Res, rs: seq<Res>, ts: seq<Res>)
    requires AllContinue(env, gs, s, a, rs) && AllContinue(env, gs, s, a, ts)
    ensures AllContinue(env, gs, s, a, rs + ts)
  {
  }

  // Every result continues the start; strictly when the node consumes.
  lemma {:induction false} ResultsAdvance(env: Env, node: Node, p: nat, c: Caps)
    requires p <= |env.txt| && GroupsNested(node)
    ensures AllContinue(env, Groups(node), Step(node), Res(p, c), Results(env, node, p, c))
    decreases node, 1
  {
    match node
    case Cat(x, y) => CatAdvance(env, x, y, p, c);
    case Alt(x, y) => AltAdvance(env, x, y, p, c);
    case Rep(ng, m, n, x) => RepAdvance(env, ng, m, n, x, p, c);
    case Par(n, x) => ParAdvance(env, n, x, p, c);
    case Pla(x) => ResultsAdvance(env, x, p, c);
    case _ =>
  }

  lemma {:induction false} CatAdvance(env: Env, x: Node, y: Node, p: nat, c: Caps)
    requires p <= |env.txt| && GroupsNested(x) && GroupsNested(y)
    ensures AllContinue(env, Groups(Cat(x, y)), Step(Cat(x, y)), Res(p, c), Results(env, Cat(x, y), p, c))
    decreases Cat(x, y), 0
  {
    var a, rx, gs := Res(p, c), Results(env, x, p, c), Groups(Cat(x, y));
    ResultsAdvance(env, x, p, c);
    Weaken(env, Groups(x), Step(x), gs, Step(x), a, rx);
    EachAdvance(env, y, gs, Step(x), a, rx);
    Weaken(env, gs, Step(x) + Step(y), gs, Step(Cat(x, y)), a, Each(env, y, rx));
  }

  lemma {:induction false} AltAdvance(env: Env, x: Node, y: Node, p: nat, c: Caps)
    requires p <= |env.txt| && GroupsNested(x) && GroupsNested(y)
    ensures AllContinue(env, Groups(Alt(x, y)), Step(Alt(x, y)), Res(p, c), Results(env, Alt(x, y), p, c))
    decreases Alt(x, y), 0
  {
    var a, gs, s := Res(p, c), Groups(Alt(x, y)), Step(Alt(x, y));
    ResultsAdvance(env, x, p, c);
    ResultsAdvance(env, y, p, c);
    Weaken(env, Groups(x), Step(x), gs, s, a, Results(env, x, p, c));
    Weaken(env, Groups(y), Step(y), gs, s, a, Results(env, y, p, c));
    AllConcat(env, gs, s, a, Results(env, x, p, c), Results(env, y, p, c));
  }

  lemma {:induction false} ParAdvance(env: Env, n: nat, x: Node, p: nat, c: Caps)
    requires p <= |env.txt| && GroupsNested(Par(n, x))
    ensures AllContinue(env, Groups(Par(n, x)), Step(Par(n, x)), Res(p, c), Results(env, Par(n, x), p, c))
    decreases Par(n, x), 0
  {
    var c' := c[n := c[n].(sp := p)];
    var inner := Results(env, x, p, c');
    ResultsAdvance(env, x, p, c');
    var rs := Close(n, inner);
    forall i | 0 <= i < |rs|
      ensures Continues(env, Groups(Par(n, x)), Step(Par(n, x)), Res(p, c), rs[i])
    {
      assert Continues(env, Groups(x), Step(x), Res(p, c'), inner[i]);
      assert inner[i].c[n] == c'[n];
    }
  }

  lemma {:induction false} RepAdvance(env: Env, ng: bool, m: nat, n: nat, x: Node, p: nat, c: Caps)
    requires p <= |env.txt| && GroupsNested(x)
    ensures AllContinue(env, Groups(x), Step(Rep(ng, m, n, x)), Res(p, c), Results(env, Rep(ng, m, n, x), p, c))
    decreases Rep(ng, m, n, x), 0
  {
    var a, s := Res(p, c), Step(Rep(ng, m, n, x));
    var first := Times(env, x, m, [a]);
    TimesAdvance(env, x, m, Groups(x), 0, a, [a]);
    assert AllContinue(env, Groups(x), s, a, first);
    if m == n {
    } else if n < REPINF {
      OptionalsAdvance(env, x, ng, Beyond(m, n), Groups(x), s, a, first);
    } else {
      LoopEachAdvance(env, x, ng, Groups(x), s, a, first, 0);
    }
  }

  lemma {:induction false} EachAdvance(env: Env, node: Node, gs: set<nat>, s: nat, a: Res, rs: seq<Res>)
    requires InText(env, rs) && GroupsNested(node) && Groups(node) <= gs && AllContinue(env, gs, s, a, rs)
    ensures AllContinue(env, gs, s + Step(node), a, Each(env, node, rs))
    decreases node, 2, |rs|
  {
    if rs != [] {
      var more := Results(env, node, rs[0].p, rs[0].c);
      ResultsAdvance(env, node, rs[0].p, rs[0].c);
      Weaken(env, Groups(node), Step(node), gs, Step(node), rs[0], more);
      ContinuesThrough(env, gs, s, Step(node), a, rs[0], more);
      EachAdvance(env, node, gs, s, a, rs[1..]);
      AllConcat(env, gs, s + Step(node), a, more, Each(env, node, rs[1..]));
    }
  }

  lemma {:induction false} TimesAdvance(env: Env, node: Node, k: nat, gs: set<nat>, s: nat, a: Res, rs: seq<Res>)
    requires InText(env, rs) && GroupsNested(node) && Groups(node) <= gs && AllContinue(env, gs, s, a, rs)
    ensures AllContinue(env, gs, if k > 0 then s + Step(node) else s, a, Times(env, node, k, rs))
    decreases node, 3, k
  {
    if k > 0 {
      EachAdvance(env, node, gs, s, a, rs);
      TimesAdvance(env, node, k - 1, gs, s + Step(node), a, Each(env, node, rs));
      var s' := if k > 1 then s + Step(node) + Step(node) else s + Step(node);
      Weaken(env, gs, s', gs, s + Step(node), a, Times(env, node, k, rs));
    }
  }

  lemma {:induction false} OptionalEachAdvance(env: Env, node: Node, ng: bool, gs: set<nat>, s: nat, a: Res, rs: seq<Res>)
    requires InText(env, rs) && GroupsNested(node) && Groups(node) <= gs && AllContinue(env, gs, s, a, rs)
    ensures AllContinue(env, gs, s, a, OptionalEach(env, node, ng, rs))
    decreases node, 2, |rs|
  {
    if rs != [] {
      var more := Results(env, node, rs[0].p, rs[0].c);
      ResultsAdvance(env, node, rs[0].p, rs[0].c);
      Weaken(env, Groups(node), Step(node), gs, 0, rs[0], more);
      ContinuesThrough(env, gs, s, 0, a, rs[0], more);
      OptionalEachAdvance(env, node, ng, gs, s, a, rs[1..]);
      AllConcat(env, gs, s, a, Prefer(ng, more, rs[0]), OptionalEach(env, node, ng, rs[1..]));
    }
  }

  lemma {:induction false} OptionalsAdvance(env: Env, node: Node, ng: bool, k: nat, gs: set<nat>, s: nat, a: Res, rs: seq<Res>)
    requires InText(env, rs) && GroupsNested(node) && Groups(node) <= gs && AllContinue(env, gs, s, a, rs)
    ensures AllContinue(env, gs, s, a, Optionals(env, node, ng, k, rs))
    decreases node, 3, k
  {
    if k > 0 {
      OptionalEachAdvance(env, node, ng, gs, s, a, rs);
      OptionalsAdvance(env, node, ng, k - 1, gs, s, a, OptionalEach(env, node, ng, rs));
    }
  }

  lemma {:induction false} LoopAdvance(env: Env, node: Node, ng: bool, gs: set<nat>, r: Res)
    requires r.p <= |env.txt| && GroupsNested(node) && Groups(node) <= gs
    ensures AllContinue(env, gs, 0, r, Loop(env, node, ng, r.p, r.c))
    decreases node, 4, |env.txt| - r.p, 1
  {
    var body := Results(env, node, r.p, r.c);
    ResultsAdvance(env, node, r.p, r.c);
    Weaken(env, Groups(node), Step(node), gs, 0, r, body);
    LoopEachAdvance(env, node, ng, gs, 0, r, body, r.p + 1);
  }

  lemma {:induction false} LoopEachAdvance(env: Env, node: Node, ng: bool, gs: set<nat>, s: nat, a: Res, rs: seq<Res>, lo: nat)
    requires InText(env, rs) && GroupsNested(node) && Groups(node) <= gs && AllContinue(env, gs, s, a, rs)
    ensures AllContinue(env, gs, s, a, LoopEach(env, node, ng, rs, lo))
    decreases node, 4, if lo <= |env.txt| then |env.txt| + 1 - lo else 0, 0, |rs|
  {
    if rs != [] {
      if rs[0].p >= lo {
        var more := Loop(env, node, ng, rs[0].p, rs[0].c);
        LoopAdvance(env, node, ng, gs, rs[0]);
        ContinuesThrough(env, gs, s, 0, a, rs[0], more);
      }
      LoopEachAdvance(env, node, ng, gs, s, a, rs[1..], lo);
    }
  }

  // From an empty capture array every group of a result is unset or lies in the subject.
  lemma CapturesProper(env: Env, node: Node, p: nat, c: Caps, i: nat)
    requires p <= |env.txt| && GroupsNested(node) && i < |Results(env, node, p, c)|
    requires forall g: nat :: g < MAXSUB ==> Unset(c[g]) || Proper(env, c[g])
    ensures var r := Results(env, node, p, c)[i];
            && p + Step(node) <= r.p <= |env.txt|
            && forall g: nat :: g < MAXSUB ==> Unset(r.c[g]) || Proper(env, r.c[g])
  {
    ResultsAdvance(env, node, p, c);
    assert Continues(env, Groups(node), Step(node), Res(p, c), Results(env, node, p, c)[i]);
  }

  // ----- Groups that hold something -----

  // The groups in s hold nonempty stretches of the subject.
  predicate Holds(env: Env, s: set<nat>, c: Caps) {
    forall n: nat {:trigger n in s} :: n in s ==> n < MAXSUB && 0 <= c[n].sp < c[n].ep <= |env.txt|
  }

  // So they do in every one of the results, which lie at lo or later.
  predicate AllHold(env: Env, s: set<nat>, lo: nat, rs: seq<Res>) {
    forall i :: 0 <= i < |rs| ==> lo <= rs[i].p && Holds(env, s, rs[i].c)
  }

  function Gain(node: Node, s: set<nat>): nat {
    if Moves(node, s) then 1 else 0
  }

  lemma HoldsFewer(env: Env, s: set<nat>, t: set<nat>, lo: nat, a: nat, rs: seq<Res>)
    requires AllHold(env, s, lo, rs) && t <= s && a <= lo
    ensures AllHold(env, t, a, rs)
  {
    hide Holds;
    forall i | 0 <= i < |rs|
      ensures Holds(env, t, rs[i].c)
    {
      HoldsPart(env, s, t, rs[i].c);
    }
  }

  lemma HoldsPart(env: Env, s: set<nat>, t: set<nat>, c: Caps)
    requires Holds(env, s, c) && t <= s
    ensures Holds(env, t, c)
  {
  }

  lemma AllHoldConcat(env: Env, s: set<nat>, lo: nat, a: seq<Res>, b: seq<Res>)
    requires AllHold(env, s, lo, a) && AllHold(env, s, lo, b)
    ensures AllHold(env, s, lo, a + b)
  {
    hide Holds;
  }

  // What Fills and Moves promise, they keep.
  lemma {:induction false} ResultsFill(env: Env, node: Node, s: set<nat>, p: nat, c: Caps)
    requires p <= |env.txt| && GroupsNested(node) && Holds(env, s, c)
    ensures AllHold(env, Fills(node, s), p + Gain(node, s), Results(env, node, p, c))
    decreases node, 1
  {
    match node
    case Cat(x, y) =>
      ResultsFill(env, x, s, p, c);
      EachFill(env, y, Fills(x, s), p + Gain(x, s), Results(env, x, p, c));
      HoldsFewer(env, Fills(node, s), Fills(node, s), p + Gain(x, s) + Gain(y, Fills(x, s)), p + Gain(node, s), Results(env, node, p, c));
    case Alt(x, y) =>
      ResultsFill(env, x, s, p, c);
      ResultsFill(env, y, s, p, c);
      HoldsFewer(env, Fills(x, s), Fills(node, s), p + Gain(x, s), p + Gain(node, s), Results(env, x, p, c));
      HoldsFewer(env, Fills(y, s), Fills(node, s), p + Gain(y, s), p + Gain(node, s), Results(env, y, p, c));
      AllHoldConcat(env, Fills(node, s), p + Gain(node, s), Results(env, x, p, c), Results(env, y, p, c));
    case Rep(ng, m, n, x) => RepFill(env, ng, m, n, x, s, p, c);
    case Par(n, x) => ParFill(env, n, x, s, p, c);
    case Pla(x) => ResultsFill(env, x, s, p, c);
    case _ => LeafFill(env, node, s, p, c);
  }

  lemma LeafFill(env: Env, node: Node, s: set<nat>, p: nat, c: Caps)
    requires p <= |env.txt| && GroupsNested(node) && Holds(env, s, c)
    requires !node.Cat? && !node.Alt? && !node.Rep? && !node.Par? && !node.Pla?
    ensures AllHold(env, Fills(node, s), p + Gain(node, s), Results(env, node, p, c))
  {
    if node.Ref? && node.n in s { assert 0 <= c[node.n].sp < c[node.n].ep <= |env.txt|; }
  }

  lemma {:induction false} ParFill(env: Env, n: nat, x: Node, s: set<nat>, p: nat, c: Caps)
    requires p <= |env.txt| && GroupsNested(Par(n, x)) && Holds(env, s, c)
    ensures AllHold(env, Fills(Par(n, x), s), p + Gain(Par(n, x), s), Results(env, Par(n, x), p, c))
    decreases Par(n, x), 0
  {
    var t, c' := s - {n}, c[n := c[n].(sp := p)];
    var inner := Results(env, x, p, c');
    assert Holds(env, t, c');
    ResultsFill(env, x, t, p, c');
    ResultsAdvance(env, x, p, c');
    var rs := Close(n, inner);
    forall i | 0 <= i < |rs|
      ensures p + Gain(Par(n, x), s) <= rs[i].p && Holds(env, Fills(Par(n, x), s), rs[i].c)
    {
      assert Continues(env, Groups(x), Step(x), Res(p, c'), inner[i]);
      assert inner[i].c[n] == c'[n];
      assert Holds(env, Fills(x, t), inner[i].c);
    }
  }

  lemma {:induction false} RepFill(env: Env, ng: bool, m: nat, n: nat, x: Node, s: set<nat>, p: nat, c: Caps)
    requires p <= |env.txt| && GroupsNested(x) && Holds(env, s, c)
    ensures AllHold(env, Fills(Rep(ng, m, n, x), s), p + Gain(Rep(ng, m, n, x), s), Results(env, Rep(ng, m, n, x), p, c))
    decreases Rep(ng, m, n, x), 0
  {
    hide Holds;
    var t, u, g := s - Groups(x), Fills(Rep(ng, m, n, x), s), p + Gain(Rep(ng, m, n, x), s);
    var first := Times(env, x, m, [Res(p, c)]);
    HoldsPart(env, s, t, c);
    TimesFill(env, x, t, m, p, [Res(p, c)]);
    FillsKeeps(x, t);
    if m == n {
    } else if n < REPINF {
      OptionalsFill(env, x, t, u, ng, Beyond(m, n), g, first);
    } else {
      LoopEachFill(env, x, t, u, ng, g, first, 0);
    }
  }

  lemma {:induction false} EachFill(env: Env, node: Node, s: set<nat>, lo: nat, rs: seq<Res>)
    requires InText(env, rs) && GroupsNested(node) && AllHold(env, s, lo, rs)
    ensures AllHold(env, Fills(node, s), lo + Gain(node, s), Each(env, node, rs))
    decreases node, 2, |rs|
  {
    hide Holds, Fills, Moves, Results;
    if rs != [] {
      var more := Results(env, node, rs[0].p, rs[0].c);
      ResultsFill(env, node, s, rs[0].p, rs[0].c);
      HoldsFewer(env, Fills(node, s), Fills(node, s), rs[0].p + Gain(node, s), lo + Gain(node, s), more);
      EachFill(env, node, s, lo, rs[1..]);
      AllHoldConcat(env, Fills(node, s), lo + Gain(node, s), more, Each(env, node, rs[1..]));
    }
  }

  lemma {:induction false} TimesFill(env: Env, node: Node, t: set<nat>, k: nat, lo: nat, rs: seq<Res>)
    requires InText(env, rs) && GroupsNested(node) && t !! Groups(node) && AllHold(env, t, lo, rs)
    ensures AllHold(env, if k > 0 then Fills(node, t) else t, if k > 0 then lo + Gain(node, t) else lo, Times(env, node, k, rs))
    decreases node, 3, k
  {
    hide Holds, Fills, Moves, Results, Each;
    if k > 0 {
      var once, f, g := Each(env, node, rs), Fills(node, t), Gain(node, t);
      EachFill(env, node, t, lo, rs);
      FillsKeeps(node, t);
      assert t - Groups(node) == t;
      HoldsFewer(env, f, t, lo + g, lo + g, once);
      TimesFill(env, node, t, k - 1, lo + g, once);
      if k > 1 { HoldsFewer(env, f, f, lo + g + g, lo + g, Times(env, node, k, rs)); }
    }
  }

  // u: what is held whether or not there is one more match.
  lemma {:induction false} OptionalEachFill(env: Env, node: Node, t: set<nat>, u: set<nat>, ng: bool, lo: nat, rs: seq<Res>)
    requires InText(env, rs) && GroupsNested(node) && t <= u <= Fills(node, t) && AllHold(env, u, lo, rs)
    ensures AllHold(env, u, lo, OptionalEach(env, node, ng, rs))
    decreases node, 2, |rs|
  {
    hide Holds, Fills, Moves, Results;
    if rs != [] {
      var more := Results(env, node, rs[0].p, rs[0].c);
      HoldsPart(env, u, t, rs[0].c);
      ResultsFill(env, node, t, rs[0].p, rs[0].c);
      HoldsFewer(env, Fills(node, t), u, rs[0].p + Gain(node, t), lo, more);
      OptionalEachFill(env, node, t, u, ng, lo, rs[1..]);
      AllHoldConcat(env, u, lo, Prefer(ng, more, rs[0]), OptionalEach(env, node, ng, rs[1..]));
    }
  }

  lemma {:induction false} OptionalsFill(env: Env, node: Node, t: set<nat>, u: set<nat>, ng: bool, k: nat, lo: nat, rs: seq<Res>)
    requires InText(env, rs) && GroupsNested(node) && t <= u <= Fills(node, t) && AllHold(env, u, lo, rs)
    ensures AllHold(env, u, lo, Optionals(env, node, ng, k, rs))
    decreases node, 3, k
  {
    hide Holds, Fills, Moves, Results, OptionalEach;
    if k > 0 {
      OptionalEachFill(env, node, t, u, ng, lo, rs);
      OptionalsFill(env, node, t, u, ng, k - 1, lo, OptionalEach(env, node, ng, rs));
    }
  }

  lemma {:induction false} LoopFill(env: Env, node: Node, t: set<nat>, u: set<nat>, ng: bool, r: Res)
    requires r.p <= |env.txt| && GroupsNested(node) && t <= u <= Fills(node, t) && Holds(env, u, r.c)
    ensures AllHold(env, u, r.p, Loop(env, node, ng, r.p, r.c))
    decreases node, 4, |env.txt| - r.p, 1
  {
    hide Holds, Fills, Moves, Results, LoopEach;
    var body := Results(env, node, r.p, r.c);
    HoldsPart(env, u, t, r.c);
    ResultsFill(env, node, t, r.p, r.c);
    HoldsFewer(env, Fills(node, t), u, r.p + Gain(node, t), r.p, body);
    LoopEachFill(env, node, t, u, ng, r.p, body, r.p + 1);
  }

  lemma {:induction false} LoopEachFill(env: Env, node: Node, t: set<nat>, u: set<nat>, ng: bool, a: nat, rs: seq<Res>, lo: nat)
    requires InText(env, rs) && GroupsNested(node) && t <= u <= Fills(node, t) && AllHold(env, u, a, rs)
    ensures AllHold(env, u, a, LoopEach(env, node, ng, rs, lo))
    decreases node, 4, if lo <= |env.txt| then |env.txt| + 1 - lo else 0, 0, |rs|
  {
    hide Holds, Fills, Moves, Results, Loop;
    if rs != [] {
      var more := if rs[0].p < lo then [] else Loop(env, node, ng, rs[0].p, rs[0].c);
      if rs[0].p >= lo {
        LoopFill(env, node, t, u, ng, rs[0]);
        HoldsFewer(env, u, u, rs[0].p, a, more);
      }
      LoopEachFill(env, node, t, u, ng, a, rs[1..], lo);
      AllHoldConcat(env, u, a, more, LoopEach(env, node, ng, rs[1..], lo));
    }
  }
}
