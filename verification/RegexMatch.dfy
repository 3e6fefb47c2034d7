// `match` and the small loops it calls, with the stack of saved threads in a buffer that is
// doubled when full, proved against the machine's functional description.
module RegexMatch {
  import opened RegexSyntax
  import opened RegexMeaning
  import opened RegexMachine

  method IncClass(cc: Class, c: Rune) returns (found: bool)
    ensures found <==> InClass(cc, c)
  {
    var k := 0;
    while k < |cc.spans|
      invariant 0 <= k <= |cc.spans|
      invariant forall i :: 0 <= i < k ==> !(cc.spans[i].0 <= c <= cc.spans[i].1)
    {
      if cc.spans[k].0 <= c <= cc.spans[k].1 {
        return true;
      }
      k := k + 1;
    }
    return false;
  }

  lemma CanonTwice(c: Rune)
    ensures Canon(Canon(c)) == Canon(c) <= if c <= RUNE_MAX then RUNE_MAX else c
  {
  }

  method IncClassCanon(cc: Class, c: Rune) returns (found: bool)
    requires c <= RUNE_MAX && Canon(c) == c
    ensures found <==> InClassCanon(cc, c)
  {
    var k := 0;
    while k < |cc.spans|
      invariant 0 <= k <= |cc.spans|
      invariant forall i :: 0 <= i < k ==> !SpanHolds(cc.spans[i].0, cc.spans[i].1, c)
    {
      var hit := InSpan(cc.spans[k].0, cc.spans[k].1, c);
      if hit {
        return true;
      }
      k := k + 1;
    }
    return false;
  }

  // One range, rune by rune. The counter wraps.
  method InSpan(lo: Rune, hi: Rune, c: Rune) returns (hit: bool)
    requires c <= RUNE_MAX && Canon(c) == c
    ensures hit <==> SpanHolds(lo, hi, c)
  {
    var r: Rune := lo;
    ghost var wrapped := false;
    while r <= hi
      invariant !wrapped ==> lo <= r && forall q: Rune :: lo <= q < r && q <= hi ==> Canon(q) != c
      invariant !wrapped ==> r <= RUNE_MAX || r == lo
      invariant wrapped ==> lo <= hi && RUNE_MAX <= hi && r <= c
      decreases !wrapped, if wrapped then (c as int) - r else (hi as int) + 1 - r
    {
      if c == Canon(r) {
        return true;
      }
      wrapped := wrapped || r >= RUNE_MAX;
      r := if r >= RUNE_MAX then 0 else r + 1;
    }
    return false;
  }

  // Ignoring case, a class with a range up to the last rune has every character and its
  // complement none.
  lemma TopRange(env: Env, cc: Class, k: nat, p: nat)
    requires env.icase && k < |cc.spans| && cc.spans[k].0 <= cc.spans[k].1 == RUNE_MAX
    ensures ClassAt(env, cc, p) <==> At(env, p) != 0
    ensures !NClassAt(env, cc, p)
  {
    assert SpanHolds(cc.spans[k].0, cc.spans[k].1, Canon(At(env, p)));
  }

  // Otherwise it has exactly the characters that some member of it folds to.
  lemma FoldedRange(env: Env, cc: Class, p: nat)
    requires env.icase && forall k :: 0 <= k < |cc.spans| ==> cc.spans[k].1 < RUNE_MAX
    ensures ClassAt(env, cc, p) <==>
      At(env, p) != 0 && exists r: Rune {:trigger Canon(r)} :: InClass(cc, r) && Canon(r) == Canon(At(env, p))
  {
    var c := Canon(At(env, p));
    if ClassAt(env, cc, p) {
      var k :| 0 <= k < |cc.spans| && SpanHolds(cc.spans[k].0, cc.spans[k].1, c);
      var r: Rune :| cc.spans[k].0 <= r <= cc.spans[k].1 && Canon(r) == c;
      assert InClass(cc, r);
    } else if At(env, p) != 0 {
      forall r: Rune | InClass(cc, r)
        ensures Canon(r) != c
      {
        var k :| 0 <= k < |cc.spans| && cc.spans[k].0 <= r <= cc.spans[k].1;
        assert !SpanHolds(cc.spans[k].0, cc.spans[k].1, c);
      }
    }
  }

  // Does the text at a agree with the text at b for n characters? `fold` ignores case.
  method SameText(env: Env, a: nat, b: nat, n: nat, fold: bool) returns (same: bool)
    requires a <= |env.txt| && b + n <= |env.txt|
    requires forall k :: 0 <= k < |env.txt| ==> env.txt[k] != 0
    ensures same <==>
      a + n <= |env.txt| &&
      forall k: nat :: b <= k < b + n ==>
        if fold then Canon(At(env, k)) == Canon(At(env, k - b + a)) else At(env, k) == At(env, k - b + a)
  {
    var k := 0;
    while k < n
      invariant 0 <= k <= n && a + k <= |env.txt|
      invariant forall j: nat :: b <= j < b + k ==>
        if fold then Canon(At(env, j)) == Canon(At(env, j - b + a)) else At(env, j) == At(env, j - b + a)
    {
      var ca, cb := At(env, a + k), At(env, b + k);
      if ca == 0 {
        return false;
      }
      if fold {
        ca, cb := Canon(ca), Canon(cb);
      }
      if ca != cb {
        ghost var j: nat := b + k;
        assert if fold then Canon(At(env, j)) != Canon(At(env, j - b + a)) else At(env, j) != At(env, j - b + a);
        return false;
      }
      k := k + 1;
    }
    return true;
  }

  // The subject is a C string of 32-bit characters: no zero before its end.
  predicate IsSubject(txt: seq<Rune>) {
    forall k :: 0 <= k < |txt| ==> 0 < txt[k] <= RUNE_MAX
  }

  method MatchClass(env: Env, cc: Class, c: Rune) returns (found: bool)
    requires c <= RUNE_MAX
    ensures found <==> if env.icase then InClassCanon(cc, Canon(c)) else InClass(cc, c)
  {
    if env.icase {
      CanonTwice(c);
      found := IncClassCanon(cc, Canon(c));
    } else {
      found := IncClass(cc, c);
    }
  }

  method MatchRef(env: Env, cap: Cap, p: nat) returns (adv: int)
    requires IsSubject(env.txt) && p <= |env.txt|
    ensures adv == RefAdvance(env, cap, p)
  {
    if cap.sp == NULL && cap.ep == NULL {
      adv := 0;
    } else if !(0 <= cap.sp <= |env.txt| && 0 <= cap.ep <= |env.txt|) {
      adv := -1;
    } else if cap.ep < cap.sp {
      adv := if !env.icase && cap.sp == p then 0 else -1;
    } else {
      var same := SameText(env, p, cap.sp, cap.ep - cap.sp, env.icase);
      adv := if same then cap.ep - cap.sp else -1;
    }
  }

  // The instructions that only test or record something and move on to the next one.
  method Simple(env: Env, code: seq<Inst>, pc: nat, p: nat, c: Caps) returns (alive: bool, p': nat, c': Caps)
    requires IsSubject(env.txt)
    requires Decode(env, code, pc, p, c) != Bad
    requires pc < |code| && code[pc].op !in {I_END, I_JUMP, I_SPLIT, I_PLA, I_NLA}
    ensures Decode(env, code, pc, p, c) == if alive then Goto(pc + 1, p', c') else Fail
  {
    var i := code[pc];
    alive, p', c' := true, p, c;
    match i.op
    case I_ANYNL =>
      alive := At(env, p) != 0;
      p' := p + 1;
    case I_ANY =>
      alive := At(env, p) != 0 && !IsNewline(At(env, p));
      p' := p + 1;
    case I_CHAR =>
      var ch := At(env, p);
      alive := ch != 0 && (if env.icase then Canon(ch) else ch) == i.c;
      p' := p + 1;
    case I_CCLASS =>
      var found := MatchClass(env, i.cc, At(env, p));
      alive := At(env, p) != 0 && found;
      p' := p + 1;
    case I_NCCLASS =>
      var found := MatchClass(env, i.cc, At(env, p));
      alive := At(env, p) != 0 && !found;
      p' := p + 1;
    case I_REF =>
      var adv := MatchRef(env, c[i.n], p);
      alive := adv >= 0;
      p' := if adv >= 0 then p + adv else p;
    case I_BOL =>
      alive := (p == 0 && !env.notbol) || (env.newline && p > 0 && IsNewline(At(env, p - 1)));
    case I_EOL =>
      alive := At(env, p) == 0 || (env.newline && IsNewline(At(env, p)));
    case I_WORD =>
      alive := (p > 0 && IsWordChar(At(env, p - 1))) != IsWordChar(At(env, p));
    case I_NWORD =>
      alive := !((p > 0 && IsWordChar(At(env, p - 1))) != IsWordChar(At(env, p)));
    case I_LPAR =>
      c' := c[i.n := c[i.n].(sp := p)];
    case I_RPAR =>
      c' := c[i.n := c[i.n].(ep := p)];
  }

  datatype Thread = Thread(pc: nat, p: nat, c: Caps)

  function Pow3(n: nat): (r: nat)
    ensures r > 0
  {
    if n == 0 then 1 else 3 * Pow3(n - 1)
  }

  // Work left in a stack of threads with the given fuels.
  function Weight(fs: seq<nat>): nat {
    if fs == [] then 0 else Weight(fs[..|fs| - 1]) + Pow3(fs[|fs| - 1])
  }

  // The same with a thread of fuel f running.
  function Load(alive: bool, f: nat, fs: seq<nat>): nat {
    Weight(fs) + if alive then Pow3(f) else 0
  }

  lemma WeightPush(fs: seq<nat>, f: nat)
    ensures Weight(fs + [f]) == Weight(fs) + Pow3(f)
  {
    assert (fs + [f])[..|fs|] == fs;
  }

  ghost function RunThread(env: Env, code: seq<Inst>, f: nat, t: Thread, d: nat): Outcome {
    Run(env, code, Real, f, t.pc, t.p, t.c, d)
  }

  // The outcome of running the saved threads, topmost first.
  ghost function Pending(env: Env, code: seq<Inst>, ts: seq<Thread>, fs: seq<nat>): Outcome
    requires |ts| == |fs|
  {
    if ts == [] then Dead
    else
      var n := |ts| - 1;
      Then(RunThread(env, code, fs[n], ts[n], n), Pending(env, code, ts[..n], fs[..n]))
  }

  lemma PendingPush(env: Env, code: seq<Inst>, ts: seq<Thread>, fs: seq<nat>, t: Thread, f: nat)
    requires |ts| == |fs|
    ensures Pending(env, code, ts + [t], fs + [f]) == Then(RunThread(env, code, f, t, |ts|), Pending(env, code, ts, fs))
  {
    assert (ts + [t])[..|ts|] == ts;
    assert (fs + [f])[..|fs|] == fs;
  }

  // The thread t on top of the saved ones, or only those once it has died.
  ghost function Rest(env: Env, code: seq<Inst>, alive: bool, f: nat, t: Thread, ts: seq<Thread>, fs: seq<nat>): Outcome
    requires |ts| == |fs|
  {
    if alive then Then(RunThread(env, code, f, t, |ts|), Pending(env, code, ts, fs)) else Pending(env, code, ts, fs)
  }

  // One step of the running thread keeps the outcome of the whole and lowers the load.
  lemma StepGoto(env: Env, code: seq<Inst>, f: nat, t: Thread, u: Thread, ts: seq<Thread>, fs: seq<nat>)
    requires |ts| == |fs| && Rest(env, code, true, f, t, ts, fs) != Undefined
    requires Decode(env, code, t.pc, t.p, t.c) == Goto(u.pc, u.p, u.c)
    ensures f > 0 && Rest(env, code, true, f, t, ts, fs) == Rest(env, code, true, f - 1, u, ts, fs)
    ensures Load(true, f - 1, fs) < Load(true, f, fs)
  {
    hide Decode, Pending;
  }

  lemma StepJump(env: Env, code: seq<Inst>, f: nat, t: Thread, ts: seq<Thread>, fs: seq<nat>)
    requires |ts| == |fs| && Rest(env, code, true, f, t, ts, fs) != Undefined
    requires t.pc < |code| && code[t.pc].op == I_JUMP
    ensures f > 0 && Rest(env, code, true, f, t, ts, fs) == Rest(env, code, true, f - 1, t.(pc := code[t.pc].x), ts, fs)
    ensures Load(true, f - 1, fs) < Load(true, f, fs)
  {
    hide Decode, Pending, Rest, Load;
    Alive(env, code, f, t, ts, fs);
    DecodeControl(env, code, t.pc, t.p, t.c);
    StepGoto(env, code, f, t, t.(pc := code[t.pc].x), ts, fs);
  }

  lemma StepFail(env: Env, code: seq<Inst>, f: nat, t: Thread, ts: seq<Thread>, fs: seq<nat>)
    requires |ts| == |fs| && Rest(env, code, true, f, t, ts, fs) != Undefined
    requires Decode(env, code, t.pc, t.p, t.c) == Fail
    ensures f > 0 && Rest(env, code, true, f, t, ts, fs) == Rest(env, code, false, f - 1, t, ts, fs)
    ensures Load(false, f - 1, fs) < Load(true, f, fs)
  {
    hide Decode, Pending;
  }

  lemma StepHalt(env: Env, code: seq<Inst>, f: nat, t: Thread, ts: seq<Thread>, fs: seq<nat>)
    requires |ts| == |fs| && Rest(env, code, true, f, t, ts, fs) != Undefined
    requires t.pc < |code| && code[t.pc].op == I_END
    ensures Rest(env, code, true, f, t, ts, fs) == Found(t.p, t.c)
  {
    hide Decode, Pending;
    Alive(env, code, f, t, ts, fs);
    DecodeControl(env, code, t.pc, t.p, t.c);
  }

  lemma StepFork(env: Env, code: seq<Inst>, f: nat, t: Thread, x: nat, y: nat, ts: seq<Thread>, fs: seq<nat>)
    requires |ts| == |fs| && Rest(env, code, true, f, t, ts, fs) != Undefined
    requires t.pc < |code| && code[t.pc].op == I_SPLIT && code[t.pc].x == x && code[t.pc].y == y
    ensures f > 0
    ensures |ts| >= CUTOFF ==> Rest(env, code, true, f, t, ts, fs) == Cut
    ensures |ts| < CUTOFF ==>
      Rest(env, code, true, f, t, ts, fs) == Rest(env, code, true, f - 1, t.(pc := x), ts + [t.(pc := y)], fs + [f - 1])
    ensures Load(true, f - 1, fs + [f - 1]) < Load(true, f, fs)
  {
    hide Decode, Pending, Weight;
    Alive(env, code, f, t, ts, fs);
    DecodeControl(env, code, t.pc, t.p, t.c);
    PendingPush(env, code, ts, fs, t.(pc := y), f - 1);
    WeightPush(fs, f - 1);
  }

  lemma StepLook(env: Env, code: seq<Inst>, f: nat, t: Thread, negative: bool, x: nat, y: nat, ts: seq<Thread>, fs: seq<nat>)
    requires |ts| == |fs| && Rest(env, code, true, f, t, ts, fs) != Undefined
    requires t.pc < |code| && code[t.pc].op == (if negative then I_NLA else I_PLA) && code[t.pc].x == x && code[t.pc].y == y
    ensures f > 0
    ensures var inner := Run(env, code, Real, f - 1, x, t.p, t.c, 0);
      && inner != Undefined
      && Rest(env, code, true, f, t, ts, fs) ==
           Rest(env, code, inner.Found? != negative, f - 1, Thread(y, t.p, if inner.Found? && !negative then inner.c else t.c), ts, fs)
    ensures Load(false, f - 1, fs) <= Load(true, f - 1, fs) < Load(true, f, fs)
  {
    hide Decode, Pending;
    Alive(env, code, f, t, ts, fs);
    DecodeControl(env, code, t.pc, t.p, t.c);
  }

  lemma PopRest(env: Env, code: seq<Inst>, ts: seq<Thread>, fs: seq<nat>)
    requires |ts| == |fs| > 0
    ensures var n := |ts| - 1;
      Pending(env, code, ts, fs) == Rest(env, code, true, fs[n], ts[n], ts[..n], fs[..n])
      && Load(true, fs[n], fs[..n]) == Weight(fs)
  {
    hide Run;
  }

  lemma DeadRest(env: Env, code: seq<Inst>, f: nat, t: Thread, ts: seq<Thread>, fs: seq<nat>)
    requires |ts| == |fs|
    ensures Rest(env, code, false, f, t, ts, fs) == Pending(env, code, ts, fs)
    ensures Load(false, f, fs) == Weight(fs)
  {
    hide Run;
  }

  lemma FirstThread(env: Env, code: seq<Inst>, f: nat, t: Thread)
    ensures Pending(env, code, [t], [f]) == RunThread(env, code, f, t, 0)
  {
    hide Run;
    assert [t][..0] == [] && [f][..0] == [];
  }

  lemma DecodeControl(env: Env, code: seq<Inst>, pc: nat, p: nat, c: Caps)
    requires Decode(env, code, pc, p, c) != Bad
    ensures pc < |code| && p <= |env.txt|
    ensures var i := code[pc];
      match i.op
      case I_END => Decode(env, code, pc, p, c) == Halt
      case I_JUMP => Decode(env, code, pc, p, c) == Goto(i.x, p, c)
      case I_SPLIT => Decode(env, code, pc, p, c) == Fork(i.x, i.y)
      case I_PLA => Decode(env, code, pc, p, c) == Look(false, i.x, i.y)
      case I_NLA => Decode(env, code, pc, p, c) == Look(true, i.x, i.y)
      case _ => true
  {
  }

  lemma Alive(env: Env, code: seq<Inst>, f: nat, t: Thread, ts: seq<Thread>, fs: seq<nat>)
    requires |ts| == |fs| && Rest(env, code, true, f, t, ts, fs) != Undefined
    ensures Decode(env, code, t.pc, t.p, t.c) != Bad && t.pc < |code|
  {
    hide Pending;
  }

  lemma StartOutcome(env: Env, code: seq<Inst>, f: nat, t: Thread)
    ensures MAXTHREAD_STACK > 0
    ensures Pending(env, code, [t], [f]) == Run(env, code, Real, f, t.pc, t.p, t.c, 0)
  {
    hide Run, Pending;
    FirstThread(env, code, f, t);
  }

  lemma NoneLeft(env: Env, code: seq<Inst>, ts: seq<Thread>, fs: seq<nat>)
    requires ts == [] && fs == []
    ensures Pending(env, code, ts, fs) == Dead
  {
  }

  // Grow the stack: a buffer of twice the size with the saved threads copied over.
  method Double(ready: array<Thread>) returns (bigger: array<Thread>)
    requires ready.Length > 0
    ensures fresh(bigger) && bigger.Length == 2 * ready.Length
    ensures bigger[..ready.Length] == ready[..]
  {
    var filler := ready[0];
    bigger := new Thread[2 * ready.Length](_ => filler);
    var k := 0;
    while k < ready.Length
      invariant 0 <= k <= ready.Length
      invariant bigger[..k] == ready[..k]
    {
      bigger[k] := ready[k];
      k := k + 1;
    }
  }

  const MAXTHREAD_STACK: nat := 64

  // Save a thread on top of the stack, in a bigger buffer if this one is full.
  method Push(ready: array<Thread>, nready: nat, t: Thread) returns (stack: array<Thread>)
    requires MAXTHREAD_STACK <= ready.Length && nready <= ready.Length
    modifies ready
    ensures stack == ready || fresh(stack)
    ensures MAXTHREAD_STACK <= stack.Length && nready < stack.Length
    ensures stack[..nready + 1] == old(ready[..nready]) + [t]
  {
    stack := ready;
    if nready == ready.Length {
      stack := Double(ready);
    }
    stack[nready] := t;
  }

  method Match(env: Env, code: seq<Inst>, pc0: nat, p0: nat, sub: Caps, ghost fuel: nat) returns (ok: bool, out: Caps)
    requires IsSubject(env.txt)
    requires Run(env, code, Real, fuel, pc0, p0, sub, 0) != Undefined
    ensures var o := Run(env, code, Real, fuel, pc0, p0, sub, 0);
            (ok <==> o.Found?) && out == if ok then o.c else sub
    decreases fuel
  {
    hide *;
    ghost var goal := Run(env, code, Real, fuel, pc0, p0, sub, 0);
    var first := Thread(pc0, p0, sub);
    var ready := new Thread[MAXTHREAD_STACK](_ => first);
    var nready := 1;
    ghost var fs: seq<nat> := [fuel];
    out := sub;
    StartOutcome(env, code, fuel, first);
    assert ready[..1] == [first];
    while nready > 0
      invariant nready <= ready.Length && ready.Length >= MAXTHREAD_STACK && fresh(ready)
      invariant out == sub
      invariant |fs| == nready && forall k :: 0 <= k < nready ==> fs[k] <= fuel
      invariant Pending(env, code, ready[..nready], fs) == goal
      decreases Weight(fs)
    {
      PopRest(env, code, ready[..nready], fs);
      nready := nready - 1;
      var t := ready[nready];
      ghost var f: nat := fs[nready];
      assert ready[..nready + 1][..nready] == ready[..nready];
      ghost var total := Weight(fs);
      fs := fs[..nready];
      var alive := true;
      while alive
        invariant nready <= ready.Length && ready.Length >= MAXTHREAD_STACK && fresh(ready)
        invariant out == sub && f <= fuel
        invariant |fs| == nready && forall k :: 0 <= k < nready ==> fs[k] <= fuel
        invariant goal == Rest(env, code, alive, f, t, ready[..nready], fs)
        invariant Load(alive, f, fs) <= total && (!alive ==> Load(alive, f, fs) < total)
        decreases Load(alive, f, fs)
      {
        Alive(env, code, f, t, ready[..nready], fs);
        var i := code[t.pc];
        match i.op {
        case I_END =>
          StepHalt(env, code, f, t, ready[..nready], fs);
          return true, t.c;
        case I_JUMP =>
          StepJump(env, code, f, t, ready[..nready], fs);
          t := t.(pc := i.x);
        case I_SPLIT =>
          StepFork(env, code, f, t, i.x, i.y, ready[..nready], fs);
          if nready >= CUTOFF {
            return false, sub;
          }
          ready := Push(ready, nready, t.(pc := i.y));
          nready := nready + 1;
          fs := fs + [f - 1];
          t := t.(pc := i.x);
        case I_PLA =>
          StepLook(env, code, f, t, false, i.x, i.y, ready[..nready], fs);
          var inner, c' := Match(env, code, i.x, t.p, t.c, f - 1);
          alive := inner;
          t := Thread(i.y, t.p, c');
        case I_NLA =>
          StepLook(env, code, f, t, true, i.x, i.y, ready[..nready], fs);
          var inner, _ := Match(env, code, i.x, t.p, t.c, f - 1);
          alive := !inner;
          t := t.(pc := i.y);
        case _ =>
          var ok', p', c' := Simple(env, code, t.pc, t.p, t.c);
          if ok' {
            StepGoto(env, code, f, t, Thread(t.pc + 1, p', c'), ready[..nready], fs);
            t := Thread(t.pc + 1, p', c');
          } else {
            StepFail(env, code, f, t, ready[..nready], fs);
            alive := false;
          }
        }
        f := f - 1;
      }
      DeadRest(env, code, f, t, ready[..nready], fs);
    }
    NoneLeft(env, code, ready[..nready], fs);
    ok := false;
  }
}
