// Greedy bounded repetition: the chain of independent optional copies that `compile` emits
// prefers the same results, in the same order, as the nested form x(x(x)?)?.
module RegexBounded {
  import opened RegexSyntax
  import opened RegexMeaning
  import opened RegexMachine
  import opened RegexCode

  // (x(x(...)?)?)? with k copies of x.
  function NestedOptionals(x: Node, k: nat): Node {
    if k == 0 then Nil else Rep(false, 0, 1, Cat(x, NestedOptionals(x, k - 1)))
  }

  // Append to acc the elements of rs that were not seen before.
  function Add(acc: seq<Res>, rs: seq<Res>): seq<Res>
    decreases |rs|
  {
    if rs == [] then acc else Add(if rs[0] in acc then acc else acc + [rs[0]], rs[1..])
  }

  // The list without repeated occurrences.
  function Firsts(rs: seq<Res>): seq<Res> {
    Add([], rs)
  }

  // The same first occurrences, after whatever was seen before.
  ghost predicate Alike(a: seq<Res>, b: seq<Res>) {
    forall acc: seq<Res> :: Add(acc, a) == Add(acc, b)
  }

  lemma {:induction false} AddConcat(acc: seq<Res>, a: seq<Res>, b: seq<Res>)
    ensures Add(acc, a + b) == Add(Add(acc, a), b)
    decreases |a|
  {
    if a == [] {
      assert a + b == b;
    } else {
      assert (a + b)[1..] == a[1..] + b;
      AddConcat(if a[0] in acc then acc else acc + [a[0]], a[1..], b);
    }
  }

  lemma AlikeConcat(a: seq<Res>, a': seq<Res>, b: seq<Res>, b': seq<Res>)
    requires Alike(a, a') && Alike(b, b')
    ensures Alike(a + b, a' + b')
  {
    hide Add;
    forall acc: seq<Res>
      ensures Add(acc, a + b) == Add(acc, a' + b')
    {
      AddConcat(acc, a, b);
      AddConcat(acc, a', b');
      assert Add(Add(acc, a), b) == Add(Add(acc, a), b');
    }
  }

  predicate Within(a: seq<Res>, b: seq<Res>) {
    forall i :: 0 <= i < |a| ==> a[i] in b
  }

  // Adding keeps what was there and puts everything in.
  lemma {:induction false} AddHas(acc: seq<Res>, rs: seq<Res>)
    ensures forall r :: r in acc || r in rs ==> r in Add(acc, rs)
    decreases |rs|
  {
    if rs != [] {
      AddHas(if rs[0] in acc then acc else acc + [rs[0]], rs[1..]);
      assert rs == [rs[0]] + rs[1..];
    }
  }

  lemma {:induction false} AddKnown(acc: seq<Res>, rs: seq<Res>)
    requires Within(rs, acc)
    ensures Add(acc, rs) == acc
    decreases |rs|
  {
    if rs != [] { AddKnown(acc, rs[1..]); }
  }

  // Results already preferred earlier can be left out.
  lemma Absorb(a: seq<Res>, b: seq<Res>)
    requires Within(b, a)
    ensures Alike(a + b, a)
  {
    hide Add;
    forall acc: seq<Res>
      ensures Add(acc, a + b) == Add(acc, a)
    {
      AddConcat(acc, a, b);
      AddHas(acc, a);
      AddKnown(Add(acc, a), b);
    }
  }

  lemma NestedSound(x: Node, k: nat)
    requires GroupsNested(x)
    ensures GroupsNested(NestedOptionals(x, k))
  {
  }

  // The results of the nested form: one more copy and the rest, or stop.
  lemma NestedResults(env: Env, x: Node, k: nat, r: Res)
    requires GroupsNested(x) && r.p <= |env.txt| && k > 0
    ensures GroupsNested(NestedOptionals(x, k)) && GroupsNested(NestedOptionals(x, k - 1))
    ensures Results(env, NestedOptionals(x, k), r.p, r.c) ==
            Each(env, NestedOptionals(x, k - 1), Results(env, x, r.p, r.c)) + [r]
  {
    hide NestedOptionals, Groups, LoopEach;
    NestedSound(x, k);
    NestedSound(x, k - 1);
    var inner := Cat(x, NestedOptionals(x, k - 1));
    UnfoldNested(x, k);
    var more := Results(env, inner, r.p, r.c);
    assert Times(env, inner, 0, [r]) == [r];
    OneOptional(env, inner, r);
  }

  lemma UnfoldNested(x: Node, k: nat)
    requires k > 0
    ensures NestedOptionals(x, k) == Rep(false, 0, 1, Cat(x, NestedOptionals(x, k - 1)))
  {
  }

  lemma OneOptional(env: Env, inner: Node, r: Res)
    requires GroupsNested(inner) && r.p <= |env.txt|
    ensures Optionals(env, inner, false, 1, [r]) == Results(env, inner, r.p, r.c) + [r]
  {
    hide Results;
    assert OptionalEach(env, inner, false, []) == [];
    assert [r][1..] == [];
    var once := OptionalEach(env, inner, false, [r]);
    assert once == Results(env, inner, r.p, r.c) + [r];
    assert Optionals(env, inner, false, 0, once) == once;
  }

  // A chain works on each of its starting points separately.
  lemma {:induction false} OptionalsConcat(env: Env, x: Node, k: nat, a: seq<Res>, b: seq<Res>)
    requires GroupsNested(x) && InText(env, a) && InText(env, b)
    ensures Optionals(env, x, false, k, a + b) == Optionals(env, x, false, k, a) + Optionals(env, x, false, k, b)
    decreases k
  {
    hide OptionalEach, Results;
    if k > 0 {
      OptionalEachConcat(env, x, a, b);
      OptionalsConcat(env, x, k - 1, OptionalEach(env, x, false, a), OptionalEach(env, x, false, b));
    }
  }

  lemma {:induction false} OptionalEachConcat(env: Env, x: Node, a: seq<Res>, b: seq<Res>)
    requires GroupsNested(x) && InText(env, a) && InText(env, b)
    ensures OptionalEach(env, x, false, a + b) == OptionalEach(env, x, false, a) + OptionalEach(env, x, false, b)
    decreases |a|
  {
    hide Results;
    if a == [] {
      assert a + b == b;
    } else {
      assert (a + b)[1..] == a[1..] + b;
      OptionalEachConcat(env, x, a[1..], b);
    }
  }

  // The head of a chain: take x and go on, or skip it and go on.
  lemma ChainStep(env: Env, x: Node, k: nat, r: Res)
    requires GroupsNested(x) && r.p <= |env.txt| && k > 0
    ensures InText(env, [r])
    ensures Optionals(env, x, false, k, [r]) ==
            Optionals(env, x, false, k - 1, Results(env, x, r.p, r.c)) + Optionals(env, x, false, k - 1, [r])
  {
    hide Results;
    assert [r][1..] == [] && OptionalEach(env, x, false, []) == [];
    var more := Results(env, x, r.p, r.c);
    assert OptionalEach(env, x, false, [r]) == more + [r];
    OptionalsConcat(env, x, k - 1, more, [r]);
  }

  // More copies allow at least the same results.
  lemma {:induction false} NestedGrows(env: Env, x: Node, k: nat, r: Res)
    requires GroupsNested(x) && r.p <= |env.txt|
    requires GroupsNested(NestedOptionals(x, k)) && GroupsNested(NestedOptionals(x, k + 1))
    ensures Within(Results(env, NestedOptionals(x, k), r.p, r.c), Results(env, NestedOptionals(x, k + 1), r.p, r.c))
    decreases k, 1
  {
    hide Results, NestedOptionals, Each;
    NestedResults(env, x, k + 1, r);
    if k == 0 {
      NestedNone(env, x, r);
    } else {
      NestedResults(env, x, k, r);
      EachGrows(env, x, k - 1, Results(env, x, r.p, r.c));
    }
  }

  lemma NestedNone(env: Env, x: Node, r: Res)
    requires r.p <= |env.txt|
    ensures GroupsNested(NestedOptionals(x, 0))
    ensures Results(env, NestedOptionals(x, 0), r.p, r.c) == [r]
  {
  }

  lemma {:induction false} EachGrows(env: Env, x: Node, k: nat, rs: seq<Res>)
    requires GroupsNested(x) && InText(env, rs)
    requires GroupsNested(NestedOptionals(x, k)) && GroupsNested(NestedOptionals(x, k + 1))
    ensures Within(Each(env, NestedOptionals(x, k), rs), Each(env, NestedOptionals(x, k + 1), rs))
    decreases k, 2, |rs|
  {
    hide Results, NestedOptionals;
    if rs != [] {
      NestedGrows(env, x, k, rs[0]);
      EachGrows(env, x, k, rs[1..]);
    }
  }

  // The chain from one starting point agrees with the nested form.
  lemma {:induction false} ChainIsNested(env: Env, x: Node, k: nat, r: Res)
    requires GroupsNested(x) && r.p <= |env.txt| && GroupsNested(NestedOptionals(x, k))
    ensures InText(env, [r])
    ensures Alike(Optionals(env, x, false, k, [r]), Results(env, NestedOptionals(x, k), r.p, r.c))
    decreases k, 1
  {
    hide Results, NestedOptionals, Each, Optionals, Alike;
    if k == 0 {
      NestedNone(env, x, r);
      ChainNone(env, x, [r]);
    } else {
      NestedSound(x, k - 1);
      var more := Results(env, x, r.p, r.c);
      ChainStep(env, x, k, r);
      NestedResults(env, x, k, r);
      ChainEachIsNested(env, x, k - 1, more);
      ChainIsNested(env, x, k - 1, r);
      var inner := Each(env, NestedOptionals(x, k - 1), more);
      var tail := Results(env, NestedOptionals(x, k - 1), r.p, r.c);
      AlikeConcat(Optionals(env, x, false, k - 1, more), inner, Optionals(env, x, false, k - 1, [r]), tail);
      TailAbsorbed(env, x, k, r, more, inner, tail);
    }
  }

  lemma ChainNone(env: Env, x: Node, rs: seq<Res>)
    requires GroupsNested(x) && InText(env, rs)
    ensures Optionals(env, x, false, 0, rs) == rs && Alike(rs, rs)
  {
  }

  // After one more copy and the rest, skipping adds nothing new but the empty choice.
  lemma TailAbsorbed(env: Env, x: Node, k: nat, r: Res, more: seq<Res>, inner: seq<Res>, tail: seq<Res>)
    requires GroupsNested(x) && r.p <= |env.txt| && k > 0 && GroupsNested(NestedOptionals(x, k - 1))
    requires more == Results(env, x, r.p, r.c)
    requires inner == Each(env, NestedOptionals(x, k - 1), more)
    requires tail == Results(env, NestedOptionals(x, k - 1), r.p, r.c)
    ensures forall chain: seq<Res> :: Alike(chain, inner + tail) ==> Alike(chain, inner + [r])
  {
    hide Results, NestedOptionals, Each, Add;
    if k == 1 {
      NestedNone(env, x, r);
    } else {
      NestedResults(env, x, k - 1, r);
      var skipped := Each(env, NestedOptionals(x, k - 2), more);
      EachGrows(env, x, k - 2, more);
      Absorb(inner, skipped);
      AlikeConcat(inner + skipped, inner, [r], [r]);
      assert inner + tail == inner + skipped + [r];
    }
  }

  lemma {:induction false} ChainEachIsNested(env: Env, x: Node, k: nat, rs: seq<Res>)
    requires GroupsNested(x) && InText(env, rs) && GroupsNested(NestedOptionals(x, k))
    ensures Alike(Optionals(env, x, false, k, rs), Each(env, NestedOptionals(x, k), rs))
    decreases k, 2, |rs|
  {
    hide Results, NestedOptionals, Optionals, Add;
    if rs == [] {
      NoChains(env, x, k);
    } else {
      ChainIsNested(env, x, k, rs[0]);
      ChainEachIsNested(env, x, k, rs[1..]);
      OptionalsConcat(env, x, k, [rs[0]], rs[1..]);
      assert [rs[0]] + rs[1..] == rs;
      AlikeConcat(Optionals(env, x, false, k, [rs[0]]), Results(env, NestedOptionals(x, k), rs[0].p, rs[0].c),
                  Optionals(env, x, false, k, rs[1..]), Each(env, NestedOptionals(x, k), rs[1..]));
    }
  }

  lemma {:induction false} NoChains(env: Env, x: Node, k: nat)
    requires GroupsNested(x)
    ensures Optionals(env, x, false, k, []) == []
    decreases k
  {
    if k > 0 { NoChains(env, x, k - 1); }
  }

  // x{m,n} and its nested form have the same results in the same order of preference.
  lemma BoundedIsNested(env: Env, x: Node, m: nat, n: nat, p: nat, c: Caps)
    requires GroupsNested(x) && p <= |env.txt| && m < n < REPINF
    ensures var nested := Cat(Rep(false, m, m, x), NestedOptionals(x, n - m));
      && GroupsNested(nested)
      && Firsts(Results(env, Rep(false, m, n, x), p, c)) == Firsts(Results(env, nested, p, c))
      && Alike(Results(env, Rep(false, m, n, x), p, c), Results(env, nested, p, c))
  {
    hide NestedOptionals, Add, Optionals, Each, Times;
    NestedSound(x, n - m);
    var first := Times(env, x, m, [Res(p, c)]);
    ChainEachIsNested(env, x, n - m, first);
    RepResults(env, false, m, n, x, p, c);
    RepResults(env, false, m, m, x, p, c);
  }

  // The outcome of trying continuations depends only on the first occurrences.
  lemma {:induction false} TriesAdd(env: Env, code: seq<Inst>, pc: nat, acc: seq<Res>, rs: seq<Res>)
    ensures Tries(env, code, pc, Add(acc, rs)) == Then(Tries(env, code, pc, acc), Tries(env, code, pc, rs))
    decreases |rs|
  {
    hide Val;
    if rs != [] {
      var r := rs[0];
      if r in acc {
        TriesAdd(env, code, pc, acc, rs[1..]);
        if Tries(env, code, pc, acc) == Dead { TriesMember(env, code, pc, acc, r); }
      } else {
        TriesAdd(env, code, pc, acc + [r], rs[1..]);
        TriesConcat(env, code, pc, acc, [r]);
        TriesOne(env, code, pc, r);
      }
    }
  }

  lemma {:induction false} TriesMember(env: Env, code: seq<Inst>, pc: nat, rs: seq<Res>, r: Res)
    requires r in rs && Tries(env, code, pc, rs) == Dead
    ensures Val(env, code, pc, r.p, r.c) == Dead
    decreases |rs|
  {
    hide Val;
    if rs[0] != r { TriesMember(env, code, pc, rs[1..], r); }
  }

  // So whatever follows the repetition, the preferred overall match is the same.
  lemma BoundedSameMatch(env: Env, code: seq<Inst>, pc: nat, x: Node, m: nat, n: nat, p: nat, c: Caps)
    requires GroupsNested(x) && p <= |env.txt| && m < n < REPINF
    ensures var nested := Cat(Rep(false, m, m, x), NestedOptionals(x, n - m));
      && GroupsNested(nested)
      && Tries(env, code, pc, Results(env, Rep(false, m, n, x), p, c)) == Tries(env, code, pc, Results(env, nested, p, c))
  {
    hide Results, NestedOptionals, Val, Alike;
    BoundedIsNested(env, x, m, n, p, c);
    var nested := Cat(Rep(false, m, m, x), NestedOptionals(x, n - m));
    TriesAdd(env, code, pc, [], Results(env, Rep(false, m, n, x), p, c));
    TriesAdd(env, code, pc, [], Results(env, nested, p, c));
  }
}
