// The parser's test of a back-reference against the number of groups lets one index through that
// lies past its table: \8, once seven groups have been opened.
module RegexEighth {
  import opened Options
  import opened RegexSyntax
  import opened RegexLexemes
  import opened RegexGrammar
  import opened RegexAccept

  // The test that is made before the table of groups is read.
  predicate Passes(n: nat, nsub: nat) {
    n != 0 && n <= nsub
  }

  // Opening parentheses of capturing groups.
  function Opens(ts: seq<Lexeme>): nat {
    if ts == [] then 0 else Opens(ts[..|ts| - 1]) + if ts[|ts| - 1] == Symbol('(') then 1 else 0
  }

  lemma {:induction false} OpensJoin(a: seq<Lexeme>, b: seq<Lexeme>)
    ensures Opens(a + b) == Opens(a) + Opens(b)
  {
    if b == [] {
      assert a + b == a;
    } else {
      OpensJoin(a, b[..|b| - 1]);
      assert (a + b)[..|a + b| - 1] == a + b[..|b| - 1];
    }
  }

  lemma OpensSplit(ts: seq<Lexeme>, i: nat)
    requires i <= |ts|
    ensures Opens(ts) == Opens(ts[..i]) + Opens(ts[i..])
  {
    hide Opens;
    OpensJoin(ts[..i], ts[i..]);
    assert ts[..i] + ts[i..] == ts;
  }

  lemma OpensOne(t: Lexeme)
    ensures Opens([t]) == if t == Symbol('(') then 1 else 0
  {
    assert Opens([t][..0]) == 0;
  }

  // The number that the next group gets goes up by one for each parenthesis that opens one.
  lemma {:induction false} AltCounts(ts: seq<Lexeme>, lo: nat, node: Node, hi: nat)
    requires IsAlt(ts, lo, node, hi)
    ensures hi == lo + Opens(ts)
    decreases |ts|, 4
  {
    hide IsCat;
    if IsCat(ts, lo, node, hi) {
      CatCounts(ts, lo, node, hi);
    } else {
      var i: nat, mid: nat :| AltAt(ts, lo, node, hi, i, mid);
      AltCounts(ts[..i], lo, node.x, mid);
      CatCounts(ts[i + 1..], mid, node.y, hi);
      OpensSplit(ts, i);
      OpensSplit(ts[i..], 1);
      OpensOne(Symbol('|'));
      assert ts[i..][..1] == [Symbol('|')] && ts[i..][1..] == ts[i + 1..];
    }
  }

  lemma {:induction false} CatCounts(ts: seq<Lexeme>, lo: nat, node: Node, hi: nat)
    requires IsCat(ts, lo, node, hi)
    ensures hi == lo + Opens(ts)
    decreases |ts|, 3
  {
    hide IsRun;
    if IsRun(ts, lo, node, hi) { RunCounts(ts, lo, node, hi); }
  }

  lemma {:induction false} RunCounts(ts: seq<Lexeme>, lo: nat, node: Node, hi: nat)
    requires IsRun(ts, lo, node, hi)
    ensures hi == lo + Opens(ts)
    decreases |ts|, 2
  {
    hide IsRep;
    if IsRep(ts, lo, node, hi) {
      RepCounts(ts, lo, node, hi);
    } else {
      var i: nat, mid: nat :| RunAt(ts, lo, node, hi, i, mid);
      RunCounts(ts[..i], lo, node.x, mid);
      RepCounts(ts[i..], mid, node.y, hi);
      OpensSplit(ts, i);
    }
  }

  lemma {:induction false} RepCounts(ts: seq<Lexeme>, lo: nat, node: Node, hi: nat)
    requires IsRep(ts, lo, node, hi)
    ensures hi == lo + Opens(ts)
    decreases |ts|, 1
  {
    hide IsAtom, IsQuantifier;
    if IsAssertion(ts, node) && lo == hi {
      OpensOne(ts[0]);
    } else if IsAtom(ts, lo, node, hi) {
      AtomCounts(ts, lo, node, hi);
    } else {
      var i := |ts| - if node.ng then 2 else 1;
      AtomCounts(ts[..i], lo, node.x, hi);
      OpensSplit(ts, i);
      QuantifierCounts(ts[i..], node.ng, node.m, node.n);
    }
  }

  lemma QuantifierCounts(q: seq<Lexeme>, ng: bool, m: nat, n: nat)
    requires IsQuantifier(q, ng, m, n)
    ensures Opens(q) == 0
  {
    OpensSplit(q, 1);
    OpensOne(q[0]);
    assert q[..1] == [q[0]];
    if ng {
      OpensOne(q[1]);
      assert q[1..] == [q[1]];
    }
  }

  lemma {:induction false} AtomCounts(ts: seq<Lexeme>, lo: nat, node: Node, hi: nat)
    requires IsAtom(ts, lo, node, hi)
    ensures hi == lo + Opens(ts)
    decreases |ts|, 0
  {
    hide IsAlt;
    OpensSplit(ts, 1);
    OpensOne(ts[0]);
    assert ts[..1] == [ts[0]];
    if |ts| > 1 {
      var inner, rest := ts[1..|ts| - 1], ts[1..];
      OpensSplit(rest, |inner|);
      OpensOne(Symbol(')'));
      assert rest[..|inner|] == inner && rest[|inner|..] == [Symbol(')')];
      var first := if ts[0] == Symbol('(') then lo + 1 else lo;
      if IsAlt(inner, first, node, hi) {
        AltCounts(inner, first, node, hi);
      } else {
        AltCounts(inner, first, Inside(node), hi);
      }
    }
  }

  function Inside(node: Node): Node {
    if node.Par? || node.Pla? || node.Nla? then node.x else node
  }

  // A reference is taken exactly if it passes the test and its group is closed; what passes and
  // is not in the table is number 8 with seven groups opened.
  lemma TestOfReference(n: nat, nsub: nat, sub: Subs, rest: seq<Lexeme>)
    requires 1 <= nsub <= MAXSUB
    ensures TakeAtom([LexRef(n)] + rest, nsub, sub).Out? <==> Passes(n, nsub) && n < MAXSUB && sub[n].Some?
    ensures Passes(n, nsub) && n >= MAXSUB <==> n == nsub == MAXSUB
  {
  }

  // After any sequence of complete parts the parser stands before \8 with one more than the
  // groups opened so far, and looks past its table exactly if these are seven.
  lemma LooksPastTable(a: seq<Lexeme>, b: seq<Lexeme>, x: Node, hi: nat)
    requires IsRun(a, 1, x, hi) && Allowed(x, 1, NoSubs) && b != [] && b[0] == LexRef(MAXSUB)
    ensures TakeCat(a + b, 1, NoSubs) == MoreCats(x, b, 1 + Opens(a), Binds(x, NoSubs))
    ensures TakeAtom(b, 1 + Opens(a), Binds(x, NoSubs)).Fail?
    ensures Passes(MAXSUB, 1 + Opens(a)) <==> Opens(a) == 7
  {
    hide IsRun, TakeCat, MoreCats, Binds, TakeAlt, GroupsNested, RepsChecked, RefsBound;
    RunCounts(a, 1, x, hi);
    RunTaken(a, b, 1, x, hi, NoSubs);
    AtMostSeven(a, 1, x, hi);
  }

  // Numbers of groups fit the table, so there are at most seven.
  lemma {:induction false} AtMostSeven(ts: seq<Lexeme>, lo: nat, node: Node, hi: nat)
    requires IsRun(ts, lo, node, hi) && GroupsNested(node) && lo <= MAXSUB
    ensures hi <= MAXSUB
  {
    hide GroupsNested;
    if hi > lo { LastGroup(ts, lo, node, hi); NumbersFit(node, hi - 1); }
  }

  lemma {:induction false} NumbersFit(node: Node, n: nat)
    requires GroupsNested(node) && n in Groups(node)
    ensures n < MAXSUB
  {
    match node
    case Cat(x, y) => if n in Groups(x) { NumbersFit(x, n); } else { NumbersFit(y, n); }
    case Alt(x, y) => if n in Groups(x) { NumbersFit(x, n); } else { NumbersFit(y, n); }
    case Rep(_, _, _, x) => NumbersFit(x, n);
    case Par(k, x) => if n != k { NumbersFit(x, n); }
    case Pla(x) => NumbersFit(x, n);
    case Nla(x) => NumbersFit(x, n);
  }

  lemma {:induction false} LastGroup(ts: seq<Lexeme>, lo: nat, node: Node, hi: nat)
    requires IsRun(ts, lo, node, hi) && lo < hi
    ensures hi - 1 in Groups(node)
    decreases |ts|, 2
  {
    hide IsRep, Groups;
    if IsRep(ts, lo, node, hi) {
      LastInRep(ts, lo, node, hi);
    } else {
      var i: nat, mid: nat :| RunAt(ts, lo, node, hi, i, mid);
      PairGroups(node.x, node.y);
      if mid < hi {
        LastInRep(ts[i..], mid, node.y, hi);
      } else {
        RepCounts(ts[i..], mid, node.y, hi);
        LastGroup(ts[..i], lo, node.x, mid);
      }
    }
  }

  lemma PairGroups(x: Node, y: Node)
    ensures Groups(Cat(x, y)) == Groups(Alt(x, y)) == Groups(x) + Groups(y)
  {
  }

  lemma {:induction false} LastInAlt(ts: seq<Lexeme>, lo: nat, node: Node, hi: nat)
    requires IsAlt(ts, lo, node, hi) && lo < hi
    ensures hi - 1 in Groups(node)
    decreases |ts|, 3
  {
    hide IsRun, Groups;
    if IsCat(ts, lo, node, hi) {
      LastGroup(ts, lo, node, hi);
    } else {
      var i: nat, mid: nat :| AltAt(ts, lo, node, hi, i, mid);
      PairGroups(node.x, node.y);
      assert IsCat(ts[i + 1..], mid, node.y, hi);
      if mid < hi {
        LastGroup(ts[i + 1..], mid, node.y, hi);
      } else {
        CatCounts(ts[i + 1..], mid, node.y, hi);
        LastInAlt(ts[..i], lo, node.x, mid);
      }
    }
  }

  lemma {:induction false} LastInRep(ts: seq<Lexeme>, lo: nat, node: Node, hi: nat)
    requires IsRep(ts, lo, node, hi) && lo < hi
    ensures hi - 1 in Groups(node)
    decreases |ts|, 1
  {
    hide IsAtom, IsQuantifier;
    if IsAtom(ts, lo, node, hi) {
      LastInAtom(ts, lo, node, hi);
    } else {
      LastInAtom(ts[..|ts| - if node.ng then 2 else 1], lo, node.x, hi);
    }
  }

  lemma {:induction false} LastInAtom(ts: seq<Lexeme>, lo: nat, node: Node, hi: nat)
    requires IsAtom(ts, lo, node, hi) && lo < hi
    ensures hi - 1 in Groups(node)
    decreases |ts|, 0
  {
    hide IsAlt;
    var inner := ts[1..|ts| - 1];
    if ts[0] == Symbol('(') {
      AltCounts(inner, lo + 1, node.x, hi);
      if lo + 1 < hi { LastInAlt(inner, lo + 1, node.x, hi); }
    } else if ts[0] == LexNoCapture {
      LastInAlt(inner, lo, node, hi);
    } else {
      LastInAlt(inner, lo, node.x, hi);
    }
  }

  // There are such patterns: ()()()()()()()\8
  function EmptyGroups(k: nat): seq<Lexeme> {
    if k == 0 then [] else EmptyGroups(k - 1) + [Symbol('('), Symbol(')')]
  }

  function GroupsTree(k: nat): Node
    requires k > 0
  {
    if k == 1 then Par(1, Nil) else Cat(GroupsTree(k - 1), Par(k, Nil))
  }

  lemma {:induction false} GroupsParsed(k: nat)
    requires 0 < k
    ensures IsRun(EmptyGroups(k), 1, GroupsTree(k), k + 1) && EmptyGroups(k) != []
  {
    hide IsRun, IsRep, IsAtom;
    var one := [Symbol('('), Symbol(')')];
    assert IsAlt([], k + 1, Nil, k + 1);
    Grouped(Symbol('('), [], k, k + 1, Nil);
    assert [Symbol('(')] + [] + [Symbol(')')] == one;
    AtomNonempty(one, k, Par(k, Nil), k + 1);
    RepNonempty(one, k, Par(k, Nil), k + 1);
    if k == 1 {
      assert EmptyGroups(0) + one == one;
    } else {
      GroupsParsed(k - 1);
      RunJoins(EmptyGroups(k - 1), one, 1, k, k + 1, GroupsTree(k - 1), Par(k, Nil));
    }
  }

  lemma {:induction false} GroupsAllowed(k: nat)
    requires 0 < k < MAXSUB
    ensures RepsChecked(GroupsTree(k)) && GroupsNested(GroupsTree(k)) && RefsBound(GroupsTree(k), NoSubs)
  {
    hide Binds;
    if k > 1 {
      GroupsAllowed(k - 1);
      NoRefsBound(k - 1, NoSubs);
    }
  }

  lemma {:induction false} NoRefsBound(k: nat, sub: Subs)
    requires k > 0
    ensures RefsBound(GroupsTree(k), sub)
  {
    hide Binds;
    if k > 1 {
      NoRefsBound(k - 1, sub);
      EmptyBound(k, Binds(GroupsTree(k - 1), sub));
    } else {
      EmptyBound(1, sub);
    }
  }

  lemma EmptyBound(n: nat, sub: Subs)
    ensures RefsBound(Par(n, Nil), sub)
  {
  }

  lemma NothingBelow()
    ensures Below(NoSubs, 1)
  {
    var none := NoSubs;
    assert none[0].None? && none[1].None? && none[2].None? && none[3].None?;
    assert none[4].None? && none[5].None? && none[6].None? && none[7].None?;
  }

  lemma AllowedBy(node: Node)
    requires RepsChecked(node) && GroupsNested(node) && RefsBound(node, NoSubs) && Below(NoSubs, 1)
    ensures Allowed(node, 1, NoSubs)
  {
  }

  lemma SevenGroups()
    ensures Opens(EmptyGroups(7)) == 7 && Passes(MAXSUB, 1 + Opens(EmptyGroups(7)))
    ensures IsRun(EmptyGroups(7), 1, GroupsTree(7), MAXSUB) && Allowed(GroupsTree(7), 1, NoSubs)
  {
    hide IsRun, EmptyGroups, GroupsTree, Allowed, Opens;
    GroupsParsed(7);
    assert Allowed(GroupsTree(7), 1, NoSubs) by { GroupsAllowed(7); NothingBelow(); AllowedBy(GroupsTree(7)); }
    RunCounts(EmptyGroups(7), 1, GroupsTree(7), 8);
  }
}
