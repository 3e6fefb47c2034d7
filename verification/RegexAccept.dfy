// Which token sequences the parser accepts: a parser on tokens as a function, and the proof
// that it takes every tree that the grammar allows within the program's limits.
module RegexAccept {
  import opened Options
  import opened RegexSyntax
  import opened RegexLexemes
  import opened RegexGrammar

  // The closed groups, by number.
  type Subs = s: seq<Option<Node>> | |s| == MAXSUB witness [None, None, None, None, None, None, None, None]

  const NoSubs: Subs := [None, None, None, None, None, None, None, None]

  // The closed groups after a tree was read.
  function Binds(node: Node, sub: Subs): Subs {
    match node
    case Cat(x, y) => Binds(y, Binds(x, sub))
    case Alt(x, y) => Binds(y, Binds(x, sub))
    case Rep(_, _, _, x) => Binds(x, sub)
    case Par(n, x) => if n < MAXSUB then Binds(x, sub)[n := Some(node)] else sub
    case Pla(x) => Binds(x, sub)
    case Nla(x) => Binds(x, sub)
    case _ => sub
  }

  // Every reference is to a group that was closed before it.
  predicate RefsBound(node: Node, sub: Subs) {
    match node
    case Cat(x, y) => RefsBound(x, sub) && RefsBound(y, Binds(x, sub))
    case Alt(x, y) => RefsBound(x, sub) && RefsBound(y, Binds(x, sub))
    case Rep(_, _, _, x) => RefsBound(x, sub)
    case Par(n, x) => RefsBound(x, sub)
    case Pla(x) => RefsBound(x, sub)
    case Nla(x) => RefsBound(x, sub)
    case Ref(n, x) => n < MAXSUB && sub[n] == Some(x)
    case _ => true
  }

  // Groups below lo only.
  ghost predicate Below(sub: Subs, lo: nat) {
    forall k: nat {:trigger sub[k]} :: k < MAXSUB && sub[k].Some? ==> 0 < k < lo
  }

  // ----- The parser on tokens -----

  // A tree, the tokens that are left, the next free group number and the closed groups.
  datatype Out = Fail | Out(node: Node, rest: seq<Lexeme>, hi: nat, sub: Subs)

  predicate StopsCat(ts: seq<Lexeme>) {
    ts == [] || ts[0] == Symbol('|') || ts[0] == Symbol(')')
  }

  // The bounds of a quantifier token.
  function BoundsOf(t: Lexeme): Option<(nat, nat)> {
    if t.LexCount? then Some((t.min, t.max))
    else if t == Symbol('*') then Some((0, REPINF))
    else if t == Symbol('+') then Some((1, REPINF))
    else if t == Symbol('?') then Some((0, 1))
    else None
  }

  function TakeAlt(ts: seq<Lexeme>, lo: nat, sub: Subs): (o: Out)
    ensures o.Out? ==> |o.rest| <= |ts|
    decreases |ts|, 6
  {
    match TakeCat(ts, lo, sub)
    case Fail => Fail
    case Out(x, rest, hi, sub') => MoreAlts(x, rest, hi, sub')
  }

  function MoreAlts(x: Node, ts: seq<Lexeme>, hi: nat, sub: Subs): (o: Out)
    ensures o.Out? ==> |o.rest| <= |ts|
    decreases |ts|, 5
  {
    if ts == [] || ts[0] != Symbol('|') then Out(x, ts, hi, sub)
    else
      match TakeCat(ts[1..], hi, sub)
      case Fail => Fail
      case Out(y, rest, hi', sub') => MoreAlts(Alt(x, y), rest, hi', sub')
  }

  function TakeCat(ts: seq<Lexeme>, lo: nat, sub: Subs): (o: Out)
    ensures o.Out? ==> |o.rest| <= |ts|
    decreases |ts|, 4
  {
    if StopsCat(ts) then Out(Nil, ts, lo, sub)
    else
      match TakeRep(ts, lo, sub)
      case Fail => Fail
      case Out(x, rest, hi, sub') => MoreCats(x, rest, hi, sub')
  }

  function MoreCats(x: Node, ts: seq<Lexeme>, hi: nat, sub: Subs): (o: Out)
    ensures o.Out? ==> |o.rest| <= |ts|
    decreases |ts|, 3
  {
    if StopsCat(ts) then Out(x, ts, hi, sub)
    else
      match TakeRep(ts, hi, sub)
      case Fail => Fail
      case Out(y, rest, hi', sub') => MoreCats(Cat(x, y), rest, hi', sub')
  }

  function TakeRep(ts: seq<Lexeme>, lo: nat, sub: Subs): (o: Out)
    ensures o.Out? ==> |o.rest| < |ts|
    decreases |ts|, 2
  {
    if ts == [] then Fail
    else if ts[0] == Symbol('^') then Out(Bol, ts[1..], lo, sub)
    else if ts[0] == Symbol('$') then Out(Eol, ts[1..], lo, sub)
    else if ts[0] == LexWord then Out(Word, ts[1..], lo, sub)
    else if ts[0] == LexNotWord then Out(NWord, ts[1..], lo, sub)
    else
      match TakeAtom(ts, lo, sub)
      case Fail => Fail
      case Out(x, rest, hi, sub') => TakeQuantifier(x, rest, hi, sub')
  }

  function TakeQuantifier(x: Node, ts: seq<Lexeme>, hi: nat, sub: Subs): (o: Out)
    ensures o.Out? ==> |o.rest| <= |ts|
  {
    if ts == [] || BoundsOf(ts[0]).None? then Out(x, ts, hi, sub)
    else
      var (m, n) := BoundsOf(ts[0]).value;
      var ng := |ts| > 1 && ts[1] == Symbol('?');
      if m > n || (n == REPINF && Empty(x)) then Fail
      else Out(Rep(ng, m, n, x), if ng then ts[2..] else ts[1..], hi, sub)
  }

  function TakeAtom(ts: seq<Lexeme>, lo: nat, sub: Subs): (o: Out)
    ensures o.Out? ==> |o.rest| < |ts|
    decreases |ts|, 1
  {
    if ts == [] then Fail
    else
      match ts[0]
      case LexChar(c) => Out(Chr(c), ts[1..], lo, sub)
      case LexClass(cc) => Out(CClass(cc), ts[1..], lo, sub)
      case LexNotClass(cc) => Out(NCClass(cc), ts[1..], lo, sub)
      case LexRef(n) =>
        if 0 < n < MAXSUB && n <= lo && sub[n].Some? then Out(Ref(n, sub[n].value), ts[1..], lo, sub) else Fail
      case LexNoCapture => TakeClosed(ts[1..], lo, sub)
      case LexLook =>
        match TakeClosed(ts[1..], lo, sub) {
          case Fail => Fail
          case Out(x, rest, hi, sub') => Out(Pla(x), rest, hi, sub')
        }
      case LexNotLook =>
        match TakeClosed(ts[1..], lo, sub) {
          case Fail => Fail
          case Out(x, rest, hi, sub') => Out(Nla(x), rest, hi, sub')
        }
      case LexSymbol(c) =>
        if c == Code('.') then Out(Any, ts[1..], lo, sub)
        else if c == Code('(') && lo < MAXSUB then
          match TakeClosed(ts[1..], lo + 1, sub) {
            case Fail => Fail
            case Out(x, rest, hi, sub') => Out(Par(lo, x), rest, hi, sub'[lo := Some(Par(lo, x))])
          }
        else Fail
      case _ => Fail
  }

  // Alternatives and the parenthesis that closes them.
  function TakeClosed(ts: seq<Lexeme>, lo: nat, sub: Subs): (o: Out)
    ensures o.Out? ==> |o.rest| < |ts|
    decreases |ts|, 7
  {
    match TakeAlt(ts, lo, sub)
    case Fail => Fail
    case Out(x, rest, hi, sub') =>
      if rest != [] && rest[0] == Symbol(')') then Out(x, rest[1..], hi, sub') else Fail
  }

  // ----- Every tree within the limits is taken -----

  // A tree that the program can take where groups below lo are numbered: loops consume, group
  // numbers fit, references are to groups closed before.
  ghost predicate Allowed(node: Node, lo: nat, sub: Subs) {
    RepsChecked(node) && GroupsNested(node) && RefsBound(node, sub) && Below(sub, lo) && 1 <= lo
  }

  // What reading a tree leaves behind.
  ghost predicate Left(node: Node, lo: nat, hi: nat, sub: Subs) {
    lo <= hi && Below(Binds(node, sub), hi)
  }

  // A quantifier cannot start what follows.
  predicate NotQuantified(ts: seq<Lexeme>) {
    ts == [] || BoundsOf(ts[0]).None?
  }

  lemma StopNotQuantified(ts: seq<Lexeme>)
    requires StopsCat(ts)
    ensures NotQuantified(ts)
  {
  }

  lemma AtomFirst(a: seq<Lexeme>, lo: nat, node: Node, hi: nat)
    requires IsAtom(a, lo, node, hi)
    ensures a != [] && !StopsCat(a) && NotQuantified(a)
    ensures a[0] != Symbol('^') && a[0] != Symbol('$') && !a[0].LexWord? && !a[0].LexNotWord?
  {
    hide IsAlt;
  }

  lemma RepFirst(a: seq<Lexeme>, lo: nat, node: Node, hi: nat)
    requires IsRep(a, lo, node, hi)
    ensures a != [] && !StopsCat(a) && NotQuantified(a)
  {
    hide IsAtom, IsQuantifier;
    if IsAssertion(a, node) {
    } else if IsAtom(a, lo, node, hi) {
      AtomFirst(a, lo, node, hi);
    } else {
      var k := if node.ng then 2 else 1;
      AtomFirst(a[..|a| - k], lo, node.x, hi);
    }
  }

  // Reading a node, its parts are allowed.
  lemma PartsAllowed(x: Node, y: Node, lo: nat, sub: Subs)
    ensures Allowed(Alt(x, y), lo, sub) || Allowed(Cat(x, y), lo, sub) ==>
      Allowed(x, lo, sub) && RepsChecked(y) && GroupsNested(y) && RefsBound(y, Binds(x, sub))
    ensures Binds(Alt(x, y), sub) == Binds(Cat(x, y), sub) == Binds(y, Binds(x, sub))
  {
  }

  lemma {:induction false} AltTaken(a: seq<Lexeme>, b: seq<Lexeme>, lo: nat, node: Node, hi: nat, sub: Subs)
    requires IsAlt(a, lo, node, hi) && Allowed(node, lo, sub) && StopsCat(b)
    ensures TakeAlt(a + b, lo, sub) == MoreAlts(node, b, hi, Binds(node, sub)) && Left(node, lo, hi, sub)
    decreases |a|, 5
  {
    hide IsCat, Allowed, Left, Binds, StopsCat;
    if IsCat(a, lo, node, hi) {
      CatTaken(a, b, lo, node, hi, sub);
    } else {
      var i: nat, mid: nat :| AltAt(a, lo, node, hi, i, mid);
      AltSplits(a, b, lo, node, hi, sub, i, mid);
    }
  }

  lemma {:induction false} AltSplits(a: seq<Lexeme>, b: seq<Lexeme>, lo: nat, node: Node, hi: nat, sub: Subs, i: nat, mid: nat)
    requires AltAt(a, lo, node, hi, i, mid) && Allowed(node, lo, sub) && StopsCat(b)
    ensures TakeAlt(a + b, lo, sub) == MoreAlts(node, b, hi, Binds(node, sub)) && Left(node, lo, hi, sub)
    decreases |a|, 4
  {
    hide IsCat, IsAlt, Binds, TakeAlt, TakeCat, RepsChecked, GroupsNested, RefsBound, Below;
    var x, y, bar := node.x, node.y, [Symbol('|')];
    var first, second := a[..i], a[i + 1..];
    assert a + b == first + (bar + second + b);
    PartsAllowed(x, y, lo, sub);
    AltTaken(first, bar + second + b, lo, x, mid, sub);
    CatTaken(second, b, mid, y, hi, Binds(x, sub));
    assert (bar + second + b)[1..] == second + b;
  }

  lemma {:induction false} CatTaken(a: seq<Lexeme>, b: seq<Lexeme>, lo: nat, node: Node, hi: nat, sub: Subs)
    requires IsCat(a, lo, node, hi) && Allowed(node, lo, sub) && StopsCat(b)
    ensures TakeCat(a + b, lo, sub) == Out(node, b, hi, Binds(node, sub)) && Left(node, lo, hi, sub)
    decreases |a|, 3
  {
    hide IsRun;
    if a == [] && node == Nil && lo == hi {
      assert a + b == b;
    } else {
      hide Allowed, Left, Binds;
      StopNotQuantified(b);
      RunTaken(a, b, lo, node, hi, sub);
    }
  }

  lemma {:induction false} RunTaken(a: seq<Lexeme>, b: seq<Lexeme>, lo: nat, node: Node, hi: nat, sub: Subs)
    requires IsRun(a, lo, node, hi) && Allowed(node, lo, sub) && NotQuantified(b)
    ensures TakeCat(a + b, lo, sub) == MoreCats(node, b, hi, Binds(node, sub)) && Left(node, lo, hi, sub)
    decreases |a|, 2
  {
    hide IsRep, Allowed, Left, Binds, NotQuantified, TakeRep;
    if IsRep(a, lo, node, hi) {
      RepFirst(a, lo, node, hi);
      RepTaken(a, b, lo, node, hi, sub);
    } else {
      var i: nat, mid: nat :| RunAt(a, lo, node, hi, i, mid);
      RunSplits(a, b, lo, node, hi, sub, i, mid);
    }
  }

  lemma {:induction false} RunSplits(a: seq<Lexeme>, b: seq<Lexeme>, lo: nat, node: Node, hi: nat, sub: Subs, i: nat, mid: nat)
    requires RunAt(a, lo, node, hi, i, mid) && Allowed(node, lo, sub) && NotQuantified(b)
    ensures TakeCat(a + b, lo, sub) == MoreCats(node, b, hi, Binds(node, sub)) && Left(node, lo, hi, sub)
    decreases |a|, 1
  {
    hide IsRep, IsRun, Binds, TakeCat, TakeRep, RepsChecked, GroupsNested, RefsBound, Below;
    var x, y := node.x, node.y;
    var first, second := a[..i], a[i..];
    assert a + b == first + (second + b);
    PartsAllowed(x, y, lo, sub);
    RepFirst(second, mid, y, hi);
    RunTaken(first, second + b, lo, x, mid, sub);
    RepTaken(second, b, mid, y, hi, Binds(x, sub));
  }

  lemma {:induction false} RepTaken(a: seq<Lexeme>, b: seq<Lexeme>, lo: nat, node: Node, hi: nat, sub: Subs)
    requires IsRep(a, lo, node, hi) && Allowed(node, lo, sub) && NotQuantified(b)
    ensures TakeRep(a + b, lo, sub) == Out(node, b, hi, Binds(node, sub)) && Left(node, lo, hi, sub)
    decreases |a|, 1
  {
    hide IsAtom, IsQuantifier, TakeAtom, TakeQuantifier;
    if IsAssertion(a, node) && lo == hi {
      assert (a + b)[1..] == b;
    } else if IsAtom(a, lo, node, hi) {
      hide Allowed, Left, Binds;
      AtomFirst(a, lo, node, hi);
      AtomTaken(a, b, lo, node, hi, sub);
      PlainTaken(node, b, hi, Binds(node, sub));
    } else {
      hide Left;
      var k := if node.ng then 2 else 1;
      var atom, q := a[..|a| - k], a[|a| - k..];
      assert a + b == atom + (q + b);
      AtomFirst(atom, lo, node.x, hi);
      AtomTaken(atom, q + b, lo, node.x, hi, sub);
      QuantifierTaken(q, b, node.ng, node.m, node.n, node.x, hi, Binds(node.x, sub));
      RepLeft(node, lo, hi, sub);
    }
  }

  lemma RepLeft(node: Node, lo: nat, hi: nat, sub: Subs)
    requires node.Rep? && Left(node.x, lo, hi, sub)
    ensures Left(node, lo, hi, sub)
  {
  }

  lemma PlainTaken(x: Node, b: seq<Lexeme>, hi: nat, sub: Subs)
    requires NotQuantified(b)
    ensures TakeQuantifier(x, b, hi, sub) == Out(x, b, hi, sub)
  {
  }

  lemma QuantifierTaken(q: seq<Lexeme>, b: seq<Lexeme>, ng: bool, m: nat, n: nat, x: Node, hi: nat, sub: Subs)
    requires IsQuantifier(q, ng, m, n) && NotQuantified(b) && m <= n && !(n == REPINF && Empty(x))
    ensures TakeQuantifier(x, q + b, hi, sub) == Out(Rep(ng, m, n, x), b, hi, sub)
  {
    if ng { assert (q + b)[2..] == b; } else { assert (q + b)[1..] == b; }
  }

  lemma {:induction false} AtomTaken(a: seq<Lexeme>, b: seq<Lexeme>, lo: nat, node: Node, hi: nat, sub: Subs)
    requires IsAtom(a, lo, node, hi) && Allowed(node, lo, sub)
    ensures TakeAtom(a + b, lo, sub) == Out(node, b, hi, Binds(node, sub)) && Left(node, lo, hi, sub)
    decreases |a|, 0
  {
    hide IsAlt, TakeClosed;
    if |a| == 1 {
      assert (a + b)[1..] == b;
    } else {
      var inner := a[1..|a| - 1];
      assert (a + b)[1..] == inner + ([Symbol(')')] + b);
      if a[0] == Symbol('(') {
        GroupTaken(inner, b, lo, node, hi, sub);
      } else if a[0] == LexNoCapture {
        ClosedTaken(inner, b, lo, node, hi, sub);
      } else {
        ClosedTaken(inner, b, lo, node.x, hi, sub);
      }
    }
  }

  lemma {:induction false} GroupTaken(inner: seq<Lexeme>, b: seq<Lexeme>, lo: nat, node: Node, hi: nat, sub: Subs)
    requires node.Par? && node.n == lo && IsAlt(inner, lo + 1, node.x, hi) && Allowed(node, lo, sub)
    ensures lo < MAXSUB && Left(node, lo, hi, sub)
    ensures TakeClosed(inner + ([Symbol(')')] + b), lo + 1, sub) == Out(node.x, b, hi, Binds(node.x, sub))
    ensures Binds(node, sub) == Binds(node.x, sub)[lo := Some(node)]
    decreases |inner|, 7
  {
    hide IsAlt, TakeClosed;
    ClosedTaken(inner, b, lo + 1, node.x, hi, sub);
  }

  lemma {:induction false} ClosedTaken(inner: seq<Lexeme>, b: seq<Lexeme>, lo: nat, x: Node, hi: nat, sub: Subs)
    requires IsAlt(inner, lo, x, hi) && Allowed(x, lo, sub)
    ensures TakeClosed(inner + ([Symbol(')')] + b), lo, sub) == Out(x, b, hi, Binds(x, sub)) && Left(x, lo, hi, sub)
    decreases |inner|, 6
  {
    hide IsAlt, Allowed, Left, Binds, TakeAlt;
    var close := [Symbol(')')];
    AltTaken(inner, close + b, lo, x, hi, sub);
    assert (close + b)[1..] == b;
  }

  // The whole pattern: if the grammar gives a tree within the limits to the tokens, the
  // parser takes that tree, and so no other is within the limits.
  lemma WholeTaken(ts: seq<Lexeme>, node: Node, hi: nat)
    requires IsAlt(ts, 1, node, hi) && RepsChecked(node) && GroupsNested(node) && RefsBound(node, NoSubs)
    ensures TakeAlt(ts, 1, NoSubs) == Out(node, [], hi, Binds(node, NoSubs))
  {
    hide IsAlt, RepsChecked, GroupsNested, RefsBound, Binds, TakeAlt;
    assert ts + [] == ts;
    AltTaken(ts, [], 1, node, hi, NoSubs);
  }

  // ----- What is taken has its references bound -----

  ghost predicate Bound(x: Node, sub: Subs, after: Subs) {
    RefsBound(x, sub) && after == Binds(x, sub)
  }

  lemma PairBound(x: Node, y: Node, sub: Subs, mid: Subs, after: Subs)
    requires Bound(x, sub, mid) && Bound(y, mid, after)
    ensures Bound(Cat(x, y), sub, after) && Bound(Alt(x, y), sub, after)
  {
  }

  lemma {:induction false} AltBound(ts: seq<Lexeme>, lo: nat, sub: Subs)
    ensures var o := TakeAlt(ts, lo, sub); o.Out? ==> Bound(o.node, sub, o.sub)
    decreases |ts|, 6
  {
    hide Bound, TakeCat, MoreAlts;
    CatBound(ts, lo, sub);
    var o := TakeCat(ts, lo, sub);
    if o.Out? { MoreAltsBound(o.node, o.rest, o.hi, o.sub, sub); }
  }

  lemma {:induction false} MoreAltsBound(x: Node, ts: seq<Lexeme>, hi: nat, sub: Subs, first: Subs)
    requires Bound(x, first, sub)
    ensures var o := MoreAlts(x, ts, hi, sub); o.Out? ==> Bound(o.node, first, o.sub)
    decreases |ts|, 5
  {
    hide Bound, TakeCat;
    if ts != [] && ts[0] == Symbol('|') {
      CatBound(ts[1..], hi, sub);
      var o := TakeCat(ts[1..], hi, sub);
      if o.Out? {
        PairBound(x, o.node, first, sub, o.sub);
        MoreAltsBound(Alt(x, o.node), o.rest, o.hi, o.sub, first);
      }
    }
  }

  lemma {:induction false} CatBound(ts: seq<Lexeme>, lo: nat, sub: Subs)
    ensures var o := TakeCat(ts, lo, sub); o.Out? ==> Bound(o.node, sub, o.sub)
    decreases |ts|, 4
  {
    hide TakeRep, MoreCats;
    if !StopsCat(ts) {
      RepBound(ts, lo, sub);
      var o := TakeRep(ts, lo, sub);
      if o.Out? { MoreCatsBound(o.node, o.rest, o.hi, o.sub, sub); }
    }
  }

  lemma {:induction false} MoreCatsBound(x: Node, ts: seq<Lexeme>, hi: nat, sub: Subs, first: Subs)
    requires Bound(x, first, sub)
    ensures var o := MoreCats(x, ts, hi, sub); o.Out? ==> Bound(o.node, first, o.sub)
    decreases |ts|, 3
  {
    hide Bound, TakeRep;
    if !StopsCat(ts) {
      RepBound(ts, hi, sub);
      var o := TakeRep(ts, hi, sub);
      if o.Out? {
        PairBound(x, o.node, first, sub, o.sub);
        MoreCatsBound(Cat(x, o.node), o.rest, o.hi, o.sub, first);
      }
    }
  }

  lemma {:induction false} RepBound(ts: seq<Lexeme>, lo: nat, sub: Subs)
    ensures var o := TakeRep(ts, lo, sub); o.Out? ==> Bound(o.node, sub, o.sub)
    decreases |ts|, 2
  {
    hide TakeAtom;
    if ts != [] { AtomBound(ts, lo, sub); }
  }

  lemma {:induction false} AtomBound(ts: seq<Lexeme>, lo: nat, sub: Subs)
    ensures var o := TakeAtom(ts, lo, sub); o.Out? ==> Bound(o.node, sub, o.sub)
    decreases |ts|, 1
  {
    hide TakeClosed;
    if ts != [] {
      ClosedBound(ts[1..], lo, sub);
      ClosedBound(ts[1..], lo + 1, sub);
    }
  }

  lemma {:induction false} ClosedBound(ts: seq<Lexeme>, lo: nat, sub: Subs)
    ensures var o := TakeClosed(ts, lo, sub); o.Out? ==> Bound(o.node, sub, o.sub)
    decreases |ts|, 7
  {
    hide Bound, TakeAlt;
    AltBound(ts, lo, sub);
  }

  // ----- Tokens without a back-reference spell trees without one -----

  ghost predicate NoRefs(ts: seq<Lexeme>) {
    forall i {:trigger ts[i]} :: 0 <= i < |ts| ==> !ts[i].LexRef?
  }

  lemma NoRefsWithin(ts: seq<Lexeme>, i: nat, j: nat)
    requires NoRefs(ts) && i <= j <= |ts|
    ensures NoRefs(ts[i..j])
  {
  }

  lemma {:induction false} AltRefFree(ts: seq<Lexeme>, lo: nat, node: Node, hi: nat)
    requires IsAlt(ts, lo, node, hi) && NoRefs(ts)
    ensures RefFree(node)
    decreases |ts|, 3
  {
    hide NoRefs, IsCat;
    if IsCat(ts, lo, node, hi) {
      CatRefFree(ts, lo, node, hi);
    } else {
      var i: nat, mid: nat :| AltAt(ts, lo, node, hi, i, mid);
      NoRefsWithin(ts, 0, i);
      NoRefsWithin(ts, i + 1, |ts|);
      assert ts[0..i] == ts[..i] && ts[i + 1..|ts|] == ts[i + 1..];
      AltRefFree(ts[..i], lo, node.x, mid);
      CatRefFree(ts[i + 1..], mid, node.y, hi);
    }
  }

  lemma {:induction false} CatRefFree(ts: seq<Lexeme>, lo: nat, node: Node, hi: nat)
    requires IsCat(ts, lo, node, hi) && NoRefs(ts)
    ensures RefFree(node)
    decreases |ts|, 2
  {
    hide NoRefs, IsRep;
    if ts == [] && node == Nil {
    } else if IsRep(ts, lo, node, hi) {
      RepRefFree(ts, lo, node, hi);
    } else {
      assert IsRun(ts, lo, node, hi);
      var i: nat, mid: nat :| RunAt(ts, lo, node, hi, i, mid);
      NoRefsWithin(ts, 0, i);
      NoRefsWithin(ts, i, |ts|);
      assert ts[0..i] == ts[..i] && ts[i..|ts|] == ts[i..];
      CatRefFree(ts[..i], lo, node.x, mid);
      RepRefFree(ts[i..], mid, node.y, hi);
    }
  }

  lemma {:induction false} RepRefFree(ts: seq<Lexeme>, lo: nat, node: Node, hi: nat)
    requires IsRep(ts, lo, node, hi) && NoRefs(ts)
    ensures RefFree(node)
    decreases |ts|, 1
  {
    hide NoRefs, IsAtom, IsQuantifier;
    if IsAtom(ts, lo, node, hi) {
      AtomRefFree(ts, lo, node, hi);
    } else if node.Rep? {
      var k := |ts| - if node.ng then 2 else 1;
      NoRefsWithin(ts, 0, k);
      assert ts[0..k] == ts[..k];
      AtomRefFree(ts[..k], lo, node.x, hi);
    }
  }

  lemma {:induction false} AtomRefFree(ts: seq<Lexeme>, lo: nat, node: Node, hi: nat)
    requires IsAtom(ts, lo, node, hi) && NoRefs(ts)
    ensures RefFree(node)
    decreases |ts|, 0
  {
    hide IsAlt;
    if |ts| >= 2 && ts[|ts| - 1] == Symbol(')') {
      var inner := ts[1..|ts| - 1];
      NoRefsWithin(ts, 1, |ts| - 1);
      if ts[0] == Symbol('(') {
        AltRefFree(inner, lo + 1, node.x, hi);
      } else {
        AltRefFree(inner, lo, if ts[0] == LexNoCapture then node else node.x, hi);
      }
    }
  }

  // ----- Patterns -----

  // The pattern spells the tree, and the tree is within the program's limits: loops consume,
  // at most seven groups, references to closed groups only, at most sixteen classes.
  ghost predicate Acceptable(pat: seq<Rune>, ts: seq<Lexeme>, node: Node) {
    && Derives(pat, ts, node) && RepsChecked(node) && GroupsNested(node)
    && RefsBound(node, NoSubs) && Classes(ts) <= MAXCLASSES
  }

  lemma AcceptableTaken(pat: seq<Rune>, ts: seq<Lexeme>, node: Node)
    requires Acceptable(pat, ts, node)
    ensures RestOf(pat, 0) == Some(ts) && Classes(ts) <= MAXCLASSES
    ensures TakeAlt(ts, 1, NoSubs).Out? && TakeAlt(ts, 1, NoSubs).node == node && TakeAlt(ts, 1, NoSubs).rest == []
  {
    hide IsAlt, RepsChecked, GroupsNested, RefsBound, Binds, TakeAlt, Tokens, LexemeAt, RestOf, Classes;
    var end: nat :| IsWhole(pat, ts, end);
    WholeIsRest(pat, 0, ts, end);
    var hi: nat :| IsAlt(ts, 1, node, hi);
    WholeTaken(ts, node, hi);
  }

  // A pattern has at most one such tree.
  lemma OneTree(pat: seq<Rune>, ts: seq<Lexeme>, node: Node, ts': seq<Lexeme>, node': Node)
    requires Acceptable(pat, ts, node) && Acceptable(pat, ts', node')
    ensures ts == ts' && node == node'
  {
    hide Acceptable, TakeAlt, RestOf, Classes;
    AcceptableTaken(pat, ts, node);
    AcceptableTaken(pat, ts', node');
  }
}
