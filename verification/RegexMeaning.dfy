// Reference meaning of patterns: for a node, a subject position and a capture array,
// the ordered list of all ways the node can match, preferred way first.
module RegexMeaning {
  import opened RegexSyntax

  // A null pointer in the capture array.
  const NULL: int := -1

  datatype Cap = Cap(sp: int, ep: int)

  const NoCap := Cap(NULL, NULL)

  type Caps = c: seq<Cap> | |c| == MAXSUB witness [NoCap, NoCap, NoCap, NoCap, NoCap, NoCap, NoCap, NoCap]

  const NoCaps: Caps := [NoCap, NoCap, NoCap, NoCap, NoCap, NoCap, NoCap, NoCap]

  // The subject and the flags. `ci` is REG_ICASE at compile time, `icase` at match time.
  datatype Env = Env(txt: seq<Rune>, ci: bool, icase: bool, newline: bool, notbol: bool)

  // One way of matching: where it ends and what it captured.
  datatype Res = Res(p: nat, c: Caps)

  function ToUpper(c: Rune): Rune {
    if 'a' as int <= c <= 'z' as int then c - 'a' as int + 'A' as int else c
  }

  function Canon(c: Rune): Rune {
    var u := ToUpper(c);
    if c >= 128 && u < 128 then c else u
  }

  predicate IsNewline(c: Rune) {
    c == 0xA || c == 0xD || c == 0x2028 || c == 0x2029
  }

  predicate IsWordChar(c: Rune) {
    || c == '_' as int
    || 'a' as int <= c <= 'z' as int
    || 'A' as int <= c <= 'Z' as int
    || '0' as int <= c <= '9' as int
  }

  // The rune at p; the terminating zero at the end.
  function At(env: Env, p: nat): Rune {
    if p < |env.txt| then env.txt[p] else 0
  }

  predicate InClass(cc: Class, c: Rune) {
    exists i :: 0 <= i < |cc.spans| && cc.spans[i].0 <= c <= cc.spans[i].1
  }

  // The loop over a range cannot end behind the last rune: it goes on from 0 until it meets the
  // character, so under folding a range that reaches the last rune holds every character.
  predicate InClassCanon(cc: Class, c: Rune) {
    exists i :: 0 <= i < |cc.spans| && SpanHolds(cc.spans[i].0, cc.spans[i].1, c)
  }

  predicate SpanHolds(lo: Rune, hi: Rune, c: Rune) {
    lo <= hi && (hi >= RUNE_MAX || exists r: Rune :: lo <= r <= hi && Canon(r) == c)
  }

  predicate AnyNlAt(env: Env, p: nat) {
    At(env, p) != 0
  }

  predicate AnyAt(env: Env, p: nat) {
    At(env, p) != 0 && !IsNewline(At(env, p))
  }

  // The character stored by `compile`, compared by `match`.
  function Stored(env: Env, c: Rune): Rune {
    if env.ci then Canon(c) else c
  }

  predicate CharAt(env: Env, stored: Rune, p: nat) {
    At(env, p) != 0 && (if env.icase then Canon(At(env, p)) else At(env, p)) == stored
  }

  predicate Member(env: Env, cc: Class, p: nat) {
    if env.icase then InClassCanon(cc, Canon(At(env, p))) else InClass(cc, At(env, p))
  }

  predicate ClassAt(env: Env, cc: Class, p: nat) {
    At(env, p) != 0 && Member(env, cc, p)
  }

  predicate NClassAt(env: Env, cc: Class, p: nat) {
    At(env, p) != 0 && !Member(env, cc, p)
  }

  predicate BolAt(env: Env, p: nat) {
    || (p == 0 && !env.notbol)
    || (env.newline && p > 0 && IsNewline(At(env, p - 1)))
  }

  predicate EolAt(env: Env, p: nat) {
    At(env, p) == 0 || (env.newline && IsNewline(At(env, p)))
  }

  predicate WordEdgeAt(env: Env, p: nat) {
    (p > 0 && IsWordChar(At(env, p - 1))) != IsWordChar(At(env, p))
  }

  // How far a back-reference to `cap` advances at p, or -1 when it fails.
  // A group that never matched refers to the empty string.
  function RefAdvance(env: Env, cap: Cap, p: nat): (adv: int)
    requires p <= |env.txt|
    ensures adv == -1 || 0 <= adv <= |env.txt| - p
  {
    if cap.sp == NULL && cap.ep == NULL then 0
    else if !(0 <= cap.sp <= |env.txt| && 0 <= cap.ep <= |env.txt|) then -1
    else if cap.ep < cap.sp then
      (if !env.icase && cap.sp == p then 0 else -1)
    else
      var i := cap.ep - cap.sp;
      if i > |env.txt| - p then -1
      else if env.icase then
        (if forall k: nat :: cap.sp <= k < cap.ep ==> Canon(At(env, k)) == Canon(At(env, k - cap.sp + p)) then i else -1)
      else
        (if forall k: nat :: cap.sp <= k < cap.ep ==> At(env, k) == At(env, k - cap.sp + p) then i else -1)
  }

  predicate InText(env: Env, rs: seq<Res>) {
    forall i :: 0 <= i < |rs| ==> rs[i].p <= |env.txt|
  }

  function If(b: bool, p: nat, c: Caps): seq<Res> {
    if b then [Res(p, c)] else []
  }

  function Results(env: Env, node: Node, p: nat, c: Caps): (rs: seq<Res>)
    requires p <= |env.txt| && GroupsNested(node)
    ensures InText(env, rs)
    decreases node, 0
  {
    match node
    case Nil => [Res(p, c)]
    case Cat(x, y) => Each(env, y, Results(env, x, p, c))
    case Alt(x, y) => Results(env, x, p, c) + Results(env, y, p, c)
    case Rep(ng, m, n, x) =>
      var first := Times(env, x, m, [Res(p, c)]);
      if m == n then first
      else if n < REPINF then Optionals(env, x, ng, Beyond(m, n), first)
      else LoopEach(env, x, ng, first, 0)
    case Bol => If(BolAt(env, p), p, c)
    case Eol => If(EolAt(env, p), p, c)
    case Word => If(WordEdgeAt(env, p), p, c)
    case NWord => If(!WordEdgeAt(env, p), p, c)
    case Par(n, x) => Close(n, Results(env, x, p, c[n := c[n].(sp := p)]))
    case Pla(x) =>
      var inner := Results(env, x, p, c);
      if inner == [] then [] else [Res(p, inner[0].c)]
    case Nla(x) => If(Results(env, x, p, c) == [], p, c)
    case Any => If(AnyAt(env, p), p + 1, c)
    case Chr(ch) => If(CharAt(env, Stored(env, ch), p), p + 1, c)
    case CClass(cc) => If(ClassAt(env, cc, p), p + 1, c)
    case NCClass(cc) => If(NClassAt(env, cc, p), p + 1, c)
    case Ref(n, _) =>
      var adv := RefAdvance(env, c[n], p);
      if adv < 0 then [] else [Res(p + adv, c)]
  }

  // Record the end of group n in every result.
  function Close(n: nat, rs: seq<Res>): (out: seq<Res>)
    requires n < MAXSUB
    ensures |out| == |rs|
    ensures forall i :: 0 <= i < |rs| ==> out[i] == Res(rs[i].p, rs[i].c[n := rs[i].c[n].(ep := rs[i].p)])
  {
    seq(|rs|, i requires 0 <= i < |rs| => Res(rs[i].p, rs[i].c[n := rs[i].c[n].(ep := rs[i].p)]))
  }

  // Continue every result with the node, in order.
  function Each(env: Env, node: Node, rs: seq<Res>): (out: seq<Res>)
    requires InText(env, rs) && GroupsNested(node)
    ensures InText(env, out)
    decreases node, 1, |rs|
  {
    if rs == [] then [] else Results(env, node, rs[0].p, rs[0].c) + Each(env, node, rs[1..])
  }

  // k matches of the node, one after the other.
  function Times(env: Env, node: Node, k: nat, rs: seq<Res>): (out: seq<Res>)
    requires InText(env, rs) && GroupsNested(node)
    ensures InText(env, out)
    decreases node, 2, k
  {
    if k == 0 then rs else Times(env, node, k - 1, Each(env, node, rs))
  }

  // Prefer `more` over stopping, or the other way round for a lazy repetition.
  function Prefer(ng: bool, more: seq<Res>, stop: Res): seq<Res> {
    if ng then [stop] + more else more + [stop]
  }

  // Every result with or without one more match of the node.
  function OptionalEach(env: Env, node: Node, ng: bool, rs: seq<Res>): (out: seq<Res>)
    requires InText(env, rs) && GroupsNested(node)
    ensures InText(env, out)
    decreases node, 1, |rs|
  {
    if rs == [] then [] else Prefer(ng, Results(env, node, rs[0].p, rs[0].c), rs[0]) + OptionalEach(env, node, ng, rs[1..])
  }

  // k independent optional matches in a row.
  function Optionals(env: Env, node: Node, ng: bool, k: nat, rs: seq<Res>): (out: seq<Res>)
    requires InText(env, rs) && GroupsNested(node)
    ensures InText(env, out)
    decreases node, 2, k
  {
    if k == 0 then rs else Optionals(env, node, ng, k - 1, OptionalEach(env, node, ng, rs))
  }

  // Any number of matches of the node from p on.
  function Loop(env: Env, node: Node, ng: bool, p: nat, c: Caps): (out: seq<Res>)
    requires p <= |env.txt| && GroupsNested(node)
    ensures InText(env, out)
    decreases node, 3, |env.txt| - p, 1
  {
    Prefer(ng, LoopEach(env, node, ng, Results(env, node, p, c), p + 1), Res(p, c))
  }

  // Any number of matches of the node after each result that lies at lo or later. A body that
  // consumes yields no other results, so for such bodies nothing is skipped.
  function LoopEach(env: Env, node: Node, ng: bool, rs: seq<Res>, lo: nat): (out: seq<Res>)
    requires InText(env, rs) && GroupsNested(node)
    ensures InText(env, out)
    decreases node, 3, if lo <= |env.txt| then |env.txt| + 1 - lo else 0, 0, |rs|
  {
    if rs == [] then []
    else
      (if rs[0].p < lo then [] else Loop(env, node, ng, rs[0].p, rs[0].c))
      + LoopEach(env, node, ng, rs[1..], lo)
  }
}
