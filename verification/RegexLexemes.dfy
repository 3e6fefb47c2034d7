// The tokens of a pattern, as a function of its characters.
module RegexLexemes {
  import opened Options
  import opened RegexSyntax

  datatype Lexeme =
    | LexEnd
    | LexSymbol(c: Rune)
    | LexChar(c: Rune)
    | LexClass(cc: Class)
    | LexNotClass(cc: Class)
    | LexRef(n: nat)
    | LexCount(min: nat, max: nat)
    | LexNoCapture | LexLook | LexNotLook
    | LexWord | LexNotWord

  const MAXSPANS: nat := 64
  const MAXCLASSES: nat := 16

  function Code(c: char): Rune { c as Rune }

  function OneOf(s: string, c: Rune): bool {
    exists i :: 0 <= i < |s| && s[i] as Rune == c
  }

  predicate IsDigit(c: Rune) { Code('0') <= c <= Code('9') }

  predicate IsAlpha(c: Rune) {
    Code('A') <= c <= Code('Z') || Code('a') <= c <= Code('z')
  }

  // Symbols that are tokens by themselves.
  predicate IsSymbol(c: Rune) { OneOf("$)*+.?^|", c) }

  predicate IsEscape(c: Rune) { OneOf("BbDdSsWw^$\\.*+?()[]{}|0123456789", c) }

  // The character at a position; the terminator behind the last one.
  function CharAt(pat: seq<Rune>, pos: nat): Rune {
    if pos < |pat| then pat[pos] else 0
  }

  // ----- Characters and escapes -----

  // A rune, whether it was quoted, and where the next one starts.
  datatype Scan = BadScan | Scanned(c: Rune, quoted: bool, next: nat)

  function HexDigit(c: Rune): Option<nat> {
    if IsDigit(c) then Some(c - Code('0'))
    else if Code('a') <= c <= Code('f') then Some(c - Code('a') + 10)
    else if Code('A') <= c <= Code('F') then Some(c - Code('A') + 10)
    else None
  }

  // k hexadecimal digits, the highest first.
  function HexAt(pat: seq<Rune>, pos: nat, k: nat): Option<nat> {
    if k == 0 then Some(0)
    else
      match (HexAt(pat, pos, k - 1), HexDigit(CharAt(pat, pos + k - 1)))
      case (Some(high), Some(d)) => Some(16 * high + d)
      case _ => None
  }

  // A hexadecimal escape; zero stands for the quoted digit.
  function HexScan(pat: seq<Rune>, pos: nat, k: nat): Scan {
    match HexAt(pat, pos, k)
    case None => BadScan
    case Some(v) => if v == 0 then Scanned(Code('0'), true, pos + k) else Scanned(v, false, pos + k)
  }

  function Control(c: Rune): Rune {
    if c == Code('f') then 12 else if c == Code('n') then 10 else if c == Code('r') then 13
    else if c == Code('t') then 9 else if c == Code('v') then 11 else 0
  }

  function RuneAt(pat: seq<Rune>, pos: nat): Scan {
    var c, e := CharAt(pat, pos), CharAt(pat, pos + 1);
    if c != Code('\\') then Scanned(c, false, pos + 1)
    else if e == 0 then BadScan
    else if Control(e) != 0 then Scanned(Control(e), false, pos + 2)
    else if e == Code('c') then Scanned(CharAt(pat, pos + 2) % 32, false, pos + 3)
    else if e == Code('x') then HexScan(pat, pos + 2, 2)
    else if e == Code('u') then HexScan(pat, pos + 2, 4)
    else if IsEscape(e) then Scanned(e, true, pos + 2)
    else if IsAlpha(e) || e == Code('_') then BadScan
    else Scanned(e, false, pos + 2)
  }

  // ----- Counts -----

  // A decimal number up to one of two stop characters, its first digits already in `acc`.
  function NumberAt(pat: seq<Rune>, pos: nat, acc: nat, stop: Rune, stop': Rune): Option<(nat, nat)>
    decreases |pat| - pos
  {
    var c := CharAt(pat, pos);
    if c == stop || c == stop' then Some((acc, pos))
    else if IsDigit(c) && pos < |pat| then NumberAt(pat, pos + 1, acc * 10 + (c - Code('0')), stop, stop')
    else None
  }

  // The number that starts here, with at least one digit.
  function NumberFrom(pat: seq<Rune>, pos: nat, stop: Rune): Option<(nat, nat)> {
    var c := CharAt(pat, pos);
    if IsDigit(c) then NumberAt(pat, pos + 1, c - Code('0'), stop, Code('}')) else None
  }

  // What follows an opening brace: {M}, {M,} or {M,N}.
  function CountAt(pat: seq<Rune>, pos: nat): Option<(Lexeme, nat)> {
    match NumberFrom(pat, pos, Code(','))
    case None => None
    case Some((min, at)) =>
      if min >= REPINF then None
      else if CharAt(pat, at) == Code('}') then Some((LexCount(min, min), at + 1))
      else if CharAt(pat, at + 1) == Code('}') then Some((LexCount(min, REPINF), at + 2))
      else
        match NumberFrom(pat, at + 1, Code('}'))
        case None => None
        case Some((max, end)) => if max >= REPINF then None else Some((LexCount(min, max), end + 1))
  }

  // ----- Classes -----

  type Spans = seq<(Rune, Rune)>

  const DIGITS: Spans := [(0x30, 0x39)]
  const SPACES: Spans := [(0x9, 0x9), (0xA, 0xD), (0x20, 0x20), (0xA0, 0xA0), (0x2028, 0x2029), (0xFEFF, 0xFEFF)]
  const WORDS: Spans := [(0x30, 0x39), (0x41, 0x5A), (0x5F, 0x5F), (0x61, 0x7A)]

  // The ranges of a class escape inside brackets.
  function EscapeRanges(c: Rune): Spans {
    if c == Code('d') then DIGITS
    else if c == Code('s') then SPACES
    else if c == Code('w') then WORDS
    else if c == Code('D') then [(0, Code('0') - 1), (Code('9') + 1, 0xFFFF)]
    else if c == Code('S') then
      [(0, 0x9 - 1), (0x9 + 1, 0xA - 1), (0xD + 1, 0x20 - 1), (0x20 + 1, 0xA0 - 1), (0xA0 + 1, 0x2028 - 1),
       (0x2029 + 1, 0xFEFF - 1), (0xFEFF + 1, 0xFFFF)]
    else
      [(0, Code('0') - 1), (Code('9') + 1, Code('A') - 1), (Code('Z') + 1, Code('_') - 1),
       (Code('_') + 1, Code('a') - 1), (Code('z') + 1, 0xFFFF)]
  }

  // What a rune inside brackets stands for: "\b" is a backspace and "\0" a zero.
  function InBrackets(quoted: bool, c: Rune): Rune {
    if quoted && c == Code('b') then 8 else if quoted && c == Code('0') then 0 else c
  }

  // The spans so far, the left end of a possible range, and whether a dash followed it.
  datatype Bracket = Bracket(spans: Spans, save: Option<Rune>, dash: bool)

  // Each range must run upwards, and fit the buffer.
  function Spanned(spans: Spans, more: Spans): Option<Spans>
    decreases |more|
  {
    if more == [] then Some(spans)
    else if more[0].0 > more[0].1 || 2 * |spans| + 2 == MAXSPANS then None
    else Spanned(spans + [more[0]], more[1..])
  }

  // The spans that are pending when no range follows.
  function Held(b: Bracket): Spans {
    if b.save.None? then [] else [(b.save.value, b.save.value)] + if b.dash then [(Code('-'), Code('-'))] else []
  }

  function Shut(b: Bracket, spans: Spans, save: Option<Rune>): Option<Bracket> {
    match Spanned(b.spans, spans)
    case None => None
    case Some(s) => Some(Bracket(s, save, false))
  }

  // One more rune inside brackets.
  function BracketStep(b: Bracket, quoted: bool, c: Rune): Option<Bracket> {
    if !quoted && c == Code('-') then
      if b.save.None? then Some(b.(save := Some(Code('-')), dash := false))
      else if b.dash then Shut(b, [(b.save.value, Code('-'))], None)
      else Some(b.(dash := true))
    else if quoted && OneOf("DSWdsw", c) then
      Shut(b, Held(b) + EscapeRanges(c), None)
    else
      var r := InBrackets(quoted, c);
      if b.save.None? then Some(b.(save := Some(r), dash := false))
      else if b.dash then Shut(b, [(b.save.value, r)], None)
      else Shut(b, [(b.save.value, b.save.value)], Some(r))
  }

  // The rest of a class, up to its closing bracket.
  function ClassAt(pat: seq<Rune>, pos: nat, b: Bracket): Option<(Spans, nat)>
    decreases |pat| + 1 - pos
  {
    match RuneAt(pat, pos)
    case BadScan => None
    case Scanned(c, quoted, next) =>
      if c == 0 || !(pos < next <= |pat|) then None
      else if !quoted && c == Code(']') then
        match Spanned(b.spans, Held(b)) {
          case None => None
          case Some(spans) => Some((spans, next))
        }
      else
        match BracketStep(b, quoted, c)
        case None => None
        case Some(b') => ClassAt(pat, next, b')
  }

  // What follows an opening bracket.
  function ClassLexeme(pat: seq<Rune>, pos: nat): (t: Option<(Lexeme, nat)>)
    ensures t.Some? ==> OfClass(t.value.0)
  {
    var first := RuneAt(pat, pos);
    if first.BadScan? then None
    else
      var negated := !first.quoted && first.c == Code('^');
      match ClassAt(pat, if negated then first.next else pos, Bracket([], None, false))
      case None => None
      case Some((spans, next)) => Some((if negated then LexNotClass(Class(spans)) else LexClass(Class(spans)), next))
  }

  // ----- Tokens -----

  // A quoted rune, and up to two digits of a reference.
  function QuotedLexeme(pat: seq<Rune>, c: Rune, next: nat): (Lexeme, nat) {
    if c == Code('b') then (LexWord, next)
    else if c == Code('B') then (LexNotWord, next)
    else if c == Code('d') then (LexClass(Class(DIGITS)), next)
    else if c == Code('s') then (LexClass(Class(SPACES)), next)
    else if c == Code('w') then (LexClass(Class(WORDS)), next)
    else if c == Code('D') then (LexNotClass(Class(DIGITS)), next)
    else if c == Code('S') then (LexNotClass(Class(SPACES)), next)
    else if c == Code('W') then (LexNotClass(Class(WORDS)), next)
    else if c == Code('0') then (LexChar(0), next)
    else if IsDigit(c) then
      if IsDigit(CharAt(pat, next)) then (LexRef((c - Code('0')) * 10 + (CharAt(pat, next) - Code('0'))), next + 1)
      else (LexRef(c - Code('0')), next)
    else (LexChar(c), next)
  }

  function ParenLexeme(pat: seq<Rune>, next: nat): (Lexeme, nat) {
    if CharAt(pat, next) == Code('?') && CharAt(pat, next + 1) == Code(':') then (LexNoCapture, next + 2)
    else if CharAt(pat, next) == Code('?') && CharAt(pat, next + 1) == Code('=') then (LexLook, next + 2)
    else if CharAt(pat, next) == Code('?') && CharAt(pat, next + 1) == Code('!') then (LexNotLook, next + 2)
    else (LexSymbol(Code('(')), next)
  }

  // The token that starts at a position, and where the next one starts.
  function LexemeAt(pat: seq<Rune>, pos: nat): Option<(Lexeme, nat)> {
    match RuneAt(pat, pos)
    case BadScan => None
    case Scanned(c, quoted, next) =>
      if quoted then Some(QuotedLexeme(pat, c, next))
      else if c == 0 then Some((LexEnd, next))
      else if IsSymbol(c) then Some((LexSymbol(c), next))
      else if c == Code('{') then CountAt(pat, next)
      else if c == Code('[') then ClassLexeme(pat, next)
      else if c == Code('(') then Some(ParenLexeme(pat, next))
      else Some((LexChar(c), next))
  }

  // Tokens that take one of the program's classes.
  predicate OfClass(t: Lexeme) { t.LexClass? || t.LexNotClass? }

  // The tokens ts start one after the other from `at` and end in front of `end`.
  ghost predicate Tokens(pat: seq<Rune>, at: nat, ts: seq<Lexeme>, end: nat)
    decreases |ts|
  {
    if ts == [] then at == end
    else
      ts[0] != LexEnd &&
      match LexemeAt(pat, at)
      case None => false
      case Some((t, next)) => t == ts[0] && Tokens(pat, next, ts[1..], end)
  }

  // The tokens ts are all of the pattern: behind them is its end.
  ghost predicate IsWhole(pat: seq<Rune>, ts: seq<Lexeme>, end: nat) {
    Tokens(pat, 0, ts, end) && LexemeAt(pat, end).Some? && LexemeAt(pat, end).value.0 == LexEnd
  }

  lemma {:induction false} OneMoreToken(pat: seq<Rune>, at: nat, ts: seq<Lexeme>, mid: nat, t: Lexeme, end: nat)
    requires Tokens(pat, at, ts, mid) && LexemeAt(pat, mid) == Some((t, end)) && t != LexEnd
    ensures Tokens(pat, at, ts + [t], end)
    decreases |ts|
  {
    hide LexemeAt;
    if ts == [] {
      assert ([t])[1..] == [];
      assert ts + [t] == [t];
    } else {
      assert (ts + [t])[1..] == ts[1..] + [t];
      OneMoreToken(pat, LexemeAt(pat, at).value.1, ts[1..], mid, t, end);
    }
  }

  // ----- Every token but the end moves on, inside the pattern -----

  lemma {:induction false} HexInside(pat: seq<Rune>, pos: nat, k: nat)
    requires HexAt(pat, pos, k).Some? && k > 0
    ensures pos + k <= |pat|
  {
    assert HexDigit(CharAt(pat, pos + k - 1)).Some?;
  }

  lemma RuneInside(pat: seq<Rune>, pos: nat)
    requires RuneAt(pat, pos).Scanned?
    ensures var r := RuneAt(pat, pos); pos < r.next && (r.c != 0 || r.quoted ==> r.next <= |pat|)
  {
    hide OneOf, HexDigit, HexAt;
    var e := CharAt(pat, pos + 1);
    if CharAt(pat, pos) == Code('\\') {
      if e == Code('x') {
        HexInside(pat, pos + 2, 2);
      } else if e == Code('u') {
        HexInside(pat, pos + 2, 4);
      }
    }
  }

  lemma {:induction false} NumberInside(pat: seq<Rune>, pos: nat, acc: nat, stop: Rune, stop': Rune)
    requires NumberAt(pat, pos, acc, stop, stop').Some?
    ensures var at := NumberAt(pat, pos, acc, stop, stop').value.1; at >= pos && (CharAt(pat, at) == stop || CharAt(pat, at) == stop')
    decreases |pat| - pos
  {
    var c := CharAt(pat, pos);
    if c != stop && c != stop' { NumberInside(pat, pos + 1, acc * 10 + (c - Code('0')), stop, stop'); }
  }

  lemma CountInside(pat: seq<Rune>, pos: nat)
    requires CountAt(pat, pos).Some?
    ensures pos < CountAt(pat, pos).value.1 <= |pat|
  {
    hide NumberAt;
    NumberInside(pat, pos + 1, CharAt(pat, pos) - Code('0'), Code(','), Code('}'));
    var at := NumberFrom(pat, pos, Code(',')).value.1;
    if CharAt(pat, at) != Code('}') && CharAt(pat, at + 1) != Code('}') {
      NumberInside(pat, at + 2, CharAt(pat, at + 1) - Code('0'), Code('}'), Code('}'));
    }
  }

  lemma {:induction false} ClassInside(pat: seq<Rune>, pos: nat, b: Bracket)
    requires ClassAt(pat, pos, b).Some?
    ensures pos < ClassAt(pat, pos, b).value.1 <= |pat|
    decreases |pat| + 1 - pos
  {
    hide RuneAt, BracketStep, Spanned, Held;
    var r := RuneAt(pat, pos);
    if !(!r.quoted && r.c == Code(']')) { ClassInside(pat, r.next, BracketStep(b, r.quoted, r.c).value); }
  }

  lemma LexemeInside(pat: seq<Rune>, at: nat)
    requires LexemeAt(pat, at).Some? && LexemeAt(pat, at).value.0 != LexEnd
    ensures at < LexemeAt(pat, at).value.1 <= |pat|
  {
    hide OneOf, RuneAt, CountAt, ClassAt;
    var r := RuneAt(pat, at);
    RuneInside(pat, at);
    if !r.quoted && r.c != 0 && !IsSymbol(r.c) {
      if r.c == Code('{') {
        CountInside(pat, r.next);
      } else if r.c == Code('[') {
        var first := RuneAt(pat, r.next);
        RuneInside(pat, r.next);
        var negated := !first.quoted && first.c == Code('^');
        ClassInside(pat, if negated then first.next else r.next, Bracket([], None, false));
      }
    }
  }

  // The tokens from a position up to the end, if all of it can be read.
  function RestOf(pat: seq<Rune>, at: nat): Option<seq<Lexeme>>
    decreases |pat| + 1 - at
  {
    if at > |pat| then None
    else
      match LexemeAt(pat, at)
      case None => None
      case Some((t, next)) =>
        if t == LexEnd then Some([])
        else if next <= at || next > |pat| then None
        else
          match RestOf(pat, next)
          case None => None
          case Some(ts) => Some([t] + ts)
  }

  lemma {:induction false} WholeIsRest(pat: seq<Rune>, at: nat, ts: seq<Lexeme>, end: nat)
    requires Tokens(pat, at, ts, end) && LexemeAt(pat, end).Some? && LexemeAt(pat, end).value.0 == LexEnd && at <= |pat|
    ensures RestOf(pat, at) == Some(ts)
    decreases |ts|
  {
    hide LexemeAt;
    if ts != [] {
      LexemeInside(pat, at);
      WholeIsRest(pat, LexemeAt(pat, at).value.1, ts[1..], end);
      assert ts == [ts[0]] + ts[1..];
    }
  }

  // All tokens but the first.
  function Tail(ts: seq<Lexeme>): seq<Lexeme> { if ts == [] then [] else ts[1..] }

  // How many classes the tokens take.
  function Classes(ts: seq<Lexeme>): nat {
    if ts == [] then 0 else (if OfClass(ts[0]) then 1 else 0) + Classes(ts[1..])
  }

  lemma {:induction false} ClassesNext(ts: seq<Lexeme>, t: Lexeme)
    ensures Classes(ts + [t]) == Classes(ts) + if OfClass(t) then 1 else 0
  {
    if ts == [] {
      assert [t][1..] == [] && ts + [t] == [t];
    } else {
      assert (ts + [t])[1..] == ts[1..] + [t];
      ClassesNext(ts[1..], t);
    }
  }

  // The token at a position is the first of the rest.
  lemma RestStep(pat: seq<Rune>, at: nat, t: Lexeme, next: nat)
    requires LexemeAt(pat, at) == Some((t, next)) && RestOf(pat, at).Some?
    ensures t == LexEnd <==> RestOf(pat, at).value == []
    ensures t != LexEnd ==> RestOf(pat, at).value[0] == t && RestOf(pat, next) == Some(RestOf(pat, at).value[1..])
  {
    hide LexemeAt;
  }

  lemma RestStarts(pat: seq<Rune>, at: nat)
    requires RestOf(pat, at).Some?
    ensures LexemeAt(pat, at).Some?
  {
    hide LexemeAt;
  }
}
