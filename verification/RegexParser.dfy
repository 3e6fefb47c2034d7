// The lexer and the recursive-descent parser over their shared mutable state. A failure
// status stands for the program's long jump out of the parser.
module RegexParser {
  import opened Options
  import opened RegexSyntax
  import opened RegexLexemes
  import opened RegexGrammar
  import opened RegexAccept

  datatype Status<+T> = Ok(value: T) | Die(message: string) {
    predicate IsFailure() { Die? }
    function PropagateFailure<U>(): Status<U> requires Die? { Die(message) }
    function Extract(): T requires Ok? { value }
  }

  datatype Token =
    | END | SYM(c: Rune)
    | L_CHAR | L_CCLASS | L_NCCLASS | L_NC | L_PLA | L_NLA | L_WORD | L_NWORD | L_REF | L_COUNT

  function Hex(c: Rune): Status<nat> {
    if HexDigit(c).Some? then Ok(HexDigit(c).value) else Die("invalid escape sequence")
  }

  function Dec(c: Rune): Status<nat> {
    if IsDigit(c) then Ok(c - Code('0')) else Die("invalid quantifier")
  }

  // The token and what the lexer left beside it.
  function Lexed(t: Token, c: Rune, cc: Class, min: nat, max: nat): Lexeme {
    match t
    case END => LexEnd
    case SYM(s) => LexSymbol(s)
    case L_CHAR => LexChar(c)
    case L_CCLASS => LexClass(cc)
    case L_NCCLASS => LexNotClass(cc)
    case L_NC => LexNoCapture
    case L_PLA => LexLook
    case L_NLA => LexNotLook
    case L_WORD => LexWord
    case L_NWORD => LexNotWord
    case L_REF => LexRef(c)
    case L_COUNT => LexCount(min, max)
  }

  class Parser {
    const pat: seq<Rune>
    var pos: nat
    var yychar: Rune
    var yycc: Class
    var yymin: nat
    var yymax: nat
    var ncclass: nat
    var nsub: nat
    var sub: Subs
    var lookahead: Token
    // Nodes taken from the buffer so far.
    var nodes: nat
    // Where the lookahead token starts.
    ghost var start: nat
    // A back-reference was read.
    ghost var refs: bool
    // The tokens skipped so far.
    ghost var read: seq<Lexeme>

    constructor (pat: seq<Rune>)
      ensures this.pat == pat && pos == 0 && start == 0 && nodes == 0 && ncclass == 0 && nsub == 1 && !refs
      ensures read == [] && sub == NoSubs && |yycc.spans| == 0
    {
      this.pat := pat;
      pos, yychar, yycc, yymin, yymax := 0, 0, Class([]), 0, 0;
      ncclass, nsub, sub := 0, 1, NoSubs;
      lookahead, nodes, start, refs, read := END, 0, 0, false, [];
    }

    // The pattern is a C string.
    ghost predicate IsPattern() {
      forall i :: 0 <= i < |pat| ==> pat[i] != 0
    }

    // What the lexer may count on: the terminator has not been passed.
    ghost predicate Lexing()
      reads this
    {
      && IsPattern() && pos <= |pat|
      && ncclass <= MAXCLASSES && 2 * |yycc.spans| < MAXSPANS
    }

    // The rune at the source pointer, which moves on.
    method Take() returns (c: Rune)
      requires Lexing()
      modifies this`pos
      ensures pos == old(pos) + 1
      ensures c == (if old(pos) < |pat| then pat[old(pos)] else 0)
      ensures c != 0 <==> pos <= |pat|
    {
      c := if pos < |pat| then pat[pos] else 0;
      pos := pos + 1;
    }

    method TakeHex() returns (h: Status<nat>)
      requires Lexing()
      modifies this`pos
      ensures h.Ok? ==> Lexing() && pos == old(pos) + 1 && HexDigit(CharAt(pat, old(pos))) == Some(h.value)
      ensures h.Die? ==> HexDigit(CharAt(pat, old(pos))) == None
    {
      var c := Take();
      h := Hex(c);
    }

    // The digits of a hexadecimal escape.
    method HexRune(k: nat) returns (r: Status<bool>)
      requires Lexing() && k > 0
      modifies this`pos, this`yychar
      ensures r.Ok? ==> Lexing() && pos == old(pos) + k && yychar != 0
      ensures r.Ok? ==> HexScan(pat, old(pos), k) == Scanned(yychar, r.value, pos)
      ensures r.Die? ==> HexScan(pat, old(pos), k) == BadScan
    {
      hide HexDigit;
      yychar := 0;
      for i: nat := 0 to k
        invariant Lexing() && pos == old(pos) + i && HexAt(pat, old(pos), i) == Some(yychar)
      {
        var h := TakeHex();
        if h.Die? {
          NoHex(pat, old(pos), i, k);
          return Die(h.message);
        }
        yychar := yychar * 16 + h.value;
      }
      if yychar == 0 {
        yychar := Code('0');
        return Ok(true);
      }
      return Ok(false);
    }

    static lemma {:induction false} NoHex(pat: seq<Rune>, at: nat, i: nat, k: nat)
      requires i < k && HexDigit(CharAt(pat, at + i)) == None
      ensures HexAt(pat, at, k) == None
      decreases k
    {
      if i + 1 < k { NoHex(pat, at, i, k - 1); }
    }

    // Read one rune, resolving escapes; the result says whether it was quoted.
    method NextRune() returns (r: Status<bool>)
      requires Lexing()
      modifies this`pos, this`yychar
      ensures r.Ok? ==> old(pos) < pos <= |pat| + 1 && (yychar != 0 ==> pos <= |pat|)
      ensures r.Ok? && pos > |pat| ==> !r.value && yychar == 0
      ensures r.Ok? && r.value ==> yychar != 0
      ensures r.Ok? ==> RuneAt(pat, old(pos)) == Scanned(yychar, r.value, pos)
      ensures r.Die? ==> RuneAt(pat, old(pos)) == BadScan
    {
      hide OneOf, HexDigit;
      yychar := Take();
      if yychar != Code('\\') {
        return Ok(false);
      }
      yychar := Take();
      if yychar == 0 {
        return Die("unterminated escape sequence");
      } else if yychar == Code('f') {
        yychar := 12;
        return Ok(false);
      } else if yychar == Code('n') {
        yychar := 10;
        return Ok(false);
      } else if yychar == Code('r') {
        yychar := 13;
        return Ok(false);
      } else if yychar == Code('t') {
        yychar := 9;
        return Ok(false);
      } else if yychar == Code('v') {
        yychar := 11;
        return Ok(false);
      } else if yychar == Code('c') {
        var c := Take();
        yychar := c % 32;
        return Ok(false);
      } else if yychar == Code('x') {
        r := HexRune(2);
        return;
      } else if yychar == Code('u') {
        r := HexRune(4);
        return;
      }
      if IsEscape(yychar) {
        return Ok(true);
      }
      if IsAlpha(yychar) || yychar == Code('_') {
        return Die("invalid escape character");
      }
      return Ok(false);
    }

    // The decimal number that starts with the rune just read, up to `stop` or a closing brace.
    method LexNumber(stop: Rune) returns (r: Status<nat>)
      requires Lexing'() && pos > 0 && yychar == CharAt(pat, pos - 1) && stop != 0
      modifies this`pos, this`yychar
      ensures r.Ok? ==> Lexing() && old(pos) < pos && yychar == CharAt(pat, pos - 1) && (yychar == stop || yychar == Code('}'))
      ensures r.Ok? ==> NumberFrom(pat, old(pos) - 1, stop) == Some((r.value, pos - 1))
      ensures r.Die? ==> NumberFrom(pat, old(pos) - 1, stop) == None
    {
      var n: nat :- Dec(yychar);
      yychar := Take();
      while yychar != stop && yychar != Code('}')
        invariant old(pos) + 1 <= pos && Lexing'() && yychar == CharAt(pat, pos - 1)
        invariant NumberFrom(pat, old(pos) - 1, stop) == NumberAt(pat, pos - 1, n, stop, Code('}'))
        decreases |pat| + 1 - pos
      {
        var d :- Dec(yychar);
        n := n * 10 + d;
        yychar := Take();
      }
      return Ok(n);
    }

    // {M}, {M,} and {M,N}.
    method LexCounts() returns (r: Status<Token>)
      requires Lexing()
      modifies this`pos, this`yychar, this`yymin, this`yymax
      ensures r.Ok? ==> Lexing() && old(pos) < pos && r.value == L_COUNT
      ensures r.Ok? ==> yymin < REPINF && yymax <= REPINF
      ensures r.Ok? ==> CountAt(pat, old(pos)) == Some((LexCount(yymin, yymax), pos))
      ensures r.Die? ==> CountAt(pat, old(pos)) == None
    {
      hide NumberAt;
      yychar := Take();
      yymin :- LexNumber(Code(','));
      if yymin >= REPINF {
        return Die("numeric overflow");
      }
      if yychar == Code(',') {
        yychar := Take();
        if yychar == Code('}') {
          yymax := REPINF;
        } else {
          yymax :- LexNumber(Code('}'));
          if yymax >= REPINF {
            return Die("numeric overflow");
          }
        }
      } else {
        yymax := yymin;
      }
      return Ok(L_COUNT);
    }

    // While lexing inside a token: the last rune read may have been the terminator.
    ghost predicate Lexing'()
      reads this
    {
      && IsPattern() && pos <= |pat| + 1 && (yychar != 0 ==> pos <= |pat|)
      && ncclass <= MAXCLASSES && 2 * |yycc.spans| < MAXSPANS
    }

    // One of the program's classes is taken for the ranges to come, if there is one left.
    method NewClass() returns (r: Status<()>)
      requires ncclass <= MAXCLASSES
      modifies this`ncclass, this`yycc
      ensures r.Die? <==> old(ncclass) == MAXCLASSES
      ensures r.Ok? ==> yycc.spans == [] && ncclass == old(ncclass) + 1
      ensures r.Die? ==> yycc == old(yycc) && ncclass == old(ncclass)
    {
      if ncclass >= MAXCLASSES {
        return Die("too many character classes");
      }
      ncclass := ncclass + 1;
      yycc := Class([]);
      return Ok(());
    }

    // Ranges are stored as pairs in a buffer of MAXSPANS runes.
    method AddRange(a: Rune, b: Rune) returns (r: Status<()>)
      requires 2 * |yycc.spans| < MAXSPANS
      modifies this`yycc
      ensures 2 * |yycc.spans| < MAXSPANS
      ensures r.Ok? ==> Spanned(old(yycc.spans), [(a, b)]) == Some(yycc.spans)
      ensures r.Die? ==> Spanned(old(yycc.spans), [(a, b)]) == None
    {
      ghost var one: Spans := [(a, b)];
      assert one[1..] == [];
      if a > b {
        return Die("invalid character class range");
      }
      if 2 * |yycc.spans| + 2 == MAXSPANS {
        return Die("too many character class ranges");
      }
      yycc := Class(yycc.spans + [(a, b)]);
      return Ok(());
    }

    method AddRanges(ranges: seq<(Rune, Rune)>) returns (r: Status<()>)
      requires 2 * |yycc.spans| < MAXSPANS
      modifies this`yycc
      ensures 2 * |yycc.spans| < MAXSPANS
      ensures r.Ok? ==> Spanned(old(yycc.spans), ranges) == Some(yycc.spans)
      ensures r.Die? ==> Spanned(old(yycc.spans), ranges) == None
    {
      var i := 0;
      assert ranges[0..] == ranges;
      while i < |ranges|
        invariant 0 <= i <= |ranges| && 2 * |yycc.spans| < MAXSPANS
        invariant Spanned(old(yycc.spans), ranges) == Spanned(yycc.spans, ranges[i..])
      {
        ghost var was := yycc.spans;
        SpannedNext(was, ranges, i);
        var _ :- AddRange(ranges[i].0, ranges[i].1);
        i := i + 1;
      }
      return Ok(());
    }

    static lemma SpannedNext(spans: Spans, ranges: Spans, i: nat)
      requires i < |ranges|
      ensures Spanned(spans, ranges[i..]) ==
        match Spanned(spans, [ranges[i]])
        case None => None
        case Some(s) => Spanned(s, ranges[i + 1..])
    {
      assert ranges[i..][0] == ranges[i] && ranges[i..][1..] == ranges[i + 1..];
      var one: Spans := [ranges[i]];
      assert one[1..] == [];
    }

    static lemma {:induction false} SpannedBoth(spans: Spans, a: Spans, b: Spans)
      ensures Spanned(spans, a + b) ==
        match Spanned(spans, a)
        case None => None
        case Some(s) => Spanned(s, b)
      decreases |a|
    {
      if a == [] {
        assert a + b == b;
      } else {
        assert (a + b)[1..] == a[1..] + b && (a + b)[0] == a[0];
        SpannedBoth(spans + [a[0]], a[1..], b);
      }
    }

    // The pending ends of ranges, as ranges of their own.
    method AddHeld(save: Rune, havesave: bool, havedash: bool) returns (r: Status<()>)
      requires 2 * |yycc.spans| < MAXSPANS
      modifies this`yycc
      ensures 2 * |yycc.spans| < MAXSPANS
      ensures var held := Held(Bracket([], if havesave then Some(save) else None, havedash));
        && (r.Ok? ==> Spanned(old(yycc.spans), held) == Some(yycc.spans))
        && (r.Die? ==> Spanned(old(yycc.spans), held) == None)
    {
      if havesave {
        ghost var was := yycc.spans;
        SpannedBoth(was, [(save, save)], if havedash then [(Code('-'), Code('-'))] else []);
        var _ :- AddRange(save, save);
        if havedash {
          var _ :- AddRange(Code('-'), Code('-'));
        }
      }
      return Ok(());
    }

    // The state between the runes of a class.
    ghost function State(save: Rune, havesave: bool, havedash: bool): Bracket
      reads this
    {
      Bracket(yycc.spans, if havesave then Some(save) else None, havedash)
    }

    // One rune inside brackets: a dash, a class escape, or an end of a range.
    method ClassRune(quoted: bool, save0: Rune, havesave0: bool, havedash0: bool)
      returns (r: Status<()>, save: Rune, havesave: bool, havedash: bool)
      requires 2 * |yycc.spans| < MAXSPANS && (!havesave0 ==> !havedash0)
      modifies this`yycc
      ensures 2 * |yycc.spans| < MAXSPANS && (!havesave ==> !havedash)
      ensures r.Ok? ==> BracketStep(old(State(save0, havesave0, havedash0)), quoted, yychar) == Some(State(save, havesave, havedash))
      ensures r.Die? ==> BracketStep(old(State(save0, havesave0, havedash0)), quoted, yychar) == None
    {
      hide Spanned, OneOf, EscapeRanges, InBrackets;
      save, havesave, havedash := save0, havesave0, havedash0;
      if !quoted && yychar == Code('-') {
        if havesave {
          if havedash {
            r := AddRange(save, Code('-'));
            havesave, havedash := false, false;
          } else {
            havedash := true;
            r := Ok(());
          }
        } else {
          save, havesave := Code('-'), true;
          r := Ok(());
        }
      } else if quoted && OneOf("DSWdsw", yychar) {
        SpannedBoth(yycc.spans, Held(Bracket([], if havesave then Some(save) else None, havedash)), EscapeRanges(yychar));
        havesave, havedash := false, false;
        var _ :- AddHeld(save, havesave0, havedash0);
        r := AddRanges(EscapeRanges(yychar));
      } else {
        var c := InBrackets(quoted, yychar);
        if havesave {
          if havedash {
            r := AddRange(save, c);
            havesave, havedash := false, false;
          } else {
            r := AddRange(save, save);
            save := c;
          }
        } else {
          save, havesave := c, true;
          r := Ok(());
        }
      }
    }

    // The runes of a class, the first one already read, up to its closing bracket.
    method LexSpans(quoted0: bool, ghost first: nat) returns (r: Status<()>)
      requires Lexing'() && first < pos && RuneAt(pat, first) == Scanned(yychar, quoted0, pos) && yycc.spans == []
      modifies this`pos, this`yychar, this`yycc
      ensures r.Ok? ==> Lexing() && old(pos) <= pos && ClassAt(pat, first, Bracket([], None, false)) == Some((yycc.spans, pos))
      ensures r.Die? ==> ClassAt(pat, first, Bracket([], None, false)) == None
    {
      hide BracketStep, RuneAt, Spanned;
      var quoted := quoted0;
      ghost var rune := first;
      var save: Rune, havesave, havedash := 0, false, false;
      while true
        invariant first <= rune < pos && old(pos) <= pos && Lexing'() && (!havesave ==> !havedash)
        invariant RuneAt(pat, rune) == Scanned(yychar, quoted, pos)
        invariant ClassAt(pat, rune, State(save, havesave, havedash)) == ClassAt(pat, first, Bracket([], None, false))
        decreases |pat| + 1 - pos
      {
        if yychar == 0 {
          return Die("unterminated character class");
        }
        if !quoted && yychar == Code(']') {
          break;
        }
        var added;
        added, save, havesave, havedash := ClassRune(quoted, save, havesave, havedash);
        if added.Die? {
          return added;
        }
        rune := pos;
        quoted :- NextRune();
      }
      ghost var last := State(save, havesave, havedash);
      assert Held(last) == Held(last.(spans := []));
      r := AddHeld(save, havesave, havedash);
    }

    // [...] and [^...].
    method LexBrackets() returns (r: Status<Token>)
      requires Lexing()
      modifies this`pos, this`yychar, this`ncclass, this`yycc
      ensures ncclass <= MAXCLASSES
      ensures r.Ok? ==> Lexing() && old(pos) < pos && (r.value == L_CCLASS || r.value == L_NCCLASS)
      ensures r.Ok? ==> ClassLexeme(pat, old(pos)) == Some((Lexed(r.value, yychar, yycc, yymin, yymax), pos))
      ensures r.Ok? ==> ncclass == old(ncclass) + 1
      ensures r.Die? ==> ClassLexeme(pat, old(pos)) == None || old(ncclass) == MAXCLASSES
    {
      hide RuneAt;
      var kind := L_CCLASS;
      var _ :- NewClass();
      ghost var first := pos;
      var quoted :- NextRune();
      if !quoted && yychar == Code('^') {
        kind := L_NCCLASS;
        first := pos;
        quoted :- NextRune();
      }
      var _ :- LexSpans(quoted, first);
      return Ok(kind);
    }

    method ClassToken(ranges: seq<(Rune, Rune)>, kind: Token) returns (r: Status<Token>)
      requires ncclass <= MAXCLASSES && 2 * |ranges| < MAXSPANS
      requires forall i :: 0 <= i < |ranges| ==> ranges[i].0 <= ranges[i].1
      modifies this`ncclass, this`yycc
      ensures ncclass <= MAXCLASSES && (r.Ok? ==> r.value == kind && 2 * |yycc.spans| < MAXSPANS)
      ensures r.Ok? ==> yycc == Class(ranges) && ncclass == old(ncclass) + 1
      ensures r.Die? ==> old(ncclass) == MAXCLASSES
    {
      var _ :- NewClass();
      SpannedAll([], ranges);
      var added := AddRanges(ranges);
      assert added.Ok?;
      return Ok(kind);
    }

    // Few ranges that run upwards are stored as they are.
    static lemma {:induction false} SpannedAll(spans: Spans, more: Spans)
      requires 2 * (|spans| + |more|) < MAXSPANS && forall i :: 0 <= i < |more| ==> more[i].0 <= more[i].1
      ensures Spanned(spans, more) == Some(spans + more)
      decreases |more|
    {
      if more == [] {
        assert spans + more == spans;
      } else {
        SpannedAll(spans + [more[0]], more[1..]);
        assert (spans + [more[0]]) + more[1..] == spans + more;
      }
    }

    // A token that starts with a quoted rune.
    method LexQuoted() returns (r: Status<Token>)
      requires Lexing() && yychar != 0
      modifies this`pos, this`yychar, this`ncclass, this`yycc
      ensures ncclass <= MAXCLASSES
      ensures r.Ok? ==> Lexing() && old(pos) <= pos && r.value != END && r.value != L_COUNT
      ensures r.Ok? ==> QuotedLexeme(pat, old(yychar), old(pos)) == (Lexed(r.value, yychar, yycc, yymin, yymax), pos)
      ensures r.Ok? ==> ncclass == old(ncclass) + if OfClass(Lexed(r.value, yychar, yycc, yymin, yymax)) then 1 else 0
      ensures r.Die? ==> old(ncclass) == MAXCLASSES && OfClass(QuotedLexeme(pat, old(yychar), old(pos)).0)
    {
      hide Spanned;
      if yychar == Code('b') {
        return Ok(L_WORD);
      } else if yychar == Code('B') {
        return Ok(L_NWORD);
      } else if yychar == Code('d') {
        r := ClassToken(DIGITS, L_CCLASS);
      } else if yychar == Code('s') {
        r := ClassToken(SPACES, L_CCLASS);
      } else if yychar == Code('w') {
        r := ClassToken(WORDS, L_CCLASS);
      } else if yychar == Code('D') {
        r := ClassToken(DIGITS, L_NCCLASS);
      } else if yychar == Code('S') {
        r := ClassToken(SPACES, L_NCCLASS);
      } else if yychar == Code('W') {
        r := ClassToken(WORDS, L_NCCLASS);
      } else if yychar == Code('0') {
        yychar := 0;
        return Ok(L_CHAR);
      } else if IsDigit(yychar) {
        yychar := yychar - Code('0');
        if pos < |pat| && IsDigit(pat[pos]) {
          yychar := yychar * 10 + (pat[pos] - Code('0'));
          pos := pos + 1;
        }
        return Ok(L_REF);
      } else {
        return Ok(L_CHAR);
      }
    }

    method LexParen() returns (t: Token)
      requires Lexing()
      modifies this`pos
      ensures Lexing() && old(pos) <= pos && (t == SYM(Code('(')) || t == L_NC || t == L_PLA || t == L_NLA)
      ensures ParenLexeme(pat, old(pos)) == (Lexed(t, yychar, yycc, yymin, yymax), pos)
    {
      t := SYM(Code('('));
      if pos + 1 < |pat| && pat[pos] == Code('?') {
        if pat[pos + 1] == Code(':') {
          t := L_NC;
        } else if pat[pos + 1] == Code('=') {
          t := L_PLA;
        } else if pat[pos + 1] == Code('!') {
          t := L_NLA;
        }
        if !t.SYM? {
          pos := pos + 2;
        }
      }
    }

    method Lex() returns (r: Status<Token>)
      requires Lexing()
      modifies this`pos, this`yychar, this`yycc, this`yymin, this`yymax, this`ncclass
      ensures ncclass <= MAXCLASSES
      ensures r.Ok? ==> Tokenized(r.value) && old(pos) < pos
      ensures r.Ok? ==> LexemeAt(pat, old(pos)) == Some((Lexed(r.value, yychar, yycc, yymin, yymax), pos))
      // it fails only where no token starts, or no class is left for one
      ensures r.Ok? ==> ncclass == old(ncclass) + if OfClass(Lexed(r.value, yychar, yycc, yymin, yymax)) then 1 else 0
      ensures r.Die? && LexemeAt(pat, old(pos)).Some? ==> OfClass(LexemeAt(pat, old(pos)).value.0) && old(ncclass) == MAXCLASSES
    {
      hide OneOf, RuneAt, CountAt, ClassLexeme, QuotedLexeme, ParenLexeme;
      var quoted :- NextRune();
      if quoted {
        r := LexQuoted();
        return;
      }
      if yychar == 0 {
        return Ok(END);
      } else if IsSymbol(yychar) {
        return Ok(SYM(yychar));
      } else if yychar == Code('{') {
        r := LexCounts();
      } else if yychar == Code('[') {
        r := LexBrackets();
      } else if yychar == Code('(') {
        var t := LexParen();
        return Ok(t);
      } else {
        return Ok(L_CHAR);
      }
    }

    // After a token: only the end token may have passed the terminator.
    ghost predicate Tokenized(t: Token)
      reads this`pos, this`ncclass, this`yycc, this`yymin, this`yymax
    {
      && IsPattern() && pos <= |pat| + 1 && (t != END ==> pos <= |pat|)
      && ncclass <= MAXCLASSES && 2 * |yycc.spans| < MAXSPANS
      && (t == L_COUNT ==> yymin < REPINF && yymax <= REPINF)
    }

    // The lookahead token, as the grammar sees it.
    ghost function Ahead(): Lexeme
      reads this`lookahead, this`yychar, this`yycc, this`yymin, this`yymax
    {
      Lexed(lookahead, yychar, yycc, yymin, yymax)
    }

    // The groups that references may name: each under its own number.
    ghost predicate Recorded()
      reads this`sub
    {
      |sub| == MAXSUB && forall k: nat :: k < MAXSUB && sub[k].Some? ==> sub[k].value.Par? && sub[k].value.n == k
    }

    // The tokens skipped and the lookahead are those of the pattern, and its classes counted.
    ghost predicate Lexes()
      reads this`pos, this`yychar, this`yycc, this`yymin, this`yymax, this`ncclass, this`lookahead, this`start, this`read
    {
      && Tokenized(lookahead) && LexemeAt(pat, start) == Some((Ahead(), pos)) && Tokens(pat, 0, read, start)
      && Classes(read) <= Classes(read + [Ahead()]) == ncclass
    }

    ghost predicate Inv()
      reads this`pos, this`yychar, this`yycc, this`yymin, this`yymax, this`ncclass, this`lookahead, this`start, this`read
      reads this`nsub, this`sub
    {
      && Lexes() && Recorded() && start <= |pat| && (lookahead != END ==> start < pos && start < |pat|)
      && 1 <= nsub <= MAXSUB
    }

    // The tokens from the lookahead on.
    ghost function Rest(): seq<Lexeme>
      reads this`start
    {
      if RestOf(pat, start).Some? then RestOf(pat, start).value else []
    }

    // All of them can be read, and there are classes enough for them.
    ghost predicate Known()
      reads this`start, this`ncclass
    {
      RestOf(pat, start).Some? && (Rest() != [] ==> ncclass + Classes(Rest()[1..]) <= MAXCLASSES)
    }

    lemma AheadIs(c: Rune)
      requires Inv() && Known()
      ensures lookahead == SYM(c) <==> Rest() != [] && Rest()[0] == LexSymbol(c)
    {
      hide Lexes, RestOf, Known, Rest;
      AheadIsFirst();
    }

    lemma AheadEnds()
      requires Inv() && Known()
      ensures EndsCat() <==> StopsCat(Rest())
    {
      hide Lexes, RestOf, Known, Rest;
      AheadIsFirst();
    }

    // What the parser on tokens answers.
    ghost predicate Agrees(r: Status<Node>, o: Out)
      reads this
    {
      && (r.Ok? <==> o.Out?)
      && (r.Ok? ==> o == Out(r.value, Rest(), nsub, sub) && Known())
    }

    lemma AheadIsFirst()
      requires Inv() && Known()
      ensures lookahead == END <==> Rest() == []
      ensures lookahead != END ==> Rest()[0] == Ahead() && RestOf(pat, pos) == Some(Rest()[1..])
    {
      hide LexemeAt, Tokens, RestOf;
      RestStep(pat, start, Ahead(), pos);
    }

    method Next() returns (r: Status<()>)
      requires Inv() && lookahead != END
      modifies this`pos, this`yychar, this`yycc, this`yymin, this`yymax, this`ncclass, this`lookahead, this`start, this`read
      ensures r.Ok? ==> Inv() && old(start) < start && read == old(read) + [old(Ahead())]
      ensures old(Known()) ==> r.Ok? && Known() && Rest() == Tail(old(Rest()))
    {
      hide LexemeAt, Tokens, RestOf, Classes;
      OneMoreToken(pat, 0, read, start, Ahead(), pos);
      ghost var known, rest := Known(), Rest();
      if known {
        AheadIsFirst();
        RestStarts(pat, pos);
        RestStep(pat, pos, LexemeAt(pat, pos).value.0, LexemeAt(pat, pos).value.1);
        SomeClasses(rest[1..]);
      }
      read := read + [Ahead()];
      start := pos;
      lookahead :- Lex();
      ClassesNext(read, Ahead());
      return Ok(());
    }

    static lemma SomeClasses(ts: seq<Lexeme>)
      ensures ts != [] ==> Classes(ts) == (if OfClass(ts[0]) then 1 else 0) + Classes(ts[1..])
      ensures ts == [] ==> Classes(ts) == 0
    {
    }

    // Skip the lookahead if it is t.
    method Accept(t: Token) returns (r: Status<bool>)
      requires Inv() && t != END
      modifies this`pos, this`yychar, this`yycc, this`yymin, this`yymax, this`ncclass, this`lookahead, this`start, this`read
      ensures r.Ok? ==> Inv() && r.value == (old(lookahead) == t)
      ensures r.Ok? && r.value ==> old(start) < start && read == old(read) + [old(Ahead())]
      ensures r.Ok? && !r.value ==> start == old(start) && lookahead == old(lookahead) && read == old(read)
      ensures old(Known()) ==> r.Ok? && Known() && Rest() == if r.value then Tail(old(Rest())) else old(Rest())
    {
      if lookahead == t {
        var _ :- Next();
        return Ok(true);
      }
      return Ok(false);
    }

    method NewNode(node: Node) returns (n: Node)
      modifies this`nodes
      ensures nodes == old(nodes) + 1 && n == node
    {
      nodes := nodes + 1;
      n := node;
    }

    method NewRep(atom: Node, ng: bool, min: nat, max: nat) returns (r: Status<Node>)
      requires min <= max <= REPINF && min < REPINF
      modifies this`nodes
      ensures nodes == old(nodes) + 1
      ensures r.Ok? <==> !(max == REPINF && Empty(atom))
      ensures r.Ok? ==> r.value == Rep(ng, min, max, atom)
    {
      var rep := NewNode(Rep(ng, min, max, atom));
      if max == REPINF && Empty(atom) {
        return Die("infinite loop matching the empty string");
      }
      return Ok(rep);
    }

    // A tree the parser may return: quantifiers checked, groups numbered from lo up to hi in
    // the order of their opening parentheses, back-references only if one was read.
    static ghost predicate Parsed(node: Node, lo: nat, hi: nat, refs: bool) {
      && RepsChecked(node) && GroupsNested(node)
      && (forall g :: g in Groups(node) ==> lo <= g < hi)
      && (refs || RefFree(node))
    }

    static lemma ParsedCat(x: Node, y: Node, lo: nat, mid: nat, hi: nat, r1: bool, r2: bool)
      requires Parsed(x, lo, mid, r1) && Parsed(y, mid, hi, r2) && lo <= mid <= hi && (r1 ==> r2)
      ensures Parsed(Cat(x, y), lo, hi, r2)
    {
      assert Groups(Cat(x, y)) == Groups(x) + Groups(y);
    }

    static lemma ParsedAlt(x: Node, y: Node, lo: nat, mid: nat, hi: nat, r1: bool, r2: bool)
      requires Parsed(x, lo, mid, r1) && Parsed(y, mid, hi, r2) && lo <= mid <= hi && (r1 ==> r2)
      ensures Parsed(Alt(x, y), lo, hi, r2)
    {
      assert Groups(Alt(x, y)) == Groups(x) + Groups(y);
    }

    static lemma ParsedNil(lo: nat, refs: bool)
      ensures Parsed(Nil, lo, lo, refs)
    {
    }

    static lemma ParsedRep(ng: bool, m: nat, n: nat, x: Node, lo: nat, hi: nat, refs: bool)
      requires Parsed(x, lo, hi, refs) && m <= n <= REPINF && m < REPINF && (n == REPINF ==> !Empty(x))
      ensures Parsed(Rep(ng, m, n, x), lo, hi, refs)
    {
    }

    static lemma ParsedLook(x: Node, lo: nat, hi: nat, refs: bool)
      requires Parsed(x, lo, hi, refs)
      ensures Parsed(Pla(x), lo, hi, refs) && Parsed(Nla(x), lo, hi, refs)
    {
    }

    static lemma ParsedPar(x: Node, lo: nat, hi: nat, refs: bool)
      requires Parsed(x, lo + 1, hi, refs) && 0 < lo < hi <= MAXSUB
      ensures Parsed(Par(lo, x), lo, hi, refs)
    {
    }

    // The bill for the node buffer: two nodes for each character read, less `saved`.
    twostate predicate Paid(saved: nat)
      reads this
    {
      old(start) <= start && old(nodes) <= nodes && nodes + saved <= old(nodes) + 2 * (start - old(start))
    }

    // The tokens skipped since.
    twostate function Skipped(): seq<Lexeme>
      reads this
    {
      if |old(read)| <= |read| then read[|old(read)|..] else []
    }

    // What every parsing method promises.
    twostate predicate Done(new r: Status<Node>, saved: nat)
      reads this
    {
      && (r.Die? ==> nodes <= 2 * |pat|)
      && (r.Ok? ==>
            && Inv() && Paid(saved) && old(nsub) <= nsub && (old(refs) ==> refs)
            && Parsed(r.value, old(nsub), nsub, refs) && read == old(read) + Skipped())
    }

    // A node for the lookahead token, which is then skipped.
    method Leaf(node: Node) returns (r: Status<Node>)
      requires Inv() && lookahead != END && nodes <= 2 * start + 1
      requires RepsChecked(node) && GroupsNested(node) && Groups(node) == {} && (refs || RefFree(node))
      modifies this
      ensures Done(r, 1)
      ensures r.Ok? ==> r.value == node && Skipped() == [old(Ahead())] && nsub == old(nsub)
      ensures r.Ok? ==> sub == old(sub)
      ensures old(Known()) ==> r.Ok? && Known() && Rest() == Tail(old(Rest()))
    {
      hide Lexes, RestOf, Known, Classes, LexemeAt;
      var atom := NewNode(node);
      var _ :- Next();
      return Ok(atom);
    }

    // Skip the closing parenthesis that has to come.
    method Close() returns (r: Status<()>)
      requires Inv()
      modifies this`pos, this`yychar, this`yycc, this`yymin, this`yymax, this`ncclass, this`lookahead, this`start, this`read
      ensures r.Ok? ==> Inv() && old(start) < start && read == old(read) + [Symbol(')')]
      ensures old(Known()) ==> (r.Ok? <==> old(Rest()) != [] && old(Rest())[0] == Symbol(')'))
      ensures old(Known()) && r.Ok? ==> Known() && Rest() == Tail(old(Rest()))
    {
      hide Lexes, RestOf, Known, Rest;
      if Known() { AheadIs(Code(')')); }
      var closed :- Accept(SYM(Code(')')));
      if !closed {
        return Die("unmatched '('");
      }
      return Ok(());
    }

    // What stands between the opening token, already skipped, and the closing parenthesis.
    method Enclosed() returns (r: Status<Node>)
      requires Inv() && nodes <= 2 * start
      modifies this
      ensures Done(r, 0)
      ensures r.Ok? ==> Skipped() != [] && Skipped()[|Skipped()| - 1] == Symbol(')')
      ensures r.Ok? ==> IsAlt(Skipped()[..|Skipped()| - 1], old(nsub), r.value, nsub)
      ensures old(Known()) ==> Agrees(r, TakeClosed(old(Rest()), old(nsub), old(sub)))
      decreases |pat| - start, 5
    {
      hide Lexes, RestOf, IsAlt, Parsed, Known, Rest, Classes, LexemeAt, TakeAlt, MoreAlts, TakeCat, MoreCats, TakeRep, TakeQuantifier, TakeAtom, Recorded;
      var x :- ParseAlt();
      ghost var inner := Skipped();
      assert read == old(read) + inner;
      var _ :- Close();
      assert Skipped() == inner + [Symbol(')')];
      assert Skipped()[..|Skipped()| - 1] == inner;
      return Ok(x);
    }

    method ParseAtom() returns (r: Status<Node>)
      requires Inv() && lookahead != END && nodes <= 2 * start + 1
      modifies this
      ensures Done(r, 1)
      ensures r.Ok? ==> IsAtom(Skipped(), old(nsub), r.value, nsub)
      ensures old(Known()) ==> Agrees(r, TakeAtom(old(Rest()), old(nsub), old(sub)))
      decreases |pat| - start, 1
    {
      hide Lexes, RestOf, IsAlt, Known, Rest, Classes, LexemeAt, TakeAlt, MoreAlts, TakeCat, MoreCats, TakeRep, TakeQuantifier, TakeClosed;
      if Known() { AheadIsFirst(); }
      match lookahead
      case L_CHAR => r := Leaf(Chr(yychar));
      case L_CCLASS => r := Leaf(CClass(yycc));
      case L_NCCLASS => r := Leaf(NCClass(yycc));
      case L_REF => r := ParseRef();
      case L_NC => r := ParseNoCapture();
      case L_PLA => r := ParseLook(false);
      case L_NLA => r := ParseLook(true);
      case SYM(c) =>
        if c == Code('.') {
          r := Leaf(Any);
        } else if c == Code('(') {
          r := ParseGroup();
        } else {
          r := Die("syntax error");
        }
      case _ => r := Die("syntax error");
    }

    method ParseRef() returns (r: Status<Node>)
      requires Inv() && lookahead == L_REF && nodes <= 2 * start + 1
      modifies this
      ensures Done(r, 1)
      ensures r.Ok? ==> r.value.Ref? && 0 < r.value.n < MAXSUB && old(sub[r.value.n]) == Some(r.value.x)
      ensures r.Ok? ==> IsAtom(Skipped(), old(nsub), r.value, nsub)
      ensures old(Known()) ==> Agrees(r, TakeAtom(old(Rest()), old(nsub), old(sub)))
    {
      hide Lexes, RestOf, IsAlt, Known, Rest, Classes, LexemeAt, TakeAlt, MoreAlts, TakeCat, MoreCats, TakeRep, TakeQuantifier, TakeClosed;
      if Known() { AheadIsFirst(); }
      var n := yychar;
      if n == 0 || n > nsub || n >= MAXSUB || sub[n].None? {
        nodes := nodes + 1;
        return Die("invalid back-reference");
      }
      refs := true;
      r := Leaf(Ref(n, sub[n].value));
    }

    // Tokens between the opening one and the closing parenthesis.
    static lemma Wrapped(was: seq<Lexeme>, open: Lexeme, tail: seq<Lexeme>)
      requires tail != [] && tail[|tail| - 1] == Symbol(')')
      ensures (was + [open] + tail)[|was|..] == [open] + tail[..|tail| - 1] + [Symbol(')')]
    {
    }

    method ParseNoCapture() returns (r: Status<Node>)
      requires Inv() && lookahead == L_NC && nodes <= 2 * start + 1
      modifies this
      ensures Done(r, 1)
      ensures r.Ok? ==> IsAtom(Skipped(), old(nsub), r.value, nsub)
      ensures old(Known()) ==> Agrees(r, TakeAtom(old(Rest()), old(nsub), old(sub)))
      decreases |pat| - start, 0
    {
      hide Lexes, RestOf, IsAlt, IsAtom, Parsed, Known, Rest, Classes, LexemeAt, TakeAlt, MoreAlts, TakeCat, MoreCats, TakeRep, TakeQuantifier, TakeClosed;
      if Known() { AheadIsFirst(); }
      var _ :- Next();
      ghost var mark := read;
      var x :- Enclosed();
      ghost var tail := read[|mark|..];
      Grouped(LexNoCapture, tail[..|tail| - 1], old(nsub), nsub, x);
      Wrapped(old(read), LexNoCapture, tail);
      return Ok(x);
    }

    method ParseLook(negative: bool) returns (r: Status<Node>)
      requires Inv() && lookahead == (if negative then L_NLA else L_PLA) && nodes <= 2 * start + 1
      modifies this
      ensures Done(r, 1)
      ensures r.Ok? ==> IsAtom(Skipped(), old(nsub), r.value, nsub)
      ensures old(Known()) ==> Agrees(r, TakeAtom(old(Rest()), old(nsub), old(sub)))
      decreases |pat| - start, 0
    {
      hide Lexes, RestOf, IsAlt, IsAtom, Parsed, Known, Rest, Classes, LexemeAt, TakeAlt, MoreAlts, TakeCat, MoreCats, TakeRep, TakeQuantifier, TakeClosed;
      if Known() { AheadIsFirst(); }
      var _ :- Next();
      ghost var mark := read;
      nodes := nodes + 1;
      var x :- Enclosed();
      ghost var tail, open := read[|mark|..], if negative then LexNotLook else LexLook;
      Grouped(open, tail[..|tail| - 1], old(nsub), nsub, x);
      Wrapped(old(read), open, tail);
      ParsedLook(x, old(nsub), nsub, refs);
      return Ok(if negative then Nla(x) else Pla(x));
    }

    method ParseGroup() returns (r: Status<Node>)
      requires Inv() && lookahead == SYM(Code('(')) && nodes <= 2 * start + 1
      modifies this
      ensures Done(r, 1)
      ensures r.Ok? ==> IsAtom(Skipped(), old(nsub), r.value, nsub)
      ensures old(Known()) ==> Agrees(r, TakeAtom(old(Rest()), old(nsub), old(sub)))
      decreases |pat| - start, 0
    {
      hide Lexes, RestOf, IsAlt, IsAtom, Parsed, Known, Rest, Classes, LexemeAt, TakeAlt, MoreAlts, TakeCat, MoreCats, TakeRep, TakeQuantifier, TakeClosed;
      if Known() { AheadIsFirst(); }
      var _ :- Next();
      ghost var mark := read;
      nodes := nodes + 1;
      if nsub == MAXSUB {
        return Die("too many captures");
      }
      var n := nsub;
      nsub := nsub + 1;
      var x :- GroupBody(n);
      ghost var tail := read[|mark|..];
      Grouped(Symbol('('), tail[..|tail| - 1], n, nsub, x);
      Wrapped(old(read), Symbol('('), tail);
      ParsedPar(x, n, nsub, refs);
      return Ok(Par(n, x));
    }

    // References may name the group from here on.
    method Record(n: nat, group: Node)
      requires Inv() && 0 < n < nsub && group.Par? && group.n == n
      modifies this`sub
      ensures Inv() && sub == old(sub)[n := Some(group)]
    {
      hide Lexes;
      sub := sub[n := Some(group)];
    }

    // Inside a numbered group, which is recorded before its parenthesis closes.
    method GroupBody(n: nat) returns (r: Status<Node>)
      requires Inv() && 0 < n < nsub && nodes <= 2 * start
      modifies this
      ensures Done(r, 0)
      ensures r.Ok? ==> Skipped() != [] && Skipped()[|Skipped()| - 1] == Symbol(')')
      ensures r.Ok? ==> IsAlt(Skipped()[..|Skipped()| - 1], old(nsub), r.value, nsub)
      ensures old(Known()) ==> Agrees(r, GroupOf(n, TakeClosed(old(Rest()), old(nsub), old(sub))))
      decreases |pat| - start, 5
    {
      hide Lexes, RestOf, IsAlt, Parsed, Known, Rest, Classes, LexemeAt, TakeAlt, MoreAlts, TakeCat, MoreCats, TakeRep, TakeQuantifier, TakeAtom, Recorded, Code;
      var x :- ParseAlt();
      ghost var inner := Skipped();
      assert read == old(read) + inner;
      Record(n, Par(n, x));
      var _ :- Close();
      assert Skipped() == inner + [Symbol(')')];
      assert Skipped()[..|Skipped()| - 1] == inner;
      return Ok(x);
    }

    // Recording group n.
    static function GroupOf(n: nat, o: Out): Out
      requires n < MAXSUB
    {
      match o
      case Fail => Fail
      case Out(x, rest, hi, sub') => Out(x, rest, hi, sub'[n := Some(Par(n, x))])
    }

    predicate AtAssertion()
      reads this`lookahead
    {
      lookahead == SYM(Code('^')) || lookahead == SYM(Code('$')) || lookahead == L_WORD || lookahead == L_NWORD
    }

    method ParseAssertion() returns (r: Status<Node>)
      requires Inv() && AtAssertion() && nodes <= 2 * start + 1
      modifies this
      ensures Done(r, 1)
      ensures r.Ok? ==> IsRep(Skipped(), old(nsub), r.value, nsub)
      ensures old(Known()) ==> Agrees(r, TakeRep(old(Rest()), old(nsub), old(sub)))
    {
      hide Lexes, RestOf, IsAtom, Known, Rest, Classes, LexemeAt, TakeAlt, MoreAlts, TakeCat, MoreCats, TakeQuantifier, TakeAtom, TakeClosed;
      if Known() { AheadIsFirst(); }
      if lookahead == SYM(Code('^')) {
        r := Leaf(Bol);
      } else if lookahead == SYM(Code('$')) {
        r := Leaf(Eol);
      } else if lookahead == L_WORD {
        r := Leaf(Word);
      } else {
        r := Leaf(NWord);
      }
    }

    lemma NoAssertion()
      requires Inv() && Known() && !AtAssertion() && lookahead != END
      ensures TakeRep(Rest(), nsub, sub) ==
        match TakeAtom(Rest(), nsub, sub)
        case Fail => Fail
        case Out(x, rest, hi, sub') => TakeQuantifier(x, rest, hi, sub')
    {
      hide Lexes, RestOf, Known, Rest, TakeAtom, TakeQuantifier;
      AheadIsFirst();
    }

    // An assertion, or an atom with an optional quantifier.
    method ParseRep() returns (r: Status<Node>)
      requires Inv() && lookahead != END && nodes <= 2 * start + 1
      modifies this
      ensures Done(r, 1)
      ensures r.Ok? ==> IsRep(Skipped(), old(nsub), r.value, nsub)
      ensures old(Known()) ==> Agrees(r, TakeRep(old(Rest()), old(nsub), old(sub)))
      decreases |pat| - start, 2
    {
      hide Lexes, RestOf, IsRep, IsAtom, Known, Rest, Classes, LexemeAt, TakeAlt, MoreAlts, TakeCat, MoreCats, TakeRep, TakeQuantifier, TakeAtom, TakeClosed;
      if AtAssertion() {
        r := ParseAssertion();
        return;
      }
      if Known() { NoAssertion(); }
      var atom :- ParseAtom();
      ghost var ts := Skipped();
      assert read == old(read) + ts;
      AtomNonempty(ts, old(nsub), atom, nsub);
      r := Quantify(atom, old(nsub), ts);
      if r.Ok? { assert Skipped() == ts + read[|old(read)| + |ts|..]; }
    }

    // The quantifier after an atom, if there is one.
    method Quantify(atom: Node, ghost lo: nat, ghost ts: seq<Lexeme>) returns (r: Status<Node>)
      requires Inv() && nodes <= 2 * start && Parsed(atom, lo, nsub, refs) && IsAtom(ts, lo, atom, nsub) && ts != []
      modifies this`pos, this`yychar, this`yycc, this`yymin, this`yymax, this`ncclass, this`lookahead, this`start, this`nodes, this`read
      ensures r.Die? ==> nodes <= 2 * |pat|
      ensures r.Ok? ==> Inv() && Paid(0) && Parsed(r.value, lo, nsub, refs) && read == old(read) + Skipped()
      ensures r.Ok? ==> IsRep(ts + Skipped(), lo, r.value, nsub)
      ensures old(Known()) ==> Agrees(r, TakeQuantifier(atom, old(Rest()), nsub, sub))
    {
      hide Parsed, Lexes, RestOf, IsAtom, IsRep, IsQuantifier, Known, Rest, Classes, LexemeAt, TakeAlt, MoreAlts, TakeCat, MoreCats, TakeRep, TakeAtom, TakeClosed;
      var bounds := Bounds();
      if bounds.None? {
        AtomNonempty(ts, lo, atom, nsub);
        assert ts + Skipped() == ts;
        return Ok(atom);
      }
      var (min, max) := bounds.value;
      var _ :- Next();
      if max < min {
        return Die("invalid quantifier");
      }
      if Known() { AheadIs(Code('?')); }
      var ng :- Accept(SYM(Code('?')));
      var rep :- NewRep(atom, ng, min, max);
      ParsedRep(ng, min, max, atom, lo, nsub, refs);
      LazyQuantifier(old(Ahead()), min, max);
      assert Skipped() == if ng then [old(Ahead()), Symbol('?')] else [old(Ahead())];
      Quantified(ts, Skipped(), lo, nsub, atom, ng, min, max);
      return Ok(rep);
    }

    // The bounds that the lookahead stands for, if it is a quantifier.
    method Bounds() returns (q: Option<(nat, nat)>)
      requires Inv()
      ensures q.Some? ==> lookahead != END && q.value.0 < REPINF && q.value.1 <= REPINF
      ensures q.Some? && q.value.0 <= q.value.1 ==> IsQuantifier([Ahead()], false, q.value.0, q.value.1)
      ensures Known() ==> q == if Rest() == [] then None else BoundsOf(Rest()[0])
    {
      hide RestOf, LexemeAt, Tokens;
      if Known() { AheadIsFirst(); }
      if lookahead == L_COUNT {
        return Some((yymin, yymax));
      } else if lookahead == SYM(Code('*')) {
        return Some((0, REPINF));
      } else if lookahead == SYM(Code('+')) {
        return Some((1, REPINF));
      } else if lookahead == SYM(Code('?')) {
        return Some((0, 1));
      }
      return None;
    }

    predicate EndsCat()
      reads this
    {
      lookahead == END || lookahead == SYM(Code('|')) || lookahead == SYM(Code(')'))
    }

    method ParseCat() returns (r: Status<Node>)
      requires Inv() && nodes <= 2 * start
      modifies this
      ensures Done(r, 0)
      ensures r.Ok? ==> IsCat(Skipped(), old(nsub), r.value, nsub)
      ensures old(Known()) ==> Agrees(r, TakeCat(old(Rest()), old(nsub), old(sub)))
      decreases |pat| - start, 3
    {
      hide Parsed, Empty, Lexes, RestOf, IsRep, IsRun, Known, Rest, Classes, LexemeAt, TakeAlt, MoreAlts, TakeRep, TakeQuantifier, TakeAtom, TakeClosed;
      if Known() { AheadEnds(); }
      ParsedNil(nsub, refs);
      if EndsCat() {
        assert Skipped() == [];
        return Ok(Nil);
      }
      var cat :- ParseRep();
      if Known() { AheadEnds(); }
      RepNonempty(Skipped(), old(nsub), cat, nsub);
      while !EndsCat()
        invariant Inv() && Paid(1) && old(nsub) <= nsub && (old(refs) ==> refs)
        invariant Parsed(cat, old(nsub), nsub, refs) && read == old(read) + Skipped()
        invariant Skipped() != [] && IsRun(Skipped(), old(nsub), cat, nsub)
        invariant old(Known()) ==> Known() && MoreCats(cat, Rest(), nsub, sub) == TakeCat(old(Rest()), old(nsub), old(sub))
        invariant Known() ==> (EndsCat() <==> StopsCat(Rest()))
        decreases |pat| - start
      {
        nodes := nodes + 1;
        ghost var mid, refs0, ts := nsub, refs, Skipped();
        assert read == old(read) + ts;
        var y :- ParseRep();
        ghost var more := read[|old(read)| + |ts|..];
        RepNonempty(more, mid, y, nsub);
        RunJoins(ts, more, old(nsub), mid, nsub, cat, y);
        assert Skipped() == ts + more;
        ParsedCat(cat, y, old(nsub), mid, nsub, refs0, refs);
        cat := Cat(cat, y);
        if Known() { AheadEnds(); }
      }
      return Ok(cat);
    }

    // A bar and one more sequence.
    method ParseBranch(ghost lo: nat, ghost ts: seq<Lexeme>, alt: Node) returns (r: Status<Node>)
      requires Inv() && lookahead == SYM(Code('|')) && nodes <= 2 * start
      requires Parsed(alt, lo, nsub, refs) && lo <= nsub && IsAlt(ts, lo, alt, nsub)
      modifies this
      ensures r.Die? ==> nodes <= 2 * |pat|
      ensures r.Ok? ==> Inv() && Paid(1) && old(start) < start && old(nsub) <= nsub && (old(refs) ==> refs)
      ensures r.Ok? ==> read == old(read) + Skipped()
      ensures r.Ok? ==> Parsed(r.value, lo, nsub, refs) && IsAlt(ts + Skipped(), lo, r.value, nsub)
      ensures old(Known()) ==> Agrees(r, BranchOf(alt, old(Rest()), old(nsub), old(sub)))
      decreases |pat| - start, 3
    {
      hide Parsed, Empty, Lexes, RestOf, IsAlt, IsCat, Known, Rest, Classes, LexemeAt, TakeAlt, MoreAlts, TakeCat, MoreCats, TakeRep, TakeQuantifier, TakeAtom, TakeClosed;
      if Known() { AheadIs(Code('|')); }
      var _ :- Next();
      nodes := nodes + 1;
      ghost var mid, refs0, mark := nsub, refs, read;
      var y :- ParseCat();
      ghost var more := read[|mark|..];
      AltJoins(ts, more, lo, mid, nsub, alt, y);
      assert ts + Skipped() == ts + [Symbol('|')] + more;
      ParsedAlt(alt, y, lo, mid, nsub, refs0, refs);
      return Ok(Alt(alt, y));
    }

    // What the parser on tokens does about it.
    static function BranchOf(x: Node, ts: seq<Lexeme>, hi: nat, sub: Subs): Out {
      if ts == [] then Fail
      else
        match TakeCat(ts[1..], hi, sub)
        case Fail => Fail
        case Out(y, rest, hi', sub') => Out(Alt(x, y), rest, hi', sub')
    }

    method ParseAlt() returns (r: Status<Node>)
      requires Inv() && nodes <= 2 * start
      modifies this
      ensures Done(r, 0)
      ensures r.Ok? ==> IsAlt(Skipped(), old(nsub), r.value, nsub)
      ensures old(Known()) ==> Agrees(r, TakeAlt(old(Rest()), old(nsub), old(sub)))
      decreases |pat| - start, 4
    {
      hide Parsed, Empty, Lexes, RestOf, IsAlt, IsCat, Known, Rest, Classes, LexemeAt, TakeCat, MoreCats, TakeRep, TakeQuantifier, TakeAtom, TakeClosed;
      var alt :- ParseCat();
      if Known() { AheadIs(Code('|')); }
      CatIsAlt(Skipped(), old(nsub), alt, nsub);
      while lookahead == SYM(Code('|'))
        invariant Inv() && Paid(0) && old(nsub) <= nsub && (old(refs) ==> refs)
        invariant Parsed(alt, old(nsub), nsub, refs) && read == old(read) + Skipped()
        invariant IsAlt(Skipped(), old(nsub), alt, nsub)
        invariant old(Known()) ==> Known() && MoreAlts(alt, Rest(), nsub, sub) == TakeAlt(old(Rest()), old(nsub), old(sub))
        invariant Known() ==> (lookahead == SYM(Code('|')) <==> Rest() != [] && Rest()[0] == Symbol('|'))
        decreases |pat| - start
      {
        ghost var ts := Skipped();
        assert read == old(read) + ts;
        alt :- ParseBranch(old(nsub), ts, alt);
        assert Skipped() == ts + read[|old(read)| + |ts|..];
        if Known() { AheadIs(Code('|')); }
      }
      return Ok(alt);
    }

    // The whole pattern: the tree is the one within the limits that the grammar gives to its
    // tokens; if there is none, the pattern is refused, and only then.
    method Parse() returns (r: Status<Node>)
      requires IsPattern() && pos == 0 && start == 0 && nodes == 0 && ncclass == 0 && nsub == 1 && sub == NoSubs
      requires |yycc.spans| == 0 && !refs && read == []
      modifies this
      ensures nodes <= 2 * |pat|
      ensures r.Ok? ==> Acceptable(pat, read, r.value) && (refs || RefFree(r.value)) && nsub <= MAXSUB
      ensures r.Ok? ==> IsWhole(pat, read, start) && IsAlt(read, 1, r.value, nsub)
      ensures r.Die? ==> forall ts, node {:trigger Acceptable(pat, ts, node)} :: !Acceptable(pat, ts, node)
    {
      hide LexemeAt, IsAlt, RestOf, Acceptable, TakeAlt, Known, Rest, Classes, RefsBound, Tokenized, OfClass;
      var first := Lex();
      if first.Die? {
        NothingStarts();
        return Die(first.message);
      }
      lookahead := first.value;
      FirstToken();
      ghost var all := Rest();
      ghost var known := Known();
      forall ts, node | Acceptable(pat, ts, node)
        ensures known && TakesAll(all)
      {
        AcceptableTaken(pat, ts, node);
      }
      r := ParseAlt();
      if r.Die? {
        return;
      }
      if Known() { AheadIsFirst(); }
      if lookahead == SYM(Code(')')) {
        return Die("unmatched ')'");
      }
      if lookahead != END {
        return Die("syntax error");
      }
      assert Skipped() == read;
      AllRead(r.value, all);
    }

    static ghost predicate TakesAll(ts: seq<Lexeme>) {
      TakeAlt(ts, 1, NoSubs).Out? && TakeAlt(ts, 1, NoSubs).rest == []
    }

    lemma NothingStarts()
      requires LexemeAt(pat, 0) == None
      ensures forall ts, node {:trigger Acceptable(pat, ts, node)} :: !Acceptable(pat, ts, node)
    {
      hide LexemeAt, RestOf, Acceptable, TakeAlt, Classes;
      forall ts, node
        ensures !Acceptable(pat, ts, node)
      {
        if Acceptable(pat, ts, node) {
          AcceptableTaken(pat, ts, node);
          RestStarts(pat, 0);
          assert false;
        }
      }
    }

    // After the first token.
    lemma FirstToken()
      requires Tokenized(lookahead) && LexemeAt(pat, 0) == Some((Ahead(), pos)) && start == 0 && read == [] && pos > 0
      requires ncclass == if OfClass(Ahead()) then 1 else 0
      requires nsub == 1 && sub == NoSubs
      ensures Inv()
      ensures Known() <==> RestOf(pat, 0).Some? && Classes(RestOf(pat, 0).value) <= MAXCLASSES
      ensures RestOf(pat, 0).Some? ==> Rest() == RestOf(pat, 0).value
    {
      hide LexemeAt, RestOf, Classes;
      ClassesNext(read, Ahead());
      SomeClasses(read);
      if RestOf(pat, 0).Some? {
        RestStep(pat, 0, Ahead(), pos);
        SomeClasses(Rest());
      }
    }

    // The end has been reached.
    lemma AllRead(node: Node, all: seq<Lexeme>)
      requires Inv() && lookahead == END && IsAlt(read, 1, node, nsub) && Parsed(node, 1, nsub, refs)
      requires RestOf(pat, 0).Some? ==> all == RestOf(pat, 0).value
      requires RestOf(pat, 0).Some? && Classes(all) <= MAXCLASSES ==> TakeAlt(all, 1, NoSubs).Out? && TakeAlt(all, 1, NoSubs).node == node
      ensures Acceptable(pat, read, node) && IsWhole(pat, read, start)
    {
      hide LexemeAt, RestOf, Classes, IsAlt, TakeAlt, RefsBound, Binds, RepsChecked, GroupsNested, Tokens;
      WholeIsRest(pat, 0, read, start);
      AltBound(read, 1, NoSubs);
      assert IsWhole(pat, read, start);
    }
  }
}
