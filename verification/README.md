# Movian: six cores, verified

A Dafny 4.11 model of six parts of the Movian media player that carry real invariants:

- **Regular expressions** (`ext/minilibs/regexp.c`). A lexer and recursive-descent parser build a
  tree, a compiler turns it into jump, split and look-ahead code, and a backtracking machine runs
  the code with an explicit stack of saved threads. The reference is an ordered list of results
  for every tree (`RegexMeaning.Results`); the code is proved to try exactly those, in that order.
- **The TLSF allocator** (`ext/tlsf/tlsf.c`, `ext/tlsf/tlsfbits.h`), 64-bit configuration, over a
  memory of eight-byte words. One invariant ties four views together: blocks that tile the pool,
  boundary tags, doubly linked free lists, two levels of bitmaps. The null block's link words are
  scratch, a split-off header starts with whatever flags were in memory, and the first block's
  prev_phys_block word is the pool's count of used bytes.
- **The task scheduler** (`src/task.c`) as a step relation over workers, a plain queue and
  serialised groups, and as a class whose methods are those steps.
- **The AA-tree** (`ext/minilibs/tree.c`), as a value and as nodes rotated in place.
- **The disk cache** (`src/blobcache_file.c`): table, write-behind queue and disk together refine a
  map from keys to the last body put, over whole lives with failing writes, restarts and crashes; and
  the index file's writer and reader.
- **Scanline coverage** (`ext/nanosvg/nanosvgrast.h`): 10-bit fixed-point spans added to bytes, where
  five subsamples of 51 use the byte exactly.

Modules are named after their part. Where the source changes state in place the model is a class or
an array method, specified by functions on values about which the lemmas are proved. A ghost
parameter or field never influences what a method computes.

## Reading the model

- Regex: `RegexSyntax` (trees, `empty`, `count`), `RegexLexemes` and `RegexGrammar` (which tree a pattern
  spells), `RegexAccept` (the parser on tokens takes every such tree), `RegexMeaning` (what a tree
  matches), `RegexMachine` (what code does), `RegexCode` (the two agree), `RegexTermination`,
  `RegexCompile` and `RegexParser` (the mutating compiler and parser), `RegexBuffer` (the counted
  buffer), `RegexMatch` (the stack loop), `RegexProgram` (the entry points), `RegexRanks`,
  `RegexCutoff` (waiting threads), `RegexUnset` and `RegexEndless` (loops over references),
  `RegexEighth` (reference numbers), `RegexBounded` (counted repetition).
- TLSF: `TlsfBits`, `TlsfMapping`, `TlsfSizes` (arithmetic), `TlsfLayout`, `TlsfTags`, `TlsfChains`,
  `TlsfLists`, `TlsfKeep`, `TlsfRows`, `TlsfCopy`, `TlsfSteps` (lemmas about each view), `TlsfPool`
  (the allocator), `TlsfRuns` (whole runs), `TlsfEdges` (requests it does not survive).
- Tasks: `TaskModel`, `TaskTheorems`, `TaskThreads`. Tree: `TreeModel`, `TreeNodes`.
- Cache: `BlobTable`, `BlobIndex`, `BlobFacts`, `BlobCache`, `BlobRuns`. Coverage: `ScanCoverage`, `ScanEdges`,
  `ScanBlend`, `ScanRaster`.

Results that are not what the code's shape suggests:

- `count` is computed in 32 bits and can wrap. The program fits its buffer exactly when it is no
  longer than the count and six modulo 2^32 (`RegexBuffer.FitsIf`). A pattern of 161 characters,
  `(?:` 32 times, a dot and `)+` 32 times, is accepted and does not fit (`RegexProgram.CompileNested`);
  with 31 of them the count wraps too, and the program fits.
- The cut-off at 2000 saved threads makes a match fail silently. Without look-aheads that is all it
  can do (`RegexProgram.ReportedMatchIsCorrect`); inside a negative look-ahead it turns a failure
  into a match: for `(?!a*b)` on letters `a` and a `b` exactly from 2000 letters on
  (`RegexCutoff.CutoffFools`). A subject is safe, look-aheads or not, while the program's length times
  one more than the subject's is at most 2000 (`RegexCutoff.ShortSubject`).
- A loop over a back-reference is let through when its group cannot match the empty string, but an
  unset group matches it. A greedy loop over one then goes round up to the cut-off
  (`RegexUnset.GreedyLoopIsCut`), so `(a)?\1*` misses its match (`RegexUnset.UnsetIsMissed`). A lazy
  one ends exactly if its split is cut off, the reference moves or fails, or its way out does not die
  (`RegexUnset.LazyLoopAnswers`): `(a)?\1*?b` runs for ever on every subject that does not start with
  letters `a` and a `b` (`RegexEndless.LazyAnswers`). Every accepted pattern ends on every subject if the
  bodies of its unbounded lazy loops consume, or if it has no look-aheads and its loops advance
  (`RegexProgram.AcceptedAnswers`). What a pattern reports is
  right if its loops over references are over groups that surely matched, as in `(a)\1*`, lazy or not
  (`RegexUnset.SetIsSound`, `RegexProgram.UncutProgramIsCorrect`); which groups these are is computed from
  the tree (`RegexSyntax.Fills`, `RegexAdvance.ResultsFill`). Without references the check made is enough
  (`RegexSyntax.CheckedIsWellLooped`).
- Ignoring case, a class with a range up to the last 32-bit value, such as a byte 0xFF where characters
  are signed, has every character: the counter of the folding loop wraps (`RegexMatch.TopRange`).
- A reference `\8` passes the test of its number when seven groups have been opened, and is looked up
  past the table of groups (`RegexEighth.LooksPastTable`); the model refuses it.
- A control escape of `@` (`\c@`), or one at the very end, ends the pattern where it stands.
- A read that drops an expired or unreadable item does not subtract its size from the cache's count;
  `BlobCache.Cache.Valid` states the count as the sum of sizes plus the bytes dropped since the last
  recount.
- Three things make a read return anything but what was last stored, and nothing else does
  (`BlobCache.Cache.Get`, `BlobRuns.Run`). A flush that cannot open its file leaves an older one in
  place; writes still queued when the cache stops are lost; and what was stored since the index was
  last written is not known to a cache that is started again, after a crash or when the index could
  not be written. With bodies of one length the first two give an old body (`BlobRuns.OldBody`); the
  third gives a body other than the one that a put was told is there already (`BlobRuns.OldIndex`).
  Otherwise a put is lost exactly when its body has the digest and size of the one that is there
  (`BlobCache.Cache.Put`); a renewed put keeps the content type that was stored.
- A stored expiry is capped at 2^31 - 1 and a renewed one is not, so that past that time a body is
  expired as soon as it is stored (`BlobCache.ExpiredAtOnce`).
- The pruning order compares access times by a 32-bit signed difference, which is right about two
  items exactly when their importance differs or their times are within 2^31 (`BlobFacts.CmpIsBefore`),
  and is no order otherwise (`BlobFacts.CmpIsNoOrder`). Items any two of which are near are sorted rightly
  (`BlobFacts.SortItems`), also after 2038.
- The index counts items with a signed number: from 2^31 on not all come back (`BlobIndex.AllRead`).
- The allocator searches outside its table exactly for the 2^26 - 1 request sizes below the maximum
  (`TlsfEdges.Searchable`), accepts a pool size that has no list (`TlsfEdges.HasList`), and answers a
  resize to the maximum or more by cutting the block (`TlsfEdges.HugeRealloc`).

## Model

| member | source | states |
|---|---|---|
| RegexSyntax.ConsumesIsNotEmpty | ext/minilibs/regexp.c:433-445 | on a tree without back-references, `empty` is false exactly when the node is one whose every match is proved to advance (ResultsAdvance) |
| RegexSyntax.CheckedIsWellLooped | ext/minilibs/regexp.c:447-457 | the check made when a repetition is built leaves no unbounded loop whose body can match without consuming |
| RegexSyntax.SizeWithinCount | ext/minilibs/regexp.c:612-757 | the code emitted for any tree is no longer than what `count` reserves for it |
| RegexSyntax.LazyConsumeEnding | ext/minilibs/regexp.c:447-457 | of the loops that the check lets through, only lazy ones whose body need not consume can keep a program from ending (also lines 686-707) |
| RegexAdvance.ResultsAdvance | ext/minilibs/regexp.c:433-445 | every result of a node lies at or behind its start, one character further at least when the node consumes; captures move only inside the match, and only those of the node's groups (also lines 952-1120) |
| RegexAdvance.CapturesProper | ext/minilibs/regexp.c:1108-1113 | after a match each group of the pattern is unset or holds start <= end inside the subject |
| RegexAdvance.ResultsFill | ext/minilibs/regexp.c:1068-1079 | if the groups in a set hold something before a match, those that are computed from it along the tree do after every result; and every result lies behind the start if the node moves by that computation, as a reference to a group that surely matched does (also lines 1108-1113) |
| RegexMachine.MoreFuel | ext/minilibs/regexp.c:966-1120 | a run that ends gives the same outcome however many more steps it is allowed |
| RegexMachine.UncutIsIdeal | ext/minilibs/regexp.c:985-991 | a run in which no call reaches the 2000-thread cut-off ends as it would without a cut-off, and so does the run as written |
| RegexMachine.StrictFollows | ext/minilibs/regexp.c:985-991 | what ends without a cut-off ends with one, if only at a cut |
| RegexMachine.Unfold | ext/minilibs/regexp.c:972-1117 | the limit value of a program point is determined by its instruction and the values of the points it leads to |
| RegexCode.CodeMeaning | ext/minilibs/regexp.c:643-757 | compiler correctness: running the code of a node from a position tries what follows it on the results of the node's meaning, in their order, for every node whose loops advance given the groups that hold something there; references to them included |
| RegexCode.RepMeaning | ext/minilibs/regexp.c:667-708 | the same for all four shapes of a repetition, greedy and lazy, counted, optional chains and loops |
| RegexCode.LookMeaning | ext/minilibs/regexp.c:722-735 | the same for both look-aheads: only whether the body matches counts, and a positive one keeps the captures of its first result |
| RegexCode.AltMeaning | ext/minilibs/regexp.c:657-665 | the same for alternatives: all results of the left one first |
| RegexCode.LoopMeaning | ext/minilibs/regexp.c:686-707 | unbounded repetition of a body that moves, if only because a group it refers to holds something, has the meaning of its recursive unrolling, although the code loops |
| RegexTermination.NodeEnds | ext/minilibs/regexp.c:433-457 | if all that follows the code of a node ends from every later position, so does the code of the node, with however many threads waiting: a node whose loops have consuming bodies ends with or without cut-off, and with one so does a node with any greedy loops (also lines 966-1120) |
| RegexTermination.StarEnds | ext/minilibs/regexp.c:686-697 | the loop of an unbounded repetition ends because each round consumes, or because it is greedy and there is a cut-off |
| RegexTermination.PlusEnds | ext/minilibs/regexp.c:698-707 | the same for the loop that follows mandatory copies |
| RegexTermination.ConsumingLoopEnds | ext/minilibs/regexp.c:686-707 | each round of a loop with a consuming body leaves fewer positions |
| RegexTermination.GreedyLoopEnds | ext/minilibs/regexp.c:686-707 | each round of a greedy loop leaves one more thread waiting, whatever its body does, so that the cut-off ends it (also lines 983-1011) |
| RegexCompile.Reprog.Emit | ext/minilibs/regexp.c:632-641 | appends one instruction inside the buffer and changes no earlier one |
| RegexCompile.Reprog.Patch | ext/minilibs/regexp.c:662-664 | rewrites one emitted instruction and no other |
| RegexCompile.Reprog.Compile | ext/minilibs/regexp.c:643-757 | appends exactly the code that the meaning theorem speaks of, within the room `count` reserved, leaving earlier code alone |
| RegexCompile.Reprog.CompileCat | ext/minilibs/regexp.c:652-655 | the code of both parts, one behind the other |
| RegexCompile.Reprog.CompileTimes | ext/minilibs/regexp.c:668-671 | the mandatory copies; the last one's place is remembered |
| RegexCompile.Reprog.CompileOptionals | ext/minilibs/regexp.c:674-685 | each optional copy with its split, whose way out leads to the next split |
| RegexCompile.Reprog.CompileOptional | ext/minilibs/regexp.c:675-684 | one copy behind the split that skips it, patched once its end is known |
| RegexCompile.Reprog.CompileStar | ext/minilibs/regexp.c:686-697 | the loop that may not be entered at all |
| RegexCompile.Reprog.CompileAlt | ext/minilibs/regexp.c:657-665 | the split, the jump and both branches, patched to the right places |
| RegexCompile.Reprog.CompileLook | ext/minilibs/regexp.c:722-735 | the look-ahead instruction, its body and the end that stops it |
| RegexCompile.Reprog.CompilePar | ext/minilibs/regexp.c:715-721 | the body between the marks of its group |
| RegexCompile.Reprog.CompileRep | ext/minilibs/regexp.c:667-708 | the code of a repetition in each of its shapes |
| RegexCompile.LoadedFrame | ext/minilibs/regexp.c:643-757 | code that is in place stays in place while nothing inside it is rewritten |
| RegexMatch.IncClass | ext/minilibs/regexp.c:904-911 | true exactly when some span of the class holds the character |
| RegexMatch.IncClassCanon | ext/minilibs/regexp.c:913-921 | true exactly when some member of the class has this canonical form, or a range of it reaches the last 32-bit value: the counter then wraps and meets the character itself |
| RegexMatch.InSpan | ext/minilibs/regexp.c:917-919 | one range, rune by rune, with the counter wrapping at 32 bits: it ends because the character is canonical, and with the answer stated |
| RegexMatch.TopRange | ext/minilibs/regexp.c:913-921 | ignoring case, a class with a range up to the last 32-bit value has every character and its complement none (also lines 1044-1067) |
| RegexMatch.FoldedRange | ext/minilibs/regexp.c:913-921 | any other class has exactly the characters that some member folds to (also lines 1044-1059) |
| RegexMatch.SameText | ext/minilibs/regexp.c:923-937 | true exactly when two stretches of the subject agree, folded if asked |
| RegexMatch.MatchClass | ext/minilibs/regexp.c:1044-1067 | the class test with or without folding |
| RegexMatch.MatchRef | ext/minilibs/regexp.c:1068-1079 | how far a back-reference advances, or that it fails |
| RegexMatch.Simple | ext/minilibs/regexp.c:1023-1113 | one instruction that neither branches nor ends does what the step relation says |
| RegexMatch.Push | ext/minilibs/regexp.c:993-1007 | a saved thread is always written inside the stack, which doubles when it is full and keeps the threads below |
| RegexMatch.Double | ext/minilibs/regexp.c:994-1005 | the grown stack has twice the room and the same threads |
| RegexMatch.Match | ext/minilibs/regexp.c:952-1124 | the loop over the explicit stack of saved threads ends and gives the outcome of the recursive reading of the code, captures included |
| RegexProgram.FirstMatchIsLeftmost | ext/minilibs/regexp.c:858-867 | the match that is searched for starts at the smallest position where the pattern matches at all, is the preferred one there, and its groups are unset or proper |
| RegexProgram.ProgramMeaning | ext/minilibs/regexp.c:858-867 | the search loop put around the pattern's code finds that match |
| RegexProgram.ProgramEnds | ext/minilibs/regexp.c:858-867 | a whole program ends on every subject if the mode lets its tree end: bodies of loops consume, or there is a cut-off and those that need not are greedy (also lines 966-1120) |
| RegexProgram.ProgramNoLooks | ext/minilibs/regexp.c:722-735 | code has look-aheads only where the tree does |
| RegexProgram.AcceptedAnswers | ext/minilibs/regexp.c:447-457 | an accepted pattern, back-references included, answers on every subject if the body of each of its unbounded lazy repetitions consumes, or if its loops advance given the groups that surely matched and it has no look-aheads (also lines 952-1124) |
| RegexProgram.StrictAnswers | ext/minilibs/regexp.c:952-1124 | the program of a sound tree answers on every subject, if only that a call was cut off |
| RegexProgram.UncutProgramIsCorrect | ext/minilibs/regexp.c:952-1124 | unless some call hits the cut-off, the program of a sound tree ends and reports exactly the leftmost preferred match, or none if there is none; loops over references to groups that surely matched are among these trees |
| RegexProgram.ReportedMatchIsCorrect | ext/minilibs/regexp.c:985-991 | without look-aheads the program of a sound tree always ends, and a match that is reported is the right one even if the cut-off was hit on the way (with them it need not be: CutoffFools) (also lines 1126-1139) |
| RegexRanks.StartOfConsuming | ext/minilibs/regexp.c:643-757 | the rank a consuming node starts with does not depend on what follows it, which is what lets loops be ranked |
| RegexRanks.NodeRanks | ext/minilibs/regexp.c:643-757 | the code of every node has a ranking that each split lowers and that rises only where the subject advances |
| RegexRanks.NeverCut | ext/minilibs/regexp.c:985-991 | so the threads that wait never exceed the ranks times the positions left: within 2000, no call is cut off |
| RegexCutoff.ShortSubject | ext/minilibs/regexp.c:985-991 | if the length of the program times one more than the length of the subject is at most 2000, what is reported is right, look-aheads or not (also lines 1126-1139) |
| RegexCutoff.Search | ext/minilibs/regexp.c:824-879 | a pattern compiled and matched: refused exactly when it spells no tree, compiled exactly when it fits; the answer is the leftmost preferred match with its groups, or none exactly if there is none: without references on every short subject, and wherever no call is cut off (also lines 1126-1139) |
| RegexCutoff.CutoffFools | ext/minilibs/regexp.c:985-991 | (?!a*b) on k letters a and a b: the answer is right exactly for k < 2000; from then on a match at the start is reported, where the pattern has none (also lines 1016-1020) |
| RegexCutoff.FooledAccepted | ext/minilibs/regexp.c:849-853 | that pattern, character by character, is one the parser takes for that tree |
| RegexUnset.UnsetIsMissed | ext/minilibs/regexp.c:433-457 | (a)?\1* on any subject that does not start with an a: the loop over the unset group never advances, the cut-off ends it, and the match at the start is missed (also lines 1068-1079) |
| RegexUnset.UnsetAccepted | ext/minilibs/regexp.c:849-853 | that pattern is one the parser takes, its reference being to a closed group |
| RegexUnset.GreedyLoopIsCut | ext/minilibs/regexp.c:686-697 | in any program, a greedy loop over a reference that does not advance ends at the cut-off, its way out never tried (also lines 983-1011, 1068-1079) |
| RegexUnset.LazyLoopAnswers | ext/minilibs/regexp.c:686-697 | in any program, a lazy loop over one reference, behind which everything ends, answers exactly if its split is cut off, the reference moves or fails, or the way out does not die (also lines 983-1011, 1068-1079) |
| RegexUnset.SetIsSound | ext/minilibs/regexp.c:433-457 | (a)\1* and (a)\1*? are sound, since their group surely matched, while a loop over a group that may be unset is not (UnsetSizes) (also lines 1068-1079) |
| RegexEndless.LazyAnswers | ext/minilibs/regexp.c:433-457 | (a)?\1*?b answers exactly on subjects that start with letters a and a b; on all others it runs for ever, although every one of them with a b has a match (also lines 983-1011, 1068-1079) |
| RegexEndless.LazyAccepted | ext/minilibs/regexp.c:849-853 | that pattern is one the parser takes for that tree |
| RegexBuffer.CountWordIsCount | ext/minilibs/regexp.c:612-630 | the 32-bit count is the exact count modulo 2^32 |
| RegexBuffer.FitsIf | ext/minilibs/regexp.c:612-630 | the buffer holds the program exactly when the program is no longer than its count and six, modulo 2^32; a count that does not wrap is always enough (also lines 856) |
| RegexBuffer.PlusFits | ext/minilibs/regexp.c:612-630 | for k nested repetitions (?:...)+ of a character the count doubles with each: the program fits exactly when k < 32, although the count wraps from 31 on (also lines 856) |
| RegexBuffer.PlusAccepted | ext/minilibs/regexp.c:849-853 | the pattern for them, 5k + 1 characters, is one the parser takes, for that tree and no other |
| RegexProgram.Assemble | ext/minilibs/regexp.c:855-867 | if the program fits, search loop, code and closing instructions are laid into a buffer of the counted size and form a loaded program |
| RegexProgram.Regcomp | ext/minilibs/regexp.c:824-879 | refused exactly when the grammar gives the pattern no tree within the limits; else a program is returned exactly when it fits its buffer, and it is the loaded program of the one such tree |
| RegexProgram.AcceptableChecked | ext/minilibs/regexp.c:447-457 | that tree has its quantifiers checked and its groups numbered properly, and is sound if no back-reference is among the tokens (also lines 849-853) |
| RegexProgram.CompileNested | ext/minilibs/regexp.c:824-879 | k nested repetitions are never refused, and a program is returned exactly for k < 32 |
| RegexProgram.Exec | ext/minilibs/regexp.c:1126-1139 | success and captures are those of the program, for every run that ends at all; without cut-off they are the leftmost preferred match of a sound tree |
| RegexBounded.BoundedIsNested | ext/minilibs/regexp.c:674-685 | the chain of independent optionals of a greedy x{m,n} has the same results in the same order of first occurrence as the nested form |
| RegexBounded.BoundedSameMatch | ext/minilibs/regexp.c:674-685 | so whatever follows, the preferred overall match is the same |
| RegexBounded.ChainIsNested | ext/minilibs/regexp.c:674-685 | the same for the optional part alone |
| RegexParser.Parser.NewNode | ext/minilibs/regexp.c:420-431 | one node is taken from the buffer |
| RegexParser.Parser.NewRep | ext/minilibs/regexp.c:447-457 | refuses exactly an unbounded repetition of what may be empty; builds the repetition otherwise |
| RegexParser.Parser.NextRune | ext/minilibs/regexp.c:119-160 | reads the rune or escape that stands at the position, or fails exactly where there is none, without passing the end of the pattern |
| RegexParser.Parser.LexCounts | ext/minilibs/regexp.c:162-194 | reads the bounds {M}, {M,} or {M,N} as decimal numbers, or fails exactly when they are malformed or 255 and more |
| RegexParser.Parser.LexNumber | ext/minilibs/regexp.c:166-171 | the decimal number up to its stop character, or failure exactly when there is none |
| RegexParser.Parser.HexRune | ext/minilibs/regexp.c:134-152 | the value of the hexadecimal digits, a zero standing for the quoted digit |
| RegexParser.Parser.NewClass | ext/minilibs/regexp.c:196-202 | takes one of the sixteen classes, empty; refuses exactly when all are taken |
| RegexParser.Parser.AddRange | ext/minilibs/regexp.c:204-212 | a range is stored, or refused exactly when it falls or the class is full |
| RegexParser.Parser.AddRanges | ext/minilibs/regexp.c:214-261 | the ranges of an escape are stored one after the other |
| RegexParser.Parser.AddHeld | ext/minilibs/regexp.c:336-340 | the pending end of a range and its dash become ranges of their own |
| RegexParser.Parser.ClassRune | ext/minilibs/regexp.c:284-331 | one rune inside brackets: dashes, ranges and class escapes as they stand, or failure exactly for a falling range or a full class |
| RegexParser.Parser.LexSpans | ext/minilibs/regexp.c:274-343 | the ranges up to the closing bracket are those the characters spell, or failure exactly where they spell none |
| RegexParser.Parser.LexBrackets | ext/minilibs/regexp.c:263-343 | the class that is read, in one class more, is the one its characters spell; failure exactly where there is none or no class is left |
| RegexParser.Parser.LexQuoted | ext/minilibs/regexp.c:348-367 | the token of a quoted rune, class escapes and two-digit references included; failure only when a class is needed and none is left |
| RegexParser.Parser.LexParen | ext/minilibs/regexp.c:380-396 | the four tokens that start with an opening parenthesis |
| RegexParser.Parser.Next | ext/minilibs/regexp.c:459-462 | the lookahead is recorded and the next token read, which cannot fail while the rest of the pattern is tokens with classes enough |
| RegexParser.Parser.Accept | ext/minilibs/regexp.c:464-471 | skips the lookahead exactly when it is the token asked for |
| RegexParser.Parser.Close | ext/minilibs/regexp.c:514-515 | skips the closing parenthesis, or fails exactly when the lookahead is another token |
| RegexParser.Parser.Lex | ext/minilibs/regexp.c:345-399 | the token that is read is the one that stands at the position, each but the last at least one character long; failure exactly where none stands or it needs a class and none is left |
| RegexParser.Parser.ParseAtom | ext/minilibs/regexp.c:475-540 | the tree returned is an atom that the grammar gives to the tokens skipped, groups numbered from the next free number, at most two nodes per character, less one; and it succeeds exactly where the parser on tokens does, with its answer |
| RegexParser.Parser.ParseGroup | ext/minilibs/regexp.c:507-517 | a capturing group, by the grammar: its number is taken before those inside it |
| RegexParser.Parser.Record | ext/minilibs/regexp.c:513 | a group that has been read can be referred to under its number |
| RegexParser.Parser.GroupBody | ext/minilibs/regexp.c:510-516 | the alternatives inside a numbered group, recorded before the parenthesis closes |
| RegexParser.Parser.ParseNoCapture | ext/minilibs/regexp.c:518-523 | a group that captures nothing and leaves no node of its own, by the grammar |
| RegexParser.Parser.ParseLook | ext/minilibs/regexp.c:524-537 | a look-ahead, by the grammar |
| RegexParser.Parser.ParseRef | ext/minilibs/regexp.c:496-504 | a back-reference is accepted only to a group that is already recorded under its number, and holds that group |
| RegexEighth.TestOfReference | ext/minilibs/regexp.c:498-500 | the source's test lets through exactly the references to closed groups, and number 8 when seven groups have been opened, which lies past its table |
| RegexEighth.LooksPastTable | ext/minilibs/regexp.c:496-504 | after any complete parts of a pattern the parser stands before a reference with one more than the groups opened so far, so it looks up 8 past its table exactly if they are seven (also lines 507-512) |
| RegexEighth.AltCounts | ext/minilibs/regexp.c:507-512 | the next group number goes up by one for each opening parenthesis of a group, and by nothing else |
| RegexEighth.SevenGroups | ext/minilibs/regexp.c:496-512 | ()()()()()()() followed by such a reference is such a pattern |
| RegexParser.Parser.Quantify | ext/minilibs/regexp.c:552-562 | the quantifier behind an atom, lazy if a question mark follows; falling bounds and loops over what may be empty are refused |
| RegexParser.Parser.ParseAssertion | ext/minilibs/regexp.c:546-549 | the four assertions, each one token |
| RegexParser.Parser.Bounds | ext/minilibs/regexp.c:552-561 | the bounds each quantifier stands for |
| RegexParser.Parser.ParseRep | ext/minilibs/regexp.c:542-563 | an assertion, or an atom with at most one quantifier, by the grammar |
| RegexParser.Parser.ParseCat | ext/minilibs/regexp.c:565-579 | a sequence grouped to the left, or nothing, by the grammar |
| RegexParser.Parser.ParseBranch | ext/minilibs/regexp.c:585-590 | a bar and one more sequence join the alternatives so far |
| RegexParser.Parser.ParseAlt | ext/minilibs/regexp.c:581-592 | alternatives grouped to the left, by the grammar |
| RegexParser.Parser.Parse | ext/minilibs/regexp.c:849-853 | parsing ends and takes at most two nodes per character whether it succeeds or fails; it succeeds exactly when the grammar gives the tokens of the pattern a tree within the limits (consuming loops, seven groups, sixteen classes, references to closed groups), and returns that tree |
| RegexLexemes.OneMoreToken | ext/minilibs/regexp.c:459-462 | tokens read one after the other are those of the pattern's beginning |
| RegexLexemes.LexemeInside | ext/minilibs/regexp.c:345-399 | every token but the end moves on and stays inside the pattern |
| RegexLexemes.WholeIsRest | ext/minilibs/regexp.c:345-399 | a pattern has one reading as tokens |
| RegexGrammar.AltJoins | ext/minilibs/regexp.c:585-590 | alternatives so far, a bar and one more sequence are alternatives |
| RegexGrammar.RunJoins | ext/minilibs/regexp.c:570-575 | a sequence so far and one more part are a sequence |
| RegexAccept.AltTaken | ext/minilibs/regexp.c:581-592 | every tree the grammar gives to alternatives is the one the parser on tokens takes, whatever may follow |
| RegexAccept.RunTaken | ext/minilibs/regexp.c:565-579 | the same for sequences |
| RegexAccept.RepTaken | ext/minilibs/regexp.c:542-563 | the same for quantified atoms and assertions |
| RegexAccept.AtomTaken | ext/minilibs/regexp.c:475-540 | the same for atoms, references only to groups closed before |
| RegexAccept.AltBound | ext/minilibs/regexp.c:496-513 | and in whatever it takes, each reference is to a group that was closed before it |
| RegexAccept.AltRefFree | ext/minilibs/regexp.c:496-504 | tokens without a back-reference give a tree without one |
| RegexAccept.OneTree | ext/minilibs/regexp.c:849-853 | a pattern has at most one tree within the limits |
| TaskModel.StepInv | src/task.c:73-213 | the invariant: every step of every worker and caller keeps it |
| TaskModel.InitInv | src/task.c:49-54 | it holds at the start |
| TaskModel.EnabledIsSafe | src/task.c:61-67 | no step that can be taken touches a freed group or frees one with tasks |
| TaskTheorems.RunKeepsInv | src/task.c:73-213 | the invariant holds after every interleaving |
| TaskTheorems.NoLostWork | src/task.c:79-152 | in every reachable state: if a task or group is queued, some worker is running, starting or signalled; at most 2 workers are idle and at most 16 exist |
| TaskTheorems.GroupsExclusive | src/task.c:104-128 | no group is run by two workers, and a group is queued exactly when it has tasks and nobody runs it |
| TaskTheorems.FreedOnlyWhenDone | src/task.c:61-67 | nothing that can happen next touches a freed group; a group is freed only by the release that ends its handle and its last task, with all its tasks done (also lines 117-126) |
| TaskTheorems.InOrderOnce | src/task.c:104-128 | plain tasks begin in the order they were handed in, groups are dispatched in the order they were queued, and the tasks of a group are done in the order they were handed to it, each exactly once (also lines 199-213) |
| TaskTheorems.WorkerProgress | src/task.c:80-129 | every step of a worker on its own lowers a measure of the outstanding work |
| TaskTheorems.WorkersStop | src/task.c:80-134 | so workers left alone come to rest after boundedly many steps |
| TaskTheorems.QuietIsDone | src/task.c:84-92 | and a state where no worker can step has nothing queued and nothing running |
| TaskTheorems.EverythingGetsDone | src/task.c:73-213 | after any run, left to themselves the workers stop within a bounded number of steps, and then every plain task and every group task has been done, in order |
| TaskThreads.Scheduler.TaskSchedule | src/task.c:140-152 | signals an idle worker if there is one, else starts one if fewer than 16 exist |
| TaskThreads.Scheduler.TaskRun | src/task.c:158-168 | appends the task and schedules: the submit step of the model |
| TaskThreads.Scheduler.TaskGroupRelease | src/task.c:60-67 | drops one reference and frees the group at the last |
| TaskThreads.Scheduler.TaskGroupCreate | src/task.c:175-182 | a new group with one reference and no tasks |
| TaskThreads.Scheduler.TaskGroupDestroy | src/task.c:188-192 | gives up the handle's reference |
| TaskThreads.Scheduler.RunInGroup | src/task.c:198-213 | queues the group if it had no tasks, appends the task and schedules |
| TaskThreads.Scheduler.Retain | src/task.c:205 | a submission, by a holder of the handle or by a running task of the group, takes its reference before it takes the lock |
| TaskThreads.Scheduler.TakeGroup | src/task.c:104-110 | the first group leaves the queue while one of its tasks is run |
| TaskThreads.Scheduler.ThreadBegins | src/task.c:79-82 | a new worker enters the loop |
| TaskThreads.Scheduler.Loop | src/task.c:80-134 | what a worker does from the top of its loop until it gives up the lock: the dispatch step of the model |
| TaskThreads.Scheduler.ThreadWakes | src/task.c:89-91 | a worker that was signalled leaves the idle count and goes round again |
| TaskThreads.Scheduler.PlainReturns | src/task.c:99-104 | a worker back from a plain task looks for a group first |
| TaskThreads.Scheduler.GroupTaskReturns | src/task.c:112-126 | takes the finished task off its group, requeues the group at the tail if there is more, releases the task's reference |
| TlsfBits.FlsGeneric | ext/tlsf/tlsfbits.h:130-142 | one more than the position of the highest one, 0 for 0 |
| TlsfBits.Ffs | ext/tlsf/tlsfbits.h:145-148 | the position of the lowest one, -1 for 0 |
| TlsfBits.FlsSize | ext/tlsf/tlsfbits.h:159-173 | the position of the highest one of a 64-bit size |
| TlsfBits.FromBit | ext/tlsf/tlsf.c:358 | masking with ~0 << i keeps exactly the bits from i on |
| TlsfBits.WithBit | ext/tlsf/tlsf.c:427-428 | setting a bit changes that bit only |
| TlsfBits.WithoutBit | ext/tlsf/tlsf.c:399-404 | clearing a bit changes that bit only |
| TlsfMapping.MappingInsert | ext/tlsf/tlsf.c:319-336 | computes the class of a size, within the table |
| TlsfMapping.MappingSearch | ext/tlsf/tlsf.c:339-347 | computes the class of the rounded size |
| TlsfMapping.ClassInRange | ext/tlsf/tlsf.c:319-336 | every size below the top class has a list |
| TlsfMapping.ClassMonotone | ext/tlsf/tlsf.c:319-336 | larger sizes are never in an earlier list |
| TlsfMapping.SearchedIsEnough | ext/tlsf/tlsf.c:339-347 | good fit: every block in the class searched first, or in a later one, is at least as large as the request |
| TlsfSizes.AdjustedFacts | ext/tlsf/tlsf.c:303-312 | an adjusted size is aligned, at least the minimum and the request, and 0 exactly for requests of 0 or past the maximum |
| TlsfSizes.GapBound | ext/tlsf/tlsf.c:877-900 | for a power of two above the base alignment the gap in front of the aligned pointer ends up 0, or between a header and the alignment plus a header less 8 |
| TlsfSizes.GapLeaves | ext/tlsf/tlsf.c:866-900 | so any block found for the request can be cut at the gap, the pointer is aligned, and the adjusted size still fits behind it |
| TlsfCopy.CopiedByte | ext/tlsf/tlsf.c:968-969 | a copy between separate blocks carries over each byte, also those of a last partial word |
| TlsfLayout.SplitTiled | ext/tlsf/tlsf.c:453-472 | cutting a block leaves blocks that tile the pool |
| TlsfLayout.AbsorbTiled | ext/tlsf/tlsf.c:475-482 | so does taking over the successor |
| TlsfTags.SplitTagged | ext/tlsf/tlsf.c:453-472 | after a cut every boundary tag agrees with its neighbours except the tail's own prev-free bit, which is what was in memory |
| TlsfTags.FixTagged | ext/tlsf/tlsf.c:523 | writing that bit makes all tags right (also lines 537, 549) |
| TlsfTags.AbsorbTagged | ext/tlsf/tlsf.c:475-482 | taking over a free successor keeps every tag right but the one behind, and that too when the block is free |
| TlsfTags.MarkFreeTagged | ext/tlsf/tlsf.c:264-270 | marking a block free leaves all tags right |
| TlsfTags.MarkUsedTagged | ext/tlsf/tlsf.c:272-277 | so does marking it used, whatever the block behind said before |
| TlsfChains.ChainUnlink | ext/tlsf/tlsf.c:382-389 | unlinking leaves a well-linked list without the block, the null block's links being scratch |
| TlsfChains.ChainPush | ext/tlsf/tlsf.c:411-426 | pushing leaves a well-linked list with the block in front |
| TlsfLists.UnlinkChained | ext/tlsf/tlsf.c:382-389 | and no other list is disturbed |
| TlsfLists.PushChained | ext/tlsf/tlsf.c:411-426 | and no other list is disturbed |
| TlsfLists.ListedTake | ext/tlsf/tlsf.c:382-408 | every other free block stays in exactly the list of its class |
| TlsfLists.ListedPush | ext/tlsf/tlsf.c:440-445 | a free block put into the list of its class is in exactly that list |
| TlsfLists.IndexEmptied | ext/tlsf/tlsf.c:392-407 | when a list runs empty both bitmap levels are cleared as far as they have to be |
| TlsfLists.IndexFilled | ext/tlsf/tlsf.c:426-428 | when a block comes in, both levels are set |
| TlsfLists.RowHit | ext/tlsf/tlsf.c:358-375 | the second-level scan finds the first non-empty list of the row |
| TlsfLists.RowsHit | ext/tlsf/tlsf.c:362-375 | the first-level scan finds the first non-empty list of the later rows |
| TlsfLists.NothingFound | ext/tlsf/tlsf.c:358-367 | both scans come up empty only if no list from the start on has a block |
| TlsfKeep.SplitKept | ext/tlsf/tlsf.c:453-472 | a cut writes inside its own block and in tags only |
| TlsfKeep.LinkWrites | ext/tlsf/tlsf.c:382-429 | list operations write neither tags nor payloads nor the count of used bytes, which lies in the first block's prev_phys_block word |
| TlsfKeep.UserWrites | ext/tlsf/tlsf.c:122-142 | the user's own writes to a payload, its last word included, disturb nothing |
| TlsfRows.FreedRowFacts | ext/tlsf/tlsf.c:907-919 | freeing and merging leaves no two free neighbours and lowers the used bytes by the block's size |
| TlsfRows.MergeNextCoalesced | ext/tlsf/tlsf.c:500-513 | merging with the block behind restores that no two free blocks are adjacent |
| TlsfRows.MergePrevCoalesced | ext/tlsf/tlsf.c:485-497 | merging with the block in front leaves nothing free in front of the result |
| TlsfRows.Conservation | ext/tlsf/tlsf.c:453-482 | however the pool is cut, sizes and overheads add up to the pool |
| TlsfRows.UsedSetFree | ext/tlsf/tlsf.c:586 | used bytes change by exactly the block's size (also lines 914) |
| TlsfRows.CanonicalEmpty | ext/tlsf/tlsf.c:907-920 | a pool without used blocks is one free block |
| TlsfPool.Pool.SearchSuitableBlock | ext/tlsf/tlsf.c:349-379 | the head of the first non-empty list from the given class on; 0 exactly when there is none |
| TlsfPool.Pool.RemoveFreeBlock | ext/tlsf/tlsf.c:382-408 | takes the block out of its list, with links, heads and bitmaps in agreement again |
| TlsfPool.Pool.InsertFreeBlock | ext/tlsf/tlsf.c:411-429 | puts the block at the head of its list, with links, heads and bitmaps in agreement |
| TlsfPool.Pool.BlockRemove | ext/tlsf/tlsf.c:432-437 | the same, for the list the block's size names |
| TlsfPool.Pool.BlockInsert | ext/tlsf/tlsf.c:440-445 | the same, for the list the block's size names |
| TlsfPool.Pool.BlockSplit | ext/tlsf/tlsf.c:453-472 | the row after the cut, tags right but for the tail's prev-free bit, other blocks and the kept part untouched |
| TlsfPool.Pool.BlockAbsorb | ext/tlsf/tlsf.c:475-482 | the row after the block took over its successor, its payload untouched |
| TlsfPool.Pool.BlockMergePrev | ext/tlsf/tlsf.c:485-497 | joins a freed block to a free block in front of it, which leaves its list |
| TlsfPool.Pool.BlockMergeNext | ext/tlsf/tlsf.c:500-513 | joins a block to a free block behind it, which leaves its list |
| TlsfPool.Pool.BlockTrimFree | ext/tlsf/tlsf.c:516-526 | returns what a free block has beyond the size, if a header fits, to the lists |
| TlsfPool.Pool.BlockTrimUsed | ext/tlsf/tlsf.c:529-541 | the same for a used block, merging with a free block behind; the kept bytes stay |
| TlsfPool.Pool.BlockTrimFreeLeading | ext/tlsf/tlsf.c:543-557 | cuts a gap off the front and returns it to the lists |
| TlsfPool.Pool.BlockLocateFree | ext/tlsf/tlsf.c:559-577 | finds and unlists a block that is large enough; none exactly when no free block is in a class searched |
| TlsfPool.Pool.BlockMarkAsUsed | ext/tlsf/tlsf.c:272-277 | marks the block used and makes the tags agree |
| TlsfPool.Pool.BlockMarkAsFree | ext/tlsf/tlsf.c:264-270 | marks the block free and makes the tags agree |
| TlsfPool.Pool.BlockPrepareUsed | ext/tlsf/tlsf.c:579-590 | cut to less than a header above the size, marked used and counted; the invariant holds again |
| TlsfPool.Pool.GapInFront | ext/tlsf/tlsf.c:877-893 | the gap as the lemmas about it have it |
| TlsfPool.Pool.Malloc | ext/tlsf/tlsf.c:845-851 | keeps the invariant; fails exactly when no free block is in a class searched, and then changes nothing; else a new used block within a header of the request, every other user's payload as it was |
| TlsfPool.Pool.Memalign | ext/tlsf/tlsf.c:853-905 | the same with an aligned pointer; null for a request adjusted to 0 at small alignments |
| TlsfPool.Pool.Free | ext/tlsf/tlsf.c:907-920 | keeps the invariant; the block is no longer in use, its neighbours are merged, the count drops by its size, every other payload is as it was |
| TlsfPool.Pool.Resize | ext/tlsf/tlsf.c:973-987 | grows into the free block behind or gives back the rest, keeping the bytes both sizes share |
| TlsfPool.Pool.Move | ext/tlsf/tlsf.c:965-971 | allocates, copies and frees; on failure nothing has changed |
| TlsfPool.Pool.Realloc | ext/tlsf/tlsf.c:935-991 | all its cases: malloc for a null pointer, free for size 0, else a block that holds the first min(old block size, size) bytes, or failure exactly when it can neither grow nor move, with nothing changed |
| TlsfPool.Pool.Memcpy | ext/tlsf/tlsf.c:969 | copying into a used block changes that block only |
| TlsfPool.Pool.Store | ext/tlsf/tlsf.c:140-142 | a user's write inside its payload keeps the invariant |
| TlsfPool.Pool.WalkHeap | ext/tlsf/tlsf.c:634-661 | the walk over the blocks meets no tag that disagrees (also lines 728-743) |
| TlsfPool.Pool.CheckList | ext/tlsf/tlsf.c:680-713 | no complaint about any list |
| TlsfPool.Pool.CheckHeap | ext/tlsf/tlsf.c:663-718 | the heap check returns 0 in every state that satisfies the invariant |
| TlsfPool.Pool.constructor | ext/tlsf/tlsf.c:593-609 | empty lists and bitmaps, the null block linked to itself; the count of used bytes is left as it was |
| TlsfPool.Pool.Format | ext/tlsf/tlsf.c:820-836 | one free block and the sentinel: the invariant holds |
| TlsfPool.Create | ext/tlsf/tlsf.c:771-839 | refuses exactly sizes out of bounds, wrapped differences included; else a valid pool of one free block |
| TlsfRuns.RunCalls | ext/tlsf/tlsf.c:845-991 | every run of allocations, resizes, frees and user writes keeps the invariant, with the heap check at 0 after each call, exactly the live pointers in use, and behind each of them every byte the user wrote and did not cut off |
| TlsfRuns.OneStore | ext/tlsf/tlsf.c:140-142 | a write is taken exactly when it is a word inside a live block, and then read back |
| TlsfRuns.FreeAll | ext/tlsf/tlsf.c:907-920 | freeing all live pointers restores one free block of the whole pool and a used count back at its start |
| TlsfRuns.Life | ext/tlsf/tlsf.c:771-991 | creating a pool, any run of calls, freeing what is left: again one free block of the pool's size, used count back at its start |
| TlsfEdges.HasList | ext/tlsf/tlsf.c:319-337 | a size has a list exactly when it is below the maximum, so a pool of exactly the maximum size, which is let in, has no list for its block (also lines 776-836) |
| TlsfEdges.Searchable | ext/tlsf/tlsf.c:338-347 | the search for a request stays inside the table exactly when the request is not one of the 2^26 - 1 sizes below the maximum (also lines 845-851) |
| TlsfEdges.ZeroCut | ext/tlsf/tlsf.c:453-472 | a block cut for a request adjusted to 0, as an aligned request of that kind is, does not tile the pool (also lines 853-905) |
| TlsfEdges.HugeRealloc | ext/tlsf/tlsf.c:935-991 | resizing a live block to the maximum size or more is not refused: the block stays smaller than asked, and is cut to nothing if a header fits; below the maximum the adjusted size is never 0 |
| TreeModel.CmpThrough | ext/minilibs/tree.c:32 | the comparison of keys is transitive (also lines 70) |
| TreeModel.InsertKeepsRules | ext/minilibs/tree.c:67-80 | insertion keeps the AA level rules; the root rises by one at most |
| TreeModel.InsertPlaces | ext/minilibs/tree.c:67-80 | in order, the entries after an insertion are the old ones with the new one behind every key up to its own |
| TreeModel.InsertKeepsOrder | ext/minilibs/tree.c:67-80 | so they stay in order |
| TreeModel.SortedIsStable | ext/minilibs/tree.c:67-80 | what a run of insertions leaves is in order, a rearrangement of what was inserted, and keeps equal keys in the order they came |
| TreeModel.SkewEntries | ext/minilibs/tree.c:44-53 | skew changes the shape, not the entries |
| TreeModel.SplitEntries | ext/minilibs/tree.c:55-65 | so does split |
| TreeModel.FindFinds | ext/minilibs/tree.c:28-42 | a lookup succeeds exactly when the key is present, with the value of an entry for it |
| TreeModel.Balanced | ext/minilibs/tree.c:44-80 | no path is longer than twice the logarithm of the number of entries plus one |
| TreeNodes.SkewNode | ext/minilibs/tree.c:44-53 | rotates in place as the model says, within the nodes of the tree |
| TreeNodes.SplitNode | ext/minilibs/tree.c:55-65 | rotates and raises in place as the model says |
| TreeNodes.Cell.constructor | ext/minilibs/tree.c:18-26 | a single node on level 1 |
| TreeNodes.InsertBelow | ext/minilibs/tree.c:70-74 | the recursive insertion on the side that the comparison names |
| TreeNodes.InsertNode | ext/minilibs/tree.c:67-80 | inserts in place as the model says, with one new node |
| TreeNodes.Lookup | ext/minilibs/tree.c:28-42 | finds what the model finds, in no more steps than the height |
| TreeNodes.InsertEntry | ext/minilibs/tree.c:67-80 | a proper tree stays proper with one entry more, in its place |
| TreeNodes.InsertAll | ext/minilibs/tree.c:67-80 | from the empty tree, every run of insertions gives a proper tree with exactly those entries in that order |
| TreeNodes.LookupEntry | ext/minilibs/tree.c:28-42 | finds exactly the keys that are there, in at most 2 log2(n + 1) steps |
| ScanCoverage.FillScanline | ext/nanosvg/nanosvgrast.h:771-796 | each pixel of the line gets floor(overlap * weight / 1024) of the span, nothing else is written |
| ScanCoverage.ShareInside | ext/nanosvg/nanosvgrast.h:780-794 | that share is what the three branches compute: partial ends, full middle, or one pixel |
| ScanCoverage.FillActiveEdges | ext/nanosvg/nanosvgrast.h:801-833 | each pixel gets the shares of all spans that the winding rule makes of the edges |
| ScanCoverage.SpansFit | ext/nanosvg/nanosvgrast.h:801-833 | between sorted edges the spans are disjoint: together they cover no more of a pixel than there is |
| ScanCoverage.SubsampleBudget | ext/nanosvg/nanosvgrast.h:999 | one subsample adds at most its weight to any pixel (also lines 1069-1070) |
| ScanEdges.Advance | ext/nanosvg/nanosvgrast.h:1013-1023 | edges that have ended leave, the others move on by their step |
| ScanEdges.Resort | ext/nanosvg/nanosvgrast.h:1026-1041 | the repeated passes end with the same edges, sorted |
| ScanEdges.ResortPass | ext/nanosvg/nanosvgrast.h:1027-1039 | one pass permutes the list, and changes nothing only if it is sorted |
| ScanEdges.SwapHelps | ext/nanosvg/nanosvgrast.h:1030-1037 | each swap leaves one wrongly ordered pair less, which is why they end |
| ScanEdges.InsertEdge | ext/nanosvg/nanosvgrast.h:1049-1063 | an edge inserted into a sorted list leaves it sorted |
| ScanEdges.Enter | ext/nanosvg/nanosvgrast.h:1044-1066 | exactly the edges that have started and not ended come in |
| ScanEdges.Step | ext/nanosvg/nanosvgrast.h:1013-1066 | one subsample's step of the list |
| ScanRaster.RowBudget | ext/nanosvg/nanosvgrast.h:999-1071 | n subsamples add at most 51 n to any pixel |
| ScanRaster.Rasterizer.CoverRow | ext/nanosvg/nanosvgrast.h:1003-1071 | after the five subsamples each byte of the line is the exact sum of its shares, never wrapped, and bare outside the reported range |
| ScanRaster.Rasterizer.RasterizeSortedEdges | ext/nanosvg/nanosvgrast.h:994-1080 | every pixel of the bitmap is the colour blended by its exact coverage over what was there; no byte outside the pixels of the lines changes |
| ScanRaster.RowStaysPremultiplied | ext/nanosvg/nanosvgrast.h:867-892 | premultiplied pixels stay premultiplied (also lines 1076) |
| ScanBlend.Div255Exact | ext/nanosvg/nanosvgrast.h:862-865 | the shift is the exact floor of a division by 255 on every product of two bytes |
| ScanBlend.BlendPremultiplied | ext/nanosvg/nanosvgrast.h:876-892 | blending keeps colour <= alpha <= 255 and no cast to a byte loses anything |
| ScanBlend.BlendEnds | ext/nanosvg/nanosvgrast.h:876-892 | nothing painted changes nothing; an opaque colour under full coverage replaces the pixel |
| ScanBlend.ScanlineSolid | ext/nanosvg/nanosvgrast.h:869-898 | each pixel in range is blended with its own coverage, the rest is untouched |
| ScanBlend.StraightFits | ext/nanosvg/nanosvgrast.h:1089-1095 | dividing the alpha out of a premultiplied pixel fits a byte |
| ScanBlend.StraightChannel | ext/nanosvg/nanosvgrast.h:1092-1094 | and multiplying it back returns each channel to within one |
| ScanBlend.UnpremultiplyRow | ext/nanosvg/nanosvgrast.h:1088-1097 | every pixel of a row is divided, the rest is untouched |
| BlobCache.Cache.Put | src/blobcache_file.c:415-488 | refused unless running; else the item records the put, its expiry capped when stored and not when renewed, other keys stand for what they did, the write is queued unless the item has the digest and size already; the key then stands for the new body exactly when that was no collision, unless its item came from an older index |
| BlobCache.ExpiredAtOnce | src/blobcache_file.c:446 | a body put with an age still to run is expired at once exactly when it is stored past 2^31 - 1 or renewed with a time that wraps (also lines 472-477, 526) |
| BlobCache.Cache.Touch | src/blobcache_file.c:444-450 | an item changes in what says nothing about its body (also lines 567-575) |
| BlobCache.Cache.SetItem | src/blobcache_file.c:463-485 | an item is made or made over, and the counted size follows |
| BlobCache.Cache.constructor | src/blobcache_file.c:966-996 | the cache starts with the table of the index on disk, over the files there; items that an older index has of keys stored since are taken as they come |
| BlobCache.Cache.CheckClock | src/blobcache_file.c:895-905 | writes are accepted once the clock looks right |
| BlobCache.Cache.Enqueue | src/blobcache_file.c:457-485 | the storing half: the write is queued behind the others and the item made or made over |
| BlobCache.Cache.FindItem | src/blobcache_file.c:437-439 | the place of a key in its chain, or that it is not there |
| BlobCache.Cache.Get | src/blobcache_file.c:494-609 | found exactly when the item is there, fresh enough, and queued or on disk at its length; body and type are the newest queued ones or what the file holds; both are those last stored unless the file was left behind by a failed or lost write or the item came from an older index; a failed read drops the item, and its file if the length is wrong |
| BlobCache.Cache.Serve | src/blobcache_file.c:557-609 | the item is touched, and the body fetched from the queue or the file |
| BlobCache.Cache.SearchQueue | src/blobcache_file.c:538-544 | the newest queued body for a key |
| BlobCache.Cache.Evict | src/blobcache_file.c:736-756 | when running, the item and its file are gone, and nothing else |
| BlobCache.Cache.FlushWrite | src/blobcache_file.c:922-941 | the head of the queue is written whole, or its file unlinked, or not opened and left, while the table may change around it |
| BlobCache.Cache.FlushDone | src/blobcache_file.c:942-952 | the written entry leaves the queue and the cache is pruned if it is too big; the files of pruned items are gone and all others stay |
| BlobCache.Cache.PruneToSize | src/blobcache_file.c:781-821 | the size is recounted; unimportant and least recently used items go first as long as any two access times are less than 2^31 apart, and no more than have to; exactly their files go with them; the index is saved |
| BlobCache.Cache.Unlink | src/blobcache_file.c:804-811 | items go from the first on, with their files, until the size is small enough |
| BlobCache.Cache.Rehash | src/blobcache_file.c:813-817 | the chains are made again of the items that are left |
| BlobCache.Cache.Collect | src/blobcache_file.c:793-799 | all items, chain by chain |
| BlobCache.Cache.SumSizes | src/blobcache_file.c:792-796 | their sizes added up |
| BlobFacts.InsertItem | src/blobcache_file.c:762-775 | one more item put in its place in the pruning order, if it and the others are that near |
| BlobCache.Cache.SaveIndex | src/blobcache_file.c:188-270 | the index file becomes the bytes of the items when there is anything to save, or part of them, or stays; only a whole write ends the need to save; a start from what is there is as good as the table but for what was stored since the last write |
| BlobCache.Cache.LoadIndex | src/blobcache_file.c:276-409 | the table built from the items of the file, and their total size |
| BlobCache.Cache.Drop | src/blobcache_file.c:550-554 | the failing end of a read removes the item but leaves its bytes counted |
| BlobFacts.PutKeeps | src/blobcache_file.c:457-485 | queueing a body keeps table, queue and disk together describing what was last put |
| BlobFacts.UnseenPut | src/blobcache_file.c:457-485 | while an index written before stands for everything but that key |
| BlobFacts.SameBody | src/blobcache_file.c:444-453 | a put finds its digest and size exactly when its body is the one that is there or collides with it, unless the item came from an older index |
| BlobFacts.DequeueKeeps | src/blobcache_file.c:942-947 | taking a written entry off the queue uncovers its file only where that file is the last body, gone or known to be left behind |
| BlobFacts.WriteKeeps | src/blobcache_file.c:922-941 | writing the head's file, or failing to, cannot be seen while it is queued |
| BlobFacts.ShrinkKeeps | src/blobcache_file.c:722-756 | items and files may go as long as those that stay keep their files (also lines 804-811) |
| BlobFacts.FewerFiles | src/blobcache_file.c:722-756 | and files may go from under any table, that of an older index included |
| BlobFacts.SavedKeeps | src/blobcache_file.c:188-270 | the table read back from a saved index stands for the same last bodies as the one that was saved (also lines 276-409) |
| BlobFacts.TornKeeps | src/blobcache_file.c:256-270 | and so is what is read from a part of such an index: nothing, or by a coincidence of digests the same (also lines 308-327) |
| BlobIndex.PartLoads | src/blobcache_file.c:308-356 | the first part of a file that loads does not load, or loads the same items |
| BlobFacts.QueueLost | src/blobcache_file.c:909 | writes still queued when the cache stops or crashes are lost, and exactly their keys may keep an older file or a part of the new one (also lines 953-954) |
| BlobFacts.ReadBack | src/blobcache_file.c:557-600 | a file of the expected length holds the content type and the body where they are read |
| BlobFacts.SortItems | src/blobcache_file.c:762-775 | the same items; sorted by importance and last access if any two are near enough for the 32-bit difference (also lines 803) |
| BlobFacts.CmpIsBefore | src/blobcache_file.c:762-775 | for 32-bit times the comparison is right about two items exactly when their importance differs or their times are within 2^31 |
| BlobFacts.CmpIsNoOrder | src/blobcache_file.c:762-775 | it errs on times 2^31 apart, and on times 0, 0x60000000 and 0xC0000000 goes round in a circle |
| BlobIndex.ItemReadAlone | src/blobcache_file.c:234-253 | an item read back from its bytes is the item, an empty etag having become none (also lines 378-403) |
| BlobIndex.FileRead | src/blobcache_file.c:212-261 | a written file passes the digest check and gives back the items in order, as many as the signed counter makes of their number (also lines 317-407) |
| BlobIndex.AllRead | src/blobcache_file.c:212 | which is all of them exactly when there are fewer than 2^31 (also lines 330-356) |
| BlobIndex.IndexRoundTrip | src/blobcache_file.c:212-261 | a table saved and loaded has no other items than before, and with fewer than 2^31 of them the same item for every key and the same total size (also lines 317-407) |
| BlobRuns.Run | src/blobcache_file.c:188-1005 | in every life of a cache, failing writes, failing index saves, restarts and crashes included, what is read is what was stored last under its key, body and type, unless its file was left behind or it was stored and not indexed before the cache went down; a body taken as already there is the one stored last or collides with it, with the second exception only |
| BlobRuns.RestartStep | src/blobcache_file.c:909-955 | a cache that is stopped and started again, its index saved or not, stands for the same bodies, those still queued and those stored since the index was written excepted (also lines 966-996) |
| BlobRuns.StartAgain | src/blobcache_file.c:966-996 | another cache starts from the index and the files that are there, with exactly these exceptions |
| BlobRuns.CrashStep | src/blobcache_file.c:922-941 | so does one after a crash, with a file cut off and others gone (also lines 966-996) |
| BlobRuns.OldBody | src/blobcache_file.c:922-947 | what was put last need not be what is read: a second body whose file cannot be opened leaves the first one to be found (also lines 494-609) |
| BlobRuns.OldIndex | src/blobcache_file.c:205-210 | nor need a body that a put finds there already be what is read: the index could not be saved after a second body, the cache is started again, a put of the first body is answered as already in, and a read gives the second (also lines 453-454, 953, 986) |

## Left out

- RegexParser.Parser.ParseRef: a reference to number 8 after seven groups is taken as one to no group, because the source then reads past its table (exactly these references, by RegexEighth.TestOfReference).
- Regex characters: a character is one array element of 32 bits, as in the source, which has no multi-byte decoding.
- RegexParser.Parser.LexCounts: does not model the overflow of the signed counters on very long digit strings, because the behaviour is undefined in the source.
- RegexProgram.Regcomp: a program that does not fit its buffer is reported as oversized instead of being written past its end.
- RegexProgram.UncutProgramIsCorrect: trees with a loop over a reference to a group that may be unset are not covered, because the program does not report their matches (RegexUnset.UnsetIsMissed, RegexEndless.LazyAnswers). That a group surely matched is computed from the tree, which is sufficient: whether it did is a matter of the subject, for which RegexUnset.LazyLoopAnswers and RegexUnset.GreedyLoopIsCut are exact at the loop.
- RegexProgram.AcceptedAnswers: a pattern with a look-ahead and a lazy loop over a reference is left open where some call is cut off; where none is it ends (RegexProgram.UncutProgramIsCorrect).
- Lazy counted repetition against its nested form: the order of results really differs, so there is no theorem.
- Regex: the debugging dump, and lengths beyond what memory can hold.
- Tasks: failure to create a thread, and allocation failure.
- TlsfPool.Pool.Malloc: asks the caller to stay clear of the sizes whose search leaves the table (exactly those of TlsfEdges.Searchable), because what the source reads there is outside the pool structure's bitmaps; the same holds where TlsfPool.Pool.Realloc has to move.
- TlsfPool.Pool.Memalign: asks the same of the size searched for, and, above the base alignment, for a request that is not adjusted to 0, because the source cuts such a block at 0 (TlsfEdges.ZeroCut).
- TlsfPool.Pool.Realloc: asks for a size below the maximum when a live block is resized, because the source cuts the block instead of refusing (TlsfEdges.HugeRealloc).
- TlsfPool.Create: asks for a pool size other than exactly the maximum, because the source then files the first block past the table (TlsfEdges.HasList).
- TLSF: the 32-bit configuration, the compiler-specific bit scans (only the portable ones are modelled), printing, tlsf_block_size and tlsf_used, which only read a field.
- TLSF: the two inner branches of realloc are separate methods (Resize, Move), memcpy is a method of its own, and so is the gap computation of memalign; otherwise the statements are those of the source.
- Addresses and words of the TLSF memory are unbounded numbers; only the count of used bytes wraps at 2^64.
- Tree: freeing, and allocation failure; the sentinel is a null reference, so its children are not nodes.
- Cache: SHA-1 and Murmur are functions given to the cache; a crash in the middle of writing the index is a torn save followed by a crash; clock, settings, notifications, clearing, metadata reads and the removal of stale files at start are not modelled.
- BlobCache.Cache.Get: the file read that follows the unlocked section is taken as one step with the locked part.
- BlobCache.Cache.LoadIndex: a file with a right digest whose items run past its end loads nothing, because the source would read past its buffer.
- Coverage: curve flattening, strokes, gradients, the defringing pass and the loop over rows around UnpremultiplyRow; slopes and positions of edges are real numbers, so rounding of floats is not modelled; running out of memory for an edge, and overflow of positions.
