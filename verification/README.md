# A model of the policy platform's rule language, attachment decision and delivery protocols

This project models, in Dafny, the parts of the policy administration platform whose correctness is hard to see from
reading one function, and proves what they promise. Every statement is over all inputs, all reachable states or all
runs of the part it is about. `dafny verify dfyconfig.toml` checks the whole project.

## What is modelled

**The rule expression language** (`Syntax`, `Lexer`, `LexerMeaning`, `Parser`, `ParserMachine`, `Grammar`,
`ParserSound`, `ParserComplete`, `ParserPositions`, `ParserReads`, `ParserErrors`, `Printer`, `Language`, `Numerals`).
The tokenizer and the recursive-descent parser are written twice: as recursive functions, and as the source has them,
with loops and with a cursor and a depth counter that all parsing functions share. The second is proved equal to the
first, and the first is proved sound and complete against a grammar given as derivation trees. From that follow
unambiguity, the exact set of trees any source can produce, the round trip through a printer that writes as few
parentheses as the precedences need, and that a refused source is blamed on the first token at which no expression can
go on.

**Evaluation and compilation** (`Values`, `Evaluator`, `EvaluationLaws`, `FunctionLaws`, `NonInterference`,
`Compiler`, `Sources`). Values are texts, numbers, booleans, nulls and references into a graph of shared arrays and
records, since equality ends in identity. One theorem, that evaluation cannot tell isomorphic contexts apart, gives
both the independence of an expression from everything it does not name and the safety of the attachment shortcut
below. Two modules of laws say what every operator and function computes, in terms of the values of its parts. The
memo table of compiled sources refines compiling.

**Form attachment** (`Snapshot`, `SnapshotProof`, `SnapshotGraph`, `SnapshotAgain`, `SnapshotExists`, `Coverages`,
`CoveragesMeaning`, `Triggers`, `TriggersProof`, `TriggersMeaning`). The bounded depth-first graph copier is a class
with the source's counters, ancestor set and sharing table. Its result is proved to be exactly an isomorphic copy of
the visible graph, and the values that have one are characterised. On top of it stand the suppress-then-match
decision, its independence of row order, its exact condition, and the shortcut for contexts already copied.

**The delivery protocols** (`Backoff`, `Outbox`, `OutboxMeaning`, `OutboxProtocol`, `OutboxFinality`, `OutboxWaiting`,
`Jobs`, `JobsMeaning`, `JobProtocol`, `JobFinality`, `Scheduler`, `SchedulerRuns`). Each SQL statement or transaction
is one atomic step on a table of rows. The classes run them as the workers do; the protocol modules let any number of
workers interleave those steps, crash anywhere, and lose or miss the report of any transaction. `TurnIsSteps` and
`IterationIsSteps` tie the two views together: a turn of a class, its claim included, is a sequence of protocol steps.
The finality modules say exactly in which states an outcome can still change.

**Kernels** (`Base32`, `Cache`, `CacheProof`, `CacheMeaning`, `Forecast`, `ValidationRules`, `ValidationProof`,
`ValidationMeaning`, `ScreenRules`, `ScreenProof`, `ScreenMeaning`). The Base32 codec in 32-bit words, canonical JSON
text, least squares, wildcard field paths with the rules that use them, and the screen evaluator.

The modules named `…Meaning` and `…Laws`, and `SchedulerRuns`, state their results in the terms of the inputs, without
the functions that the code is modelled by.

`Texts` and `Sequences` hold what several modules share.

## What turned out false, and the exact condition

* *Sent is final.* It is exactly while no dispatcher holds the message (`OutboxFinality.SentIsFinalExactly`); Failed is
  exactly while every holder was refused at its last attempt (`OutboxFinality.FailedIsFinalExactly`). Two runs break it
  under every setting: `OutboxProtocol.LateWriteUndoesSent`, where a write comes after the lease, and
  `OutboxFinality.UnreportedWriteUndoesSent`, where every write is in time but one takes effect and is reported as
  failed. `OutboxProtocol.OutcomesAreFinal` excludes both.
* *Succeeded is final.* It is exactly while no worker that holds the run has its event still to write or is about to
  write a failure (`JobFinality.SucceededIsFinalExactly`). `JobFinality.SuccessUndone` gives the two runs that break it:
  the separate insert of the event fails, or the update takes effect and is reported as failed.
* *A crashed worker's run is taken over.* The lock time is written and never read: a Running run stays so for ever
  exactly when no worker holds it (`JobFinality.RunningLastsExactly`), and `JobFinality.WorkerCrashAbandons` gets there.
* *A due schedule fires.* A tick goes through exactly if no due schedule has its next occurrence beyond the range of
  dates (`Scheduler.TickGoesThroughExactly`). The expression `interval:100000000d` is accepted and always refused
  (`Scheduler.AcceptedYetRefused`); the transaction then rolls back, and with it every other schedule of the tick
  (`Scheduler.RefusalHoldsUpOthers`), now and later (`Scheduler.RefusedForEver`).
* *A dotted name stands for a path.* It does exactly when no part holds a dot (`Compiler.DottedNameIsPath`); the
  tokenizer allows one between digits, and `Sources.NamesLoseParts` has two sources with different paths and one name.
* *A validation never replaces an error already found.* An error lasts exactly if it is not an empty message
  (`ScreenProof.StandingErrorsExactly`); `ScreenProof.EmptyMessageReplaced` is a screen where one is replaced.
* In `evaluateValidationRules` the branch for a path without stars and without entries cannot be taken
  (`ValidationProof.StarFreeOnce`).

## Model

| member | source | states |
|---|---|---|
| `Language.ParserIsGrammar` | packages/rules/src/expression.ts:105-249 | The parser accepts a token list as a given tree if and only if the grammar derives that tree from the same lexemes within the nesting limit. |
| `Language.GrammarUnambiguous` | packages/rules/src/expression.ts:105-249 | Lexemes have one tree: any two derivations of them, however deep, with every precedence and associativity choice, stand for the same tree. |
| `Language.RoundTrip` | packages/rules/src/expression.ts:62-249 | For every source the parser accepts, writing its tree with as few parentheses as the precedences need and parsing that text gives the same tree; no assumption on depth, since the rewritten text never nests deeper. |
| `Language.PrintedParses` | packages/rules/src/expression.ts:62-249 | Every writable tree whose minimal text nests within the limit parses back from that text, left-associative chains, single comparisons, `!`, `-` and `not in` included. |
| `Language.BuildableTrees` | packages/rules/src/expression.ts:105-249 | Exactly which trees any source can produce: the writable ones whose minimal text nests at most 40 deep. |
| `Language.EveryParseEndsWell` | packages/rules/src/expression.ts:62-249 | Every source gives a tree with fewer nodes than tokens, or an error whose position lies within the source. |
| `Language.AcceptedDerives` | packages/rules/src/expression.ts:105-249 | An accepted source has a derivation that spells exactly its tokens, the end token aside. |
| `ParserErrors.BlamedExactly` | packages/rules/src/expression.ts:105-249 | A refused token list is blamed on the first token at which no expression can go on: none begins with the tokens up to it, some begins with those before it; and a source that nests too deeply is blamed only after 40 openings. |
| `ParserReads.LocalOr` | packages/rules/src/expression.ts:105-249 | What is parsed from a token on, and how it is refused, depends only on the tokens up to the one the parser stops at, and unless it nests too deeply not on the depth. |
| `ParserSound.SoundOr` | packages/rules/src/expression.ts:128-135 | What the top nonterminal returns is derivable from exactly the tokens it consumed, within the nesting budget left. |
| `ParserComplete.CompleteOr` | packages/rules/src/expression.ts:128-135 | Whatever the grammar derives, followed by something that cannot continue it, the top nonterminal returns, consuming exactly that. |
| `ParserPositions.CallsStandInSource` | packages/rules/src/expression.ts:232 | Every call of a parsed tree carries the position of a token of the source. |
| `Parser.POr` | packages/rules/src/expression.ts:128-135 | Reading a disjunction: on success the cursor has moved on by at least one token and not passed the end token; on failure the error stands at a token from the start on. |
| `Parser.PAnd` | packages/rules/src/expression.ts:137-144 | Reading a conjunction: on success the cursor has moved on by at least one token and not passed the end token; on failure the error stands at a token from the start on. |
| `Parser.PNot` | packages/rules/src/expression.ts:146-152 | Reading a negation: on success the cursor has moved on by at least one token and not passed the end token; on failure the error stands at a token from the start on. |
| `Parser.PComparison` | packages/rules/src/expression.ts:154-172 | Reading at most one comparison, `in` or `not in`: on success the cursor has moved on by at least one token and not passed the end token; on failure the error stands at a token from the start on. |
| `Parser.PSum` | packages/rules/src/expression.ts:174-181 | Reading a sum: on success the cursor has moved on by at least one token and not passed the end token; on failure the error stands at a token from the start on. |
| `Parser.PProduct` | packages/rules/src/expression.ts:183-190 | Reading a product: on success the cursor has moved on by at least one token and not passed the end token; on failure the error stands at a token from the start on. |
| `Parser.PUnary` | packages/rules/src/expression.ts:192-198 | Reading a sign: on success the cursor has moved on by at least one token and not passed the end token; on failure the error stands at a token from the start on. |
| `Parser.PItems` | packages/rules/src/expression.ts:200-211 | Reading the items up to a closing bracket: on success the cursor has moved on by at least one token and not passed the end token; on failure the error stands at a token from the start on. |
| `Parser.PathLoop` | packages/rules/src/expression.ts:234-241 | Reading the rest of a path: on success the cursor has not gone back and not passed the end token; on failure the error stands at a token from the start on. |
| `Parser.PPrimary` | packages/rules/src/expression.ts:213-244 | Reading a primary: on success the cursor has moved on by at least one token and not passed the end token; on failure the error stands at a token from the start on. |
| `ParserMachine.Cursor.ParseOr` | packages/rules/src/expression.ts:128-135 | The parsing function with the shared mutable cursor and depth gives the answer and the new cursor of its specification, and leaves the depth as it found it, by an exception or not. |
| `ParserMachine.Cursor.ParseAnd` | packages/rules/src/expression.ts:137-144 | The parsing function with the shared mutable cursor and depth gives the answer and the new cursor of its specification, and leaves the depth as it found it, by an exception or not. |
| `ParserMachine.Cursor.ParseNot` | packages/rules/src/expression.ts:146-152 | The parsing function with the shared mutable cursor and depth gives the answer and the new cursor of its specification, and leaves the depth as it found it, by an exception or not. |
| `ParserMachine.Cursor.ParseComparison` | packages/rules/src/expression.ts:154-172 | The parsing function with the shared mutable cursor and depth gives the answer and the new cursor of its specification, and leaves the depth as it found it, by an exception or not. |
| `ParserMachine.Cursor.ParseSum` | packages/rules/src/expression.ts:174-181 | The parsing function with the shared mutable cursor and depth gives the answer and the new cursor of its specification, and leaves the depth as it found it, by an exception or not. |
| `ParserMachine.Cursor.ParseProduct` | packages/rules/src/expression.ts:183-190 | The parsing function with the shared mutable cursor and depth gives the answer and the new cursor of its specification, and leaves the depth as it found it, by an exception or not. |
| `ParserMachine.Cursor.ParseUnary` | packages/rules/src/expression.ts:192-198 | The parsing function with the shared mutable cursor and depth gives the answer and the new cursor of its specification, and leaves the depth as it found it, by an exception or not. |
| `ParserMachine.Cursor.ParseItems` | packages/rules/src/expression.ts:200-211 | The parsing function with the shared mutable cursor and depth gives the answer and the new cursor of its specification, and leaves the depth as it found it, by an exception or not. |
| `ParserMachine.Cursor.ParsePath` | packages/rules/src/expression.ts:234-241 | The parsing function with the shared mutable cursor and depth gives the answer and the new cursor of its specification, and leaves the depth as it found it. |
| `ParserMachine.Cursor.ParsePrimary` | packages/rules/src/expression.ts:213-244 | The parsing function with the shared mutable cursor and depth gives the answer and the new cursor of its specification, and leaves the depth as it found it, by an exception or not. |
| `ParserMachine.Parse` | packages/rules/src/expression.ts:105-249 | The whole parser, with its loops and shared state, answers what the specification proved against the grammar answers. |
| `Lexer.Tokenize` | packages/rules/src/expression.ts:62-103 | The tokenizer loop gives the token list or the error of its specification. |
| `Lexer.ReadQuoted` | packages/rules/src/expression.ts:77-88 | The loop that reads a quoted text, with its backslash escapes, gives the text and the end of its specification. |
| `Lexer.LexWithin` | packages/rules/src/expression.ts:62-103 | Tokens stand at increasing positions inside the source and end with one end token; a lexical error blames a character of the source. |
| `Lexer.LexRendered` | packages/rules/src/expression.ts:62-103 | Tokenizing the spelling of any list of spellable lexemes gives exactly that list. |
| `Lexer.LexedLexable` | packages/rules/src/expression.ts:62-103 | Whatever the tokenizer produces, some text spells; so nothing is lost by writing tokens out again. |
| `Numerals.NumberMeans` | packages/rules/src/expression.ts:215 | The number the parser makes of a numeral is the one the grammar gives it: its digits, over a ten for each digit after the point. |
| `Numerals.PointNumeral` | packages/rules/src/expression.ts:215 | A numeral with a point, times ten for each digit after it, is the whole number that its digits spell. |
| `Sources.WholeLiteral` | packages/rules/src/expression.ts:215 | A source of digits parses to the number they spell. |
| `Sources.PointLiteral` | packages/rules/src/expression.ts:215 | A source of digits, a point and digits parses to the number r for which r times ten for each digit after the point is what all the digits spell. |
| `LexerMeaning.ScanExactly` | packages/rules/src/expression.ts:71-99 | Which token is found at a character: a quoted text with its escapes, or the longest stretch from there that makes a number, a word or an operator. |
| `LexerMeaning.TokenizedExactly` | packages/rules/src/expression.ts:62-103 | A source is tokenized as the tokens that lie in it one after the other, from its start to its end, with nothing but white space between. |
| `LexerMeaning.RefusedExactly` | packages/rules/src/expression.ts:67-99 | A source is refused at the first character at which it cannot be read on, and with which of the two lexical errors. |
| `Lexer.CharactersExactly` | packages/rules/src/expression.ts:71-95 | By their codes: which characters are digits, start a word, and continue one. |
| `Lexer.SpacesExactly` | packages/rules/src/expression.ts:67 | By their codes: which characters are white space. |
| `NonInterference.RunRelated` | packages/rules/src/expression.ts:405-464 | Evaluation cannot tell isomorphic contexts apart: contexts that look alike along the paths an expression reads, in the lookup tables and in the pinned date give results alike up to the renaming of nodes. |
| `NonInterference.SameSightSameValue` | packages/rules/src/expression.ts:405-475 | Two contexts that agree on every path an expression reads, on `$tables` and on `$today` give it the same value. |
| `NonInterference.ReservedKeysUnnameable` | packages/rules/src/expression.ts:405-475 | No path of any parsed expression has a part that starts with `$`, so none names `$tables` or `$today`. |
| `EvaluationLaws.TruthExactly` | packages/rules/src/expression.ts:266-280 | A value counts as a condition exactly if it is not empty, false, the text false, or zero. |
| `EvaluationLaws.EqualsExactly` | packages/rules/src/expression.ts:282-295 | When two values are equal: empty ones unless one is a list, what reads as the same boolean if one is a boolean, as the same number if one is a number, and otherwise only the same text or object. |
| `EvaluationLaws.Logic` | packages/rules/src/expression.ts:424-434 | `!`, and the words for and and or, are the truth tables over what counts as false. |
| `EvaluationLaws.Equality` | packages/rules/src/expression.ts:438-441 | `==` and `!=` over any two trees. |
| `EvaluationLaws.EqualityTurns` | packages/rules/src/expression.ts:282-295 | Equality is symmetric. |
| `EvaluationLaws.Membership` | packages/rules/src/expression.ts:442-443 | `in` holds exactly if the right side is a list with an equal item. |
| `EvaluationLaws.NumbersCompare` | packages/rules/src/expression.ts:444-451 | Where both sides read as numbers a and b, `<` is a < b, `>` is b < a, and `<=` and `>=` are the negations of the other two. |
| `EvaluationLaws.TextsCompare` | packages/rules/src/expression.ts:297-302 | Texts not both read as numbers compare by the first character in which they differ. |
| `EvaluationLaws.OthersDoNotCompare` | packages/rules/src/expression.ts:444-451 | Other values stand in none of the four relations. |
| `EvaluationLaws.ExactlyOneHolds` | packages/rules/src/expression.ts:282-302 | Exactly one of less, equal and greater holds of numbers. |
| `EvaluationLaws.NumbersCombine` | packages/rules/src/expression.ts:424-461 | The four operations and the sign on values that read as numbers; dividing by zero is null. |
| `EvaluationLaws.Undoing` | packages/rules/src/expression.ts:424-461 | Subtraction undoes addition, division by anything but zero undoes multiplication, and the sign undoes itself. |
| `EvaluationLaws.OthersDoNotCombine` | packages/rules/src/expression.ts:424-461 | Arithmetic with anything not read as a number is null. |
| `EvaluationLaws.PathRead` | packages/rules/src/expression.ts:405-414 | A path gives what stands at its end when every value on the way is an array or record with the next part as own property, undefined as null; otherwise null. |
| `EvaluationLaws.ListHas` | packages/rules/src/expression.ts:410-411 | A list has its items under their decimal indices, its length, and no other own property. |
| `EvaluationLaws.RecordHas` | packages/rules/src/expression.ts:410-411 | A record has what stands under the name. |
| `FunctionLaws.Count` | packages/rules/src/expression.ts:341 | `count` is the number of items of a list and 0 of anything else. |
| `FunctionLaws.Len` | packages/rules/src/expression.ts:358 | `len` is that, and the number of characters of a text. |
| `FunctionLaws.SetOrEmpty` | packages/rules/src/expression.ts:356-357 | `isSet` and `isEmpty` say whether a value is empty. |
| `FunctionLaws.SumOfOne` | packages/rules/src/expression.ts:342-354 | `sum` over one item is its field read as a number, or 0; over no list or without a field name it is 0. |
| `FunctionLaws.SumAdds` | packages/rules/src/expression.ts:342-354 | `sum` adds over lists one after the other. |
| `FunctionLaws.Lookup` | packages/rules/src/expression.ts:328-338 | `lookup` gives the column of the first row whose key column equals the key, and null without such a row or column. |
| `FunctionLaws.NoLookup` | packages/rules/src/expression.ts:328-338 | Without a table, a key or texts to name them it is null. |
| `FunctionLaws.Minimum` | packages/rules/src/expression.ts:359 | `min` is one of the values read as numbers and no greater than any; null if one is not read so. |
| `FunctionLaws.Maximum` | packages/rules/src/expression.ts:360 | `max` likewise. |
| `FunctionLaws.Absolute` | packages/rules/src/expression.ts:361 | `abs` is the value or its opposite, not negative; `number` is the value as a number or null. |
| `FunctionLaws.Rounding` | packages/rules/src/expression.ts:362-372 | `round` is a whole number of units of 10^-p with the value at most half a unit below it and less than half above, p the digits asked for, whole and from 0 to 6. |
| `FunctionLaws.Cases` | packages/rules/src/expression.ts:373-374 | `lower` and `upper` change texts only. |
| `FunctionLaws.ContainsItem` | packages/rules/src/expression.ts:375-383 | `contains` of a list is whether an item is equal, of a text whether the other stands in it. |
| `FunctionLaws.StartsText` | packages/rules/src/expression.ts:384 | `startsWith` is whether the one text is the other with something after it. |
| `FunctionLaws.PinnedDay` | packages/rules/src/expression.ts:386-393 | `today` is the pinned date of the context if it has one, otherwise the runtime's. |
| `FunctionLaws.Days` | packages/rules/src/expression.ts:394-403 | `daysBetween` is the difference of the days of two dates, or null. |
| `Compiler.CheckedIsRunnable` | packages/rules/src/expression.ts:477-489 | The arity check passes exactly the trees on which every call has a number of values its function takes. |
| `Compiler.RefusalStands` | packages/rules/src/expression.ts:477-489 | A call refused by the arity check is blamed at a token of the source. |
| `Compiler.NameCollector.Collect` | packages/rules/src/expression.ts:466-475 | The walk that adds names to a growing set ends with exactly the dotted names of the paths the tree reads. |
| `Compiler.NameCollector.CollectAll` | packages/rules/src/expression.ts:466-475 | The same over a list of trees. |
| `Compiler.NamesExactly` | packages/rules/src/expression.ts:464-475 | The names of an expression are exactly those of the paths that stand anywhere in its tree. |
| `Compiler.DottedNameIsPath` | packages/rules/src/expression.ts:466-475 | A dotted name determines the path it was made of if and only if no part of the path holds a dot. |
| `Sources.NamesLoseParts` | packages/rules/src/expression.ts:234-241 | Two sources where it does not: `a.0.1` compiles to the path with the parts `a` and `0.1`, `a.0 .1` to that with `a`, `0` and `1`, and both list the same names. |
| `Sources.JoinedParsed` | packages/rules/src/expression.ts:71-76 | The tokenizer reads `0.1` as one number, so the path `a.0.1` has two parts. |
| `Sources.SpacedParsed` | packages/rules/src/expression.ts:234-241 | With a blank between them the digits are two parts of the path. |
| `FunctionLaws.CheckedExactly` | packages/rules/src/expression.ts:340-390 | How many values each of the functions takes, that no other name is one, and that the arity check passes exactly the calls with as many. |
| `Compiler.CompilesExactly` | packages/rules/src/expression.ts:491-514 | Exactly which sources compile, and to which tree: those not blank, of at most 1000 characters, that the grammar derives as that tree within the nesting limit, and whose calls have as many values as their functions take. |
| `Compiler.Memo.Compile` | packages/rules/src/expression.ts:491-514 | Compiling through the memo table always answers what compiling afresh answers; a new answer joins the table, which starts afresh with it if it held more than 2000, and failures are not remembered. |
| `Compiler.CompiledFaithfully` | packages/rules/src/expression.ts:491-514 | A compiled expression is of its source, not blank, at most 1000 characters, arity-checked and cannot name the reserved keys; every error stands within the source. |
| `Snapshot.Copier.Run` | packages/rules/src/form-attachment.ts:102-147 | The recursive copier, with its counters, ancestor set and sharing table as fields, gives the result and the memory of its specification and restores the ancestor set. |
| `Snapshot.Copier.RunObject` | packages/rules/src/form-attachment.ts:116-147 | The copy of one array or record, its loops included, against its specification. |
| `Snapshot.TakeSnapshot` | packages/rules/src/form-attachment.ts:93-154 | A whole snapshot, started with empty memory, against the specification. |
| `SnapshotProof.CopyKeeps` | packages/rules/src/form-attachment.ts:102-147 | What every step of the copy keeps: the memory stays sound and only grows, and what is returned mirrors what was given. |
| `SnapshotGraph.SnapshotIsCopy` | packages/rules/src/form-attachment.ts:93-154 | A successful snapshot copies exactly the nodes reachable by visible references, one to one, each as a mirror of its visible part, so that sharing is preserved and nothing else is made. |
| `SnapshotGraph.CycleRejected` | packages/rules/src/form-attachment.ts:93-154 | Any value from which a visible walk meets a node twice has no snapshot, without a bound on the length of the walk. |
| `SnapshotGraph.SnapshotIsSafe` | packages/rules/src/form-attachment.ts:93-154 | No node of the copy holds a forbidden name, and, copies being numbered apart from the source, none is a node of the source. |
| `SnapshotGraph.DigitsExactly` | packages/rules/src/form-attachment.ts:129-135 | The text counted for an index of an array is the number of its decimal digits. |
| `SnapshotGraph.PresentExactly` | packages/rules/src/form-attachment.ts:124-126 | The keys counted for an array are its slots that are not holes. |
| `SnapshotGraph.SnapshotCostsEdgesOnce` | packages/rules/src/form-attachment.ts:93-154 | Visits and text of a successful snapshot are exactly those of the value itself and of the visible edges and names of the reachable nodes, each node counted once however often it is shared; both are within their totals, and every reachable node passes every check. |
| `SnapshotExists.SnapshotExactly` | packages/rules/src/form-attachment.ts:93-154 | A value nested at most 64 deep has a snapshot if and only if every reachable node is clean (plain prototype, no visible accessor, no value without a copy, lists and names within their limits) and the visits and text, each node counted once, are within the totals. |
| `SnapshotGraph.TrailDescends` | packages/rules/src/form-attachment.ts:93-154 | Along any walk from a copied node all nodes are copied, each finished before the ones that lead to it; hence no walk repeats a node. |
| `SnapshotAgain.CopiedAgainIsSame` | packages/rules/src/form-attachment.ts:254-257 | Whatever the source, its snapshot and a snapshot of that are the same graph up to renaming, whenever the second succeeds. |
| `SnapshotAgain.SnapshotOfSnapshot` | packages/rules/src/form-attachment.ts:254-257 | The second does succeed, with as many visits and no more text, for a source without gaps in its arrays; and what a snapshot makes has none. |
| `SnapshotExists.CopiedAgainExactly` | packages/rules/src/form-attachment.ts:93-154 | For a source with gaps, whose snapshot is nested at most 64 deep, the second succeeds if and only if visits and text, each gap now counted as a null, are within the totals. |
| `Triggers.EvaluateFormTriggers` | packages/rules/src/form-attachment.ts:361-409 | The loops, the in-place sort and the flags of the decision answer what its specification answers. |
| `Triggers.Gather` | packages/rules/src/form-attachment.ts:387-408 | One pass over the sorted rules says whether any passes and lists the identifiers of those that do. |
| `TriggersProof.RowOrderIrrelevant` | packages/rules/src/form-attachment.ts:361-409 | For valid rows any permutation gives the same attach, reason and list of identifiers, with repeated identifiers and priorities too. |
| `TriggersProof.AttachesExactly` | packages/rules/src/form-attachment.ts:361-409 | A form attaches if and only if no active rule exists, or no active rule suppresses and some active rule matches; the identifiers listed are exactly those of the rules that decided, each once. |
| `TriggersMeaning.DecisionExactly` | packages/rules/src/form-attachment.ts:361-409 | Said of the rows and the context alone: without an active row the form attaches; otherwise it does not if some row's suppression expression is true, and does if some row is unconditional, lists a covered code, or has a true condition; the reason and the identifiers, each once and in order of priority and identifier, are those of the rows that decided. |
| `TriggersMeaning.RefusalExactly` | packages/rules/src/form-attachment.ts:361-380 | There is no decision for more than 1000 rows or if a row is invalid, and the first invalid row gives the reason. |
| `TriggersMeaning.RowExactly` | packages/rules/src/form-attachment.ts:312-380 | Which rows are skipped, which are valid, and how an invalid one is refused. |
| `TriggersMeaning.RuleExactly` | packages/rules/src/form-attachment.ts:312-402 | A valid row matches and suppresses exactly as its kind, its codes and its expressions say in the context. |
| `TriggersMeaning.ContextExactly` | packages/rules/src/form-attachment.ts:383 | Rows are judged in the caller's own context if that is known to be a snapshot, and otherwise in a snapshot of it, without which there is no decision. |
| `TriggersProof.SortedIdsAgree` | packages/rules/src/form-attachment.ts:382-408 | Sorting by priority, identifier and position lists the same identifiers wherever the rows stood. |
| `TriggersProof.DecidedAlike` | packages/rules/src/form-attachment.ts:361-409 | Isomorphic contexts decide alike. |
| `TriggersProof.ShortcutIsSafeExactly` | packages/rules/src/form-attachment.ts:383 | For a context that is a snapshot of anything, using it as it is and copying it again give the same answer if and only if there is no rule to judge, or the shortcut is not taken, or it can be copied again. |
| `TriggersProof.BuiltContextIsSafe` | packages/rules/src/form-attachment.ts:254-257 | For a built context, a snapshot of plain records and arrays put together from an earlier snapshot of anything, the two always agree. |
| `Coverages.NormalizeCoverages` | packages/rules/src/form-attachment.ts:166-186 | Fails exactly if some entry has no acceptable code; otherwise the last entry of a code counts and the codes listed are exactly the selected ones, sorted, each once. |
| `Coverages.SelectedCodes` | packages/rules/src/form-attachment.ts:184 | The selected codes and no others, in strict order. |
| `Coverages.ReflectedOnce` | packages/rules/src/form-attachment.ts:166-186 | The entries determine the coverages. |
| `CoveragesMeaning.TextEntries` | packages/rules/src/form-attachment.ts:176-177 | A text lists codes between commas and bars. |
| `CoveragesMeaning.ListEntries` | packages/rules/src/form-attachment.ts:178-179 | An array lists its texts and the codes of its records. |
| `CoveragesMeaning.CodeExactly` | packages/rules/src/form-attachment.ts:168-171 | A code counts in capitals and without blanks around it, and is accepted if it has one to a hundred capitals, digits, underscores and, not first, hyphens, and is not forbidden. |
| `CoveragesMeaning.SelectionExactly` | packages/rules/src/form-attachment.ts:172-174 | A coverage is selected by its own `selected` unless that is missing or null, otherwise by the item itself if that is a boolean, and otherwise always. |
| `Outbox.Dispatcher.DispatchOutboxRow` | server/src/asyncMessageWorker.ts:180-230 | One dispatch, over every way its push and its writes can go, leaves the table its specification says, and throws exactly if the failure write does. |
| `Outbox.Dispatcher.RunLoop` | server/src/asyncMessageWorker.ts:68-91 | A turn never overlaps itself, schedules the next one unless stopped, 25 milliseconds after work and after the polling interval otherwise, and changes the table only by its claim and its dispatches up to the first that throws. |
| `OutboxMeaning.DispatchExactly` | server/src/asyncMessageWorker.ts:180-230 | What a dispatch leaves of its row, field by field: Sent, Failed at the last attempt, or Retry after the wait of the attempt that is ending; every other row is as it was. |
| `OutboxMeaning.BatchExactly` | server/src/asyncMessageWorker.ts:79-87 | A batch is dispatched row by row up to and with the first dispatch of which neither success nor failure was reported. |
| `OutboxMeaning.RetryWaits` | server/src/asyncMessageWorker.ts:204-266 | The first retry waits for the base, and none longer than the maximum. |
| `OutboxMeaning.ClaimExactly` | server/src/asyncMessageWorker.ts:129-172 | A claim marks the rows it takes as Processing from now on and leaves the others. |
| `OutboxMeaning.ChoiceExactly` | server/src/asyncMessageWorker.ts:138-161 | What the claim query takes: rows that are due or whose lease has run out, with attempts left, of the tenant and not locked; what it leaves of these is no sooner than what fills the batch. |
| `OutboxProtocol.StepSafe` | server/src/asyncMessageWorker.ts:129-230 | What every step of any dispatcher keeps, crashes, takeovers, late and unreported writes included. |
| `OutboxProtocol.NoMessageIsLost` | server/src/asyncMessageWorker.ts:129-230 | In every reachable state every message ever inserted is there and is Sent, is Failed, or has attempts left and is claimable from a stated time on. |
| `OutboxProtocol.RecordsAreHonest` | server/src/asyncMessageWorker.ts:180-230 | Recorded attempts never exceed pushes or the maximum; Sent means the transport accepted the message; Failed means at least as many pushes as attempts were allowed. |
| `OutboxProtocol.StepLeased` | server/src/asyncMessageWorker.ts:119-230 | Under the lease discipline every step keeps that live holds know their row as it is and exclude each other. |
| `OutboxProtocol.OneLiveHolder` | server/src/asyncMessageWorker.ts:119-172 | Under the lease discipline at most one live dispatcher holds a message, and the row is Processing meanwhile. |
| `OutboxProtocol.OutcomesAreFinal` | server/src/asyncMessageWorker.ts:180-230 | In runs whose dispatchers write within their lease or never, and in which a write that reports an error had no effect, Sent and Failed rows never change again. |
| `OutboxProtocol.DispatchCountsOnce` | server/src/asyncMessageWorker.ts:180-230 | Under the lease discipline attempts grow by one with each completed dispatch of the message and by nothing else. |
| `OutboxProtocol.LateWriteUndoesSent` | server/src/asyncMessageWorker.ts:119-230 | Under every setting a run in which a late dispatcher turns a Sent message back into one to retry. |
| `OutboxProtocol.DispatchIsSteps` | server/src/asyncMessageWorker.ts:180-230 | The dispatch as the class runs it is a sequence of protocol steps with the same effect on the table. |
| `OutboxProtocol.ClaimIsStep` | server/src/asyncMessageWorker.ts:129-172 | Any choice of the claim query, as the class makes it, is an enabled claim of the protocol, with the same table and the tickets handed out as the new holds. |
| `OutboxProtocol.TurnIsSteps` | server/src/asyncMessageWorker.ts:68-91 | A whole turn, its claim and its dispatches up to the first that throws, is a sequence of protocol steps with the same effect on the table. |
| `OutboxFinality.SentIsFinalExactly` | server/src/asyncMessageWorker.ts:180-230 | In every safe state, so in every reachable one, a Sent row keeps its status in every run from there if and only if no dispatcher holds the message. |
| `OutboxFinality.FailedIsFinalExactly` | server/src/asyncMessageWorker.ts:180-230 | A Failed row does if and only if every dispatcher that still holds the message was refused at what it takes for the last attempt. |
| `OutboxFinality.UnreportedWriteUndoesSent` | server/src/asyncMessageWorker.ts:180-216 | Keeping to the leases is not enough: under every setting a run, all of its writes in time, in which an update to Sent takes effect, is reported as failed, and is overwritten by Retry. |
| `OutboxWaiting.BoundedWaiting` | server/src/asyncMessageWorker.ts:138-230 | With one dispatcher that completes its turns, a due message with r unfinished messages ordered before it is claimed within floor(r / batchSize) + 1 turns, whatever fails and whatever is inserted. |
| `OutboxWaiting.NoJumping` | server/src/asyncMessageWorker.ts:138-161 | And not sooner: with p eligible messages strictly before it, it is in none of the first floor(p / batchSize) claims. |
| `OutboxWaiting.PassedOver` | server/src/asyncMessageWorker.ts:138-216 | A turn that passes a due message over takes a full batch from those ahead of it and lets nobody in ahead. |
| `OutboxWaiting.TurnSettles` | server/src/asyncMessageWorker.ts:180-230 | After a turn a message is settled if it was picked, unchanged if it was not, and newly inserted otherwise. |
| `Backoff.SecondsDouble` | server/src/asyncMessageWorker.ts:262-266 | Each wait is twice the one before until the maximum is reached, and the maximum from then on. |
| `Backoff.FirstWait` | server/src/asyncMessageWorker.ts:262-266 | The first wait is the base, or the maximum if that is less. |
| `Jobs.JobQueue.EnqueueJob` | server/src/jobs/jobQueue.ts:44-72 | Enqueueing is idempotent on tenant and key: it creates a run exactly if there was none, and otherwise changes nothing and returns the one there is. |
| `Jobs.JobQueue.CompleteRun` | server/src/jobs/jobQueue.ts:161-178 | Two transactions, the run and then its event; it throws if either is not reported. |
| `Jobs.JobQueue.RetryOrDeadLetterRun` | server/src/jobs/jobQueue.ts:188-220 | Dead-letters exactly when the worker's copy has used its attempts; otherwise schedules the retry by the backoff. |
| `Jobs.JobQueue.ExecuteRun` | server/src/jobs/worker.ts:87-109 | One execution over every way its handler and transactions can go, an unknown job code included; it throws exactly if the failure path does. |
| `Jobs.JobQueue.ExecuteBatch` | server/src/jobs/worker.ts:81-84 | The runs of a batch in turn, up to the first execution that throws. |
| `Jobs.JobQueue.RetryDeadLetteredRun` | server/src/jobs/jobQueue.ts:227-244 | A new run for a dead-lettered one, whose row is left as it is; any other run is refused without effect. |
| `JobsMeaning.ExecutionExactly` | server/src/jobs/worker.ts:87-109 | What an execution leaves of its run, field by field, and exactly which events it adds; every other run is as it was. |
| `JobsMeaning.BatchExactly` | server/src/jobs/worker.ts:81-84 | A batch is executed run by run up to and with the first execution of which neither the success nor the failure was reported with its event. |
| `JobsMeaning.EventNamesState` | server/src/jobs/jobQueue.ts:161-220 | After an execution that returns, the last event names the state the run is left in. |
| `JobsMeaning.RetryWaits` | server/src/jobs/jobQueue.ts:188-220 | The first retry waits for the base, and none longer than the maximum. |
| `JobsMeaning.ClaimExactly` | server/src/jobs/jobQueue.ts:103-117 | A claim gives the runs it takes to the worker, counts an attempt and keeps the first start. |
| `JobsMeaning.ChoiceExactly` | server/src/jobs/jobQueue.ts:95-106 | What the claim query takes: waiting runs that are due, with attempts left, of the tenant and not locked; what it leaves of these is no sooner than what fills the limit. |
| `JobsMeaning.RequestExactly` | server/src/jobs/jobQueue.ts:44-72 | A new run waits from now on, with five attempts unless the request says otherwise. |
| `JobProtocol.StepSafe` | server/src/jobs/jobQueue.ts:81-220 | What every step of any worker keeps, crashes and failing or unreported transactions included. |
| `JobProtocol.RunsWithinLimits` | server/src/jobs/jobQueue.ts:81-220 | In every reachable state attempts stay within the maximum, a handler ran at most once per attempt, waiting runs have attempts left, Succeeded runs were served and dead-lettered ones used up their attempts or have an unknown code. |
| `JobProtocol.DueExactly` | server/src/jobs/jobQueue.ts:97-102 | A waiting run becomes due at some time if and only if it was allowed any attempts. |
| `JobProtocol.OneOwner` | server/src/jobs/jobQueue.ts:81-132 | No two workers may write to one run, and the row of a Running run names the one that may. |
| `JobProtocol.OnlyOwnerWrites` | server/src/jobs/jobQueue.ts:161-220 | A Running run changes only by a write of the worker its row names. |
| `JobProtocol.AbandonedForEver` | server/src/jobs/jobQueue.ts:95-117 | The lock time is never read: a Running run whose worker crashed stays Running for ever. |
| `JobProtocol.DeadLetteredForEver` | server/src/jobs/jobQueue.ts:188-220 | A dead-lettered run never changes again. |
| `JobProtocol.EventLostUndoesSuccess` | server/src/jobs/jobQueue.ts:161-220 | And if that insert fails, the next write of the worker undoes the success in every state: Retry, or DeadLettered at the last attempt. |
| `JobProtocol.KeysStayUnique` | server/src/jobs/jobQueue.ts:44-72 | No tenant ever has two runs with one idempotency key. |
| `JobProtocol.ExecutionIsSteps` | server/src/jobs/worker.ts:87-109 | The execution as the class runs it is a sequence of protocol steps with the same effect on the table. |
| `JobProtocol.ClaimIsStep` | server/src/jobs/jobQueue.ts:81-132 | Any choice of the claim query, as the class makes it, is an enabled claim of the protocol, with the same table and the runs handed out as the new holds. |
| `JobProtocol.IterationIsSteps` | server/src/jobs/worker.ts:81-109 | A claim and the execution of its batch, up to the first execution that throws, is a sequence of protocol steps with the same effect on the table. |
| `JobFinality.SucceededIsFinalExactly` | server/src/jobs/jobQueue.ts:161-220 | In every safe state, so in every reachable one, a Succeeded run keeps its status in every run from there if and only if no worker that holds it has its completion event still to write or is about to write a failure. |
| `JobFinality.SuccessUndone` | server/src/jobs/jobQueue.ts:161-220 | Both ways in which that fails, from the start: the insert of the event fails, or the update to Succeeded takes effect and is reported as failed; either ends in Retry. |
| `JobFinality.RunningLastsExactly` | server/src/jobs/jobQueue.ts:95-117 | A Running run stays Running in every run from there if and only if no worker holds it any more. |
| `JobFinality.WorkerCrashAbandons` | server/src/jobs/jobQueue.ts:81-132 | Enqueue, claim and crash lead there: that run is Running for ever. |
| `Scheduler.IntervalExactly` | server/src/jobs/scheduler.ts:21-40 | An expression is accepted as an interval if and only if, blanks around it aside, it is the word `interval:` in any case, digits and a unit in any case, and the product is positive and a safe integer; that product is the interval. |
| `Scheduler.LongIntervalAccepted` | server/src/jobs/scheduler.ts:21-40 | A hundred million days are accepted. |
| `Scheduler.NextIsLeast` | server/src/jobs/scheduler.ts:42-48 | The next occurrence is the least point of the grid strictly after both the last occurrence and now. |
| `Scheduler.SchedulerStore.RunSchedulerTick` | server/src/jobs/scheduler.ts:56-150 | One transaction over the due schedules: it applies all of them in order or, if one is refused or the commit fails, nothing; runsCreated is the number of schedules taken up whose run there was not, and invalidSchedules that of those whose expression is not accepted. |
| `Scheduler.SchedulerStore.TickedOne` | server/src/jobs/scheduler.ts:92-139 | The treatment of one due schedule, and whether it inserted a run: exactly if the expression is accepted and the key is new. |
| `SchedulerRuns.TickFiresExactly` | server/src/jobs/scheduler.ts:92-140 | After a tick that takes effect every schedule taken up has its run and is moved on to its first occurrence after now, or is disabled without one; every other schedule and every run is as it was, and there is no new run besides. |
| `SchedulerRuns.ChoiceExactly` | server/src/jobs/scheduler.ts:60-91 | What a tick takes up: enabled schedules of enabled jobs that are due, of the tenant and not locked, earliest first up to the limit. |
| `SchedulerRuns.ExpressionExactly` | server/src/jobs/scheduler.ts:92-96 | A schedule goes by its own expression, or if that is missing or empty by its job's default. |
| `SchedulerRuns.FiresOnTheGrid` | server/src/jobs/scheduler.ts:92-140 | Over any ticks by any workers the occurrences of a fixed interval are strictly increasing, congruent to the first, none after the latest tick, and at most floor((latest - first) / interval) + 1; and every occurrence from which the schedule was moved on is among them. |
| `SchedulerRuns.OneRunPerTick` | server/src/jobs/scheduler.ts:92-140 | A schedule ticked with an accepted expression has its run, and is not due at any time up to that tick: missed occurrences collapse into one run. |
| `SchedulerRuns.KeysOnce` | server/src/jobs/scheduler.ts:107-126 | No occurrence key is inserted twice, even for a schedule that was set back. |
| `Scheduler.TickGoesThroughExactly` | server/src/jobs/scheduler.ts:92-149 | A tick takes effect if and only if no due schedule has a next occurrence beyond the range of dates; one that does holds up all the others. |
| `Scheduler.RefusedForEver` | server/src/jobs/scheduler.ts:42-48 | Such a schedule is refused at every later tick too. |
| `Scheduler.AcceptedYetRefused` | server/src/jobs/scheduler.ts:42-48 | A due schedule with that accepted interval is refused at any time. |
| `Scheduler.RefusalHoldsUpOthers` | server/src/jobs/scheduler.ts:92-149 | A tick in 2023 that does nothing for a daily schedule in good order because such a one is due too. |
| `Base32.EncodeBase32` | server/src/lib/mfa.ts:68-84 | The loop over a 32-bit accumulator that is never masked writes exactly the bits of the bytes, filled with zeros to a whole digit; section 6 of RFC 4648 without padding. |
| `Base32.DecodeBase32` | server/src/lib/mfa.ts:86-105 | The loop reads exactly the whole bytes that the bits of the normalized text fill. |
| `Base32.RoundTrip` | server/src/lib/mfa.ts:68-105 | Decoding an encoding gives the bytes back, whatever their number. |
| `Base32.EncodingUnique` | server/src/lib/mfa.ts:68-84 | The encoding is determined by the bytes and has 8n/5 characters, rounded up. |
| `Base32.DecodedEncodesExactly` | server/src/lib/mfa.ts:68-105 | Encoding a decoded text gives the text back if and only if its spare bits are zeros and fewer than five. |
| `Base32.WholeGroups` | server/src/lib/mfa.ts:68-105 | On whole groups of five bytes and eight characters the two are mutual inverses. |
| `Base32.TypedCarelessly` | server/src/lib/mfa.ts:86-90 | Small letters and padding make no difference to the secret decoded. |
| `Base32.Normalized` | server/src/lib/mfa.ts:86-90 | What is decoded consists of characters of the alphabet only. |
| `Base32.AlphabetExactly` | server/src/lib/mfa.ts:68-105 | The alphabet in order: A to Z stand for 0 to 25, and 2 to 7 for 26 to 31. |
| `CacheProof.SharesTextExactly` | server/src/lib/cache.ts:130-142 | Two values are written as the same text if and only if they are equal up to the order of object keys and undefined as null. |
| `CacheProof.WritesCanon` | server/src/lib/cache.ts:130-142 | What is written is the plain text of the canonical form, keys in order at every level. |
| `CacheProof.CanonExactly` | server/src/lib/cache.ts:134-139 | Canonical forms coincide exactly for values that are the same. |
| `CacheProof.ValueCut` | server/src/lib/cache.ts:130-142 | A text begins with one value only: quoting, escapes, numerals, commas and brackets leave no second reading. |
| `Cache.SanitizeKeyPart` | server/src/lib/cache.ts:125-128 | A sanitized part is never empty and holds no white space and no colon. |
| `Cache.KeysShareExactly` | server/src/lib/cache.ts:114-118 | A key can be taken apart into its sanitized parts, so two lists of parts share a key exactly if they sanitize alike. |
| `CacheMeaning.QuotingUndone` | server/src/lib/cache.ts:132 | A JSON reader makes of a quoted text the text that was quoted; section 7 of RFC 8259. |
| `CacheMeaning.PlainQuoted` | server/src/lib/cache.ts:132 | Quoting changes nothing but quotes, backslashes and control characters. |
| `CacheMeaning.SanitizedExactly` | server/src/lib/cache.ts:125-128 | The words of a part are joined by underscores, whatever blanks and colons stand between them; a colon at an end counts as one after an empty word. |
| `CacheMeaning.NothingSanitized` | server/src/lib/cache.ts:125-128 | A missing or blank part stands as `na`. |
| `Forecast.LinearForecast` | server/src/lib/ai-ml.ts:493-519 | The loops compute, for every month of the horizon, the prediction of the fitted line, and the special values for no point and one point. |
| `Forecast.Fitted` | server/src/lib/ai-ml.ts:499-511 | The accumulating loop gives the slope and the intercept of the specification. |
| `Forecast.ResidualsBalance` | server/src/lib/ai-ml.ts:499-511 | The residuals of the fitted line sum to zero and are orthogonal to x. |
| `Forecast.FittedIsNearest` | server/src/lib/ai-ml.ts:499-511 | No line has a smaller squared error than the fitted one, and any other has a larger one. |
| `Forecast.AffineContinues` | server/src/lib/ai-ml.ts:493-519 | A non-negative history on a line is continued on that line exactly, but for rounding. |
| `Forecast.RoundingIsNear` | server/src/lib/ai-ml.ts:514-517 | Rounding moves a value by at most half a hundredth, keeps hundredths and keeps the order. |
| `Forecast.PredictedExactly` | server/src/lib/ai-ml.ts:505-517 | The forecast is the value of the line, or zero where that is negative, to the nearest hundredth, the greater of two; of a single month its own value. |
| `Forecast.CleanExactly` | server/src/lib/ai-ml.ts:493-497 | Items that are no numbers or are negative count as zero. |
| `ValidationRules.SplitFieldPath` | packages/rules/src/validation-rules.ts:173-185 | What is accepted as a field path has at least one part, and every part is a name, an index or a star and not a reserved name. |
| `ValidationProof.ResolvesExactly` | packages/rules/src/validation-rules.ts:187-200 | A valid pattern resolves to exactly the paths that replace its stars by indices of the lists reached there, each in one entry with the value the path reads, no two under one path text. |
| `ValidationProof.PathsCovered` | packages/rules/src/validation-rules.ts:187-200 | Exactly the covered paths are expanded. |
| `ValidationProof.PathsOnce` | packages/rules/src/validation-rules.ts:187-200 | Each of them once. |
| `ValidationProof.StarFreeOnce` | packages/rules/src/validation-rules.ts:187-200 | A path without stars resolves to exactly one entry, under the path itself. |
| `ValidationProof.RequiredExactly` | packages/rules/src/validation-rules.ts:273-290 | An applicable required rule with a valid path finds every blank its path covers, once each, and nothing else. |
| `ValidationProof.CollectedExactly` | packages/rules/src/validation-rules.ts:251-298 | The errors of an outcome are exactly what its rules of severity error find, and likewise the warnings. |
| `ValidationMeaning.OutcomeExactly` | packages/rules/src/validation-rules.ts:251-298 | The errors and warnings of the outcome, in order, are what each rule adds: nothing if the rule does not apply or its `appliesWhen` is not true; one finding with its own message if its condition is not true; one that it could not be evaluated if either does not compile; and, for a required rule, one for every blank that its path covers. |
| `ValidationMeaning.RuleExactly` | packages/rules/src/validation-rules.ts:263-296 | What one rule adds, said of the rule, the target and the facts. |
| `ValidationMeaning.AppliesExactly` | packages/rules/src/validation-rules.ts:238-248 | A rule applies exactly if none of the seven reasons against it holds. |
| `ValidationMeaning.PathReadExactly` | packages/rules/src/validation-rules.ts:173-185 | A field path with its indices after dots or in brackets is read as its parts if every one is a name, an index or a star and none reserved, and is otherwise refused. |
| `ValidationMeaning.ValueOfPath` | packages/rules/src/validation-rules.ts:187-200 | Reading along a path gives the value at its end, and undefined if it leads nowhere. |
| `ValidationRules.EvaluateValidationRules` | packages/rules/src/validation-rules.ts:251-298 | The loop over the rules, with its skips and its handling of rules that cannot be evaluated, collects exactly the findings of each rule in order. |
| `ValidationRules.AddRequired` | packages/rules/src/validation-rules.ts:276-288 | The branch for required fields adds exactly the findings its specification lists. |
| `ValidationRules.UnacknowledgedWarnings` | packages/rules/src/validation-rules.ts:300-303 | Exactly the warnings whose code was not acknowledged remain. |
| `ScreenRules.EvaluateScreen` | packages/rules/src/screen-rules.ts:182-239 | The nested loops over sections, fields and validations, with the list table they fill, give the state of the specification. |
| `ScreenRules.EvaluateFields` | packages/rules/src/screen-rules.ts:190-213 | The loop over the fields of a section leaves the visibility, the errors and the list table that the specification gives after those fields, later fields of a key replacing earlier ones. |
| `ScreenRules.CheckList` | packages/rules/src/screen-rules.ts:156-180 | A list field adds exactly one problem for its size, if it has one, and one for each wrong cell, each under its own key, and leaves the other errors. |
| `ScreenRules.Validate` | packages/rules/src/screen-rules.ts:215-236 | One validation adds its message where it is broken and no error stands yet: on the field, on each item, or on the form; one pinned to a hidden field adds none. |
| `ScreenProof.ErrorsAreShown` | packages/rules/src/screen-rules.ts:182-239 | With distinct field keys every error key names a visible field, or an item or column of a visible list that the quote holds. |
| `ScreenProof.FieldsAreExact` | packages/rules/src/screen-rules.ts:188-194 | A field is visible exactly if its section and its own condition allow it, and required only while visible; so nothing in a hidden section is either. |
| `ScreenProof.FieldErrorsExactly` | packages/rules/src/screen-rules.ts:190-212 | A field carries exactly the problem of its own value unless a validation adds one where it has none, and a hidden field carries none. |
| `ScreenMeaning.FieldErrorExactly` | packages/rules/src/screen-rules.ts:187-213 | A field is visible and required exactly as its conditions and its section's say; while visible its error is what is wrong with its value, if anything is, and a hidden field has none. |
| `ScreenMeaning.ValueExactly` | packages/rules/src/screen-rules.ts:141-153 | What is wrong with a value by type: no number, not whole, not an option, no yes or no, no date. |
| `ScreenMeaning.OwnErrorExactly` | packages/rules/src/screen-rules.ts:156-212 | The problem of a field, lists included: no list, too few items, with at least one when required, or too many. |
| `ScreenMeaning.CellErrorsExactly` | packages/rules/src/screen-rules.ts:169-179 | A list adds, under the key of each cell, what is wrong in that cell, and leaves the rest. |
| `ScreenMeaning.ConditionExactly` | packages/rules/src/expression.ts:521-529 | A blank condition is the default; another holds exactly if it compiles and its value does not count as false. |
| `ScreenMeaning.ItemContext` | packages/rules/src/screen-rules.ts:222 | In an item's context `item` and `index` are the item and its position, and everything else is as in the screen's. |
| `ScreenMeaning.ItemBreaksExactly` | packages/rules/src/screen-rules.ts:221-225 | A validation is broken by an item where its `when` holds and its rule does not. |
| `ScreenMeaning.StepErrorsExactly` | packages/rules/src/screen-rules.ts:229-237 | The errors of the step are the messages, in order, of the broken validations that name neither a field nor a list. |
| `ScreenMeaning.QuoteValueExactly` | packages/rules/src/screen-rules.ts:98-103 | A dotted path leads from the quote through its parts, or to nothing. |
| `ScreenProof.StandingErrorsExactly` | packages/rules/src/screen-rules.ts:215-236 | An error found by the fields or by any number of the validations lasts through whatever validations follow if and only if it is not an empty message. |
| `ScreenProof.ErrorsReachTheEnd` | packages/rules/src/screen-rules.ts:215-236 | So every error but an empty message, once found, is in the outcome of the screen. |
| `ScreenProof.EmptyMessageReplaced` | packages/rules/src/screen-rules.ts:215-236 | A screen on which a second validation replaces the first one's empty message. |
| `Texts.SplitUndoesJoinExactly` | packages/rules/src/expression.ts:466-475 | Splitting a joined text gives back its parts if and only if no part holds the separator. |
| `Texts.JoinUndoesSplit` | packages/rules/src/validation-rules.ts:176-182 | Joining always undoes splitting. |
| `Texts.TrimExactly` | server/src/jobs/scheduler.ts:21-40 | Trimming takes away exactly the blanks around a text. |
| `Texts.BeforeExactly` | packages/rules/src/expression.ts:297-302 | One text is before another exactly if it is a beginning of it or has the smaller character where they part. |
| `Texts.CasesExactly` | server/src/lib/mfa.ts:86-90 | The letters in both cases, place by place. |

## Left out

- Floating point: numbers are reals or integers; NaN, infinities, negative zero, overflow and rounding of doubles are not modelled, and non-finite input numbers only as a case the snapshot rejects.
- Characters are Unicode scalar values; lone surrogates and the lengths of texts in UTF-16 units are not modelled.
- `Number(text)`, `String(value)`, `Date.parse`, upper and lower case beyond ASCII and the clock are parameters (`Host`, `Conversions`) or arguments. Base32 input and schedule expressions use ASCII case only.
- Inherited properties, accessors and proxies: evaluation, field paths and screens read own data properties; the snapshot has accessors and foreign prototypes as cases of its source graph. Frozen copies are not distinguished from others.
- Array-index-like names of 2^32 - 1 and above count as indices.
- A lookup table whose key column is named by an array: it is named as a record is, not by the joined items.
- The sorted array of variable names of a compiled expression is a set.
- `forbidden`, the token scan of `compileSafe` and the parsing of coverage lists in rules are parameters of the trigger model; the assembly of the attachment context in `buildFormAttachmentContext` from its parts is not modelled, only its final snapshot and its coverages.
- Trigger rows are taken after their projection to the contract fields; that projection and its snapshot are not modelled.
- `buildScreenContext` and `buildValidationContext`: the contexts are given.
- The texts of error messages, except those of validation findings; log output.
- SQL beyond what the statements do to the rows: row locks are the set of rows skipped, `SKIP LOCKED` is modelled as any such set, and in the protocols a claim may take any claimable rows. Row-level security, tenants' roles, connections and isolation levels are not modelled.
- The transports, the webhook, e-mail and job handlers accept or fail in any way; their effects are not modelled.
- `last_error`, `sent_at`, `updated_at`, checkpoints and result payloads of rows, and the start, stop and timer of the job worker, which are those of the outbox worker.
- The retry key of `retryDeadLetteredRun` ends in the clock; here it is an argument.
- OutboxWaiting.BoundedWaiting: rows inserted after the first turn are taken to be stamped later than that turn's clock, so a transaction that began earlier and committed later is outside the statement.
- OutboxProtocol.OutcomesAreFinal: holds for dispatchers that write within their lease or never and for writes that report an error only when they had no effect; the source enforces neither, and OutboxFinality states what holds without them.
- SnapshotExists.SnapshotExactly: is about values nested at most 64 deep; a deeper one may still have a snapshot, if the walk that reaches a shared node first is short enough, which depends on the order of properties.
- SnapshotExists.CopiedAgainExactly: has the same bound on the nesting of the snapshot.
- SchedulerRuns.FiresOnTheGrid: is about a schedule whose expression and next occurrence only ticks change; administrators can set both.
- FunctionLaws.Lookup: is not about tables whose key column is named by an array.
- The job code, payload and attempts of the runs a tick inserts; `SchedulerRuns` says which runs, by their tenant, schedule and occurrence.
- Scheduler times are whole milliseconds, as the runtime reads them; the database keeps microseconds.
- ScreenProof.FieldErrorsExactly: needs field keys that are distinct and hold no dot, because the errors of list items share the same table under dotted keys.
- CacheProof.SharesTextExactly: values are JSON values with finite numbers, and the comparison of keys is taken to be a total order in which no two keys are equal; `localeCompare` may call distinct keys equal.
- Hashing of cache keys, TOTP codes and the rest of the multi-factor module; the heuristic scores, the premium timeline and the dashboard of the insights module.
- Administration of rules (`validationRuleProblems`, `pinnedFormTriggerRules`, `validateFormTriggerDefinition`), the alias table of transaction names, and the user interface.
