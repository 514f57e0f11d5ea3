# A verified model of the code-graph engine

The engine turns source files into a graph of declarations and references. A
native kernel walks each file once and hands its tables over as flat buffers;
a TypeScript runtime indexes, syncs and locks; Python tooling evaluates
routing rules. This project models the parts whose correctness is not visible
in any one function, and proves what they promise, for all inputs, runs and
schedules.

| files | what they model |
|---|---|
| `Chars`, `JsRegex`, `RegexLanguage`, `FnPtrPatterns` | bytes and JavaScript white space; a regex datatype with the prioritised-backtracking semantics of ECMAScript and its leftmost, non-overlapping `/g` driver; the language of an expression |
| `FnPtrSearch`, `FnPtrTypedefs`, `FnPtrSkeletons`, `FnPtrInitializers`, `FnPtrDispatch`, `FnPtrMacros`, `FnPtrLines`, `FnPtrHidden`, `InlineStructs`, `StructFields`, `StructShapes`, `FnPtrWritten` | the hand-rolled byte machines of the C function-pointer sweep, each held to its regex, and every regex written out |
| `StripComments`, `StripEquations` | the comment stripper every extent of the sweep depends on, and what it does to each kind of text |
| `DartWalk`, `DartCounts`, `DartHomes` | the Dart walker, which visits every sibling body twice, exact counts of what it records, and which row each record hangs from |
| `ScopeWalk`, `ScopeForest`, `ScopeSteps`, `ScopeTheorems`, `ScopeEmitter`, `ScopeFacts`, `JavaWalk`, `JavaForest`, `JavaFacts`, `GoWalk`, `GoFacts` | the Java and Go walkers over shared row tables, the containment forest they build, and exactly which rows, edges and references a file yields |
| `ValueRefs`, `FnRefs` | value references, by budgeted traversals with an explicit stack; function references |
| `WireBytes`, `Buffers`, `BufferDecode`, `BufferLayout`, `BufferFile`, `BufferTables` | the flat buffers, writer and reader, up to whole files |
| `StackGuard` | the stack-budget guard |
| `Rules`, `RuleGrammar`, `RuleTokens` | the routing rule language, from text to value |
| `Mutex`, `FileLock`, `Throttle` | locks and timers, under any scheduler |
| `RunScripts`, `RunProtocol`, `RunTheorems`, `RunTraces` | the index and sync runs, under any exception or kill: flowcharts, the engine held to them, what they leave behind, and which calls they make |
| `SubprojectScan`, `ConfigCache`, `Cutoff` | the bounded directory scan, the configuration cache, the six-month cutoff |

Code that changes state step by step is modelled by methods and classes whose
contracts tie the new state to a function of the old one; what the engine
promises is proved about those functions. The scanners' specification is the
regex itself: `Match` is the continuation-passing matcher of ECMAScript, and a
scanner's contract equates its output with the captures of that matcher,
driven over the text. `RegexLanguage` in turn holds the matcher to a
definition of the language that has no order of choices in it. For the Java
and Go walkers a syntax tree is first reduced to the declarations and
references it holds (`Items`), and the walkers are proved to emit exactly
those; every invariant is then a theorem about any list of items. What a file yields
is also stated without items, by plain recursion over its tree
(`JavaFacts.JavaFileExact`, `GoFacts.GoFileExact`).

Where the code and its comments disagree the model follows the code:

- Three regexes in the comments of `cfnptr.rs` (lines 422, 576 and 686) name
  only `struct`; the code below them (lines 434, 583 and 747) also takes
  `union`, and so do the patterns here.
- `directory.ts` line 211 calls the sub-project scan breadth-first; it is a
  depth-first walk.
- The reference `filePath` flag makes layout version 2 of the buffers, although
  the layout comment in `buffers.rs` is headed v1.
- `index.ts` lines 525-528 put the marker before any write; `beginGitIndexState`
  writes the git record first, and a marker that cannot be written is passed over.

Results that are not what a first reading suggests:

- The alias scan splits at newlines only, and agrees with the `/gm` pattern exactly
  if no line with a stray line terminator in it holds a match
  (`FnPtrHidden.AgreeExactly`); `FnPtrLines.StrayReturn` is a text where one does.
- A Dart reference comes from its innermost enclosing declaration alone only if that is
  a class or enum, or the only body around a call; everything else inside bodies is
  recorded again from further out (`DartHomes.InnermostExactly`,
  `DartHomes.RecordedTwice`).
- The rule parser accepts every sentence of its grammar only if no intent is
  called `not` or `(` (`RuleGrammar.SensibleIsNeeded`); the names `and` and
  `or` would do no harm.
- A list field survives the buffers exactly if no item holds a NUL
  (`BufferDecode.ListRoundTrip`), and a string put at offset 0xFFFFFFFF is lost
  (`BufferDecode.LostAtTheLimit`).
- Setting a flag pair to false after true leaves it true
  (`BufferDecode.FlagRoundTrip`).
- The cutoff of a date before July of year 1 is not a date
  (`Cutoff.ValidExactly`).
- An aborted full run leaves its marker exactly if its first three calls
  proceeded (`RunTheorems.AbortedStaysIndexing`); an old `complete` survives a
  run whose first call throws (`RunTheorems.OldCompleteSurvives`).
- A full run that recorded its verdict throws only if the drain of its checkpoint
  valve does (`RunTheorems.VerdictEndsExceptions`); a sync can close the index and
  still throw, in the git record that follows (`RunTheorems.SyncClosesThenThrows`).
- The `finally` blocks restore nothing if that drain throws: the lock stays taken
  and checkpoints stay put off (`RunTheorems.ExitExact`, `RunTheorems.DrainStrands`).

`dafny verify dfyconfig.toml` checks the whole project.

## Model

| member | source | states |
|---|---|---|
| `RegexLanguage.MatchesItsLanguage` | afyx-graph/engine/afyx-graph-kernel/src/cfnptr.rs:1-40 | the reference matcher finds a match from a position exactly if the expression's language, defined without priorities, spans some text from there, and the match it returns ends where the language allows |
| `JsRegex.StarCommits` | afyx-graph/engine/afyx-graph-kernel/src/cfnptr.rs:506-526 | a greedy run over one character class never has to give a character back, as long as what follows does nothing inside the run that it would not do at its end |
| `JsRegex.StarTakesAll` | afyx-graph/engine/afyx-graph-kernel/src/cfnptr.rs:136-155 | if what follows cannot start on a character of the class, `*` takes the whole run and drops its backtracking |
| `JsRegex.ApartNeverMeet` | afyx-graph/engine/afyx-graph-kernel/src/cfnptr.rs:101-132 | two character classes that are apart never match at the same position, whatever the text; a byte class and multi-byte white space included |
| `JsRegex.SkipMisses` | afyx-graph/engine/afyx-graph-kernel/src/cfnptr.rs:549-573 | positions where the pattern fails can be skipped without changing the sequence of non-overlapping `/g` matches |
| `FnPtrPatterns.WordsCommit` | afyx-graph/engine/afyx-graph-kernel/src/cfnptr.rs:352-381 | `(\w+\s+)*` never gives an iteration back: after it, what follows is matched at one position only |
| `FnPtrPatterns.SpacesBeforeOptional` | afyx-graph/engine/afyx-graph-kernel/src/cfnptr.rs:545-573 | white space before an optional bracket is taken with it or left to what follows, with the same result as the regex |
| `FnPtrPatterns.BracketMatches` | afyx-graph/engine/afyx-graph-kernel/src/cfnptr.rs:528-543 | a bracketed span matches exactly where the scanner's one look for the closing bracket says |
| `FnPtrSearch.FindBytes` | afyx-graph/engine/afyx-graph-kernel/src/cfnptr.rs:161-180 | the least position from the start at which the needle occurs, and none exactly if it never does |
| `FnPtrSearch.FindWord` | afyx-graph/engine/afyx-graph-kernel/src/cfnptr.rs:187-206 | the least position at which the word stands with a boundary before it |
| `FnPtrSearch.KeywordSkips` | afyx-graph/engine/afyx-graph-kernel/src/cfnptr.rs:187-206 | jumping to the next occurrence of the keyword loses no match of a pattern that starts with it |
| `FnPtrSearch.BracketSpan` | afyx-graph/engine/afyx-graph-kernel/src/cfnptr.rs:530-543 | the end of `[…]` where it opens here and closes, as the regex matches it |
| `FnPtrSearch.SubscriptSpan` | afyx-graph/engine/afyx-graph-kernel/src/cfnptr.rs:896-909 | the end of a non-empty subscript, as the regex matches it |
| `FnPtrTypedefs.FnptrParenTail` | afyx-graph/engine/afyx-graph-kernel/src/cfnptr.rs:305-335 | capture and end of the highest-priority match of the parenthesised pointer tail, for every text |
| `FnPtrTypedefs.LazyTail` | afyx-graph/engine/afyx-graph-kernel/src/cfnptr.rs:353-381 | the first parenthesis whose tail matches is what the lazy `[^;]*?` finds |
| `FnPtrTypedefs.ScanFnptrTypedefs` | afyx-graph/engine/afyx-graph-kernel/src/cfnptr.rs:353-381 | exactly the first captures of the typedef pattern's leftmost, non-overlapping matches |
| `FnPtrTypedefs.FirstCalledName` | afyx-graph/engine/afyx-graph-kernel/src/cfnptr.rs:386-420 | the first name followed by an opening parenthesis, as the regex's leftmost match gives it |
| `FnPtrTypedefs.ScanFntypeTypedefs` | afyx-graph/engine/afyx-graph-kernel/src/cfnptr.rs:386-420 | exactly the names of the function-type typedef statements, keyword filter included, resuming after each statement |
| `FnPtrSkeletons.IterationsBacktrack` | afyx-graph/engine/afyx-graph-kernel/src/cfnptr.rs:501-526 | `(?:word sep)*` followed by anything: the regex's result is the last success over the positions the stack holds |
| `FnPtrSkeletons.NoSecondWord` | afyx-graph/engine/afyx-graph-kernel/src/cfnptr.rs:98-98 | at most one word of a list with distinct starts can match at a position |
| `FnPtrSkeletons.AltOfMatches` | afyx-graph/engine/afyx-graph-kernel/src/cfnptr.rs:506-526 | an alternation of literal words is decided by the first word that stands there |
| `FnPtrSkeletons.WordPositions` | afyx-graph/engine/afyx-graph-kernel/src/cfnptr.rs:506-526 | the stack of positions between modifiers is exactly the positions the regex's iterations can stop at, in order |
| `FnPtrInitializers.InitDeclaration` | afyx-graph/engine/afyx-graph-kernel/src/cfnptr.rs:592-633 | from a position: exactly the regex's declaration up to `= {`, its type name and its end |
| `FnPtrInitializers.TagBacktracks` | afyx-graph/engine/afyx-graph-kernel/src/cfnptr.rs:579-600 | the optional `struct`/`union` keyword is a real choice: first with it, then without |
| `FnPtrInitializers.InitBody` | afyx-graph/engine/afyx-graph-kernel/src/cfnptr.rs:579-633 | modifier count and tag keyword are the only dimensions to retry: the result is the highest-priority match of the whole initializer body |
| `FnPtrInitializers.TableBody` | afyx-graph/engine/afyx-graph-kernel/src/cfnptr.rs:638-683 | the same for the array-table body |
| `FnPtrInitializers.AnchoredMatches` | afyx-graph/engine/afyx-graph-kernel/src/cfnptr.rs:549-573 | the anchored pattern is the body at the start of the text, or right after `;`, `{` or `}` |
| `FnPtrInitializers.ScanAnchored` | afyx-graph/engine/afyx-graph-kernel/src/cfnptr.rs:549-573 | for both skeletons: exactly the tokens of the `/g` matches, with resumption at each match's end |
| `FnPtrDispatch.FieldAssignAt` | afyx-graph/engine/afyx-graph-kernel/src/cfnptr.rs:819-843 | field and value of the highest-priority match from a position |
| `FnPtrDispatch.ScanFieldAssign` | afyx-graph/engine/afyx-graph-kernel/src/cfnptr.rs:786-805 | exactly the pairs of the `/g` matches, in order |
| `FnPtrDispatch.CloseCallTail` | afyx-graph/engine/afyx-graph-kernel/src/cfnptr.rs:339-348 | the closing parenthesis and call after a field, as the regex matches them |
| `FnPtrDispatch.SegmentBlocksCall` | afyx-graph/engine/afyx-graph-kernel/src/cfnptr.rs:850-892 | where a further segment follows, the call tail cannot match: only the last greedy segment can succeed |
| `FnPtrDispatch.SegmentsCommit` | afyx-graph/engine/afyx-graph-kernel/src/cfnptr.rs:850-892 | so the whole segment loop commits to its last position |
| `FnPtrDispatch.SegmentEnds` | afyx-graph/engine/afyx-graph-kernel/src/cfnptr.rs:850-892 | the segment ends the scanner collects are those of the greedy loop |
| `FnPtrDispatch.DispatchAt` | afyx-graph/engine/afyx-graph-kernel/src/cfnptr.rs:850-892 | capture and end of the highest-priority dispatch match from a position |
| `FnPtrDispatch.ScanDispatch` | afyx-graph/engine/afyx-graph-kernel/src/cfnptr.rs:850-892 | exactly the field names of the dispatch pattern's `/g` matches |
| `FnPtrDispatch.ArrayDispatchAt` | afyx-graph/engine/afyx-graph-kernel/src/cfnptr.rs:919-953 | capture and end of the highest-priority array-dispatch match, boundary and dereference prefixes included |
| `FnPtrDispatch.ScanArrayDispatch` | afyx-graph/engine/afyx-graph-kernel/src/cfnptr.rs:919-953 | exactly the table names of the array-dispatch pattern's `/g` matches |
| `FnPtrMacros.AliasLine` | afyx-graph/engine/afyx-graph-kernel/src/cfnptr.rs:723-780 | for one line: the alias name exactly if the anchored pattern matches the line |
| `FnPtrMacros.JoinLines` | afyx-graph/engine/afyx-graph-kernel/src/cfnptr.rs:687-709 | the text with every match of `\\\r?\n` replaced by a space |
| `FnPtrMacros.ScanAliasNames` | afyx-graph/engine/afyx-graph-kernel/src/cfnptr.rs:687-714 | the aliases of the joined text, line by line, as the anchored pattern matches each line |
| `FnPtrLines.MatchInLine` | afyx-graph/engine/afyx-graph-kernel/src/cfnptr.rs:709-713 | a pattern that cannot take a newline does the same inside a line of a text, m flag and captures included, as on the line alone |
| `FnPtrHidden.AgreeExactly` | afyx-graph/engine/afyx-graph-kernel/src/cfnptr.rs:685-714 | the aliases by lines are exactly those of the `/gm` matches over the whole text if and only if no untidy line, one with an exotic line terminator in it, holds a match |
| `FnPtrHidden.HiddenCounts` | afyx-graph/engine/afyx-graph-kernel/src/cfnptr.rs:685-714 | otherwise the scan by lines collects strictly fewer |
| `FnPtrHidden.MatchedIsTidy` | afyx-graph/engine/afyx-graph-kernel/src/cfnptr.rs:709-713 | on an untidy line the scan declares nothing: the line pattern takes ASCII up to the line end, so a line it matches is tidy |
| `FnPtrHidden.LinesAreMatches` | afyx-graph/engine/afyx-graph-kernel/src/cfnptr.rs:685-714 | so the two agree on every text of tidy lines, carriage returns before newlines included |
| `FnPtrLines.StrayReturn` | afyx-graph/engine/afyx-graph-kernel/src/cfnptr.rs:685-714 | a stray carriage return makes them differ: JavaScript starts a line there, the scan does not |
| `FnPtrMacros.DirectiveAt` | afyx-graph/engine/afyx-graph-kernel/src/cfnptr.rs:956-982 | the quoted path of an include directive at a `#`, as the regex matches it |
| `FnPtrMacros.ScanIncludes` | afyx-graph/engine/afyx-graph-kernel/src/cfnptr.rs:956-982 | exactly the quoted include paths of the `/g` matches over the raw text |
| `FnPtrWritten.SpaceCharacters` | afyx-graph/engine/afyx-graph-kernel/src/cfnptr.rs:14-40 | `\s` at a character of the basic plane is the whole UTF-8 encoding of one of the 25 listed code points, and nothing at any other |
| `FnPtrWritten.TypedefPatterns` | afyx-graph/engine/afyx-graph-kernel/src/cfnptr.rs:301-420 | the typedef patterns, written out byte by byte |
| `FnPtrWritten.TypeNamesAre` | afyx-graph/engine/afyx-graph-kernel/src/cfnptr.rs:386-420 | the name a function-type statement yields: none with a pointer declarator in it, else the first called name unless it is a C keyword |
| `FnPtrWritten.InitializerPatterns` | afyx-graph/engine/afyx-graph-kernel/src/cfnptr.rs:575-683 | the initializer and table patterns, their anchor and the tokens read off a match, written out |
| `FnPtrWritten.DispatchPatterns` | afyx-graph/engine/afyx-graph-kernel/src/cfnptr.rs:786-953 | the assignment and dispatch patterns and the groups read off a match, written out |
| `FnPtrWritten.LinePatterns` | afyx-graph/engine/afyx-graph-kernel/src/cfnptr.rs:685-982 | the alias, include and line-continuation patterns, written out |
| `FnPtrWritten.StructPatterns` | afyx-graph/engine/afyx-graph-kernel/src/cfnptr.rs:422-1132 | the field and inline-struct patterns, written out |
| `StripComments.StripC` | afyx-graph/engine/afyx-graph-kernel/src/cfnptr.rs:210-267 | the stripper computes the token-wise specification: comments blanked, everything else, string interiors included, copied verbatim |
| `StripComments.EmitBlank` | afyx-graph/engine/afyx-graph-kernel/src/cfnptr.rs:271-297 | blanking emits one space per UTF-16 unit and keeps newlines |
| `StripComments.StripIdempotent` | afyx-graph/engine/afyx-graph-kernel/src/cfnptr.rs:200-267 | stripping stripped text changes nothing, for any bytes |
| `StripComments.StripIsPerByte` | afyx-graph/engine/afyx-graph-kernel/src/cfnptr.rs:200-297 | on valid UTF-8 the stripper agrees with a byte-at-a-time state machine that knows nothing of tokens |
| `StripComments.StripKeepsShape` | afyx-graph/engine/afyx-graph-kernel/src/cfnptr.rs:200-297 | on valid UTF-8 the UTF-16 length and the UTF-16 position of every newline are unchanged |
| `StripEquations.StringsStay` | afyx-graph/engine/afyx-graph-kernel/src/cfnptr.rs:244-262 | bytes 0x22 and 0x60 open a string, copied verbatim to its closing byte, whatever it holds, escapes included; a newline ends a 0x22 string and not a 0x60 one; an open one reaches the end of the text |
| `StripEquations.StripSplits` | afyx-graph/engine/afyx-graph-kernel/src/cfnptr.rs:210-267 | text that ends outside comments and strings, by a reader of single bytes, is stripped apart from what follows |
| `StripEquations.StringsStayAnywhere` | afyx-graph/engine/afyx-graph-kernel/src/cfnptr.rs:244-262 | so a string stays verbatim after any such text |
| `StripEquations.PlainByteStays` | afyx-graph/engine/afyx-graph-kernel/src/cfnptr.rs:210-267 | every other byte that opens no comment is copied |
| `StripEquations.ApostropheOpensNothing` | afyx-graph/engine/afyx-graph-kernel/src/cfnptr.rs:200-203 | the apostrophe 0x27 opens nothing |
| `StripEquations.LineCommentGoes` | afyx-graph/engine/afyx-graph-kernel/src/cfnptr.rs:236-243 | from `//` to the newline everything is blanked |
| `StripEquations.BlockCommentGoes` | afyx-graph/engine/afyx-graph-kernel/src/cfnptr.rs:223-235 | from `/*` to the first `*/` everything is blanked |
| `StripEquations.OpenCommentGoes` | afyx-graph/engine/afyx-graph-kernel/src/cfnptr.rs:223-235 | to the end of the text if it never closes |
| `StripEquations.CharacterBlanks` | afyx-graph/engine/afyx-graph-kernel/src/cfnptr.rs:271-297 | a blanked character leaves one space, two if it takes four bytes, and a newline itself |
| `StructFields.MatchBrace` | afyx-graph/engine/afyx-graph-kernel/src/cfnptr.rs:482-499 | the least index at which the balance from the opening brace is zero again, and none exactly if it never is |
| `StructFields.MatchingBraceIsLeast` | afyx-graph/engine/afyx-graph-kernel/src/cfnptr.rs:482-499 | no earlier position closes the brace |
| `StructFields.SplitTopLevel` | afyx-graph/engine/afyx-graph-kernel/src/cfnptr.rs:987-1004 | the loop returns the cuts at depth-zero separators |
| `StructFields.SplitRejoins` | afyx-graph/engine/afyx-graph-kernel/src/cfnptr.rs:987-1004 | the pieces joined by the separator give the body back |
| `StructFields.PiecesAreWhole` | afyx-graph/engine/afyx-graph-kernel/src/cfnptr.rs:987-1004 | no piece holds a separator at depth zero |
| `StructFields.JswsTrim` | afyx-graph/engine/afyx-graph-kernel/src/cfnptr.rs:1007-1030 | both ends trimmed of JavaScript white space, one to three bytes a character |
| `StructFields.TrimmedExact` | afyx-graph/engine/afyx-graph-kernel/src/cfnptr.rs:1007-1030 | what is left neither begins nor ends with JavaScript white space, and everything cut off is white space |
| `StructFields.FirstTyped` | afyx-graph/engine/afyx-graph-kernel/src/cfnptr.rs:1035-1064 | type and name of the leftmost typed match in a part |
| `StructFields.FnptrDecl` | afyx-graph/engine/afyx-graph-kernel/src/cfnptr.rs:1067-1078 | the name of the leftmost function-pointer declarator in a part |
| `StructFields.LaterName` | afyx-graph/engine/afyx-graph-kernel/src/cfnptr.rs:1081-1132 | the last identifier of a later comma part, as its regex finds it |
| `StructFields.ParseStructFieldsRaw` | afyx-graph/engine/afyx-graph-kernel/src/cfnptr.rs:1081-1132 | the fields of a struct body, declaration by declaration and part by part |
| `StructFields.FieldsNumbered` | afyx-graph/engine/afyx-graph-kernel/src/cfnptr.rs:1081-1132 | the emitted fields carry the indices 0 to n-1 in order, n being the comma parts over all declarations that are not blank |
| `StructShapes.TypeIsShared` | afyx-graph/engine/afyx-graph-kernel/src/cfnptr.rs:1081-1132 | for any words, `type first, *later;` declares both fields with the type, in that order |
| `StructShapes.PointerDeclares` | afyx-graph/engine/afyx-graph-kernel/src/cfnptr.rs:1067-1114 | `type (*name)();` declares one function pointer of that name and no type |
| `StructShapes.BracketBytes` | afyx-graph/engine/afyx-graph-kernel/src/cfnptr.rs:482-1004 | the bytes that nest and the braces that bound a body, written out |
| `InlineStructs.HeadMatches` | afyx-graph/engine/afyx-graph-kernel/src/cfnptr.rs:432-479 | the inline-struct head at a position, `struct` or `union`, as the regex matches it |
| `InlineStructs.ScanInlineStructs` | afyx-graph/engine/afyx-graph-kernel/src/cfnptr.rs:432-479 | the facts of exactly the `/g` matches: tags, field types, and whether any field is a function pointer |
| `InlineStructs.TypesStep` | afyx-graph/engine/afyx-graph-kernel/src/cfnptr.rs:467-476 | which field types are kept: those of named fields that are no function pointers and have one; and when a struct counts as holding a pointer |
| `DartWalk.Walker.WalkFunctionBody` | afyx-graph/engine/afyx-graph-kernel/src/dart.rs:1246-1278 | the body walk of the mutable walker is the specified state change, calls, `new` expressions and references to static members included, and ends although a signature's walk goes on to its sibling |
| `DartWalk.Walker.WalkNode` | afyx-graph/engine/afyx-graph-kernel/src/dart.rs:598-668 | the enclosing walk is the specified state change, every branch of the dispatcher included |
| `DartWalk.Walker.DeclareEnum` | afyx-graph/engine/afyx-graph-kernel/src/dart.rs:805-836 | an enum with a body: row, scope, constants as members with their arguments not walked, everything else visited, scope left; without a body nothing |
| `DartWalk.Walker.DeclareImport` | afyx-graph/engine/afyx-graph-kernel/src/dart.rs:863-903 | an import: its row and a reference from the enclosing scope, or nothing without a uri |
| `DartWalk.Walker.DeclareFunction` | afyx-graph/engine/afyx-graph-kernel/src/dart.rs:672-722 | a function: row, scope, its body, scope left; anonymous and unnamed constructors only walk the body |
| `DartWalk.Walker.DeclareMethod` | afyx-graph/engine/afyx-graph-kernel/src/dart.rs:724-770 | a method inside a class; outside one it is a function |
| `DartWalk.Walker.MakeNode` | afyx-graph/engine/afyx-graph-kernel/src/dart.rs:263-363 | one row and one containment edge from the top of the stack, and nothing for an empty name |
| `DartWalk.AllKeepStack` | afyx-graph/engine/afyx-graph-kernel/src/dart.rs:598-668 | every visit leaves the scope stack as it found it |
| `DartCounts.DoubleWalkCounts` | afyx-graph/engine/afyx-graph-kernel/src/dart.rs:598-770 | in any Dart file, enums, aliases and imports included, a call and a static-member reference below e function bodies are recorded 2^e - 1 times, a `new` expression and a declaration 2^e times: the total over all of them |
| `DartCounts.SingleSite` | afyx-graph/engine/afyx-graph-kernel/src/dart.rs:1246-1278 | one call or static-member reference under d local functions: 2^(d+1) - 1 records; one `new`: 2^(d+1) |
| `DartCounts.BodyAllCounts` | afyx-graph/engine/afyx-graph-kernel/src/dart.rs:1246-1278 | the body walk alone doubles with every body it enters |
| `DartCounts.DuplicatesShareId` | afyx-graph/engine/afyx-graph-kernel/src/dart.rs:263-363 | all rows the double walk makes for one declaration carry the same id |
| `DartHomes.DartFactsExact` | afyx-graph/engine/afyx-graph-kernel/src/dart.rs:598-903 | for every Dart file: the references and rows recorded, each with the row it hangs from, are exactly those the sites of the tree say, each as often as the selections of enclosing bodies it is walked under |
| `DartHomes.ReferenceHome` | afyx-graph/engine/afyx-graph-kernel/src/dart.rs:228-261 | every reference carries its site's kind, name and position, and comes from the file's row or the row of a declaration whose body or members enclose the site |
| `DartHomes.RowHome` | afyx-graph/engine/afyx-graph-kernel/src/dart.rs:263-363 | every row has one containment edge, from such a row, carries its site's kind and name, and is qualified by the declarations above it |
| `DartHomes.HomesEnclose` | afyx-graph/engine/afyx-graph-kernel/src/dart.rs:228-230 | each of the homes of a site is an enclosing place, entered from outside in, with bodies left out in between |
| `DartHomes.HomeCount` | afyx-graph/engine/afyx-graph-kernel/src/dart.rs:1246-1278 | a site under b bodies has 2^b homes, one fewer if only bodies record it |
| `DartHomes.InnermostExactly` | afyx-graph/engine/afyx-graph-kernel/src/dart.rs:1257-1278 | a site is recorded from its innermost enclosing declaration alone exactly if that is a class or enum, or it is a call or static reference in a single body |
| `DartHomes.RecordedTwice` | afyx-graph/engine/afyx-graph-kernel/src/dart.rs:672-722 | `void main() { new Foo(); }` records the instantiation from main's row and again from the file's |
| `ScopeEmitter.Emitter.MakeNode` | afyx-graph/engine/afyx-graph-kernel/src/java.rs:298-374 | createNode: row, id, containment edge from the top of the stack, name qualified by the scopes that are not files; nothing for an empty name |
| `ScopeEmitter.Emitter.MakeOwnerEdge` | afyx-graph/engine/afyx-graph-kernel/src/go.rs:495-521 | the second containment edge, from the first type of the receiver's name, unless the method stands in a type |
| `ScopeEmitter.Emitter.MakeMembers` | afyx-graph/engine/afyx-graph-kernel/src/java.rs:1378-1568 | member synthesis with its growing set of taken names |
| `ScopeForest.CreatedRowOk` | afyx-graph/engine/afyx-graph-kernel/src/java.rs:298-374 | a new row has its containment edge from a smaller row, and is named by that edge's name path or, with a receiver, after the receiver |
| `ScopeForest.PathIsNamePath` | afyx-graph/engine/afyx-graph-kernel/src/java.rs:308-322 | the joined scope names are the names along the containment edges down from the file |
| `ScopeSteps.EmitAllSound` | afyx-graph/engine/afyx-graph-kernel/src/java.rs:487-659 | every walk keeps every invariant: one id per row, ranges, the containment forest, qualified names, the stack; and hangs everything new below the scope it started in |
| `ScopeTheorems.WholeFile` | afyx-graph/engine/afyx-graph-kernel/src/java.rs:165-246 | from the file row alone, any walk ends sound and back at the file scope |
| `ScopeTheorems.EmitsDeclared` | afyx-graph/engine/afyx-graph-kernel/src/java.rs:582-930 | where nothing is synthesized the rows added are exactly the declarations in preorder, each once, with its qualified name: the receiver's, or the joined names of what encloses it |
| `ScopeTheorems.NamedByPath` | afyx-graph/engine/afyx-graph-kernel/src/java.rs:298-374 | every row a walk adds without a receiver has one containment edge and the names along the edges as its name; with one it is a method named after it |
| `ScopeTheorems.SynthesisExact` | afyx-graph/engine/afyx-graph-kernel/src/java.rs:1378-1568 | synthesis adds exactly the wanted methods the class did not declare, once each, and afterwards the class has every wanted one |
| `ScopeTheorems.ReceiverEdge` | afyx-graph/engine/afyx-graph-kernel/src/go.rs:480-527 | a Go method with a receiver, outside a type, has a second containment edge from the first earlier type of that name exactly if there is one, and is named after it |
| `JavaWalk.VisitNode` | afyx-graph/engine/afyx-graph-kernel/src/java.rs:487-533 | the dispatcher emits exactly the declarations and references its node holds |
| `JavaWalk.VisitBody` | afyx-graph/engine/afyx-graph-kernel/src/java.rs:542-578 | inside bodies: calls, instantiations, value reads, and nested types, nothing else |
| `JavaWalk.ExtractClass` | afyx-graph/engine/afyx-graph-kernel/src/java.rs:582-604 | a class: row, references, members inside its scope, synthesized members, scope left |
| `JavaWalk.ExtractMethod` | afyx-graph/engine/afyx-graph-kernel/src/java.rs:606-632 | a method inside a class; outside one a function |
| `JavaWalk.ExtractEnum` | afyx-graph/engine/afyx-graph-kernel/src/java.rs:680-710 | an enum with a body: constants as members, everything else visited; without one, nothing |
| `JavaWalk.ExtractField` | afyx-graph/engine/afyx-graph-kernel/src/java.rs:712-790 | one field per declarator, its initializer walked in the field's own scope |
| `JavaWalk.ExtractVariable` | afyx-graph/engine/afyx-graph-kernel/src/java.rs:793-815 | top-level locals: one row per named declarator |
| `JavaWalk.ExtractFile` | afyx-graph/engine/afyx-graph-kernel/src/java.rs:165-246 | the whole file, inside its package's namespace if it has one |
| `JavaFacts.JavaFileExact` | afyx-graph/engine/afyx-graph-kernel/src/java.rs:165-815 | for every Java file: the rows, their ids, names and containment edges, and the references with the row each comes from, are exactly what plain recursion over the tree sees; call arguments, initializers and synthesized members included |
| `ScopeFacts.MembersExact` | afyx-graph/engine/afyx-graph-kernel/src/java.rs:1378-1568 | the synthesized members of a class: the wanted methods it does not declare, once each, and a log field where there is none, each row and edge written out |
| `JavaFacts.DecimalSpells` | afyx-graph/engine/afyx-graph-kernel/src/java.rs:935-935 | line numbers in names of anonymous types are the decimal digits of the number |
| `JavaForest.JavaForestHolds` | afyx-graph/engine/afyx-graph-kernel/src/java.rs:298-659 | for every Java file: one id per row, every index in range, each row but the file's in exactly one containment edge from a smaller row and named by the path above it, stack restored |
| `GoWalk.VisitNode` | afyx-graph/engine/afyx-graph-kernel/src/go.rs:382-418 | the Go dispatcher emits exactly the declarations and references its node holds |
| `GoWalk.VisitBody` | afyx-graph/engine/afyx-graph-kernel/src/go.rs:425-449 | inside function bodies only named functions are declared |
| `GoWalk.ExtractVariable` | afyx-graph/engine/afyx-graph-kernel/src/go.rs:613-677 | specs with their value walked in the variable's scope, or in the outer one if nothing is declared; then short declarations |
| `GoWalk.ExtractType` | afyx-graph/engine/afyx-graph-kernel/src/go.rs:530-591 | struct, interface or alias; an anonymous type is only walked |
| `GoFacts.GoFileExact` | afyx-graph/engine/afyx-graph-kernel/src/go.rs:222-677 | for every Go file the same: every row, edge and reference, receivers' second edges included, exactly as plain recursion over the tree sees them |
| `GoWalk.GoForestHolds` | afyx-graph/engine/afyx-graph-kernel/src/go.rs:222-311 | for every Go file: exactly one row per declaration, in order, with its exact name; a row without a receiver in one containment edge and named by the path above it; a method with one named after it, and in a second edge only from an earlier type of that name |
| `ValueRefs.PoppedVisits` | afyx-graph/engine/afyx-graph-kernel/src/java.rs:1279-1301 | the explicit stack visits every node exactly once if the budget allows, else as many as the budget |
| `ValueRefs.CountDeclarations` | afyx-graph/engine/afyx-graph-kernel/src/java.rs:1278-1301 | declarations of each target among the visited nodes |
| `ValueRefs.KeptExact` | afyx-graph/engine/afyx-graph-kernel/src/java.rs:1302-1313 | within the budget a target is dropped exactly if it is declared more often than it was captured; beyond it only then |
| `ValueRefs.EmitScope` | afyx-graph/engine/afyx-graph-kernel/src/java.rs:1315-1356 | the traversal of one scope, with its set of seen ids, computes the specified edges |
| `ValueRefs.ScopeLinksExact` | afyx-graph/engine/afyx-graph-kernel/src/java.rs:1315-1356 | one edge per target id, only for names in the subtree, never for the scope itself; within the budget for all of them |
| `ValueRefs.Flush` | afyx-graph/engine/afyx-graph-kernel/src/java.rs:1267-1356 | the whole flush: every edge runs from a scope to the row of the latest capture of an unshadowed name its subtree mentions, not its own; within the budget every such name has its edge |
| `ValueRefs.FlushMeans` | afyx-graph/engine/afyx-graph-kernel/src/java.rs:1302-1356 | the specified edges are those, said of captures, scopes and tree alone |
| `ValueRefs.TargetIsLatest` | afyx-graph/engine/afyx-graph-kernel/src/java.rs:376-390 | a target name stands for the row of its latest capture |
| `ValueRefs.KeptMeans` | afyx-graph/engine/afyx-graph-kernel/src/java.rs:1302-1313 | a target stays if its name is declared at most as often as captured, and within the budget only then |
| `FnRefs.Flush` | afyx-graph/engine/afyx-graph-kernel/src/java.rs:1232-1265 | the candidates that pass, the first of each declaration id and name, in order |
| `FnRefs.FirstsExact` | afyx-graph/engine/afyx-graph-kernel/src/java.rs:1232-1265 | no two references share id and name, each is a passing candidate, and every passing candidate is covered by one |
| `FnRefs.KeptExactly` | afyx-graph/engine/afyx-graph-kernel/src/java.rs:1237-1251 | a candidate's declaration and name have a reference exactly if the name begins with `this.`, holds `::`, or is a defined function or an import |
| `Buffers.Tables.PushNode` | afyx-graph/engine/afyx-graph-kernel/src/buffers.rs:275-297 | the node table stays the concatenation of the rows pushed, in order, 96 bytes each |
| `Buffers.Tables.PushEdge` | afyx-graph/engine/afyx-graph-kernel/src/buffers.rs:299-312 | the edge table likewise, 44 bytes each |
| `Buffers.Tables.PushRefFlagged` | afyx-graph/engine/afyx-graph-kernel/src/buffers.rs:314-330 | the reference table likewise, 40 bytes each |
| `Buffers.BuildMeta` | afyx-graph/engine/afyx-graph-kernel/src/buffers.rs:342-355 | the meta block, 36 bytes |
| `Buffers.Arena.Put` | afyx-graph/engine/afyx-graph-kernel/src/buffers.rs:149-153 | the string is appended and its reference cut to 32 bits |
| `Buffers.Arena.PutList` | afyx-graph/engine/afyx-graph-kernel/src/buffers.rs:168-174 | lists are joined by NUL, the empty one absent |
| `BufferDecode.NodeRoundTrip` | afyx-graph/engine/src/extraction/kernel/decode.ts:83-124 | reading a node row at the documented offsets gives back every field that was written |
| `BufferDecode.EdgeRoundTrip` | afyx-graph/engine/src/extraction/kernel/decode.ts:127-145 | the same for edge rows |
| `BufferDecode.RefRoundTrip` | afyx-graph/engine/src/extraction/kernel/decode.ts:148-174 | the same for reference rows |
| `BufferDecode.MetaRoundTrip` | afyx-graph/engine/src/extraction/kernel/decode.ts:67-78 | the same for the meta block, version check included |
| `BufferDecode.FlagRoundTrip` | afyx-graph/engine/src/extraction/kernel/decode.ts:53-56 | a flag pair reads back present, true if it was ever set true, and leaves the other pairs alone |
| `BufferDecode.ListRoundTrip` | afyx-graph/engine/src/extraction/kernel/decode.ts:47-50 | a list comes back exactly if no item holds a NUL |
| `BufferDecode.StringRoundTrip` | afyx-graph/engine/src/extraction/kernel/decode.ts:39-44 | below the size limit a reference yields its string after any later appends |
| `BufferDecode.AbsentIsNotEmpty` | afyx-graph/engine/src/extraction/kernel/decode.ts:39-44 | an absent field is never mistaken for an empty one |
| `BufferDecode.LostAtTheLimit` | afyx-graph/engine/afyx-graph-kernel/src/buffers.rs:149-153 | a string is read as absent exactly if it was put at the offset that marks absence |
| `BufferLayout.NodeLayout` | afyx-graph/engine/afyx-graph-kernel/src/buffers.rs:25-43 | every field of a node row stands at its documented offset, little-endian |
| `BufferLayout.EdgeLayout` | afyx-graph/engine/afyx-graph-kernel/src/buffers.rs:45-55 | the same for edge rows |
| `BufferLayout.RefLayout` | afyx-graph/engine/afyx-graph-kernel/src/buffers.rs:57-69 | the same for reference rows |
| `BufferLayout.MetaLayout` | afyx-graph/engine/afyx-graph-kernel/src/buffers.rs:13-23 | the same for the meta block |
| `WireBytes.RowBytes` | afyx-graph/engine/src/extraction/kernel/decode.ts:83-84 | row i is bytes [i*width, (i+1)*width) of its table |
| `BufferFile.PackNode` | afyx-graph/engine/afyx-graph-kernel/src/java.rs:330-353 | a node written the way createNode writes it decodes to the same value, and everything written before still does |
| `BufferFile.TableRoundTrip` | afyx-graph/engine/src/extraction/kernel/decode.ts:83-124 | the reader's loop over the node table gives the nodes back in order |
| `BufferFile.NodesThroughBuffers` | afyx-graph/engine/src/extraction/kernel/decode.ts:63-124 | any nodes, packed and decoded, come back unchanged as long as the arena fits |
| `BufferTables.PackEdge` | afyx-graph/engine/afyx-graph-kernel/src/go.rs:277-288 | an edge, with its metadata and row or spelled endpoints, decodes to the edge meant, and everything written before can still be read |
| `BufferTables.PackRef` | afyx-graph/engine/afyx-graph-kernel/src/java.rs:272-283 | a reference likewise, its candidates and file-path flag included |
| `BufferTables.DecodeEdges` | afyx-graph/engine/src/extraction/kernel/decode.ts:126-145 | the reader's loop over the edge table decodes each row written, in order |
| `BufferTables.DecodeRefs` | afyx-graph/engine/src/extraction/kernel/decode.ts:147-174 | the reader's loop over the reference table likewise |
| `BufferTables.PackFile` | afyx-graph/engine/afyx-graph-kernel/src/java.rs:236-247 | the whole writer: tables, arena and a meta block that reads back as their counts, and every row reads back from the final arena |
| `BufferTables.DecodeBuffers` | afyx-graph/engine/src/extraction/kernel/decode.ts:63-183 | the whole reader: an error exactly if the meta block is too short or of another version, else as many rows as the meta block says, in order, edges and references by the ids of the decoded nodes |
| `BufferTables.FileThroughBuffers` | afyx-graph/engine/src/extraction/kernel/decode.ts:63-183 | any nodes, edges and references, packed and decoded by the counts of the meta block, come back in order, each endpoint as the id of its row, as long as the arena fits and the counts stay below 2^32 |
| `StackGuard.Thread.Begin` | afyx-graph/engine/afyx-graph-kernel/src/stack.rs:126-142 | arming clears the latch and sets the threshold from the system's bounds or the entry |
| `StackGuard.Thread.Exhausted` | afyx-graph/engine/afyx-graph-kernel/src/stack.rs:149-161 | latches exactly below the threshold; a thread that never began begins here |
| `StackGuard.Thread.Walk` | afyx-graph/engine/afyx-graph-kernel/src/lib.rs:25-31 | a guarded walk emits the specified part and trips exactly as specified |
| `StackGuard.GuardedExact` | afyx-graph/engine/afyx-graph-kernel/src/stack.rs:149-161 | the guard trips exactly if the unguarded walk would pass below the threshold; untripped, nothing is missing |
| `StackGuard.NeverTruncated` | afyx-graph/engine/afyx-graph-kernel/src/stack.rs:171-180 | defer exactly if some frame passes, whatever the walk produced, its own error included; else the outcome of the whole unguarded walk |
| `StackGuard.DeferExactly` | afyx-graph/engine/afyx-graph-kernel/src/stack.rs:126-161 | a parsed file is deferred exactly if its deepest frame comes within 262144 bytes of the system's bound, or, without one, more than 1048576 bytes below the entry or to address 0 |
| `StackGuard.Thread.RunGuarded` | afyx-graph/engine/afyx-graph-kernel/src/stack.rs:171-180 | the outcome depends on this run alone, whatever ran on the thread before |
| `Rules.EvaluateRule` | evals/harness/routing.py:65-113 | a rule's value is that of its parse; acceptance and error depend on the tokens and the known names only |
| `Rules.Evaluator.EvalOr` | evals/harness/routing.py:79-84 | `or` over `and`, right operand always parsed |
| `Rules.Evaluator.EvalAnd` | evals/harness/routing.py:86-91 | `and` over `not`, right operand always parsed |
| `Rules.Evaluator.EvalNot` | evals/harness/routing.py:93-97 | prefix `not` |
| `Rules.Evaluator.EvalAtom` | evals/harness/routing.py:99-108 | names and parentheses, with the errors for a missing token, an unbalanced parenthesis and an unknown name |
| `RuleGrammar.AcceptedIsSentence` | evals/harness/routing.py:65-113 | whatever is accepted is a sentence of the grammar |
| `RuleGrammar.ParsesSentences` | evals/harness/routing.py:65-113 | accepted with a result exactly if it is a sentence meaning that result |
| `RuleGrammar.SensibleIsNeeded` | evals/harness/routing.py:99-108 | every sentence is accepted exactly if no intent is called `not` or `(` |
| `RuleGrammar.PrintRoundTrip` | evals/harness/routing.py:65-113 | the printed tokens of an expression, parenthesised only where the levels demand, parse back to it |
| `RuleGrammar.EvaluatePrinted` | evals/harness/routing.py:65-113 | evaluating them gives the expression's value |
| `RuleTokens.FindAll` | evals/harness/routing.py:67-67 | the tokens of a rule's text: parentheses and words of small letters and underscores; all else separates |
| `RuleTokens.TokensRoundTrip` | evals/harness/routing.py:67-67 | any tokens, spaced out, are cut back into themselves |
| `RuleTokens.EvaluateText` | evals/harness/routing.py:65-113 | from text to value or error |
| `RuleTokens.TextRoundTrip` | evals/harness/routing.py:65-113 | the text of any expression evaluates to the expression's value |
| `RuleTokens.CutExactly` | evals/harness/routing.py:67-67 | a maximal run of the 27 word characters, written out, is one token; a parenthesis is one; any other character is none |
| `RuleTokens.RuleMeans` | evals/harness/routing.py:65-113 | `a or b and not (c or d)` means what its precedence says, for any facts |
| `Mutexes.Mutex.Poll` | afyx-graph/engine/src/utils.ts:401-408 | one round of the acquire loop: take the lock or queue up |
| `Mutexes.Mutex.Release` | afyx-graph/engine/src/utils.ts:410-417 | unlock and wake the first sleeper |
| `Mutexes.Perform` | afyx-graph/engine/src/utils.ts:392-437 | the object follows the state machine's moves |
| `Mutexes.NextKeepsInv` | afyx-graph/engine/src/utils.ts:401-419 | every move keeps mutual exclusion, the exact lock bit and queue, and that a sleeper is never forgotten |
| `Mutexes.NoDeadlock` | afyx-graph/engine/src/utils.ts:401-419 | as long as a client is not done some client can move |
| `Mutexes.MoveDecreases` | afyx-graph/engine/src/utils.ts:401-419 | every move uses something up, wakeups and barging included |
| `Mutexes.EveryRunFinishes` | afyx-graph/engine/src/utils.ts:392-437 | n clients need at most 5n moves under any scheduler, at most one is ever inside, and where no move is left all are done |
| `Mutexes.FirstComeFirstWoken` | afyx-graph/engine/src/utils.ts:401-417 | over any run the queue at the start followed by those who fell asleep is those woken followed by the queue at the end: sleepers are woken first come, first served |
| `FileLocks.FileLock.Acquire` | afyx-graph/engine/src/utils.ts:254-296 | refused exactly by a young, readable lock of a live process; else the file is ours |
| `FileLocks.FileLock.Release` | afyx-graph/engine/src/utils.ts:301-313 | a holder deletes its own file and no other |
| `FileLocks.NextKeepsInv` | afyx-graph/engine/src/utils.ts:254-313 | holders live, a fresh holder owns the file, two holders are a whole timeout apart |
| `FileLocks.FreshHolderIsAlone` | afyx-graph/engine/src/utils.ts:240-313 | after any run: while a live holder's lock is young nobody acquires, no second young holder exists, and nobody else removes the file |
| `FileLocks.OverrunHolderIsHarmless` | afyx-graph/engine/src/utils.ts:254-313 | over any run a file of q stands unchanged until q releases it or an acquire finds it stale or its process dead; a holder whose lock was taken over never removes it |
| `FileLocks.AcquireExactly` | afyx-graph/engine/src/utils.ts:254-296 | an acquire takes a lock file that is absent, unreadable, of a dead process, or 120000 ms old, and changes nothing else or nothing at all |
| `FileLocks.OverrunExactly` | afyx-graph/engine/src/utils.ts:244-296 | a live holder's lock is taken from it exactly from 120000 ms on, and not a millisecond earlier |
| `FileLocks.ReleaseFrees` | afyx-graph/engine/src/utils.ts:254-313 | after the release of a lock that was not taken over everybody can acquire |
| `Throttles.Throttle.Invoke` | afyx-graph/engine/src/utils.ts:501-518 | a call runs at once, sets the one timer, or is covered by it |
| `Throttles.Throttle.OnTimer` | afyx-graph/engine/src/utils.ts:512-516 | the timer's callback |
| `Throttles.ExecutionsAreSpaced` | afyx-graph/engine/src/utils.ts:494-520 | in every run executions are at least `limit` apart and at most one timer is set |
| `Throttles.CallIsCovered` | afyx-graph/engine/src/utils.ts:501-518 | a call is executed at once or covered by an execution due one limit after the last |
| `Throttles.PendingIsServed` | afyx-graph/engine/src/utils.ts:501-518 | a pending execution ends only by executing |
| `RunScripts.GuardedRun` | afyx-graph/engine/src/index.ts:522-738 | a run through a flowchart whose state writes are guarded leaves the state of its last write, and every guarded call has proceeded before it |
| `RunScripts.LateThrowsRun` | afyx-graph/engine/src/index.ts:704-738 | past a final state a run ends by an exception exactly if its last call is one of the fatal ones and threw |
| `RunProtocol.Engine.IndexAll` | afyx-graph/engine/src/index.ts:475-761 | under any pattern of exceptions and kills the calls a full run makes, their order and its end are those of its flowchart, the state is what its writes left, and an exit through the finally block restores connection and lock unless the valve's drain, its first call, throws |
| `RunProtocol.Engine.Extracting` | afyx-graph/engine/src/index.ts:533-564 | the bulk loads are ended in order also after an exception of the orchestrator |
| `RunProtocol.Engine.Reconcile` | afyx-graph/engine/src/index.ts:712-736 | the verdict on the result is written, any failure swallowed |
| `RunProtocol.Engine.Finish` | afyx-graph/engine/src/index.ts:739-760 | the finally block: the valve is drained first, unguarded; if that throws, the rest is skipped, the lock stays taken and checkpoints stay put off |
| `RunProtocol.Engine.Sync` | afyx-graph/engine/src/index.ts:788-1059 | a sync likewise |
| `RunTheorems.FullStateExact` | afyx-graph/engine/src/index.ts:522-738 | the state after a full run: its verdict if recorded, else the marker exactly if the first three calls proceeded, else what it was |
| `RunTheorems.AbortedStaysIndexing` | afyx-graph/engine/src/index.ts:525-529 | a full run that recorded no verdict, or threw for another reason than its drain, leaves the index marked exactly if its first three calls proceeded or it was marked before |
| `RunTheorems.OldCompleteSurvives` | afyx-graph/engine/src/index.ts:523-529 | an old `complete` survives a full run whose first call throws |
| `RunTheorems.VerdictIsEarned` | afyx-graph/engine/src/index.ts:544-733 | whatever a full run writes after its marker is the verdict on what extraction yielded, and every call it owes by then has proceeded before |
| `RunTheorems.VerdictEndsExceptions` | afyx-graph/engine/src/index.ts:712-746 | once its verdict is recorded a full run throws exactly if the drain of its valve does, and none returns without having tried to record it |
| `RunTheorems.CompleteMeansAccounted` | afyx-graph/engine/src/index.ts:708-737 | a full run leaves the index complete exactly if it recorded that of an extraction that accounted for every discovered file, or the index was complete and the marker never written |
| `RunTheorems.FaultFreeFull` | afyx-graph/engine/src/index.ts:522-739 | where no call fails a full run returns with its verdict recorded, connection and lock restored |
| `RunTheorems.SyncClosesRepaired` | afyx-graph/engine/src/index.ts:1036-1041 | a sync writes no state but `complete`, only over the marker of an interrupted run, and only past every repair it owes |
| `RunTheorems.ClosedSyncThrows` | afyx-graph/engine/src/index.ts:1039-1052 | a sync that closed the index throws exactly if its drain does or, unless killed in the drain, the git record after it did; one that returns over an interrupted index has tried to close it |
| `RunTheorems.SyncClosesThenThrows` | afyx-graph/engine/src/index.ts:1039-1045 | a sync can close the index and still throw |
| `RunTheorems.FaultFreeSync` | afyx-graph/engine/src/index.ts:820-1046 | where no call fails a sync returns, connection and lock restored, and a full reconcile has closed an interrupted index |
| `RunTheorems.MarkerSticks` | afyx-graph/engine/src/index.ts:1036-1041 | over any sequence of runs the marker stays until some run records a final state, past everything it owes |
| `RunTheorems.CompletionHasACause` | afyx-graph/engine/src/index.ts:708-737 | an index that became complete was made so by a full run that made every call it owes and accounted for every file, or by a full reconcile that found it interrupted and repaired it |
| `RunTheorems.ExitExact` | afyx-graph/engine/src/index.ts:739-760 | a run that is not killed leaves a durable connection, its interval and a free lock exactly if its drain did not throw; else the lock is taken and checkpoints are put off |
| `RunTheorems.DrainStrands` | afyx-graph/engine/src/index.ts:746-746 | a run whose drain throws, as it may |
| `RunTheorems.EveryExitRestores` | afyx-graph/engine/src/index.ts:1047-1057 | over any sequence of runs that are not killed every one of them brings the interval, the durable modes and the free lock back if and only if none of their drains throws |
| `RunTraces.VerdictByCounts` | afyx-graph/engine/src/index.ts:712-733 | a full run that records a final state leaves `failed` exactly if extraction did not succeed, `partial` exactly if it did and discovered more than indexed, skipped and errored files, `complete` otherwise |
| `RunTraces.GitRecordIsClean` | afyx-graph/engine/src/index.ts:702-705 | the git record is finished before the verdict exactly if the result is clean: success, no file in error, and every discovered file indexed or skipped |
| `RunTraces.FullCallsExact` | afyx-graph/engine/src/index.ts:475-761 | the calls of a full run where none fails, one by one |
| `RunTraces.SyncCallsExact` | afyx-graph/engine/src/index.ts:788-1059 | the calls of a sync where none fails, one by one |
| `RunTraces.FullEndExact` | afyx-graph/engine/src/index.ts:475-761 | a full run ends by an exception exactly if its drain or one of the listed calls throws and nothing kills it |
| `RunTraces.SyncEndExact` | afyx-graph/engine/src/index.ts:788-1059 | a sync likewise, with its own list |
| `SubprojectScan.FindIndexedSubprojectRoots` | afyx-graph/engine/src/directory.ts:218-242 | the first `max` of the depth-first list, nothing under an unsafe root |
| `SubprojectScan.Walk` | afyx-graph/engine/src/directory.ts:226-239 | the recursion with its shared output and count limit |
| `SubprojectScan.ScanExact` | afyx-graph/engine/src/directory.ts:218-242 | without a count limit a path is listed exactly if it is indexed, within the depth, below no indexed directory, with no skipped or dotted name on the way |
| `SubprojectScan.ScanIsAntichain` | afyx-graph/engine/src/directory.ts:218-242 | no listed project lies inside another |
| `SubprojectScan.FoundNoRepeats` | afyx-graph/engine/src/directory.ts:218-242 | no project is listed twice |
| `SubprojectScan.FoundInOrder` | afyx-graph/engine/src/directory.ts:226-240 | the projects are listed depth first: where two paths part, the entry of the earlier one is read before that of the later |
| `SubprojectScan.PlanFrontload` | afyx-graph/engine/src/directory.ts:637-677 | the nearest indexed ancestor among six, else the only or the best-named sub-project, else a nudge for all |
| `SubprojectScan.PlanPartitions` | afyx-graph/engine/src/directory.ts:637-677 | of any plan made from the limited scan: no sub-project is listed twice, and explored root and nudge list together hold each listed one once |
| `SubprojectScan.PlanWhere` | afyx-graph/engine/src/directory.ts:637-677 | an indexed directory among the working directory and its five nearest parents is explored alone; a plan is from sub-projects exactly if there is none, the directory looks like a project and lists some; one alone is explored; if none is named all are nudged, in order |
| `SubprojectScan.PathBeatsName` | afyx-graph/engine/src/directory.ts:653-676 | among several sub-projects the explored one is named by its path if any is, else by its directory name, the shortest path first; none exactly if the prompt names none |
| `SubprojectScan.SkippedExactly` | afyx-graph/engine/src/directory.ts:183-187 | the skipped directory names, depth 4 and count 64, written out |
| `ConfigCache.Project.Load` | afyx-graph/engine/src/project-config.ts:314-332 | whatever was cached before, the result is the parse of the current file |
| `ConfigCache.Project.AddPatterns` | afyx-graph/engine/src/project-config.ts:412-449 | the new file, the count, the cleared cache; a file that is not JSON changes nothing |
| `ConfigCache.ExtractIncludeIgnored` | afyx-graph/engine/src/project-config.ts:213-230 | the trimmed entries that are text and not blank, in order |
| `ConfigCache.TrimExact` | afyx-graph/engine/src/project-config.ts:224-229 | trimming leaves no white space at either end and cuts off nothing else |
| `ConfigCache.PatternsStep` | afyx-graph/engine/src/project-config.ts:224-229 | entry by entry: what is not text or is blank yields nothing |
| `ConfigCache.NewMembers` | afyx-graph/engine/src/project-config.ts:434-443 | the patterns added are distinct and exactly those not listed |
| `ConfigCache.NewInOrder` | afyx-graph/engine/src/project-config.ts:434-443 | patterns are added in the order given, each unless it is listed by then |
| `ConfigCache.NewIsSetDifference` | afyx-graph/engine/src/project-config.ts:434-443 | the count is the size of the set difference |
| `ConfigCache.MergedHasAll` | afyx-graph/engine/src/project-config.ts:412-449 | after adding, the other fields are kept, every pattern is listed, every pattern that is not blank loads trimmed, and nothing is left to add |
| `ConfigCache.AddThenLoad` | afyx-graph/engine/src/project-config.ts:412-449 | the next load has the patterns, and adding them again adds none, also within one time stamp |
| `Cutoff.HalfAYearBack` | scripts/check-reference-staleness.py:17-22 | from July of year 1 on the cutoff is a valid date 181 to 184 days before today |
| `Cutoff.ValidExactly` | scripts/check-reference-staleness.py:17-22 | it is a valid date exactly from then on |
| `Cutoff.CutoffIsMonotone` | scripts/check-reference-staleness.py:17-22 | it never moves backwards as today moves on |
| `Cutoff.YearLength` | scripts/check-reference-staleness.py:17-22 | the day number the span is measured in gives every year its 365 or 366 days |
| `Cutoff.SameDayOrLast` | scripts/check-reference-staleness.py:17-22 | the cutoff has today's day of the month, or the last its own month has |

## Left out

- Tree-sitter and its grammars: the walkers run on abstract syntax trees that carry the names, references and children the code reads off the nodes.
- Text is a sequence of bytes; `\s` is one JavaScript white-space character of one to three bytes. The lossy conversion of captured bytes to strings is the identity here.
- `scan_file` in `cfnptr.rs`: slicing raw extents out of the stripped text and deduplicating the facts.
- JsRegex: captures inside a repeated group keep their last value; none of the modelled expressions has one.
- Byte positions are unbounded; the scanners' 32-bit and 64-bit indices do not wrap.
- DartCounts.DoubleWalkCounts: for trees of the shape the grammar gives, where names are not empty, types and imports stand outside bodies, and methods and static constants in classes; decorators, type annotations and supertypes are not in the Dart tree.
- FnRefs.Flush: which syntax yields a candidate is left out, and so are the Go and C# variants.
- The fields of a row that nothing here depends on: columns, end lines, docstrings, signatures, visibility, return types. Ids are triples of kind, name and line, so equal inputs give equal ids; hashing is left out.
- Java callee and type names arrive ready in the tree; so do the members Lombok annotations ask for, in order. How getter and setter names are spelled is left out.
- `csharp.rs`: the same machine, its first namespace around the whole file.
- ValueRefs.Flush: which declarations are captured as targets (their kind, length and spelling) is an input; the environment switch and the generated-file test are one flag.
- Buffers: floating point. The duration is eight opaque bytes. Row counts are cut to 32 bits in the meta block only.
- BufferTables: which references and edges a walker writes is given; kind and provenance names stay the bytes that index their tables; JSON in `extraJson` and `metadataJson` stays text.
- StackGuard: a frame's stack use is part of the tree, and the position of the stack pointer an integer.
- Mutexes: clients are numbered, each locks once, and a body ends; an exception in a body ends it too.
- FileLocks: an acquire and a release are one step each, pids are not reused, a process has one lock object, the clock does not run backwards, and file operations do not fail.
- Throttles: the throttled function does not call itself; the arguments of calls are left out.
- RunProtocol: the orchestrator, resolver, checkpoint valve and maintenance are calls that proceed, throw or kill, and what their results tell is given with the run; progress callbacks are left out; the pragma calls of the finally block, whose exceptions are swallowed, and the release of the lock succeed; nothing fails between taking the lock and entering the guarded part. `indexFiles` is left out.
- SubprojectScan: the manifest test and the safety of a root are flags; paths are sequences of names, and a directory lists no name twice where a lemma says so. The score of a sub-project is computed on lower-case text.
- ConfigCache: one pattern field is modelled, the others are carried along; reading, parsing and writing JSON are exact inverses; warnings are left out.
- Cutoff: the report over reference files.
- `freshness.ts`, the prompt hooks, the benchmark runner, scoring and the CLI: data tables, input and output, or one-branch logic.
