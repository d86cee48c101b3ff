# A model of the evaluators and the bot's framing

The repository runs code for chat users: a bot sends requests to long-lived evaluators over sockets, and
shows what they answer. This project models in Dafny the parts whose correctness is not evident from any
one function, and proves what they are for.

* **The "Source" interpreter** that the JavaScript evaluator can load: a scanner with start conditions, a
  table-driven shift/reduce parser, an evaluator over shared mutable frames, and a stream library.
  `Lexer`, `LexerRuns`, `Scanner` and `StringLiterals` model the scanner; `LRParser`, `LRSoundness`,
  `LRCompleteness` and `LRDriver` the driver, over any table with a certificate; `Grammar` the 81
  productions with their semantic actions, `Trees` what they build, `WholeTable` the parse table of all 175
  states, `Precedence` which derivations are grouped by precedence, and `Places`, `Endings`, `Fitting` and
  `Leading` that the table reads exactly those (`Leading.ParserIff`); `Syntax`, `Environment`, `Frames` and
  `Evaluator` the evaluator, `Semantics` rules that it answers exactly what they prove (`Semantics.EvalIff`),
  `Calls` what a call yields, and `Confinement`, `Scope`, `ForLoop`, `Growth`, `Alike`, `Finaliser` and
  `DeadCode` what evaluation keeps. `Spellings` says character by character how names, numerals, blanks and
  comments are written, and `Rendering`, `Pipeline`, `Phrases`, `Printing`, `PrintingStatements`, `Texts`,
  `Arrows` and `Denotation` put scanner, parser and evaluator together. `Texts` says which texts are programs,
  exactly (`ProgramIsGrouped`, `ProgramIff`), and states operator hygiene, return confinement and scope
  soundness of sessions of arbitrary texts; `Denotation` says that after any such session a text answers what
  the rules prove of it, operator expressions what their operators should give, and a function declared and
  called what its body does with its arguments. `Streams` compares the stream library with the list library.
* **The persistent-evaluator protocol**: `Protocol` has the writer and the JavaScript reader, `Readers` the
  C# and Java readers and the way back, `CarryOver` the Elixir evaluator with its carried-over buffer,
  `Continuation` the per-key buffers of unfinished code in JavaScript and Python.
* **What the bot shows**: `Utf8` and `Telegram`, the cut, filtered, escaped and marked message.

Where the source updates things in place there is a class or a method with a loop, proved against a function
whose properties are then proved as lemmas: `Frames`, `Scanner.ScannerObject`, `LRDriver.Stacks`,
`Protocol.JsConnection`, `Readers.Stream`, `Continuation.JsServer` and `Continuation.PyServer`. `Options` and
`Characters` hold what several of them share.

## Conventions

* `Evaluator.Eval` takes a fuel, the depth of nested calls; running out of it is the host's stack overflow.
  Results that need an answer are stated for every fuel that gives one, and `ForLoop.EvalIsMonotone` says
  that more fuel never changes it.
* A session is programs run one after another on whatever store the last one left, also when it threw.
* Arithmetic and ordering of the host, with their coercions and rounding, are a parameter (`Host`) that sees
  primitives and list structure. `===` is modelled, with object identities.
* A derivation is grouped (`Precedence.Grouped`) if every left operand is closed against its operator and every
  right one opens only with what binds tighter; two conflicts of the grammar are settled beside: `(x) =>` has an
  expression, not a list of one name, in its parentheses, and `{}` at the start of a statement is a block.
* A `Certificate` is ghost knowledge about a parse table: the symbols surely on the stack in each state, and
  a measure. Everything about the driver is proved for all tables that meet one; `WholeTable.WholeIsValid`
  is that the parser's own table does.
* An error thrown by a semantic action is the value `Thrown`, which lasts to the end of the parse.
* Evaluating code in C#, Java, Elixir and Python, and in the host's contexts, is a parameter as well.

## Where the code differs from what one would expect

* `assign_name_to_value` ignores the `mutable` flag, so constants can be assigned; the model follows it.
* A while loop tests truthiness and always yields true, whatever its body returned; a conditional tests
  `=== true`. A for loop's finaliser runs in the frame of the body; when that can be told from running it
  outside is the subject of `Finaliser`.
* An empty program throws, because the evaluator takes the tail of an empty list.
* Columns are wrong after a match over several lines whose last line has U+2028 or U+2029
  (`LexerRuns.ColumnsAreRightIff`, `LexerRuns.SeparatorShiftsColumns`).
* Arrows group to the left, and only a name can stand to the left of one: `x => y => x` throws where
  `x => (y => x)` is a function (`Arrows.BareArrowIsNoProgram`, `Arrows.ArrowInParenthesesIsProgram`).
* The Elixir evaluator does not wait for a whole request: it answers the connection that sent it if and only
  if one receive yields all of it (`CarryOver.AnsweredIffWhole`, `CarryOver.HeaderIsAnsweredLate`).
* The JavaScript handler fires again on every chunk after a complete request (`Protocol.JsFiresOnceIff`,
  `Protocol.JsAnswersTwice`).
* A message can lose characters without a mark (`Telegram.UnmarkedLossIff`, `Telegram.ShownLossIff`,
  `Telegram.LetterIsLostUnmarked`, `Telegram.LineFeedIsLostUnmarked`).
* README.md:20-28 gives signed lengths; the writer and the C# reader use unsigned ones, so the agreement of
  the readers is stated for what a signed length and time can tell.

## Model

| member | source | states |
|---|---|---|
| `Environment.MakeFrameBindsLast` | evaluators/jseval.js:11 | `make_frame` binds exactly the parameter names, as variables, a repeated one to the argument in its last position |
| `Environment.AssignUnderAliasing` | evaluators/jseval.js:11 | `assign_name_to_value`: an environment sees the new value exactly when it resolves the name to the same frame or saw that value already; every other lookup of every name is unchanged and no binding is lost |
| `Environment.DeclareIsLocal` | evaluators/jseval.js:11 | a declaration changes what another environment sees only under that name and only if that environment contains the frame declared in |
| `Frames.LookupNameValue` | evaluators/jseval.js:11 | `lookup_name_value` on frame objects answers the store lookup of the environment |
| `Frames.AssignNameToValue` | evaluators/jseval.js:11 | `assign_name_to_value` on shared frame objects: finds a binding exactly when the name resolves, overwrites the innermost one, leaves all other frames and the `mutable` flag alone |
| `Frames.DeclareName` | evaluators/jseval.js:11 | `declare_constant` and `declare_variable` write the first frame only |
| `Frames.MakeFrameObject` | evaluators/jseval.js:11 | the binding loop of `make_frame` is the left-to-right fold, stopping with the shorter list |
| `Frames.ExtendEnvironment` | evaluators/jseval.js:11 | `extend_environment` fails exactly on a mismatch in number; otherwise one new frame, nothing else changed |
| `Confinement.EvalIsGood` | evaluators/jseval.js:11 | for every node of the shape the grammar builds, every store and every fuel: evaluation keeps the store invariant and removes no binding; an expression never yields a return value, a statement at most one around a good value |
| `Confinement.ApplyIsGood` | evaluators/jseval.js:11 | `apply` never yields a return value, and keeps the store invariant |
| `Texts.ReturnConfinement` | evaluators/jseval.js:11 | after any session of texts no frame, pair or closure environment holds a return value, no expression evaluates to one, no call of a value an expression evaluates to yields one |
| `Texts.OperatorHygiene` | evaluators/jseval.js:11 | after any session of texts of whatever characters, failed programs included, each operator looked up from the global or any captured environment is the original builtin |
| `Syntax.OperatorsAreNotIdentifiers` | evaluators/jseval.js:11 | no operator is spelled like an identifier token |
| `Scope.EvalIsScoped` | evaluators/jseval.js:11 | a scoped node evaluated in a store of scoped closures never fails for an unbound name and leaves such a store, through closures, early returns, loops and calls |
| `Texts.ScopeSoundness` | evaluators/jseval.js:11 | when every program of a session of texts is scoped by the names bound at its start, none reaches "Unbound name" |
| `Scope.InitialNames` | evaluators/jseval.js:11 | `setup_global_environment`: which names are bound at the start, and to what |
| `Scope.ProgramIsScoped` | evaluators/jseval.js:11 | a first program scoped by the builtins never reaches "Unbound name", at any fuel |
| `ForLoop.EvalIsMonotone` | evaluators/jseval.js:11 | more stack never changes an answer, value, error or store |
| `ForLoop.ForIsDirect` | evaluators/jseval.js:11 | whatever the rewritten for loop answers, the direct loop answers, store included |
| `ForLoop.DirectIsFor` | evaluators/jseval.js:11 | whatever the direct loop answers, the rewritten one answers given enough stack |
| `ForLoop.DesugaringIsDirect` | evaluators/jseval.js:11 | `evaluate_for_loop`: the rewriting answers a result, store included, if and only if the direct loop does |
| `Semantics.EvalIff` | evaluators/jseval.js:11 | `evaluate` and `apply` exactly: they answer a value or an error and a store, given stack enough, if and only if rules of inference with no fuel prove it. The rules say what a declared name is bound to, which branch a conditional takes, how rows, loops, operands and returns go on, what each builtin gives, and that a name means its innermost binding |
| `Calls.CallLaw` | evaluators/jseval.js:11 | a call of a closure with as many arguments as parameters answers `v` if and only if the body, run in one new frame that binds each parameter to its argument, returns `v`, or `v` is undefined and the body ends without a return; it fails if and only if the body does |
| `DeadCode.AlwaysReturnsYieldsReturn` | evaluators/jseval.js:11 | a statement that returns on every path completes, if it does, with a return value |
| `DeadCode.SameEval` | evaluators/jseval.js:11 | a return skips every later statement: programs that differ only after always-returning statements, there arbitrarily, give the same result at every fuel from stores that differ likewise |
| `DeadCode.SameSession` | evaluators/jseval.js:11 | the same for whole sessions |
| `Alike.ScopedIffFree` | evaluators/jseval.js:11 | a program is scoped by the names bound at its start exactly when its free names are among them |
| `Growth.EvalGrows` | evaluators/jseval.js:11 | evaluation adds to frames that were there only names the program declares, and only to the frame it runs in; nothing loses a name |
| `Finaliser.OutsideIsAlike` | evaluators/jseval.js:11 | running the finaliser in the frame of the loop, with a body that declares none of its free names, gives the result of running it in the frame of the body, up to frames that bind none of the free names of the closures that hold them |
| `Finaliser.FinaliserMayRunOutside` | evaluators/jseval.js:11 | under that condition the rewritten for loop and the loop with its finaliser outside answer alike, in both directions, at every fuel that gives an answer |
| `Finaliser.FinaliserSeesDeclarations` | evaluators/jseval.js:11 | a loop whose body declares the name its finaliser reads: as it is it ends, with the finaliser outside it fails for want of that name |
| `LRParser.ReduceFindsItsRightSide` | evaluators/jseval.js:11 | on a certified table every reduction finds the right-hand side of its production on the stack |
| `LRParser.StepKeeps` | evaluators/jseval.js:11 | every step of `parse` keeps the three stacks in step and linked by transitions, and lowers a lexicographic measure, so the driver terminates |
| `LRParser.StepIsTotal` | evaluators/jseval.js:11 | the driver fails only where the table has no action or no goto, never for want of stack or input |
| `LRSoundness.StepIsExplained` | evaluators/jseval.js:11 | every step keeps a forest of derivations that yields exactly the tokens consumed and means exactly the values and places on the stacks |
| `LRParser.SpanJoins` | evaluators/jseval.js:11 | the place of a phrase runs from where its first part begins to where its last one ends; an empty one has the place below it |
| `LRSoundness.ParseIsSound` | evaluators/jseval.js:11 | a value `parse` returns is the meaning, by the semantic actions, of a derivation from the accepting production of what was read |
| `LRSoundness.ParseReadsEverything` | evaluators/jseval.js:11 | when the accepting production ends in the end-of-file token, that is the whole input |
| `LRCompleteness.TreeIsFollowed` | evaluators/jseval.js:11 | the driver follows every derivation that the table does not turn away from: from any stack it comes to push the root, with its meaning |
| `LRCompleteness.ParseIff` | evaluators/jseval.js:11 | the driver exactly: it returns a value if and only if that is the meaning of a derivation the table leads along, read off the table with no stack in sight, of the input up to where it stops |
| `LRDriver.Stacks.Reduce` | evaluators/jseval.js:11 | the reduce branch on the three mutable stacks is one step of the specification |
| `LRDriver.ParseLoop` | evaluators/jseval.js:11 | the shift/reduce loop answers what the step function, run to its end, answers |
| `WholeTable.WholeIsValid` | evaluators/jseval.js:11 | the whole parse table, all 175 states, meets its certificate: parsing any token list is sound and ends |
| `WholeTable.ReduceSetsAreLevels` | evaluators/jseval.js:11 | the precedence levels are what the reduce sets, written as the table lists them, say: a complete operation is reduced on just the symbols of its set, and an operator is in it if and only if it binds no tighter |
| `Places.PartsGo` | evaluators/jseval.js:11 | wherever a phrase may stand, each symbol of each of its productions leads on from the state before it; a token that goes on with an expression does so exactly if it binds tighter than the expression is held |
| `Endings.EndsIff` | evaluators/jseval.js:11 | where a production has been read to its end it is reduced by exactly if it holds on to its last operand against the next token, but for the two conflicts between a name and a list of one name and between a block and an empty object |
| `Leading.Follows` | evaluators/jseval.js:11 | the table leads along a derivation, wherever its phrase may stand and before whatever may follow, if and only if the derivation is grouped by precedence, also with its neighbours |
| `Leading.ParserIff` | evaluators/jseval.js:11 | the language's own parser exactly: it returns a value if and only if that is the meaning of a derivation by the 81 productions, grouped by precedence, of the tokens before the end of the file. Unparenthesised operators are therefore read in declarations, returns, conditions, arguments, bodies and everywhere else an expression stands |
| `LexerRuns.NextProgresses` | evaluators/jseval.js:11 | a token-less step of `next` consumes input, and so does every token before the end, so `lex` terminates |
| `LexerRuns.NextKeeps` | evaluators/jseval.js:11 | `next` keeps `matched` + `_input` equal to the source and `yylineno` equal to the line terminators matched, CR LF once; locations tile |
| `LexerRuns.LexerBookkeeping` | evaluators/jseval.js:11 | after any number of steps: matched and input make up the source, line numbers are right, and columns too if the source has no U+2028 or U+2029 |
| `LexerRuns.LineEnds` | evaluators/jseval.js:11 | a line ends at a line feed, a carriage return, or the two together, and nowhere else |
| `LexerRuns.LastLineIs` | evaluators/jseval.js:11 | the piece a column is counted in is what follows the last of them |
| `LexerRuns.ColumnsAreRightIff` | evaluators/jseval.js:11 | over any run the column is right if and only if the last match over several lines has no U+2028 or U+2029 on its last line |
| `LexerRuns.ColumnIsRightIff` | evaluators/jseval.js:11 | the column computed after a match is right if and only if the match is on one line or its last line has no separator character |
| `LexerRuns.SeparatorShiftsColumns` | evaluators/jseval.js:11 | a concrete source whose first step leaves a wrong column |
| `Rendering.BlockCommentIff` | evaluators/jseval.js:11 | rule 1 matches `/*`, a text without `*/`, and `*/`, and nothing else |
| `Rendering.BlockCommentIsDropped` | evaluators/jseval.js:11 | before any text that is one match and no token |
| `Rendering.LineCommentIff` | evaluators/jseval.js:11 | rule 0 matches `//` and all that is left of the line, and nothing else |
| `Rendering.LineCommentIsDropped` | evaluators/jseval.js:11 | before the end of its line, or of all, that is one match and no token |
| `Rendering.BlanksAreDropped` | evaluators/jseval.js:11 | tabs, line ends, spaces and the other blanks of the host before anything else are one match and no token |
| `Rendering.DroppedIs` | evaluators/jseval.js:11 | and nothing but comments, blanks and opening quotes is dropped outside of strings |
| `Scanner.ScannerObject.PerformAction` | evaluators/jseval.js:11 | the per-rule action: `begin`, `popState`, a token or neither |
| `Scanner.ScannerObject.NextStep` | evaluators/jseval.js:11 | `next` on the scanner object is the specified step |
| `Scanner.ScannerObject.LexToken` | evaluators/jseval.js:11 | `lex` on the scanner object is steps until a token |
| `StringLiterals.PiecesDenote` | evaluators/jseval.js:11 | folding productions 63 to 67 over the pieces of an escaped string gives the string |
| `StringLiterals.StringRoundTrip` | evaluators/jseval.js:11 | for every string and either quote: escaping, scanning through the condition stack and folding gives the string back, cut into maximal plain runs and escapes, and leaves the scanner just behind the literal in the condition it started in |
| `StringLiterals.EscapeIsRead` | evaluators/jseval.js:11 | an escape between quotes is one token and means its control character for `b`, `n`, `r` and `t`, itself for quotes and the backslash, nothing for an escaped line end, and otherwise keeps its backslash |
| `StringLiterals.MeaningFolds` | evaluators/jseval.js:11 | the meaning of any derivation of a quoted string by productions 63 to 67 is the fold of its pieces |
| `StringLiterals.StringMeans` | evaluators/jseval.js:11 | what the scanner emits for an escaped string has a derivation as a quoted string, and every such derivation means the string |
| `Rendering.ScansWords` | evaluators/jseval.js:11 | names, numbers, keywords, operators, punctuation and quoted strings are scanned back one by one, with any blanks and comments between them, and with nothing where two words cannot run together |
| `Rendering.NameUses` | evaluators/jseval.js:11 | an identifier that is no keyword is scanned by rule 38 and no earlier one |
| `Rendering.KeywordUses` | evaluators/jseval.js:11 | a keyword is scanned by its own rule and no earlier one |
| `Rendering.NameIsWhole` | evaluators/jseval.js:11 | what rule 38 is the first to match is an identifier and no keyword |
| `Rendering.NumeralUses` | evaluators/jseval.js:11 | a number with or without fraction and exponent, before anything that cannot continue it, is scanned whole by rule 39 and by no earlier one |
| `Rendering.NumeralIsWhole` | evaluators/jseval.js:11 | what rule 39 matches is a number by itself |
| `Rendering.NumeralIsLongest` | evaluators/jseval.js:11 | and it is the longest one that ends at a word's edge |
| `Rendering.IntegersAreNumerals` | evaluators/jseval.js:11 | so rule 40 is never the first to match |
| `Pipeline.TokensAreProper` | evaluators/jseval.js:11 | every name token spells an identifier that is no keyword, every number token a numeral, and every keyword, operator and punctuation token itself |
| `Pipeline.EofIsLast` | evaluators/jseval.js:11 | the end of the source comes last among its tokens |
| `Trees.ActHasSort` | evaluators/jseval.js:11 | each of the 81 semantic actions builds a value of exactly the sort of its phrase, given such values |
| `Trees.StmtTreeIsStmt` | evaluators/jseval.js:11 | trees of that sort have the shape that hygiene, confinement and scope are proved for |
| `Texts.ProgramIsDerived` | evaluators/jseval.js:11 | what a text is read as is the meaning of a derivation of all its tokens by the grammar |
| `Texts.ProgramIsGrouped` | evaluators/jseval.js:11 | the language exactly, derivation by derivation: a text is read as a program if and only if its tokens have a derivation, grouped by precedence, that means it |
| `Texts.GroupedIsRead` | evaluators/jseval.js:11 | every such derivation, written in words with any blanks and comments that keep them apart, is read as what it means |
| `Texts.TreeIsWritten` | evaluators/jseval.js:11 | every tree of a program is written with only those parentheses around operands that precedence calls for, each pair being needed, and read back as itself in any spacing |
| `Texts.ProgramIff` | evaluators/jseval.js:11 | the language exactly, tree by tree: a tree is what some text is read as if and only if it is a tree of the grammar |
| `Printing.ExpressionIsWritten` | evaluators/jseval.js:11 | an expression written down derives from the grammar, is grouped by precedence, has no parentheses around it or to spare, means its tree and is spelled in words |
| `PrintingStatements.StatementIsWritten` | evaluators/jseval.js:11 | so does every statement, its expressions bare: declarations, returns, assignments, conditionals, loops, blocks and functions |
| `Texts.ProgramIsTree` | evaluators/jseval.js:11 | whatever text is a program is a tree of the grammar |
| `Pipeline.ParseIgnoresPlaces` | evaluators/jseval.js:11 | tokens that are spelled alike are parsed alike |
| `Arrows.BareArrowIsNoProgram` | evaluators/jseval.js:11 | arrows group to the left: no text in which an arrow, a name and an arrow follow one another is a program |
| `Arrows.ArrowInParenthesesIsProgram` | evaluators/jseval.js:11 | with parentheses around the inner arrow it is, in any spacing |
| `Denotation.EvalDenotes` | evaluators/jseval.js:11 | from any good store the evaluator gives an operator expression the value of a semantics that looks up no operator, and changes nothing |
| `Denotation.TextDenotes` | evaluators/jseval.js:11 | text to value: scanning, parsing and evaluating the text of a program of expressions, in any spacing, gives its meaning and leaves the store alone |
| `Denotation.TextAfterTexts` | evaluators/jseval.js:11 | the same after any session of texts, each read and run in full or rejected: what they declare and assign is in the store the expression is looked up in |
| `Denotation.TextMeans` | evaluators/jseval.js:11 | whatever a text in the whole language is read as, after any session of texts it answers just what the rules prove of that, but that a return outside of functions is an error |
| `Denotation.CallingMeans` | evaluators/jseval.js:11 | the text of a function declaration and a call of it, in any spacing and after any texts, answers what the expression returned answers in one new frame with each parameter bound to its argument, and nothing else |
| `Denotation.CallingDenotes` | evaluators/jseval.js:11 | with operator expressions: exactly the meaning of the returned one where each parameter means what its argument does |
| `Streams.Call` | evaluators/jseval.js:11 | calling a tail of a stream that ends makes it shorter, so every function below terminates |
| `Streams.MapIs` | evaluators/jseval.js:11 | list `map` has the length of its list and applies the function at each place |
| `Streams.FilterIs` | evaluators/jseval.js:11 | list `filter` works part by part and keeps an element exactly if it satisfies the predicate |
| `Streams.ReverseIs` | evaluators/jseval.js:11 | list `reverse` has at each place the element as far from the other end |
| `Streams.EnumListIs` | evaluators/jseval.js:11 | `enum_list` counts up from its first argument and ends with its second |
| `Streams.MapAgrees` | evaluators/jseval.js:11 | `stream_map` is list map, on any stream that ends |
| `Streams.FilterAgrees` | evaluators/jseval.js:11 | `stream_filter` is list filter, on any stream that ends |
| `Streams.RemoveAllAgrees` | evaluators/jseval.js:11 | `stream_remove_all`, by its own recursion, is `remove_all` |
| `Streams.RemoveAllIsFilter` | evaluators/jseval.js:11 | and filters by inequality |
| `Streams.AppendAgrees` | evaluators/jseval.js:11 | `stream_append` is `append` |
| `Streams.ReverseAgrees` | evaluators/jseval.js:11 | `stream_reverse`, with its accumulator of held streams, is list reverse |
| `Streams.StreamsAgreeWithLists` | evaluators/jseval.js:11 | all of them on `list_to_stream` inputs |
| `Streams.IntegersAreEnumerated` | evaluators/jseval.js:11 | `eval_stream(integers_from(k), n)` is `enum_list(k, k + n - 1)` |
| `Streams.MapAgreesUpTo` | evaluators/jseval.js:11 | mapping commutes with `eval_stream`, also on streams without end |
| `Streams.EvalIsTake` | evaluators/jseval.js:11 | `eval_stream` takes a prefix, or fails exactly when the stream is too short |
| `Protocol.Le32RoundTrip` | README.md:14-28 | integers are little-endian: reading one back anywhere in a buffer gives it |
| `Protocol.MakePersistentInput` | evalbotlib/src/eval.rs:234-255 | the buffer appended to step by step is the encoding, truncation and wrap-around of 32 bits included |
| `Protocol.EncodeLayout` | README.md:20-28 | for the requests the lengths can tell, the encoding is timeout in milliseconds, key length, code length, key, code |
| `Protocol.JsConnection.OnData` | evaluators/jseval.js:97-116 | the `data` handler keeps all bytes and fires whenever a whole request is there |
| `Protocol.JsFires` | evaluators/jseval.js:97-116 | the handler fires once for each chunk that leaves it with a whole request, always with the fields sent, also when bytes follow the request |
| `Protocol.JsFiresOnceIff` | evaluators/jseval.js:97-116 | exactly one firing if and only if the last chunk is the one that completes the request |
| `Protocol.JsAnswersTwice` | evaluators/jseval.js:97-116 | a whole request and then one byte more: two firings with the same fields |
| `Protocol.JsChunkIndependence` | evaluators/jseval.js:97-116 | however a request is split into non-empty chunks, the handler fires exactly once, on the last one, with the three fields sent |
| `Readers.ReadExact` | evaluators/cseval/Program.cs:76-88 | fills the buffer with the next bytes of the stream, however it is chunked, or says that it ended; terminates |
| `Readers.CsReceive` | evaluators/cseval/Program.cs:90-106 | header, body and slices: what is received depends on the bytes only, including sums that wrap, and the calls that throw: an array of negative size, a slice of negative length |
| `Readers.JavaRead` | evaluators/javaeval/src/main/java/io/github/angelsl/javaeval/JavaEval.java:184-193 | fills the byte buffer or reports the early end; terminates |
| `Readers.JavaReceive` | evaluators/javaeval/src/main/java/io/github/angelsl/javaeval/JavaEval.java:195-213 | header and two slices, with signed sizes whose sum wraps |
| `Readers.ReadersAgree` | README.md:18-28 | however a request is split, the three readers recover the three fields the writer sent |
| `Readers.BlockingReadersAgree` | evaluators/javaeval/src/main/java/io/github/angelsl/javaeval/JavaEval.java:195-213 | on arbitrary bytes the C# and Java readers accept the same requests, up to the sign of the timeout |
| `Readers.ReceiveResponse` | evalbotlib/src/eval.rs:183-214 | the bot reads the length, caps it at 1024 and reads as much |
| `Readers.ResponseRoundTrip` | README.md:30-35 | a response comes back whole up to 1024 bytes and as its first 1024 beyond |
| `Readers.TextComesBack` | evalbotlib/src/eval.rs:205-216 | as text: whole up to 1024 bytes, else the whole characters that fit and one replacement if the cut splits one |
| `CarryOver.FirstIsOnTheWire` | evaluators/exeval.exs:33-43 | the binary pattern takes a frame off the front: written again before the rest it gives the buffer back |
| `CarryOver.WireReadsBack` | evaluators/exeval.exs:33-43 | and a frame written is taken off again, with the same rest |
| `CarryOver.EncodedIsFirst` | evalbotlib/src/eval.rs:234-255 | what the bot writes, before any rest, is taken off as its timeout, key and code, each where the writer put it |
| `CarryOver.Conservation` | evaluators/exeval.exs:11-43 | over any run of receives, all bytes received are the frames evaluated followed by the buffer held |
| `CarryOver.EvaluatedIsPrefix` | evaluators/exeval.exs:11-43 | the frames evaluated are the first of those the whole stream, whatever follows, decodes to |
| `CarryOver.OneFramePerReceive` | evaluators/exeval.exs:11-43 | each receive evaluates one frame more unless none is complete |
| `CarryOver.AnsweredIffWhole` | evaluators/exeval.exs:11-43 | when each connection yields in its one receive a beginning of its own request, every connection has its own request evaluated if and only if each receive yields the whole of it |
| `CarryOver.SplitIsAnsweredLate` | evaluators/exeval.exs:11-43 | a request split after any proper beginning is evaluated on the next connection, so its own is not answered |
| `CarryOver.HeaderIsAnsweredLate` | evaluators/exeval.exs:11-43 | a concrete one: the first connection yields the 12 bytes of the header, the second completes it |
| `CarryOver.BindingsAreTheContextsOwn` | evaluators/exeval.exs:45-75 | bindings of a context are the fold of its own frames; a failed evaluation changes none |
| `Continuation.JsServer.GetContext` | evaluators/jseval.js:14-30 | one record per key, made anew for a new key or after `reset`, and no two keys share one |
| `Continuation.JsServer.HandleRequest` | evaluators/jseval.js:70-95 | the server with its records updated in place is the specified step on fragment lists |
| `Continuation.PyServer.HandleInt` | evaluators/pyeval.py:51-76 | so is the one with two dictionaries, joining by newlines |
| `Continuation.BuffersAreHistory` | evaluators/jseval.js:70-95 | over any interleaving of keys, a key's buffer is its fragments since its last completed request or reset |
| `Continuation.SourcesAreHistory` | evaluators/pyeval.py:51-76 | the source submitted for each request is that key's pending fragments and the new one, joined |
| `Continuation.RepliesAreHistory` | evaluators/jseval.js:70-95 | over any interleaving, the reply is the interpreter's output for that key's pending fragments and the new one, joined and run in the context that the key's own runs have left, if that run completes, and `(continue...)` otherwise |
| `Continuation.ConcatIs` | evaluators/jseval.js:70-73 | the JavaScript server joins fragments end to end |
| `Continuation.JoinLinesIs` | evaluators/pyeval.py:57-62 | the Python one puts one line feed between neighbours |
| `Continuation.KeysAreIsolated` | evaluators/jseval.js:14-95 | a key gets the replies, context and buffer it would have with the server to itself |
| `Utf8.CharRoundTrip` | tgbot/src/main.rs:79-80 | decoding a character that was encoded gives it, whatever follows (RFC 3629, section 3) |
| `Utf8.DecodedIsEncoded` | tgbot/src/main.rs:79-80 | only what encodes a character is decoded as one: no overlong forms, no surrogates |
| `Utf8.ExtentIsMaximal` | tgbot/src/main.rs:79-80 | what one U+FFFD replaces is as long as it can be: with the next byte it begins no character, and if it has several bytes it begins one |
| `Utf8.TextRoundTrip` | tgbot/src/main.rs:79-80 | lossy decoding changes nothing in well-formed text |
| `Utf8.CutText` | tgbot/src/main.rs:79-80 | cut at any byte and decoded, text is its whole characters that fit and one U+FFFD if the cut splits one; at most 3 bytes do not fit |
| `Utf8.WholePrefixIsLongest` | tgbot/src/main.rs:79-80 | no longer prefix fits |
| `Telegram.WrapResult` | tgbot/src/main.rs:73-103 | the pipeline, with four replacements one after the other: unless the result is empty, the text between the tags, with its entities read back, holds in order just those characters of what the result is cut to that are a tab, a line feed, or neither a control character nor U+FFFD; it ends in the marker if and only if the cut costs more than one byte; a text of at most 512 bytes with none of the others, and in a group no line feed, comes back as it is |
| `Telegram.MessageSays` | tgbot/src/main.rs:73-103 | the same of the message defined by one substitution of characters, the cut text being the longest beginning of at most 512 bytes, with U+FFFD if they end inside a character, and in a group its first ten lines |
| `Telegram.FourReplacements` | tgbot/src/main.rs:84-95 | replacing `&` first makes the four replacements one pass |
| `Telegram.UnescapeInverts` | tgbot/src/main.rs:84-95 | reading the entities back gives the text |
| `Telegram.EscapeIsSafe` | tgbot/src/main.rs:84-95 | escaped text holds no `<`, `>` or `"`, and `&` only where an entity starts |
| `Telegram.ShowsFitting` | tgbot/src/main.rs:79-90 | cutting bytes, decoding and filtering is filtering the longest whole-character prefix of at most 512 bytes |
| `Telegram.GroupCut` | tgbot/src/main.rs:81-83 | in a group, any characters in it, the text loses the carriage returns before line feeds and is then cut at the end of its tenth line, or loses a line feed at its very end, and nothing else |
| `Telegram.MarkerBounds` | tgbot/src/main.rs:97-101 | without the marker at most 4 bytes of the input are missing, before control characters are dropped; with it something is |
| `Telegram.UnmarkedLossIff` | tgbot/src/main.rs:97-101 | before control characters are dropped, characters are lost unmarked if and only if the input has at most 512 bytes and its line ends cost exactly one, or it has more and, line ends added, exceeds 512 by no more than the replacement hides: 1 byte, or 4 less those the cut left over; line ends cost in a group only, where the lines must also fit |
| `Telegram.ShownLossIff` | tgbot/src/main.rs:84-101 | what the message shows lacks characters unmarked if and only if a short input in a group has fitting lines, no carriage return before a line feed and a line feed at its end, or a longer one loses characters as above and something behind what fits would be shown, or in a group a line feed is the last that fits |
| `Telegram.LineFeedIsLostUnmarked` | tgbot/src/main.rs:97-101 | a concrete text that loses its final line feed unmarked in a group |
| `Telegram.LetterIsLostUnmarked` | tgbot/src/main.rs:97-101 | a concrete text that loses a letter unmarked |
| `Telegram.MessageIsShort` | tgbot/src/main.rs:73-103 | a message has at most 3098 characters and in a group at most 10 lines |

## Left out

- WholeTable.WholeIsValid: leaves out the accepting entry of the table's state 1, which is never reached because production 1 returns from the parser.
- Texts.TreeIsWritten: writes each property access, array and object as one example of its kind, because its tree keeps nothing of it; `Texts.GroupedIsRead` covers all of them.
- `break`, `continue`, arrays, objects, property access and assignments to properties: they have no case in `evaluate`, and are one node here, with the tag of the original, that fails.
- Finaliser.FinaliserMayRunOutside: states that disjoint names suffice, and `Finaliser.FinaliserSeesDeclarations` that without them the loops can differ. They need not: a body that is never run makes no difference.
- Names inherited from `Object.prototype`: frames are maps.
- Text printed by `display` and the wording of errors; `display` yields undefined and `error` fails.
- Floating-point arithmetic and coercions, which are the `Host` parameter, and the `math_` functions; `math_PI` is any number.
- The value of a numeral: the parameter `number`, one for both kinds of numeral token, of which the scanner only ever yields the first.
- The lookahead of the parser is the next token of a finished list; the original fetches it only when a state has no default action. Lexical errors therefore show earlier in the model.
- Characters outside the Basic Multilingual Plane are one character in the scanner's model and two code units in the original.
- Scanner paths not in use: `unput`, `less`, `reject`, `more`, backtracking and `showPosition`.
- Streams.StreamFilter: does not model filtering a stream that never ends, which may never answer; and the elements mapped stay in one type, as all values of the host do.
- `stream_remove`, `stream_member`, `stream_ref`, `build_stream` and the tree and array libraries: one reading settles them.
- Protocol.JsChunkIndependence: keys and codes stay bytes; decoding them as UTF-8 is modelled for responses (`Readers.TextComesBack`) and messages only.
- The size limits of a runtime's largest array, below the 31 bits that the model allows.
- `readinput` of the Python evaluator: a blocking read of exact sizes, like the two that are modelled.
- CarryOver.Conservation: does not model a failing receive, after which the code drops the buffer, or an evaluation that is thrown out of instead of rescued.
- Continuation.PyServer.HandleInt: does not model `runsource` itself raising, after which `more` has no value; and a context that code of another key changes through shared host objects.
- Telegram.GroupCut: keeps a carriage return at the very end of the text, as the documentation of `lines` says.
- Sockets, processes, timeouts, sandboxing, configuration, whitelists and the Telegram API.
- `JavaEval`'s completion loop and the C# scripting calls: their behaviour rests on libraries that are not part of this model.
