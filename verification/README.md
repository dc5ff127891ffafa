# babyutils: a verified model of the Manchester Baby tool chain

This project models the tool chain for the Manchester Baby: the macro assembler `bas`, the simulator
`bsim`, the disassembler `bdump`, and the libraries they share. It proves what connects them. The parts:

- **Words and instructions** (`Words`, `Arch`, `ArchTables`, `Libc`, `InstructionSet`): 32-bit words with
  wrap-around, C's bit operations, the instruction word, the sorted mnemonic table and the opcode index; which names
  are mnemonics, in which spellings, and the words they make.
- **Store and machine** (`Memory`, `Machine`, `EffectiveJumps`, `LongDivision`): a fully aliased page, read with
  `%` and written with `&`; the five-phase cycle; and the program `test/ldiv.asm`, proved for all inputs.
- **Symbols and expressions** (`Scopes`, `Symbols`, `Evaluation`, `Eval`, `SyntaxTrees`): lazily sorted tables
  chained into contexts; the evaluator that overwrites trees and memoises into the tables, as code and as a
  function on values (`Evaluation.Evaluate`); the denotation it computes where that does no harm; and the arithmetic
  of sums and differences (`Arithmetic`).
- **Macro expansion** (`Macros`, `Hygiene`, `Expansions`, `Traces`, `ParseSteps`, `CallContexts`,
  `StatementParser`): what a program with macros means (substitution with fresh local labels), and `parse_stmts`,
  which makes the contexts and fills the record buffer, as code and as a function (`Traces.Traced`); and that
  spelling mnemonics and macros in other cases of letters changes nothing (`Respelling`).
- **The two passes** (`Layout`, `Sections`, `Overlap`, `Records`, `SecondPass`, `Passes`, `BabyAssembler`,
  `Sharing`, `Independence`, `Startup`): layout, label binding, encoding, words that overlap, operands that are
  shared, and the theorem for the assembler as a whole.
- **Object files and disassembly** (`ObjectFormat`, `ObjectText`, `Disassembler`, `Listings`, `Reassembly`):
  writer and loader are inverse; what the text is, character by character, and what the loader passes over in it;
  which words a listing shows as instructions; and that it assembles to the image it was made from.
- **End to end** (`LongDivisionSource`, `CleanPrograms`, `MacroTest`, `MacroTestRun`): the sources of `test/ldiv.asm`
  and of `test/macro.asm`, assembled, written in any of the bit formats, loaded and simulated, leave in the store what
  they promise.
- **Where the code goes wrong** (`SideConditions`, `Programs`, `ProgramRuns`, `FailingPrograms`, `FailingRuns`, and
  lemmas named in the table): exact conditions, and for each of them a program, from its statements, whose run
  from program start leaves a section that is not what its text says.

## The main results

1. `BabyAssembler.Assemble`, and `Startup.AssembleProgram` from program start: for every program whose macros
   can be ranked and that fits the section, expansion, first and second pass end, and do what a function of the
   program says, whatever its calls capture and whatever overlaps. `BabyAssembler.Assembled` gives the contexts
   in the order in which they are made, each with its arguments evaluated in order as far as they could be, the
   labels bound in them, and the events of the records; `BabyAssembler.WordsOf` the words that evaluating the
   operands one after the other puts, every expression overwritten on the way included, or that the run fails.
   The code succeeds exactly when there are such words, and the section is what putting them makes it. From
   program start nothing but the program decides: neither the built-in mnemonics nor the names that the parser
   has met change the run (`Startup.StartsAlike`, `Independence.WordsAlike`).
   - The events are the expansion of the program (`BabyAssembler.RunExpands`, `Traces.TraceExpands`).
   - Unless memoisation does harm (`Scopes.Harmless`), the run succeeds exactly when every operand has a meaning
     in those contexts, and the words are those meanings' (`BabyAssembler.HarmlessWords`).
   - If no call captures a name (`BabyAssembler.CaptureFree`), they are the meanings of the expanded text
     (`BabyAssembler.CaptureFreeWords`); if no two instructions share an address, each lies at its own.
   - The value of an operand is that of the *first* instruction that shares its operand list, because the code
     overwrites the list it shares; `BabyAssembler.SharingExact` and `Sharing.HoldsOwnExact` say exactly when that
     is the value, and the word, of the substituted text.
2. `LongDivisionSource.AssembleAndRun` and `LongDivision.LongDivisionCorrect`: long division is correct for
   every divisor, dividend and quotient bit in range, with the exact number of cycles.
3. `MacroTestRun.AssembleAndRun`: `test/macro.asm`, in which macros apply macros, one of them before it is defined
   and in other letters than it is defined in, assembles to the words of its text, and leaves 8 in both its results.
4. `Reassembly.DisassembleThenAssemble` and `ObjectFormat.WriteThenLoad`: the two round trips. What they go through
   is pinned down on its own: `Disassembler.DataExact` and `Disassembler.LinesTell` say which words are listed as
   instructions, in terms of the assembler; `ObjectText.AddressedLineLaw`, `ObjectText.TextLaw` what is written;
   `ObjectText.StatementRead`, `ObjectText.BlankLinesIgnored`, `ObjectText.TailsIgnored` and
   `ObjectText.MalformedRead` what is read.
5. `Arithmetic.MeaningIsTotal`: the meaning of an operand is the integer its text adds up to, modulo 2^32; and
   `Arithmetic.EvaluateMinus` and `Arithmetic.EvaluatePlus` say so of each step of the evaluator.
6. `Respelling.ProgramSame`: a program whose mnemonics and macro names are spelled in other cases of letters has the
   same words, or fails as the other does.
7. `Machine.AliasingBisimulation`: instruction counters that differ by a multiple of the page size cannot be
   told apart by any run.
8. `Scopes.MemoTransparent`, `Scopes.MemoExact` and `Scopes.PartialThenFull`: when memoisation and early
   evaluation of arguments change no meaning, in terms of the tables as they are before.

## How the code is read

- A word is the unsigned number of its bits; `Signed` gives the reading as `word_t`.
- Names are their text, as in every comparison the tables make. Mnemonics are compared without case.
- Symbol contexts live in one sequence in order of creation. A context's index stands for its pointer, so a
  parent's index is smaller. A table is the sequence of its symbols; `count` is its length. Pointers to
  symbols are kept across sorting and recursion, and that they stay good is proved (`Symbols.PointerKept`).
- An operand list is a heap cell shared by all applications of the macro it stands in. Within one
  list the operand is an expression value that the evaluator replaces; `SyntaxTrees` shows the same evaluator
  on nodes overwritten in place, and the copying of trees with tuples, lists and the shared nil.
- A mnemonic symbol that has been referenced but never set has an uninitialised value in the code
  (`libbaby/symbols.c:154-157`); it is read as null.
- The arguments of a call that both fill and use `sv` (`bas.c:131`, `bas.c:415-417`) are taken in the order
  that is meant: filled first.
- `libbaby/symbols.c:142` passes `true` as the scope, which is the local scope; `libbaby/arch.c:119` passes
  `true` as the subtype, which is `SYM_ST_MNEM`. The model follows the values.
- `bdump.c:119` tests `n_instrs` of the first record where the record at hand seems meant. Without a word of
  opcode 5 both are positive and the test is the same.

## Where the code and its intent part

- **Shared operands.** A macro body shares its operand lists with every application, and the first application
  overwrites them by its values. So an operand that mentions a formal, in a macro applied with different
  arguments, gets the first application's value every time: `word 1` and `word 2` assemble to 1 and 1
  (`FailingPrograms.TwiceMeans`, `FailingRuns.AssembleTwice`). The macro `ld` of
  `test/subroutines.asm` is applied like that, and `add2`, `sub2`, `inc` and `dec` there invite it. The same goes
  for operands that mention a local label (`FailingPrograms.SharedOperandGoesWrong`,
  `FailingRuns.AssembleLoops`; `jsr` in that file) or `$`. Exact conditions: `BabyAssembler.SharingExact` for
  values, `Sharing.OwnWordsExact` for words.
- **Overlap.** A machine instruction laid out on an owned word is silently lost, and so are those after it up
  to the next origin (`Overlap.OverlapSwallows`, `FailingPrograms.OverlapLosesWords`,
  `FailingRuns.AssembleOverlapping`); a directive there is an error
  (`FailingPrograms.OverlappingDirectiveFails`). No word is refused, and every word arrives, if and only if no
  addresses coincide (`Overlap.RefusedExact`, `Overlap.OverlapExact`).
- **Capture at the call.** Arguments are evaluated in the callee's context, where the formals before them are
  already bound: `pair 1, x` hands 1 on twice (`FailingPrograms.CaptureMeans`, `FailingRuns.AssembleCapture`). An
  argument that is a name is bound to what it means to the caller, whatever words those formals hold, if and
  only if none of them is a word of that name (`SideConditions.ArgumentNameExact`).
- **Capture by memoisation.** Recording the word of a formal changes what other arguments of the call mean
  that mention a name like it: `pair a, x` hands the address of a on twice (`FailingPrograms.RecordMeans`,
  `FailingRuns.AssembleRecord`). No recording changes the meaning of a name that a kept argument mentions if and
  only if the tables are `Scopes.Harmless` (`Scopes.MemoExact`); for one formal, `Scopes.RecordNameExact`.
  `Scopes.NoCapture`, that no argument mentions another formal of the call that stays an expression, is enough
  (`Scopes.NoCaptureHarmless`).
- **Early words.** A name that is a formal's word at the call stays that word even if a label of the calling
  text hides it (`FailingPrograms.HidingMeans`, `FailingRuns.AssembleHiding`). Exact condition:
  `SideConditions.EarlyWordExact`.
- **`$` in an argument** is not the location: it is evaluated where the assembler's own context is out of
  reach, so the argument has a value only if a label of the program is called `$`, and then it is that label
  (`SideConditions.DollarInArgument`). Otherwise assembly fails (`FailingPrograms.DollarMeans`,
  `FailingRuns.AssembleDollar`).
- **Trailing labels.** A label or origin that ends a list is dropped. Exact condition: `Macros.LabelsExact`.
- **Disassembling odd lengths.** The disassembler loads into a page of exactly the image's length but masks
  addresses with `length - 1`, so images are kept intact if and only if the length is a power of two
  (`Memory.ExactPageFaithfulIffPow2`).
- **Opcode 5** has no mnemonic (`ArchTables.ArchState.FindOpcode` finds one for every other opcode), and the
  disassembler fails on it; images with such a word are outside `Disassembler.Listable`.

## Model

| member | source | states |
|---|---|---|
| `BabyAssembler.Assemble` | bas.c:302-446 | Ends for every ranked program that fits, and does what the run on values says: it succeeds exactly when that run has words, puts them in order, and leaves the section that makes, every instruction being acceptable. Without capture it succeeds exactly when the program expands and every instruction of the expansion assembles, and with distinct addresses each of their words (an operand shared by several being that of the first) lies at its own. |
| `BabyAssembler.RunExpands` | bas.c:302-446 | The events of the run, read from the root, are the items of the expansion, and no label of any context is missing. |
| `BabyAssembler.HarmlessWords` | bas.c:260-281 | Where memoisation is harmless in the contexts made, the run has words exactly when every operand means something there, and the words are those meanings'. |
| `BabyAssembler.CaptureFreeWords` | bas.c:302-446 | Without capture memoisation is harmless, the run has words exactly when every instruction of the expansion assembles, and they are those instructions' words. |
| `BabyAssembler.ParsedRun` | bas.c:302-446 | When parse_stmts returns from the outermost list, contexts, scopes and records are those of the run. |
| `BabyAssembler.SharingExact` | bas.c:188-203 | Every instruction gets its own operand's value if and only if instructions that share an operand list agree on it. |
| `BabyAssembler.SharingHarmless` | bas.c:188-203 | Operands that read the same in every application and do not mention `$` get their own values, shared or not. |
| `Sharing.OwnWordsExact` | bas.c:188-203 | Where each operand list stands in one statement, every instruction gets its own word if and only if instructions that share an operand agree on theirs. |
| `Sharing.HoldsOwnExact` | bas.c:188-203 | A section that holds such a program holds the words of its substituted text if and only if sharers of an operand agree on theirs. |
| `Sharing.ExpansionHasOneStatement` | bas.c:390-426 | If every operand list with operands stands with one mnemonic in the program and its macros, it does so in the expansion. |
| `BabyAssembler.PlacedWords` | bas.c:222-236 | With distinct addresses, the words put lie where they were laid out, and there is nothing else. |
| `BabyAssembler.TwoPasses` | bas.c:246-281 | Run on parsed records, overlapping or not, the two passes bind the labels to their addresses and then succeed exactly when the pass on values does, putting its words; every instruction of the expansion was then acceptable. |
| `BabyAssembler.EnvAgrees` | bas.c:250-255 | A label of an application has the same address in the record buffer and in the expanded text. |
| `BabyAssembler.PassOneBinds` | bas.c:246-258 | After the first pass the contexts bind exactly the labels of the expansion, each to its last address there. |
| `BabyAssembler.ValuesAgree` | bas.c:182-206 | What the second pass computes for an operand list, through contexts and memoisation, is the value of the substituted operand at the first instruction that shares it. |
| `BabyAssembler.ProgramAgrees` | bas.c:168-244 | Record by record, an instruction assembles, and to which word, exactly as its expanded form does. |
| `StatementParser.ParseStmts` | bas.c:302-446 | For every ranked table of macros, whatever its calls capture: terminates; succeeds exactly when the list has a trace, which is when it expands; and then has made the contexts of the trace, in order and with their arguments bound, and pushed records that stand for its events, none with both a label and an origin. |
| `Traces.TraceExpands` | bas.c:302-446 | The events of a list's trace, read in the context of the list, are the items of its expansion, every label being where it belongs; and a list has a trace exactly if it expands. |
| `StatementParser.ParseCall` | bas.c:390-426 | One application: a context whose parent is the caller, arguments bound, the body's trace made in it; fails exactly on a wrong number of arguments or a failing body. |
| `StatementParser.BindArguments` | bas.c:394-418 | Succeeds exactly when the numbers of actuals and formals agree; each formal then holds what is left of its actual after evaluating it in the new context, with the formals before it bound. |
| `CallContexts.CleanArguments` | bas.c:411-417 | Without capture every formal holds the residual of its argument in the caller. |
| `CallContexts.ArrangedAdded` | bas.c:390-418 | An application adds to the scopes of the run the one its formals and actuals determine: each argument evaluated as far as possible with those before it bound, whatever they capture; earlier contexts are as they were. |
| `CallContexts.TraceSound` | bas.c:390-418 | Without capture, every context a list makes holds the residuals of its arguments in the caller and captures nothing. |
| `StatementParser.ParseMark` | bas.c:336-351 | A label or origin flushes what was pending and becomes pending; what has been made and what is left are still the list's trace. |
| `StatementParser.ParseDefinition` | bas.c:352-371 | A macro definition becomes a mnemonic of the root and makes no event. |
| `StatementParser.ParseApplication` | bas.c:383-427 | A call flushes what was pending and makes its context and the contexts and events of the body; if it fails, the list has no trace. |
| `StatementParser.ParseInstr` | bas.c:431-439 | An instruction completes the pending record and makes exactly one event. |
| `StatementParser.LookupMacro` | bas.c:376-383 | The mnemonic of a statement is looked up through the context chain and found to be a macro exactly when the root says so; which spellings those are is `Macros.DefineLaw`. |
| `Macros.DefineLaw` | bas.c:352-371 | After a definition its name, and each spelling that strcasecmp takes for it, stands for the macro, and every other name for what it stood for before. |
| `Macros.LaterExact` | bas.c:336-351 | Something follows a mark exactly if a later statement of the list is not a macro definition. |
| `Traces.WrongArity` | bas.c:394-408 | A list fails if one of its statements applies a macro, as defined by the statements before it, to more or fewer arguments than it has formals. |
| `Respelling.CourseSame` | libbaby/symbols.c:70-78 | Respelling mnemonics and macro names in other cases of letters leaves the contexts made, and changes events and expansion only in the spelling of mnemonics. |
| `Respelling.ProgramSame` | libbaby/symbols.c:70-78 | A respelled program has the same words, or fails as the other does, over any root. |
| `StatementParser.Flush` | bas.c:337-340 | A pending record is pushed exactly if it carries a label or an origin. |
| `ParseSteps.Advance` | bas.c:312-443 | The loop invariant of parse_stmts: the contexts made and the events pushed and pending, put before those of what is left, are always the trace of the whole list. |
| `ParseSteps.CallStep` | bas.c:383-427 | The contexts and records of a finished call are those the application has in the caller's trace, so the invariant is kept. |
| `ParseSteps.CallFails` | bas.c:404-425 | A call with the wrong number of arguments, or whose body fails, leaves the whole list without a trace. |
| `ParseSteps.Finish` | bas.c:443-446 | When the list is used up, what has been made and pushed is its trace: what was still pending belongs to a dropped label or origin. |
| `Expansions.RelSubst` | bas.c:390-426 | Records made by a call, read in the caller, are the substitution of the same records read in the body. |
| `Macros.LabelsExact` | bas.c:336-343 | A label of a list survives if and only if some later statement of the list is not a macro definition. |
| `Hygiene.SubstitutionMeans` | bas.c:390-426 | Substituting arguments and renaming labels outwards, then evaluating, is evaluating through the chain of contexts. |
| `Hygiene.ResidualMeans` | bas.c:411-417 | Evaluating an argument as far as possible at the call keeps what it means in the end. |
| `Hygiene.ContextsMean` | bas.c:113-161 | Evaluation in the bound contexts, residual arguments included, gives the meaning of the program as written. |
| `Hygiene.EarlyWord` | bas.c:133-135 | A word found for a name while parsing is the word the name has once all labels are bound, unless a label hides it. |
| `Hygiene.BoundNoCapture` | bas.c:126-132 | Calls free of capture give contexts in which no argument mentions another formal and memoisation is harmless. |
| `Hygiene.OperandMeans` | bas.c:197-202 | An operand's value in the assembler's context is the value of its substituted form. |
| `Scopes.MemoTransparent` | bas.c:126-132 | Where arguments that mention each other's formals mean the same, replacing expressions by their words in the tables changes the meaning of no expression, in any context, that mentions no disturbed name. |
| `Scopes.MemoExact` | bas.c:126-132 | No recording of any symbols, in any order, changes the meaning of a name that a kept argument mentions, if and only if arguments that mention each other's formals mean the same. |
| `Scopes.RecordNameExact` | bas.c:126-132 | Recording one formal's word leaves the meaning of its name to the arguments beside it if and only if the name meant that word already. |
| `Scopes.HarmlessKept` | bas.c:126-132 | Recording words leaves harmless what was harmless. |
| `Scopes.NamesDecide` | bas.c:133-161 | An expression has a meaning exactly if each of its names has. |
| `Scopes.MemoCompose` | bas.c:126-132 | Any number of such replacements, in any order, is again one. |
| `Scopes.PartialThenFull` | bas.c:133-161 | Evaluating as far as possible now and the rest later gives what evaluating later gives, in any extension in which the names resolved now keep their words. |
| `Scopes.MemoExtend` | bas.c:178-179 | A younger context holding only the location counter does not disturb what has been memoised. |
| `Eval.EvalExpr` | bas.c:113-166 | Terminates on every chain (measure: context, then expression). With partial results it leaves the residual and the tables as they were; without them the tree and the tables become exactly what Evaluate computes, what a failing evaluation has overwritten included, and it succeeds exactly when the tree has become a number; which number is `Arithmetic.EvaluateMinus` and `Arithmetic.EvaluatePlus`. |
| `Arithmetic.EvaluateMinus` | bas.c:144-161 | A difference is a number exactly when the left operand, and then the right one in the tables it leaves, are numbers; that number added to the right one gives the left one modulo 2^32. |
| `Arithmetic.EvaluatePlus` | bas.c:144-161 | The same of a sum, which is the sum of the numbers modulo 2^32. |
| `Arithmetic.HarmlessSums` | bas.c:144-161 | Where memoisation is harmless and the operands mean a and b, the difference ends in the number that added to b gives a, the sum in (a + b) mod 2^32. |
| `Arithmetic.ResidualSums` | bas.c:144-161 | Partial evaluation folds numbers to the same results. |
| `Arithmetic.FlatSums` | bas.c:144-161 | The meanings of sums and differences in expanded text: the same numbers, and one exactly when both operands have one. |
| `Arithmetic.MeaningIsTotal` | bas.c:113-166 | Where each name means an integer modulo 2^32, an expression means the integer its signs add up to, modulo 2^32. |
| `Arithmetic.LocationAndNone` | bas.c:178-200 | As an operand `$` is the location of the record, and no operand is 0. |
| `Evaluation.EvaluateMeans` | bas.c:113-166 | Where recording is harmless, evaluating has a value exactly when the expression has a meaning, and it is that; what it has overwritten are then expressions by their words. |
| `Evaluation.EvaluateRewrites` | bas.c:126-132 | Harmless or not, evaluating overwrites nothing but expressions, and only those of strict ancestors of its context. |
| `Eval.EvalSymbol` | bas.c:126-132 | An expression held by a symbol is evaluated in the context it was found in; its tree is overwritten by what that leaves, and the symbol holds the word if there is one. |
| `Evaluation.SequentialEval` | bas.c:146-147 | Evaluating the left operand leaves the right operand's meaning alone. |
| `Evaluation.MemoStep` | bas.c:130-131 | Recording a word keeps every meaning and the condition for the next recording. |
| `SyntaxTrees.EvalTree` | bas.c:113-166 | The evaluator on nodes: the tree it overwrites spells what EvalExpr returns, and no node outside the tree is touched. |
| `SyntaxTrees.EvalBranch` | bas.c:144-161 | A sum or difference whose operands became numbers becomes the number of `Arithmetic.FoldLaw` and lets go of its operands. |
| `Arithmetic.FoldLaw` | bas.c:149-158 | Two numbers fold to the sum, or to the number that added to the right one gives the left one, modulo 2^32; anything else stays a sum of its two sides in order. |
| `SyntaxTrees.CopyTree` | libbaby/asm-ast.c:119-160 | The copy of any tree, tuples and lists included, is structurally equal to it, is made of new nodes (the root being the preallocated one if there is one) and shares only the nil node; the original is as it was. |
| `SyntaxTrees.CopyElements` | libbaby/asm-ast.c:119-160 | The elements of a list are copied in order into an array of nodes that are not on the heap by themselves. |
| `SyntaxTrees.CopyThenEvaluate` | bas.c:411-412 | Evaluating the copy of an argument leaves the argument itself as it was. |
| `SyntaxTrees.Stmts` | libbaby/asm-parse.y:208-209 | The grammar's tuples chain the statements in reverse. |
| `SyntaxTrees.MkList` | libbaby/asm-parse.y:51-77 | The array is the reverse of the chain, for every length. |
| `SyntaxTrees.File` | libbaby/asm-parse.y:202-209 | The statement list is in source order. |
| `Symbols.SymbolStore.LookupWithContext` | libbaby/symbols.c:96-128 | Sorting on demand and binary search up the chain find the symbol and context that a linear walk over maps finds, for every scope rule, and change no table's contents. |
| `Symbols.SymbolStore.Search` | libbaby/symbols.c:108-115 | One table is searched as the map it stands for. |
| `Symbols.SymbolStore.Sort` | libbaby/symbols.c:80-88 | Sorting changes no table's contents and no good pointer. |
| `Symbols.SymbolStore.GetRef` | libbaby/symbols.c:136-161 | A name is added, undefined, exactly if it is new to this context's own table. |
| `Symbols.SymbolStore.SetVal` | libbaby/symbols.c:176-185 | One symbol's value changes, nothing else, and pointers stay good. |
| `Symbols.SymbolStore.Add` | libbaby/symbols.c:260-272 | Afterwards the context maps the name to the value, and everything else is as it was. |
| `Symbols.SymbolStore.GetVal` | libbaby/symbols.c:163-174 | The value in the nearest context that has the name. |
| `Symbols.SymbolStore.ContextCreate` | libbaby/symbols.c:212-216 | A new, empty context; the others are untouched. |
| `Symbols.SymbolStore.ContextDestroy` | libbaby/symbols.c:218-228 | The youngest context goes, the others are untouched. |
| `Symbols.SortKeepsContents` | libbaby/symbols.c:80-88 | Sorting keeps a table free of duplicates and the map it stands for. |
| `Symbols.SortedIsSearchable` | libbaby/symbols.c:60-78 | The search comparison is consistent with the sort order, with and without case. |
| `Symbols.FoundMeans` | libbaby/symbols.c:113-114 | A search that hits or misses says whether the map has the key, and its value. |
| `Symbols.WalkExcluding` | libbaby/symbols.c:116-122 | Excluding undefined symbols of the starting context leads any expression-valued symbol found into a strict ancestor: the ground of eval_expr's termination. |
| `Symbols.PointerKept` | libbaby/symbols.c:113-128 | A symbol pointer taken before a recursive evaluation still designates its symbol after it. |
| `Startup.Init` | bas.c:55-59 | At the start every built-in mnemonic is a symbol, no macro and no label is defined, and looking a name up among the symbols agrees with looking it up among the built-ins. |
| `Startup.Register` | libbaby/arch.c:115-120 | Registration leaves the root with exactly the mnemonics of the table. |
| `Startup.Reference` | libbaby/asm-parse.y:100-104 | A reference made by the parser defines nothing. |
| `Startup.AssembleProgram` | bas.c:302-446 | The assembler theorem from program start, for any ranked program that fits: success, words and section are those of the run on the program alone. |
| `Startup.StartsAlike` | bas.c:55-59 | From any tables without macros and any root without values, expansion, freedom from capture and the words of the run are those from empty tables. |
| `Independence.WordsAlike` | bas.c:302-446 | The words of a run do not depend on which names without values the root has. |
| `Independence.SameCourse` | bas.c:376-383 | Expansion, contexts and events depend on the mnemonic table only through the macros in it. |
| `Startup.AssembleSource` | bas.c:302-446 | A whole run on straight-line source succeeds exactly if each line gives a word, and produces those words. |
| `Passes.Assembler.PassOne` | bas.c:246-258 | Every label is bound to its last address, the section has room up to one past the highest address and is blank, and the cursor is back where it was. |
| `Passes.Assembler.Assemble` | bas.c:260-281 | For any layout and any names: succeeds exactly when the pass on values does, puts its words, and leaves the section that putting them in order makes. |
| `SecondPass.PassMeans` | bas.c:260-281 | Where memoisation is harmless the pass on values succeeds exactly when every instruction assembles; the words are those of their operands' meanings, each at the first use of its list, and the tables have changed by memoisation only. |
| `SecondPass.PassAccepts` | bas.c:182-234 | Harmless or not, the pass gets past no instruction whose list has two operands, none with an unknown mnemonic, and no directive on an owned word. |
| `SecondPass.OperandComputed` | bas.c:197-202 | Where memoisation is harmless, an operand has its meaning whatever has been recorded before. |
| `Passes.Assembler.EvalOperand` | bas.c:197-202 | An operand is evaluated with `$` as the current address above the record's context; it and the tables become what the evaluation on values makes of them. |
| `Passes.Assembler.EvalOperands` | bas.c:182-206 | Succeeds exactly for at most one operand whose evaluation gives a number; the list is overwritten by that number, and the value is it, or zero without an operand. |
| `Passes.Assembler.Emit` | bas.c:215-236 | A known mnemonic stores its encoded word at the cursor, or loses it on an owned word; an unknown one fails, and so does a directive on an owned word. |
| `Passes.Assembler.SecondPassRecord` | bas.c:168-244 | One record: the state stays that of the pass on values from item to item, or that pass fails. |
| `Passes.Assembler.AssembleInstr` | bas.c:182-244 | One instruction: the same, its operand list overwritten and its word put, or lost on an owned word. |
| `Passes.Assembler.FirstPassRecord` | bas.c:174-213 | One record of the first pass moves the cursor as the layout says and makes room without owning it. |
| `Layout.LengthBounds` | libbaby/section.c:33-36 | The length is above every instruction's address and is reached by one. |
| `Layout.EnvLast` | bas.c:250-253 | A label bound several times stands for the address of its last occurrence. |
| `Layout.ShapeDecidesAddresses` | bas.c:246-281 | Addresses, length, overlap and range depend only on where instructions, labels and origins stand. |
| `Overlap.OverlapExact` | bas.c:222-226 | Every instruction's word arrives at the address it was laid out at if and only if no two instructions share an address. |
| `Overlap.RefusedExact` | libbaby/section.c:29-32 | The second pass is refused no word if and only if no two instructions share an address. |
| `Overlap.DistinctLocations` | bas.c:222-226 | Without overlap the second pass writes every word where the first laid it out. |
| `Overlap.WrittenLands` | libbaby/section.c:29-38 | Whatever overlaps, the section owns exactly the addresses the second pass landed on, and its cursor is where that pass stopped. |
| `Overlap.OverlapSwallows` | libbaby/section.c:29-32 | With the cursor on an owned word every further write is lost until the cursor is moved. |
| `Sections.Section.PutWord` | libbaby/section.c:13-38 | Refuses before the origin and on an owned word, writing nothing; otherwise writes one cell, keeps all others across growth, and advances cursor and length; the capacity grows to 0x400 above the offset when that is beyond it. |
| `Sections.Section.Grow` | libbaby/section.c:19-28 | Growth keeps contents, and new cells are blank. |
| `Sections.SectionIntegrity` | libbaby/section.c:13-38 | Over any sequence of moves and writes: no owned word is overwritten, nothing written is lost, the length stays one more than the highest offset written. |
| `SideConditions.ArgumentNameExact` | bas.c:411-412 | An argument that is a name is bound to its meaning for the caller, whatever words the formals before it hold, if and only if none of them is a word of that name. |
| `SideConditions.EarlyWordExact` | bas.c:133-135 | Binding a name at the call to the word it has there is right, wherever the labels end up, if and only if no label of the calling text hides a formal of that name. |
| `SideConditions.DollarInArgument` | bas.c:178-200 | A formal whose argument mentions `$` has the same value wherever it is used; it has one if and only if a label outward of the argument is called `$` and its other names resolve. |
| `FailingPrograms.CaptureParses` | bas.c:383-427 | What `pair 1, x` and a later label x expand to, and the contexts and events of the run. |
| `FailingPrograms.CaptureMeans` | bas.c:411-412 | Its second word should be 2, the address of the label. |
| `FailingRuns.AssembleCapture` | bas.c:411-412 | From program start: it assembles, and the second word is 1, because the earlier formal captures the later argument. |
| `FailingPrograms.RecordParses` | bas.c:383-427 | What `pair a, x` and later labels a and x expand to, and the contexts and events of the run. |
| `FailingRuns.RecordRun` | bas.c:126-132 | In the contexts of that run memoisation does harm, and the words it puts are 2, 2, 7 and 8. |
| `FailingPrograms.RecordMeans` | bas.c:126-132 | Its second word should be 3, the address of the second label. |
| `FailingRuns.AssembleRecord` | bas.c:126-132 | From program start: it assembles to 2, 2, 7 and 8, because memoising the first formal changes what the second argument means. |
| `FailingPrograms.HidingParses` | bas.c:383-427 | What a macro that hands its formal to another, and has a label of the same name, expands to, and its run. |
| `FailingPrograms.HidingMeans` | bas.c:133-135 | There the label should hide the formal, and the first word be 1, its address. |
| `FailingRuns.AssembleHiding` | bas.c:133-135 | From program start: it assembles, and the first word is 3, what the formal held when the inner call was parsed. |
| `FailingPrograms.DollarParses` | bas.c:383-427 | What handing `$` to a macro expands to, and its run. |
| `FailingPrograms.DollarMeans` | bas.c:178-200 | Every instruction of its expansion assembles, and the word should be its own location, 0. |
| `FailingRuns.AssembleDollar` | bas.c:178-200 | From program start: it is rejected. |
| `FailingPrograms.TwiceParses` | bas.c:383-427 | What applying a macro to 1 and then to 2 expands to, and its run. |
| `FailingPrograms.TwiceMeans` | bas.c:197-202 | The second word should be 2, but an operand that mentions a formal is shared like any other, so it is that of the first application. |
| `FailingRuns.AssembleTwice` | bas.c:197-202 | From program start: both words are 1. |
| `FailingPrograms.TwoLoopsParse` | bas.c:383-427 | What applying a macro with a loop twice expands to, and its run. |
| `FailingPrograms.SharedOperandGoesWrong` | bas.c:197-202 | The second of the two loops jumps to the first's label. |
| `FailingRuns.AssembleLoops` | bas.c:197-202 | From program start: the two words assembled are the same jump, though the second should jump to its own address. |
| `FailingPrograms.OverlappingParses` | bas.c:344-351 | What three instructions and an origin that goes back expand to, and their run. |
| `FailingPrograms.OverlapLosesWords` | bas.c:222-226 | That program assembles, and only its first word arrives. |
| `FailingPrograms.OverlappingDirectiveFails` | bas.c:227-234 | A directive on an owned word is an error. |
| `FailingRuns.AssembleOverlapping` | bas.c:222-226 | From program start: three overlapping instructions are accepted, and the section holds one word and a blank. |
| `Machine.Mc.SimCycle` | bsim.c:68-122 | The five phases amount to one step of the instruction set. |
| `Machine.Mc.Simulate` | bsim.c:293-297 | The run loop is repeated steps until the machine stops or is told to quit. |
| `Machine.InstructionEffects` | bsim.c:68-122 | On a power-of-two page, what each of the eight opcodes does to store, accumulator, counter, cycles and stop flag, as arithmetic on the bits 13 to 15 and 0 to 12 of the word fetched; opcode 5 does nothing. |
| `Machine.AliasingBisimulation` | bsim.c:75-119 | Machines whose instruction counters differ by a multiple of the page size agree after every number of steps on store, accumulator, cycles, stop flag and instruction. |
| `EffectiveJumps.EjaWord` | bas.c:232-233 | The word the assembler makes of `EJA t` is the address before t. |
| `EffectiveJumps.EffectiveJumpLands` | bas.c:232-233 | After JMP through the word the assembler makes of `EJA t` the next fetch is at t, and after JRP at p through it at p + t, modulo the page size. |
| `Memory.StoreThenLoad` | libbaby/memory.h:26-39 | On a power-of-two page reads with `%` and writes with `&` behave as one array indexed modulo its size. |
| `Memory.WritesThenLoad` | libbaby/memory.h:26-39 | After any sequence of writes a read gives the last word written to any alias of its address. |
| `Memory.ExactPageFaithfulIffPow2` | bdump.c:278-284 | Loading into a page of exactly the image's length keeps every image of that length if and only if the length is a power of two. |
| `Memory.MemoryChecks` | libbaby/memory.c:44-46 | The check accepts exactly the powers of two. |
| `Memory.StoreSize` | bsim.c:219-258 | The store is the least power of two that is at least 32, the request and the segment length. |
| `Memory.Page.WriteWord` | libbaby/memory.h:34-39 | One cell changes, and on a power-of-two page it is the one a read of the same address gives. |
| `Memory.LoadImageOnPow2` | libbaby/loader.c:183 | Word by word, a power-of-two page takes an image that fits. |
| `Words.AndAddressesIffPow2` | libbaby/memory.h:38 | Masking with n - 1 names every cell of an n-cell page if and only if n is a power of two. |
| `Words.WrapMod` | libbaby/memory.h:31 | Wrapping to 32 bits does not change an address modulo a power-of-two page. |
| `LongDivision.LongDivisionCorrect` | test/ldiv.asm:4-41 | From zero registers the program halts after the first round m at which the quotient reaches bit 31, having taken 2 + 15m + 2·(one bits of the quotient) cycles, with 2^e·⌊A·2^(m-1)/D⌋ as quotient, the negated doubled remainder as dividend, and every other word unchanged. |
| `LongDivision.LoopHalts` | test/ldiv.asm:7-31 | The loop, from any state of its invariant, reaches the last round within 64. |
| `LongDivision.Round` | test/ldiv.asm:7-31 | One round finds one quotient bit and shifts the partial remainder, in either of its two paths. |
| `LongDivision.RoundNumbers` | test/ldiv.asm:7-31 | The bits found so far and what is left are quotient and remainder of a shifted dividend. |
| `LongDivisionSource.AssembleAndRun` | test/ldiv.asm:4-41 | From source to result: assembled, written in any bit format, loaded into any power-of-two store of at least 32 words and run, the program stops with the quotient and remainder of LongDivisionCorrect. |
| `LongDivisionSource.ProgramGives` | test/ldiv.asm:4-41 | Every source line assembles to the word of the image the proof of long division is about. |
| `MacroTest.ProgramExpands` | test/macro.asm:6-54 | The program of nested macros expands without capture to the instructions of its text. |
| `MacroTest.AssembleTest` | test/macro.asm:6-54 | From program start it assembles to a section of 30 words, which are given as numbers; `num 8 - 3` is 5, at address 17. |
| `MacroTestRun.TestCorrect` | test/macro.asm:38-54 | Those words, in any power-of-two store of at least 32, stop after 15 cycles with 8 in c and in d, and tmp the only other word changed. |
| `MacroTestRun.AssembleAndRun` | test/macro.asm:6-54 | From source to result: assembled, written in any bit format, loaded and run, the program leaves 8 in c and in d, as its comments say it should. |
| `Arch.DecodeFields` | libbaby/arch.h:85-92 | Masks and shifts extract the three fields, and the fields tile the word. |
| `Arch.EncodeValue` | bas.c:224-225 | Shifting, masking and or-ing build the word with that opcode and the operand's low 13 bits. |
| `InstructionSet.InstructionWords` | bas.c:222-236 | The word of each mnemonic and directive for every operand, as a number. |
| `InstructionSet.KnownNames` | libbaby/arch.c:23-35 | Before macros are defined exactly the eleven names of the table are mnemonics, in the spellings that strcasecmp takes for them. |
| `Arch.FindInstrKind` | libbaby/arch.c:23-35 | Every built-in mnemonic is a directive or a machine instruction other than opcode 5 with the operand count of its opcode. |
| `Libc.CaseCompare` | libbaby/arch.c:39-43 | strcasecmp finds two strings equal exactly if they are equally long and character by character the same, or the same ASCII letter 32 apart. |
| `InstructionSet.RespellingFinds` | libbaby/arch.c:127-129 | A name finds a built-in exactly if it is a respelling of its name in that sense. |
| `InstructionSet.RespellingSame` | libbaby/arch.c:127-129 | Respelling a mnemonic changes neither what it is nor the words it makes. |
| `ArchTables.ArchState.constructor` | libbaby/arch.c:85-113 | The sorted table is a permutation of the mnemonics and the index is fit for searching. |
| `ArchTables.ArchState.FindByName` | libbaby/arch.c:127-129 | Binary search by name finds exactly what a linear search of the declared table finds, which is what `InstructionSet.RespellingFinds` and `InstructionSet.KnownNames` say. |
| `ArchTables.ArchState.FindOpcode` | libbaby/arch.c:131-146 | Results all have the opcode, and there is one for every opcode except 5. |
| `ArchTables.UniqueMnemonic` | libbaby/arch.c:23-35 | No two built-in mnemonics have the same name up to case. |
| `ArchTables.IndexBuilt` | libbaby/arch.c:96-113 | The numbering and sorting give each opcode an entry that the search comparison hits. |
| `Disassembler.DisassembleSection` | bdump.c:95-165 | Every word that some instruction is assembled to, other than zero, is shown as an instruction with its opcode and operand and then as data; every other word as data, and then as such an instruction; with origins exactly where the two meet and at address 1, and the start label at address 1. |
| `Disassembler.Classify` | bdump.c:113-140 | The classification carried from word to word depends on the word alone; which words are data is `Disassembler.DataExact`. |
| `Disassembler.DataExact` | bdump.c:118-123 | A word without opcode 5 is taken for an instruction exactly if it is not zero and some built-in instruction, with a 13-bit operand if it takes one and none otherwise, is assembled to it. |
| `Disassembler.LinesTell` | bdump.c:113-140 | Read off the lines alone: a line shows its word as data exactly if the word is zero or no instruction is assembled to it; there is a start label at address 1 alone, and an origin there and wherever the lines change between data and instructions. |
| `Disassembler.LineShows` | bdump.c:70-93 | Every line shows, as main reading or as comment, an instruction of the opcode in bits 13 to 15, with the low 13 bits as operand. |
| `Disassembler.ListableExact` | libbaby/arch.h:61-68 | An image can be listed exactly if bits 13 to 15 of no word make 5. |
| `Disassembler.FindMnemonics` | bdump.c:63-68 | Every word without opcode 5 has a mnemonic. |
| `Disassembler.OperandRoundTrip` | bdump.c:83 | An operand printed as a signed decimal is a token of the assembler that reads back as the same word. |
| `Disassembler.SignedLaw` | bdump.c:83 | The operand is printed as a minus sign if it is negative and its digits without superfluous zeros. |
| `Reassembly.DisassembleThenAssemble` | bdump.c:95-165 | For every image without opcode 5, assembling the listing rebuilds the image word for word, whichever alias was printed. |
| `Reassembly.SourceExact` | bdump.c:70-93 | Read as source, a printed line is its mnemonic with the operand it shows, whatever its sign, under the label `_start` and an origin where it has them. |
| `Reassembly.LineAssembles` | bdump.c:70-93 | A printed line, its operand a signed decimal, assembles to the word it shows. |
| `Listings.AssembleLines` | bas.c:302-446 | Straight-line source assembles exactly if each of its lines does, to the lines' words from address 0, with nothing else in the section. |
| `Listings.LineWordExact` | bas.c:182-236 | What a line assembles to: nothing with two operands or an unknown mnemonic, the word of 0 without an operand, otherwise the word of its operand's meaning, in which `$` is the line's own address. |
| `Listings.LinesWellBehaved` | bas.c:302-446 | Straight-line source meets every condition of the assembler theorem and expands to itself. |
| `Listings.LabelIsLine` | bas.c:250-253 | A label stands for the last line that carries it. |
| `ObjectFormat.WriteThenLoad` | libbaby/loader.c:117-208 | For every non-empty section and every bit format: the loader measures the section's length, each address then reads the section's word, and the rest of the page is untouched. |
| `ObjectFormat.WriteReadRoundTrip` | libbaby/writer.c:48-71 | Reading what was written gives the words, in every bit format. |
| `ObjectFormat.BitsWriter` | libbaby/writer.c:48-71 | The writer's loops produce the text of the section, which is described by `ObjectText.TextLaw`, `ObjectText.AddressedLineLaw` and `ObjectText.PlainLineLaw`. |
| `ObjectText.PaddedLaw` | libbaby/writer.c:57 | An address is written in at least four decimal digits of its value, four exactly below 10000, with no leading zero beyond four. |
| `ObjectText.PaddedShortest` | libbaby/writer.c:57 | It is the shortest digit string of at least four digits with that value, and the only one of its length. |
| `ObjectText.PlainLineLaw` | libbaby/writer.c:58-61 | A line without address is 32 characters and a newline; character k is bit k of the word, or bit 31 - k when the most significant bit comes first. |
| `ObjectText.AddressedLineLaw` | libbaby/writer.c:56-61 | An addressed line is the address, a colon, a space and the line without address; below 10000 the colon is in column 4 and the bits start in column 6. |
| `ObjectText.TextLaw` | libbaby/writer.c:54-64 | Up to 10000 words line i of the text is the line of word i, and all lines are equally long. |
| `ObjectFormat.BitsRead` | libbaby/loader.c:117-208 | Succeeds exactly when every line is a statement in sequence or may be ignored (and, with a page, the length has been measured); measures the number of words, and stores word i at address i; when it fails, the page holds the words before the line at fault. Which lines those are is `ObjectText.StatementRead` and the rows after it. |
| `ObjectText.CommentExact` | libbaby/loader.c:36 | What may follow a statement is space, then nothing or a semicolon and anything. |
| `ObjectText.AddressedExact` | libbaby/loader.c:40 | In a format with addresses a line is a statement exactly if it is digits, a colon, a space, 32 bits and such a tail; it may be ignored exactly if it is such a tail; anything else is a format error. |
| `ObjectText.UnaddressedExact` | libbaby/loader.c:39-41 | The same of a format without addresses: 32 bits and such a tail. |
| `ObjectText.AddressLaw` | libbaby/loader.c:166 | The number an address stands for: its value modulo 2^32, and 2^32 - 1 from 2^64 on. |
| `ObjectText.StatementRead` | libbaby/loader.c:148-186 | A statement whose address is the next one adds the word of its bits, whatever comment follows them, and reading goes on after it; with another address it is the line at fault. |
| `ObjectText.BlankLinesIgnored` | libbaby/loader.c:188-191 | Putting a blank line, or one of space and a comment, between two lines of any text changes nothing that is read. |
| `ObjectText.LastLineIgnored` | libbaby/loader.c:188-191 | The same of a last line without newline. |
| `ObjectText.TailsIgnored` | libbaby/loader.c:39-40 | Putting space and a comment after the bits of a statement, wherever it stands, changes nothing that is read. |
| `ObjectText.MalformedRead` | libbaby/loader.c:188-191 | A line that is neither a statement nor a comment ends the reading, and leaves the words before it. |
| `ObjectText.ReadAfter` | libbaby/loader.c:140-192 | What follows lines that were read without fault adds to their words. |
| `ObjectFormat.ReadAll` | libbaby/loader.c:117-208 | What a successful load reads is what is read up to the end. |
| `ObjectFormat.PutBits` | libbaby/writer.c:58-60 | The moving test bit writes the word's bits in the format's order. |
| `ObjectFormat.GetBits` | libbaby/loader.c:179-181 | The moving bit collects the word whose bits the characters are. |
| `ObjectFormat.BitStringRoundTrip` | libbaby/writer.c:58-60 | A word's bit string stands for the word, most or least significant bit first. |
| `ObjectFormat.PaddedRoundTrip` | libbaby/writer.c:57 | A zero-padded decimal address reads back as the address. |
| `ObjectFormat.LineRecognised` | libbaby/loader.c:36-42 | A written line matches the statement pattern of its format and no other reading. |

## Left out

- Parsing itself: tokens, the generated parser, `strtol` prefixes, source positions and the line index. Programs start as statement lists.
- String table (`libbaby/strtab.c`): names are their text.
- Options, usage, logs, maps, listings with `-a`, signals and their handlers: input and output only. The quit signal is the number of polls before it.
- The formats `binary` and `logisim`: raw host bytes, or no loader to invert them.
- Heap freeing and allocation failure; a buffer that grows by doubling is a sequence.
- Several source files, macro definitions inside macro bodies and macros that call themselves: they have no ranking or no mnemonic table to go to.
- Regular expressions: the three patterns of the loader are recognised directly. Text has no NUL characters.
- `bsim`'s refusal of stores above 0x2000 words; the results hold for every power-of-two store.
- Overflow of the section's 32-bit capacity: instructions lie below 2^32 - 0x400.
- `bdump` on images that its exact-size page has damaged, and on images with a word of opcode 5.
- BabyAssembler.Assemble: when it fails, the section is not described.
- SyntaxTrees.EvalTree: the trees that symbols hold are values, so that the evaluator's overwriting of a formal's own tree is seen only in the table, and that it shares no node with an operand is not a claim about nodes.
- Symbols.SymbolStore.ContextDestroy: only the youngest context is destroyed, as the tool does; the code would take any.
- Disassembler.DisassembleSection: the record of each line is stated and its operand as text (Disassembler.OperandRoundTrip), but not the columns, comments and blank lines around them.
- Listings.AssembleLines: straight-line source only; BabyAssembler.Assemble is the general statement.
- Startup.AssembleSource: straight-line source only; Startup.AssembleProgram is the general statement.
- Hygiene.ResidualMeans: the condition on arguments is sufficient, not necessary, for expressions of several names.
