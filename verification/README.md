# Novus, verified

Novus compiles a functional language to the instructions of a stack machine. This project models the
parts of its compiler that have the most to get wrong, in the form they have in the source: classes whose
methods append to an assembler, fill a replacement map or read ahead in a token buffer, each proved equal
to a specification function, and theorems about these functions.

* **Program tree.** `Lang` holds the tree that optimizer and backend share, with a fuel-indexed evaluator;
  `Failing` says which evaluations end in a failure, `Arithmetic` what 32 bit operations compute; `Trees`,
  `Purity`, `Effects` and `CallGraph` say what expressions declare, touch and call.
* **Backend.** `CodeGen` says what code is generated, `Backend`, `Assembling` and `Generator` generate it,
  `Machine` runs it. `Representation`, `Correctness` and `WholeProgram` prove that the code does what the
  evaluator says, `FailingCode` and `FailingProgram` that it stops where the program fails; `Labels`, `Heights`,
  `FrameRuns`, `TailCalls` and `TailSites` prove what holds of all code, also of runs that get stuck or never
  end. `Skipping`, `TagOperand` and `TagFailure` are about operands that get no code.
* **Lazy values.** `Lazy` interleaves any number of executors that run the emitted get on one object.
* **Optimizer.** `ConstElim`, `Inlining` and `Folding` are the passes; `ConstElimMeaning`, `SelfCallKept`,
  `InliningMeaning`, `InlinedCode` and `FoldingMeaning` prove when they preserve the meaning of programs,
  `SelfCallMoved` shows a program that does not keep it; `ConstElimChoice`, `InlinedCalls` and `FoldingLeft`
  prove what they remove and what they leave.
* **Parser.** `Parsing` says what is parsed, `ParserImpl` parses; `ParsingInverse` and `ParsingSound` say
  which tokens give which tree, `Precedence` how the operators bind, one by one.
* **Bytes.** `Bytes`, `ByteCode`, `ByteAssembler` and `Disassembler` go from instructions to bytes and
  back; `Serialization` is the executable file.
* **Text.** `Literals` and `Quoted` are the literals of the lexer and the escapes, `LiteralLaws` says what
  they mean character by character.
* **Front end.** `ConstBinding` and `ConstBinder` capture constants in closures, `ArgPatching` fills in
  default arguments, `ArgLaws` says which ones.

## Findings

Inputs on which the code does not do what it promises, and exactly when it does.

| where | input | when the code is right |
|---|---|---|
| a nullable union made from its tag in a pure function, src/backend/internal/gen_expr.cpp:869-879 | `Union({c = n; Tag()}); c`: the operand gets no code, so the function answers 0 (`TagOperand.RightIffZero`) | on this family exactly for n = 0; every program is right in which no constant declared in such an operand is read outside of them (`FuncSkipsSafely`, required by `WholeProgram.ProgramCorrect`); inlining keeps that condition (`InlinedCode.StaysSafe`) |
| the same operand, src/backend/internal/gen_expr.cpp:869-879 | `Union({1 / n; Tag()})` in a pure function: for n = 0 the program divides by zero, and the code answers the tag (`TagFailure.RightIffNotZero`) | on this family exactly for n other than 0; every failure is kept in a program in which no such operand contains a call of a function with a body, a division or a call that fails (`SkipsQuietlyAnywhere`, required by `FailingProgram.FailureReached`) |
| const elimination, src/opt/internal/expr_matchers.cpp:38-68 | an action that assigns a self-call to a constant used once and then acts: the self-call moves behind the action (`SelfCallMoved.OrderChanges`) | if no group assigns a self-call that calls no other action to a constant used at most once (`SelfCallKept.InputPreserved`); exactly then no self-call is replaced, where such initialisers declare nothing (`SelfCallKept.InputIsExact`) |
| precomputing, src/opt/internal/intrinsics.cpp:158-161 | `-8 >> 1` becomes -4; the machine answers 0x7FFFFFFC (`FoldingMeaning.ShiftCanBeWrong`) | exactly when the shifted literal is not negative or the distance is 0 (`FoldingMeaning.PrecomputedIsRightIff`) |
| precomputing, src/opt/precompute_literals.cpp:274-307 | `if c0 -> 1; if true -> 2; else 3` becomes 2 (`FoldingMeaning.TrueExitCanBeWrong`) | for conditions that read constants or are literal, exactly when all conditions before the literally true one are literally false (`FoldingMeaning.SimpleExitIsRightIff`) |
| precomputing, src/opt/precompute_literals.cpp:309-329 | `Pair(c = 5, 7).second; c` becomes `7; c`, and c is never assigned (`FoldingMeaning.DroppedOperandCanBeWrong`) | if the other operands declare nothing and do not act; for operands that do not act and declare at most the constant they assign, exactly then (`FoldingMeaning.FieldIsRightIff`) |
| default arguments, src/frontend/internal/patch_args.cpp:76-143 | 101 calls with a default argument, each inside the arguments of the next, are reported as a cycle (`ArgPatching.DeepNestIsReported`) | exactly when at most 100 such calls stand inside each other, counting those in initialisers (`ArgPatching.PatchIsCorrect`) |
| constant binding, src/frontend/internal/const_binder.cpp:35-94 | a scope that declares a name after an inner scope has captured that name through it: the inner scope keeps the old constant (`ConstBinding.OuterDeclarationIsMissed`) | exactly when no scope inside has captured the name from further out (`ConstBinding.RegisterKeepsIff`); the front end only declares in the innermost scope |

## Model

| member | source | states |
|---|---|---|
| `WholeProgram.ProgramCorrect` | src/backend/generator.cpp:70-107 | The generated program, started at its entry point with an empty stack, performs the actions of the execute statements in order, uses up the same replies and stops, whenever these statements run to their end; for every order in which the functions are generated. |
| `Correctness.Correct` | src/backend/internal/gen_expr.cpp:594-758 | Code of an expression, run on any stack whose frame represents the environment, leaves all other words alone, makes the frame represent the new environment, performs the same actions and pushes a word that represents the value; in a tail position it returns that word to the caller. Fields of one-field structs and both encodings of unions are included. |
| `Correctness.CorrectFunc` | src/backend/generator.cpp:27-47 | A function entered with its arguments as the whole frame returns a representation of its value to its caller. |
| `FailingProgram.FailureReached` | src/backend/generator.cpp:70-107 | If an execute statement fails after those before it have run to their end, the generated program stops with the same kind of failure, after the same actions, with the same replies used. |
| `FailingCode.FailureStops` | src/backend/internal/gen_expr.cpp:387-389 | Whenever the evaluation of an expression fails, at a call of the failing function, a fail node or a division by zero anywhere inside it, its code, run on any stack whose frame represents the environment, stops with that failure after the same actions. |
| `FailingCode.FuncStops` | src/backend/generator.cpp:27-47 | A function that fails, entered with its arguments as the whole frame, stops. |
| `Failing.FailsIsErr` | src/vm/internal/executor.cpp:432-440 | What fails has no value. |
| `TagFailure.DroppedFailureIsMissed` | src/backend/internal/gen_expr.cpp:869-879 | Whenever an operand without code fails, so does the union made of it, but the code pushes the tag and goes on. |
| `TagFailure.RightIffNotZero` | src/backend/internal/gen_expr.cpp:869-879 | For a family of pure functions whose dropped operand divides by n: the code answers the tag for each, which is right exactly for n other than 0, and the condition for keeping failures fails for each. |
| `Arithmetic.BinaryIsRight` | src/vm/internal/executor.cpp:368-680 | On 32 bit operands an operation answers r exactly when r is in range and congruent to the sum, difference or product modulo 2^32; is the quotient or remainder of the division that rounds toward zero; is the shift by multiplying or dividing the unsigned bits by a power of two; or is 1 or 0 as the comparison holds or not. |
| `Arithmetic.UnaryIsRight` | src/vm/internal/executor.cpp:368-680 | The same for negation and the test for zero. |
| `Arithmetic.SumsCancel` | src/vm/internal/executor.cpp:368-680 | Adding and subtracting the same number gives the first one back, and a number plus its negation is 0, overflow included. |
| `Arithmetic.PowersMultiply` | src/vm/internal/executor.cpp:368-680 | Powers of two multiply when exponents add. |
| `Arithmetic.EvaluatorComputes` | src/vm/internal/executor.cpp:368-680 | A call of an operation on two literals evaluates to r exactly when r is its result on the first and the second operand. |
| `Arithmetic.MachineComputes` | src/vm/internal/executor.cpp:368-680 | The instruction replaces the two topmost words by r exactly when r is the result with the upper word second, and stops exactly for a division by zero. |
| `Correctness.MakeTag` | src/backend/internal/gen_expr.cpp:863-881 | Making a nullable union from its tag is right with the operand's code in actions and without it in pure functions. |
| `Representation.TestMember` | src/backend/internal/gen_expr.cpp:683-704 | The test for a union member answers whether the value is of that member, in both encodings. |
| `Representation.NullableMembers` | src/backend/internal/utilities.cpp:53-99 | In a null-optimised union the members are told apart by having fields, and the other one has at least two. |
| `Backend.GenExpr.Visit` | src/backend/internal/gen_expr.cpp:32-82 | The visitor appends exactly the code, labels and label numbers of `CodeGen.Gen` and reports the values it leaves. |
| `Generator.Generate` | src/backend/generator.cpp:70-107 | The generator's loops emit the program of `GenProgram`: functions, statements and an entry block that calls these in order. |
| `Labels.GenLabels` | src/novasm/assembler.cpp:11-25 | All labels declared in generated code are pairwise different and come from its own range of numbers. |
| `Heights.GenBalanced` | src/backend/internal/gen_expr.cpp:49-82 | In all code every instruction and label has one stack height on every path, nothing reaches below the height at entry, and an expression leaves exactly the values it reports; values and failures do not matter. |
| `FrameRuns.GenClosed` | src/backend/internal/gen_expr.cpp:669-758 | No jump leaves the code of the expression it belongs to. |
| `FrameRuns.LazyGetBalanced` | src/backend/internal/gen_lazy.cpp:28-63 | The get of a lazy value has one height per instruction on each of its paths and replaces the object by one word. |
| `FrameRuns.FuncBalanced` | src/backend/generator.cpp:27-47 | A function has these heights from its inputs in the frame to a return with one word above its slots. |
| `FrameRuns.RunKeepsHeight` | src/backend/internal/gen_expr.cpp:49-82 | Running such code without calls and returns, for any number of steps, the stack has the height known for the instruction reached. |
| `FrameRuns.CallLeavesHeight` | src/backend/internal/gen_expr.cpp:118-127 | Returning from a call leaves the caller at the height known for the next instruction. |
| `TailCalls.FuncTailsLead` | src/backend/internal/gen_expr.cpp:66-82 | Behind every tail call in a function only jumps stand before a return. |
| `TailCalls.LoopsInOneFrame` | src/backend/internal/gen_expr.cpp:633-636 | However often a function calls itself in tail position, its frame does not move, nothing below it changes and its height stays one of those known beforehand. |
| `TailCalls.TailCallIsCall` | src/backend/internal/gen_expr.cpp:121-127 | A tail call and a normal call followed by the jumps to the return end in the same state of the caller's caller but for the returned words, which represent the same value; for integers they are the same word. |
| `TailSites.TailCallsOf` | src/backend/internal/gen_expr.cpp:66-82 | The code of an expression in tail position makes as many tail calls as there are calls behind which nothing is left to do, counting the last of a group, all branches and the struct of a nullable union; elsewhere it makes none. |
| `TagOperand.RightIffZero` | src/backend/internal/gen_expr.cpp:869-879 | For a family of pure functions that read a constant declared in a dropped operand: the code answers 0 for each, which is right exactly for n = 0, and the condition for correctness fails for each. |
| `TagOperand.FrameStaysRightIff` | src/backend/internal/gen_expr.cpp:869-879 | Leaving out code that assigns new constants keeps every frame right exactly when their values are represented by every word. |
| `Lazy.Safe` | src/backend/internal/gen_lazy.cpp:28-63 | In every reachable interleaving of any number of executors the flag is 0, 1 or 2, the closure has been called at most once and every finished get returned the one stored value. |
| `Lazy.FlagMoves` | src/backend/internal/gen_lazy.cpp:28-63 | The flag only goes from 0 to 1 and from 1 to 2, and after that the object never changes. |
| `Lazy.SecondSwapSucceeds` | src/backend/internal/gen_lazy.cpp:48-53 | The swap after the computation always changes the flag from 1 to 2. |
| `Lazy.OneOwner` | src/backend/internal/gen_lazy.cpp:33-53 | Only one get at a time is between the two swaps. |
| `Lazy.WaitsOnlyForOwner` | src/backend/internal/gen_lazy.cpp:55-63 | A get can always take its next step, except while another one computes the value. |
| `Lazy.SelfGetNeverReturns` | src/backend/internal/gen_lazy.cpp:55-63 | If the closure gets its own object, no get of it ever returns. |
| `Lazy.GenLazyGet` | src/backend/internal/gen_lazy.cpp:28-64 | The generator emits these seventeen instructions and two fresh labels. |
| `ConstElim.ConstEliminatorRewriter.Rewrite` | src/opt/const_elimination.cpp:82-148 | The rewriter's loops and updates of the replacement map and the table of constants are those of `Rewritten`. |
| `ConstElimMeaning.PassIsSubst` | src/opt/const_elimination.cpp:82-148 | The one-pass rewrite equals the substitution of the finished replacement map, for constants assigned once and used after that. |
| `ConstElimMeaning.ProgramPreserved` | src/opt/const_elimination.cpp:65-148 | A program whose execute statements run to their end does so with the same actions and replies after the pass, whatever the counts of uses, if no action replaces a self-call. |
| `ConstElimMeaning.RemovedIsGone` | src/opt/const_elimination.cpp:196-208 | No removed constant is used, assigned or reserved in the rewritten function. |
| `ConstElimChoice.FunctionChooses` | src/opt/const_elimination.cpp:150-208 | A constant assigned by an element of a group other than the last is removed exactly when nothing in its initialiser, after the replacements, declares a constant or calls an action, and it is used at most once, is a constant or consists of literals and pure calls without a body; no other constant is removed. |
| `ConstElimChoice.FindUsedConsts.Visit` | src/opt/internal/find_used_consts.cpp:12 | The visitor counts for every constant how often the expression reads it. |
| `SelfCallKept.InputPreserved` | src/opt/const_elimination.cpp:150-194 | The same with a condition on the program before the pass: no group of an action assigns a self-call that calls no other action to a constant used at most once. |
| `SelfCallKept.InputIsExact` | src/opt/const_elimination.cpp:150-194 | Where initialisers that call the function itself declare nothing, this condition holds exactly when the pass moves no self-call of an action. |
| `SelfCallMoved.PassMovesIt` | src/opt/const_elimination.cpp:82-167 | The pass moves a self-call behind an action. |
| `SelfCallMoved.OrderChanges` | src/opt/internal/expr_matchers.cpp:38-68 | The two programs act in different orders and return different replies. |
| `CallGraph.TestRecursive` | src/opt/internal/expr_matchers.cpp:10-27 | The test with its mutable set of visited functions answers whether a function calls itself or can reach itself. |
| `CallGraph.RecursiveIff` | src/opt/internal/expr_matchers.cpp:10-27 | A function is recursive exactly when a self-call stands in its body or a chain of calls leads from it to itself. |
| `CallGraph.BodyCallsFewer` | src/opt/call_inline.cpp:61-105 | Going from a call to the body of a function that is not recursive leaves strictly fewer functions to call, which is why repeated inlining ends. |
| `Inlining.CallInlineRewriter.Rewrite` | src/opt/call_inline.cpp:96-152 | The rewriter, which registers constants and fills vectors, returns what `Inlined` says. |
| `InlinedCalls.SmallCallsGo` | src/opt/call_inline.cpp:61-105 | In the result no call is left of another function with a body of at most 50 nodes that is not recursive and not marked. |
| `InlinedCalls.OtherCallsStay` | src/opt/call_inline.cpp:61-105 | For any other function the calls in the result are as many as those in the expression and in the bodies that replace calls. |
| `InlinedCalls.NoneIsLost` | src/opt/call_inline.cpp:61-105 | That is at least as many as there were. |
| `InliningMeaning.ProgramMeans` | src/opt/call_inline.cpp:52-135 | A program whose execute statements run to their end does so with the same actions and replies once its calls are inlined. |
| `InlinedCode.StaysSafe` | src/opt/call_inline.cpp:107-135 | Inlining creates constants inside operands without code, but the condition under which code is right stays true. |
| `InlinedCode.InlinedProgramCorrect` | src/opt/call_inline.cpp:52-135 | The machine code of the inlined program performs what the program before inlining means. |
| `Folding.PrecomputeRewriter.Rewrite` | src/opt/precompute_literals.cpp:227-329 | The rewriter, which erases arms in a loop, returns what `Folded` says. |
| `FoldingLeft.FoldsAll` | src/opt/precompute_literals.cpp:227-307 | After the pass no operation on literals that has a result is left, no comparison with a literal 0, no identity conversion and no switch with a literal condition. |
| `FoldingLeft.OnlyOpenLeft` | src/opt/precompute_literals.cpp:227-329 | Nor are more dynamic calls and fields left than there were with a function or struct not known on the spot. |
| `Arithmetic.PrecomputedComputes` | src/opt/internal/intrinsics.cpp:118-190 | The literal that replaces an operation on two literals is its result, with the right shift rounding the signed number down; without a result the call stays. |
| `Arithmetic.PrecomputedUnary` | src/opt/internal/intrinsics.cpp:150-193 | The same for negation and the test for zero. |
| `FoldingMeaning.ProgramMeans` | src/opt/precompute_literals.cpp:227-329 | A program whose execute statements run to their end does so with the same actions and replies after the pass, if every folded node is of a right kind: shifts, literal exits and fields as in the findings. |
| `FoldingMeaning.FoldDynMeans` | src/opt/precompute_literals.cpp:227-272 | A dynamic call of a closure made on the spot is the call of its function with the bound arguments last. |
| `FoldingMeaning.PrecomputedIsRightIff` | src/opt/internal/intrinsics.cpp:118-161 | A precomputed operation on 32 bit operands agrees with the machine exactly unless it shifts a negative number right by more than 0. |
| `FoldingMeaning.ShiftCanBeWrong` | src/opt/internal/intrinsics.cpp:158-161 | -8 shifted right by 1 is precomputed as -4 and computed as 0x7FFFFFFC. |
| `FoldingMeaning.SimpleExitIsRightIff` | src/opt/precompute_literals.cpp:274-307 | With conditions that read constants or are literal, the exit at a literal true is right for all values exactly when every condition before it is literally false. |
| `FoldingMeaning.TrueExitIsRightIff` | src/opt/precompute_literals.cpp:274-307 | In a run that reaches a literal true, the exit is right exactly when no condition before it holds. |
| `FoldingMeaning.FieldIsRightIff` | src/opt/precompute_literals.cpp:309-329 | A field of a struct made on the spot can be replaced by its operand exactly when no other operand is an assignment, for operands that do not act and assign new constants at most at their top. |
| `FoldingMeaning.DroppedOperandCanBeWrong` | src/opt/precompute_literals.cpp:309-329 | Folding the field of a struct made on the spot loses the constant another operand declares. |
| `ParserImpl.Parser.NextExpr` | src/parse/parser.cpp:264-314 | The parser, with its read-ahead buffer, returns what `ParseExpr` says, restores the depth counter and ends. |
| `ParsingInverse.ParserInvertsYield` | src/parse/parser.cpp:264-573 | The tokens of a canonical expression below the depth limit are parsed to exactly that expression, and parsing stops at the token behind it. |
| `ParsingSound.ParserIsExact` | src/parse/parser.cpp:264-573 | For an expression without errors, the parser returns it and leaves a rest exactly when the input is its tokens followed by the rest, it is canonical, below the depth limit, and the next token does not continue it. |
| `Precedence.InfixLaw` | src/parse/op_precedence.cpp:21-87 | For any two infix operators, listed in ten levels, the right one takes the operand between them exactly when its level is tighter, or the levels are the same and it is `::`. |
| `Precedence.PrefixLaw` | src/parse/op_precedence.cpp:6-19 | A prefix operator binds tighter than every infix operator but `??`. |
| `Precedence.PostfixLaw` | src/parse/op_precedence.cpp:21-30 | A field, a call or an index binds tighter than every infix operator. |
| `Precedence.PrefixedPostfixLaw` | src/parse/op_precedence.cpp:21-30 | And tighter than every prefix operator. |
| `Precedence.TypeTestLaw` | src/parse/op_precedence.cpp:66-70 | `is` and `as` take shifts, sums and products before them as a whole, and only the last operand of comparisons and logical operators. |
| `Precedence.PrefixedTestLaw` | src/parse/op_precedence.cpp:66-70 | A prefix operator belongs to the expression tested. |
| `Precedence.ConditionalLaw` | src/parse/op_precedence.cpp:62-63 | Every infix operator binds tighter than `?` and `:`. |
| `Precedence.NestedConditionalLaw` | src/parse/op_precedence.cpp:62-63 | A conditional behind a colon belongs to the second branch. |
| `Precedence.DeclarationLaw` | src/parse/parser.cpp:348-353 | A declaration takes all infix operators behind it. |
| `Precedence.DeclaredConditionalLaw` | src/parse/parser.cpp:348-353 | It takes a conditional as well. |
| `Precedence.GroupLaw` | src/parse/op_precedence.cpp:64-65 | A semicolon binds loosest. |
| `Precedence.GroupedDeclarationLaw` | src/parse/op_precedence.cpp:64-65 | It ends a declaration. |
| `Precedence.GroupedConditionalLaw` | src/parse/op_precedence.cpp:64-65 | It ends the second branch of a conditional. |
| `Precedence.NestingLaw` | src/parse/parser.cpp:264-268 | Parentheses around an identifier are parsed as long as fewer than a hundred expressions stand inside each other. |
| `Precedence.TooDeep` | src/parse/parser.cpp:264-268 | The hundredth is an error. |
| `ByteCode.DecodeExact` | src/novasm/disassembler.cpp:91-253 | Bytes decode to a list of instructions exactly when they are its encoding. |
| `ByteAssembler.Assembler.Close` | src/novasm/assembler.cpp:334-349 | Closing succeeds exactly when all labels are declared; the code is then the encoding of the instructions added, each reference replaced by the offset its label was placed at. |
| `ByteAssembler.HolesFilled` | src/novasm/assembler.cpp:419-441 | Patching fills every hole with the offset of its label and changes no other byte. |
| `ByteAssembler.IntItemIsShortest` | src/novasm/assembler.cpp:24-36 | No form of loading an integer literal is shorter than the one chosen. |
| `Disassembler.DisassembleInstructions` | src/novasm/disassembler.cpp:91-253 | The loop over the bytes returns what `Lines` says, errors included. |
| `Disassembler.RoundTrip` | src/novasm/disassembler.cpp:73-253 | The code of a closed assembler disassembles to the instructions added, each at its offset, and every reference is the offset of the instruction its label was placed before, or of the end. |
| `Serialization.RoundTrip` | src/novasm/serialization.cpp:179-258 | A serialised executable is read back, whatever follows it. |
| `Serialization.PrefixRejected` | src/novasm/serialization.cpp:206-258 | No strict prefix of a file is accepted. |
| `Serialization.DeserializeExact` | src/novasm/serialization.cpp:206-258 | A file is read as e exactly when it is any first line followed by what is written for e and anything else. |
| `Serialization.Writer.Serialize` | src/novasm/serialization.cpp:27-204 | The writer's loops append the bytes of `Serialized`. |
| `Serialization.Reader.Deserialize` | src/novasm/serialization.cpp:80-258 | The reader, which advances in place, returns what `Deserialized` says. |
| `Serialization.ExampleFile` | src/novasm/serialization.cpp:179-204 | All bytes of a small file. |
| `Literals.Lexer.NextLitNumber` | src/lex/lexer.cpp:245-323 | The digit loop with a 64 bit accumulator and overflow flags returns the token of the specification over unbounded numbers and stops behind the literal. |
| `Literals.Lexer.NextLitNumberHex` | src/lex/lexer.cpp:325-383 | The same for hexadecimal literals. |
| `Literals.Lexer.NextLitNumberBinary` | src/lex/lexer.cpp:385-433 | The same for binary literals. |
| `Literals.Lexer.NextStaticInt` | src/lex/lexer.cpp:514-550 | The same for static integers; the flag for values that are too big is exact although the accumulator wraps. |
| `Literals.DecimalRoundTrip` | src/lex/lexer.cpp:245-323 | The digits of any number are lexed to it, and rejected exactly when it exceeds the largest int, or with an l the largest long. |
| `LiteralLaws.FractionRoundTrip` | src/lex/lexer.cpp:245-323 | Digits, a point and digits are lexed to the quotient they spell, and rejected exactly when its parts do not fit into 64 bits. |
| `LiteralLaws.SeparatorsAre` | src/lex/lexer.cpp:11-52 | The characters that end a literal: white space, NUL and printable ASCII but letters, digits, underscores and apostrophes. |
| `LiteralLaws.UnderscoreIsSkipped` | src/lex/lexer.cpp:245-323 | Underscores between digits do not change the number. |
| `LiteralLaws.CapitalDigits` | src/lex/lexer.cpp:325-383 | Hexadecimal digits may be capitals. |
| `Literals.RadixRoundTrip` | src/lex/lexer.cpp:325-433 | The two's complement digits of any int in base 16 or 2 are lexed to that int. |
| `Literals.RadixLongRoundTrip` | src/lex/lexer.cpp:325-433 | The same for longs. |
| `Quoted.StrIsExact` | src/lex/lexer.cpp:435-470 | Text is lexed to a string exactly when it spells that string and a closing quote follows. |
| `Quoted.StringRoundTrip` | src/input/char_escape.cpp:9-69 | Every string, escaped and quoted, is lexed to itself, up to the quote. |
| `Quoted.CharIsExact` | src/lex/lexer.cpp:472-512 | Which texts are lexed to a given character. |
| `Quoted.CharRoundTrip` | src/input/char_escape.cpp:9-69 | Every character, escaped and quoted, is lexed to itself. |
| `Quoted.EscapeString` | src/input/char_escape.cpp:32-46 | The append loop returns the escaped string. |
| `Quoted.KnownEscapes` | src/input/char_escape.cpp:48-69 | The escapes by the codes of the characters they stand for, and that there are no others. |
| `ConstBinding.BindIsRight` | src/frontend/internal/const_binder.cpp:61-94 | Binding succeeds exactly when `canBind` says so, answers a constant that stands for the nearest visible declaration and keeps the lists of captured and bound constants matched. |
| `ConstBinding.CaptureIsCorrect` | src/frontend/internal/const_binder.cpp:35-94 | After any run of declaring, entering, leaving, hiding and binding, a name can be bound exactly when some scope has a declaration of it among its visible constants; the constant answered stands for the one in the innermost such scope and has its type, and no name is captured twice by a scope. |
| `ConstBinding.HiddenIsNotBound` | src/frontend/internal/const_binder.cpp:41-49 | A declaration that is not among the visible constants is not bound. |
| `ConstBinding.NewIsBound` | src/frontend/internal/const_binder.cpp:35-39 | The inputs of a scope just entered and a constant just declared are bound to themselves. |
| `ConstBinding.HiddenMeans` | src/frontend/internal/const_binder.cpp:51-59 | `doesExistButNotVisible` holds exactly when some scope has a declaration of the name outside its visible constants. |
| `ConstBinding.RegisterKeepsIff` | src/frontend/internal/const_binder.cpp:35-39 | Declaring a name in any scope of a chain keeps this exactly when no scope inside has captured it from further out. |
| `ConstBinding.OuterDeclarationIsMissed` | src/frontend/internal/const_binder.cpp:35-94 | A chain in which a later declaration in the middle is not found. |
| `ConstBinding.TypeIsKept` | src/frontend/internal/const_binder.cpp:61-94 | A bound constant has the type of the declaration it stands for. |
| `ConstBinderImpl.ConstBinder.BindName` | src/frontend/internal/const_binder.cpp:61-94 | The linked binder objects change as `Bind` says. |
| `ArgPatching.PatchIsCorrect` | src/frontend/internal/patch_args.cpp:76-160 | The pass always ends; it reports nothing exactly when calls that omit arguments nest at most a hundred deep, and then its result is the one complete tree. |
| `ArgPatching.FilledIsComplete` | src/frontend/internal/patch_args.cpp:145-160 | A completed tree has in each call the given arguments as a prefix and as many as its function declares. |
| `ArgPatching.DeepNestIsReported` | src/frontend/internal/patch_args.cpp:76-143 | n nested calls without any cycle go through exactly when n is at most 100. |
| `ArgLaws.LastOnesAreFilled` | src/frontend/internal/patch_args.cpp:76-101 | Counted from the last input, an omitted argument becomes the initialiser at the same place; supplied arguments stay in front. |
| `ArgLaws.LocationIsOutermost` | src/frontend/internal/patch_args.cpp:103-142 | A source-location call in the initialiser of an initialiser answers the location of the outermost call that has one. |
| `ArgLaws.SuppliedLocationStays` | src/frontend/internal/patch_args.cpp:103-142 | In a call with all its arguments a source-location call among them is kept. |
| `ArgPatching.PatchOptArgsVisitor.VisitCallExpr` | src/frontend/internal/patch_args.cpp:76-143 | The visitor, which appends to argument vectors and counts its depth, returns what `Visit` says. |

## Left out

- Correctness.Correct: lazy and forked calls are not in the expression type, so the closure made for a lazy call, the trampoline around a delegate and the future of a fork are not covered; failing runs are the subject of `FailingCode.FailureStops`, and runs in which the evaluator gets stuck or does not end are covered by `Heights` and `FrameRuns` only.
- ParsingSound.ParserIsExact: anonymous functions, intrinsics and type parameter lists are not among the tokens and trees; parsed trees that contain error nodes are covered by `ParserImpl.Parser.NextExpr` only.
- WholeProgram.ProgramCorrect: assumes at most 255 inputs and fields and 254 bound constants, since the source narrows these counts to a byte without a check.
- InlinedCode.InlinedProgramCorrect: requires that pure functions call pure functions only, which the type checker of the front end guarantees.
- SelfCallKept.InputIsExact: where an initialiser with a self-call also declares constants, only one direction is proved, because whether these declarations go depends on what other constants are replaced by.
- TailCalls.TailCallIsCall: both words represent the value, but are proved equal for integers only; a struct without fields is represented by any word.
- FoldingMeaning.ProgramMeans: the get of a direct lazy call, which becomes the direct call, is not modelled; with lazy calls defined as delayed calls it is that definition.
- Lazy.Safe: one object at a time, sequentially consistent, and values as opaque words.
- FrameRuns.LazyGetBalanced: the values of a get inside an expression are the subject of `Lazy`, not of `Correctness`.
- The values of longs, floats, strings, characters and enums in expressions; a few integer operations stand for the table of intrinsics, and actions are opaque events with replies from outside.
- Shifts by 32 or more and the quotient of the smallest integer and -1, which C++ leaves undefined, are failures; signed overflow wraps.
- Stack overflow, the allocator, the garbage collector and the other executors of the machine.
- Exceptions thrown for trees that the front end never builds are empty code, or failures of the evaluator.
- What the optimizer's passes make of programs that fail or never end: const elimination, for one, removes an unused initialiser that would fail.
- Fuel bounds nested calls of the evaluator; a run that ends has some fuel that is enough for it.
- The functions that must not be inlined and the identity conversions in precomputing are parameters, since they come from flags and types. The theorems about const elimination hold for any counts of uses.
- The optimizer's other pass, tree shaking, and the order in which passes are repeated.
- Execute statements are not rewritten by the passes, as in the source.
- Statements, types, anonymous functions and diagnostics in the parser; static integers where an expression starts.
- In the lexer all tokens but literals; source text containing NUL, which it takes for the end of the input. The buffer of characters read ahead is part of the remaining input.
- In the disassembler, reading operands behind the end of the code, which the source does not check; here it is an error.
- Overload resolution, templates and everything else in the front end but capturing and default arguments.
