# JCInterpret core in Dafny

JCInterpret is a symbolic interpreter for Java source. It replays a program's methods over
symbolic values and records execution traces. It then compares the traces of two programs
to find plagiarism. This project models six pieces of its core and proves their properties:

- **The instruction compiler** (`ASTDecoder`). One visit of a Java syntax node pushes
  instructions onto the frame's instruction stack. Sub-statements and sub-expressions are
  pushed as deferred `decode_stmt` / `decode_expr` instructions, in reverse, so that popping
  runs them in Java's left-to-right order. Assignment targets are the exception: they are
  visited at once under the `isAssignmentTarget` flag.
  - `syntax.dfy` holds the syntax tree, as a closed datatype carrying the resolved binding
    facts the visitor reads, and the instruction set.
  - `lowering.dfy` holds pure functions giving what each visit pushes (`ExprStep`,
    `StmtStep`). A `Step` records the pushed instructions, the flag left behind, and the
    exception that aborted the visit, if any.
  - `decoder.dfy` holds the class `ASTDecoder`. Its methods push step by step in the
    source's loops and are proved to push exactly what the lowering functions say.
  - `lowering_facts.dfy` proves execution orders as sequence lemmas about the lowering
    functions, where `Reverse(pushed)` is the execution order.
- **The class area** (`ClassArea`): the mutable table of loaded classes, keyed by signature
  text. It covers class loading, the cast decision and the class-loader frame.
- **The descriptor table** (`BindingDescriptorResolver`): the signature-to-descriptor map
  built from compilation units, and the class and method lookups.
- **Symbolic values** (`SymbolicValue`): a typed placeholder with an id. It is a datatype,
  so its equality is the data-class equality on id and type. `label()` is also modelled.
- **The value comparator** (`ValueComparator`): the structural equivalence on stack values
  and string values. String concatenation trees are flattened with a visited-identity set.
- **The graph comparator** (`IterativeGraphComparator`). It seeds a node mapping with
  operation nodes of the same operator or method signature, then grows it outward along
  role-aligned edges. The results are the mapped fractions of each graph.
  - The element matcher's scores are function-valued parameters.
  - The optimal-assignment algorithm is also a parameter, given with the contract the
    comparator relies on: one entry per row, each `-1` or a column no other row uses.

Quoted source locations are relative to the repository root.

## Model

| member | source | states |
|---|---|---|
| Decoder.ASTDecoder.Push | core/src/main/kotlin/jcinterpret/core/ctx/frame/interpreted/ASTDecoder.kt:26 | `push` puts exactly one instruction on top of the stack and leaves the flag alone |
| Decoder.ASTDecoder.AddStmt | core/src/main/kotlin/jcinterpret/core/ctx/frame/interpreted/ASTDecoder.kt:19 | `add(stmt)` defers the statement: one `decode_stmt` goes on top |
| Decoder.ASTDecoder.AddExpr | core/src/main/kotlin/jcinterpret/core/ctx/frame/interpreted/ASTDecoder.kt:21-24 | `add(expr, store)` pushes a `pop` under the deferred expression exactly when `store` is false |
| Decoder.ASTDecoder.AddExprsReversedLoop | core/src/main/kotlin/jcinterpret/core/ctx/frame/interpreted/ASTDecoder.kt:336-339 | the `reversed().forEach { add }` loop over expressions pushes the pushes of `AddExprsReversed`, whose execution order is source order (`AddExprsReversedRuns`) |
| Decoder.ASTDecoder.AddStmtsReversedLoop | core/src/main/kotlin/jcinterpret/core/ctx/frame/interpreted/ASTDecoder.kt:36-38 | the same loop over statements, specified by `AddStmtsReversed` |
| Decoder.ASTDecoder.PushStoreGroups | core/src/main/kotlin/jcinterpret/core/ctx/frame/interpreted/ASTDecoder.kt:327-332 | the `downTo` loop packs trailing arguments: one store group per index, highest index pushed first |
| Decoder.ASTDecoder.PushArguments | core/src/main/kotlin/jcinterpret/core/ctx/frame/interpreted/ASTDecoder.kt:324-345 | the argument pushes shared by every call kind are those of `ArgPushes`: fixed or varargs packing |
| Decoder.ASTDecoder.VisitFragment | core/src/main/kotlin/jcinterpret/core/ctx/frame/interpreted/ASTDecoder.kt:73-86 | a declaration fragment pushes the allocation of its local and, when it has an initialiser, the initialiser and its `store` |
| Decoder.ASTDecoder.VisitFragments | core/src/main/kotlin/jcinterpret/core/ctx/frame/interpreted/ASTDecoder.kt:50-58 | the fragments of a declaration are visited at once, last fragment first |
| Decoder.ASTDecoder.AcceptAllLoop | core/src/main/kotlin/jcinterpret/core/ctx/frame/interpreted/ASTDecoder.kt:144 | `reversed().forEach { accept }` visits each expression at once with the flag the previous visit left, and stops at the first abort |
| Decoder.ASTDecoder.AcceptNext | core/src/main/kotlin/jcinterpret/core/ctx/frame/interpreted/ASTDecoder.kt:144 | one iteration of that loop extends the outcome of the suffix already visited by the next expression's visit |
| Decoder.ASTDecoder.VisitExpr | core/src/main/kotlin/jcinterpret/core/ctx/frame/interpreted/ASTDecoder.kt:299-974 | visiting any expression pushes, leaves the flag and aborts exactly as `ExprStep` says, character literals included as written |
| Decoder.ASTDecoder.VisitNode | core/src/main/kotlin/jcinterpret/core/ctx/frame/interpreted/ASTDecoder.kt:299-974 | every expression kind other than an update behaves as `NodeStep` says |
| Decoder.ASTDecoder.Assigning | core/src/main/kotlin/jcinterpret/core/ctx/frame/interpreted/ASTDecoder.kt:560-564 | `assigning` visits its argument in target mode and clears the flag after it, whatever the flag was before; an abort leaves the flag as the aborted visit left it |
| Decoder.ASTDecoder.VisitInstanceCreation | core/src/main/kotlin/jcinterpret/core/ctx/frame/interpreted/ASTDecoder.kt:306-351 | `new C(args)` aborts before any push for inner, anonymous and scoped creations, and otherwise pushes `invoke_special`, the arguments, `dup` and `obj_allocate` |
| Decoder.ASTDecoder.VisitMethodInvocation | core/src/main/kotlin/jcinterpret/core/ctx/frame/interpreted/ASTDecoder.kt:353-411 | a call pushes the cast (when needed), the invoke, the arguments and the receiver, as `InvocationPushes` says, and never aborts |
| Decoder.ASTDecoder.PushCast | core/src/main/kotlin/jcinterpret/core/ctx/frame/interpreted/ASTDecoder.kt:366-371 | a cast to the return type of the call's own binding, with its type arguments substituted, is pushed exactly when that binding differs from its declaration and the result is not primitive |
| Decoder.ASTDecoder.VisitSuperMethodInvocation | core/src/main/kotlin/jcinterpret/core/ctx/frame/interpreted/ASTDecoder.kt:413-452 | `super.m(args)` pushes the cast, `invoke_virtual_super`, the arguments and `load this` |
| Decoder.ASTDecoder.VisitArrayCreation | core/src/main/kotlin/jcinterpret/core/ctx/frame/interpreted/ASTDecoder.kt:516-548 | array creation and array initialisers push as `NodeStep` says, with one store group per element |
| Decoder.ASTDecoder.VisitAssignment | core/src/main/kotlin/jcinterpret/core/ctx/frame/interpreted/ASTDecoder.kt:566-621 | an assignment pushes the load of its target, the target's own code in target mode, then the operator's pushes, as `AssignmentStep` says |
| Decoder.ASTDecoder.PushAssignmentTail | core/src/main/kotlin/jcinterpret/core/ctx/frame/interpreted/ASTDecoder.kt:576-618 | the `when` over assignment operators handles `=` and six compound operators and aborts with TODO for the rest |
| Decoder.ASTDecoder.VisitPrefix | core/src/main/kotlin/jcinterpret/core/ctx/frame/interpreted/ASTDecoder.kt:623-664 | `++`/`--` update their operand, `-` and `!` push their operand and the operator, `+` and `~` abort with TODO |
| Decoder.ASTDecoder.VisitPrefixUpdate | core/src/main/kotlin/jcinterpret/core/ctx/frame/interpreted/ASTDecoder.kt:625-638 | `++x` / `--x` push as `UpdateStep` says: the deferred operand, its code in target mode, the operator, `push 1` and the operand again, which `PrefixRuns` turns into execution order |
| Decoder.ASTDecoder.VisitTarget | core/src/main/kotlin/jcinterpret/core/ctx/frame/interpreted/ASTDecoder.kt:566-574 | the common head of an update: the deferred target, then the target visited at once in target mode |
| Decoder.ASTDecoder.VisitPostfix | core/src/main/kotlin/jcinterpret/core/ctx/frame/interpreted/ASTDecoder.kt:666-690 | `x++` / `x--` push as `PostfixStep` says: the operand's code in target mode, the operator, `push 1` and the operand twice, which `PostfixRuns` turns into execution order |
| Decoder.ASTDecoder.VisitInfix | core/src/main/kotlin/jcinterpret/core/ctx/frame/interpreted/ASTDecoder.kt:692-737 | an infix chain pushes the operands and one operator instruction between each pair, as `InfixPushes` says, and never aborts |
| Decoder.ASTDecoder.PushInfixMiddle | core/src/main/kotlin/jcinterpret/core/ctx/frame/interpreted/ASTDecoder.kt:722-729 | the loop over the middle operands pushes each operand with its operator |
| Decoder.ASTDecoder.VisitFieldAccess | core/src/main/kotlin/jcinterpret/core/ctx/frame/interpreted/ASTDecoder.kt:753-781 | `e.f` pushes `obj_get`/`obj_put` (or `stat_get`/`stat_put`) by mode, `array.length` visits the array at once, and an enum constant aborts with TODO |
| Decoder.ASTDecoder.VisitSimpleName | core/src/main/kotlin/jcinterpret/core/ctx/frame/interpreted/ASTDecoder.kt:794-843 | a name pushes the read or the write its binding and the mode select, or aborts with TODO |
| Decoder.ASTDecoder.VisitQualifiedName | core/src/main/kotlin/jcinterpret/core/ctx/frame/interpreted/ASTDecoder.kt:845-898 | `q.name` pushes as `QualifiedNameStep` says: static or instance field by mode, `length`, or TODO |
| Decoder.ASTDecoder.VisitSimple | core/src/main/kotlin/jcinterpret/core/ctx/frame/interpreted/ASTDecoder.kt:739-954 | parenthesised, conditional, array access, super field access, cast, instanceof and declaration expressions push as `NodeStep` says |
| Decoder.ASTDecoder.VisitLeaf | core/src/main/kotlin/jcinterpret/core/ctx/frame/interpreted/ASTDecoder.kt:900-974 | literals and `this` push at most one instruction, a character literal the first character of its source text; lambdas and method references abort with UnsupportedLanguageFeature |
| Decoder.ASTDecoder.VisitStmt | core/src/main/kotlin/jcinterpret/core/ctx/frame/interpreted/ASTDecoder.kt:34-293 | visiting any statement pushes, leaves the flag and aborts exactly as `StmtStep` says, with the frame's current depths |
| Decoder.ASTDecoder.PushLoopExit | core/src/main/kotlin/jcinterpret/core/ctx/frame/interpreted/ASTDecoder.kt:115-118 | a loop first pushes `block_pop`, `break_pop`, `continue_pop` and the loop instruction |
| Decoder.ASTDecoder.PushLoopEntry | core/src/main/kotlin/jcinterpret/core/ctx/frame/interpreted/ASTDecoder.kt:121-122 | a loop ends with the `break_push` checkpoint of the depths read before any push, then `block_push` |
| Decoder.ASTDecoder.VisitDo | core/src/main/kotlin/jcinterpret/core/ctx/frame/interpreted/ASTDecoder.kt:88-106 | `do` pushes the loop frame with the body above the condition and a 3-instruction continue handler |
| Decoder.ASTDecoder.VisitWhile | core/src/main/kotlin/jcinterpret/core/ctx/frame/interpreted/ASTDecoder.kt:108-127 | `while` pushes the loop frame with the condition and a 2-instruction continue handler |
| Decoder.ASTDecoder.VisitEnhancedFor | core/src/main/kotlin/jcinterpret/core/ctx/frame/interpreted/ASTDecoder.kt:151-170 | enhanced `for` pushes the loop frame with the iterable and a continue handler without a value |
| Decoder.ASTDecoder.VisitFor | core/src/main/kotlin/jcinterpret/core/ctx/frame/interpreted/ASTDecoder.kt:129-149 | `for` pushes as `ForStep` says: a missing condition becomes `true`, and the initialisers are visited at once |
| Decoder.ASTDecoder.VisitSwitch | core/src/main/kotlin/jcinterpret/core/ctx/frame/interpreted/ASTDecoder.kt:179-193 | `switch` pushes its pops, the conditional switch, the selector and the entry checkpoint |
| Decoder.ASTDecoder.VisitTry | core/src/main/kotlin/jcinterpret/core/ctx/frame/interpreted/ASTDecoder.kt:201-231 | `try` visits its finally block first, so the depths in `excp_push` are read after the finally code |
| Decoder.ASTDecoder.VisitTryAfterFinally | core/src/main/kotlin/jcinterpret/core/ctx/frame/interpreted/ASTDecoder.kt:205-228 | the rest of a `try`, given the finally block's outcome, pushes as `TryStep` says |
| Decoder.ASTDecoder.PushBlock | core/src/main/kotlin/jcinterpret/core/ctx/frame/interpreted/ASTDecoder.kt:34-42 | a block pushes `block_pop`, its statements in reverse, then `block_push` |
| Decoder.ASTDecoder.PushConstructorCall | core/src/main/kotlin/jcinterpret/core/ctx/frame/interpreted/ASTDecoder.kt:454-514 | `this(args)` and `super(args)` push `invoke_special`, the arguments and `load this` |
| Decoder.ASTDecoder.VisitSimpleStmt | core/src/main/kotlin/jcinterpret/core/ctx/frame/interpreted/ASTDecoder.kt:34-293 | every statement kind that is not a loop, switch or try pushes as `StmtStep` says |
| Lowering.AddExprsReversedRuns | core/src/main/kotlin/jcinterpret/core/ctx/frame/interpreted/ASTDecoder.kt:342-344 | expressions pushed in reverse run in source order |
| Lowering.AddStmtsReversedRuns | core/src/main/kotlin/jcinterpret/core/ctx/frame/interpreted/ASTDecoder.kt:36-38 | statements pushed in reverse run in source order |
| Lowering.AcceptAllStops | core/src/main/kotlin/jcinterpret/core/ctx/frame/interpreted/ASTDecoder.kt:144 | once a visit in the loop aborts, the loop's outcome is that abort |
| LoweringFacts.BlockRunsInOrder | core/src/main/kotlin/jcinterpret/core/ctx/frame/interpreted/ASTDecoder.kt:34-42 | a block runs `block_push`, its statements in source order, then `block_pop`, and never aborts |
| LoweringFacts.ExpressionStatementDiscards | core/src/main/kotlin/jcinterpret/core/ctx/frame/interpreted/ASTDecoder.kt:279-293 | an expression statement gets a `pop` after its expression exactly when it is not inside an expression and not a plain call returning `void` |
| LoweringFacts.SuperCallStatementPops | core/src/main/kotlin/jcinterpret/core/ctx/frame/interpreted/ASTDecoder.kt:279-293 | a `super.m()` statement gets its `pop` even when `m` returns `void` |
| LoweringFacts.InfixRunsAsLeftFold | core/src/main/kotlin/jcinterpret/core/ctx/frame/interpreted/ASTDecoder.kt:692-737 | `e1 op e2 op ... op ek` runs e1, e2, op, e3, op, ..., ek, op |
| LoweringFacts.InfixOperatorCount | core/src/main/kotlin/jcinterpret/core/ctx/frame/interpreted/ASTDecoder.kt:692-737 | k operands get exactly k - 1 operator instructions |
| LoweringFacts.ConditionalOperatorsDoNotShortCircuit | core/src/main/kotlin/jcinterpret/core/ctx/frame/interpreted/ASTDecoder.kt:709-712 | `&&` and `\|\|` lower exactly like `&` and `\|`, so both operands always run |
| LoweringFacts.PostfixRuns | core/src/main/kotlin/jcinterpret/core/ctx/frame/interpreted/ASTDecoder.kt:666-690 | `x++` / `x--` run load x, load x, push 1, add/sub, the store, leaving the old value, and clear the flag |
| LoweringFacts.PrefixRuns | core/src/main/kotlin/jcinterpret/core/ctx/frame/interpreted/ASTDecoder.kt:623-664 | `++x` / `--x` run load x, push 1, add/sub, the store, load x, leaving the new value |
| LoweringFacts.AssignRuns | core/src/main/kotlin/jcinterpret/core/ctx/frame/interpreted/ASTDecoder.kt:566-621 | `x = e` runs e, the store, then load x: the assignment's value is its target |
| LoweringFacts.CompoundAssignRuns | core/src/main/kotlin/jcinterpret/core/ctx/frame/interpreted/ASTDecoder.kt:566-621 | `x op= e` runs load x, e, op, the store, load x |
| LoweringFacts.UnhandledAssignAborts | core/src/main/kotlin/jcinterpret/core/ctx/frame/interpreted/ASTDecoder.kt:617 | `\|=`, `^=` and the shift assignments abort with TODO after the load and the target code are pushed |
| LoweringFacts.HandledAssignmentOperators | core/src/main/kotlin/jcinterpret/core/ctx/frame/interpreted/ASTDecoder.kt:576-618 | the handled operators are exactly `=`, `+=`, `-=`, `*=`, `/=`, `%=` and `&=` |
| LoweringFacts.AbortedTargetKeepsFlag | core/src/main/kotlin/jcinterpret/core/ctx/frame/interpreted/ASTDecoder.kt:560-664 | when the target visit aborts, a postfix update, `++x`/`--x` and an assignment with any operator abort with it: nothing after the target code is pushed and the flag stays as the target visit left it |
| LoweringFacts.PostIncrementOnLocal | core/src/main/kotlin/jcinterpret/core/ctx/frame/interpreted/ASTDecoder.kt:666-690 | `x++` on a local runs `load`, `load`, push 1, `add`, `store` |
| LoweringFacts.ArrayAccessModes | core/src/main/kotlin/jcinterpret/core/ctx/frame/interpreted/ASTDecoder.kt:739-751 | in target mode an array access runs index, array, `arr_store_rev`; otherwise array, index, `arr_load` |
| LoweringFacts.SimpleNameTargetMode | core/src/main/kotlin/jcinterpret/core/ctx/frame/interpreted/ASTDecoder.kt:798-818 | a name in target mode pushes the write (`store`, `obj_put`, `stat_put`) of the read it pushes otherwise, and nothing else changes |
| LoweringFacts.SimpleNameUnsupported | core/src/main/kotlin/jcinterpret/core/ctx/frame/interpreted/ASTDecoder.kt:794-843 | a name bound to no variable, or to an enum constant that is not a field or parameter, aborts with TODO and pushes nothing |
| LoweringFacts.QualifiedNameTargetMode | core/src/main/kotlin/jcinterpret/core/ctx/frame/interpreted/ASTDecoder.kt:845-898 | a qualified field name in target mode pushes the write of the read it pushes otherwise |
| LoweringFacts.FieldAccessTargetMode | core/src/main/kotlin/jcinterpret/core/ctx/frame/interpreted/ASTDecoder.kt:753-781 | a field access in target mode pushes the write of the read it pushes otherwise |
| LoweringFacts.StoreGroupsRun | core/src/main/kotlin/jcinterpret/core/ctx/frame/interpreted/ASTDecoder.kt:327-332 | the packing groups pushed from the highest index down run from the lowest index up |
| LoweringFacts.PackedGroupsShape | core/src/main/kotlin/jcinterpret/core/ctx/frame/interpreted/ASTDecoder.kt:327-332 | there are \|args\| - p groups, and the j-th runs `dup`, push (p + j), argument p + j, `arr_store`: the index is the argument's index in the whole list |
| LoweringFacts.ArgumentsRun | core/src/main/kotlin/jcinterpret/core/ctx/frame/interpreted/ASTDecoder.kt:324-345 | arguments run left to right; with varargs the fixed ones run first, then `arr_allocate` and one packing group per trailing argument |
| LoweringFacts.MethodInvocationRuns | core/src/main/kotlin/jcinterpret/core/ctx/frame/interpreted/ASTDecoder.kt:353-411 | a call runs the receiver (or `load this`), the arguments, the static or virtual invoke, then the cast |
| LoweringFacts.SuperMethodInvocationRuns | core/src/main/kotlin/jcinterpret/core/ctx/frame/interpreted/ASTDecoder.kt:413-452 | `super.m(args)` runs `load this`, the arguments, `invoke_virtual_super`, then the cast |
| LoweringFacts.InstanceCreationRuns | core/src/main/kotlin/jcinterpret/core/ctx/frame/interpreted/ASTDecoder.kt:306-351 | `new C(args)` runs `obj_allocate`, `dup`, the arguments, then `invoke_special` |
| LoweringFacts.DoRunsBodyFirst | core/src/main/kotlin/jcinterpret/core/ctx/frame/interpreted/ASTDecoder.kt:88-106 | `do` runs its body before the first test of its condition |
| LoweringFacts.WhileRunsTestFirst | core/src/main/kotlin/jcinterpret/core/ctx/frame/interpreted/ASTDecoder.kt:108-127 | `while` runs its condition before the loop instruction and never runs the body directly |
| LoweringFacts.LoopsCheckpointOnEntry | core/src/main/kotlin/jcinterpret/core/ctx/frame/interpreted/ASTDecoder.kt:88-193 | every loop and switch first runs `block_push`, then `break_push` with the depths the frame had before the visit |
| LoweringFacts.ForRuns | core/src/main/kotlin/jcinterpret/core/ctx/frame/interpreted/ASTDecoder.kt:129-149 | `for` runs its initialisers in order, then tests its condition, which is `true` when absent |
| LoweringFacts.TryRuns | core/src/main/kotlin/jcinterpret/core/ctx/frame/interpreted/ASTDecoder.kt:201-231 | `try` runs `excp_push` with handles in catch order and an instruction depth that includes the finally code, then the resources, the body, and the finally code last |
| LoweringFacts.TryPushes | core/src/main/kotlin/jcinterpret/core/ctx/frame/interpreted/ASTDecoder.kt:201-231 | the push order of a `try`: the finally code first, the entry handlers last |
| LoweringFacts.LabeledRuns | core/src/main/kotlin/jcinterpret/core/ctx/frame/interpreted/ASTDecoder.kt:233-245 | a labelled statement brackets its body with a `break_push` carrying its label and a `break_pop` |
| LoweringFacts.UnsupportedCreationAborts | core/src/main/kotlin/jcinterpret/core/ctx/frame/interpreted/ASTDecoder.kt:314-321 | inner, anonymous and scoped creations abort with UnsupportedLanguageFeature before any push, in the source's order of checks |
| LoweringFacts.UnsupportedFunctionalAborts | core/src/main/kotlin/jcinterpret/core/ctx/frame/interpreted/ASTDecoder.kt:956-974 | lambdas and all four method-reference forms abort with UnsupportedLanguageFeature before any push |
| LoweringFacts.CharLiteralAsWrittenLoadsQuote | core/src/main/kotlin/jcinterpret/core/ctx/frame/interpreted/ASTDecoder.kt:905-908 | the decoder loads a quoted character literal's opening quote, never its value (unless the value is a quote) |
| LoweringFacts.CharLiteralEmptyThrows | core/src/main/kotlin/jcinterpret/core/ctx/frame/interpreted/ASTDecoder.kt:905-908 | `first()` of an empty source text throws NoSuchElementException before anything is pushed |
| LoweringFacts.CharLiteralLoadsValue | core/src/main/kotlin/jcinterpret/core/ctx/frame/interpreted/ASTDecoder.kt:905-908 | the intended lowering `CharLiteralStep` loads the literal's value; the decoder agrees with it exactly when the text starts with the value, and not on `'a'` |
| ClassAreas.ClassArea.IsClassLoaded | core/src/main/kotlin/jcinterpret/core/ctx/meta/ClassArea.kt:18-19 | a signature counts as loaded exactly when `getClass` on it does not abort |
| ClassAreas.ClassArea.GetClass | core/src/main/kotlin/jcinterpret/core/ctx/meta/ClassArea.kt:21-26 | the lookup succeeds exactly when the area holds a class under the signature, and then yields that class; otherwise it fails naming the signature |
| ClassAreas.ClassArea.CastWillSucceed | core/src/main/kotlin/jcinterpret/core/ctx/meta/ClassArea.kt:64-89 | equal signature texts give true; class to class needs both loaded and is their assignability; class to array is false; array to class is true exactly for `java/lang/Object`; array to array is true exactly for the text `[Ljava/lang/Object`; anything else is TODO |
| ClassAreas.JoinTexts | core/src/main/kotlin/jcinterpret/core/ctx/meta/ClassArea.kt:37 | `joinToString(",")`: no signatures give the empty text; otherwise the text starts with the first signature, followed by a comma when more come |
| ClassAreas.SplitJoinTexts | core/src/main/kotlin/jcinterpret/core/ctx/meta/ClassArea.kt:37 | splitting the joined text at its commas gives back every signature's text, in order, when no signature contains a comma |
| ClassAreas.ClassArea.BuildClassLoaderFrame | core/src/main/kotlin/jcinterpret/core/ctx/meta/ClassArea.kt:28-39 | for distinct signatures, as the source's `Set` holds them, the frame is named `LOADER ` and the joined signatures, and holds 2·n instructions: one validation per signature below one allocation per signature, in signature order |
| ClassAreas.ClassArea.AllocateClassType | core/src/main/kotlin/jcinterpret/core/ctx/meta/ClassArea.kt:41-62 | loading a loaded signature changes nothing; loading a new one stores the class built from its descriptor under it and changes no other entry |
| ClassAreas.StaticFieldTable | core/src/main/kotlin/jcinterpret/core/ctx/meta/ClassArea.kt:45-48 | the static-field table is keyed by exactly the names of the static fields, each entry that field |
| ClassAreas.MethodTable | core/src/main/kotlin/jcinterpret/core/ctx/meta/ClassArea.kt:50-58 | a method table is keyed by exactly the signatures of the methods of the chosen static-ness |
| ClassAreas.MethodTablesSplit | core/src/main/kotlin/jcinterpret/core/ctx/meta/ClassArea.kt:50-58 | every method lands in the static or the instance table, as its static-ness says |
| Descriptors.BindingDescriptorResolver.constructor | core/src/main/kotlin/jcinterpret/core/descriptors/BindingDescriptorResolver.kt:14-23 | the table is that of every top-level type of every unit stored in order under its signature |
| Descriptors.RegisterUnits | core/src/main/kotlin/jcinterpret/core/descriptors/BindingDescriptorResolver.kt:15-22 | the loop over compilation units builds `Registered(units)` |
| Descriptors.RegisterTypes | core/src/main/kotlin/jcinterpret/core/descriptors/BindingDescriptorResolver.kt:16-21 | the loop over one unit's types extends the table by those types, in order |
| Descriptors.AllTypesContains | core/src/main/kotlin/jcinterpret/core/descriptors/BindingDescriptorResolver.kt:15-16 | every type of every unit is visited |
| Descriptors.RegisterKeys | core/src/main/kotlin/jcinterpret/core/descriptors/BindingDescriptorResolver.kt:20 | the table is keyed by exactly the signatures of the registered descriptors |
| Descriptors.RegisterLastWins | core/src/main/kotlin/jcinterpret/core/descriptors/BindingDescriptorResolver.kt:20 | when descriptors share a signature, the one registered last is kept |
| Descriptors.EveryTypeRegistered | core/src/main/kotlin/jcinterpret/core/descriptors/BindingDescriptorResolver.kt:14-23 | every top-level type of every unit is registered under its signature |
| Descriptors.BindingDescriptorResolver.TryResolveClass | core/src/main/kotlin/jcinterpret/core/descriptors/BindingDescriptorResolver.kt:25-27 | the class lookup returns the registered descriptor, and none exactly for an absent signature |
| Descriptors.BindingDescriptorResolver.TryResolveMethod | core/src/main/kotlin/jcinterpret/core/descriptors/BindingDescriptorResolver.kt:29-32 | the method lookup is none for an unregistered class, and otherwise that class's method entry at the signature text, present exactly when the entry is |
| Descriptors.BindingDescriptorResolver.ResolvesRegistered | core/src/main/kotlin/jcinterpret/core/descriptors/BindingDescriptorResolver.kt:14-27 | a resolver built from units resolves each of their types, unless a later type shares its signature |
| StackValues.Label | core/src/main/kotlin/jcinterpret/core/memory/stack/SymbolicValue.kt:11-13 | the label starts with `#` |
| StackValues.NatToString | core/src/main/kotlin/jcinterpret/core/memory/stack/SymbolicValue.kt:12 | the decimal text of a number is all digits, one digit exactly below 10 |
| StackValues.NatToStringInjective | core/src/main/kotlin/jcinterpret/core/memory/stack/SymbolicValue.kt:12 | distinct numbers have distinct decimal texts |
| StackValues.IntToStringInjective | core/src/main/kotlin/jcinterpret/core/memory/stack/SymbolicValue.kt:12 | distinct `Int`s have distinct string templates, sign included |
| StackValues.LabelInjective | core/src/main/kotlin/jcinterpret/core/memory/stack/SymbolicValue.kt:11-13 | for a fixed type, the label determines the id |
| ValueComparator.Wrap32 | comparison/src/main/kotlin/jcinterpret/comparison/iterative/ValueComparator.kt:102-103 | `toInt()` keeps the low 32 bits as a signed value and is the identity on the `Int` range |
| ValueComparator.CompareConcrete | comparison/src/main/kotlin/jcinterpret/comparison/iterative/ValueComparator.kt:91-106 | booleans match only booleans, by value; numbers that are equal match, and numbers in the `Int` range match exactly when equal |
| ValueComparator.CompareStack | comparison/src/main/kotlin/jcinterpret/comparison/iterative/ValueComparator.kt:59-74 | stack values of different kinds never match |
| ValueComparator.CompareComputed | comparison/src/main/kotlin/jcinterpret/comparison/iterative/ValueComparator.kt:76-89 | computed values of different kinds never match |
| ValueComparator.CompareStackSymmetric | comparison/src/main/kotlin/jcinterpret/comparison/iterative/ValueComparator.kt:59-106 | the stack comparison is symmetric |
| ValueComparator.CompareStackReflexive | comparison/src/main/kotlin/jcinterpret/comparison/iterative/ValueComparator.kt:59-106 | every stack value matches itself (numbers are integers here) |
| ValueComparator.BinaryCommutative | comparison/src/main/kotlin/jcinterpret/comparison/iterative/ValueComparator.kt:83-86 | a binary operation matches its operand-swapped form |
| ValueComparator.IdsAndCastTypesIgnored | comparison/src/main/kotlin/jcinterpret/comparison/iterative/ValueComparator.kt:65-81 | symbolic values match by type alone, and casts by operand alone |
| ValueComparator.NumbersByValue | comparison/src/main/kotlin/jcinterpret/comparison/iterative/ValueComparator.kt:99-105 | numbers in the `Int` range match exactly when equal, and wider numbers also match when their low 32 bits agree |
| ValueComparator.Collect | comparison/src/main/kotlin/jcinterpret/comparison/iterative/ValueComparator.kt:14-27 | collecting only appends, only adds to `visited`, and appends leaves only |
| ValueComparator.CollectUnshared | comparison/src/main/kotlin/jcinterpret/comparison/iterative/ValueComparator.kt:14-27 | without shared subtrees, collecting appends exactly the leaves left to right and visits exactly the composite nodes |
| ValueComparator.SharedSubtreeOnce | comparison/src/main/kotlin/jcinterpret/comparison/iterative/ValueComparator.kt:14-27 | a subtree shared by both sides of a concatenation is flattened once |
| ValueComparator.CollectStartsWithLeftmost | comparison/src/main/kotlin/jcinterpret/comparison/iterative/ValueComparator.kt:14-27 | collecting from an unvisited left spine starts with the leftmost leaf |
| ValueComparator.CompareLeaf | comparison/src/main/kotlin/jcinterpret/comparison/iterative/ValueComparator.kt:29-37 | only leaves of one kind match: concrete strings exactly when their texts are equal, symbolic strings always, composites never |
| ValueComparator.FirstLeavesAsWritten | comparison/src/main/kotlin/jcinterpret/comparison/iterative/ValueComparator.kt:46-53 | the loop as written accepts only when the first pair of leaves matches, and its result is the same as on the first pair alone; on non-empty flattenings, everything the pairwise loop accepts, it accepts |
| ValueComparator.CompareStringsAsWritten | comparison/src/main/kotlin/jcinterpret/comparison/iterative/ValueComparator.kt:29-57 | the comparison the program runs: only two composites or two leaves can match, and two composites only when their flattenings have equal length |
| ValueComparator.AsWrittenDecidedByFirstLeaves | comparison/src/main/kotlin/jcinterpret/comparison/iterative/ValueComparator.kt:39-56 | as written, two composites match exactly when their flattenings have equal length and their first leaves match |
| ValueComparator.AsWrittenIgnoresLaterLeaves | comparison/src/main/kotlin/jcinterpret/comparison/iterative/ValueComparator.kt:46-53 | as written, `"a" + "b"` matches `"a" + "c"`, which the intended comparison rejects |
| ValueComparator.CompareStrings | comparison/src/main/kotlin/jcinterpret/comparison/iterative/ValueComparator.kt:29-57 | the intended (pairwise) comparison, not the program's (see `CompareStringsAsWritten`): two composites match exactly when their flattenings have equal length and match leaf by leaf |
| ValueComparator.IntendedImpliesAsWritten | comparison/src/main/kotlin/jcinterpret/comparison/iterative/ValueComparator.kt:29-57 | whatever the intended comparison accepts, the comparison as written accepts too |
| ValueComparator.PairwiseLeaves | comparison/src/main/kotlin/jcinterpret/comparison/iterative/ValueComparator.kt:46-53 | the corrected loop accepts exactly when every pair of leaves matches |
| ValueComparator.CompareLeafSymmetric | comparison/src/main/kotlin/jcinterpret/comparison/iterative/ValueComparator.kt:30-37 | the leaf comparisons are symmetric |
| ValueComparator.CompareStringsSymmetric | comparison/src/main/kotlin/jcinterpret/comparison/iterative/ValueComparator.kt:29-57 | the intended string comparison is symmetric |
| ValueComparator.CompareStringsReflexive | comparison/src/main/kotlin/jcinterpret/comparison/iterative/ValueComparator.kt:29-57 | under the intended string comparison every string value matches itself |
| ValueComparator.AsWrittenSymmetric | comparison/src/main/kotlin/jcinterpret/comparison/iterative/ValueComparator.kt:29-57 | the string comparison as written is symmetric |
| ValueComparator.AsWrittenReflexive | comparison/src/main/kotlin/jcinterpret/comparison/iterative/ValueComparator.kt:29-57 | as written, every string value matches itself, a composite through its leftmost leaf |
| ValueComparator.Compare | comparison/src/main/kotlin/jcinterpret/comparison/iterative/ValueComparator.kt:8-12 | only two strings, compared as the source writes it, or two stack values can match |
| ValueComparator.CompareSymmetric | comparison/src/main/kotlin/jcinterpret/comparison/iterative/ValueComparator.kt:8-12 | the top-level comparison, with strings compared as written, is symmetric |
| ValueComparator.CompareReflexive | comparison/src/main/kotlin/jcinterpret/comparison/iterative/ValueComparator.kt:8-12 | with strings compared as written, every string or stack value matches itself |
| GraphComparator.CompareGraphs | comparison/src/main/kotlin/jcinterpret/comparison/iterative/IterativeGraphComparator.kt:20-23 | comparing two graphs returns the `Scores()` of a comparator holding the two graphs and the parameters |
| GraphComparator.Comparator.Compare | comparison/src/main/kotlin/jcinterpret/comparison/iterative/IterativeGraphComparator.kt:31-156 | `compare()` returns `Scores()`; past the size gate it leaves the seeded table in `simMap`, and otherwise leaves the table alone |
| GraphComparator.Comparator.Scores | comparison/src/main/kotlin/jcinterpret/comparison/iterative/IterativeGraphComparator.kt:31-155 | (0, 0) when the node counts differ by more than 40; otherwise the mapped fractions `Ratio(|Mapping().0|, |lhs|)` and `Ratio(|Mapping().1|, |rhs|)`, NaN exactly for an empty graph and otherwise in [0, 1] |
| GraphComparator.Comparator.Mapping | comparison/src/main/kotlin/jcinterpret/comparison/iterative/IterativeGraphComparator.kt:84-147 | the grown mapping holds every seed pair's nodes, nodes of the two graphs only, and as many left nodes as right nodes |
| GraphComparator.Comparator.MappingSizes | comparison/src/main/kotlin/jcinterpret/comparison/iterative/IterativeGraphComparator.kt:84-155 | the mapping holds at most all nodes of each graph |
| GraphComparator.Comparator.Grown | comparison/src/main/kotlin/jcinterpret/comparison/iterative/IterativeGraphComparator.kt:92-147 | the rounds grow the mapping from the pairs mapped last: the mapping only grows, stays within the graphs, and gains as many left as right nodes |
| GraphComparator.Comparator.GrownRound | comparison/src/main/kotlin/jcinterpret/comparison/iterative/IterativeGraphComparator.kt:92-147 | a round without pairs ends the growth; otherwise every pair of the round ends up mapped and each side grows by at least the round's size |
| GraphComparator.Comparator.Grow | comparison/src/main/kotlin/jcinterpret/comparison/iterative/IterativeGraphComparator.kt:82-147 | the `while` loop from the seed pairs ends with the mapping `Grown` defines, which holds the seeds, as many left as right nodes |
| GraphComparator.Comparator.SeededIsSeedTable | comparison/src/main/kotlin/jcinterpret/comparison/iterative/IterativeGraphComparator.kt:38-80 | `SeedTable()`, the table seeding leaves behind, holds the seed cost on candidate pairs and 1.0 on all other pairs; a table is seeded exactly when it is `SeedTable()` |
| GraphComparator.Comparator.Expand | comparison/src/main/kotlin/jcinterpret/comparison/iterative/IterativeGraphComparator.kt:99-140 | one frontier round yields the best pairs of its batch, unmapped on both sides, with distinct left and distinct right nodes |
| GraphComparator.Comparator.Record | comparison/src/main/kotlin/jcinterpret/comparison/iterative/IterativeGraphComparator.kt:141-146 | recording a round adds exactly its left and right nodes to the mapped sets |
| GraphComparator.Comparator.FrontierRound | comparison/src/main/kotlin/jcinterpret/comparison/iterative/IterativeGraphComparator.kt:102-138 | the loops over the pairs mapped last build the batch `ScanPairs` defines |
| GraphComparator.Comparator.ScanEdges | comparison/src/main/kotlin/jcinterpret/comparison/iterative/IterativeGraphComparator.kt:107-137 | the loop over a mapped left node's edges adds each unmapped neighbour and scans the right node's edges |
| GraphComparator.Comparator.ScanRightEdges | comparison/src/main/kotlin/jcinterpret/comparison/iterative/IterativeGraphComparator.kt:115-136 | the loop over the right node's edges adds unmapped neighbours and records role-aligned pair costs |
| GraphComparator.Comparator.ScanRightFresh | comparison/src/main/kotlin/jcinterpret/comparison/iterative/IterativeGraphComparator.kt:112-130 | the inner scan keeps the batch keys distinct, in range and unmapped, and adds no left key |
| GraphComparator.Comparator.ScanLeftFresh | comparison/src/main/kotlin/jcinterpret/comparison/iterative/IterativeGraphComparator.kt:106-137 | the scan over a node's edges keeps the batch keys distinct, in range and unmapped |
| GraphComparator.Comparator.ScanPairsFresh | comparison/src/main/kotlin/jcinterpret/comparison/iterative/IterativeGraphComparator.kt:102-138 | the keys of a round are distinct nodes of their graphs that are not yet mapped |
| GraphComparator.Comparator.ScanPairsNeighbours | comparison/src/main/kotlin/jcinterpret/comparison/iterative/IterativeGraphComparator.kt:102-138 | the left keys of a round are exactly the unmapped neighbours of the left nodes mapped last, and the right keys are neighbours of the right nodes mapped last |
| GraphComparator.Comparator.ScanLeftNeighbours | comparison/src/main/kotlin/jcinterpret/comparison/iterative/IterativeGraphComparator.kt:107-137 | the scan over a left node's edges adds exactly that node's unmapped neighbours as left keys, and only neighbours of the right node as right keys |
| GraphComparator.Comparator.ScanRightNeighbours | comparison/src/main/kotlin/jcinterpret/comparison/iterative/IterativeGraphComparator.kt:115-136 | the scan over a right node's edges adds only that node's neighbours as right keys and no left key |
| GraphComparator.Comparator.BestMatches | comparison/src/main/kotlin/jcinterpret/comparison/iterative/IterativeGraphComparator.kt:162-187 | the frontier `makeBestMatches` fills the cost array and picks the pairs `FrontierPairs` defines |
| GraphComparator.Comparator.FrontierMatrix | comparison/src/main/kotlin/jcinterpret/comparison/iterative/IterativeGraphComparator.kt:165-170 | the frontier cost array has one row per left key and one column per right key |
| GraphComparator.Comparator.FrontierAcceptsAssigned | comparison/src/main/kotlin/jcinterpret/comparison/iterative/IterativeGraphComparator.kt:162-187 | a frontier batch with an empty side gives no pairs; otherwise every assigned row gives its pair, with no threshold |
| GraphComparator.Comparator.FrontierPairsFresh | comparison/src/main/kotlin/jcinterpret/comparison/iterative/IterativeGraphComparator.kt:162-187 | the frontier matches are unmapped on both sides, with distinct left and distinct right nodes |
| GraphComparator.MakeSimilarityMap | comparison/src/main/kotlin/jcinterpret/comparison/iterative/IterativeGraphComparator.kt:216-223 | the table has exactly one entry per pair of a left and a right node, each 1.0 |
| GraphComparator.Comparator.constructor | comparison/src/main/kotlin/jcinterpret/comparison/iterative/IterativeGraphComparator.kt:25-29 | a comparator holds its graphs and matchers, and its cost table starts at all 1.0 |
| GraphComparator.Comparator.SameKind | comparison/src/main/kotlin/jcinterpret/comparison/iterative/IterativeGraphComparator.kt:225-257 | the right nodes of one kind, each once |
| GraphComparator.Comparator.Candidates | comparison/src/main/kotlin/jcinterpret/comparison/iterative/IterativeGraphComparator.kt:225-257 | a left node's candidates are exactly the right operation nodes with its operator or method signature; a non-operation node has none |
| GraphComparator.Comparator.InitialCandidates | comparison/src/main/kotlin/jcinterpret/comparison/iterative/IterativeGraphComparator.kt:225-257 | the candidate map holds exactly the left nodes with a candidate, each with all of its candidates |
| GraphComparator.Comparator.SeedEdgeRow | comparison/src/main/kotlin/jcinterpret/comparison/iterative/IterativeGraphComparator.kt:43-61 | one row of a seed pair's edge cost array has one entry per edge of the right node |
| GraphComparator.Comparator.SeedEdgeCosts | comparison/src/main/kotlin/jcinterpret/comparison/iterative/IterativeGraphComparator.kt:43-61 | a seed pair's edge cost array has one row per left edge and one column per right edge |
| GraphComparator.Comparator.SeedEdgeCostArray | comparison/src/main/kotlin/jcinterpret/comparison/iterative/IterativeGraphComparator.kt:43-61 | the nested loops fill the array `SeedEdgeCosts` defines |
| GraphComparator.Comparator.SeedPairCost | comparison/src/main/kotlin/jcinterpret/comparison/iterative/IterativeGraphComparator.kt:42-78 | the body of the candidate loop computes `SeedCost` |
| GraphComparator.Comparator.SeedCostByDegrees | comparison/src/main/kotlin/jcinterpret/comparison/iterative/IterativeGraphComparator.kt:77-78 | a candidate's cost is 1 - deg(n) / max(deg(n), deg(c)), NaN when both degrees are 0 |
| GraphComparator.Comparator.SeedCosts | comparison/src/main/kotlin/jcinterpret/comparison/iterative/IterativeGraphComparator.kt:38-80 | after seeding, every candidate pair carries its seed cost and every other pair still costs 1.0: the table is `SeedTable()` |
| GraphComparator.Comparator.SeedMatrix | comparison/src/main/kotlin/jcinterpret/comparison/iterative/IterativeGraphComparator.kt:190-195 | the seed cost array has one row per left node and one column per right node |
| GraphComparator.Comparator.BestSeedMatches | comparison/src/main/kotlin/jcinterpret/comparison/iterative/IterativeGraphComparator.kt:189-214 | the seed `makeBestMatches` fills the cost array from the table and picks the pairs `SeedPairs` defines |
| GraphComparator.Comparator.SeedThreshold | comparison/src/main/kotlin/jcinterpret/comparison/iterative/IterativeGraphComparator.kt:205 | an assigned pair is a seed exactly when its similarity exceeds 0.5 |
| GraphComparator.Comparator.SeedsShareKey | comparison/src/main/kotlin/jcinterpret/comparison/iterative/IterativeGraphComparator.kt:189-214 | after seeding, every seed pair is a candidate pair, so both are operations of the same operator or method signature |
| GraphComparator.Comparator.SeedPairsDistinct | comparison/src/main/kotlin/jcinterpret/comparison/iterative/IterativeGraphComparator.kt:189-214 | the seeds are nodes of their graphs, with distinct left and distinct right nodes |
| GraphComparator.PickMatches | comparison/src/main/kotlin/jcinterpret/comparison/iterative/IterativeGraphComparator.kt:199-211 | the loop over an assignment yields the pairs `Picks` defines |
| GraphComparator.PicksFromRows | comparison/src/main/kotlin/jcinterpret/comparison/iterative/IterativeGraphComparator.kt:174-184 | every pick comes from an assigned row that passes the threshold |
| GraphComparator.PicksFromEveryRow | comparison/src/main/kotlin/jcinterpret/comparison/iterative/IterativeGraphComparator.kt:174-184 | every assigned row that passes the threshold gives its pick |
| GraphComparator.PicksDistinct | comparison/src/main/kotlin/jcinterpret/comparison/iterative/IterativeGraphComparator.kt:174-184 | with distinct keys, the picks of an assignment have distinct left and distinct right keys, drawn from the keys |
| GraphComparator.Ratio | comparison/src/main/kotlin/jcinterpret/comparison/iterative/IterativeGraphComparator.kt:152-155 | a count divided by a count is NaN exactly for a zero divisor, and otherwise the quotient, in [0, 1] for a part of a whole |
| GraphComparator.AddKey | comparison/src/main/kotlin/jcinterpret/comparison/iterative/IterativeGraphComparator.kt:113 | adding to an insertion-ordered set adds exactly that key and keeps the keys distinct |
| GraphComparator.Incident | comparison/src/main/kotlin/jcinterpret/comparison/iterative/IterativeGraphComparator.kt:107-108 | a node's edge set holds only edges of the graph at that node |

## Left out

- Threads: `compareAsync` submits the comparison to an executor. The concurrency is not modelled; `CompareGraphs` is the synchronous call.
- The graph library: node identities are indices into a node sequence, and a node's edge set is its incident edges in edge-sequence order. The iteration order of the library's edge sets is not shown, so the model fixes one.
- `ElementMatcher.match` and the optimal-assignment algorithm are not shown. They are function-valued parameters. The assignment contract is a precondition, inferred from how the comparator reads the result.
- Floating point: costs are `real`, and `Double` is a finite real or NaN. Rounding is not modelled. The only NaN produced is the `0.0 / 0` of a zero-degree candidate or an empty graph.
- The list of matched neighbours the seeding loop builds (IterativeGraphComparator.kt:64-75) and the unmapped sets (IterativeGraphComparator.kt:149-150) feed nothing. They are not modelled.
- The first two branches of the neighbour similarity (IterativeGraphComparator.kt:124-127) are unreachable, because both neighbours are unmapped when it is computed. `FrontierSim` models the live branch only.
- GraphComparator.Comparator.SeedCosts: the seeding visits candidates in left-node order. The source iterates the map `makeInitialCandidates` builds, in the order of its operator groups. The candidate pairs are distinct, so the final table is the same.
- GraphComparator.Comparator.Grow: termination is proved by a decreasing measure, the unmapped left nodes then the size of the last round. No explicit bound on the number of rounds is stated.
- GraphComparator.Comparator.SeedCostByDegrees: this states the cost as the source computes it, from the length of the assignment result. That length is always the row count. Whether the authors meant the count of matched edges is not shown, so the model keeps the source's formula.
- Cost arrays: the Kotlin `Array<DoubleArray>` values are built row by row as sequences of sequences. They are never updated after they are built.
- ValueComparator.Collect: the list and identity set that `collect` mutates are threaded through as values. Object identity (`System.identityHashCode`) is an explicit `identity` field of each composite node.
- ValueComparator.Collect: the source also adds a leaf's identity hash to `visited` (ValueComparator.kt:25). Leaves carry no identity here, so a leaf whose hash collides with a composite's cannot hide that composite.
- Lowering.FieldAccessStep, Lowering.QualifiedNameStep: the source takes the type of a static field access from the node's resolved type and that of an instance access from the field binding. Both are the one resolved type string of the syntax tree here.
- ValueComparator.NumbersByValue: numbers are integers. The `toDouble()` comparison of wide integers and of floating-point numbers is not modelled.
- Stack types and operators are compared by their enum constant's name; the set of constants is not modelled.
- ClassAreas.ClassArea.AllocateClassType: the heap's symbolic initial values of static fields (`allocateSymbolic`) and the compiled method bodies (`MethodFactory.build`) are not shown. A static field is recorded by its name and type, and a method table maps a signature to its descriptor.
- ClassAreas.ClassArea.BuildClassLoaderFrame: the source's `Set` of signatures is a sequence of distinct signatures, and its iteration order is the sequence order.
- ClassAreas.ClassArea.constructor: the area keeps its own `classes` map. The source keeps, and later updates, the caller's `MutableMap` (ClassArea.kt:15-16), so a caller holding that map would see new classes; no caller in this model holds it.
- ClassAreas.ClassArea.CastWillSucceed: the assignability of two classes (`isAssignableTo`) is not shown and is a parameter. An array-to-array cast succeeds only when the target's text is exactly `[Ljava/lang/Object`, as the code compares it. A cast to `Object[]`, whose text is `[Ljava/lang/Object;`, is therefore refused.
- Signatures: the `toString()` form of a signature is a field of the signature datatype.
- JDT binding resolution: the binding facts the visitor reads are fields of the syntax tree.
- The `TypeBindingClassTypeDescriptor` built from a JDT binding is a descriptor value in a compilation unit.
- The runtime meaning of the emitted instructions (`while_loop`, `excp_push`, `decode_expr`, ...) is not modelled, only the expansion.
- `TODO()` calls, `NotImplementedError` and `IllegalArgumentException` are failure outcomes of a visit, alongside `UnsupportedLanguageFeature`.
- The syntax datatype does not cover the other `ASTVisitor` overloads the decoder does not override. They fall back to the library's default.

## Findings

| source | as written | input that shows it | evidently intended | confidence | as-written member | corrected member |
|---|---|---|---|---|---|---|
| core/src/main/kotlin/jcinterpret/core/ctx/frame/interpreted/ASTDecoder.kt:905-908 | `ldc_char(node.escapedValue.first())` loads the first character of the literal's source text, which is its opening quote; the decoder model does the same | the literal `'a'`, whose escaped value is `'a'` with quotes: the decoder loads `'` instead of `a` | load the literal's character value | not executed | LoweringFacts.CharLiteralAsWrittenLoadsQuote | LoweringFacts.CharLiteralLoadsValue |
| comparison/src/main/kotlin/jcinterpret/comparison/iterative/ValueComparator.kt:46-53 | the loop over the flattened leaves returns `true` on its first iteration, so only the first leaves are compared; the top-level `Compare` does the same | `CompositeString("a", "b")` against `CompositeString("a", "c")`: as written they match | compare all leaves pairwise and return `true` after the loop | not executed | ValueComparator.AsWrittenIgnoresLaterLeaves | ValueComparator.CompareStrings |
