# slang core, modelled in Dafny

slang is a small expression language. Its programs are stored in one flat
node arena, the `AstPool`. The arena holds no child pointers. A call's
arguments sit directly below the subtree of its callee, and `children`
finds them by walking backwards from the call, subtracting subtree sizes
as it goes. This works only because the parser lays every expression out
in post-order: the arguments left to right, then the callee, then the
`Call` node; for a definition or a lambda, the body and then the node
itself.

Four components read that arena, and all four are modelled here:

- **Arena and interner** (`Pool`, `Arena`, `Layout`).
  - The append-only builders and the string interner are methods of the
    `AstPool` class. Each states its whole new state.
  - `len` and `children` are total functions. `None` marks every index that
    the source would underflow on, read out of range, or loop on. It also
    marks every callee or body index that is not below its parent, a layout
    the parser never builds (see "Left out").
  - A post-order layout function says where the parser puts each node. The
    main theorem (`Layout.EmitWalk`) proves that on such an arena `len` is
    the subtree's size and `children` returns exactly the argument roots
    that were built, left to right.
  - `find_dependencies` is proved to return the names referenced in the least
    closed set of positions reachable from the definition.
- **Arity checker** (`Checker`).
  - `check_expression` and `check_program` are functions.
  - A local fault function says what is wrong with one node on its own. The
    checker is proved to accept a subtree exactly when none of its nodes has
    a fault, and every error it reports is the fault of one of those nodes.
    The same holds for a whole program, whatever order the definition map is
    visited in.
- **Closure compiler and stack machine** (`Function`, `Executor`).
  - The boxed Rust closures become the first-order `Code` datatype, and
    `compile_expr` lowers a node to it.
  - Running code is a fuel-bounded function over a value stack. Every
    `unwrap` and `panic!` is an error outcome carrying an `ErrTrace`.
  - The `CompiledFunctions` class holds the function table as a sequence
    indexed by slot, and the slot map. Its two-pass `compile` and `execute`
    are methods proved against the specification functions.
  - The stack discipline is proved: disciplined code that finishes leaves
    the stack below it untouched and exactly one value taller. Code is
    disciplined when every call's callee is a function value it pushes
    itself and every primitive call has exactly two arguments. Curried
    calls such as `curry(1, 2)(3, 4, 5)(6)` (src/ast/mod.rs:467-525) fall
    outside it, although `Exec` runs them. The checker rejects every such
    call, so `Soundness.CheckedRun` is unaffected.
- **Pretty-printer** (`Printer`).
  - `PrettyPrinter` is a class with the configuration, the collected
    parameter names, and the current function and level.
  - Its methods append to an output string. Each is proved to append exactly
    the text a printing function specifies, and to restore the context
    fields it changes.
  - The generic parameter names are proved injective, printed integers are
    proved to read back as their value, and the collected names are proved
    not to change what is printed.

`Soundness.CheckedRun` joins the checker and the compiler. Suppose a program
passes the checker and is compiled into a fresh table, and an expression
that passes the checker is executed. Then the expression compiles, the run
never fails for want of a function body, and a finished run leaves exactly
one value on the stack, which is the result.

The source's files are at different revisions, and the model reconciles
them as follows:

- There is one `Ast` datatype with the variants of `src/ast/mod.rs`.
- `Call` keeps only the `func_idx` and `child_count` fields that the shown
  code reads.
- `Lambda` is walked like `FunctionDef`. The checker and the compiler reject
  it.
- `Value` gains the function variant that `src/compiler/executor.rs` pushes.
- Closures follow the `(mem, param_base)` convention of `executor.rs`.
  Failures are `Result` values, as `src/compiler/function.rs` declares.

## Model

| member | source | states |
|---|---|---|
| Syntax.PrimitiveName | src/ast/pretty_printer.rs:217-220 | a primitive is written `add` or `multiply`, and `add` names exactly `Add` |
| Pool.GetPrimitiveFunc | src/ast/pool.rs:187-193 | exactly the names `add` and `multiply` are primitives, and the primitive found is the one whose name was looked up |
| Pool.PrimitiveRoundTrip | src/ast/pool.rs:187-193 | looking up a primitive's printed name gives back that primitive |
| Pool.AstPool.constructor | src/ast/pool.rs:103-112 | a new pool is empty in every table and satisfies the interner and arena invariant |
| Pool.AstPool.InternString | src/ast/pool.rs:114-123 | a known string returns its handle and changes nothing (idempotence); a new string gets handle = old pool size and is appended; either way `get_string` of the handle is the string, and the invariant is kept |
| Pool.AstPool.GetString | src/ast/pool.rs:125-127 | under the invariant, the string behind a handle interns back to that handle |
| Pool.AstPool.GetNameIdx | src/ast/pool.rs:315-317 | a handle exists exactly for interned strings, and it reads back as the string |
| Pool.AstPool.AddInteger | src/ast/pool.rs:129-133 | appends one `Integer` node at index = old node count, returns that index, and leaves all else unchanged |
| Pool.AstPool.AddParamRef | src/ast/pool.rs:135-139 | appends one parameter reference at the old node count and returns its index |
| Pool.AstPool.AddPrimitiveFunc | src/ast/pool.rs:141-145 | appends one primitive node at the old node count and returns its index |
| Pool.AstPool.AddUserFunc | src/ast/pool.rs:147-152 | interns the name, then appends a reference to its handle at the old node count |
| Pool.AstPool.AddCall | src/ast/pool.rs:154-161 | appends one call node with the given callee and argument count at the old node count |
| Pool.AstPool.AddAdd | src/ast/pool.rs:163-166 | appends an `Add` primitive and then a two-argument call of it, ignoring its argument; returns the call's index |
| Pool.AstPool.AddMultiply | src/ast/pool.rs:168-171 | as `AddAdd`, with `Multiply` |
| Pool.AstPool.AddFunctionDef | src/ast/pool.rs:173-185 | appends the definition node and maps the name's handle to it; a later definition of the same name replaces the earlier one |
| Pool.AstPool.AddFunctionCall | src/ast/pool.rs:243-251 | a primitive name gets a primitive callee and leaves the interner alone; any other name is interned as `add_user_func` interns it, keeping every earlier handle, and gets a user-function callee; the call node comes last |
| Pool.AstPool.RegisterParamName | src/ast/pool.rs:68-77 | records the interned parameter name under (function, position), replacing an earlier entry, and `get_param_name` then returns it |
| Pool.AstPool.GetParamName | src/ast/pool.rs:79-83 | a name is returned exactly for registered keys, and it is the string of the registered handle |
| Pool.AstPool.Len | src/ast/pool.rs:195-216 | the loop total equals the subtree size of the reference definition |
| Pool.AstPool.Children | src/ast/pool.rs:218-241 | the collected and reversed roots equal the reference `children` |
| Pool.AstPool.WalkDown | src/ast/pool.rs:226-234 | the loop returns `count` roots, last argument first: the backward walk read in reverse |
| Pool.AstPool.FindDependencies | src/ast/pool.rs:23-34 | only defined names are returned; an unknown or undefined name gives the empty set; otherwise the result is the set of defined names referenced in the least closed set of positions holding the definition |
| Pool.AstPool.Visit | src/ast/pool.rs:36-66 | a visit marks the node and searches exactly what is reachable from it: the sets only grow, each newly visited position has all its successors visited, and the new names are those referenced at the new positions |
| Pool.AstPool.VisitCallee | src/ast/pool.rs:47-59 | a reference to a defined function records its name and searches its definition; a call searches its callee |
| Pool.AstPool.VisitAll | src/ast/pool.rs:61-65 | the children loop searches every root in turn, sharing one visited set, and covers only what is reachable from them |
| Pool.AstPool.DependenciesClosed | src/ast/pool.rs:48-53 | the dependencies are closed under "calls a defined function": what a dependency's definition reaches is already in the search, so its dependencies are dependencies too |
| Pool.AstPool.VisitDone | src/ast/pool.rs:42-66 | the callee search and the children search together search every successor of the new node |
| Pool.AstPool.GrewTrans | src/ast/pool.rs:61-65 | two consecutive search steps compose into one step |
| Arena.SubtreeLen | src/ast/pool.rs:195-216 | a subtree that walks lies in the arena, has size at least 1, and does not reach below index 0 |
| Arena.WalkBack | src/ast/pool.rs:228-234 | a successful walk returns `count` roots, all between its lowest index and its start, so no subtraction goes below 0 |
| Arena.Children | src/ast/pool.rs:218-241 | `None` exactly for the four atomic kinds; `[body]` for a definition or lambda; `child_count` roots, all below the call, for a call |
| Arena.BelowParent | src/ast/pool.rs:227-228 | in a walkable arena a callee and a body lie below their parent |
| Arena.LenFormula | src/ast/pool.rs:195-216 | the subtree size is 1 for atoms, 1 + size of the body for a definition or lambda, and 1 + size of the callee + the sum of the children's sizes for a call |
| Arena.WalkSum | src/ast/pool.rs:230-233 | the walk consumes exactly the sizes of the roots it returns |
| Arena.WalkTiles | src/ast/pool.rs:230-233 | the roots the walk returns tile the span it covered, each subtree ending right below the next |
| Arena.WalkContiguous | src/ast/pool.rs:230-233 | each root's subtree begins right above the previous root, and the first begins at the walk's lowest index |
| Arena.WalkTop | src/ast/pool.rs:231 | the last argument's root is the first index the walk visits, right below its start |
| Arena.CallTiles | src/ast/pool.rs:222-236 | a call's children tile its subtree from its first index up to its callee's subtree |
| Arena.SubtreeLenAppend | src/ast/pool.rs:195-241 | appending nodes never changes the size or children of an existing node |
| Arena.WalkableAppend | src/ast/pool.rs:129-161 | appending one node keeps the arena walkable exactly when the new node walks |
| Layout.EmitBuilt | src/parser/parser.rs:321-329 | the nodes the parser appends for an expression are laid out in post-order |
| Layout.EmitWalk | src/ast/pool.rs:218-241 | on a post-order layout, `len` of an expression's root is its size, and `children` of a call returns exactly the argument roots that were built, left to right |
| Layout.EmitWalkSeq | src/ast/pool.rs:228-234 | the backward walk over built arguments retraces them exactly and stops at their first index |
| Layout.EmitWalkable | src/parser/parser.rs:321-329 | every position inside a built expression walks cleanly, and its callee or body sits right below it |
| Layout.ProgramPostOrder | src/parser/parser.rs:321-329 | a parsed run of top-level items is a post-order arena |
| Layout.Emit | src/parser/parser.rs:207-329 | the nodes the parser appends for one expression: the arguments left to right, then the callee, then `Call(callee root, argument count)`; the body before its lambda or definition node; a binary operator as a call of its primitive with two arguments. Its length is the expression's size. `EmitBuilt`, `EmitWalk` and `EmitWalkable` prove what this layout means for `len` and `children` |
| Layout.EmitSeq | src/parser/parser.rs:321-324 | the arguments' nodes, each laid out from where the previous argument ends; its length is the sum of their sizes |
| Layout.ShapeFlat | src/ast/mod.rs:142-160 | in `muladd(1, 2, 3)` the body is a call whose children are the integers 1, 2, 3 in that order |
| Layout.ShapeNestedLast | src/ast/mod.rs:198-250 | in `muladd(1, 2, muladd(3, 4, 5))` the outer children are 1, 2 and the inner call; the inner call's last argument is the first index its walk visits, and reading down from it gives 5, 4, 3 |
| Layout.ShapeNestedFirst | src/ast/mod.rs:292-339 | in `muladd(muladd(1, 2, 3), 4, 5)` child 0 is a call of `muladd` with children 1, 2, 3, and children 1 and 2 are 4 and 5 |
| Layout.ShapeNestedMiddle | src/ast/mod.rs:377-424 | in `muladd(1, muladd(2, 3, 4), 5)` the middle call is found, and its own children are 2, 3, 4 |
| Layout.ShapeCurried | src/ast/mod.rs:467-525 | in `curry(1, 2)(3, 4, 5)(6)` the outer call has children [6]; its callee is a call with children 3, 4, 5, whose callee is a call with children 1, 2, whose callee is `curry` |
| Checker.ParamCounts | src/checker/type_check.rs:15-22 | the table has an entry exactly for each name whose definition slot holds a `FunctionDef`, and the entry is that definition's declared parameter count |
| Checker.NewTypeChecker | src/checker/type_check.rs:15-28 | the checker reads the given arena and strings; when every slot holds a definition, its table covers exactly the defined names |
| Checker.CheckExpression | src/checker/type_check.rs:51-124 | `check_expression`, arm by arm. Integers, parameter references and primitives pass; a name passes when it has a parameter count. A call checks its callee, then its arity, then its children left to right, and a callee that is not a function is an internal error. A definition checks its body. The first failure is the answer. `CheckSpan` proves it accepts exactly the fault-free subtrees |
| Checker.CheckAll | src/checker/type_check.rs:113-117 | the children loop: each child is checked in order, and the first failure stops it. `CheckTiles` and `CheckAllSnoc` prove its verdict |
| Checker.CheckFunctionDef | src/checker/type_check.rs:38-49 | `check_function_def`: a slot holding a definition gets its body's verdict, and any other node is an internal error. `DefJudged` and `NotADefinition` prove both cases |
| Checker.CheckProgram | src/checker/type_check.rs:30-36 | `check_program`: the definitions in map iteration order, stopping at the first failure. `CheckProgramAll`, `CheckProgramKeys` and `CheckProgramClean` prove its verdict |
| Checker.Fault | src/checker/type_check.rs:53-110 | integers, parameter references (whose offset is never range-checked), primitives and definitions are never at fault on their own |
| Checker.Then | src/checker/type_check.rs:70-117 | running checks in sequence passes exactly when both pass, and otherwise gives one of their errors |
| Checker.Local | src/checker/type_check.rs:56-110 | the verdict for one node is a pass exactly when it has no fault, and otherwise that fault |
| Checker.CheckSpan | src/checker/type_check.rs:51-124 | on a post-order arena the checker accepts a subtree exactly when none of its nodes has a fault, and every error it reports is the fault of a node of the subtree: undefined name, primitive arity, user arity, non-function callee or lambda |
| Checker.CallShape | src/checker/type_check.rs:66-120 | a call is checked callee first, then its arity, then its children left to right, and the first error is returned |
| Checker.CheckTiles | src/checker/type_check.rs:113-117 | the children loop over subtrees tiling a span gives the verdict that span deserves |
| Checker.CheckAllSnoc | src/checker/type_check.rs:114-116 | checking one more child after a list is the list's verdict, then the child's |
| Checker.CheckProgramAll | src/checker/type_check.rs:30-36 | `check_program` passes exactly when every visited definition checks, and a failure is one of theirs |
| Checker.CheckProgramKeys | src/checker/type_check.rs:30-36 | whatever order the map is visited in, the program passes exactly when every definition checks, and its error is one of theirs |
| Checker.DefJudged | src/checker/type_check.rs:38-42 | a definition gets the verdict its own subtree deserves |
| Checker.CheckProgramClean | src/checker/type_check.rs:30-49 | over a post-order arena, the program passes exactly when no node of any definition has a fault, and a reported error is a fault of a node of some definition |
| Checker.NotADefinition | src/checker/type_check.rs:43-48 | a definition slot that does not hold a definition is an internal error |
| Function.NewTrace | src/compiler/function.rs:12-17 | a new trace holds only its message |
| Function.Wrap | src/compiler/function.rs:19-24 | a wrapped trace has the new message on top and exactly the old trace as its cause, so its chain is one longer |
| Function.Chain | src/compiler/function.rs:5-9 | a trace's chain is never empty and starts with its own message |
| Function.WrapKeepsChain | src/compiler/function.rs:19-24 | wrapping with several messages keeps every earlier message, in order, below the new ones |
| Function.WrapInjective | src/compiler/function.rs:19-24 | a wrapped trace determines the trace it wraps and its message |
| Function.New | src/compiler/function.rs:41-49 | the new function runs its code and records the declared parameter count |
| Executor.CompileExpr | src/compiler/executor.rs:23-147 | a lowering always runs code, with parameter count 0 except for a definition, which keeps its own |
| Executor.CompileSeq | src/compiler/executor.rs:103-106 | the argument loop yields one piece of code per child |
| Executor.CompileSpan | src/compiler/executor.rs:32-147 | lowering a subtree succeeds exactly when none of its nodes is a lambda or a name with no slot, and the code is disciplined when its calls are those the checker accepts |
| Executor.CompileSpanCall | src/compiler/executor.rs:96-131 | a call lowers exactly when its arguments and its callee lower |
| Executor.CompileTiles | src/compiler/executor.rs:103-106 | lowering arguments that tile a span gives what that span deserves |
| Executor.CompileSeqNone | src/compiler/executor.rs:104 | a child that does not lower makes the whole argument list fail |
| Executor.PrimApply | src/compiler/executor.rs:47-82 | with two integers on top, pops `b`, pops `a` and pushes `a + b` or `a * b`, leaving the rest of the stack; fails otherwise (corrected, see Findings) |
| Executor.Finish | src/compiler/executor.rs:117-128 | pops the result, truncates the stack to the base length and pushes the result back; fails on an empty stack |
| Executor.Eval | src/compiler/executor.rs:55-72 | `a + b` for `Add` (line 55) and `a * b` for `Multiply` (line 72), on mathematical integers |
| Executor.Exec | src/compiler/executor.rs:32-131 | what running each closure does. An integer or a function value is pushed, and a parameter read copies `mem[base + offset]`. A call runs its arguments with the caller's base, then the callee with the base at the old stack height, pops the function value, calls it and finishes the protocol. A user call spends one unit of fuel. `ExecPushesOne`, `ExecImplemented` and `CompiledFunctions.Run` prove its meaning |
| Executor.ExecSeq | src/compiler/executor.rs:113-115 | the arguments run in order on the same stack, each with the caller's base, and the first failure ends the run. `ExecSeqPushes` and `ExecSeqErr` prove its meaning |
| Executor.CallFn | src/compiler/function.rs:52-62 | `CompiledFunction::call`: a slot's code run on the same stack, or a failure for a slot still holding its placeholder. `CallFnPushes` and `CallFnImplemented` prove its meaning |
| Executor.ExecPushesOne | src/compiler/executor.rs:109-129 | disciplined code that runs to completion leaves the prefix untouched and the stack exactly one taller |
| Executor.ApplyPushesOne | src/compiler/executor.rs:109-129 | the call protocol keeps the stack discipline |
| Executor.ExecSeqPushes | src/compiler/executor.rs:113-115 | the arguments push exactly one value each above an untouched stack |
| Executor.CallFnPushes | src/compiler/function.rs:52-62 | calling a table function that finishes pushes exactly one value |
| Executor.RunsAdd | src/compiler/executor.rs:47-64 | `add(1, 2)` leaves exactly `3` on an empty stack |
| Executor.RunsDouble | src/compiler/executor.rs:40-46 | `double(21)`, whose body reads its parameter twice from its own base, leaves exactly `42` |
| Executor.DoubleBody | src/compiler/executor.rs:40-46 | the body of `double` on `[21]` with base 0 pushes `42` above the argument |
| Executor.DoubleArgs | src/compiler/executor.rs:40-46 | both parameter reads push a copy of the argument |
| Executor.ExecImplemented | src/compiler/executor.rs:159-164 | with no placeholder left in the table, no run fails with the placeholder's message |
| Executor.ExecSeqImplemented | src/compiler/executor.rs:159-164 | the same for an argument list |
| Executor.CallFnImplemented | src/compiler/executor.rs:159-164 | the same for a call of a table function |
| Executor.ExecSeqErr | src/compiler/executor.rs:113-115 | a failed argument makes the whole argument run fail the same way |
| Executor.PrimApplyAsWritten | src/compiler/executor.rs:52-56 | as written, the primitive succeeds on any two values and, when they are not both integers, pushes nothing |
| Executor.PrimCallAsWrittenShort | src/compiler/executor.rs:117-128 | as written, a primitive call on a non-integer operand takes the caller's topmost value as its result, or fails on an empty stack |
| Executor.PrimCallAsWrittenExample | src/compiler/executor.rs:52-56 | as written, the inner call of `add(7, add(add, 1))`, an arena built with the pool's builders, consumes the `7` and leaves no result of its own |
| Executor.PrimCallCorrected | src/compiler/executor.rs:52-56 | with the corrected primitive, that inner call fails |
| Executor.Pending | src/compiler/executor.rs:154-164 | the first pass puts the placeholder in a slot, with the definition's parameter count, or 0 for any other node |
| Executor.Compiled | src/compiler/executor.rs:167-189 | after both passes a slot keeps its parameter count and runs code exactly when it is a definition whose body lowers |
| Executor.CompiledStep | src/compiler/executor.rs:170-187 | the second pass replaces the placeholder with the lowered body, and leaves it when the body does not lower |
| Executor.FillSlot | src/compiler/executor.rs:176-181 | filling one slot keeps the slots filled so far and the placeholders still to fill |
| Executor.Assigned | src/compiler/executor.rs:151-153 | the first pass gives a slot to exactly the listed names, each within the new range |
| Executor.AssignedAt | src/compiler/executor.rs:152 | with distinct names, the i-th name gets the i-th new slot |
| Executor.AssignedDense | src/compiler/executor.rs:152 | with distinct names, the slots are dense: the j-th name gets old length + j |
| Executor.ExecutedHasResult | src/compiler/executor.rs:192-200 | disciplined code that finishes on an empty stack leaves exactly one value, and `execute` returns it |
| Executor.Executed | src/compiler/executor.rs:192-200 | `execute`: not compiled, a failed run, or a finished run on an empty stack with base 0 and the value then on top. `CompiledFunctions.Execute` and `Soundness.CheckedRun` are stated against it |
| Executor.Reserve | src/compiler/executor.rs:151-165 | pass 1: each name gets the next free slot, holding the placeholder with its parameter count; the old table is kept |
| Executor.FirstPassDone | src/compiler/executor.rs:151-165 | after the first loop every name has its dense slot and every new slot its placeholder |
| Executor.CompiledFunctions.constructor | src/compiler/executor.rs:16-21 | a new table and slot map are empty |
| Executor.CompiledFunctions.CompileNode | src/compiler/executor.rs:23-147 | lowers against the current slot map, as the reference lowering does |
| Executor.CompiledFunctions.Compile | src/compiler/executor.rs:150-189 | the slot map gains one dense slot per definition; the table keeps its old slots and gains one per definition, which runs the body where it lowers and otherwise keeps the placeholder |
| Executor.CompiledFunctions.FillBodies | src/compiler/executor.rs:167-189 | pass 2 fills each definition's slot with its lowered body against the final slot map, and keeps the slots below |
| Executor.CompiledFunctions.Run | src/compiler/executor.rs:32-147 | running compiled code on the table gives the reference run's outcome |
| Executor.CompiledFunctions.RunApply | src/compiler/executor.rs:108-129 | the call protocol: the arguments with the caller's base, then the callee, which is popped and must be a function, invoked with the pre-call length as its base, then the result is kept and the stack truncated |
| Executor.CompiledFunctions.RunArgs | src/compiler/executor.rs:113-115 | the arguments run in order, each with the caller's base |
| Executor.CompiledFunctions.RunFn | src/compiler/function.rs:52-62 | `call` gives the wrapped closure's own result on the same stack |
| Executor.CompiledFunctions.RunPrim | src/compiler/executor.rs:51-57 | the primitive closure's outcome is the reference one |
| Executor.CompiledFunctions.RunFinish | src/compiler/executor.rs:123-128 | the truncating loop leaves the stack below the base followed by the result |
| Executor.CompiledFunctions.Execute | src/compiler/executor.rs:192-200 | `None` when the expression does not lower, otherwise the outcome of running it on an empty stack with base 0 and popping the top |
| Soundness.CheckedCompiles | src/compiler/executor.rs:32-147 | an expression the checker passes lowers to disciplined code |
| Soundness.CleanDefinitionRuns | src/compiler/executor.rs:176-181 | a definition without faults gets a slot that runs disciplined code |
| Soundness.CheckedProgramCompiles | src/compiler/executor.rs:167-189 | for a program the checker passes, every definition's slot runs disciplined code: the placeholder never survives |
| Soundness.CheckedTable | src/compiler/executor.rs:150-189 | the table `compile` builds for a checked program runs disciplined code in every slot |
| Soundness.CheckedRun | src/compiler/executor.rs:192-200 | for a checked program and a checked expression, the expression compiles, the run never fails for want of a body, and a finished run leaves exactly one value, which `execute` returns |
| Printer.DefaultConfig | src/ast/pretty_printer.rs:19-28 | tab indent, indent size 2, spaces around operators, a blank line after functions, maximum line length 80 |
| Printer.NatToString | src/ast/pretty_printer.rs:197-199 | a natural prints as a non-empty run of decimal digits |
| Printer.IntToString | src/ast/pretty_printer.rs:197-199 | an integer prints with a leading minus sign exactly when it is negative |
| Printer.NatRoundTrip | src/ast/pretty_printer.rs:197-199 | printed digits read back as the number |
| Printer.IntRoundTrip | src/ast/pretty_printer.rs:197-199 | a printed integer reads back as its value |
| Printer.NatToStringInjective | src/ast/pretty_printer.rs:197-199 | distinct numbers print differently |
| Printer.FallbackInjective | src/ast/pretty_printer.rs:181-187 | different (level, offset) pairs get different generic parameter names |
| Printer.Fallback | src/ast/pretty_printer.rs:181-187 | the generic name `p{offset}` at level 0 and `l{level}p{offset}` below it. `FallbackInjective` proves distinct positions get distinct names |
| Printer.ParamNameIn | src/ast/pretty_printer.rs:172-187 | with a table of generic names, a parameter's name depends only on its level and offset: `p{offset}` at level 0, else `l{level}p{offset}` |
| Printer.Named | src/ast/pretty_printer.rs:123-126 | the insert loop adds exactly the keys of the first `count` parameters at that level, and only generic names |
| Printer.Collected | src/ast/pretty_printer.rs:109-170 | the first pass only ever records generic names |
| Printer.CollectedSeq | src/ast/pretty_printer.rs:161-165 | the children loop of the first pass only ever records generic names |
| Printer.Repeat | src/ast/pretty_printer.rs:190-194 | `n` copies of one character |
| Printer.Indent | src/ast/pretty_printer.rs:190-194 | the indent is `n` tabs, or `n * indent_size` spaces |
| Printer.OpText | src/ast/pretty_printer.rs:295-310 | the operator is ` + ` or ` * ` with spacing on, and `+` or `*` with it off |
| Printer.ParamList | src/ast/pretty_printer.rs:352-358 | the names of the first `count` parameters at a level, joined by a separator: `, ` in a definition header and a space in a lambda header |
| Printer.Printed | src/ast/pretty_printer.rs:189-383 | `print_node_to_string`, arm by arm: an integer's digits, a parameter's name, or `p{offset}` outside a definition; a primitive's or a name's text; a lambda's head, body and ` }`. A primitive call with two arguments prints infix in parentheses, and any other call prints its callee and then its arguments in parentheses. A definition prints its head, its body and its closing line. `PrintedFaithful`, `LambdaPrinted`, `DefinitionPrinted` and the `PrettyPrinter` methods are stated against it |
| Printer.PrintedArgs | src/ast/pretty_printer.rs:321-326 | the arguments printed in order and joined by `, ` |
| Printer.LambdaHead | src/ast/pretty_printer.rs:232-254 | `lambda `, the parameters one level further in joined by spaces (`p{i}` outside a definition), then ` { ` |
| Printer.DefHead | src/ast/pretty_printer.rs:346-368 | the indent, `fn`, the name, the parameters at level 0 joined by `, `, `) {` and a newline, then the body's indent |
| Printer.DefTail | src/ast/pretty_printer.rs:374-376 | a newline, the definition's indent and `}` |
| Printer.Rendered | src/ast/pretty_printer.rs:62-78 | `print_node`: a node printed at indent 0 outside any definition. By `PrintedFaithful` the collected names do not change it; `PrettyPrinter.PrintNode` is stated against it |
| Printer.AllRendered | src/ast/pretty_printer.rs:80-106 | `print_all_functions`: each definition in map iteration order, rendered and followed by the separator; `PrettyPrinter.PrintAllFunctions` is stated against it |
| Printer.PrintedFaithful | src/ast/pretty_printer.rs:172-187 | any two tables of generic names print a node identically, so the collected names never change the output |
| Printer.LambdaPrinted | src/ast/pretty_printer.rs:228-267 | a lambda prints `lambda `, its parameters one level in separated by spaces, ` { `, its body one level and one indent further in, and ` }` |
| Printer.DefinitionPrinted | src/ast/pretty_printer.rs:332-381 | a definition prints indent, `fn name(p0, p1) {`, a newline and the body's indent, the body with the definition as current function at level 0, then a newline, the indent and `}` |
| Printer.PrettyPrinter.constructor | src/ast/pretty_printer.rs:42-50 | a new printer has the default configuration, no names, no current function and level 0 |
| Printer.PrettyPrinter.WithConfig | src/ast/pretty_printer.rs:52-60 | as `new`, with the given configuration |
| Printer.PrettyPrinter.GetParamName | src/ast/pretty_printer.rs:172-187 | with generic names, the result is the generic name of (level, offset) |
| Printer.PrettyPrinter.NameParams | src/ast/pretty_printer.rs:123-127 | the insert loop leaves the table as the reference loop does and the context fields unchanged |
| Printer.PrettyPrinter.CollectParamNames | src/ast/pretty_printer.rs:109-170 | the first pass builds the reference table and restores the current function and level |
| Printer.PrettyPrinter.PrintParams | src/ast/pretty_printer.rs:352-358 | the parameter loop appends the names joined by the separator |
| Printer.PrettyPrinter.PrintPlainParams | src/ast/pretty_printer.rs:246-251 | outside any definition, a lambda's parameters are `p0 p1 …` |
| Printer.PrettyPrinter.PrintNodeToString | src/ast/pretty_printer.rs:189-383 | appends exactly the node's specified text to the output, and leaves the names, current function and level as they were |
| Printer.PrettyPrinter.PrintLambda | src/ast/pretty_printer.rs:228-267 | appends the lambda's text and restores the level it raised |
| Printer.PrettyPrinter.PrintLambdaHead | src/ast/pretty_printer.rs:232-254 | appends `lambda `, the parameters and ` { ` |
| Printer.PrettyPrinter.PrintArgs | src/ast/pretty_printer.rs:321-326 | appends the arguments in order, joined by `, ` |
| Printer.PrettyPrinter.PrintCall | src/ast/pretty_printer.rs:269-330 | a primitive with two arguments prints infix in parentheses; a primitive with any other count prints `add(…)`; any other call prints its callee and the parenthesised arguments |
| Printer.PrettyPrinter.PrintDefinition | src/ast/pretty_printer.rs:332-381 | appends the definition's text and restores the current function and level it switched |
| Printer.PrettyPrinter.PrintDefinitionHead | src/ast/pretty_printer.rs:345-368 | appends the definition's header and the body's indent |
| Printer.PrettyPrinter.PrintNode | src/ast/pretty_printer.rs:62-78 | the node's text as printed on its own, whatever names the first pass collected |
| Printer.PrettyPrinter.PrintAllFunctions | src/ast/pretty_printer.rs:80-106 | each definition's text, in map order, each followed by the separator |
| Printer.PrintsSum | src/ast/pretty_printer.rs:291-314 | `add(1, 2)` prints as `(1 + 2)` with the default configuration |

## Left out

- `import_file`, `display` and the `set_function_context` family (src/ast/pool.rs:85-101, 253-417): file reading, printing and ambient `RefCell` state with no effect on the modelled operations.
- The parser itself, which is a wrapper over a grammar that is not part of this model. Its post-order layout is modelled by `Layout.Emit`, and every reader requires it.
- The cached `child_start` and `len` fields of `Call` in src/ast/mod.rs:26-31. No shown code reads or writes them; `children` recomputes the roots.
- Lambda lowering: `compile_expr` has no lambda arm, so the lowering of a lambda is `None` and the checker reports an internal error.
- Pool.AstPool.AddParamRef: builds the node shape of src/ast/mod.rs (name, level, offset). src/ast/pool.rs:135-139 builds the older shape that holds only an offset.
- i64 overflow in `+` and `*` (src/compiler/executor.rs:55, 72): integers are mathematical.
- `HashMap` iteration order in `compile`, `check_program` and `print_all_functions`: an `order` sequence that lists every key once stands for it, and the checker's results are proved for every such order.
- Arena.SubtreeLen: `None` for every callee or body index that does not lie below its parent. The source computes a size for some such layouts, e.g. `Call(3, 1)` at index 2 of `[Integer, Integer, Call, Integer]` has `len` 3 and children `[0]`, and src/ast/pool.rs:239 returns `[body]` for a definition whose body lies above it. The parser never builds these layouts, and every reader requires a post-order arena.
- Executor.Exec: recursion through the function table is bounded by `fuel`. A run out of fuel is a failure outcome, so non-terminating programs are not distinguished from long ones.
- Executor.CompiledFunctions.Execute: the `param_count` a slot records is not checked at run time, as in the source; a call of a slot with the wrong number of arguments is not an error of its own.
- `Rc<RefCell<…>>` sharing: a function value names its table slot, so the second pass of `compile` is seen by every use, as sharing makes it in the source.
- The `eprintln!` when a body fails to lower (src/compiler/executor.rs:183-186): output is left out, and the slot keeps its placeholder.
- Checker error message texts are kept only as the source's variants and names; the `InternalError` texts for a lambda and a non-definition slot are the model's own.
- `max_line_length` is never read by the printer, so it is only a field of the configuration.
- Printer.PrettyPrinter.GetParamName: like the source, it ignores its `name_idx` argument and looks names up under the current function.
- Printer.PrintsSum: the one worked printing example is `(1 + 2)`; other shapes are covered by the general equations.

## Findings

| source | as written | input that shows it | evidently intended | confidence | as-written member | corrected member |
|---|---|---|---|---|---|---|
| src/compiler/executor.rs:52-56 | the closure pushed for `add` or `multiply` pops two values and, if they are not both integers, pushes nothing; the enclosing call (lines 117-128) then pops the caller's topmost value as the result | the arena built by `add_integer(7)`, `add_primitive_func(Add)` (as an argument), `add_integer(1)`, `add_add(2)`, `add_add(2)`, i.e. `add(7, add(add, 1))`: the inner call's operands are a function and `1`, so it consumes the `7` and the outer call sees one argument too few. The checker accepts this arena. The parser cannot produce it: a bare name that is not a parameter is rejected (src/parser/parser.rs:176-188), so every value a parsed program computes is an integer | a primitive applied to a non-integer fails, like the other impossible cases, which `panic!` | not executed | Executor.PrimApplyAsWritten, Executor.PrimCallAsWrittenShort, Executor.PrimCallAsWrittenExample | Executor.PrimApply, Executor.PrimCallCorrected, Executor.ExecPushesOne |
