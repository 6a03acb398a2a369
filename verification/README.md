# A Dafny model of the Salt compiler's core passes and of its benchmark data structures

The repository holds `salt-front`, a compiler written in Rust, and a suite of C and Rust benchmark
programs. This project models the parts whose correctness takes an argument, and proves it: three
compiler passes and two calculators on the one side, hash tables, a cache, a trie, an allocator and four
algorithms on the other. `dafny verify dfyconfig.toml` checks everything.

Code that changes things in place is modelled by methods over arrays and classes, each proved against a
function on values; the laws are lemmas about those functions. Code made of expressions and recursion is
modelled by functions.

## What is modelled

- **HIR emission** (`Hir`, `Mlir`, `EmitHir`, `EmitHirNames`, `EmitHirValues`, `EmitHirSimulation`,
  `EmitHirExactness`, `EmitHirBlocks`, `EmitHirAcceptance`). `Hir` is
  the structured tree with a big-step meaning (loops run on a fuel that the theorems quantify away, and an
  ill-typed or undefined run goes wrong). `Mlir` is the linear target: instructions, labels, a program counter,
  registers and one state struct. `EmitHir` is the emitter, a class with the counter and the two label stacks.
  The main theorem says that every emitted function returns exactly what its body returns.
- **Generics** (`SaltTypes`, `Unification`): substitution, normalisation, one-sided unification and phantom
  inference over the recursive type language.
- **Layout** (`PowersOfTwo`, `Layout`): sizes, alignments and field offsets, with the bit mask that rounds up.
- **Module loading** (`ImportGraph`, `ModuleLoading`, `ModuleLoadingLaws`): the recursive loader over an
  arbitrary file system, and the depth-first sort of the graph it records.
- **The pipe operator** (`PipeOperator`, `PipeOperatorLaws`, `PipeOperatorLiterals`, `PipeOperatorText`): the character
  scanner that turns `x |> f() |> g()` into `g(f(x))`.
- **Hash tables** (`Probing`, `HashMapBench`, `LongestConsecutive`): open addressing with tags, tombstones and
  a growth budget, for any hash function; the search for the longest run of consecutive numbers through it.
- **LRU cache** (`RecencyList`, `LruCache`): the doubly linked list with its index array refines a list
  ordered by last use.
- **Trie** (`TrieBench`), **slab allocator** (`Bitmaps`, `Arena`), **Fannkuch** (`Permutations`, `Fannkuch`),
  **Sudoku** (`Sudoku`), **matrix multiplication** (`MatrixMultiply`).

## What turned out not to hold

Each of these is a lemma with the input that shows it, or with the exact condition.

- An `else` that is not a block (`else if`) is not emitted: such an `if` keeps its meaning exactly when its
  condition is true (`ElseIfExact`).
- Nor is the trailing value of a block, which may be anything, an `if` or a block with a `return` in it too. The
  machine returns what a function returns exactly when the trailing value of its body never does
  (`TailReturnsExactly`); and the code of a block does what the block does exactly when the trailing value comes
  to a normal end with the state struct as it was (`TailDropped`, `TailExact`).
- A bare block that ends in a terminator is forgotten to have ended, and the empty block of an `else` that is no
  block has no terminator. So the code has no instruction behind a terminator and no label behind anything else
  exactly when nothing that is emitted follows such a bare block, no arm or loop body is closed by one, and every
  `else` is a block; then only the last block of a function can lack its terminator (`BlocksAreClosed`,
  `BareBlockLeavesCodeBehind`).
- An assignment to anything but a field is dropped, its right-hand side apart (`AssignmentDropped`).
- A field index is wrong when the base's type is unknown and `__state` is not the first field
  (`FieldIndexCorrect`).
- An `Option` is always given 16 bytes. Sizes are multiples of alignments exactly when no `Option` is aligned
  to more (`SizesAreMultiples`, `OptionOutgrown`).
- An item import (`use a.x`) records an edge to the item and none to its module, so the compilation order may
  put the module after its importer (`ItemImportMayComeLate`); `ProviderPrecedesIff` says when it cannot.
- Loading a module that imports an unresolved or unreadable one leaves its name on the loading stack, and a
  second attempt is reported as circular (`StackLeaksExactly`, `RetryLooksCircular`).
- Normalising generics changes instances exactly when a declared name is applied to arguments or lies below an
  owned or atomic type (`NormalizeIsExact`).
- A generic that is to be bound through a reference on one side only loses that reference or takes it up
  (`ReferenceToTemplate`, `ReferenceToInstance`).
- A call without parentheses at the end of a chain takes what stands behind it into its name unless that ends a
  name: `(x |> f)` becomes `(f)(x)` (`BareChainExact`).
- The scanner of the pipe operator loses track of string literals in two ways, and in no other (`FlagIsExact`):
  by a closing quote that follows an escaped backslash (`PipeInLiteralRewritten`), and by a call that it reads to
  an end inside a literal, as it does when a literal among the arguments holds an unmatched parenthesis
  (`ParenthesisEndsCall`, `CallExact`). Where neither happens no pipe inside a literal is rewritten
  (`LiteralsAreKept`).
- A literal before a pipe is cut at a comma or another separator in it (`OperandIsWhole`, `LiteralIsCut`).

## Model

| member | source | states |
|---|---|---|
| EmitHir.HirEmitCtx.NextId | salt-front/src/codegen/emit_hir.rs:45-49 | every call yields a number not yielded before |
| EmitHir.PositionIsFirst | salt-front/src/codegen/emit_hir.rs:60-63 | the position found for a field is the first that holds it |
| EmitHir.EmitExpr | salt-front/src/codegen/emit_hir.rs:323-717 | appends exactly the lowered code of the expression, moves the counter on, restores the label stacks, or fails exactly where lowering does |
| EmitHir.EmitPoll | salt-front/src/codegen/emit_hir.rs:630-679 | a poll value is built from its discriminant and, when ready with a payload, the payload |
| EmitHir.EmitBranches | salt-front/src/codegen/emit_hir.rs:584-622 | both forms of `if`: labels from one number, an arm branches to the merge label unless it ended itself |
| EmitHir.EmitBlock | salt-front/src/codegen/emit_hir.rs:185-199 | emits up to the first terminator and reports it |
| EmitHir.EmitStmt | salt-front/src/codegen/emit_hir.rs:202-316 | one statement; `for` fails; break and continue branch to the innermost labels |
| EmitHir.EmitLoop | salt-front/src/codegen/emit_hir.rs:246-267 | the label stacks are as before after the loop |
| EmitHir.EmitWhile | salt-front/src/codegen/emit_hir.rs:268-297 | the test is emitted after the header, the label stacks are as before after the loop |
| EmitHir.EmitItems | salt-front/src/codegen/emit_hir.rs:111-136 | all functions of a session share one counter; the session's output is the lowering of its functions |
| EmitHirNames.StmtsWellFormed | salt-front/src/codegen/emit_hir.rs:185-199 | for every block: names and labels distinct and numbered in the block's own range, every branch to a label of its own or of the innermost loop |
| EmitHirNames.ExprWellFormed | salt-front/src/codegen/emit_hir.rs:323-717 | the same for every expression |
| EmitHirNames.OneDefinition | salt-front/src/codegen/emit_hir.rs:45-49 | a name has one place of definition |
| EmitHirNames.FindLabel | salt-front/src/codegen/emit_hir.rs:246-309 | a branch goes to the one place where its label is defined |
| EmitHirNames.BranchesLand | salt-front/src/codegen/emit_hir.rs:246-309 | every branch of a function targets a label defined in it |
| EmitHirNames.SessionWellFormed | salt-front/src/codegen/emit_hir.rs:111-136 | over a whole session every name and label is defined once, across all functions |
| EmitHirValues.FieldIndexCorrect | salt-front/src/codegen/emit_hir.rs:489-509 | the index used for a field is its place in the struct if and only if the struct's name is known, the field is not `__state`, or `__state` is first |
| EmitHirValues.UnknownFieldIsFirst | salt-front/src/codegen/emit_hir.rs:60-68 | a field or a struct that is not registered has index 0 |
| EmitHirValues.MnemonicCorrect | salt-front/src/codegen/emit_hir.rs:372-428 | the mnemonic chosen for each binary operator computes what the operator means |
| EmitHirValues.ArithmeticIsUsual | salt-front/src/codegen/emit_hir.rs:372-469 | where the integer operations are the usual ones, + - * / % and the sign are those operations, in the source and in the code |
| EmitHirValues.ComparisonsAreUsual | salt-front/src/codegen/emit_hir.rs:372-428 | == != < <= > >= compare, in the source and in the code |
| EmitHirValues.ConnectivesAreUsual | salt-front/src/codegen/emit_hir.rs:372-469 | the operators on truth values are the connectives they are called |
| EmitHirValues.BitsAreUsual | salt-front/src/codegen/emit_hir.rs:372-428 | the operators on bits and the shifts, on single bits and by one place |
| EmitHirValues.SimExpr | salt-front/src/codegen/emit_hir.rs:323-534 | where an expression has a value, its code leaves that value in the result register, the state struct as evaluation leaves it, and earlier registers untouched |
| EmitHirValues.SimAssign | salt-front/src/codegen/emit_hir.rs:535-581 | a field assignment stores the right-hand side's value in that field alone |
| EmitHirValues.SimReady | salt-front/src/codegen/emit_hir.rs:652-679 | a ready poll with payload holds discriminant 1 and the payload |
| EmitHirSimulation.SimStmts | salt-front/src/codegen/emit_hir.rs:185-199 | every structured run of a block, ended normally, by break, continue or return, is matched by a run of its code to the fall-through, the break label, the continue label or the return, with the same state struct |
| EmitHirSimulation.SimStmt | salt-front/src/codegen/emit_hir.rs:202-316 | the same for one statement |
| EmitHirSimulation.SimBranches | salt-front/src/codegen/emit_hir.rs:584-622 | the chosen arm runs, and joins at the merge label |
| EmitHirSimulation.SimIteration | salt-front/src/codegen/emit_hir.rs:246-267 | one turn of `loop` and all that follow it |
| EmitHirSimulation.SimTurn | salt-front/src/codegen/emit_hir.rs:268-297 | one turn of `while` after its test and all that follow it |
| EmitHirSimulation.ReturnIsReached | salt-front/src/codegen/emit_hir.rs:154-178 | whatever the structured body returns, the machine returns |
| EmitHirSimulation.HaltIsReturn | salt-front/src/codegen/emit_hir.rs:154-178 | a machine that halted after n steps did what the body does within n + 1 iterations |
| EmitHirSimulation.EmissionPreservesMeaning | salt-front/src/codegen/emit_hir.rs:111-627 | for every session and function: the machine returns a value with some state struct if and only if the structured body does |
| EmitHirSimulation.ContractsAreErased | salt-front/src/codegen/emit_hir.rs:202-213 | an assumption or contract at any place in a block leaves the emitted code unchanged |
| EmitHirExactness.ElseIfDropped | salt-front/src/codegen/emit_hir.rs:601-609 | whatever an `else` is that is no block: for any condition that is false, in any place of any code, the machine falls out of the empty block and is stuck |
| EmitHirExactness.ElseIfExact | salt-front/src/codegen/emit_hir.rs:582-623 | for every `if` with such an `else` whose condition evaluates: its code matches the source, for every number of iterations, if and only if the condition is true |
| EmitHirExactness.TailDropped | salt-front/src/codegen/emit_hir.rs:185-199 | for every block with any trailing value, in any place: the run of its code does what the block does if and only if the trailing value, run for its effect, would stay where the code stops, with the state struct as it was |
| EmitHirExactness.TailExact | salt-front/src/codegen/emit_hir.rs:185-199 | where the code ends with the block: some run does what the block does if and only if the trailing value ends normally with the state struct as it was, or it runs out of its iterations and the code has taken no fewer steps |
| EmitHirExactness.TailReturnsExactly | salt-front/src/codegen/emit_hir.rs:154-199 | for every function body that never goes wrong, with any trailing value: machine and source return the same if and only if the trailing value never returns |
| EmitHirExactness.AssignmentDropped | salt-front/src/codegen/emit_hir.rs:535-581 | the code of an assignment to anything but a field does what its right-hand side does, and no more |
| EmitHirExactness.StrayJumpDropped | salt-front/src/codegen/emit_hir.rs:298-309 | a break or continue outside of any loop emits nothing, and hides all that stands behind it |
| EmitHirAcceptance.StmtsAreLowered | salt-front/src/codegen/emit_hir.rs:185-316 | a block is emitted without an error if and only if no `yield` and no `for` stands in a place of it that is emitted |
| EmitHirAcceptance.SessionIsEmitted | salt-front/src/codegen/emit_hir.rs:111-136 | a session is emitted if and only if all its bodies are |
| EmitHirAcceptance.EmittableIsAccepted | salt-front/src/codegen/emit_hir.rs:185-316 | every block that the simulation is about is emitted |
| EmitHirBlocks.BlocksAreClosed | salt-front/src/codegen/emit_hir.rs:185-316 | no instruction follows a terminator and every label follows one, if and only if nothing that is emitted follows a closed bare block, no arm or loop body is closed by one, and every `else` is a block; then all blocks have their terminator if and only if the body closes |
| EmitHirBlocks.FlowArm | salt-front/src/codegen/emit_hir.rs:246-309 | the same for every arm and loop body with its label and its branch: in order, and closed, if and only if the source of it is so and its last terminator is not that of a bare block |
| EmitHirBlocks.FlowIf | salt-front/src/codegen/emit_hir.rs:582-623 | the same for every `if`: in order if and only if both arms are and the `else`, if any, is a block; the merge block is left open |
| EmitHirBlocks.BareBlockLeavesCodeBehind | salt-front/src/codegen/emit_hir.rs:624-627 | a bare block that has closed is forgotten to have: whatever is emitted behind it, or else the branch at the end of its arm, follows a terminator |
| Unification.Bindings.UnifyTypes | salt-front/src/codegen/generic_resolver.rs:551-612 | the walk fills in exactly the bindings of the specification |
| Unification.Bindings.UnifyLists | salt-front/src/codegen/generic_resolver.rs:582-584 | arguments are walked pairwise from the left |
| Unification.Bindings.InferPhantomGenerics | salt-front/src/codegen/generic_resolver.rs:471-500 | the phantom binding of the specification is made |
| Unification.PhantomResolves | salt-front/src/codegen/generic_resolver.rs:471-500 | overwrites nothing; resolves everything exactly when nothing is open, or one generic is and one declared generic is bound to a function; binds it to that function's return type; idempotent |
| Unification.UnifyInstance | salt-front/src/codegen/generic_resolver.rs:551-612 | unifying a template with its own instance adds exactly the template's generics, each bound to its image, and overwrites nothing |
| Unification.SameInstance | salt-front/src/types.rs:385-424 | two substitutions give the same instance if and only if they agree on the template's generics |
| Unification.UnificationInvertsSubstitution | salt-front/src/codegen/generic_resolver.rs:551-612 | substituting with the bindings found gives the instance back if and only if the bindings there before did not contradict it |
| Unification.ReferenceToTemplate | salt-front/src/codegen/generic_resolver.rs:587-593 | a reference to a template, unified with an instance of the template, binds as the template does, if and only if no open generic was to be bound to a reference |
| Unification.ReferenceToInstance | salt-front/src/codegen/generic_resolver.rs:587-593 | a template, unified with a reference to its instance, binds as with the instance, if and only if it is no open generic, references to it included |
| Unification.PointerWrappers | salt-front/src/codegen/generic_resolver.rs:564-578 | a named type with one argument stands for a pointer, on either side, if and only if its name has Ptr in it |
| Unification.PackagesAreIgnored | salt-front/src/codegen/generic_resolver.rs:578-586 | named types bind if and only if they have equally many arguments and their names are equal or one is the other behind a package and two underscores |
| Unification.BindingsStay | salt-front/src/codegen/generic_resolver.rs:558-562 | for any two types, no binding is overwritten |
| Unification.FirstPlaceDecides | salt-front/src/codegen/generic_resolver.rs:598-604 | of several places of a generic the first decides: the return type of a function, the leftmost of a list |
| Unification.GenericInside | salt-front/src/codegen/generic_resolver.rs:563-609 | a generic in a pointer, reference, array, owned or atomic type is bound to what stands there on the other side |
| Unification.NothingInside | salt-front/src/codegen/generic_resolver.rs:610 | types of different kinds, and kinds that are not looked into, bind nothing |
| Unification.PlaceholdersAreReplaced | salt-front/src/types.rs:387-419 | a generic is replaced in each of its three spellings, Self in both of its |
| Unification.PackagedGeneric | salt-front/src/types.rs:395-404 | a type name of a package before a generic's name is replaced like the generic |
| Unification.SubstituteNothing | salt-front/src/types.rs:385-424 | substituting nothing changes no type |
| Unification.NormalizeIsExact | salt-front/src/codegen/generic_resolver.rs:507-541 | normalisation changes no instance, for any substitution of the declared names, if and only if no declared name is applied to arguments and none lies below an owned or atomic type |
| Unification.NormalizeKeepsInstances | salt-front/src/codegen/generic_resolver.rs:507-541 | the one half: in such types every substitution gives the same type before and after |
| Unification.UnitsTellApart | salt-front/src/codegen/generic_resolver.rs:507-541 | the other half: in every other type putting the unit type for the declared names gives two different types |
| Unification.NormalizeChanges | salt-front/src/codegen/generic_resolver.rs:507-541 | normalisation changes a type if and only if it mentions a declared name |
| Unification.ResolverFindsArguments | salt-front/src/codegen/generic_resolver.rs:507-612 | from the parser's form of a template, normalising and unifying with an instance finds the types put for the declared names |
| PowersOfTwo.RoundUpAligned | salt-front/src/types.rs:619 | rounding up yields the least aligned offset not below |
| PowersOfTwo.RoundUpExact | salt-front/src/types.rs:619 | the mask yields a multiple of the alignment for every offset if and only if the alignment is a power of two |
| Layout.InternalSizeOf | salt-front/src/types.rs:598-647 | the calculator with its loops computes the specified size and ends within 33 - depth levels |
| Layout.IntegersFit | salt-front/src/types.rs:602-606 | an integer type has as many bytes as its values need: 256 to that power is the number of its values |
| Layout.ScalarsAreAligned | salt-front/src/types.rs:602-607 | numbers, truth values and pointers are aligned to their size |
| Layout.FixedShapes | salt-front/src/types.rs:599-645 | the sizes and alignments of the types without a value of their own, of `Option`, of what is not registered, and beyond the depth limit |
| Layout.ArraysAddUp | salt-front/src/types.rs:608-610 | an array of none has no size, and one more element costs the element's size; an atomic is laid out as what it holds |
| Layout.TensorsAddUp | salt-front/src/types.rs:611 | the same for one more in the last dimension of a tensor |
| Layout.SizeOfNamed | salt-front/src/types.rs:624-644 | sizes of structs, enums and concrete types, explicit alignments taken in |
| Layout.PackTuple | salt-front/src/types.rs:612-623 | sizes of tuples |
| Layout.Largest | salt-front/src/types.rs:665-667 | the largest of the alignments, 1 for none |
| Layout.AlignIsPow2 | salt-front/src/types.rs:653-685 | every alignment is a power of two, for any registry, recursive ones included, whose written alignments are |
| Layout.PackingIsSound | salt-front/src/types.rs:612-642 | every field aligned, disjoint from the others and inside the total; the total is the least aligned size |
| Layout.StructIsSound | salt-front/src/types.rs:624-644 | a registered struct is laid out soundly, and the alignment calculated apart from its size is that of the layout |
| Layout.TupleIsSound | salt-front/src/types.rs:612-623 | the same for tuples |
| Layout.SizesAreMultiples | salt-front/src/types.rs:598-685 | every size is a multiple of its alignment if and only if no `Option` is aligned to more than 16 |
| Layout.OptionOutgrown | salt-front/src/types.rs:625 | a registry of powers of two with such an `Option` |
| Layout.WrittenAlignmentsMatter | salt-front/src/types.rs:633-641 | two bytes with alignment a on the second are laid out soundly if and only if a is a power of two |
| ModuleLoading.ModuleLoader.LoadModule | salt-front/src/codegen/module_loader.rs:111-200 | the recursive loader changes loaded set, stack, graph and merged list as specified, and ends |
| ModuleLoading.ModuleLoader.GetCompilationOrder | salt-front/src/codegen/module_loader.rs:302-312 | the depth-first order for whatever order the keys come in |
| ModuleLoading.ModuleLoader.TopologicalVisit | salt-front/src/codegen/module_loader.rs:314-336 | one visit changes the marks and the order as specified, and ends |
| ImportGraph.OrderIsExact | salt-front/src/codegen/module_loader.rs:302-336 | sorting succeeds if and only if the graph has no cycle; then every module is listed once, after all it depends on; an error names a module on a cycle |
| ImportGraph.VisitKeeps | salt-front/src/codegen/module_loader.rs:314-336 | a visit extends the order, keeps it distinct and topological |
| ImportGraph.VisitFindsCycle | salt-front/src/codegen/module_loader.rs:321-323 | a visit stops only at a module that lies on a cycle |
| ImportGraph.PrecedesIffReached | salt-front/src/codegen/module_loader.rs:302-336 | one module precedes another for every order of the keys if and only if the other reaches it |
| ImportGraph.LeftToRight | salt-front/src/codegen/module_loader.rs:301-336 | keys and dependencies are visited from the left: first what the keys before a module reach, then what the first of its dependencies reach, then what the others do, then the module |
| ModuleLoadingLaws.LoadKeeps | salt-front/src/codegen/module_loader.rs:111-200 | every load, failing ones included: merged files distinct and after all they use, loaded names answered by merged files |
| ModuleLoadingLaws.SessionKeeps | salt-front/src/codegen/mod.rs:123-127 | the same over every session, in which failures are passed over |
| ModuleLoadingLaws.CleanSession | salt-front/src/codegen/module_loader.rs:111-336 | when all loads succeed: stack empty, recorded graph acyclic, sort succeeds, every import merged |
| ModuleLoadingLaws.ParentIsBeforeLastDot | salt-front/src/codegen/module_loader.rs:133-134 | the parent of a name is what stands before its last dot, and a name without a dot has none |
| ModuleLoadingLaws.ItemImport | salt-front/src/codegen/module_loader.rs:130-146 | a name p.s that is not found, with p found, is loaded by loading p: with success both names are loaded and the stack is as before; an error is passed on |
| ModuleLoadingLaws.NoSuchModule | salt-front/src/codegen/module_loader.rs:133-151 | where the part before the last dot is not found either, or there is no dot, the name is unresolved |
| ModuleLoadingLaws.DepthLimit | salt-front/src/codegen/module_loader.rs:117-123 | a module without imports loads if and only if at most 33 names are on the stack and it is none of them; the depth is looked at first |
| ModuleLoadingLaws.ImportsFromLeft | salt-front/src/codegen/module_loader.rs:173-205 | the imports of a file are loaded and merged in the order in which they are written, the file behind them, and recorded as they are |
| ModuleLoadingLaws.LoadSucceedsExactly | salt-front/src/codegen/module_loader.rs:111-200 | on an empty stack a load that succeeds has no walk to a broken module and no circle before it, and where no simple import walk is longer than 34 it succeeds if and only if there is none |
| ModuleLoadingLaws.ErrorsAreReal | salt-front/src/codegen/module_loader.rs:118-176 | every error names the end of a real import walk that is broken, circular or too long |
| ModuleLoadingLaws.NoTroubleFromLoaded | salt-front/src/codegen/module_loader.rs:195-199 | from a loaded module no import walk reaches a broken module or closes a circle |
| ModuleLoadingLaws.StackAfterFailure | salt-front/src/codegen/module_loader.rs:125-176 | a failed load leaves its own name on the stack exactly when the culprit was unresolved or unreadable |
| ModuleLoadingLaws.StackRestored | salt-front/src/codegen/module_loader.rs:111-200 | where no import walk from the module ends in one that cannot be found or read, the stack is as before, whatever is on it and whether the load succeeds or not |
| ModuleLoadingLaws.StackLeaksExactly | salt-front/src/codegen/module_loader.rs:125-176 | where that is the only trouble there can be, the name is left on the stack if and only if such a walk exists |
| ModuleLoadingLaws.LeakLooksCircular | salt-front/src/codegen/module_loader.rs:121-123 | a second attempt at a leaked name is reported as circular |
| ModuleLoadingLaws.RetryLooksCircular | salt-front/src/codegen/module_loader.rs:121-155 | one file with an import that is not there: the stack leaks and the second attempt is called circular, though no walk from it meets itself |
| ModuleLoadingLaws.ProviderPrecedesIff | salt-front/src/codegen/module_loader.rs:302-336 | the file behind an import is sure to precede the importer if and only if recorded edges lead to it |
| ModuleLoadingLaws.ItemImportMayComeLate | salt-front/src/codegen/module_loader.rs:132-146 | after an item import the module may be sorted behind its importer, though it was merged before |
| PipeOperator.ConvertPipeOperator | salt-front/src/lib.rs:748-815 | the scanner's loop computes the specified text |
| PipeOperator.ExtractPipeLhs | salt-front/src/lib.rs:818-840 | the operand goes back to the last separator or opening bracket of its own level |
| PipeOperator.ExtractPipeRhs | salt-front/src/lib.rs:844-877 | name, arguments up to the matching parenthesis, and what is left |
| PipeOperatorText.OperandBehind | salt-front/src/lib.rs:779-840 | in p c x, a pipe and f(a), with x and a free of brackets and x of separators: the line becomes p c f(x, a) if and only if c is one of = ; , { ( and [ |
| PipeOperatorText.OperandStops | salt-front/src/lib.rs:818-840 | the scan to the left stops right behind these six characters and no other |
| PipeOperatorText.BracketedOperand | salt-front/src/lib.rs:818-840 | inside matching parentheses or square brackets of the operand separators do not count |
| PipeOperatorText.NameStops | salt-front/src/lib.rs:849-874 | a name is read up to the first parenthesis, semicolon, comma, blank or bar, whatever it is made of |
| PipeOperatorText.TrimCuts | salt-front/src/lib.rs:793-801 | trimming takes all blanks, tabs and line ends off both ends, and nothing else |
| PipeOperator.PipeChain | salt-front/src/lib.rs:744-815 | for every number of stages and spaces, with and without parentheses: x piped through f1 to fn becomes the nested call, each call's own arguments behind the piped value; the text around it stays |
| PipeOperator.ManyChains | salt-front/src/lib.rs:744-815 | the same for any number of chains in a line, one behind the other or as the arguments of one call: each becomes its nested call, the text before, between and after them stays |
| PipeOperator.QuietLineUnchanged | salt-front/src/lib.rs:758-776 | a line whose pipes all stand where the scanner takes itself to be inside a literal is unchanged |
| PipeOperatorLaws.UnchangedExactly | salt-front/src/lib.rs:748-815 | a line is unchanged if and only if all its pipes stand there: every rewriting loses a `>` |
| PipeOperatorLiterals.LastStateIsScan | salt-front/src/lib.rs:753-815 | the converted line is what the last of the scanner's states holds |
| PipeOperatorLiterals.TrailIsScan | salt-front/src/lib.rs:758-811 | the walk on the text alone, from place to place and past each call that is read, is where the scanner goes, with its flag, state by state |
| PipeOperatorLiterals.StandsUntilPipe | salt-front/src/lib.rs:758-776 | up to the first pipe that it takes for code the scanner goes place by place, with the flag of the text before |
| PipeOperatorLiterals.FlagIsExact | salt-front/src/lib.rs:758-811 | wherever the scanner stands, for every line and any number of calls read, it knows whether it is inside a literal, a backslash escaping what follows it, if and only if no closing quote it reads stands behind an escaped backslash and every call it reads ends outside of literals |
| PipeOperatorLiterals.LiteralsAreKept | salt-front/src/lib.rs:748-815 | on such lines no pipe inside a literal is rewritten, and every other is, or lies within the text of a call behind one that is |
| PipeOperatorLiterals.EveryPlaceIsRead | salt-front/src/lib.rs:755-811 | for every line: the scanner comes to every place, or the place lies within the text of a call it reads |
| PipeOperatorLiterals.UnchangedByTrail | salt-front/src/lib.rs:748-815 | a line is unchanged if and only if the scanner reads no call in it |
| PipeOperatorLiterals.ParenthesisEndsCall | salt-front/src/lib.rs:849-866 | a line without escapes in which a parenthesis in a literal ends the call, so that a pipe in the next literal is rewritten: the line it becomes |
| PipeOperatorLaws.PrefixFlagIsExact | salt-front/src/lib.rs:758-776 | without calls: the flag of the text before is right at every place if and only if no closing quote stands behind an escaped backslash |
| PipeOperatorLaws.LiteralsUnchanged | salt-front/src/lib.rs:748-815 | without such a quote a line is unchanged if and only if all its pipes stand inside string literals |
| PipeOperatorLaws.PipeInLiteralRewritten | salt-front/src/lib.rs:764-769 | with one, the next literal is taken for code: a pipe in it is rewritten, for a whole family of lines |
| PipeOperatorLaws.PipeInLiteralExample | salt-front/src/lib.rs:764-769 | one such line: two literals joined by a plus sign |
| PipeOperatorLaws.OperandIsWhole | salt-front/src/lib.rs:818-840 | the scan to the left finds an operand whole if and only if, read from the right, its brackets match and no separator stands outside of them |
| PipeOperatorLaws.OnePipe | salt-front/src/lib.rs:779-809 | what one pipe makes of any text before it, whatever is found to be the operand |
| PipeOperatorLaws.PipedLiteralExact | salt-front/src/lib.rs:818-840 | a string literal piped on at the start of a line comes through whole if and only if no separator or opening bracket of its own stands in it outside of brackets |
| PipeOperatorLaws.PlainLiteralIsWhole | salt-front/src/lib.rs:818-840 | in particular a literal without = ; , { ( ) [ ] in it |
| PipeOperatorLaws.LiteralIsCut | salt-front/src/lib.rs:830-832 | a literal with a comma in it is cut at the comma |
| PipeOperator.EarlyReturnIsSound | salt-front/src/lib.rs:749-751 | returning early on a line without a pipe gives what the scanner would |
| PipeOperatorLaws.CallExact | salt-front/src/lib.rs:849-866 | a call with parentheses is read as it was written if and only if the parentheses in its arguments match, those in literals included |
| PipeOperatorLaws.BareCallExact | salt-front/src/lib.rs:849-874 | a call without parentheses is read as such if and only if nothing follows, or something that ends a name and is no parenthesis |
| PipeOperatorLaws.BareChainExact | salt-front/src/lib.rs:748-815 | a chain that ends in such a call becomes the nested calls if and only if that is what follows |
| PipeOperatorLaws.BareCallInParentheses | salt-front/src/lib.rs:849-874 | whatever stands behind such a call up to the end of a name, a closing parenthesis for one, is taken into its name |
| PipeOperatorLaws.EscapedBackslashHidesPipes | salt-front/src/lib.rs:764-768 | the first closing quote behind an escaped backslash hides all pipes up to the next quote |
| Probing.EmptyEnds | benchmarks/hashmap_bench.c:86-87 | an empty slot on the probe path means that the key is not stored |
| Probing.NoFullRound | benchmarks/hashmap_bench.c:77-92 | no search probes a full round, as an empty slot is always left |
| Probing.Place | benchmarks/hashmap_bench.c:116-129 | putting a new key into the first deleted or empty slot keeps all probe paths free of empty slots |
| Probing.Delete | benchmarks/hashmap_bench.c:157-159 | a tombstone keeps the probe paths of the other keys |
| Probing.EmptySlot | benchmarks/hashmap_bench.c:203 | fewer used slots than slots leave an empty one |
| Probing.MoveOne | benchmarks/hashmap_bench.c:182-194 | an entry rehashed into the first empty slot joins the new table |
| Probing.MovedAll | benchmarks/hashmap_bench.c:180-195 | the rehashed table stands for the same map |
| Probing.FirstEmpty | benchmarks/hashmap_bench.c:186-190 | the unbounded rehash loop ends at the first empty slot |
| HashMapBench.HashMap.constructor | benchmarks/hashmap_bench.c:38-64 | a new table is empty, with no slots or at least the capacity asked for |
| HashMapBench.HashMap.Get | benchmarks/hashmap_bench.c:68-93 | the stored value, 0 for an absent key |
| HashMapBench.HashMap.Insert | benchmarks/hashmap_bench.c:95-141 | the map gains or overwrites the key, after growing if the budget is spent |
| HashMapBench.HashMap.InsertWithRoom | benchmarks/hashmap_bench.c:100-140 | the first tombstone met is reused, the fallback behind the loop is never reached |
| HashMapBench.HashMap.Remove | benchmarks/hashmap_bench.c:143-170 | the key is gone, the answer says whether it was there |
| HashMapBench.HashMap.Grow | benchmarks/hashmap_bench.c:172-204 | capacity doubled, same map, budget positive again |
| HashMapBench.Session | benchmarks/hashmap_bench.c:38-204 | every run from new, for any hash function, answers as the finite map |
| HashMapBench.AnsweredByInsertions | benchmarks/hashmap_bench.c:68-170 | after every run a lookup answers the value of the last insertion of its key that no removal follows, or 0, and a removal whether there is one |
| LongestConsecutive.HashSet.Insert | benchmarks/longest_consecutive.c:75-93 | exactly the key is added, duplicates allowed; the unbounded loop ends |
| LongestConsecutive.HashSet.Grow | benchmarks/longest_consecutive.c:44-73 | same elements, budget positive |
| LongestConsecutive.HashSet.Contains | benchmarks/longest_consecutive.c:95-113 | membership |
| LongestConsecutive.RunFrom | benchmarks/longest_consecutive.c:136-138 | the longest run from a number; the loop ends |
| LongestConsecutive.RunStart | benchmarks/longest_consecutive.c:134-135 | every number lies on a run whose first number has no predecessor |
| LongestConsecutive.BestIsLongest | benchmarks/longest_consecutive.c:131-142 | starting only where there is no predecessor misses no run |
| LongestConsecutive.Longest | benchmarks/longest_consecutive.c:122-146 | the length of the longest run of consecutive integers in the array |
| RecencyList.ApplyGood | benchmarks/lru_cache.c:56-85 | keys stay distinct, the capacity is respected |
| RecencyList.ApplyByLastUse | benchmarks/lru_cache.c:56-85 | entries stay in the order of their last use |
| RecencyList.EvictsLeastRecentlyUsed | benchmarks/lru_cache.c:77-82 | only a store of a new key into a full cache drops a key, and that key was used longer ago than every other |
| RecencyList.RunIsReachable | benchmarks/lru_cache.c:29-85 | all of this after every run from the empty cache |
| RecencyList.ApplyKeepsLatest | benchmarks/lru_cache.c:56-85 | a key that was ever used is off the list only when the list is full of keys used later |
| RecencyList.RunHoldsLast | benchmarks/lru_cache.c:56-85 | after every run each listed key has the value of its last store |
| RecencyList.GetIsExpected | benchmarks/lru_cache.c:56-64 | after every run a lookup answers the value of the last store of its key, if the key is still listed, and -1 otherwise |
| LruCache.LRUCache.constructor | benchmarks/lru_cache.c:29-42 | two linked sentinels and an empty index |
| LruCache.LRUCache.RemoveNode | benchmarks/lru_cache.c:44-47 | the list without that node, still linked both ways |
| LruCache.LRUCache.AddToHead | benchmarks/lru_cache.c:49-54 | the list with the node first, still linked both ways |
| LruCache.LRUCache.Get | benchmarks/lru_cache.c:56-64 | the value or -1, and the key moved to the front, as on the recency list |
| LruCache.LRUCache.Put | benchmarks/lru_cache.c:66-85 | the store of the recency list, eviction included |
| LruCache.LRUCache.EvictLast | benchmarks/lru_cache.c:78-81 | the last entry and its index slot are gone |
| LruCache.Session | benchmarks/lru_cache.c:29-85 | in every run of in-range calls, of any capacity, each lookup answers the value of the last store of its key before it, if the key is still listed, and -1 otherwise |
| TrieBench.Trie.Insert | benchmarks/trie.rs:17-27 | exactly the word is added; the nodes stay a tree, each on the way to a word |
| TrieBench.Trie.Search | benchmarks/trie.rs:29-40 | true exactly for the words inserted |
| TrieBench.SearchFindsInserted | benchmarks/trie.rs:17-40 | after any session a search answers whether its word was inserted |
| TrieBench.Session | benchmarks/trie.rs:17-40 | every session of inserts and searches answers as the set of words |
| Bitmaps.LowestSetBit | benchmarks/c10m/arena_exhaustion.rs:37 | trailing zeros find the lowest set bit |
| Bitmaps.TakeClears | benchmarks/c10m/arena_exhaustion.rs:38 | clearing a slot's bit takes that slot alone and lowers the number of free slots by one |
| Bitmaps.GiveSets | benchmarks/c10m/arena_exhaustion.rs:60 | setting a slot's bit frees that slot alone |
| Bitmaps.SameFree | benchmarks/c10m/arena_exhaustion.rs:58-70 | bitmaps with the same free slots are the same words |
| Arena.FirstFreeIsLowest | benchmarks/c10m/arena_exhaustion.rs:34-44 | the lowest free slot, never a live one; failure exactly when no bit is set |
| Arena.Tier.Alloc | benchmarks/c10m/arena_exhaustion.rs:34-56 | that slot is taken and counted, or nothing changes |
| Arena.Tier.Free | benchmarks/c10m/arena_exhaustion.rs:58-70 | the slot in range is given back, one out of range is passed over |
| Arena.RunAccounts | benchmarks/c10m/arena_exhaustion.rs:34-70 | over every run, slots handed out and not returned plus free slots make up the capacity, short by one for each free of a slot that was free already |
| Arena.GrabOne | benchmarks/c10m/arena_exhaustion.rs:89-94 | an allocation adds a slot that is not among those held |
| Arena.WorkStealingSimulation | benchmarks/c10m/arena_exhaustion.rs:85-109 | from any bitmaps: both bitmaps restored exactly, allocations and frees raised by the same, exactly given amount, no live frame written to |
| Permutations.DigitsOfRank | benchmarks/fannkuch.rs:17-20 | the counters are a factorial-base number: n! states, one for each number below n! |
| Permutations.RankCarry | benchmarks/fannkuch.rs:55-71 | each carry moves that number by one |
| Permutations.VisitIsPermutation | benchmarks/fannkuch.rs:60-64 | every state visits a permutation |
| Permutations.VisitsAreDistinct | benchmarks/fannkuch.rs:55-71 | different times visit different permutations |
| Permutations.EveryPermutationIsVisited | benchmarks/fannkuch.rs:15-72 | every permutation is visited |
| Permutations.FirstVisitIsIdentity | benchmarks/fannkuch.rs:6 | the first visit is the identity |
| Permutations.SuccessiveVisits | benchmarks/fannkuch.rs:55-71 | from one visit to the next the first 2, then the first 3, and at last the first r + 1 elements are moved one place to the left, where r! divides the number of the next visit and (r + 1)! does not |
| Fannkuch.FlipGains | benchmarks/fannkuch.rs:31-38 | each prefix reversal raises the weight of the places that hold their own number |
| Fannkuch.FlipsBounded | benchmarks/fannkuch.rs:26-40 | fewer than 2^(n-1) flips bring 0 to the front |
| Fannkuch.ReversePrefix | benchmarks/fannkuch.rs:32-38 | the swaps reverse the first k + 1 elements |
| Fannkuch.CountFlips | benchmarks/fannkuch.rs:25-40 | the flip loop ends and counts the flips |
| Fannkuch.NextPermutation | benchmarks/fannkuch.rs:55-71 | the rotations with carry arrive at the next permutation, or all levels have come round |
| Fannkuch.Run | benchmarks/fannkuch.rs:4-73 | after exactly n! visits: the flips of the even visits less those of the odd ones, and the largest number of flips of any permutation of n elements |
| Sudoku.IsValid | benchmarks/sudoku_solver.rs:4-16 | whether the digit is in no cell of the row, column and box |
| Sudoku.Solve | benchmarks/sudoku_solver.rs:18-34 | true exactly when the board can be completed, leaving the first completion in lexicographic order; false leaves the board as it was; for all boards |
| Sudoku.EveryUnitHoldsAll | benchmarks/sudoku_solver.rs:4-16 | in a solved grid every digit stands in each of the nine rows, columns and boxes, given cell by cell |
| Sudoku.CompletionsAreSolutions | benchmarks/sudoku_solver.rs:18-34 | on consistent givens, completing is extending to a full grid with every row, column and box in order |
| Sudoku.InconsistentStaysUnsolved | benchmarks/sudoku_solver.rs:18-34 | a completion is a solved grid if and only if the givens were consistent |
| Sudoku.FirstIsUnique | benchmarks/sudoku_solver.rs:23-30 | there is one first completion |
| Sudoku.FirstOfAll | benchmarks/sudoku_solver.rs:20-31 | the smallest digit that works in the first empty cell leads to the first completion |
| MatrixMultiply.Matmul | benchmarks/matmul.c:4-14 | every entry is the left-to-right sum of its products |
| MatrixMultiply.EntryOfProduct | benchmarks/matmul.c:4-14 | the entry in row i and column j of the result adds up, from the left, the products of row i of the first factor and column j of the second |
| MatrixMultiply.UnitIsNeutral | benchmarks/matmul.c:4-14 | over any arithmetic with a unit, the unit matrix on either side gives the other factor |
| MatrixMultiply.MatmulTiled | benchmarks/matmul_tiled.c:9-37 | the same sum in the same order, for every n, for any addition and multiplication |
| MatrixMultiply.MultiplyTile | benchmarks/matmul_tiled.c:20-33 | a tile of the result takes in one tile of products |
| MatrixMultiply.LoopsHandOver | benchmarks/matmul_tiled.c:17-26 | where each loop ends the loop around it goes on, also when n is no multiple of 32 |
| MatrixMultiply.ProductIsUnique | benchmarks/matmul_tiled.c:9-37 | the two programs agree element for element, without any law of arithmetic |

## Left out

- HIR nodes outside the fragment: the name that a `let` binds (only a comment of it is emitted, so nothing can read
  it), placeholder nodes, compound assignment, pointers other than into the state struct, float and string literals, unresolved identifiers, struct literals
  other than polls, and the search through several registered structs: one struct is registered.
- `&&` and `||` are strict in the model, as the emitter makes them; the synchronous code generator's
  short-circuit forms are not part of this model.
- A parameter is declared as `%arg_name` and used as `%v<number>`; the model takes the two for one register.
- Register and label names are a kind and a number instead of strings, and every function has a body.
- Integer arithmetic of HIR is an arbitrary function shared by source and target, so widths and wrap-around
  play no part.
- EmitHirSimulation.EmissionPreservesMeaning: about runs that do not go wrong; where the source meets an ill-typed or
  undefined operation nothing is said of a whole function.
- Types: tuples, owned, atomic, tensor and window types lie outside the substitution fragment, because
  substitution does not descend into them. Name mangling, MLIR strings and structural equality are not modelled.
- Layout: the registry is a function from types to entries; how a name is mangled to find one is not modelled,
  nor is overflow of `usize`.
- Modules: path resolution, parsing and registry filling are one arbitrary function from names to files; the
  files do not change during a session.
- ModuleLoadingLaws.LoadSucceedsExactly: where some simple import walk is longer than the depth limit a failing load
  is only shown to have trouble or a long walk, because there it depends on the order in which modules are loaded.
- PipeOperator.PipeChain, and PipeOperator.ManyChains: on ASCII text, for operands that the scan to the left finds
  whole and calls that are read as written, which are those that PipeOperatorLaws.OperandIsWhole,
  PipeOperatorLaws.CallExact and PipeOperatorLaws.BareCallExact describe; brackets, parentheses and separators inside
  string literals count there, as in the code.
- The other rewriters of `lib.rs`, such as the railway operator, are not modelled.
- Hash functions are arbitrary functions to the naturals. 64-bit and 32-bit counters and checksums are unbounded.
- HashMapBench.HashMap.constructor: entries are kept as two arrays, keys and values, in place of one array of
  pairs; freeing memory is not modelled.
- LruCache: keys outside the index array are not modelled, as the source does not check them; evicted nodes are
  unreachable and stay allocated, as in the source.
- TrieBench: letters are lower case, as anything else makes the source panic. A class around the root keeps the
  ghost map from paths to nodes.
- Arena: the source's two slot sizes, written out twice, are two objects of one class.
- Fannkuch.Run: for n of at least 1, as the source does not end for 0.
- MatrixMultiply.Matmul: the result array is neither of the operands; the tiled program declares this, the naive
  one is called so.
- Benchmark drivers, timing, the kernel, async lowering, the Z3 passes, servers and tool drivers.
