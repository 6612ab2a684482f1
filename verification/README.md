# Lex: verified models of the language core

This project models the parts of the Lex repository whose correctness rests on an argument rather than
on a case table, and proves those arguments.

- **Bytecode analyses.** `Bytecode`, `Verifier`: the opcode table and the stack-depth verifier. `Bodies`, `Lowering`: a
  function with its opcodes looked up in the tables of the analysis and the machine.
  `EscapeDomain`, `EscapeStep`, `EscapePaths`, `EscapeTermination`, `EscapeAnalysis`, `FrameMachine`,
  `EscapeSoundness`, `EscapeOrigins`, `EscapeLeaves`, `EscapeReads`, `EscapeWitnesses`, `Arena`, `EscapeExamples`: the escape analysis, first against a definition over control-flow
  paths that knows no joins and no worklist, then against a concrete machine for one frame. `Windows`, `Machine`, `PeepholeRuns`,
  `Peephole`: the superinstruction passes, against runs over an arbitrary interpretation. `Fusion`, `HashExact`: the verifier's
  view of them and the body hash.
- **Typed AST.** `Ast`, `Meaning`, `EvalLaws`, `AstKids`: the canonical AST and its big-step meaning with
  early return. Calls, operators, closures and globals come from an arbitrary interpretation over an
  arbitrary world, so each theorem holds for all of them, effects included; closures are known by what they
  do. `Transforms`, `TransformLaws`, `RenameLaws`, `RenameExact`, `TransformExact`, `TreeWalks`: `inline_let`, `rename_local`, `extract_function`.
  `DeadBranch`, `FoldExact`; `NodePaths`, `NodeIds`, `Patches`: node ids and the three ways to follow them. `Surface`,
  `Canonicalize`, `RecordOrder`, `PatternOrder`, `CanonOrder`, `CanonNotes`, `CanonicalizeLaws`: desugaring, against a meaning of the surface syntax of its own;
  `CanonicalizeBounds`, `CanonicalizeExact`: where it changes that meaning.
- **Paged op-log pull.** `History`, `Cursors`, `OpsSince`: histories, cursors, and the endpoint as a class over
  its caches. `CacheLaws`, `PullRequests`, `PullLaws`, `LegacyPull`, `LegacyLoss`, `LegacyExamples`, `PullBounds`, `PullCrash`: continuations, and whole pulls inside whole runs of the server. `OpBatch`:
  appending batches, which keeps the log as the pulls need it.
- **Smaller pieces.** `Utf8`, `Text`, `CanonJson`: the canonical JSON writer and the program format. `Shape`: the
  tensor-shape unifier. `ParserRuntime`, `ParserReads`: the parser-combinator
  interpreter, against a reading of the combinators on characters.

## What the proofs found

Where code and documentation part ways, the model follows the code.

- The verifier reports an inconsistent function, but not every pc that two paths reach with different depths: those behind the
  first may go unreported (`Verifier.ConflictBehindUnreported`).
- The escape worklist stops on every unfused function, depth-unbalanced loops included (such as an empty
  record built in a loop): recorded heights only fall, and every cycle has a jump, which pushes nothing. What needs
  the verifier's acceptance is the exactness of the report, not its termination.
- An aggregate read back out of its parent is no longer tracked (`EscapeExamples.DeepReadEscapesUnreported`). Against a
  machine in which a branch may go either way and a call may return anything that is not still inside,
  `EscapeLeaves.HandsOverExactly` says which functions then hand over an aggregate whose site is cleared, and
  `EscapeReads.ReadsBackExactly` which read one back; for all others the report is sound (`Arena.ClearedNeverLeaves`). Reads
  select their part by position or name, so reading a scalar out of a nested tuple is sound (`EscapeExamples.ScalarReadSound`).
- Dead-branch folding passes over a variable pattern before the arm it selects
  (`DeadBranch.VariableArmLost`); where that shows, it is the only way to change the meaning, floats aside (`FoldExact.FoldExactly`).
- Extraction carries an early return into the new function, where it ends the call and not the caller
  (`TransformLaws.ReturnDoesNotExtract`). `inline_let` also inlines tuples and lists, which its own comment
  does not mention. `rename_local` checks for no capture (`RenameLaws.RenameCaptures`); renaming back undoes it
  exactly when there was none (`RenameLaws.RenameLocalBack`), and over calls the meaning is kept exactly then
  (`RenameExact.RenameExactly`).
- A patch never looks at the first step of its path (`Patches.HeadIgnored`), reading ids is laxer than printing
  them (`Patches.LaxIds`, `NodePaths.PlainIdsExact`), and nothing inside a block's result can be deleted (`Patches.ResultElementsKept`).
- A pipe into a parenthesised pipe, or into a call in braces, is canonicalized to one call with both arguments
  (`CanonicalizeBounds.PipeMerges`, `CanonicalizeExact.NestedPipe`), and sorting the fields of a record reorders
  calls in them (`CanonicalizeExact.SortingReordersCalls`); among expressions that only call and build these are the
  only two ways to change the meaning (`CanonicalizeExact.StraightExact`). Sorting the fields of
  a record pattern changes which of two fields binds a name both bind (`PatternOrder.FlatPatternExact`).
- Cached histories do go stale in two cases, both about ops that were named before they were pushed:
  `PullBounds.UnknownHeadCached` and `PullBounds.PushedCutoffSkips`; `PullLaws.StaleExactly` and
  `PullLaws.HeadStaleExactly` say exactly when, and the theorems about pulls need no more. A legacy pull that takes
  another client's continuation loses ops exactly when `LegacyLoss.LossExactly` says; one that
  loses its own continuations may never end (`LegacyExamples.FallbackNeverEnds`). A continuation that outlives a
  push can end past the listing, and then the handler panics (`PullCrash.CrashExactly`, `PullCrash.PushedCutoffCrashes`). Paged responses are in topological order and unpaged ones in reversed breadth-first order, so
  concatenated pages equal the unpaged response as a set only.
- Without an occurs check, binding a variable to an expression that holds it makes `resolve` run forever
  (`Shape.OccursDiverges`), already for an unbound variable unified with itself.

## Model

| member | source | states |
|---|---|---|
| `Verifier.VerifyFunction` | crates/lex-bytecode/src/verify.rs:50-140 | The error list is empty exactly when any two control-flow paths from pc 0 to one pc have equal summed deltas; each error names two depths that paths really reach; exactly the reachable pcs are expanded, each once; and of two paths that reach one pc with different depths one passes a pc that has an error. |
| `Verifier.VerifyProgram` | crates/lex-bytecode/src/verify.rs:41-48 | No error exactly when every function is consistent; every error is genuine for one of the functions, and every inconsistent one has an error of its own. |
| `Verifier.DepthsExact` | crates/lex-bytecode/src/verify.rs:50-140 | Once nothing is pending, every path ends at a visited pc, and with the recorded depth unless it passes a pc that has an error. |
| `Verifier.ConflictBehindUnreported` | crates/lex-bytecode/src/verify.rs:59-80 | Not every conflicting pc has an error: a function in which pc 3 is reported, and pc 4, which two paths reach with depths 1 and 2, is not. |
| `Verifier.VerdictFollows` | crates/lex-bytecode/src/verify.rs:50-140 | The loop's invariant with an empty worklist gives both directions of the verdict. |
| `EscapeDomain.Canonical` | crates/lex-bytecode/src/escape.rs:137-165 | Slots in the form `from_sites` gives (sorted, deduplicated, no set of one) are equal when their site sets are, so comparing merged states compares sets. |
| `EscapeDomain.MergeSameDepth` | crates/lex-bytecode/src/escape.rs:195-217 | States of equal height merge without dropping any tail, to a bound of both that holds, slot by slot, exactly the sites of the two; the result is the first state or strictly heavier. |
| `Lowering.TablesAgree` | crates/lex-bytecode/src/escape.rs:389-704 | The opcode table of `step` and the verifier's `stack_delta` agree: same successors, and the same change of height whenever the operands are there. |
| `Lowering.ActionsAbstract` | crates/lex-bytecode/src/vm/dispatch.rs:95-1200 | What the analysis takes an opcode to do is what stands for what executing it does, opcode by opcode. |
| `Lowering.AcceptedExactly` | crates/lex-bytecode/src/verify.rs:50-140 | A function as the analysis sees it is balanced exactly when the verifier accepts it and no path underflows: the paths are the same, with the same depths. |
| `EscapeStep.StepMonotone` | crates/lex-bytecode/src/escape.rs:389-704 | More sites in give more sites out: the successor state, what leaks and what is recorded as contained all grow with the state. |
| `EscapeWitnesses.MarksHandedOver` | crates/lex-bytecode/src/escape.rs:389-704 | What a step marks as leaked is exactly the sites of the operands the executed instruction hands over (for a duplication, which hands nothing over, of the one it copies), and only building an aggregate records contents, exactly those of its operands. |
| `EscapeWitnesses.LeakHappens` | crates/lex-bytecode/src/escape.rs:389-704 | A site marked at the end of a possible path, its operands there, is given away by a run along that path: an operand handed over or copied then is an aggregate built at the site. |
| `EscapeWitnesses.HoldHappens` | crates/lex-bytecode/src/escape.rs:389-704 | So is each containment a run that builds the one aggregate out of the other. |
| `EscapeWitnesses.FlaggedHappens` | crates/lex-bytecode/src/escape.rs:354-371 | On balanced code all of whose paths are possible, every site the report flags ends a chain of runs: the first gives an aggregate of the first site away, each other one puts the next inside. |
| `EscapePaths.PathHeight` | crates/lex-bytecode/src/escape.rs:326-352 | On balanced code the abstract stack is exactly as high as the verifier says at the end of every path, and high enough for the next instruction. |
| `EscapePaths.EscapesLeast` | crates/lex-bytecode/src/escape.rs:354-371 | Escaping, defined by chains of paths, is contained in every set that holds the leaked sites and is closed under contents. |
| `EscapeTermination.MergeBounded` | crates/lex-bytecode/src/escape.rs:200-217 | Any merge stays bounded and no higher than what was recorded; at an unchanged height it changes nothing or gains sites; when it changes nothing but drops a tail, the incoming state was higher. |
| `EscapeTermination.RecordProgress` | crates/lex-bytecode/src/escape.rs:331-343 | Recording a state lowers the measure (unvisited pcs, recorded heights, room for sites) whenever it changes what was recorded. |
| `EscapeTermination.ReprocessShrinksLoad` | crates/lex-bytecode/src/escape.rs:331-351 | An entry processed without such a change was higher than the recorded state, and the successors it pushes weigh less together than it did. |
| `EscapeAnalysis.Fixpoint` | crates/lex-bytecode/src/escape.rs:324-352 | The worklist stops on every unfused function; on balanced code what it leaves is complete (every edge accounted for) and witnessed (every leak and every containment has a path). |
| `EscapeAnalysis.PathCovered` | crates/lex-bytecode/src/escape.rs:324-352 | With nothing pending, the recorded state at a pc is above the state along every path to it. |
| `EscapeAnalysis.FixpointComplete` | crates/lex-bytecode/src/escape.rs:324-352 | With nothing pending, every site some path leaks is in the escaped set and every containment some path builds is in the map. |
| `EscapeAnalysis.Close` | crates/lex-bytecode/src/escape.rs:354-371 | The closure loop returns the least set that holds the seed and, with each parent, everything the containment map puts inside it. |
| `EscapeAnalysis.ClosureIsEscapes` | crates/lex-bytecode/src/escape.rs:324-371 | On balanced code the closed set is exactly the set of escaping sites. |
| `EscapeAnalysis.AnalyzeFunction` | crates/lex-bytecode/src/escape.rs:286-381 | For a function the verifier accepts, without underflow, the report lists each record and tuple site once, in code order, flagged exactly when a path leaks it or leaks an aggregate that holds it through a chain of containments, each with its own path. |
| `EscapeSoundness.RunSimulates` | crates/lex-bytecode/src/escape.rs:389-704 | Every run of the concrete frame machine follows a control-flow path whose abstract state covers the frame: each live aggregate's site is tracked, recorded as contained, or already escaping. |
| `EscapeSoundness.EscapeSound` | crates/lex-bytecode/src/escape.rs:286-704 | In a function that peels nothing (over control-flow paths, no read selects a part, by tuple position or by field name in the record's shape, built at a site that does not escape), whatever the run, everything an instruction hands over, at any depth, was built at an escaping site. |
| `EscapeSoundness.SafeRunSound` | crates/lex-bytecode/src/escape.rs:286-704 | So is it in any single run whose reads yield no aggregate still inside but of escaping sites, whatever the function. |
| `EscapeOrigins.RunTracks` | crates/lex-bytecode/src/vm/dispatch.rs:95-535 | Every run follows a possible path (operands and locals there, every read of an aggregate built here selecting a part it has), and each slot holds the aggregate built at the step its origin along the path names, through reads of parts too, or nothing of this activation that is still inside. |
| `EscapeOrigins.RunAlong` | crates/lex-bytecode/src/vm/dispatch.rs:95-535 | Every possible path is that of some run which holds in each slot what the path says. |
| `EscapeOrigins.PossibleExactly` | crates/lex-bytecode/src/vm/dispatch.rs:95-535 | So the paths runs take are exactly the possible ones, in every unfused function. |
| `EscapeLeaves.HandsOverExactly` | crates/lex-bytecode/src/escape.rs:286-537 | Some run hands over an aggregate of a cleared site, alone or at any depth inside something else, exactly when along some possible path one leaves, followed through every part read on the way; whatever the unfused function. |
| `EscapeReads.ReadsBackExactly` | crates/lex-bytecode/src/escape.rs:483-537 | Some run reads back an aggregate still inside whose site is cleared exactly when a read along some possible path selects one; whatever the unfused function. |
| `EscapeReads.BornSites` | crates/lex-bytecode/src/escape.rs:389-704 | Along one path a slot tracks exactly the one site that built what it holds. |
| `EscapeReads.PeelsExactly` | crates/lex-bytecode/src/escape.rs:483-537 | On balanced code without moving loads (which come after the analysis) all of whose paths are possible, that is exactly when the function peels one, so the condition of `EscapeSound` shuts out no function without such a run. |
| `Arena.ClearedNeverLeaves` | crates/lex-bytecode/src/escape.rs:286-381 | Where nothing of a cleared site leaves along a possible path, nothing built at a site the report clears is handed over in any run, alone or inside something else. |
| `Arena.UnpeeledLetsNothingGo` | crates/lex-bytecode/src/escape.rs:483-537 | A function that peels nothing is such a function. |
| `EscapeExamples.DeepReadEscapesUnreported` | crates/lex-bytecode/src/escape.rs:483-537 | Five instructions that peel: a record read back out of its parent and returned leaves the frame although its site is cleared. |
| `EscapeExamples.ScalarReadSound` | crates/lex-bytecode/src/op.rs:119-132 | `(1, (2,)).0` reads the scalar of a tuple that also holds one: it peels nothing and lets nothing go. |
| `Arena.DifferOnlyAtReturn` | crates/lex-bytecode/src/escape.rs:72-92 | A site leaked under the frame policy and not under the request policy sits in the operand of a `Return` at the end of a path; the request policy leaks nothing the frame policy does not. |
| `Arena.FrameSafeIsRequestSafe` | crates/lex-bytecode/src/arena.rs:85-99 | Every frame-safe site is arena-eligible. |
| `Arena.AnalyzeArena` | crates/lex-bytecode/src/arena.rs:85-99 | For such a function the arena report lists each site once, eligible exactly when it does not escape the request. |
| `Fusion.SkipView` | crates/lex-bytecode/src/verify.rs:101-133 | An instruction that stands for a window no edge enters, put at its head, keeps the verdict and every reachable depth. |
| `Fusion.Hasher.FeedBody` | crates/lex-bytecode/src/program.rs:120-245 | The hashing loop feeds exactly the erased form of each slot, in order. |
| `Fusion.LoweringKeepsStream` | crates/lex-bytecode/src/program.rs:120-245 | Stack and arena allocation, moving loads and typed arithmetic, at any slots, leave the stream fed to the body hash unchanged. |
| `Fusion.StreamDecidesVerdict` | crates/lex-bytecode/src/program.rs:120-245 | Unfused bodies that feed the hasher the same stream get the same verdict and the same depths: nothing the hash ignores is visible to the verifier. |
| `HashExact.StreamExactly` | crates/lex-bytecode/src/program.rs:120-245 | And nothing else of a body escapes its hash: unfused bodies feed the hasher the same stream exactly when they are, slot by slot, one op but for where an aggregate is allocated, how shapes and caches are numbered, whether a load moves, and the type arithmetic is done at. |
| `PeepholeRuns.WindowRuns` | crates/lex-bytecode/src/vm/dispatch.rs:1298-1458 | From the head of a matched window the machine comes, over any interpretation of constants, arithmetic, comparison and field reads, to just the stack, locals, pc and world the superinstruction comes to, or fails where it does. |
| `PeepholeRuns.RewriteKeepsRuns` | crates/lex-bytecode/src/op.rs:211-387 | So a guarded fusion changes no run of the whole code: from the entry, on any stack and locals, both end alike or neither ends. |
| `Peephole.NothingLeft` | crates/lex-bytecode/src/compiler/peephole.rs:27-390 | Once no pass has a window left, every load that directly feeds arithmetic, a test, a store or a field read in one of the patterns has a jump into the pattern. |
| `Peephole.CollectJumpTargets` | crates/lex-bytecode/src/compiler/peephole.rs:392-405 | Exactly the targets of plain jumps. |
| `Windows.RewriteKeepsWindows` | crates/lex-bytecode/src/compiler/peephole.rs:27-390 | A fusion whose inner slots are no jump targets keeps every earlier fusion's absorbed slots in place and unreached. |
| `Peephole.RewriteKeepsView` | crates/lex-bytecode/src/compiler/peephole.rs:27-390 | Such a fusion keeps the verifier's verdict and its depth at every live pc. |
| `Peephole.RewriteKeepsStream` | crates/lex-bytecode/src/program.rs:120-245 | Such a fusion keeps the stream fed to the body hash. |
| `Peephole.ApplySlice` | crates/lex-bytecode/src/compiler/peephole.rs:27-390 | One pass in place over the code keeps every run, the verdict, the depths at live pcs and the hash stream; afterwards every window of its pattern has a jump into it, and so has every window of the passes before it. |
| `Peephole.ApplyPeepholes` | crates/lex-bytecode/src/compiler/mod.rs:267-303 | All passes in compilation order, from unfused code, keep every run, the verdict, the depths at live pcs and the hash stream, and leave nothing to fuse. |
| `EvalLaws.Congruence` | crates/lex-ast/src/transforms.rs:451-501 | Expressions of one shape whose parts mean the same below the same binders mean the same. |
| `EvalLaws.Coincidence` | crates/lex-ast/src/transforms.rs:303-363 | The meaning of an expression depends on its `free_vars` only. |
| `EvalLaws.PickKeys` | crates/lex-ast/src/transforms.rs:365-384 | A match binds exactly the names `pattern_bindings` lists. |
| `TreeWalks.CollectFreeVars` | crates/lex-ast/src/transforms.rs:303-363 | The walk adds exactly the free variables to the set it is given. |
| `TreeWalks.CheckNoCapture` | crates/lex-ast/src/transforms.rs:386-445 | No conflict is reported exactly when no binder of the body, at any depth, takes one of the names. |
| `TreeWalks.SubstituteInExpr` | crates/lex-ast/src/transforms.rs:451-501 | The walk over the children computes capture-free substitution of the unshadowed occurrences. |
| `TransformLaws.InlinableSettles` | crates/lex-ast/src/transforms.rs:279-301 | What `check_inlinable` accepts neither touches the world nor returns early, and its outcome is the same in every world. |
| `TransformLaws.SubstituteSame` | crates/lex-ast/src/transforms.rs:451-501 | The substitution lemma: substituting a value for a variable it equals preserves meaning when no binder captures one of its variables. |
| `TransformLaws.InContext` | crates/lex-ast/src/transforms.rs:679-742 | Replacing the expression at a path by one that means the same below the binders around it preserves the meaning of the whole. |
| `TransformLaws.InlineMeaning` | crates/lex-ast/src/transforms.rs:213-266 | Where the let's value evaluates, the inlined body means what the let did; where it does not, the let failed. |
| `TransformLaws.InlineLetMeaning` | crates/lex-ast/src/transforms.rs:213-266 | `inline_let` on a whole function changes the body only and preserves its meaning wherever the inlined value evaluates; outside lambdas the result differs only where the old body failed. |
| `RenameLaws.RenameSame` | crates/lex-ast/src/transforms.rs:503-558 | Where both names stand for one value, renaming keeps the meaning of an expression in which no free occurrence of the old name is below a binder of the new one. |
| `RenameLaws.RenameMeaning` | crates/lex-ast/src/transforms.rs:152-191 | Renaming a let to a name not free in its body that captures no occurrence preserves its meaning. |
| `RenameLaws.RenameLocalMeaning` | crates/lex-ast/src/transforms.rs:152-191 | `rename_local` to such a name preserves the meaning of the whole function, under lambdas too. |
| `RenameLaws.RenameBackExact` | crates/lex-ast/src/transforms.rs:503-558 | Renaming an expression and back restores it exactly when the new name was not free in it and captured nothing. |
| `RenameLaws.RenameLocalBack` | crates/lex-ast/src/transforms.rs:152-191 | So renaming back under the same id restores the identical stage exactly then. |
| `RenameExact.RenameExactly` | crates/lex-ast/src/transforms.rs:152-191 | For lets over calls, blocks of calls and what is built of them, renaming keeps the meaning, in every environment and under every interpretation over a log of calls, exactly when the new name is not free in the body and captures nothing. |
| `RenameLaws.RenameCaptures` | crates/lex-ast/src/transforms.rs:152-191 | `let x = a; let y = b; x` is accepted for renaming x to y, and then means b. |
| `TransformLaws.CallMeaning` | crates/lex-ast/src/transforms.rs:584-658 | In scope, the call to the new function means what the extracted expression meant, with an early return stopping at the call. |
| `TransformLaws.ExtractExact` | crates/lex-ast/src/transforms.rs:584-658 | In scope, extraction preserves meaning exactly when the expression never returns early; having no `Return` outside lambdas is enough. |
| `TransformLaws.ExtractFunctionMeaning` | crates/lex-ast/src/transforms.rs:584-658 | `extract_function` preserves the meaning of the whole function when the program holds the function it returned (its name is bound to what that function's own parameters and body say), the name is unbound at the site, the body's names are in scope there and it has no early return. |
| `TransformLaws.Extracted` | crates/lex-ast/src/transforms.rs:628-658 | The function returned has the name, type parameters, parameters, effects and return type asked for, no row variable, no free name but its parameters, and the expression at the path for its body; the old one has the call there. |
| `TransformExact.ExtractExactly` | crates/lex-ast/src/transforms.rs:584-658 | It succeeds on just the expressions in which exactly the parameters occur free, at some path below no binder of theirs; each refusal has its own error. |
| `TransformExact.InlinableExactly` | crates/lex-ast/src/transforms.rs:279-301 | `check_inlinable` accepts just the expressions at no path of which a call, a binder, an early return, a block, a constructor or a record stands. |
| `TransformExact.InlineExactly` | crates/lex-ast/src/transforms.rs:213-266 | `inline_let` succeeds on just the lets, at a path of the body, of such a value, no free name of which is bound at any path of the let's body; what else is wrong is what it says. |
| `TransformExact.RenameExactly` | crates/lex-ast/src/transforms.rs:152-191 | `rename_local` refuses only what is no let at a path of the body, and the old name itself. |
| `TransformLaws.ReturnDoesNotExtract` | crates/lex-ast/src/transforms.rs:584-658 | `{ return 1; 2 }` with its statement extracted is accepted and evaluates to 2. |
| `NodePaths.IdRoundTrip` | crates/lex-ast/src/transforms.rs:660-674 | Every printed id reads back as its path. |
| `NodePaths.ReplaceThenNavigate` | crates/lex-ast/src/transforms.rs:679-742 | After a replacement the path leads to the new expression, and putting the old one back restores the tree. |
| `NodePaths.ReplaceElsewhere` | crates/lex-ast/src/transforms.rs:679-742 | A replacement changes nothing at a path that is prefix-incomparable with its own. |
| `NodeIds.WalkInto` | crates/lex-ast/src/ids.rs:72-232 | The walk, with its counter and its shared output, appends exactly the entries of the recursive definition. |
| `NodeIds.CollectIds` | crates/lex-ast/src/ids.rs:19-25 | The list of ids is the stage root followed by that walk. |
| `NodeIds.IdsExact` | crates/lex-ast/src/ids.rs:19-232 | A path is minted for a node exactly when following child slots along it leads there. |
| `NodeIds.IdsDistinct` | crates/lex-ast/src/ids.rs:19-232 | Ids come out in strictly increasing depth-first order, so they are pairwise distinct, as paths and as text. |
| `Patches.NavigateIsReach` | crates/lex-ast/src/transforms.rs:679-742 | `navigate_to_expr` reaches exactly the expressions the walk emits below the body; pattern slots are refused. |
| `Patches.BodyPathExact` | crates/lex-ast/src/transforms.rs:157-175 | The transforms accept a printed id exactly when the walk minted it for an expression of the body. |
| `Patches.EditExact` | crates/lex-ast/src/patch.rs:107-251 | A replacement or a wrap edits exactly the node navigation reaches; a path through a pattern is refused as a non-expression, any other unminted path as unknown. |
| `Patches.ReplacePatch` | crates/lex-ast/src/patch.rs:54-91 | `apply_patch` with Replace succeeds exactly on ids minted for body expressions, puts the new expression there, and changes no node at an incomparable path. |
| `Patches.DeleteExact` | crates/lex-ast/src/patch.rs:107-251 | A deletion succeeds exactly on an element of a tuple, a list or a block's statements that lies in no block's result, and removes just that element. |
| `Patches.ResultElementsKept` | crates/lex-ast/src/patch.rs:187-193 | An element of a list inside a block's result has an id but cannot be deleted. |
| `Patches.HeadIgnored` | crates/lex-ast/src/patch.rs:66-88 | `apply_patch` never looks at the first step: every head index edits the same body expression. |
| `Patches.HeadChecked` | crates/lex-ast/src/transforms.rs:170-175 | The transforms refuse every head index but the body's. |
| `NodePaths.PlainIdsExact` | crates/lex-ast/src/patch.rs:93-105 | An id is read as a path and no step of it has a plus sign or a leading zero exactly when it is the id printed for that path. |
| `Patches.LaxIds` | crates/lex-ast/src/patch.rs:93-105 | Three spellings of one child, of which the walk prints one, all name it. |
| `Patches.WrapFillsTheHole` | crates/lex-ast/src/patch.rs:254-300 | A wrapper with exactly one hole gets the wrapped expression there and is otherwise unchanged. |
| `TreeWalks.FillAndCount` | crates/lex-ast/src/patch.rs:254-300 | One walk fills every hole and counts them. |
| `DeadBranch.FoldIdempotent` | crates/lex-ast/src/dead_branch.rs:49-123 | Folding twice is folding once. |
| `FoldExact.NoArmLeft` | crates/lex-ast/src/dead_branch.rs:49-135 | At no path of the result does a match on a literal have an arm with that literal or a wildcard. |
| `DeadBranch.FoldAddsNoCall` | crates/lex-ast/src/dead_branch.rs:49-123 | Folding never adds a call node. |
| `DeadBranch.FoldFreesNothing` | crates/lex-ast/src/dead_branch.rs:49-123 | Folding frees no variable. |
| `DeadBranch.SelectIsPick` | crates/lex-ast/src/dead_branch.rs:111-135 | For a literal that is not a float, the arm folded to is the arm evaluation picks exactly when no variable pattern comes before it. |
| `DeadBranch.FoldMeaning` | crates/lex-ast/src/dead_branch.rs:49-123 | Folding preserves meaning when every arm left by it is sure: no variable before it, and for a float a wildcard with no literal before it either. |
| `DeadBranch.SureIsPick` | crates/lex-ast/src/dead_branch.rs:111-135 | A sure arm is the one evaluation picks, however floats compare. |
| `FoldExact.FoldExactly` | crates/lex-ast/src/dead_branch.rs:49-135 | For expressions that call and build, whose matches fold and have arms told apart by literal or constructor, folding keeps the meaning, in every environment and under every interpretation with structural literals, exactly when every arm left is sure. |
| `DeadBranch.VariableArmLost` | crates/lex-ast/src/dead_branch.rs:125-135 | `match 1 { x => 2, _ => 3 }` is 2 and folds to 3. |
| `Canonicalize.FoldBlock` | crates/lex-ast/src/canonicalize.rs:171-204 | The reversed loop with its held-back expressions computes the right fold that nests lets and groups runs of expressions. |
| `CanonOrder.CanonOrdered` | crates/lex-ast/src/canonicalize.rs:306-315 | In every record literal and every record pattern anywhere in a canonical form the names never decrease. |
| `CanonOrder.OnePattern` | crates/lex-ast/src/canonicalize.rs:388-402 | Record patterns with distinct names have one canonical form exactly when they hold the same canonical patterns under the same names; so all orders of writing one have. |
| `CanonOrder.OneRecord` | crates/lex-ast/src/canonicalize.rs:306-315 | The same for record literals. |
| `CanonNotes.AnnotationsKept` | crates/lex-ast/src/canonicalize.rs:150-367 | The canonical form carries just the annotations of the source, each as often: the types of lets, ascriptions, and the signatures of lambdas. |
| `PatternOrder.PatternMeans` | crates/lex-ast/src/canonicalize.rs:373-408 | A pattern and its canonical form match the same values with the same bindings, when sorting the fields of a record pattern moves no field before another it binds a name with, unless a later one binds it again. |
| `PatternOrder.SortMatches` | crates/lex-ast/src/canonicalize.rs:388-402 | For such patterns the order of the fields does not matter. |
| `PatternOrder.FlatPatternExact` | crates/lex-ast/src/canonicalize.rs:388-402 | For record patterns whose fields are variables that condition is exact: a canonical form matches every value alike exactly then. |
| `PatternOrder.SortingRebinds` | crates/lex-ast/src/canonicalize.rs:388-402 | An instance of the other side: `{ b: x, a: x }` binds x to another field's value once sorted. |
| `RecordOrder.QuietSettles` | crates/lex-ast/src/canonicalize.rs:306-315 | An expression without calls and early returns has one outcome in every world and leaves the world alone. |
| `RecordOrder.SortRun` | crates/lex-ast/src/canonicalize.rs:306-315 | Evaluating fields in key order gives what evaluating them as written gives, sorted, with the same stop and the same world, when every two that change places commute. |
| `CanonicalizeLaws.BlockMeans` | crates/lex-ast/src/canonicalize.rs:159-204 | A block evaluates statement by statement as its nested form does, from any statement on. |
| `CanonicalizeLaws.CanonCallish` | crates/lex-ast/src/canonicalize.rs:206-255 | Which surface expressions are desugared to a call or constructor, told from the source. |
| `CanonicalizeLaws.CanonMeans` | crates/lex-ast/src/canonicalize.rs:206-367 | A surface expression and its canonical form give the same outcome, early returns of `?` included, and do the same to the world, when any two record fields that sorting makes change places are both silent or one of them cannot fail, the last field of a record pattern to bind a name stays the last, and the right side of a pipe is a call as written or not desugared to one. |
| `CanonicalizeBounds.PipeMerges` | crates/lex-ast/src/canonicalize.rs:237-255 | Whenever the right side of a pipe is desugared to a call or constructor but not written as one, the pipe is that call or constructor with the left side in front of its arguments. |
| `CanonicalizeExact.StraightExact` | crates/lex-ast/src/canonicalize.rs:206-367 | For expressions of literals, names, calls, pipes, constructors, records, tuples and lists, an interpretation that numbers calls gives the canonical form the same outcome and world exactly when records are orderly and pipes as written; otherwise the outcomes differ. |
| `CanonicalizeExact.SortingReordersCalls` | crates/lex-ast/src/canonicalize.rs:306-315 | An instance: `{ b: f(), a: g() }`, or any two names in that order, and its canonical form give different values. |
| `CanonicalizeExact.NestedPipe` | crates/lex-ast/src/canonicalize.rs:237-255 | Another: `x &#124;> (y &#124;> f)` is canonicalized to f called with x and y, and gives a different value. |
| `CanonJson.WriteString` | crates/lex-ast/src/canon_json.rs:70-86 | The loop appends the quoted, escaped string. |
| `CanonJson.ShortestEscape` | crates/lex-ast/src/canon_json.rs:70-86 | No shorter text is read as a character than the one it is written as, and of those as short it is the one with lower-case digits. |
| `CanonJson.SortKeys` | crates/lex-ast/src/canon_json.rs:54-56 | Collecting and sorting the keys gives the one strictly increasing list of them. |
| `CanonJson.WriteValue` | crates/lex-ast/src/canon_json.rs:40-68 | The writer appends exactly the canonical text. |
| `CanonJson.ValueBack` | crates/lex-ast/src/canon_json.rs:40-86 | A reader inverts the writer with any trailing text (which must not go on a number). |
| `CanonJson.Unambiguous` | crates/lex-ast/src/canon_json.rs:15-86 | Two values print alike exactly when they are equal, objects being equal whatever the order of their members. |
| `CanonJson.PrefixFree` | crates/lex-ast/src/canon_json.rs:15-86 | Equal texts with trailing text split in one way only. |
| `CanonJson.ReencodeIdentical` | crates/lex-ast/src/canonical_format.rs:62-92 | Decoding an encoded program succeeds and encoding the result gives the same bytes. |
| `CanonJson.SameBytes` | crates/lex-ast/src/canonical_format.rs:62-76 | Two programs have the same bytes exactly when they serialize alike. |
| `Utf8.RoundTrip` | crates/lex-ast/src/canonical_format.rs:88-89 | Decoding UTF-8 undoes encoding it. |
| `Utf8.OrderIsBytewise` | crates/lex-ast/src/canon_json.rs:54-56 | Comparing strings by code points is comparing their UTF-8 bytes. |
| `History.AncestryStable` | crates/lex-vcs/src/history_index.rs:20-24 | In a log whose parents are all stored, the history of a stored op never changes as the log grows. |
| `History.AncestryBelow` | crates/lex-vcs/src/history_index.rs:79-118 | Ancestry computed inside an index is ancestry in the log. |
| `History.ListingStable` | crates/lex-api/src/ops_since_http.rs:153-155 | A listing stays what it was while its head is not pushed and its cutoff is not pushed or reaches nothing of the head's history. |
| `History.FaithfulExists` | crates/lex-vcs/src/history_index.rs:120-131 | A linearization as documented exists: each op of the delta once, parents first. |
| `Cursors.CursorRoundTrip` | crates/lex-api/src/ops_since_http.rs:287-308 | `decode_cursor` inverts `encode_cursor` exactly when head and cutoff are op ids and the offset fits. |
| `OpsSince.InsertCapped` | crates/lex-api/src/ops_since_http.rs:251-256 | The eviction loop keeps the newest entries up to the cap. |
| `OpsSince.RemoveHits` | crates/lex-api/src/ops_since_http.rs:222-226 | The removal loop drops exactly the continuations that end on the op. |
| `OpsSince.Server.TakeContinuation` | crates/lex-api/src/ops_since_http.rs:206-226 | After expiry: the first hit, consumed with all others, unless there is none or two differ in position. |
| `OpsSince.Server.RecordContinuation` | crates/lex-api/src/ops_since_http.rs:228-236 | After expiry: the same page end replaced, the newest kept up to the cap. |
| `OpsSince.Server.FetchDelta` | crates/lex-api/src/ops_since_http.rs:258-285 | A cached delta is moved to the end; otherwise one is built from the head's index and inserted. |
| `OpsSince.Server.Serve` | crates/lex-api/src/ops_since_http.rs:310-449 | One request, start to end: what is answered and what the caches and continuations become. |
| `CacheLaws.TouchMovesLast` | crates/lex-api/src/ops_since_http.rs:245-249 | A touched entry moves to the end; nothing is lost or otherwise reordered. |
| `CacheLaws.RecordedIsTaken` | crates/lex-api/src/ops_since_http.rs:206-236 | A page end recorded and asked for within its lifetime is where the next page resumes, unless another pull's page ended on the same op. |
| `CacheLaws.TakenOnce` | crates/lex-api/src/ops_since_http.rs:206-226 | A continuation is taken once, and only those that end on its op go with it. |
| `CacheLaws.ForgottenIsNotTaken` | crates/lex-api/src/ops_since_http.rs:238-243 | After a cursor client's request nothing that ends on its op can be taken. |
| `PullRequests.MalformedRefused` | crates/lex-api/src/ops_since_http.rs:341-361 | A cursor that does not decode is refused and changes nothing. |
| `PullRequests.CursorPageExactly` | crates/lex-api/src/ops_since_http.rs:387-404 | With coherent caches a cursor is answered with a page exactly when it names a stored head and no place past the end of the listing; otherwise it is refused, never answered with an empty page. |
| `PullRequests.CursorForgets` | crates/lex-api/src/ops_since_http.rs:426-430 | In every state, a page answered to a cursor with an `after` leaves of the continuations exactly those that have not expired and are not of the cursor's head with that last op. |
| `PullRequests.LegacyLeaves` | crates/lex-api/src/ops_since_http.rs:346-441 | In every state, a request without a cursor leaves exactly the continuations it found, less the expired and those that end on the `after` it resumed at, with the end of its page, if more follows, in place of an older copy. |
| `PullRequests.ListingUsed` | crates/lex-api/src/ops_since_http.rs:245-285 | Whatever a request asks of a listing, that listing is the newest cached one afterwards, and only one that was not cached costs an entry, the one longest unused; so with the index it is built from. |
| `CacheLaws.DocumentedExists` | crates/lex-vcs/src/history_index.rs:44-131 | An index that meets its documentation exists, so the theorems about pulls are about something. |
| `PullLaws.DeltaIsListing` | crates/lex-api/src/ops_since_http.rs:258-285 | With coherent caches a request gets the listing as it would be computed now, and leaves the caches coherent. |
| `PullLaws.RunCoherent` | crates/lex-api/src/ops_since_http.rs:153-163 | At every point of every run of requests, evictions, expiries, restarts, branch moves and pushes of ops that disturb no cached entry, every cached index and delta equals its recomputation. |
| `PullLaws.PushesExactly` | crates/lex-api/src/ops_since_http.rs:153-155 | A push leaves unchanged caches right exactly when it disturbs no cached entry. |
| `PullLaws.StaleExactly` | crates/lex-api/src/ops_since_http.rs:153-155 | A listing whose head was not pushed stays what it was exactly when it is undisturbed: the cutoff was not pushed, or its ancestry shares nothing with the head's. |
| `PullLaws.HeadStaleExactly` | crates/lex-api/src/ops_since_http.rs:258-285 | The empty listing of a head that is pushed stays right exactly when the cutoff reaches the head. |
| `PullLaws.Answered` | crates/lex-api/src/ops_since_http.rs:387-449 | At any point of any run an exchange is answered with the slice of its listing from where it resumes. |
| `PullLaws.CursorPull` | crates/lex-api/src/ops_since_http.rs:341-449 | Following cursors with positive limits delivers the rest of the listing the first one points into, under any interleaving, as long as the listing is undisturbed. |
| `PullLaws.WholeCursorPull` | crates/lex-api/src/ops_since_http.rs:310-449 | So a whole cursor pull delivers what the head reaches outside the cutoff's ancestry, each op once, parents first. |
| `LegacyPull.AncestryCovered` | crates/lex-api/src/ops_since_http.rs:43-73 | Every ancestor of an op of a listing was cut off or is listed no later than the op. |
| `LegacyPull.ResumeCovers` | crates/lex-api/src/ops_since_http.rs:206-226 | Resuming at a continuation of the same pull keeps every op listed before it delivered, and delivers at least one more. |
| `LegacyPull.FallbackCovers` | crates/lex-api/src/ops_since_http.rs:56-73 | The ancestry fallback on the last op received loses nothing. |
| `LegacyPull.HarmlessCovers` | crates/lex-api/src/ops_since_http.rs:206-226 | Resuming at any continuation, whoever recorded it, loses nothing when the listing goes on with every op wanted and not received. |
| `LegacyPull.LegacyPullLossless` | crates/lex-api/src/ops_since_http.rs:341-449 | If every continuation a legacy pull takes is one it recorded or harmless, a pull that ends on an empty page has received every op its branch's head reaches outside the first cutoff's ancestry, whatever was evicted, expired, restarted, pushed or moved. |
| `LegacyLoss.ClosesExactly` | crates/lex-api/src/ops_since_http.rs:56-73 | A request that falls back on the last op received, on an unmoved head, gets an empty page exactly when the page before it reached the end of its listing. |
| `LegacyLoss.PagesAreFew` | crates/lex-api/src/ops_since_http.rs:206-226 | A pull whose requests each take the continuation of the page before has at most as many pages as its listing has ops left. |
| `LegacyLoss.LossExactly` | crates/lex-api/src/ops_since_http.rs:341-449 | Any pull that ends by falling back, on a head unmoved since the last request that did not take the continuation of the page before it, has received what it had before that request and the rest of the listing resumed in, no more and no less; so it has missed an op it wants exactly when some op wanted and not received was not in that rest. |
| `PullBounds.ForeignContinuationLoses` | crates/lex-api/src/ops_since_http.rs:206-226 | It happens under every documented index: on two merged lines, whichever is listed second, a client whose head is that line takes the continuation another pull left there, then gets an empty page, and never gets the other line. |
| `LegacyExamples.ForeignPullLoses` | crates/lex-api/src/ops_since_http.rs:206-226 | The same as a whole pull inside a run: an instance of `LossExactly`. |
| `LegacyExamples.FallbackNeverEnds` | crates/lex-api/src/ops_since_http.rs:56-73 | Two unrelated ops and their merge, page size one, continuations lost: for any number of pages a pull gets the two in turn, no page is empty and the merge is never received. |
| `PullBounds.UnknownHeadCached` | crates/lex-api/src/ops_since_http.rs:258-285 | A request for a head not stored yet leaves its empty history in the cache: once the head is pushed, a pull of it gets an empty page. |
| `PullBounds.PushedCutoffCuts` | crates/lex-api/src/ops_since_http.rs:258-308 | When a listing is disturbed between two pages and the cache lost, a first page as long as the new listing or longer is followed by an empty page, or by a refusal. |
| `PullCrash.CrashExactly` | crates/lex-api/src/ops_since_http.rs:346-410 | In every state, stale caches included, a request is answered with a panic exactly when it has a limit and an `after`, no cursor, and takes a continuation that ends past the delta the server then has. |
| `PullCrash.OverrunsListing` | crates/lex-api/src/ops_since_http.rs:258-285 | With coherent caches that delta is the listing as it is now. |
| `PullCrash.CalmRunNeverCrashes` | crates/lex-api/src/ops_since_http.rs:206-449 | From a server whose continuations fit (or that has none) on, no request of any run is, as long as pushes disturb no listing a cached entry or a continuation points into. |
| `PullCrash.PushedCutoffCrashes` | crates/lex-api/src/ops_since_http.rs:258-449 | When a listing is disturbed while only its continuation is still held, and the first page was longer than the new listing, the client's next request by last op is. |
| `PullBounds.CutSizeExists` | crates/lex-api/src/ops_since_http.rs:258-308 | Such a page size exists for every disturbed listing but one of a single op. |
| `PullBounds.PushedCutoffSkips` | crates/lex-api/src/ops_since_http.rs:258-308 | An instance that skips an op still wanted. |
| `OpBatch.Store.OpsBatch` | crates/lex-api/src/handlers.rs:1622-1695 | A batch is refused with the first failing record and changes nothing, or is stored record by record, up to where writes fail; received, added, skipped and the added ids are those of the records not yet present. |
| `OpBatch.CheckExactly` | crates/lex-api/src/handlers.rs:1630-1668 | A batch is accepted exactly when every record's id is its hash, its parents are stored or earlier in the batch, and its files are there; a refusal names the first record that fails, and its first parent that is nowhere. |
| `OpBatch.StoredAsSent` | crates/lex-api/src/handlers.rs:1670-1685 | Every op the log did not have is stored with the parents of the first record of its id, and no other changes. |
| `OpBatch.PrefixKeeps` | crates/lex-api/src/handlers.rs:1646-1685 | Every prefix of an accepted batch keeps every stored op's parents stored, the log acyclic, and what was stored. |
| `OpBatch.BatchesKeep` | crates/lex-api/src/handlers.rs:1622-1695 | So does every sequence of batches from an empty log, whichever are cut short. |
| `OpBatch.NewIdsAre` | crates/lex-api/src/handlers.rs:1670-1692 | The added ids are distinct and are exactly the ids the log did not have, so received is added plus skipped, duplicates included. |
| `OpBatch.RepushAddsNothing` | crates/lex-api/src/handlers.rs:1617-1621 | Pushing an accepted batch again is accepted, adds nothing and changes nothing. |
| `OpBatch.RetryCompletes` | crates/lex-api/src/handlers.rs:1670-1685 | A push that was cut short can be repeated and ends where the whole push would have. |
| `Shape.ResolveIdempotent` | crates/core-compiler/src/shape.rs:78-104 | Resolving twice is resolving once. |
| `Shape.ResolveEnds` | crates/core-compiler/src/shape.rs:78-104 | On acyclic bindings `resolve` ends, after at most as many substitutions as there are bindings. |
| `Shape.UnifyAcyclic` | crates/core-compiler/src/shape.rs:107-126 | Bindings stay acyclic exactly when the variable being bound does not occur in what it is bound to. |
| `Shape.OccursDiverges` | crates/core-compiler/src/shape.rs:107-126 | Where it does occur (unifying an unbound variable with itself included), resolving it afterwards never ends. |
| `Shape.UnifySolutions` | crates/core-compiler/src/shape.rs:107-126 | On any bindings on which both resolutions end, a successful unification leaves exactly the solutions that also equate both sides; it is refused, and binds nothing, exactly when the resolved sides differ and neither is a variable; two different literals have no solution. |
| `Shape.CommutedRefused` | crates/core-compiler/src/shape.rs:119-125 | `M + 1` and `1 + M` are refused although every value of M equates them. |
| `Shape.ShapeSolver.UnifyOne` | crates/core-compiler/src/shape.rs:107-126 | The method's result and new bindings are those of the specification. |
| `Shape.ShapeSolver.UnifyShapes` | crates/core-compiler/src/shape.rs:128-134 | On every input whose resolutions end: success leaves exactly the solutions that equate the shapes dimension by dimension; a refusal is that of some dimension, with the solutions that equate those before it; a rank mismatch binds nothing. |
| `Shape.OccursFreeEnds` | crates/core-compiler/src/shape.rs:128-134 | From acyclic bindings they end when no variable is bound to what holds it. |
| `ParserRuntime.RunSafe` | crates/lex-bytecode/src/parser_runtime.rs:33-171 | From a character boundary inside the input no slice panics; every success ends at a boundary no earlier than the start, and every failure is at one, whatever the closures answer. |
| `ParserReads.RunReads` | crates/lex-bytecode/src/parser_runtime.rs:1-171 | Behind whatever came before, the interpreter on bytes does what the combinators say of characters: one digit, ASCII letter or blank, or the text wanted, off the front; one parser and then another on what it left, as a pair in that order; the second only if the first refuses; as often as it can. It ends, or fails, at the byte where that does, and asks its closures as often. |
| `ParserRuntime.ManyIsChain` | crates/lex-bytecode/src/parser_runtime.rs:107-118 | A repetition that ends has collected a chain of advancing matches that cannot be continued. |
| `ParserRuntime.ChainOnce` | crates/lex-bytecode/src/parser_runtime.rs:107-118 | That chain is the only one: the repetition is greedy. |
| `ParserRuntime.RunParser` | crates/lex-bytecode/src/parser_runtime.rs:33-171 | The interpreter computes the specified outcome and consumes the specified answers. |
| `ParserRuntime.Repeat` | crates/lex-bytecode/src/parser_runtime.rs:107-118 | The loop of a repetition ends and computes the specified outcome. |
| `Utf8.MatchEndsAtBoundary` | crates/lex-bytecode/src/parser_runtime.rs:48-72 | Text that matches at a character boundary ends at one. |
| `Utf8.BoundaryIsOffset` | crates/lex-bytecode/src/parser_runtime.rs:60-72 | Boundaries, as bytes show them, are the offsets at which characters start, and the end. |

## Left out

- Superinstructions inside the escape analysis: it runs before fusion. Machine integers: jump offsets and stack
  depths are unbounded here (`i32` in the verifier), and a target below zero, which wraps and is dropped in the
  original, is dropped.
- Where the liveness pass puts `TakeLocal` (crates/lex-bytecode/src/compiler/liveness.rs); only that the body hash does not see it.
- Machine.Exec: every instruction the passes leave alone, calls included, is one step of an arbitrary interpretation, a call's
  whole run being its effect on the world; errors and panics are one failure. The limit on executed instructions, which fusion
  makes go further, is not part of this model.
- Verifier.VerifyFunction: which error each path's conflict gets; that every conflicting pc has one is false.
- EscapeWitnesses.FlaggedHappens: a chain of runs, not one run, and a duplication counts as giving away, as it does in the report.
- SHA-256: bodies and operations are compared by what is fed to it.
- `build_escape_index`, `build_arena_index`, `analyze_program`: maps over the reports proved here.
- Edits through `&mut` in transforms.rs and patch.rs: an owned tree has no aliases, so they are modelled as functions that return
  the edited tree; the walks that fill a set or a counter are methods (`TreeWalks`).
- RenameLaws.RenameLocalMeaning: sufficient in general, since a captured occurrence may sit where nothing is evaluated, or the
  capturing name stand for the same value; `RenameExact.RenameExactly` is exact where neither can be.
- EscapeLeaves.HandsOverExactly: scalars are not told apart, so a path whose branches cannot go that way together, or an index
  that no run computes, counts as possible. A record shape with a repeated field name, which the type checker refuses, selects
  its first field.
- DeadBranch.FoldMeaning: sufficient for a whole expression, whose arms may happen to agree; `FoldExact.FoldExactly` is exact where
  they cannot.
- Recursion across extraction: the new body means the old one under any one interpretation of the global names; that the
  function's own entry in that interpretation may then be replaced by the new body is not stated.
- `replace_match_arm`, `expr_ids`, `canonicalize_type`, effect sorting, float formatting and `canonicalize_program`: easy or about types,
  which evaluation does not read. Surface types are carried in canonical form.
- CanonicalizeLaws.CanonMeans: `and` and `or` are strict operators here, as the canonical form gives no other reading. Its condition
  is exact for expressions that only call and build; in others a reordered call may be dropped, or have nothing to show for it.
- Integer literals are unbounded (`i64` in the original).
- CanonJson.Serializes: that serde reads back what it wrote, up to what it writes again, is a hypothesis; number rendering is taken
  as injective, and the reader accepts only the escapes of the basic plane.
- LegacyPull.LegacyPullLossless: speaks of pulls that get an empty page; not all do (`LegacyExamples.FallbackNeverEnds`). A pull ends
  when it reaches the end of a listing (`LegacyLoss.ClosesExactly`), as it must after few pages while it takes its own
  continuations (`LegacyLoss.PagesAreFew`); for pulls that mix both no bound is stated.
- LegacyLoss.LossExactly: pulls whose branch moves between the last resumption and the closing page.
- OpsSince.Documented: `HistoryIndex::since` and `topological` are assumed to meet their documentation; `CacheLaws.DocumentedExists` shows the
  assumption can be met. Unpaged responses, I/O errors, `gc`, the files capability (426) and a cutoff that cannot stand in a
  response header are not part of this model. The panic of a slice past the end is the response `Crash`.
- OpBatch.Store.OpsBatch: read errors of the log and the checks of files ops beyond their verdict.
- Shape.Resolve: integer overflow when folding constants; `dtype`.
- Shape.ShapeSolver.UnifyShapes: calls on which `resolve` never returns have no result to speak of.
- ParserRuntime.Run: error messages; what closures answer is a script, and runs that never end have none.
- Other crates (type checking, the rest of the VM, storage, HTTP routing, the three-way merge, mutation analysis): not part of this model.
