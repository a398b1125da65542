# Dead-code elimination for Babel syntax trees, modelled in Dafny

The library removes declarations that nothing uses from a parsed JavaScript
or TypeScript program. It has three passes that work on a Babel AST:

- **Dead-code elimination** repeats passes until one removes nothing. Each
  pass starts with a fresh scope crawl. It removes:
  - import specifiers, and an import declaration once all of its
    specifiers are gone;
  - function declarations, function expressions and arrow functions whose
    naming identifier is unreferenced;
  - declarators whose identifier is unreferenced;
  - unreferenced identifiers inside object and array destructuring
    patterns, and the patterns left empty by that.

  Optional *candidates* restrict removal to the given identifiers.
- **`findReferencedIdentifiers`** collects the declared identifiers that
  are live: referenced, and not in the set that
  `findRemovableBindings` returns. These are the candidates the
  dead-code pass takes when it must remove only what becomes unreferenced
  later.
- **`removeUnusedVariables`** is a smaller repeated pass. It removes
  unreferenced identifier declarators and prunes object-pattern
  declarators.

`findRemovableBindings` finds program-scope bindings that are used only
from inside a closed reference cycle, such as mutually recursive functions
that nothing else calls. It works in three steps:

1. It builds a reference graph between the bindings. A reference is
   attributed to the nearest enclosing node that is some binding's
   declaration node, and an edge runs from that binding to the referenced
   one. When several bindings share a declaration node (the variables of
   one destructuring declarator), the node stands for the last of them in
   the table, so every reference inside it is attributed to that one.
2. It excludes bindings that are reassigned, that iterate a `for … of` or
   `for … in` loop, or that have a reference outside every declaration.
   Exclusion then spreads along the edges.
3. It selects the removable bindings among the rest:
   - with one to three candidates, by hand-written case tables;
   - with more, by Tarjan's strongly-connected-components search. It keeps
     self-referencing singleton components and multi-member components
     that no other candidate enters.

## How the model is organised

| module | file | what it holds |
|---|---|---|
| `Wrappers` | wrappers.dfy | `Option`, `Result` |
| `Ast` | ast.dfy | the syntax-tree shapes the passes test for, with node sizes used as termination measures |
| `Bindings` | bindings.dfy | a crawl's bindings; the edge lists and exclusion marks as functions of the binding table |
| `RefGraph` | ref_graph.dfy | reachability in the candidate graph; `RemovableSet`, which says what the selection is meant to return |
| `Identifier`, `Pattern` | identifier.dfy, pattern.dfy | identifier.ts and pattern.ts |
| `RemovableBindings` | removable_bindings.dfy | the edge-building and propagation loops, as methods over arrays |
| `Shortcuts` | shortcuts.dfy | the case tables for at most three candidates, compared with `RemovableSet` |
| `TarjanSpec`, `Tarjan`, `Components` | tarjan_spec.dfy, tarjan.dfy, components.dfy | Tarjan's search as a class over the typed arrays, its invariant, the `hasIncoming` marking and the collecting loop |
| `FindRemovable` | find_removable.dfy | `findRemovableBindings` end to end, as written and corrected |
| `DeadCodeElimination` | dead_code_elimination.dfy | the dead-code pass and its do/while driver |
| `FindReferencedIdentifiers` | find_referenced_identifiers.dfy | the live-identifier collection |
| `RemoveUnusedVariables` | remove_unused_variables.dfy | the unused-variable pass |
| `DeadCodeExamples`, `RemoveUnusedExamples` | dead_code_examples.dfy, remove_unused_examples.dfy | worked programs from the test files |

The model follows the code's form:

- `findRemovableBindings` updates arrays and a queue in loops. Its model is
  made of methods over `array`s, each proved against a function of the
  binding table.
- `strongconnect` is a closure that updates typed arrays, a stack and a
  counter. It is a class `Tarjan.Search` with those fields, whose methods
  are specified by transitions on a `TarjanSpec.State` value.
- The traversal passes rewrite the tree through Babel's `path.remove()`.
  Each pass is modelled as a function from the tree to the new tree and
  its removal count (or `changed` flag), or to the error it throws. The
  do/while drivers are methods proved equal to a function that repeats
  passes.

Bindings are named by their index in the program scope's table
(`Object.values(programPath.scope.bindings)`). The scope crawl is a
parameter, a function from a tree to the bindings and identifier
resolution Babel would report for it.

## Model

| member | source | states |
|---|---|---|
| Bindings.ProgramBindings | src/find-removable-bindings.ts:7-8 | the table is the first `programCount` bindings of the crawl, in order |
| Bindings.ContributesBefore | src/find-removable-bindings.ts:42-64 | the reference scan adds an edge into `c` iff a reference before the first container-less one lies in `c` |
| Bindings.RefsFrom | src/find-removable-bindings.ts:51-57 | after bindings `0..m-1`, `j` is on `refs[c]` iff `j < m` and `j` contributes to `c` |
| Bindings.RefsIncreasing | src/find-removable-bindings.ts:29-65 | each edge list is strictly increasing, so `includes` keeps it free of repeats |
| Bindings.InitialQueue | src/find-removable-bindings.ts:32-40 | the queue after the loop holds exactly the bindings excluded up front or for a container-less reference |
| Bindings.InitialQueueIncreasing | src/find-removable-bindings.ts:29-65 | the initial queue is strictly increasing |
| Bindings.CandidatesMembers | src/find-removable-bindings.ts:86-89 | the candidate list holds exactly the unexcluded indices |
| Bindings.CandidatesIncreasing | src/find-removable-bindings.ts:86-89 | candidates are listed in increasing index order |
| Bindings.AllCandidates | src/find-removable-bindings.ts:23-27 | before any exclusion every binding is a candidate (`candidateCount = n`) |
| Bindings.ExcludeOne | src/find-removable-bindings.ts:72-76 | marking one unmarked binding lowers the candidate count by exactly one |
| Bindings.CandidatesAndQueue | src/find-removable-bindings.ts:29-65 | after the loop, candidates plus queued bindings number `n` |
| Bindings.CandidatesGrow | src/find-removable-bindings.ts:86-89 | scanning further never loses a candidate |
| Bindings.CandidatesComplete | src/find-removable-bindings.ts:86-89 | stopping once `candidateCount` are found yields the full list |
| RemovableBindings.Exclude | src/find-removable-bindings.ts:36-38 | sets `excluded[x]`, appends `x` to the queue, and keeps the count equal to the number of unmarked bindings |
| RemovableBindings.ScanReferences | src/find-removable-bindings.ts:42-64 | reports a container-less reference iff one exists, and leaves every `refs[c]` equal to `RefsFrom(table, c, i+1)` |
| RemovableBindings.SkipUpFront | src/find-removable-bindings.ts:32-40 | a binding excluded up front adds no edge |
| RemovableBindings.BuildStep | src/find-removable-bindings.ts:30-64 | one round keeps edges, marks, queue and count equal to their functions of the table |
| RemovableBindings.BuildRefs | src/find-removable-bindings.ts:29-65 | after the loop, edges, marks and queue are those functions; the queue has no repeats; the count is the number of candidates |
| RemovableBindings.BuiltFromStart | src/find-removable-bindings.ts:14-27 | the initial arrays satisfy the loop invariant |
| RemovableBindings.BuiltAll | src/find-removable-bindings.ts:29-65 | the invariant at the end gives a queue without repeats and the right count |
| RemovableBindings.ExcludingStep | src/find-removable-bindings.ts:72-78 | each target is either already marked or marked and queued now |
| RemovableBindings.ExcludeTargets | src/find-removable-bindings.ts:70-79 | every target of the popped binding ends up marked; only new marks are queued; the count follows |
| RemovableBindings.PropagateExclusion | src/find-removable-bindings.ts:67-80 | afterwards `excluded[j]` holds iff `j` is reachable from a binding marked on entry, and the count is the number unmarked |
| RemovableBindings.PropagateStep | src/find-removable-bindings.ts:68-79 | one pop keeps the propagation invariant, and the count falls or the queue shrinks |
| RemovableBindings.PropagateKept | src/find-removable-bindings.ts:68-79 | once the popped binding's targets are marked, it is settled |
| RemovableBindings.SettledClosure | src/find-removable-bindings.ts:67-80 | with the queue empty, the marks are exactly the reachability closure of the initial marks |
| RemovableBindings.PropagatingAtStart | src/find-removable-bindings.ts:67-68 | the invariant holds on entry to the propagation loop |
| FindRemovable.CandidateRefs | src/find-removable-bindings.ts:29-65 | the final edge lists, `refs[c] == RefsFrom(table, c, n)` |
| FindRemovable.CandidateRefsInRange | src/find-removable-bindings.ts:51-57 | every edge ends at a binding of the table |
| FindRemovable.InitialMarks | src/find-removable-bindings.ts:29-65 | the loop's marks are exactly the initially excluded bindings |
| Bindings.IsLoopIteratorBinding | src/find-removable-bindings.ts:246-258 | a declarator's binding whose declaration sits under the `left` key of a `for … of` or `for … in` statement; `FindRemovable.ExcludedUpFrontNeverRemovable` states that such a binding is never removable |
| FindRemovable.ExcludedUpFrontNeverRemovable | src/find-removable-bindings.ts:32-40 | a reassigned binding or a loop iterator is never returned, by the corrected selection or by the code as written |
| FindRemovable.KeptNeverSelected | src/find-removable-bindings.ts:32-40 | a binding that is reassigned, a loop iterator or referenced outside every declaration is never returned |
| FindRemovable.ReferencedByKeptNeverSelected | src/find-removable-bindings.ts:67-80 | a binding referenced inside a kept binding's declaration is kept and not returned |
| FindRemovable.SelectedReferencedOnlyByCandidates | src/find-removable-bindings.ts:3-6 | every reference to a returned binding lies inside the declaration of a binding that is not kept |
| FindRemovable.CandidatesListed | src/find-removable-bindings.ts:86-89 | the collected list is the candidates in increasing order |
| FindRemovable.NoCandidateNoneRemovable | src/find-removable-bindings.ts:82 | with no candidate, nothing is removable (the early empty return is right) |
| FindRemovable.Prepare | src/find-removable-bindings.ts:14-80 | returns the final edge lists and the propagated marks with their count |
| FindRemovable.SmallCandidates | src/find-removable-bindings.ts:86-89 | the early-stopping scan returns exactly the candidate list |
| FindRemovable.SearchAll | src/find-removable-bindings.ts:165-243 | Tarjan's search, the marking and the collection return exactly `RemovableSet` |
| FindRemovable.FindRemovableBindingsAsWritten | src/find-removable-bindings.ts:4-244 | the code as written returns `SelectedAsWritten`: only candidates, and exactly the removable bindings unless three candidates remain in a shape the table was not written for |
| FindRemovable.AsWrittenAgrees | src/find-removable-bindings.ts:85-163 | the tables select only candidates, and agree with the component-based selection for one or two candidates and for three candidates forming a triangle, an isolated pair or no cross references |
| FindRemovable.FindRemovableBindings | src/find-removable-bindings.ts:4-244 | the corrected function returns exactly the removable bindings: not excluded, and in a closed cycle or a self-referencing singleton |
| Shortcuts.SmallCase | src/find-removable-bindings.ts:85-163 | the case tables return a subset of the candidates |
| Shortcuts.AloneRemovable | src/find-removable-bindings.ts:230-234 | a candidate alone in its component is removable iff it references itself |
| Shortcuts.OnlyCandidatesRemovable | src/find-removable-bindings.ts:225-243 | only candidates are removable |
| Shortcuts.AllMutualRemovable | src/find-removable-bindings.ts:237-240 | when all candidates reach one another, all are removable |
| Shortcuts.OneCandidateAgrees | src/find-removable-bindings.ts:91-95 | the one-candidate table equals `RemovableSet` |
| Shortcuts.TwoMutual | src/find-removable-bindings.ts:97-116 | two candidates referencing each other are both removable |
| Shortcuts.TwoApart | src/find-removable-bindings.ts:97-116 | otherwise neither shares a component with the other |
| Shortcuts.TwoCandidatesAgree | src/find-removable-bindings.ts:97-116 | the two-candidate table equals `RemovableSet` |
| Shortcuts.TriangleAgrees | src/find-removable-bindings.ts:132-139 | on a directed triangle the table and `RemovableSet` both give all three |
| Shortcuts.IsolatedPairAgrees | src/find-removable-bindings.ts:143-162 | two candidates referencing each other, which the third does not reference: table and `RemovableSet` both give the pair, plus the third iff it references itself |
| Shortcuts.SelfLoopsAgree | src/find-removable-bindings.ts:157-162 | with no reference between distinct candidates, table and `RemovableSet` both give exactly the self-referencing candidates |
| Shortcuts.ThreeCandidatesAgree | src/find-removable-bindings.ts:118-162 | for every shape the three-candidate table is written for, it equals `RemovableSet` |
| Shortcuts.StarTable | src/find-removable-bindings.ts:118-162 | the three-candidate table selects nothing for the star 0↔1, 0↔2 |
| Shortcuts.ShortcutMissesStar | src/find-removable-bindings.ts:118-162 | on the star the table gives {} while all three are removable |
| Shortcuts.EnteredPairTable | src/find-removable-bindings.ts:157-160 | for 0↔1, 0→0, 2→0 the table selects {0} through the self-reference check |
| Shortcuts.EnteredPairNotRemovable | src/find-removable-bindings.ts:237-240 | in that graph no binding is removable |
| Shortcuts.ShortcutSelectsEnteredPair | src/find-removable-bindings.ts:143-160 | on that graph the table gives {0} while nothing is removable |
| Tarjan.Search.constructor | src/find-removable-bindings.ts:166-172 | `indices` is all -1, the stack and component list are empty, `index` is 0, and the search invariant holds |
| Tarjan.Search.Visit | src/find-removable-bindings.ts:175-177 | the state after numbering and pushing `v` is `Push(old state, v)` |
| Tarjan.Search.Enter | src/find-removable-bindings.ts:175-180 | after the push, the neighbour loop's invariant holds at its start |
| Tarjan.Search.LowerLink | src/find-removable-bindings.ts:184-188 | `lowlink[v]` becomes the minimum of itself and `x`; nothing else changes |
| Tarjan.Search.PopOne | src/find-removable-bindings.ts:197-199 | pops the top `w`, clears its stack mark, gives it the component id; nothing else changes |
| Tarjan.Search.StrongConnect | src/find-removable-bindings.ts:174-204 | `strongconnect(v)` keeps the invariant and only extends the state; `v` is either finished in a component or stays on the stack with a witnessed lower link |
| Tarjan.Search.Scan | src/find-removable-bindings.ts:179-190 | the neighbour loop keeps its invariant through all of `refs[v]` |
| Tarjan.Search.Neighbour | src/find-removable-bindings.ts:181-189 | one neighbour (excluded, unvisited, on the stack, or finished) keeps the loop invariant |
| Tarjan.Search.Descend | src/find-removable-bindings.ts:183-185 | recursing into an unvisited neighbour and taking its low link keeps the loop invariant |
| Tarjan.Search.PopComponent | src/find-removable-bindings.ts:192-203 | popping at a root leaves `v` finished and the invariant restored |
| Tarjan.Search.PopDownTo | src/find-removable-bindings.ts:194-202 | pops exactly the stack above and including `v` into one new component |
| Tarjan.Search.Run | src/find-removable-bindings.ts:206-208 | after the outer loop every candidate has a component and the stack is empty |
| Tarjan.Search.MarkIncoming | src/find-removable-bindings.ts:211-223 | `hasIncoming[c]` holds iff some candidate outside component `c` has an edge into it |
| Tarjan.Search.Collect | src/find-removable-bindings.ts:226-243 | the collecting loop returns exactly `RemovableSet` |
| TarjanSpec.InitialInv | src/find-removable-bindings.ts:166-172 | the initial state satisfies the search invariant |
| TarjanSpec.PushInv | src/find-removable-bindings.ts:175-177 | numbering and pushing an unvisited candidate keeps the invariant |
| TarjanSpec.TopMutual | src/find-removable-bindings.ts:192 | at a root, the stack from `v` up is exactly the bindings mutually reachable with `v` |
| TarjanSpec.NewComponent | src/find-removable-bindings.ts:194-202 | the popped component lists the stack segment from `v` up, each once |
| TarjanSpec.PopInv | src/find-removable-bindings.ts:192-203 | popping a root's component keeps the invariant |
| TarjanSpec.RootFinished | src/find-removable-bindings.ts:206-208 | a top-level call leaves its root in a component and changes no earlier component |
| Components.SeenAll | src/find-removable-bindings.ts:211-223 | the edges seen by the end of the marking loop are all edges |
| Components.SeenStep | src/find-removable-bindings.ts:217-220 | looking at one edge adds exactly that edge's contribution |
| Components.SeenSkip | src/find-removable-bindings.ts:213 | skipping an excluded source misses no edge |
| Components.Members | src/find-removable-bindings.ts:192-203 | component `c` holds exactly the candidates whose `sccId` is `c` |
| Components.SameComponent | src/find-removable-bindings.ts:174-208 | after the search two candidates share a component id iff they reach each other |
| Components.NonTrivialBySize | src/find-removable-bindings.ts:231 | a candidate has a companion in its component iff the component lists more than one binding |
| Components.ClosedByIncoming | src/find-removable-bindings.ts:238 | a component is closed iff `hasIncoming` is not set for it |
| Components.PickedIsRemovable | src/find-removable-bindings.ts:228-241 | the collecting loop's choice for each candidate equals `Removable` |
| Components.PickedStep | src/find-removable-bindings.ts:229-240 | one component adds its self-referencing singleton, or all its members when nothing enters it |
| Identifier.FromFunction | src/identifier.ts:3-34 | the declarator's or assignment's identifier when the function is their value (none for a pattern); otherwise none for an arrow function, else the function's own name |
| Identifier.BindingOf | src/identifier.ts:37 | the binding an identifier resolves to, if any |
| Identifier.IsReferenced | src/identifier.ts:36-51 | false without a binding or when the binding is not referenced; true for referenced non-function bindings; for a function declaration, true iff some use lies outside the function |
| Identifier.SelfRecursionUnreferenced | src/identifier.ts:41-46 | a function declaration used only from inside itself is unreferenced |
| Identifier.ReferencedOnly | src/dead-code-elimination.ts:88-89 | the identifiers of a list that are still referenced, in order |
| Identifier.ReferencedOnlyMembers | src/dead-code-elimination.ts:88-89 | exactly the referenced members |
| Identifier.ReferencedOnlyAppend | src/dead-code-elimination.ts:88-89 | filtering distributes over concatenation |
| Pattern.FindVariables | src/pattern.ts:4-34 | the identifiers of a pattern in source order; its only error is an unexpected node of a kind it does not handle (`FindVariablesSound` says when it fails and what it lists) |
| Pattern.FindInProp | src/pattern.ts:16-18 | the identifiers of one object member; fails only on a node kind it does not handle |
| Pattern.FindInProps | src/pattern.ts:13-15 | the identifiers of a member list; fails only on a node kind it does not handle |
| Pattern.FindInElem | src/pattern.ts:19-29 | the identifiers of one array slot, none for a hole; fails only on a node kind it does not handle |
| Pattern.FindInElems | src/pattern.ts:19-22 | the identifiers of a slot list; fails only on a node kind it does not handle |
| Pattern.FindVariablesSound | src/pattern.ts:4-34 | the collection succeeds iff every node is a supported kind, and then lists exactly the identifiers the pattern binds |
| Pattern.FindInPropSound | src/pattern.ts:16-18 | the same for one object member |
| Pattern.FindInPropsSound | src/pattern.ts:13-15 | the same for a member list |
| Pattern.FindInElemSound | src/pattern.ts:19-22 | the same for one array slot, a hole binding nothing |
| Pattern.FindInElemsSound | src/pattern.ts:19-22 | the same for a slot list |
| Pattern.FindInPropsAppend | src/pattern.ts:13-15 | members are collected in source order, and the first error wins |
| Pattern.FindInElemsAppend | src/pattern.ts:19-22 | slots are collected in source order, and the first error wins |
| Pattern.Remove | src/pattern.ts:36-62 | succeeds iff the parent is a declarator, array pattern, property or rest element, or an assignment pattern under a property or array pattern; which edit is made; the error names the grandparent under an assignment pattern and the parent otherwise |
| DeadCodeElimination.ShouldBeRemoved | src/dead-code-elimination.ts:22-26 | never when referenced; otherwise always without candidates, and iff a candidate with them |
| DeadCodeElimination.ExciseVar | src/dead-code-elimination.ts:91-121 | which edit an unreferenced pattern identifier gets, by its parent and grandparent; the error names the parent |
| DeadCodeElimination.SweepPat | src/dead-code-elimination.ts:86-142 | a successful sweep of a pattern removes nodes one count at a time: size falls by at least the count, count 0 means unchanged |
| DeadCodeElimination.SweepProp | src/dead-code-elimination.ts:94-97 | the same for one object member |
| DeadCodeElimination.SweepProps | src/dead-code-elimination.ts:94-97 | the same for a member list, dropping removed members |
| DeadCodeElimination.SweepElem | src/dead-code-elimination.ts:99-112 | the same for one array slot |
| DeadCodeElimination.SweepElems | src/dead-code-elimination.ts:99-112 | the same for a slot list, holes in place |
| DeadCodeElimination.SweepParams | src/dead-code-elimination.ts:125-142 | the same for a function's parameters under the pattern visitors |
| DeadCodeElimination.KeepSpecs | src/dead-code-elimination.ts:50-67 | never more specifiers than before, and all of them only if unchanged |
| DeadCodeElimination.VisitNode | src/dead-code-elimination.ts:74-149 | a visit never grows the node, counts each removal, and leaves the node unchanged when it counts none |
| DeadCodeElimination.VisitFunc | src/dead-code-elimination.ts:28-48 | the same for a function node |
| DeadCodeElimination.VisitAssign | src/dead-code-elimination.ts:39-46 | the same for an assignment |
| DeadCodeElimination.VisitNodes | src/dead-code-elimination.ts:74-149 | the same for a sibling list |
| DeadCodeElimination.IdSlot | src/dead-code-elimination.ts:185-189 | an edit of a declarator's `id` slot that succeeds removes the declarator |
| DeadCodeElimination.VisitDecl | src/dead-code-elimination.ts:79-124 | a declarator is kept (possibly smaller) or removed, never more than counted |
| DeadCodeElimination.VisitInit | src/dead-code-elimination.ts:39-44 | a declarator's `init` visit keeps or removes the declarator, with the same accounting |
| DeadCodeElimination.VisitDecls | src/dead-code-elimination.ts:79-124 | the same for a declarator list |
| DeadCodeElimination.Pass | src/dead-code-elimination.ts:72-149 | the program shrinks by at least the count; a pass counting 0 leaves it unchanged |
| DeadCodeElimination.VarRuleReach | src/dead-code-elimination.ts:94-121 | the declarator rule removes a pattern only as a rest argument; it nulls a slot only in an array; it reaches the parent or grandparent only through the listed shapes |
| DeadCodeElimination.VarRulePat | src/dead-code-elimination.ts:86-122 | the count is the number of unreferenced identifiers, and the kept pattern binds exactly the referenced ones, in order |
| DeadCodeElimination.VarRuleProp | src/dead-code-elimination.ts:94-97 | the same for one object member |
| DeadCodeElimination.VarRuleProps | src/dead-code-elimination.ts:94-97 | the same for an object's members |
| DeadCodeElimination.VarRuleElem | src/dead-code-elimination.ts:99-112 | the same for one array slot |
| DeadCodeElimination.VarRuleElems | src/dead-code-elimination.ts:99-112 | the same for an array's slots |
| DeadCodeElimination.VarRuleSlot | src/dead-code-elimination.ts:99-112 | a slot becomes a hole exactly when its identifier, bare or behind a default, is unreferenced |
| DeadCodeElimination.VarRuleKeepsSlots | src/dead-code-elimination.ts:99-112 | without rest elements an array keeps its length, and each slot is swept in place |
| DeadCodeElimination.EmptyRuleOff | src/dead-code-elimination.ts:125-142 | outside a declarator the pattern visitors change nothing |
| DeadCodeElimination.EmptyRuleOffProps | src/dead-code-elimination.ts:125-133 | the same for object members |
| DeadCodeElimination.EmptyRuleOffElems | src/dead-code-elimination.ts:134-142 | the same for array slots |
| DeadCodeElimination.EmptyRuleOffParams | src/dead-code-elimination.ts:125-142 | outside a declarator, function parameters are left alone |
| DeadCodeElimination.EmptyRuleCounts | src/dead-code-elimination.ts:125-142 | inside a declarator, the visitors change a pattern iff it holds an empty object or all-hole array pattern, and count a removal iff so |
| DeadCodeElimination.EmptyRuleCountsProp | src/dead-code-elimination.ts:125-133 | the same for one object member |
| DeadCodeElimination.EmptyRuleCountsProps | src/dead-code-elimination.ts:125-133 | the same for object members |
| DeadCodeElimination.EmptyRuleCountsElem | src/dead-code-elimination.ts:134-142 | the same for one array slot |
| DeadCodeElimination.EmptyRuleCountsElems | src/dead-code-elimination.ts:134-142 | the same for array slots |
| DeadCodeElimination.KeepSpecsMembers | src/dead-code-elimination.ts:56-60 | the specifiers kept are exactly those that should not be removed |
| DeadCodeElimination.ImportSwept | src/dead-code-elimination.ts:50-67 | each removed specifier counts once; the declaration goes iff it had specifiers and all went; one without specifiers is untouched |
| DeadCodeElimination.AssignedFunctionSwept | src/dead-code-elimination.ts:39-44 | a function assigned to a removable identifier goes with its assignment, counted once |
| DeadCodeElimination.FunctionSwept | src/dead-code-elimination.ts:28-48 | a function whose naming identifier should be removed goes, counted once, with its declarator or assignment when it is their value; a function that stays is not so named and keeps its node, kind and name |
| DeadCodeElimination.IdentDeclaratorSwept | src/dead-code-elimination.ts:79-85 | a declarator of a plain identifier that should be removed goes, counted once; a declarator that stays keeps its node, and its identifier `id` unchanged and not to be removed |
| DeadCodeElimination.PassLeavesNoDoomed | src/dead-code-elimination.ts:28-48 | after a successful pass no top-level function declaration or plain-identifier declarator is left whose identifier should be removed under that pass's crawl |
| DeadCodeElimination.CorrectedParamsUntouched | src/dead-code-elimination.ts:125-142 | in the corrected pass a function's parameters are never edited, and any error comes from its body |
| DeadCodeElimination.Sweep | src/dead-code-elimination.ts:71-150 | passes on fresh crawls until one counts no removal; `SweepFixedPoint`, `SweepIdempotent` and `SweepShrinks` state what the result is |
| DeadCodeElimination.SweepFixedPoint | src/dead-code-elimination.ts:71-150 | the result is a fixed point: one more pass counts nothing |
| DeadCodeElimination.SweepIdempotent | src/dead-code-elimination.ts:71-150 | eliminating again changes nothing |
| DeadCodeElimination.SweepShrinks | src/dead-code-elimination.ts:71-150 | the result is no larger, and equals the input iff the first pass counts nothing |
| DeadCodeElimination.EliminateDeadCode | src/dead-code-elimination.ts:16-151 | the do/while driver returns exactly the repeated passes' result, with the corrected pattern visitors when `idOnly` is set and the visitors as written when it is not |
| DeadCodeExamples.EmptyParamThrows | src/dead-code-elimination.ts:125-133 | as written, `const f = ({}) => 1; f()` throws on the arrow function |
| DeadCodeExamples.EmptyParamKept | src/dead-code-elimination.ts:125-133 | with the corrected reading the program is left unchanged |
| DeadCodeExamples.ArrowKept | src/dead-code-elimination.ts:28-48 | the referenced arrow function is kept whole |
| DeadCodeExamples.DeclaratorKept | src/dead-code-elimination.ts:79-85 | its declarator is kept whole |
| DeadCodeExamples.CallKept | src/dead-code-elimination.ts:74-149 | a statement with nothing to remove is kept by any pass |
| DeadCodeExamples.ChainFirstPass | src/dead-code-elimination.test.ts:149-178 | the first pass over `function d(){}; let e = function(){ return d() }` removes only `e` |
| DeadCodeExamples.ChainRemoved | src/dead-code-elimination.test.ts:149-178 | repeated passes remove `d` next and end with an empty program |
| FindReferencedIdentifiers.AddIfReferenced | src/find-referenced-identifiers.ts:12-21 | an identifier is added only when it resolves to a binding outside the removable set |
| FindReferencedIdentifiers.AddIfReferencedVsIsReferenced | src/find-referenced-identifiers.ts:12-21 | a removable binding's identifier is never added; a referenced one outside the set is; away from function declarations the two tests agree |
| FindReferencedIdentifiers.ExaminedNode | src/find-referenced-identifiers.ts:29-55 | the identifiers the visitors examine in and below a node, in traversal order; the only error is the pattern collection's unexpected node |
| FindReferencedIdentifiers.ExaminedNodes | src/find-referenced-identifiers.ts:29-55 | the same for a node list; the only error is the pattern collection's |
| FindReferencedIdentifiers.ExaminedDecl | src/find-referenced-identifiers.ts:39-48 | a declarator's identifier or pattern variables, then what its `init` examines; the only error is the pattern collection's |
| FindReferencedIdentifiers.ExaminedDecls | src/find-referenced-identifiers.ts:39-48 | the same for a declarator list; the only error is the pattern collection's |
| FindReferencedIdentifiers.ImportExamined | src/find-referenced-identifiers.ts:34-38 | every local name of an import is examined, in order |
| FindReferencedIdentifiers.PatternDeclaratorExamined | src/find-referenced-identifiers.ts:39-48 | a pattern declarator's examined list starts with exactly the variables the pattern binds, before its `init`; an unsupported pattern's error is the declarator's; without an `init` the variables are the whole list |
| FindReferencedIdentifiers.FunctionNameExamined | src/find-referenced-identifiers.ts:49-54 | a function's examined list starts with its name when it is a named declaration and with nothing otherwise (a function expression's name is never examined), followed by its body's list |
| FindReferencedIdentifiers.Collected | src/find-referenced-identifiers.ts:12-21 | the accumulated set is no longer than the examined list and holds only identifiers that pass the test (`CollectedMembers`: exactly those, each once) |
| FindReferencedIdentifiers.CollectedMembers | src/find-referenced-identifiers.ts:12-21 | the set holds exactly the examined identifiers that pass the test, each once |
| FindReferencedIdentifiers.FindReferenced | src/find-referenced-identifiers.ts:23-58 | fails iff the examination throws; otherwise returns the collected set of what one crawl and one call of `findRemovableBindings` allow, with the selection as written (`asWritten`) or corrected |
| FindReferencedIdentifiers.AsWrittenSameCollection | src/find-referenced-identifiers.ts:23-58 | the two selections, and so the two collections, coincide unless three candidates remain in a shape the table was not written for |
| FindReferencedIdentifiers.FindReferencedExact | src/find-referenced-identifiers.ts:23-58 | for either selection, the result is exactly the examined identifiers with a referenced, non-removable binding, without repeats |
| FindReferencedIdentifiers.CandidateNodes | src/dead-code-elimination.ts:14-18 | the candidate nodes are exactly the nodes of the collected identifiers |
| FindReferencedIdentifiers.OnlyNewlyUnreferenced | src/dead-code-elimination.test.ts:180-204 | with these candidates, `shouldBeRemoved` holds only for identifiers that were live when collected |
| RemoveUnusedVariables.Target | src/remove-unused-variables.ts:73-81 | the pattern a member holds is the member minus one node |
| RemoveUnusedVariables.Retarget | src/remove-unused-variables.ts:73-81 | replacing a member's pattern gives a member holding it; replacing it with itself changes nothing |
| RemoveUnusedVariables.ObjectVariables | src/remove-unused-variables.ts:65-89 | the identifiers reached through object members, property values and rest arguments; `ObjectVariablesSound` states that each is bound by the pattern and that it agrees with the general collection on object-only patterns |
| RemoveUnusedVariables.ObjectVariablesSound | src/remove-unused-variables.ts:65-89 | every identifier collected is bound by the pattern; on identifier/object/rest patterns the collection agrees with the general one |
| RemoveUnusedVariables.PropsVariablesSound | src/remove-unused-variables.ts:76-78 | the same for a member list |
| RemoveUnusedVariables.PruneProps | src/remove-unused-variables.ts:39-52 | pruning never grows the members; unchanged iff nothing removed; the pattern is reported empty only when nothing before it was kept |
| RemoveUnusedVariables.EmptiedExactly | src/remove-unused-variables.ts:40-50 | the pattern's parent goes exactly when nothing before was kept, nothing is left and the last member held an identifier |
| RemoveUnusedVariables.PruneFilters | src/remove-unused-variables.ts:38-52 | pruning keeps exactly the referenced identifiers, in order; it changes iff one is unreferenced; it empties only when none is referenced |
| RemoveUnusedVariables.PruneId | src/remove-unused-variables.ts:23-59 | a declarator's `id` never grows, and is unchanged when no change is reported |
| RemoveUnusedVariables.VisitDecl | src/remove-unused-variables.ts:23-60 | the same for a declarator |
| RemoveUnusedVariables.VisitDecls | src/remove-unused-variables.ts:23-60 | the same for a declarator list |
| RemoveUnusedVariables.VisitNode | src/remove-unused-variables.ts:14-61 | the same for a node |
| RemoveUnusedVariables.VisitNodes | src/remove-unused-variables.ts:14-61 | the same for a node list |
| RemoveUnusedVariables.IdentDeclaratorRemoved | src/remove-unused-variables.ts:24-31 | an identifier declarator goes iff its identifier is unreferenced |
| RemoveUnusedVariables.ObjectDeclaratorFiltered | src/remove-unused-variables.ts:33-54 | an object declarator keeps exactly its referenced identifiers, in order; it goes only when none is referenced, and exactly when no member is left and the last one held an identifier |
| RemoveUnusedVariables.ArrayDeclaratorKept | src/remove-unused-variables.ts:56-59 | an array declarator's `id` is never changed |
| RemoveUnusedVariables.Cleanup | src/remove-unused-variables.ts:12-62 | passes on fresh crawls until one changes nothing; `CleanupFixedPoint` and `CleanupShrinks` state what the result is |
| RemoveUnusedVariables.CleanupFixedPoint | src/remove-unused-variables.ts:12-62 | the result is a fixed point of a pass |
| RemoveUnusedVariables.CleanupShrinks | src/remove-unused-variables.ts:12-62 | the result is no larger, and equals the input iff the first pass changes nothing |
| RemoveUnusedVariables.RemoveUnused | src/remove-unused-variables.ts:10-63 | the do/while driver returns exactly the repeated passes' result |
| RemoveUnusedExamples.AllDeadDeclaratorGoes | src/remove-unused-variables.test.ts:24-26 | `let { _x, ..._restx } = _input` with both unreferenced goes entirely |
| RemoveUnusedExamples.MixedPattern | src/remove-unused-variables.test.ts:28-56 | the members of `{ _a, a, _b: { _bb }, b: { bb }, c: { _cc, cc }, ...rest }` are pruned to `{ a, b: { bb }, c: { cc }, ...rest }` |
| RemoveUnusedExamples.MixedDeclarator | src/remove-unused-variables.test.ts:28-56 | the declarator keeps that pattern and reports a change |
| RemoveUnusedExamples.NestedEmptyLeftBehind | src/remove-unused-variables.ts:44-50 | `let { _b: { _bb } } = x` leaves the outer pattern empty but in place |
| RemoveUnusedExamples.DefaultHidden | src/remove-unused-variables.ts:65-89 | an identifier behind a default value is seen by the general collection but not by this pass's |
| RemoveUnusedExamples.DefaultKept | src/remove-unused-variables.ts:82-85 | so an unreferenced identifier with a default value is never removed |

## Findings

| source | as written | input that shows it | evidently intended | confidence | as-written member | corrected member |
|---|---|---|---|---|---|---|
| src/find-removable-bindings.ts:118-162 | with three candidates, a table picks directed triangles, isolated mutual pairs and self-references | Star: 0↔1 and 0↔2 (one closed component without a triangle) gives {} though all three are removable. EnteredPair: 0↔1, 0→0, 2→0 gives {0} though 2 keeps 0 alive | the same selection as the component search used from four candidates on | not executed | FindRemovable.FindRemovableBindingsAsWritten, Shortcuts.ShortcutMissesStar, Shortcuts.ShortcutSelectsEnteredPair | FindRemovable.FindRemovableBindings |
| src/dead-code-elimination.ts:125-142 | `isWithinDeclarator` uses `path.find`, which walks up through a declarator's `init`, so an empty parameter pattern of a function in an initializer is cut out, and `removePattern` throws for a function parent | `const f = ({}) => 1; f()` | only patterns inside a declarator's own `id` are removed, and the program is left as it is | not executed | DeadCodeExamples.EmptyParamThrows | DeadCodeExamples.EmptyParamKept, DeadCodeElimination.CorrectedParamsUntouched |

`EliminateDeadCode` takes `idOnly` as a flag: set, it runs the corrected
pattern visitors; unset, the visitors as written, which fail on the empty
parameter pattern of `EmptyParamThrows`.
`FindReferenced` takes the selection as a flag: with `asWritten` set it
calls `FindRemovableBindingsAsWritten`, as the source does, so on a graph
like EnteredPair it drops the identifiers of binding 0, which the
corrected selection keeps; `AsWrittenSameCollection` says when the two
agree.

## Left out

- Babel's parser, traversal machinery, scope crawl and code generator are not modelled. The crawl is a parameter, a function from a tree to a `Scope` that records each binding's kind, `referenced` flag, uses and parent slot, and each identifier's resolution.
- The walk up the tree that finds the binding enclosing each reference (lines 46-50 of src/find-removable-bindings.ts) is given as each binding's `containers`. `pathNodeToIdx` (lines 14-20) is therefore not modelled, and neither is its last-wins rule: when bindings share a declaration node, the map keeps the last of them, so `const { a, b } = { a: () => b(), b: () => 0 }` attributes the reference to `b` inside `a`'s arrow to `b` itself. The model takes `containers` as given and does not require them to follow that rule.
- Node paths and in-place edits through `path.remove()` and `elements[k] = null` are modelled on values. A pass returns the new tree, so aliasing between paths and the tree is not captured.
- Babel's skipping of a removed node's subtree is modelled by not visiting it. Traversal of a subtree detached from the tree is not represented.
- Object property keys, default values of assignment patterns, and everything the passes do not test for are reduced to `Other` nodes or left out.
- A rest element as a property value contributes no identifiers in the unused-variable pass. It does not occur in valid programs.
- Two of Babel's removal hooks are modelled: removing a declaration's last declarator removes the declaration, and removing an expression statement's expression removes the statement. Babel's other hooks are not modelled.
- A `catch` clause's parameter pattern and a pattern assigned to by a `for … of` / `for … in` head without a declaration (`for ({ a } of xs)`) are inside `Other` nodes, so the pattern visitors never reach them.
- The candidates given to the dead-code pass restrict only what `shouldBeRemoved` decides (import specifiers, plain-identifier declarators, function names). Unreferenced variables in a declarator's object or array pattern (src/dead-code-elimination.ts:86-90) and empty patterns are removed without consulting the candidates, in the model as in the source.
- Some edits land where the model has no place for them, such as a hole in a slot that is not an array element, or a removal of a declarator's `id` other than removing the declarator. Such an edit is an `Unexpected` error. The source's own edits null only array-pattern elements.
- The `Set`s of bindings and identifier paths are modelled as sets of indices, and as a sequence without repeats where insertion order matters.
- The `Int32Array` and `Uint8Array` element widths are not modelled. Indices stay below the number of bindings, so they never overflow.
- `errors.ts` (`buildCodeFrameError`) becomes the error value `Unexpected(kind)` without a code frame.
- `findVariablesInObjectPattern` builds an error for an unsupported node but does not throw it. The model collects nothing for such a node.
- The test and benchmark files are not modelled, except for the worked examples in the example modules.
