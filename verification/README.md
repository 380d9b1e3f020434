# A verified model of the rule compiler and the machinery around it

The repository is a Datalog engine. It compiles every rule into a tree of relational operators, rewrites rules before and
after that, runs the operators on several workers, reads and writes relations as files, and explains derived rows. This
project states in Dafny what those parts compute, in the shape of the source, and proves it against one meaning: the rows a
rule derives are the head images of the valuations that satisfy its body.

`dafny verify dfyconfig.toml` checks everything.

## How it is laid out

* `Datalog`, `WordLaws`, `Catalogs`, `Flows`, `Operators` - atoms, comparisons and wrap-around arithmetic, and the laws of that
  arithmetic; column signatures; the operator algebra and what each operator computes.
* `JoinTrees`, `CoreAtoms`, `AtomPlans`, `Planner`, `RulePlans`, `RuleCompiler` - the planner: core atoms, semijoin and
  antijoin chains, the recursive peeling of a join tree with its two activity bitmaps, and whole rules.
* `SpanningTrees`, `Prim`, `MaximumTrees`, `Permutations`, `Optimizer`, `Measures` - the join-tree optimizer, and what it
  measures.
* `Rules`, `RowPrograms`, `JoinExec` - a rule's own evaluation with calls and faults, the register machine its row-local
  part compiles to, and joins run with swapped sides and with the program fused in.
* `Bodies`, `Slices`, `Pushdown`, `PushdownExample`, `Sideways` - the two rule-to-rules rewrites.
* `Refusals`, `PlanJobs` - planning one rule: rewritten or not, and every rule of the rewrite compiled; which rules are
  refused, by their own literals, and what a rewrite does to a refusal.
* `Schedules`, `Fusion`, `Scopes` - the shared schedule, the fusion of joins with their only reader, and the assembly of
  plain groups and of recursive groups inside their scopes, where sideways slices are published.
* `Publishing`, `PublishingExample`, `Rounds` - which programs can be assembled, one that cannot, and what the rounds of a
  recursive group compute.
* `Explainer` - the backtracking search for witnesses.
* `FlatRows`, `Settlement`, `Decimals`, `InputFiles`, `Lines`, `Merging` - rows stored flat, signed weights, and
  files: how they are read, and what a file says line by line.
* `Types`, `TypeFaults`, `Workers` - type inference and the type check, what a refused rule does wrong, and the worker
  protocol.

A relation is a set of rows, a row a sequence of 64-bit integers; constants have already been lowered to cells. An outcome
of a solution is a row, a drop, or a fault. "Spans" says a join tree has exactly the core atoms as nodes. "Staged" says a
database holds a slice's rows under the slice's name and everything else unchanged. A group is what the stratifier plans
together; "seen" is what was scheduled outside a recursive group, with sharing. A collection that is missing where it is
looked up is a panic in the source, and `None` here.

## What was found

* The planner panics on some rules that pass validation: a comparison whose variables all lie inside a negated atom is
  pushed down to that atom, and `top_down_trace_negated` cannot trace a variable standing behind a constant or a wildcard.
  Planning is refused exactly when some negated atom has no variable (validation refuses that) or has such a comparison:
  `RulePlans.FromCatalog` and `RulePlans.CompileRule` state it both ways, `RulePlans.RefusedBehindConstant` is the
  rule `out(x) :- p(x), !n(1, x), x > 0`.
* A recursive group that holds sideways slices can panic when its scope is assembled. A slice is no iterative variable and
  is not brought into the scope; only the branch for a join to rows publishes it, under its head name, for the rules that
  read it. So a slice whose rule has one atom, or ends in a row program, is never published, nor is one whose root was
  scheduled outside already. `Publishing.BuildProgram` gives the exact condition on the rules: assembly goes through if
  and only if in every recursive group every slice that is read comes from a rule whose root is a join to rows and, with
  sharing, is no operator of an earlier plain group. `PublishingExample.SliceNeverPublished` and `.BuildSip` are the
  rule `H(x, y, z) :- H(x, w, q), A(w, v), B(v, y), C(z), z > 0`, whose forward slice over `C` has one atom: assembly
  fails, with sharing and without, though everything was planned in order.
* Pushdown can make a refused rule plannable: a cut may part a negated atom from the comparison it is refused for, because
  the atom moves to the slice and the comparison, which can fault, stays, or the comparison moves and the atom stays.
  `PlanJobs.PlanCut` says exactly when a refusal is left. Passing a rule sideways never changes a refusal.
* Filter pushdown never adds a fault but can remove one: a prefilter drops a row that an earlier call would have faulted
  on. `PushdownExample.PrefilterHidesFault` is the rule `h(x) :- p(x, y), q(y, z), r(z, w), u = g(x), f(x, z)` with
  `p(1, 2)`, `q(2, 3)`, `r(3, 4)`, `f(1, 3)` false and no value for `g`: it faults, and cut it ends without fault or row.
  `Pushdown.PushDownFilterCalls` gives the exact condition over all cuts. The rows are the same either way.
* A plan tree's `is_acyclic` is a property of the tree, not of the rule, when the default chain is chosen:
  `Optimizer.ChainMissesJoinTree` has the rule body `a(x, y), b(y, z), c(x, w)`, planned without optimizing, reported as
  cyclic. Of a Prim tree it is true exactly when
  the rule has a join tree (`MaximumTrees.PrimDecidesAcyclicity`).
* In `cut_once` the branch for an empty list of kept variables is never taken: the filter that made the prefix useful
  reads one of its variables.
* `WorkerSet::run` keeps its own sender alive while it waits, so its channel cannot report a disconnection; the model has
  no step for that branch.

## Model

| member | source | states |
|---|---|---|
| RuleCompiler.Compile | src/planning/src/rule.rs:46-117 | Over every database and all embedded functions, the compiled rule ends in a head row, a drop or a fault exactly when some solution of the rule's body does; planning is refused exactly when a negated atom cannot be traced. The plan joins as a tree the optimizer picks for the rule, with or without optimization as asked. |
| RulePlans.CompileRule | src/planning/src/rule.rs:46-117 | The same over every tree spanning the core atoms, not only the one the optimizer picks; the plan joins as that tree. |
| RulePlans.FromCatalog | src/planning/src/rule.rs:46-117 | The planned tree's rows are exactly the projections of the relational solutions; every subsumed atom and negation is consumed, so the closing assertions hold; refused if and only if some negated atom is. |
| RulePlans.RefusedBehind | src/catalog/src/rule.rs:872-901 | Any comparison inside a negated atom that reads a variable behind a constant or wildcard makes the planner refuse the rule. |
| RulePlans.RefusedBehindConstant | src/catalog/src/rule.rs:888-899 | A concrete safe rule that is refused. |
| Planner.RecursiveTransformations | src/planning/src/rule.rs:119-388 | A planned subtree computes what its atoms, the active atoms they subsume, the negations and comparisons they bind enforce - no more and no less - in the layout asked for, and clears exactly those bits of the two bitmaps. Its operators join as the tree does: at every node the last child's side to what is left of the node. |
| Planner.PerAtomRecursiveSemijoinsAndAntijoins | src/planning/src/rule.rs:390-507 | A leaf with its semijoins and antijoins computes its node's goal, consumes exactly what its variables contain, and is refused exactly when one of its negations is. |
| Planner.AttachNegatedAtomsOnJoins | src/catalog/src/rule.rs:284-311 | Takes exactly the active negated atoms that both sides bind together and neither binds alone. |
| Planner.PartitionComparisonPredicates | src/catalog/src/rule.rs:245-281 | Every comparison goes to each side that binds it, and stays at the join exactly when neither does. |
| Planner.NodeGoalDivides | src/planning/src/rule.rs:253-388 | The goals of the two sides, the fused comparisons and the attached negations together are the node's goal: nothing is enforced twice or dropped. |
| Planner.NodeRefuses | src/planning/src/rule.rs:119-388 | A node is refused exactly when a side or an attached negation is. |
| AtomPlans.RecursiveAntijoins | src/planning/src/rule.rs:509-634 | A chain of re-keyed antijoins keeps exactly its base's solutions that no negated atom matches, whatever comparisons already filtered the negated sides. |
| AtomPlans.RecursiveSemijoins | src/planning/src/rule.rs:637-771 | A chain of semijoins enforces its atom, every subsumed atom and the comparisons. |
| AtomPlans.TopDownTraceNegated | src/catalog/src/rule.rs:872-901 | Succeeds if and only if no constant or wildcard stands before a wanted variable's first occurrence, and then traces to columns of those variables. |
| Operators.JoinComputes | src/planning/src/flow.rs:180-239 | A join of two sides that share exactly their key variables computes both goals and the fused comparisons. |
| Operators.AntijoinComputes | src/executing/src/jn.rs:276-288 | Subtracting at the level of whole records and projecting afterwards keeps exactly the solutions the negated atom does not match. |
| Operators.NegatedKey | src/planning/src/rule.rs:509-634 | Filtering the negated side by comparisons the solution already satisfies removes no key that matters. |
| Operators.LeafGoal | src/planning/src/flow.rs:113-178 | A base atom with its constants, repeats and comparisons computes exactly its matching valuations. |
| Operators.NoOpKeepsRows | src/planning/src/transformations.rs:217-228 | What the planner marks a no-op passes every row unchanged. |
| Catalogs.TraceFront | src/catalog/src/rule.rs:835-869 | A variable's first occurrence in a prefix of the pre-order is its first occurrence in the whole. |
| CoreAtoms.PopulateIsCoreAtomBitmap | src/catalog/src/rule.rs:762-796 | Clears exactly the atoms a larger atom, or an equal earlier one, contains. |
| CoreAtoms.SubsumedByCore | src/catalog/src/rule.rs:762-796 | Every atom that is not core is contained in a core atom. |
| CoreAtoms.CoreIsOnly | src/catalog/src/rule.rs:762-796 | The core atoms are the one choice of atoms in which every atom lies, none of which contains another, and which keeps the first of equal ones. |
| CoreAtoms.CoreAntichain | src/catalog/src/rule.rs:762-796 | No core atom has all of another core atom's variables. |
| JoinTrees.PreOrderTruncated | src/planning/src/rule.rs:253-313 | Peeling off the last child cuts the pre-order in two. |
| Optimizer.FromCatalog | src/optimizing/src/optimizer.rs:76-249 | The chosen tree spans exactly the core atoms and its subtree entries are pre-orders. It is the first with the least (width, depth) among the considered trees: the default chain, from the last core atom down to the first, and, when optimizing, every reordering of the one Prim tree of every root. Without optimizing it is the chain. |
| Optimizer.ChooseTree | src/optimizing/src/optimizer.rs:94-228 | The first best of the candidates; each is the default chain or a Prim tree, and when optimizing every root's Prim tree is there in every reordering. |
| Optimizer.DefaultChain | src/optimizing/src/optimizer.rs:107-133 | The last core atom is the root, and each core atom hangs below the next one. |
| Measures.WidthIs | src/optimizing/src/optimizer.rs:293-371 | A tree's width is the most distinct variables any of its joins keeps - those both sides have, and those of either side that the rest of the tree or the head reads. |
| Measures.DepthIs | src/optimizing/src/optimizer.rs:273-290 | The depth is the length of a longest way down from the root. |
| Measures.ChosenIsNarrowest | src/optimizing/src/optimizer.rs:204-225 | No tree considered has a smaller width in that sense than the chosen one, nor the same width and a smaller depth. |
| Optimizer.PopulateSubtree | src/optimizing/src/optimizer.rs:51-74 | The memo holds each node's pre-order, whatever order it is filled in. |
| Optimizer.MakePlan | src/optimizing/src/optimizer.rs:32-35 | The overlap never exceeds the maximum. A plan counts as acyclic exactly when its tree is a join tree; if Prim's algorithm grew the tree, exactly when the rule has a join tree at all. |
| Optimizer.ChainMissesJoinTree | src/optimizing/src/optimizer.rs:107-133 | Whatever FromCatalog chooses for the atoms a(x, y), b(y, z), c(x, w) without optimizing is reported as cyclic, though their core has a join tree. |
| SpanningTrees.OverlapBound | src/optimizing/src/optimizer.rs:238-248 | Edge overlaps sum to at most the repeated variable occurrences, with equality exactly when every variable's atoms are connected in the tree. |
| SpanningTrees.SpansNodes | src/optimizing/src/optimizer.rs:147-199 | The tree grown edge by edge has exactly the grown nodes in its pre-order. |
| SpanningTrees.PermutedIsTree | src/optimizing/src/optimizer.rs:252-271 | Reordering children keeps the edges. |
| Prim.SpanFrom | src/optimizing/src/optimizer.rs:147-199 | The heap loop ends with a tree rooted where it began that spans exactly the core atoms, and with the sum of its edges' overlaps; every node took the greatest of all edges offered to atoms outside the tree, in the heap's order of overlap, depth and ids. |
| Prim.PrimUnique | src/optimizing/src/optimizer.rs:158-199 | For each root there is only one such tree. |
| MaximumTrees.PrimIsMaximum | src/optimizing/src/optimizer.rs:147-199 | It is a maximum spanning tree: no tree over the core atoms, from any root, overlaps by more. |
| MaximumTrees.PrimDecidesAcyclicity | src/optimizing/src/optimizer.rs:32-35 | Prim's tree reaches the maximal overlap if and only if some tree keeps the atoms of every variable connected, and then it is such a tree itself. |
| Permutations.TreePermutations | src/optimizing/src/optimizer.rs:252-271 | The list holds every tree with the same children in some order, and no other tree. |
| RowPrograms.FromRule | src/planning/src/calls.rs:80-191 | A rule has a program exactly when it needs one; on every solution the program gives the head row, drop or fault of evaluating calls, computed comparisons and head over names; results are read only after they are written. |
| RowPrograms.Builder.Expression | src/planning/src/calls.rs:301-316 | An expression is its one operand's place or one new step that computes it. |
| RowPrograms.CompileBody | src/planning/src/calls.rs:80-191 | The calls in order and then the comparisons over their results are followed step by step on every input. |
| RowPrograms.EvaluateAs | src/executing/src/map.rs:332-456 | The interpreter over a reused results buffer computes what the program means on the row its columns make up, stored or read in place. |
| WordLaws.PlusLaws | src/executing/src/map.rs:434-456 | Addition of 64-bit values is commutative, with 0 neutral. |
| WordLaws.PlusAssociates | src/executing/src/map.rs:434-456 | It is associative, wrap-around included. |
| WordLaws.PlusOne | src/executing/src/map.rs:434-456 | Adding 1 gives the successor, and the least value after the greatest. |
| WordLaws.MinusLaws | src/executing/src/map.rs:434-456 | Subtraction undoes addition and addition subtraction: what is subtracted is the right operand. |
| WordLaws.MultiplyLaws | src/executing/src/map.rs:434-456 | Multiplication is commutative, with 1 neutral. |
| WordLaws.MultiplyDistributes | src/executing/src/map.rs:434-456 | It distributes over addition. |
| WordLaws.DivideLaws | src/executing/src/map.rs:434-456 | By any divisor but 0, quotient times divisor plus remainder is the dividend; the remainder is smaller than the divisor and 0 or of the dividend's sign; only the least value by -1 wraps. |
| WordLaws.QuotientUnique | src/executing/src/map.rs:434-456 | No other quotient and remainder do that. |
| WordLaws.ApplyDefined | src/executing/src/map.rs:434-456 | Arithmetic fails exactly on a zero divisor, and otherwise stays in 64 bits. |
| WordLaws.EvaluateLast | src/executing/src/compare.rs:25-33 | One more term applies its operator to the value of the expression before it, with that value on the left. |
| WordLaws.CompareLaws | src/executing/src/compare.rs:14-23 | Exactly one of less, equal and greater holds; the other three comparisons are their complements. |
| WordLaws.LessLaws | src/executing/src/compare.rs:14-23 | Every value but the greatest is less than its sum with 1; less is transitive. |
| RowPrograms.FollowsComparison | src/planning/src/calls.rs:80-191 | A compiled comparison drops and faults as the comparison over names does. |
| RowPrograms.NoProgram | src/planning/src/calls.rs:80-191 | A rule without a program derives the projection of its solution. |
| JoinExec.FlipTwice | src/planning/src/flow.rs:36-46 | Flipping a flow is its own inverse. |
| JoinExec.FlipEvaluate | src/planning/src/arithmetic.rs:89-104 | With the sides swapped, a flipped expression has the same value or the same zero divisor. |
| JoinExec.FlipJoins | src/executing/src/dataflow.rs:184-190 | Swapping the sides and flipping the flow gives the same verdicts and the same record. |
| JoinExec.SidesSuffice | src/executing/src/compare.rs:86-102 | Once the wider side is on the left, every column a fitting flow reads is supplied, so no lookup panics. |
| JoinExec.JoinFlowFits | src/planning/src/flow.rs:180-239 | The planner's join flows read only columns the two sides have, keys from the left. |
| JoinExec.JoinPair | src/executing/src/jn.rs:18-235 | Swap, comparisons and the extractor of the columns there are give, for every pair, the row the flow says of the sides as they came. |
| JoinExec.ViewIsRow | src/executing/src/jn.rs:577-610 | The view a fused program reads is the row the join would have made. |
| JoinExec.JoinAndRun | src/executing/src/jn.rs:613-700 | A program fused into a join does exactly what it does after the materialized join. |
| JoinExec.JoinRuns | src/executing/src/jn.rs:56-78 | A join operator's records are the rows its pairs make, cut after the key columns. |
| JoinExec.ProjectSurvivor | src/executing/src/jn.rs:254-313 | A surviving antijoin record is projected as the flow lays it out. |
| Pushdown.PushDownFilterCalls | src/planning/src/pushdown.rs:46-58 | Cutting ends, and succeeds exactly when some filter can run before the last join. Once the slices are staged the final rule derives exactly the rule's rows; it faults exactly when some faulting solution of the rule passes the filters of every slice; no slice faults. |
| Pushdown.CutOnce | src/planning/src/pushdown.rs:107-253 | There is a cut exactly when some filter not pushed yet needs a useful prefix; every cut pushes such a filter, after the fewest atoms any such filter needs: core atoms among them go to the slice with every subsumed atom they bind, the other core atoms stay. |
| Pushdown.CutRefines | src/planning/src/pushdown.rs:107-253 | The cut rule derives exactly the rule's rows; it faults exactly when some faulting solution passes the prefilters; the slice never faults. |
| Pushdown.CutSound | src/planning/src/pushdown.rs:107-253 | Every outcome of the cut rule is one of the rule's. |
| PushdownExample.PrefilterHidesFault | src/executing/src/map.rs:370-392 | A well-shaped rule, its cut, functions and a database: the rule faults, the slice and the rest do not, and nothing is left to derive. |
| PushdownExample.AnyCutHidesFault | src/planning/src/pushdown.rs:107-253 | The same for whatever cut is made of a rule of that shape, over all functions and databases on which the filter is false and the other call has no value. |
| Pushdown.FindBest | src/planning/src/pushdown.rs:107-253 | The shortest useful prefix of core atoms over all filters not pushed yet. |
| Pushdown.UsefulMeans | src/planning/src/pushdown.rs:125-153 | A prefix is useful exactly when it binds the arguments, no shorter one does, it holds two core atoms, and a core atom comes after it. |
| Pushdown.SafeComparison | src/planning/src/pushdown.rs:81-88 | A comparison that cannot fault by its text never does. |
| Pushdown.RefinesStep | src/planning/src/pushdown.rs:46-58 | One more cut keeps the rows, and keeps the rest's solutions those of the rule that pass every filter so far. |
| Sideways.Sideways | src/catalog/src/rule.rs:519-612 | Evaluating the forward slices, the backward slices and the final rule ends every row - derived, dropped or faulted - as the rule does; slices and final rule are well shaped, and read only the rule's relations and earlier slices; every negation ends in a slice or in the final rule together with all comparisons over its variables. The final rule's core atoms are semijoined both ways, as BothPasses says. |
| PlanJobs.SidewaysPlans | src/planning/src/program.rs:309-345 | The slices' compiled plans run in order, and then the compiled final rule's, end every row as the rule does. |
| PlanJobs.PlanRule | src/planning/src/program.rs:309-345 | A rule with more than two core atoms is passed sideways when that is wished and else not, and its slices and final rule are then semijoined both ways; its trees are the optimizer's choices, optimized when that is wished. Passed or not, its plans end every row as it does, and planning is refused exactly when the rule as written is. |
| PlanJobs.PlanCut | src/planning/src/program.rs:363-395 | A rule cut at its filters, its slices and rest planned as written: the plans derive exactly the rule's rows, with the faults of PushDownFilterCalls. Planning is refused exactly when some refused negated atom has no variable or is put in the same rule as a comparison it is refused for, which takes a rule refused as written. |
| Refusals.RefusedIs | src/catalog/src/rule.rs:872-901 | A rule is refused exactly when its body has a negated atom without variables, or one that a comparison over its variables cannot be traced through; comparisons over computed values never matter. |
| Refusals.SidewaysRefuses | src/catalog/src/rule.rs:392-612 | Some rule of a sideways rewrite is refused if and only if the rule is. |
| Refusals.CutRefuses | src/planning/src/pushdown.rs:160-200 | After all cuts a rule is refused if and only if a refused atom and its offender went to the same rule: the first slice whose atoms bind them without faults, or the last rule. |
| Pushdown.TestsStep | src/planning/src/pushdown.rs:160-200 | One more cut keeps every negation and comparison in exactly one place: the first slice that could take it, or the rest. |
| Sideways.Reducer | src/catalog/src/rule.rs:392-516 | Every reducing slice keeps the rule's meaning while it takes over atoms and negations. After a pass, of any two core atoms that share a variable, every row the later one's relation is left with agrees on the shared variables with a row the earlier one's has by then. |
| Sideways.ReduceAtom | src/catalog/src/rule.rs:392-516 | Reducing a core atom makes one slice that takes over what the atom binds and holds every earlier core atom that shares a variable with it, masked to its variables; the atom is left as it is only if there is no such earlier atom and nothing to take over. |
| Sideways.SliceSemijoins | src/catalog/src/rule.rs:460-490 | Wherever the reduced atom holds, some row of the earlier atom agrees on the shared variables. |
| Sideways.AgreesHolds | src/catalog/src/rule.rs:473-490 | For an earlier atom without repeated variables, that is a valuation with the shared values on which it holds. |
| Sideways.JoinedStep | src/catalog/src/rule.rs:392-516 | One more slice keeps every pair visited so far semijoined, and adds the pairs of its own atom. |
| Sideways.PassesJoin | src/catalog/src/rule.rs:519-612 | The two passes together: both directions, over every database the slices are staged on. |
| Sideways.BothPasses | src/catalog/src/rule.rs:519-612 | After both passes the reductions still preserve the rule, and no subsumed atom is active. Of any two core atoms that share a variable, every row of the earlier one's final relation agrees with a row of the later one's final relation, and every row of the later one's with a row the earlier one had after the forward pass. |
| Sideways.SliceKeepsSolutions | src/catalog/src/rule.rs:392-516 | A solution of the body satisfies every slice, so reducing drops none. |
| Sideways.SliceImpliesTaken | src/catalog/src/rule.rs:392-516 | What a slice took over holds of every row that joins with it. |
| Sideways.FinalPreserves | src/catalog/src/rule.rs:519-612 | The final rule, without subsumed atoms and consumed negations, ends every row as the rule does. |
| Sideways.AllConsumed | src/catalog/src/rule.rs:519-612 | A pass over all core atoms leaves no subsumed atom active. |
| Bodies.BodyAgrees | src/catalog/src/rule.rs:392-516 | Whether a body holds, and what it derives, depends only on the variables it reads. |
| Schedules.Scheduler.ConstructNonRecursive | src/planning/src/strata.rs:103-139 | A tree's plan computes every input before it is read and leaves the root available; with sharing nothing is scheduled twice and exactly the plan's outputs are marked. |
| Schedules.Scheduler.ConstructRecursive | src/planning/src/strata.rs:140-195 | The same inside a recursive group, given the collections it brings into the scope: leaf relations and what was scheduled outside. |
| Schedules.PlanProgram | src/planning/src/strata.rs:25-101 | Every group's plan stands where its inputs are available - input relations, what earlier groups leave and computed and, inside a recursive group, what it derives itself - and reaches every rule's root. A recursive group schedules nothing again that was scheduled outside and, if its slices are read only by later rules, schedules a slice's root before every operator that reads the slice unless that root was scheduled outside. |
| Schedules.SharingIsCorrect | src/planning/src/strata.rs:103-139 | Given that equal signatures denote equal subtrees, executing a shared plan gives every signature its own tree's value. |
| Schedules.GroupComputes | src/planning/src/strata.rs:25-101 | A planned group run over correct collections for all it may read gives every rule's root the value of the rule's own tree. |
| Fusion.CountConsumers | src/executing/src/dataflow.rs:64-85 | Counts every read of a collection by operators, heads and entering scopes. |
| Fusion.OnlyReader | src/executing/src/dataflow.rs:192-215 | A collection counted once has no reader but the one found. |
| Fusion.AssembleGroup | src/executing/src/dataflow.rs:92-290 | Fusing joins with their programs builds everything anything else reads. Every operator leaves its collection, except exactly the joins to rows whose only reader is the row program right after them, where the pair can be fused. |
| Scopes.EnterScope | src/executing/src/dataflow.rs:298-346 | Entering fails exactly when something brought in is neither built outside nor iterated on; slices and the group's own relations are not brought in. |
| Scopes.RunScope | src/executing/src/dataflow.rs:348-486 | The scope's operators are built in order, joins to rows publishing the slices they are the roots of; it fails exactly when an operator misses an input. |
| Scopes.AssembleScope | src/executing/src/dataflow.rs:274-520 | A recursive group is assembled exactly when nothing is missing on entering, running or collecting, and only the relations it iterates on leave it. |
| Scopes.NestIs | src/executing/src/dataflow.rs:348-486 | A scope holds exactly what was brought in, what its operators made, and the slices published by then. |
| Scopes.ScopeExact | src/executing/src/dataflow.rs:274-520 | A planned scope misses nothing if and only if every slice an operator reads has a join to rows, the root of a rule deriving it, earlier in the group's plan. |
| Scopes.Assemble | src/executing/src/dataflow.rs:92-520 | Over the whole program assembly goes through if and only if this holds in every recursive group; then every root outside a scope and every relation derived is built, fused pairs leaving out only what nothing else reads. |
| Publishing.SlicesExact | src/planning/src/strata.rs:140-195 | In a planned recursive group every slice is published before it is read if and only if every slice a rule reads has a root that is a join to rows and was not scheduled outside. |
| Publishing.OutsideIs | src/planning/src/strata.rs:103-139 | With sharing, what is scheduled outside a recursive group is exactly every subtree of every rule of the plain groups before it. |
| Publishing.OutsideFresh | src/planning/src/strata.rs:140-195 | What was computed outside reads nothing a later group derives, as the stratification has every relation's rules planned before or with its readers. |
| Publishing.ProgramExact | src/executing/src/dataflow.rs:447-470 | The plans' slices are published in time if and only if the program's rules have the property BuildProgram names. |
| Publishing.BuildProgram | src/executing/src/dataflow.rs:92-520 | Planning and assembling go through, and build every relation, if and only if in every recursive group every slice that is read comes from a rule whose root is a join to rows and, with sharing, is no operator of an earlier plain group. |
| Publishing.UnpublishedSlice | src/executing/src/dataflow.rs:447-470 | One slice that is read, and has another root or one shared with an earlier plain group, makes assembly fail. |
| PublishingExample.SipWellFormed | src/planning/src/strata.rs:25-101 | The sideways rewrite of a recursive rule with a one-atom slice, as operator trees, meets everything planning and assembly ask for. |
| PublishingExample.SliceNeverPublished | src/executing/src/dataflow.rs:447-470 | That program cannot be assembled, with sharing or without. |
| PublishingExample.BuildSip | src/executing/src/dataflow.rs:348-362 | Assembling it gives nothing. |
| Rounds.ScopeIsCorrect | src/executing/src/dataflow.rs:348-486 | Every collection of a scope is the value of its tree, and every slice published holds the value of its rule's tree. |
| Rounds.SlicedIs | src/executing/src/dataflow.rs:447-470 | Over the values given to the relations, the slices' values are well defined: each is its own rule's, the slices that rule reads included. |
| Rounds.RoundComputes | src/planning/src/strata.rs:140-195 | In every round of a recursive group that can be assembled, whatever its relations hold by then, building its operators in order and publishing its slices gives every root the value of the rule's tree over them, each slice holding its own rule's value, though collections computed outside are reused. |
| Explainer.WitnessOf | src/executing/src/explain.rs:162-305 | Parents of a solution that derives the row, or no such solution exists, or some full match faults. |
| Explainer.Search.SearchFrom | src/executing/src/explain.rs:308-382 | The indexed backtracking search decides what the naive search over full scans decides, and restores its bindings and parents. |
| Explainer.Search.IndexOf | src/executing/src/explain.rs:108-123 | A lazily built index answers every probe as a full scan, in row order. |
| Explainer.Search.Forbidden | src/executing/src/explain.rs:389-408 | The lookup of a negated atom finds a row exactly when one matches. |
| Explainer.NaiveReaches | src/executing/src/explain.rs:308-382 | A search that ends in a witness or a fault ends in a full match judged so. |
| Explainer.NaiveMisses | src/executing/src/explain.rs:308-382 | A search that finds nothing leaves no solution that derives the row. |
| Explainer.NaiveAnswers | src/executing/src/explain.rs:162-305 | Soundness and completeness of the naive search from the head's bindings. |
| Settlement.Settle | src/executing/src/runner.rs:418-442 | Flushing every worker's capture and consolidating gives, strictly sorted and once each, exactly the rows whose captured weights sum to more than zero. |
| Settlement.Consolidate | src/executing/src/runner.rs:418-442 | However the batches are paired and wherever weights cancel, the positive rows are exactly those with a positive total. |
| Settlement.MergeBatches | src/executing/src/runner.rs:444-480 | Two settled batches merge to a settled one with every row's weights added. |
| Settlement.StepMerges | src/executing/src/runner.rs:444-480 | Each step of the merge conserves every row's weight and the order. |
| Settlement.Flush | src/reading/src/inspect.rs:125-148 | A published batch is strictly sorted without zero weights and has every row's captured weight. |
| FlatRows.Rows.Push | src/executing/src/rows.rs:75-83 | Appends a row to the flat cells; an empty row is held once. |
| FlatRows.Rows.BinarySearch | src/executing/src/rows.rs:96-108 | Finds a stored row, or the place that keeps the order. |
| FlatRows.Rows.SortDedup | src/executing/src/rows.rs:115-130 | Leaves the same rows sorted, each once. |
| FlatRows.FlatRow | src/executing/src/rows.rs:69-73 | Row i is the i-th stretch of cells, for every arity including zero. |
| Decimals.ParseDecimal | src/reading/src/reader.rs:101-124 | Accepts exactly the spellings of at most 19 digits in range, gives their value, and never overflows its accumulator. |
| Decimals.ParseNumberCell | src/reading/src/reader.rs:74-95 | The fast path and its fallback together are the standard parser. |
| Decimals.PrintedParses | src/reading/src/reader.rs:74-124 | Every 64-bit number, the least included, parses back from its print. |
| InputFiles.ByteRangeReader | src/reading/src/reader.rs:233-251 | Moves a byte range to line boundaries. |
| InputFiles.ReadPartition | src/reading/src/reader.rs:177-228 | Reads exactly the lines whose first byte is in the range. |
| InputFiles.ParallelIsSerial | src/reading/src/reader.rs:177-251 | For any number of readers, their rows in order are the serial reader's, or its first refusal; `Lines.SerialReads` says what those are. |
| Lines.SerialReads | src/reading/src/reader.rs:177-228 | Over the lines between newlines, a carriage return at a line's end removed: with columns, the file is refused for its first line that is not empty and has another number of cells or a cell that spells no 64-bit number; without such a line its rows are the non-empty lines' cells, in order. Without columns every line is one empty row. |
| Lines.RefusedExactly | src/reading/src/reader.rs:67-95 | A file with columns is refused if and only if some line is bad in that sense; one without columns never is. |
| Lines.RowIs | src/reading/src/reader.rs:266-298 | A line is parsed to a row exactly when its cells, the texts between its delimiters, are as many as the columns and spell the row. |
| Lines.BareIs | src/reading/src/reader.rs:213-215 | One carriage return at the end of a line is no part of it. |
| Lines.ParseSpells | src/reading/src/reader.rs:74-95 | A cell spells a number exactly as decimal digits with at most one plus or minus sign before them, which negates it or does not, in the 64-bit range. |
| Lines.NumberConcat | src/reading/src/reader.rs:101-124 | A digit is its distance from the digit zero, and digits before others count for as many powers of ten more. |
| Lines.SpelledOnce | src/reading/src/reader.rs:74-95 | A cell spells at most one number. |
| Lines.SplitIs | src/reading/src/reader.rs:276-286 | A line is split into the cells that, joined by the delimiter, make it up. |
| InputFiles.SerialConcat | src/reading/src/reader.rs:177-228 | Data cut at a line boundary reads as its parts in order. |
| InputFiles.WriteRelation | src/executing/src/files.rs:215-254 | Writes one line per row, cells joined by the delimiter. |
| InputFiles.RoundTrip | src/executing/src/files.rs:215-254 | Rows over the full 64-bit range read back as written, with any delimiter that is no digit, minus sign or newline. |
| Merging.Pair | src/executing/src/merge.rs:46-79 | Merges two sorted runs into one with the same rows, each once. |
| Merging.Sorted | src/executing/src/merge.rs:14-44 | Merges any number of runs by halves. |
| Merging.ReadSortedFile | src/executing/src/files.rs:78-110 | Whatever the number of workers, the state is the serial reader's rows sorted and distinct, or its first refusal; and, of the lines of the file, the rows the non-empty lines spell, strictly sorted, if no line is bad, and otherwise a refusal for the first bad line. |
| Merging.SettledReads | src/executing/src/files.rs:78-110 | The serial reader's rows, sorted and distinct, are that of the lines. |
| FlatRows.SortedUnique | src/executing/src/files.rs:78-110 | Two strictly sorted lists of the same rows are one list, so the state does not depend on how it was reached. |
| FlatRows.FirstDifference | src/executing/src/rows.rs:95-108 | A row is less than another exactly when it has the smaller cell where they first differ, or is a shorter beginning of it. |
| Merging.WriteThenRead | src/executing/src/files.rs:215-254 | A relation written and read by any number of workers is the relation. |
| Types.InferTypes | src/parsing/src/validate.rs:522-594 | The loop ends; it succeeds exactly when the program has a typing, and then gives the least one above the declarations. |
| Types.OrderIrrelevant | src/parsing/src/validate.rs:522-594 | The order of the rules changes neither the verdict nor the typing. |
| Types.TypeVariables | src/parsing/src/validate.rs:451-497 | Refuses exactly when a variable is typed two ways, and otherwise types exactly the variables a typed column or a call binds. |
| Types.ValidateProgram | src/parsing/src/validate.rs:34-52 | Refuses exactly when there is no typing or a rule fails the check under the least one; what it returns keeps the declared types. `TypeFaults.ProgramRefused` says what a rule that fails does wrong. |
| Types.CheckTypes | src/parsing/src/validate.rs:626-761 | Decides the check of one rule under complete column types, which `TypeFaults.RefusedExactly` says without the check's own terms. |
| TypeFaults.RefusedExactly | src/parsing/src/validate.rs:598-761 | A rule of the right shape over declared relations fails the check if and only if a constant or variable stands in columns that do not take it, or on some well-typed relations and functions some values of its variables make it misuse them: a comparison of a text with a number, an order, arithmetic, sum or extreme of texts, a call with a wrong argument, or an ill-typed row. |
| TypeFaults.ProgramRefused | src/parsing/src/validate.rs:34-52 | Some rule of a program fails the check if and only if some rule is faulty in that sense. |
| TypeFaults.FitsExactly | src/parsing/src/validate.rs:626-761 | On values of the types the check infers, a rule fits exactly when it misuses none of them. |
| TypeFaults.SomeLife | src/parsing/src/validate.rs:626-761 | Every rule whose constants and variables stand in columns that take them has well-typed relations, functions and values on which its atoms hold and its calls are answered. |
| Types.ProgramSound | src/parsing/src/validate.rs:626-761 | A program that passed, on well-typed inputs and functions, never derives an ill-typed row, in any order of derivation. |
| Types.RowSound | src/parsing/src/validate.rs:626-761 | Every row a checked rule derives has its relation's column types. |
| Types.ComparisonSound | src/parsing/src/validate.rs:598-761 | A checked comparison compares two values of a kind and orders only numbers; no arithmetic meets a symbol. |
| Types.CallSound | src/parsing/src/validate.rs:626-761 | A checked call is passed what its parameters ask for. |
| Types.AggregateSound | src/parsing/src/validate.rs:626-761 | What an aggregate sums or orders is a number. |
| Workers.OkMeansFlushed | src/executing/src/worker.rs:123-172 | In every interleaving, a run that returned Ok heard one report from each worker, each good and sent after all captures were flushed there. |
| Workers.ErrorHasReason | src/executing/src/worker.rs:123-172 | In every execution, a run that ended in an error was poisoned, stopped, missed a worker, or got a report that is not good. |
| Workers.HealthyEnds | src/executing/src/worker.rs:123-310 | From every reachable state in which the set is neither poisoned, stopped nor dropped, no worker is panicking or gone, and the run got no bad report, an unfinished run is led to Ok by enabled steps: its own, and the workers' building, draining, flushing and reporting. |
| Workers.PanicNeverOk | src/executing/src/worker.rs:283-310 | A run that a worker past its panic has told nothing good never returns Ok: in flight there, still queued there, or not yet sent there. |
| Workers.HeldIsLost | src/executing/src/worker.rs:283-310 | Such are all runs the worker still holds in any form, and all it was not sent. |
| Workers.PoisonedNeverOk | src/executing/src/worker.rs:123-172 | Once the flag is set, no unfinished run ever returns Ok, in any interleaving. |
| Workers.PanicEnds | src/executing/src/worker.rs:123-310 | From every reachable state with a panicked worker, every unfinished run comes to an error by a bounded number of its own steps, after at most two of that worker's; it needs no other worker. |
| Workers.StepsRunOut | src/executing/src/worker.rs:123-172 | Every own step of a run uses up its bound, in any state, and no other step touches it. |
| Workers.PoisonedEnds | src/executing/src/worker.rs:123-172 | With the flag set, an unfinished run - beginning, sending, waiting, deciding or polling - brings itself to an error without hearing from anyone. |
| Workers.StepKeeps | src/executing/src/worker.rs:193-310 | Every step of every worker and coordinator keeps: one token per worker and run, good reports only after flushing, coordinators know what their channels say. |
| Workers.TokenMoves | src/executing/src/worker.rs:193-310 | A worker's step moves its job, dataflow or owed report of a run along, or drops it; it never makes a second report. |

## Left out

- Stratification and recursion: a rule reads complete relations. Differential evaluation, frontiers and arrangements are not
  modelled; an operator is a function on sets.
- The per-arity code tables, and the thin and fat copies of the row code: one variable-width row stands for both.
- Text names of operators: equal signatures are taken to denote equal subtrees, and slice names to be new.
- RuleCompiler.Compile: a zero divisor in a relational comparison drops the row; that it also ends the evaluation with a
  diagnostic is modelled for row programs and the explainer only. Every row must be as wide as the atoms read it.
- RuleCompiler.Compile: the variable a program borrows when it reads nothing may be any variable of the body; the source takes
  the least.
- Pushdown.PushDownFilterCalls: functions used as filters are assumed to answer 0 or 1, as validation requires.
- Explainer.WitnessOf: aggregates, whose solutions the explainer counts per rule, and the choice among several rules.
- Explainer.Search.SearchFrom: after a fault the bindings are not restored, as in the source, where the search is over.
- Prim.SpanFrom: the root is taken directly, not through a first heap entry.
- Optimizer.FromCatalog: the order in which roots are explored is not stated, only that the first best is kept; the
  reorderings of one tree come in the order of a hash map in the source, and in one order here.
- Sideways.BothPasses: final relations of two core atoms need not agree in both directions, and that is not claimed: over
  a(x, y), b(x, z), c(y, w) with a = {(1, 1), (2, 2)}, b = {(1, 0)}, c = {(2, 0)}, the backward pass leaves a empty and b and c as
  they are. The rows of b and c agree with a's relation as the forward pass left it, which is what is proved.
- Sideways.SliceSemijoins: an earlier atom with repeated variables is matched row by row, on the shared variables and its
  constants only, if the atom was not reduced itself.
- PlanJobs.PlanCut: slices of several rules at one level are planned as one group; here one rule's slices run in order.
- Schedules.PlanProgram: operator trees are abstract, a signature over inputs; they are not tied to the planner's operators.
- Publishing.BuildProgram: that slices are read only by later rules of their group, that no two rules derive one slice, and
  that a group reads nothing a later group derives, is taken from the rewrite and the stratifier.
- PublishingExample.SliceNeverPublished: the rewrite's operator trees are written down, not computed by the planner's model.
- Rounds.RoundComputes: one round at a time; that rounds reach a fixed point is the dataflow library's part.
- Settlement.Consolidate: weights are unbounded integers; overflow of a machine word is not modelled.
- Settlement.Flush: the library's sort is modelled by insertion.
- FlatRows.Rows.SortDedup: likewise; an index array becomes the ordered list of rows.
- Merging.ReadSortedFile: ranges are read one after another; the threads that read them share nothing but the file.
- Decimals.ParseNumberCell: the standard library's parser is taken as a decimal spelling in the 64-bit range.
- InputFiles.RoundTrip: symbol columns, with their interning, empty texts and embedded delimiters.
- Types.ProgramSound: an aggregate's cell is any number; grouping is not modelled. Negated atoms and comparisons are left out
  of a derivation, which only allows more rows.
- TypeFaults.RefusedExactly: that arities agree and that negations, comparisons and calls read bound variables is assumed; other
  validation refuses the rest.
- Types.InferTypes: diagnostics are one refusal; head agreement of aggregates and relation arities are assumed.
- Workers.OkMeansFlushed: memory order of the flag, timing of waits, and the budget's reasons to stop; a step may happen at any
  time.
- Workers.PanicEnds: that threads are scheduled, and that a waiting coordinator wakes up, is left to the system and to its
  time-out.
- Sampling of limits, profiling, the daemon, the C interface, compilation of embedded code and the command line.
