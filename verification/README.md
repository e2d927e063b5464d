# Verified model of the SCIM server

A Dafny model of the parts of the server with the most state, branching and arithmetic, and
proofs of what they promise. `dafny verify dfyconfig.toml` checks the whole project.

- **Bulk requests** (`Bulk*.dfy`; section 3.7 of RFC 7644). Dependencies between operations are
  closed by a breadth-first search, the schedule comes from a counting loop that also breaks
  cycles, and the executor runs it: it defers references it cannot resolve yet, applies each
  deferred fixup when its producers have run, and rolls back failures until nothing that
  survives depends on anything that is gone. `BulkHandler.ProcessBulk` puts it all together.
  A run is also given as a relation between states (`BulkTrace.dfy`), which the executor object
  follows and about which the theorems on whole runs speak. `BulkSuccess.dfy` says when deferred
  references succeed, up to the groups of section 3.7.1 that name each other, and `BulkOutcomes.dfy`
  what operations wait for and answer in terms of the request.
- **Filters** (`Filter*.dfy`, `Sql.dfy`, `LikePattern.dfy`; section 3.4.2.2 of RFC 7644). Tokens
  are read by a recursive-descent parser object that writes SQL text with numbered
  placeholders. The text is read back by SQL's own precedence and evaluated in three-valued
  logic over rows, JSON collections and membership rows. `FilterFlags.dfy` and `FilterAccepts.dfy`
  say in literal terms what some of the tables in between come to.
- **PATCH on users** (`MultiValued.dfy`, `Patch*.dfy`; section 3.5.2 of RFC 7644). A loaded user's
  eight multi-valued attributes are edited in place, in arrays, compared with a deep clone and
  written under a version guard. One generic entry with an abstract key stands for all eight.
  `PatchEffects.dfy` says of each operation what it leaves.
- **Groups** (`Group*.dfy`). A member list in memory and the stored rows go through the same
  additions, replacements and removals, in a transaction. `GroupEffects.dfy` says of each operation
  what it leaves and when it is accepted.
- **Asynchronous requests** (`AsyncEvents.dfy`, `EventStore.dfy`). Dispatchers, workers, the reaper,
  the pruning service and restarts as freely interleaved steps, and the table's methods.
- **Paging** (`SortOrder.dfy`, `RootSearch.dfy`, `RootProjection.dfy`, `Cursors.dfy`; section 2 of
  RFC 9865). Searches over two sources, sorted and unsorted, and walks along cursors.

Ghost parameters and ghost state carry the history that theorems speak about (the states of a
run, fixups issued and handled). Tables that say what attribute and collection names mean, UUID,
time and base64 handling, signatures, and the outcome of every call into the store are
parameters, so every theorem holds whatever they are.

Where the code does less than one would expect, the model follows the code and a lemma says
exactly when the expectation holds:

- Two operations on one resource keep the client's order, in every request with the same methods
  and paths, exactly if the earlier one is a POST or no POST on the resource comes after it up to
  the later one (`BulkResourceOrder.ResourceOrderExactlyIf`). `BulkResourceOrder.Overtaking` is a request
  in which a PATCH overtakes an earlier one. A POST whose path has two segments is rejected when it
  runs, but the schedule looks at its path all the same.
- A reference that a bulk request stores is still there at its end unless a later operation of the
  same request changes the resource or deletes what it names (`BulkReferences.StoredUnlessTouched`).
- No survivor of a bulk run depends on a rolled-back bulkId if data name bulkIds only where the
  reference can wait (`BulkReferences.SettledAtTheEnd`). A POST that names one elsewhere is not
  revisited when the named resource is gone before it runs: a POST on `/Users` or `/Groups` is safe in
  every request exactly if it has no such reference (`BulkLate.NeverLateExactlyIf`).
- A negated comparison on an absent attribute is unknown to SQL. The negation of one condition
  selects what RFC 7644 says exactly if the resource has the attribute
  (`FilterParser.NegatedFilterSelects`). A whole filter selects what it should from all resources with
  at least certain attributes if under an odd number of negations there are only comparisons of them
  and conditions that absence does not leave open; and only then if its conditions are on different
  attributes and each can hold and fail there (`FilterMisses.AtLeastRightExactlyIf`).
  `title pr and not (title eq "x")` repeats an attribute, and is right for every resource
  (`FilterMisses.GuardedIsRight`). What single conditions and parts on different attributes can come
  to decides for every filter (`FilterMisses.RightExactlyIf`).
- A value path such as `emails[type eq "work"]` is accepted, with or without something compared after
  it, exactly if its bracket holds one clause of known sub-attributes (`FilterPaths.ValuePathExactlyIf`).
  Connectives in the bracket, which section 3.4.2.2 of RFC 7644 allows, are rejected
  (`FilterPaths.CompoundIsRejected`).
- A filtered PATCH without a sub-attribute keeps at most one primary entry exactly if it does not set
  `primary` only inside an object under an empty member name: the demotion test looks one object deep,
  the setter as deep as it goes, in any order of members (`PatchValues.UpdateKeepsOnePrimaryExactlyIf`).
- A sorted root search is right for every content of given sizes exactly if the page ends within the
  first 200, or neither source holds more than 200, or the page lies beyond the end, or is empty
  (`RootSearch.SortedPageIsRightExactlyIf`). Resources are projected before they are sorted, so if the
  requested attributes drop the one sorted by, only one of the sources may hold anything
  (`RootProjection.DroppedPageIsRightExactlyIf`).
- A FAILED event says that its operation did not succeed, in every run, exactly if the reaper never
  lists an event in flight, no report is lost and no restart comes between an operation and its
  report (`AsyncEvents.TruthfulExactlyIf`).

## Model

| member | source | states |
|---|---|---|
| BulkRequest.CollectProducers | internal/handler/bulk.go:129-146 | the loop that keeps, for each declared bulkId, the first operation declaring it |
| BulkRequest.ProducersAreFirst | internal/handler/bulk.go:137-144 | a bulkId's producer is the earliest operation that declares it, and every declared bulkId has one |
| BulkRequest.DeclaringIsPost | internal/handler/bulk.go:137-139 | an operation that declares a bulkId is a POST for the executor as well, although one side trims the method and the other does not |
| BulkClosure.Search | internal/handler/bulk.go:251-270 | the breadth-first search visits exactly what can be reached from its start |
| BulkClosure.ComputePostProducerClosure | internal/handler/bulk.go:231-271 | the table holds, for every producer, exactly the producers it depends on directly or not |
| BulkClosure.ClosureTableIsClosure | internal/handler/bulk.go:231-271 | every producer has an entry that contains itself and only operations of the request that declare a bulkId |
| BulkClosure.ReachSetIsClosed | internal/handler/bulk.go:251-270 | what is reachable is closed under dependencies and within any closed set around the start |
| BulkOrder.AddEdge | internal/handler/bulk.go:292-299 | an edge is entered at most once and raises the target's counter with it, so counters stay the number of waits |
| BulkOrder.BuildGraph | internal/handler/bulk.go:278-332 | after all edges each counter is the number of operations waited for, and the lists of dependents are the inverse |
| BulkOrder.Choose | internal/handler/bulk.go:345-369 | the operation picked is the earliest ready one, else the earliest unscheduled POST, else the earliest unscheduled one |
| BulkOrder.Release | internal/handler/bulk.go:371-378 | every counter becomes the number of waits still unscheduled; no counter is at zero before it is lowered, so the guard never matters |
| BulkOrder.Step | internal/handler/bulk.go:341-379 | one round schedules one more operation and keeps counters equal to unscheduled waits |
| BulkOrder.ComputeBulkExecutionOrder | internal/handler/bulk.go:273-382 | the schedule is the one the greedy rule determines, also through the shortcut for few operations or no producers |
| BulkOrder.EveryOperationOnce | internal/handler/bulk.go:273-382 | the schedule is a permutation of the request |
| BulkOrder.WaitsAreWellFormed | internal/handler/bulk.go:278-332 | an operation never waits for itself, and waits for a later one only if that is a POST, so cycles run through POSTs |
| BulkOrder.DependenciesRunFirst | internal/handler/bulk.go:278-379 | an operation other than a POST runs after the whole dependency closure of every declared bulkId it names, whatever cycles there are |
| BulkOrder.AcyclicDependenciesRunFirst | internal/handler/bulk.go:278-379 | without circular waits the same holds for POSTs |
| BulkResourceOrder.ResourceOrderKept | internal/handler/bulk.go:301-379 | an operation on a resource runs before a later one on it if it is a POST, or if none that follows it on the resource up to the later one is |
| BulkResourceOrder.ResourceOrderExactlyIf | internal/handler/bulk.go:301-379 | two operations on one resource keep their order in every request with these methods and paths exactly if the earlier is a POST or none after it on the resource up to the later one is |
| BulkResourceOrder.TrapOvertakes | internal/handler/bulk.go:345-369 | when the earlier one names a POST at the end that waits on the same resource, breaking the circle lets a POST between and all up to the later one overtake it |
| BulkResourceOrder.TwoSegments | internal/handler/bulk.go:301-309 | a path of two plain segments has a key: the first without regard to case, the second as written |
| BulkResourceOrder.PostOnResourceBreaksOrder | internal/handler/bulk.go:301-379 | a list of four operations, two PATCHes with a POST between them on one resource, whose second PATCH always runs before its first |
| BulkOrder.RequestOrderIsTopological | internal/handler/bulk.go:341-379 | the schedule respects every wait exactly when no waits are circular |
| BulkOrder.ClientOrderOfRequest | internal/handler/bulk.go:341-379 | the schedule is the client's own order, without breaking a cycle, exactly when nothing waits for a later operation |
| BulkOrder.LexLeastOfRequest | internal/handler/bulk.go:341-379 | of all orders that respect every wait the schedule is the lexicographically least |
| BulkSchedule.GreedyIsUnique | internal/handler/bulk.go:341-379 | the greedy rule determines the schedule |
| BulkSchedule.NonPostsFollow | internal/handler/bulk.go:341-379 | if only POSTs can be waited for out of order, every other operation follows all its waits even when cycles are broken |
| BulkSchedule.GreedyIsTopological | internal/handler/bulk.go:341-379 | the greedy schedule of any waits respects them exactly when they are acyclic |
| BulkSchedule.GreedyIsLexLeast | internal/handler/bulk.go:341-379 | the greedy schedule is lexicographically at most every order that respects the waits |
| BulkSchedule.ClientOrderKept | internal/handler/bulk.go:341-379 | the greedy schedule is the identity on acyclic waits exactly when all waits are for earlier operations |
| BulkState.RollbackCountsOnce | internal/handler/bulk.go:735-774 | rolling a record back a second time changes nothing at all, and the first time adds one error to the results |
| BulkState.RollbackKeepsBound | internal/handler/bulk.go:735-774 | a rollback removes exactly the record's own bulkId from the map; bindings stay those of the survivors, and a survivor's row is there unless it was deleted |
| BulkState.CreateKeepsBound | internal/handler/bulk.go:568-632 | a created resource binds its bulkId, bound to nothing before, to its identifier and leaves the other bindings; they stay those of the survivors |
| BulkState.UpdateKeepsBound | internal/handler/bulk.go:866-962 | a PUT, PATCH or DELETE of the request binds and unbinds nothing, even when it deletes a resource the request created |
| BulkState.UpdateKeepsReferences | internal/handler/bulk.go:866-962 | after any PUT, PATCH or DELETE each stored reference is still there exactly if that operation and those before it left it alone |
| BulkState.ApplyHonours | internal/handler/bulk.go:776-840 | a fixup that does not fail stores every reference it carries as the identifier bound at that time, if the resource's row is still there, and keeps the others |
| BulkCascade.CompensationIsUnique | internal/handler/bulk.go:843-861 | the outcome of the cascade does not depend on the order in which the map of records is visited |
| BulkCascade.CompensationRollsBackLeast | internal/handler/bulk.go:843-861 | the records rolled back after a phase are the least set that contains those rolled back before the cascade and is closed under depending on a rolled-back bulkId |
| BulkExecutor.Executor.RollbackRecord | internal/handler/bulk.go:735-774 | the new state of a rollback, and how many more results are errors |
| BulkExecutor.Executor.Cascade | internal/handler/bulk.go:843-861 | the cascade ends, rolls back exactly the least closed set, leaves no survivor that depends on it, and counts the errors it adds |
| BulkExecutor.Executor.ApplyOne | internal/handler/bulk.go:776-840 | one fixup: references stored, or its resource rolled back at the first that fails; nothing for a resource already gone |
| BulkExecutor.Executor.ApplyDeferredBulkFixups | internal/handler/bulk.go:720-864 | a whole phase: fixups in order, then the cascade; no survivor depends on a rolled-back bulkId, errors counted |
| BulkExecutor.Executor.TakeReady | internal/handler/bulk.go:176-194 | the fixups that are due are split off in their order, and the others stay in theirs |
| BulkExecutor.Executor.ProcessOperation | internal/handler/bulk.go:427-632 | the state after one operation: a failure, an update of what its path leads to, or a created resource |
| BulkExecutor.Executor.CreateResource | internal/handler/bulk.go:568-632 | a created resource with its result, binding, record, stored references and the fixup for those that must wait |
| BulkExecutor.Executor.UpdateResource | internal/handler/bulk.go:866-962 | a DELETE erases the resource and the member rows naming it; a PUT or PATCH leaves it with whatever references it now has, no member among them that is gone |
| BulkExecutor.Executor.Visit | internal/handler/bulk.go:159-203 | one round of the loop is a step of the request's run and keeps all invariants: errorCount equals the error results, records and bindings agree |
| BulkExecutor.Executor.Run | internal/handler/bulk.go:159-208 | the object goes through the states of the request's run and ends in its last; what runs is a prefix of the schedule, stopped only by enough errors; every fixup is handled once |
| BulkExecutor.Executor.constructor | internal/handler/bulk.go:150-157 | a run starts in the initial state, consistent, with nothing done and nothing pending |
| BulkRun.ProcessKeepsSane | internal/handler/bulk.go:427-632 | an operation keeps records, results, bindings and stored or pending references in agreement |
| BulkRun.CascadeEnds | internal/handler/bulk.go:843-861 | when a round of the cascade changes nothing, the records gone are the least closed set and the state is consistent again |
| BulkHandler.PresentInRequestOrder | internal/handler/bulk.go:210-215 | each result is reported once, in the order of the request |
| BulkHandler.ScheduleDrives | internal/handler/bulk.go:148-149 | the schedule of a request gives its executor the dependencies it relies on |
| BulkHandler.ProcessBulk | internal/handler/bulk.go:125-221 | for every request and every behaviour of the store: order, prefix, one result per executed operation, error counting, nothing pending that a starting operation may need, fixups handled once; with distinct bulkIds also bindings exactly of the survivors, every wanted reference of a survivor stored exactly if later operations left it alone, and no survivor that depends on anything rolled back if data name the request's resources only where the reference can wait |
| BulkTrace.RunIsUnique | internal/handler/bulk.go:159-208 | a request has one run: the order in which the map of records is visited does not show in any state |
| BulkTrace.CompensatedIsSane | internal/handler/bulk.go:843-861 | once the least closed set is gone the state is consistent and no survivor depends on anything gone |
| BulkTrace.RunEndsSane | internal/handler/bulk.go:159-208 | every run of every request ends with records, results, bindings and references in agreement and nothing pending |
| BulkPending.StartsWithNothingPending | internal/handler/bulk.go:176-199 | when an operation other than a POST starts, no fixup of a POST that a bulkId it names depends on is pending |
| BulkPending.NothingPendingAtTheEnd | internal/handler/bulk.go:176-199 | when the whole schedule has run, every fixup has been applied |
| BulkReferences.TraceIsExplained | internal/handler/bulk.go:159-208 | in every run the row of a resource it created is gone exactly if an operation deleted it or it was rolled back, and its references were rewritten only by a PUT or PATCH of it |
| BulkReferences.StoredUnlessTouched | internal/handler/bulk.go:159-208 | at the end of every run a survivor's reference is stored unless a later PUT, PATCH or DELETE of the request changed the resource or deleted the member named; after such a deletion it is not |
| BulkReferences.SettledAtTheEnd | internal/handler/bulk.go:843-861 | if data name other POSTs of the request only where the reference can wait, no survivor of the run depends on anything rolled back |
| BulkLate.NeverLateExactlyIf | internal/handler/bulk.go:568-632 | a POST on /Users or /Groups that can create a resource is safe, whatever request it is part of and whatever the store answers, from surviving without what its data name exactly if each bulkId in them is its own or stands where the reference can wait |
| BulkLate.LateRun | internal/handler/bulk.go:843-861 | a run of three POSTs, in the client's order, that leaves the third depending on the second, which was rolled back before it |
| BulkSuccess.FixupKeepsExactlyIf | internal/handler/bulk.go:776-841 | applying the fixup of a survivor keeps it exactly if every reference is bound, none that is offered is refused, no member named is gone and a user's row is there; then just the references are stored and a user's version is updated, otherwise it is rolled back with the first error met |
| BulkSuccess.EveryPostSucceeds | internal/handler/bulk.go:159-208 | if the store creates every POST and admits every reference and nothing is deleted, then in a full run nothing is rolled back and every POST ends as a 201 with its location, however the POSTs name each other |
| BulkSuccess.MutualGroupsSucceed | internal/handler/bulk.go:784-804 | two groups that name each other as members end as 201, each with the other as member, in every full run |
| BulkOutcomes.ClosureIsChains | internal/handler/bulk.go:231-271 | the closure of a producer is exactly the producers that chains of named bulkIds lead to from it |
| BulkOutcomes.WaitsExactlyIf | internal/handler/bulk.go:278-332 | an operation waits exactly for the last one before it on its resource, for every producer it names, and for what that producer leads to unless it leads back to the operation |
| BulkOutcomes.DeclaresExactlyIf | internal/handler/bulk.go:137-144 | a bulkId is declared trimmed, by an operation whose untrimmed method is post in any case |
| BulkOutcomes.TaskNames | internal/handler/bulk.go:312-332 | the scheduler sees exactly the bulkIds in path and data |
| BulkOutcomes.VerbsAre | internal/handler/bulk.go:437-439 | methods are recognised whatever their case and the space around them |
| BulkOutcomes.OperationAnswers | internal/handler/bulk.go:462-512 | the result of every operation by its method: status, location and version, for success and for each way to fail; no other result changes |
| BulkOutcomes.PostEffects | internal/handler/bulk.go:542-632 | a POST answered 201 records the new resource with its dependencies and binds its bulkId; any other changes nothing |
| BulkOutcomes.ChangeEffects | internal/handler/bulk.go:502-512 | a PUT, PATCH or DELETE that fails changes nothing, and a DELETE that succeeds erases the resource its path leads to |
| LikePattern.EscapeLikeValue | internal/scim/filter.go:1605-1617 | the loop that escapes each special character computes the escaped value |
| LikePattern.PatternIsLiteral | internal/scim/filter.go:1103-1133 | the patterns of co, sw and ew match a text under LIKE exactly when it contains, starts with or ends with the value, whatever characters either has |
| LikePattern.LoweredPatternIsLiteral | internal/scim/filter.go:1361-1383 | the same with both sides lowered by a per-character map that fixes the special characters and maps nothing else to them |
| LikePattern.MapMustNotMakeSpecials | internal/scim/filter.go:1361-1383 | a map that makes a special character of another one breaks the match, so that premise is needed |
| Sql.TextReadsBack | internal/scim/filter.go:404-485 | the text of a condition, read by SQL's precedence, is that condition and nothing is left over |
| Sql.JoinMeans | internal/repository/user.go:176-199 | two conjunctions joined by AND without parentheses mean the conjunction of both |
| FilterAtoms.AtomMeans | internal/scim/filter.go:1271-1403 | the SQL of any accepted condition evaluates to its three-valued meaning: columns, times, booleans, references, collections, members, schemas, value paths, compound attributes and attributes of other resource types, which a search over all types accepts as FALSE |
| FilterAtoms.ColumnTestMeans | internal/scim/filter.go:1103-1145 | a column comparison holds as RFC 7644 says, is unknown on an absent attribute, and true there for ne |
| FilterAtoms.ElemTestMeans | internal/scim/filter.go:1502-1563 | inside EXISTS a test of an element is true exactly when the element satisfies it |
| FilterAtoms.SchemasMeans | internal/scim/filter.go:1147-1174 | a schemas comparison with its NOT, AND and OR without further parentheses means: the core schema, or the extension where one of its columns is set |
| FilterAtoms.HasMeans | internal/scim/filter.go:546-584 | presence, including the unparenthesised test of a collection, the group members and the compound name |
| FilterAtoms.PathMeans | internal/scim/filter.go:1565-1603 | a value path is true exactly when one element satisfies both the bracketed and the outer comparison |
| FilterAtoms.AtomParams | internal/scim/filter.go:398-402 | a condition's placeholders are consecutive from the one it started at, one for each of its arguments, in order |
| FilterSyntax.AtomIsLocal | internal/scim/filter.go:487-544 | reading a condition looks only at the tokens it takes and at whether an operand may end there |
| FilterWords.CutIsFirst | internal/scim/filter.go:600-646 | brackets are found at their first occurrence in a word |
| FilterWords.WordsAreSensible | internal/scim/filter.go:404-485 | keywords recognised whatever their case, and a leading dot, make reading local for any tables of attributes |
| FilterWords.KeywordsAre | internal/scim/filter.go:404-485 | each keyword is exactly the words that read so in lower case |
| FilterFlags.FlagTestMeans | internal/scim/filter.go:1508-1527 | the SQL of a boolean clause is true exactly if the element holds the text true or false as asked, and for ne anything else or nothing |
| FilterFlags.FlagArgument | internal/scim/filter.go:1518-1527 | the argument bound is the literal given, in lower case |
| FilterFlags.FlagPathSelects | internal/scim/filter.go:598-806 | collection[sub eq literal] selects exactly the workspace's rows with an element that holds that text |
| FilterFlags.FlagFieldSelects | internal/scim/filter.go:1023-1060 | so does collection.sub eq literal |
| FilterFlags.FlagFilterSelects | internal/scim/filter.go:598-646 | the same with the real words, brackets and keywords: emails[primary eq true] selects the users with a primary e-mail stored as true |
| FilterFlags.SubIsAfterDot | internal/scim/filter.go:632-681 | after the closing bracket a dot introduces the sub-attribute, and nothing else does |
| FilterAccepts.AcceptedExactlyIf | internal/scim/filter.go:1103-1335 | which operators each kind of attribute takes, and that booleans and times must be readable |
| FilterAccepts.AcceptedClauseExactlyIf | internal/scim/filter.go:707-726 | in brackets a boolean takes eq and ne with a boolean, a text every operator |
| FilterAccepts.MemberTestMeans | internal/scim/filter.go:1176-1238 | a member reference is compared by the identifier in it for eq and ne, and otherwise as written |
| FilterAccepts.ConnectivesBind | internal/scim/filter.go:404-485 | three conditions with and, or and not between them are read with not over and over or, to the left |
| FilterTrees.PrintedIsRead | internal/scim/filter.go:404-543 | the token form of every tree of the grammar is accepted whole and read as that tree: not over and over or, associated to the left |
| FilterTrees.AcceptedExactlyIfPrinted | internal/scim/filter.go:146-165 | the parser accepts a token list as a tree exactly if that tree is of the grammar and prints as the list |
| FilterTrees.ComparisonIsLeaf | internal/scim/filter.go:514-543 | every accepted comparison is a condition of the grammar |
| FilterTrees.PresenceIsLeaf | internal/scim/filter.go:526-529 | every accepted presence test is a condition of the grammar |
| FilterTrees.LeafExactlyIfRead | internal/scim/filter.go:498-543 | the conditions of the grammar are exactly the token lists that the parser reads as one condition, whole |
| FilterPaths.ValuePathExactlyIf | internal/scim/filter.go:598-806 | a bracket, alone or with pr or a comparison after it, is a condition of the grammar exactly if it holds one clause on a sub-attribute of a known collection and any sub-attribute after it is known too, and this is its meaning |
| FilterPaths.ValuePathIsLeaf | internal/scim/filter.go:598-806 | collection[sub op value] with a quoted value, alone, with a sub-attribute, or with a comparison of one, is a condition of the grammar |
| FilterPaths.PresencePathIsLeaf | internal/scim/filter.go:705-715 | collection[sub pr] is a condition of the grammar |
| FilterPaths.CompoundIsRejected | internal/scim/filter.go:694-702 | a filter that begins with a bracket in which and, or or not stands is rejected, whatever follows |
| FilterCompile.CompiledMeans | internal/scim/filter.go:404-485 | the SQL of a whole filter evaluates to the three-valued combination of its conditions |
| FilterCompile.CompiledParams | internal/scim/filter.go:398-450 | the placeholders of a whole filter, left to right, are $s, $s+1 and so on, one for each argument in order |
| FilterCompile.SelectsSatisfying | internal/scim/filter.go:452-485 | if every condition under an odd number of negations is decided, the combination is true exactly when the filter is satisfied |
| FilterCompile.KnownIsRight | internal/scim/filter.go:452-485 | SQL never answers wrongly: where it is not unknown it agrees with the two-valued reading |
| FilterCompile.QuerySelects | internal/repository/user.go:176-199 | appended to the workspace test as it is, the text is still one conjunction with both, and its placeholders match the query's arguments |
| FilterParser.Parser.constructor | internal/scim/filter.go:150-156 | a parser starts at the first token and the given placeholder |
| FilterParser.Parser.ParseOr | internal/scim/filter.go:404-426 | writes the SQL and arguments of the disjunction read at its position and moves past exactly its tokens; fails exactly when there is none |
| FilterParser.Parser.ParseAnd | internal/scim/filter.go:428-450 | the same for conjunctions |
| FilterParser.Parser.ParseNot | internal/scim/filter.go:452-485 | the same for negations, with and without parentheses |
| FilterParser.Parser.ParseAtom | internal/scim/filter.go:487-543 | the same for groups and single conditions |
| FilterParser.Parser.ParseCondition | internal/scim/filter.go:514-543 | the condition read at the position, attribute by attribute, or failure |
| FilterParser.Parser.ParseValuePath | internal/scim/filter.go:598-806 | the value path read at the position, including what follows the bracket, or failure |
| FilterParser.Parser.GatherWords | internal/scim/filter.go:629-671 | the loop that collects the bracket's words up to the closing one |
| FilterParser.ParseEntityFilter | internal/scim/filter.go:146-165 | a filter is accepted exactly when all its tokens are one tree; leftovers are rejected; parsing always ends |
| FilterParser.AcceptedFilterSelects | internal/repository/user.go:176-199 | every accepted filter, bound after the workspace, selects exactly the workspace's rows whose three-valued combination is true |
| FilterParser.AcceptedFilterSelectsSatisfying | internal/scim/filter.go:404-543 | without not, or with negated conditions only on attributes the row has, those are exactly the rows that satisfy the filter |
| FilterParser.NegatedFilterSelects | internal/scim/filter.go:452-485 | the negation of one accepted condition, with or without parentheses, selects what it should exactly if the row has the attribute |
| FilterMisses.VerdictIsPossible | internal/scim/filter.go:404-485 | for every resource of a class, SQL's answer and RFC 7644's on a filter are a pair that follows from those its parts on different attributes can come to |
| FilterMisses.PossibleIsReached | internal/scim/filter.go:404-485 | and every such pair is that of some resource of the class, put together from resources for the parts |
| FilterMisses.RightExactlyIf | internal/scim/filter.go:404-485 | every filter selects what it should from a class of resources exactly if no pair in which one is missed can come about; parts on different attributes are looked at by themselves |
| FilterMisses.FreeRightExactlyIf | internal/scim/filter.go:404-485 | from any class of resources it does if all of them have the attributes of the conditions under an odd number of negations, and only then where conditions are on different attributes and each can hold and fail |
| FilterMisses.AtLeastRightExactlyIf | internal/scim/filter.go:404-485 | the same for the resources that have at least given columns, where the condition can be seen from the filter and the columns |
| FilterMisses.ComparisonIsFree | internal/scim/filter.go:1338-1383 | equality and inequality with any value, and containment of a text that is not empty, can hold and fail of resources with any columns |
| FilterMisses.PresenceIsFree | internal/scim/filter.go:545-583 | a test of presence can hold and fail among resources with at least given columns exactly if its column is not one of them |
| FilterMisses.ConditionVerdicts | internal/scim/filter.go:1338-1400 | among resources with exactly given columns presence is settled, ne holds and other comparisons are unknown where the column is absent |
| FilterMisses.GuardedIsRight | internal/scim/filter.go:404-485 | a test of presence beside the rest makes a filter right for every resource, if the rest negates no comparisons but those of its attribute and those always decided |
| MultiValued.Deduplicate | internal/scim/patch.go:706-724 | the loop over a list with its index of seen keys computes the deduplicated list |
| MultiValued.DedupIsFirsts | internal/scim/patch.go:702-724 | deduplication keeps the first entry of each key in order, primary if any entry with the key is, and loses no key |
| MultiValued.DedupIsIdempotent | internal/scim/patch.go:706-724 | deduplicating twice is deduplicating once |
| MultiValued.AddIsGood | internal/scim/patch.go:567-591 | adding keeps at most one primary entry and makes all keys distinct |
| MultiValued.WithoutIsGood | internal/scim/patch.go:1244-1252 | removing by filter keeps both |
| MultiValued.WithoutKeeps | internal/scim/patch.go:1244-1252 | removing by filter leaves exactly the entries that do not match |
| MultiValued.UpdateIsGood | internal/scim/patch.go:985-1017 | a filtered update that demotes, or makes no entry primary, keeps both although entries change while they are matched |
| MultiValued.AddKnown | internal/scim/patch.go:567-591 | adding entries whose keys are there moves the primary flag to the added primary entry and changes nothing else |
| MultiValued.RepeatedAddsChangeNothing | internal/scim/patch.go:567-591 | repeating any number of accepted adds changes nothing |
| PatchValues.AssignFlags | internal/scim/patch.go:1256-1302 | what a value leaves in the primary flag, however deeply objects without names are nested |
| PatchValues.OverlookedExactlyIf | internal/scim/patch.go:966-983 | a value is overlooked exactly if the demotion test misses it and in some order of visiting its members, at each depth, the flag ends up true |
| PatchValues.OverlookedNeedsEmptyName | internal/scim/patch.go:966-983 | the demotion test misses a value only if it is an object with an empty member name |
| PatchValues.UpdateKeepsOnePrimaryExactlyIf | internal/scim/patch.go:985-1017 | a filtered update keeps at most one primary entry, for every collection and filter and every order in which members are visited for each entry, exactly if it is not overlooked in some order |
| PatchValues.OverlookedBreaks | internal/scim/patch.go:985-1017 | a missed update of a good two-entry collection leaves two primary entries |
| PatchValues.OverlookedExists | internal/scim/patch.go:966-983 | such a value exists |
| PatchUser.RunIsGood | internal/scim/patch.go:38-78 | every accepted sequence of operations, none overlooked in any order of visits, keeps one primary entry and distinct keys in all eight collections |
| PatchUser.ReplacementIsGood | internal/scim/mapper.go:683-700 | every accepted full replacement of the eight collections has both |
| PatchUser.PatchedIsGood | internal/handler/user.go:140-187 | a successful PATCH keeps both and raises the version by one exactly if it changes the row |
| PatchUser.HistoryIsGood | internal/handler/user.go:92-187 | over every run of PATCH and PUT requests, with their version checks and user name conflicts, both hold, the version never falls, and while it stays the same so does the row |
| PatchUser.AddsByAttribute | internal/scim/patch.go:567-690 | adds act on each collection by itself and are accepted whatever the user |
| PatchUser.RepeatedPatchWritesNothing | internal/handler/user.go:154-186 | repeating an accepted PATCH of adds leaves the user equal to its clone: nothing is written and the version stays |
| PatchEffects.AddTakesIn | internal/scim/patch.go:567-690 | an add is accepted exactly if all entries can be built and at most one is primary, and leaves the first of each key of the old entries, demoted if a given one is primary, and then the given ones; nothing else changes |
| PatchEffects.ReplaceSets | internal/scim/patch.go:692-700 | a replacement leaves the first of each key of the given entries and nothing of what was there, null leaves none; nothing else changes |
| PatchEffects.ReplaceForgets | internal/scim/patch.go:692-700 | two users that differ in the attribute alone come out equal when it is replaced or cleared |
| PatchEffects.ClearEmpties | internal/scim/patch.go:692-700 | clearing leaves no entry and changes nothing else |
| PatchEffects.RemoveDrops | internal/scim/patch.go:1244-1252 | a removal leaves exactly the entries that do not match, in order, and changes nothing else |
| PatchEffects.UpdateWrites | internal/scim/patch.go:985-1017 | a filtered update writes the value into exactly the entries that match in their turn; each writer of a true primary takes the flag from all others |
| PatchEffects.UpdateNeedsMatch | internal/scim/patch.go:985-1017 | without a filter or a match it is an error |
| PatchEffects.DemotesExactlyIf | internal/scim/patch.go:966-983 | others are demoted exactly if the value sets primary to true, itself or as a member of an object without a name |
| PatchEffects.AssignWritesParts | internal/scim/patch.go:1256-1302 | writing a value writes each named part of it, at any depth, one after the other, and fails exactly if one of them does |
| PatchEffects.SingleChangesFields | internal/scim/patch.go:38-78 | any other operation leaves all collections alone |
| PatchEffects.RunsInOrder | internal/scim/patch.go:38-78 | operations run one after the other, and the first that fails fails all |
| PatchEffects.PatchedExactlyIf | internal/handler/user.go:140-187 | a PATCH is refused exactly for another version, without operations, for a failing operation, or for a changed user whose name is taken |
| PatchEffects.ReplacedSets | internal/handler/user.go:92-138 | a PUT is refused exactly for another version, a taken name or a refused list; else each list given is there without repetitions and the others are empty |
| PatchEditor.DemoteAll | internal/scim/patch.go:581-585 | the in-place loop clears every primary flag and nothing else |
| PatchEditor.DemoteAllBut | internal/scim/patch.go:1001-1007 | the in-place loop clears every primary flag but one |
| PatchEditor.ValidateSinglePrimary | internal/scim/canonicalize.go:166-183 | accepts exactly the lists with at most one primary entry |
| PatchEditor.RemoveMatching | internal/scim/patch.go:1244-1252 | the loop computes the list without what matches |
| PatchEditor.UpdateInPlace | internal/scim/patch.go:993-1012 | the in-place loop, testing each entry as its predecessors left it, changes the array as specified, finds a match or fails |
| PatchEditor.LoadedUser.Clone | internal/scim/mapper.go:187-242 | a deep clone shows the same attributes and shares no array with the user |
| PatchEditor.LoadedUser.MutableEqual | internal/scim/mapper.go:270-308 | equality of two users is equality of all their attributes |
| PatchEditor.LoadedUser.AddToMultiValued | internal/scim/patch.go:567-591 | the steps of an add on the arrays come to the specified list; the other collections keep their arrays and contents |
| PatchEditor.LoadedUser.ApplyFilteredUpdate | internal/scim/patch.go:985-1017 | the steps of a filtered update come to the specified list, and fail exactly when it does |
| PatchEditor.LoadedUser.ApplyOperation | internal/scim/patch.go:38-78 | one operation on the object, whatever its kind, comes to the specified attributes |
| PatchEditor.LoadedUser.ApplyPatchOperations | internal/scim/patch.go:38-78 | all operations in order, stopping at the first error |
| PatchEditor.UserStore.Update | internal/repository/user.go:120-168 | the write succeeds exactly if the version is still the one read, and then stores the user under the next version |
| PatchEditor.UserStore.ExecutePatchUser | internal/handler/user.go:140-187 | load, clone, edit in place, compare, write: the stored row becomes exactly what the specification says, or stays |
| SortOrder.LessIsStrictWeakOrder | internal/handler/discovery.go:491-534 | the comparator is a strict weak order, missing values last ascending and first descending |
| SortOrder.LessExactlyIf | internal/handler/discovery.go:491-534 | which of two resources comes first: by value, exactly or in lower case first, either way round, and with values missing |
| SortOrder.BeforeExactlyIf | internal/handler/discovery.go:515-530 | texts are ordered by the first character in which they differ |
| SortOrder.StableSortSorts | internal/handler/discovery.go:491-534 | a stable sort is sorted and keeps ties in order |
| SortOrder.StableSortIsUnique | internal/handler/discovery.go:491-534 | only one list is sorted with ties in order, so every stable sort gives it |
| SortOrder.SortIsMerge | internal/handler/discovery.go:302-309 | stably sorting two sorted lists one after the other is merging them |
| SortOrder.MergeOfPrefixes | internal/handler/discovery.go:303-309 | the first n of the merge need only the first n of each list |
| RootSearch.Search | internal/handler/discovery.go:286-336 | the total counts both sources; the unsorted page is the slice of users followed by groups; the sorted page is the specified one of the two lists as fetched, after projection |
| RootSearch.SliceExactly | internal/handler/discovery.go:309-320 | a slice has the elements from the offset on, as many as asked for unless the list ends |
| RootSearch.SortedPageIsSlice | internal/handler/discovery.go:302-320 | a sorted page that fits is the slice of the stable sort of everything, when the lists as fetched still have the sort attribute |
| RootSearch.SortedPageIsRightExactlyIf | internal/handler/discovery.go:302-320 | for given sizes a sorted page is right for every content exactly if it fits |
| RootProjection.KeptPageIsRight | internal/handler/discovery.go:303-320 | when the requested attributes keep the one sorted by, the page is the projection of the slice of the sorted whole |
| RootProjection.DroppedPageIsRightExactlyIf | internal/handler/discovery.go:303-320 | when they drop it, in whatever order, a page is right for every content of given sizes if it fits and one of the two sources is empty, or it is empty itself, and only then where some groups precede users and resources can be told apart |
| RootProjection.EntriesTell | internal/handler/discovery.go:303-320 | they can in either direction and with either comparison as soon as identifiers are kept, so there it is exactly then |
| Cursors.DecodeUndoesEncode | internal/scim/cursor.go:87-171 | a token gives back offset and page size for its own workspace until it expires, and is rejected otherwise |
| Cursors.AcceptedIsSigned | internal/scim/cursor.go:124-171 | an accepted token carries the signature of its claims, for this workspace, unexpired |
| Cursors.AcceptedExactlyIf | internal/scim/cursor.go:124-171 | a token is accepted exactly if it is empty, or signed, unexpired, of this workspace and not negative |
| Cursors.ParsePagination | internal/handler/pagination.go:25-122 | which parameters count, how they are clamped, and exactly when a request is rejected |
| Cursors.BuildListResponse | internal/handler/pagination.go:126-171 | the response's cursors are the tokens of the previous and next positions of the page, and are there exactly when those exist |
| Cursors.TokenLeads | internal/handler/pagination.go:143-166 | until it expires such a token is read as the position it was made for |
| Cursors.ServeList | internal/handler/pagination.go:25-171 | a whole request with a cursor: parameters, slice and response come to the specified answer |
| Cursors.TokenWalkIsWalk | internal/handler/pagination.go:143-166 | following the tokens of real responses in time is walking over the positions they stand for |
| Cursors.TokenWalkSeesEachOnce | internal/handler/pagination.go:143-166 | a client that follows nextCursor in time sees every result once, in order, and has no cursor left exactly when it has seen all, after at most as many requests as there are results |
| Cursors.TokenBackUndoesNext | internal/handler/pagination.go:143-166 | the previousCursor of the page a nextCursor leads to is read as the offset just left and the size of the page just seen |
| Cursors.TokensGoBack | internal/handler/pagination.go:143-166 | a client that follows previousCursor passes strictly decreasing offsets down to 0 |
| Cursors.WalkSeesEachOnce | internal/handler/pagination.go:157-166 | following next cursors with any page sizes of at least one shows the list in order without repetition up to the position reached |
| Cursors.WalkEnds | internal/handler/pagination.go:157-166 | a walk from the start ends within as many pages as there are results, having shown all |
| Cursors.PreviousUndoesNext | internal/handler/pagination.go:143-166 | after a step forward the previous cursor leads back to the offset just left |
| Cursors.BackDecreasesToZero | internal/handler/pagination.go:143-156 | following previous cursors strictly decreases the offset and reaches 0 |
| AsyncEvents.EveryRunIsSafe | internal/handler/async_event.go:33-142 | in every interleaving slots taken equal jobs in flight and never exceed 64; an event moves at most once and its operation runs at most once; terminal events have a payload; COMPLETED is that of an operation that succeeded, FAILED that of one that failed unless the reaper moved it |
| AsyncEvents.StepKeepsInv | internal/handler/async_event.go:33-142 | every step of every party keeps the invariant behind it |
| AsyncEvents.TerminalNeverChanges | internal/repository/async_event.go:100-114 | a terminal event's row never changes until it is deleted, and is never created anew |
| AsyncEvents.DispatchExactlyIf | internal/handler/async_event.go:33-78 | a dispatch gets a slot exactly while fewer than 64 are in flight |
| AsyncEvents.EventsKeepTheirOrigin | internal/handler/async_event.go:33-78 | an event is created PENDING in its workspace and at its time, and neither ever changes |
| AsyncEvents.TerminalIsNotRun | internal/handler/async_event.go:92-142 | a worker that finds its event terminal never runs the operation |
| AsyncEvents.NobodyIsStuck | internal/handler/async_event.go:93-142 | every job in flight can take its next step whatever the others do; giving back a slot never blocks |
| AsyncEvents.WorkerFinishes | internal/handler/async_event.go:93-142 | a worker left alone gives back its slot with its event terminal, in the status of its outcome |
| AsyncEvents.UndisturbedIsTruthful | internal/handler/async_event.go:93-142 | in every run in which the reaper lists no event in flight, no report is lost and no restart comes before a report, a terminal event says what became of its operation |
| AsyncEvents.TruthfulExactlyIf | internal/handler/async_event.go:93-142 | in every run with given kinds of disturbances allowed a terminal event says what became of its operation exactly if none is allowed |
| AsyncEvents.MisleadingRun | internal/service/async_event_cleanup_service.go:170-222 | each kind of disturbance alone has a run from the start of the server to a FAILED event of an operation that succeeded |
| EventStore.EventTable.Create | internal/repository/async_event.go:60-86 | a new row is PENDING without payload; a second one for a transaction is refused |
| EventStore.EventTable.UpdateStatusAndPayload | internal/repository/async_event.go:100-114 | only a PENDING row changes |
| EventStore.EventTable.TransitionPendingToFailed | internal/repository/async_event.go:223-237 | only a PENDING row changes, and the answer says whether it did |
| EventStore.EventTable.FindStalePendingEvents | internal/repository/async_event.go:192-219 | the oldest PENDING rows before the cutoff, at most the limit |
| EventStore.EventTable.DeleteOldEventsForWorkspace | internal/repository/async_event.go:150-189 | the batches end and together delete exactly all but the newest terminal events of the workspace, counting them |
| EventStore.PruningKeepsTheNewest | internal/repository/async_event.go:150-189 | what stays is the newest maxCount terminal events, and every other row |
| EventStore.BatchShrinksOld | internal/repository/async_event.go:160-175 | a batch deletes the end of what is too old, a full batch or the rest |
| EventStore.EventTable.ReapStalePending | internal/service/async_event_cleanup_service.go:170-222 | each stale event becomes FAILED with its own token, the others stay; the count is that of the events found |
| EventStore.ReapingFailsTheOverdue | internal/service/async_event_cleanup_service.go:170-222 | with at most 1000 events PENDING from before the cutoff, a sweep makes each of them FAILED with its own token and leaves every other row, in particular those created at the cutoff or later, as it was |
| EventStore.ReapingLeavesNoStale | internal/service/async_event_cleanup_service.go:170-222 | after such a sweep no event from before the cutoff is PENDING |
| EventStore.EventTable.CleanupTerminal | internal/service/async_event_cleanup_service.go:120-166 | every listed workspace is pruned, and the total is the number of rows gone |
| GroupMembers.AddMembersIsGood | internal/handler/group.go:1462-1505 | adding a list, merged or replacing, adds only members new to the group, each existing in the workspace, and touches no other group |
| GroupMembers.RemovalMirrors | internal/handler/group.go:1334-1361 | deleting a member's row and dropping it from the list come to the same list |
| GroupMembers.RetypeIsGood | internal/handler/group.go:1551-1640 | giving a member its missing type changes that row alone, in store and list alike, and no other group's rows |
| GroupMembers.NamedAreKnown | internal/handler/group.go:1462-1505 | after a list has been added, the members known are those known before and all it names |
| GroupEffects.AddMemberExactlyIf | internal/handler/group.go:1023-1120 | a member is added exactly if it names a resource of the workspace, of the type given if there is one, as one new row with that resource's type |
| GroupEffects.AddMembersExactlyIf | internal/handler/group.go:1462-1505 | a list is added exactly if each of its members may be, was seen before, or, where lists are merged, names nothing |
| GroupEffects.AddAdds | internal/handler/group.go:1178-1183 | PATCH add keeps the members there as a prefix, and the members become those there and all named |
| GroupEffects.ReplaceLeavesNamed | internal/handler/group.go:1122-1151 | PATCH replace leaves exactly the members named, and is accepted exactly if none gets another type and all may be added |
| GroupEffects.RemoveAllLeavesNone | internal/handler/group.go:1334-1361 | removing members without a list leaves none |
| GroupEffects.RemoveMembersRemoves | internal/handler/group.go:1334-1361 | a removal of listed members leaves exactly the others, in order |
| GroupEffects.RemoveMemberRemoves | internal/handler/group.go:1334-1361 | a removal by filter leaves exactly the members of other values, in order |
| GroupEffects.SettersSet | internal/handler/group.go:1184-1200 | name and external id are set by themselves; a name must be the group's own or free in the workspace |
| GroupEffects.AddTypeTypes | internal/handler/group.go:1551-1640 | a type is given exactly to a member without one if such a resource exists, and no other member changes |
| GroupEffects.AppliesInOrder | internal/handler/group.go:1153-1176 | operations run one after the other, and the first that fails fails all |
| GroupEffects.PatchStores | internal/handler/group.go:726-799 | a PATCH is accepted exactly if the group is there under the version asked for and no operation fails, and stores the name, external id and members they leave |
| GroupEffects.CreateExactlyIf | internal/handler/group.go:238-318 | a group is created exactly with a free name, a proper external id and members that may be added, and has that name and id |
| GroupEffects.ReplaceExactlyIf | internal/handler/group.go:516-629 | a PUT is accepted exactly for a group that is there, under the version asked for, with its own or a free name and members that may be its |
| GroupEffects.SameMembersExactlyIf | internal/handler/group.go:136-164 | two member lists count as the same exactly if each member of one is in the other with the same type |
| GroupRequests.ApplyMirrors | internal/handler/group.go:1153-1176 | after each accepted operation the list in memory is the list of stored rows, and nothing outside the group has changed |
| GroupRequests.NoMemberTwice | internal/handler/group.go:1462-1505 | no member occurs twice in the list |
| GroupRequests.PatchKeepsGood | internal/handler/group.go:726-799 | a successful PATCH keeps references intact and other groups untouched, and raises the version by one exactly when display name, external id or the multiset of members with types changed |
| GroupRequests.ReplaceGroupIsGood | internal/handler/group.go:516-629 | a replacement sets name and external id, leaves exactly the members it names, raises the version by one, touches no other group and keeps references intact |
| GroupRequests.CreateGroupIsGood | internal/handler/group.go:238-318 | a new group has exactly the members it names, and references stay intact |
| GroupRequests.DeleteGroupIsGood | internal/handler/group.go:838-870 | deleting a group leaves exactly the rows that neither name it nor belong to it, and every other group and user |
| GroupRequests.DeleteUserIsGood | internal/handler/user.go:189-215 | deleting a user leaves exactly the rows that do not name it, and every other user and group |
| GroupRequests.DeferredIsGoodExactlyIf | internal/handler/bulk.go:785-802 | inserting a member that a created group was waiting for keeps references intact exactly if the group is there and does not have the member |
| GroupRequests.RunsKeepReferences | internal/handler/group.go:838-870 | over every run of creations, PATCHes, replacements, deletions, deferred member inserts that are timely, and bulk rollbacks each row names an existing group and an existing user or group of its workspace, of the type it says, no group has a member twice, and no identifier is both a user's and a group's |
| GroupEditor.GroupMembersEqual | internal/handler/group.go:136-164 | counting keys up and down decides whether the multisets of values with types are equal |
| GroupEditor.Database.AddMember | internal/handler/group.go:1023-1120 | the checks and the insert of one member |
| GroupEditor.GroupObject.AddMissingMembers | internal/handler/group.go:1462-1505 | the loop with its two sets of members seen adds what the specification says, to rows and list |
| GroupEditor.GroupObject.ReplaceMembers | internal/handler/group.go:1122-1151 | type check, deletion and re-insertion come to the specified rows and list |
| GroupEditor.GroupObject.RemoveMembersByValueList | internal/handler/group.go:1334-1361 | the loop removes each listed member from rows and list |
| GroupEditor.GroupObject.ApplyMemberSubAttrAdd | internal/handler/group.go:1551-1640 | a type may be added only where there is none, and only if such a resource exists |
| GroupEditor.GroupObject.UpdateTx | internal/repository/group.go:191-216 | the guarded write under the next version |
| GroupEditor.ExecutePatchGroup | internal/handler/group.go:726-799 | the transaction leaves exactly what the specification says, or everything as it was |
| GroupEditor.ExecuteDeleteGroup | internal/handler/group.go:838-870 | rows naming the group, its own rows and the group are deleted |
| GroupEditor.ExecuteDeleteUser | internal/handler/user.go:189-215 | rows naming the user and the user are deleted |

## Left out

- HTTP handling, JSON parsing and encoding, schema and discovery documents, logging, metrics and configuration are plumbing over libraries.
- Panics inside bulk operations: the recovered call yields no result, so such an operation is outside the model.
- Size and schema checks of a bulk request before its operations are read would only add easy members.
- BulkRequest.CollectProducers: the extraction of bulkId tokens from texts is a parameter, so bulkIds that contain the delimiting characters of a token are not modelled.
- BulkExecutor.Executor.ApplyOne: the rows a group fixup has inserted before it fails are not represented, because the rollback deletes them; the identifiers stored are recorded only after success.
- BulkState.Update: what a PUT or PATCH leaves in its resource is arbitrary, except that a group keeps no member that is gone; the resource a path leads to, once a bulkId in it is replaced, is a parameter, as text substitution and identifier syntax are.
- BulkLate.NeverLateExactlyIf: requests whose POSTs have spaces around the method or the bulkId are left to BulkReferences.SettledAtTheEnd, since such a POST does not declare the bulkId under which it is recorded. Where in the data a reference stands is not modelled beyond whether it can wait, and late ones are taken to stand in texts that the store accepts unresolved; a group whose only late reference is in members[].$ref is rejected by it, so it is safe all the same.
- BulkHandler.ProcessBulk: bindings and stored references are promised for distinct bulkIds and fresh identifiers; with repeated bulkIds a later POST rebinds the name, and a rollback of either removes it.
- Case folding is that of ASCII letters; Unicode normalisation and folding are not modelled.
- The tokenizer is not modelled; filters are token lists.
- FilterAtoms.AtomMeans: JSON collection columns are taken to hold arrays or NULL, and texts are compared by an arbitrary order that stands for the database's collation.
- FilterPaths.CompoundIsRejected: section 3.4.2.2 of RFC 7644 allows and, or and not between the brackets of a value path; the source rejects them (internal/scim/filter.go:694-702) and the model follows it.
- FilterSyntax.ReadPath: a value path without sub-attribute consumes a comparison after the bracket and does not use it, as the source does (internal/scim/filter.go:736-780, 1565-1603).
- Panics, time-outs and errors of the database other than the modelled guards are not modelled for users and groups; deletes check the version but are not guarded by it.
- PatchUser.RepeatedPatchWritesNothing: filling in manager data a second time is a premise to change nothing, since it depends on another user's row.
- The attributes other than the eight collections are one value with arbitrary changes; canonicalization of values is part of building an entry.
- GroupMembers.AddMembersIsGood: display texts of members are not modelled, and a query returns rows in the order the table keeps them.
- GroupRequests.RunsKeepReferences: requests run one after the other; races between deletes and inserts are left to database constraints that are not part of this model. That deferred members arrive while their group is there and without them is a premise; it is what the schedule and distinct bulkIds give within one bulk request.
- AsyncEvents.EveryRunIsSafe: the worker that acquires a slot by waiting (internal/handler/async_event.go:80-91) has no caller in the server; transaction identifiers are fresh.
- EventStore.EventTable.ReapStalePending: as a method it runs without interleaving; the interleavings are those of the steps in AsyncEvents.
- FilterMisses.AtLeastRightExactlyIf: tests of one attribute at several places, and conditions that hold or fail of all resources, are left to FilterMisses.RightExactlyIf, where parts that share an attribute count as one; a column and the collection stored in it count as one attribute, though rows in which only one of them is set are not excluded.
- RootProjection.DroppedPageIsRightExactlyIf: attributes is taken to keep or drop the sort attribute of all resources alike, as a list of names does.
- RootSearch.Search: errors of the listing queries are ignored as in the source, and only a negative limit is modelled as one.
- Cursors.DecodeUndoesEncode: token text, workspace names and signatures are abstract functions with a reading that undoes writing.
- Count conversion from JSON numbers beyond 64 bits is implementation-defined and not modelled.
