# asyncmachine: relations, clocks, subscriptions and replication

A Dafny model of the clock-based state machine of `pkg/machine` and of the clock
replication of `pkg/rpc`. A machine has named states; states relate to each other
(Require, Add, Remove, After); a mutation (Add, Remove, Set) asks for states, the
resolver turns the request into target states, handlers may veto or fail, and every
activation or deactivation ticks the state's clock. An RPC client mirrors the clocks of a
source machine from narrow differences.

Verify everything with `dafny verify dfyconfig.toml`.

## How it is laid out

| file | content |
|---|---|
| `Slices`, `Schemas`, `Sorting` | list helpers; states, Require closure and its kernel; stable sorting |
| `Topology` | the depth-first topological sort over Require |
| `Resolvers` | the resolver interface and the contracts the rest relies on |
| `DefaultResolver`, `DefaultResolverFacts`, `Precedence`, `Plans` | the relation resolver, and what every resolution guarantees; who wins a conflict and in which order targets come; what mutations make of it |
| `Transitions`, `TransitionFacts`, `Recovery`, `Effects` | a transition as a function of clock, active set, mutation and handler outcome; results over whole runs |
| `Queue`, `Draining`, `Duplicates` | queue ticks; what draining a queue goes through and where it ends; skipped duplicates |
| `Runs`, `Limits` | those results for the default resolver from a fresh machine; concrete inputs at their edges |
| `Importing`, `Machine`, `Execution` | import of exported times; the machine and its transitions as mutable objects; the queue loop |
| `Bindings`, `Indexes`, `Subscriptions`, `TimeSubscriptions`, `WaitLimits`, `Live` | waiting bindings, the index that lists them and how it is swept; runs with repeated states; a machine running with subscriptions |
| `ClockSync`, `ClockSyncFacts`, `Acceptance`, `Replication`, `Updates`, `Servers`, `SyncLimits` | updates, checksums, when an update is accepted, drift, handshake and pushes; concrete messages at their edges |
| `NetMachine`, `Mirroring` | the client's mirror, and the two halves together |

Three choices run through the model. State names are an abstract type that is only
compared. Handlers are an arbitrary outcome: accept or veto, a set of rejected auto states,
and the final handler that fails with the number of times recovery runs; so a statement
about all outcomes is a statement about all handlers. A run is any sequence of such
transitions and of restarts through export and import. Iteration over Go maps is modelled
as picking members in an unspecified order.

Where the code does something other than one would expect, the code is followed. Lemmas
give an input that shows it and say exactly when the expectation holds:

- Add is expanded one level per call, so two levels per transition (`AddStopsAfterTwo`;
  `TwoLevelsOfAdd` and `AddIsTransitive`).
- Parsing keeps an unknown name in Add when it is also in Remove; adding its state then
  plans it, where the source indexes out of range (`UnknownIsTargeted`; `PlansKnownIff`).
- Recovery of a failed final phase can leave a state active without its requirement, when an
  active Multi state is called again or entered states do not come in the order of Require
  (`ReentryBreaksClosure`, `CycleBreaksClosure`; `RecoveryClosed` and `EveryFailureCloses`).
- A recovery that repeats ticks an active Multi state that is called by 2 each time
  (`FailedTicks`).
- An auto transition that re-enters an active Multi state ticks it without telling
  subscriptions (`ReentryIsNotReported`; `ReportIsExact`).
- A duplicate is skipped although the queue may undo the queued one before it would have run
  (`QueueDuplicate` and `DuplicateMatters`; `SkipIsHarmless`).
- A wait for times that repeats a state may never close, even once all its times have come
  (`RepeatedWaitStaysOpen`; `AwaitTime`). One that does close may be returned twice, and may
  leave an entry behind that later takes another wait out of the index
  (`RepeatedWaitClosesTwice`, `RepeatedWaitDropsAnother`; `SweptExact` and
  `ProcessWhenTime`).
- Prepending a mutation that already has a queue tick breaks the alignment of the queue
  (`PrependAligned`).
- Import stops half-way at an unknown state name, with the entries before it in place
  (`Machine.Machine.Import`; `ImportedParity`).
- A client in sync accepts an update even when a difference does not fit its width; the
  drift passes the 8-bit checksum (`WideQueueDrifts`; `UpdateExact`).
- A push without changed ticks is not sent but remembered as sent (`SkippedPushDrifts`;
  `SkippedPush`). After one of the initial, empty data the server compares with nothing, and
  with full indexes looks at the wrong entry then (`PushBeforeTransition`;
  `StepsFromNothing`).
- The queue of mutations is never emptied, so a later push sends it again from the
  beginning, relative to the newer last push (`ResentQueueDrifts`; `BatchExact` and
  `ResentFits`).
- A handshake keeps what was collected before it, also for another client, leaves the machine
  tick of the last push as it was, while the client starts from 0, and leaves full indexes on
  for later clients that did not ask for them (`PushOfKeptData`, `HelloRejected`,
  `StickySchema`; `HelloAccepts`, `KeptAccepts`, `InitialAccepts` and `FreshAccepts`).

## Model

| member | source | states |
|---|---|---|
| Topology.TopologicalSort | pkg/machine/relations.go:501-535 | fails exactly when the graph has a cycle; otherwise lists every node once, after all its successors |
| Topology.Sorter.Visit | pkg/machine/relations.go:506-525 | a visit either finds a cycle through the open trail or settles the node and keeps the stack topological |
| Topology.NewSchema | pkg/machine/relations.go:52-76 | the Require order of a schema is topological, or empty when Require is cyclic |
| Topology.RequiredComesFirst | pkg/machine/relations.go:233-239 | with acyclic Require every requirement has a strictly smaller position in the order |
| Sorting.SortPermutes | pkg/machine/relations.go:200-239 | sorting neither loses, adds nor repeats a state, whatever the comparator |
| Sorting.SortAscending | pkg/machine/relations.go:233-239 | sorting by the Require order leaves positions ascending |
| Sorting.SortStable | pkg/machine/relations.go:233-239 | states of equal position, such as all of them when Require is cyclic, stay in their order |
| Sorting.SortNeighbours | pkg/machine/relations.go:200-231 | no two neighbours of a sorted list are in the wrong order, also where the comparator is not transitive |
| DefaultResolverFacts.SortedByRequire | pkg/machine/relations.go:233-239 | any list is permuted so that each state follows the required states present in it |
| Schemas.KernelIsGreatest | pkg/machine/relations.go:315-347 | the reference for pruning: the greatest Require-closed subset exists and is this set |
| DefaultResolver.ParseRequire | pkg/machine/relations.go:315-347 | the pruning loop terminates with exactly the greatest Require-closed part, in the given order |
| DefaultResolver.RequireRound | pkg/machine/relations.go:321-331 | a round of pruning drops nothing supported, and a round without loss ends closed |
| DefaultResolver.ParseAdd | pkg/machine/relations.go:242-287 | the repeated sweep adds one level of Add, each state's once, then stops |
| DefaultResolver.AllImpliedMember | pkg/machine/relations.go:250-283 | what is added is exactly what some listed state implies |
| DefaultResolver.DropBlocked | pkg/machine/relations.go:98-131 | the filter with its set of blocked names keeps exactly the survivors |
| DefaultResolver.SurvivorsAreKernel | pkg/machine/relations.go:102-113 | a state survives if and only if each of its removers was taken earlier and did not survive |
| DefaultResolver.SurvivorsAgree | pkg/machine/relations.go:94-131 | no survivor removes a survivor |
| Precedence.UnblockedIff | pkg/machine/relations.go:94-131 | a candidate survives if and only if each of its removers comes later in the list and does not survive |
| Precedence.MutualRemoval | pkg/machine/relations.go:94-131 | where states only remove each other both ways, a candidate survives if and only if it conflicts with none before it |
| Precedence.CandidateOrder | pkg/machine/relations.go:89-93 | requested candidates come in the order of the request, before the implied ones |
| Precedence.EarlierIsTargeted | pkg/machine/relations.go:79-157 | a requested state without requirements is targeted if it removes every competitor that removes it and none of these was requested before it |
| Precedence.EarlierWins | pkg/machine/relations.go:94-131 | of requested states that remove each other the first one wins: a state nothing adds is targeted if and only if no competitor that removes it was requested before it |
| Precedence.FirstAddWins | pkg/machine/relations.go:242-287 | of states that remove each other and are added by the first requested state, the first in its Add is targeted |
| Precedence.RequestOrder | pkg/machine/relations.go:133-157 | where Require is cyclic, After is not used and nothing conflicts, requested states are targeted in the order of the request |
| Precedence.AfterNeighbours | pkg/machine/relations.go:200-231 | no target directly precedes one it is to come after, unless each is to come after the other |
| Plans.AddedIsPlanned | pkg/machine/transition.go:187-224 | a called state without requirements is planned even if a state that it removes, and that removes it, is active |
| Plans.AddSwitches | pkg/machine/relations.go:94-131 | adding a member of an exclusive group, when everybody agrees, leaves it the only active member, whichever was active before |
| Plans.PlanOfAdds | pkg/machine/relations.go:242-287 | where only Add decides, each type of mutation plans exactly what it asks for and two levels of Add, where an active state adds nothing unless it is Multi and nothing adds what is to be removed |
| Plans.ExitsOrdered | pkg/machine/transition.go:465-486 | with acyclic Require and no After, exits list requirements first as well |
| DefaultResolver.TargetStates | pkg/machine/relations.go:79-157 | the imperative resolution refines the specification `Targets`; what that means for a request is stated without it by `EarlierWins`, `PlanOfAdds`, `ConflictFreeTargets`, `RequestOrder` and `AfterNeighbours` |
| DefaultResolverFacts.SettleOrigin | pkg/machine/relations.go:133-153 | every target is a survivor or implied by one, and no survivor removes it |
| DefaultResolverFacts.TwoLevelsOfAdd | pkg/machine/relations.go:79-157 | where only Add decides, a state is targeted if and only if it was requested or is at most two levels of Add away |
| DefaultResolverFacts.AddIsTransitive | pkg/machine/relations.go:242-287 | where only Add decides, the targets are closed under Add if and only if no third level leads anywhere new |
| DefaultResolverFacts.CandidatesAsSet | pkg/machine/relations.go:89-93 | whatever the order of the request, the candidates are the Require kernel of the request and one level of Add |
| DefaultResolverFacts.SettleAsSet | pkg/machine/relations.go:133-153 | the targets are the Require kernel of the survivors and one more level of Add, less everything a survivor removes |
| DefaultResolverFacts.ConflictFreeTargets | pkg/machine/relations.go:79-157 | when no two candidates conflict, the whole resolution has an order-free description as sets |
| DefaultResolverFacts.PlainTargets | pkg/machine/relations.go:79-157 | when nothing is implied, the targets are the greatest Require-closed part of the request if and only if that part is conflict-free |
| DefaultResolverFacts.RemoveTargets | pkg/machine/transition.go:192-200 | a Remove mutation plans the greatest Require-closed part of active minus called if and only if that part is conflict-free, where Multi states have no Add |
| DefaultResolverFacts.RemoveNeverTargetsCalled | pkg/machine/relations.go:260-270 | in every schema a Remove mutation plans no called state |
| DefaultResolverFacts.DefaultIsSound | pkg/machine/relations.go:79-157 | for every request the targets are free of repetitions, closed under Require and, as long as Add stays inside the schema, inside the schema; sorting permutes |
| DefaultResolverFacts.UnknownIsTargeted | pkg/machine/schema.go:326-358 | an unknown name that parsing keeps in Add is planned as soon as its state is added to a machine with nothing active |
| DefaultResolverFacts.PlansKnownIff | pkg/machine/schema.go:326-358 | for parsed schemas, no mutation of known states ever plans an unknown one if and only if Add stays inside the schema |
| DefaultResolverFacts.DefaultIsOrdered | pkg/machine/relations.go:155-157 | with acyclic Require and no After, targets list requirements first |
| DefaultResolverFacts.DefaultSeparates | pkg/machine/relations.go:98-153 | no request ever targets two members of a group that remove each other and that nothing adds |
| DefaultResolverFacts.DefaultOnlyRequire | pkg/machine/relations.go:79-157 | without Add and Remove the targets are exactly the Require kernel of the request |
| TransitionFacts.RunKeeps | pkg/machine/machine.go:1984-2056 | every run, with vetoes, partial acceptance, repeated recovery and restarts, keeps parity and known names and never decreases a tick |
| TransitionFacts.RunIsMonotone | pkg/machine/machine.go:1993-2023 | ticks never decrease from any point of a run to any later one |
| TransitionFacts.RestoredIsSame | pkg/machine/machine.go:3514-3529 | importing an export gives back every tick and the same active set, once each |
| TransitionFacts.RunExclusive | pkg/machine/machine.go:1815-1848 | states a resolver keeps apart are never active together after any run, recovery included |
| Recovery.RecoveryClosed | pkg/machine/machine.go:1815-1848 | in every schema, a failed final phase keeps the active set closed under Require if and only if no targeted active state that is not called again requires an active Multi state that is, and whose handler did not complete, and no entered state that completed requires one that did not |
| Recovery.EveryFailureCloses | pkg/machine/machine.go:1815-1848 | the same before the call, without knowing which handler will fail: every failure keeps the set closed if and only if no targeted active state requires an active Multi state that is called again and no entered state requires one entered after it |
| Recovery.OrderedInOrder | pkg/machine/transition.go:465-486 | with an ordering resolver entered states always come in the order of Require |
| Recovery.FailedExactly | pkg/machine/machine.go:1815-1848 | after a failure exactly the targets are active that were not entered from the failing step on; a failing exit handler loses none |
| Recovery.FailedTicks | pkg/machine/machine.go:1815-1848 | a state that entered and was dropped ticks once more, and every repeated recovery ticks an active Multi state that is called by 2 again |
| Recovery.RunKeepsClosed | pkg/machine/transition.go:747-771 | every reachable active set holds the requirements of its members, as long as final handlers fail only where that condition holds |
| Runs.EveryRunKeepsParity | pkg/machine/machine.go:1984-2056 | from a fresh machine with the default resolver, active means odd tick after every run |
| Runs.EveryRunSeparates | pkg/machine/relations.go:98-153 | from a fresh machine, at most one member of an exclusive group is active after every run |
| Runs.EveryRunKeepsClosed | pkg/machine/relations.go:79-157 | from a fresh machine with the default resolver, the active set is closed under Require after every run in which final handlers fail only where that condition holds |
| Runs.LayeredIsSafe | pkg/machine/relations.go:233-239 | with acyclic Require and no After the condition is only about active Multi states that are called again |
| Runs.EveryDrainSettles | pkg/machine/transition.go:829-840 | without Add and Remove, when everybody agrees, draining plain mutations leaves no auto state of the schema inactive that Require supports from all auto states and the active ones, unless no tick changed |
| Limits.ReentryBreaksClosure | pkg/machine/machine.go:1815-1848 | a concrete run in which recovery leaves a state active without its requirement |
| Limits.CycleBreaksClosure | pkg/machine/machine.go:1815-1848 | two states that require each other, the second handler fails: the first stays active alone, in either order |
| Limits.AddStopsAfterTwo | pkg/machine/relations.go:242-287 | adding the first of four states, each adding the next, targets exactly the first three |
| Limits.ReentryIsNotReported | pkg/machine/transition.go:773-787 | an auto transition ticks an active Multi state from 1 to 3 and reports nothing |
| WaitLimits.RepeatedWaitStaysOpen | pkg/machine/subscriptions.go:859-921 | a wait for a state passed twice is opened, its times come, processing leaves it open, and the same wait again returns it |
| WaitLimits.RepeatedWaitClosesTwice | pkg/machine/subscriptions.go:279-299 | a wait listed twice under the state that closes it is returned twice, and both entries go |
| WaitLimits.RepeatedWaitDropsAnother | pkg/machine/subscriptions.go:324-354 | a wait for [a, a, c] closed by c stays listed under a; the next tick of a returns it again and deletes the list of c with another wait in it, which is then never returned |
| Limits.QueueDuplicate | pkg/machine/machine.go:1368-1378 | with Add and Remove of a state queued, adding it again is skipped |
| Limits.DuplicateMatters | pkg/machine/machine.go:1368-1378 | draining that queue with and without the skipped mutation ends with different ticks |
| Effects.TicksFollowHandlers | pkg/machine/machine.go:1993-2023 | in an accepted transition that is not auto, a tick changes exactly for entered and exited states, by 2 for a re-entered Multi state and otherwise by 1 |
| Effects.AllCalledOrNothing | pkg/machine/transition.go:884-925 | an Add or Set mutation makes every called state active or changes nothing, and lands if and only if all called states are resolved, nobody vetoes and it is no check |
| Effects.PassesIff | pkg/machine/transition.go:884-925 | negotiation passes when nobody vetoes and: a removal always, an auto mutation when some called state is planned and something planned is not rejected, any other when all called states are planned, a check also when it calls a Multi state |
| Effects.MutationMeaning | pkg/machine/transition.go:187-224 | where only Require decides, a landed Add, Remove or Set mutation activates exactly the Require kernel of active plus called, active minus called, or called |
| Effects.PartialAuto | pkg/machine/transition.go:751-762 | a partly rejected auto transition ends exactly as if the rejected states had not been called |
| Effects.ReportIsExact | pkg/machine/transition.go:773-787 | reported states are free of repetitions, deactivated ones are exactly those that went inactive, activated ones are active and include all that became so; together they are exactly the states that ticked if and only if no auto mutation re-enters an active Multi state |
| Effects.NewAutoMutation | pkg/machine/relations.go:160-197 | collects exactly the states of the schema that are auto, inactive and removed by no active state, each once, in any order |
| Effects.AutoReaches | pkg/machine/transition.go:751-762 | where only Require decides, an auto transition nobody rejects activates exactly what Require supports |
| Effects.AutoSettles | pkg/machine/transition.go:751-762 | one auto transition nobody rejects settles the machine: Require supports no further auto state |
| Effects.AutoFixpoint | pkg/machine/transition.go:829-840 | after one auto transition and its recheck, a further auto mutation changes nothing, whatever its handlers answer |
| Queue.QueueTicksAlign | pkg/machine/machine.go:1406-1438 | in every interleaving of appends, prepends and shifts the i-th ticked item carries the queue tick plus i, a shifted item is due exactly then, and a returned tick is at least 2 |
| Queue.ShiftAligned | pkg/machine/machine.go:2169-2184 | taking a ticked item advances the queue tick to exactly its own |
| Queue.PrependAligned | pkg/machine/machine.go:887-902 | prepending keeps the ticks aligned if and only if the mutation carries none |
| Queue.WeightBound | pkg/machine/machine.go:2161-2226 | the measure of a queue is at most twice its length |
| Draining.DrainedIsSettled | pkg/machine/machine.go:2161-2226 | where only Require decides and everybody agrees, draining a queue ends in a settled machine, or no tick has changed |
| Draining.QueueAfterIs | pkg/machine/transition.go:829-840 | the front gives way to an auto mutation that calls every callable auto state if and only if it landed, ticked, was neither auto nor the addition of one health state, and there is such a state |
| Draining.DrainedInOrder | pkg/machine/machine.go:2161-2226 | auto mutations aside, exactly the queued mutations are processed, in their order |
| Draining.IdleKeepsTicks | pkg/machine/transition.go:187-224 | a mutation leaves every tick alone if and only if what it adds is active or cannot be, what it removes is inactive, or what it sets is active or cannot be |
| Duplicates.DrainsAlike | pkg/machine/machine.go:2161-2226 | a queue drains to the same ticks and active states whatever order auto mutations list their states in |
| Duplicates.SkipIsHarmless | pkg/machine/machine.go:1368-1378 | draining a queue without a skipped mutation ends with the ticks of draining it with the mutation appended if and only if the mutation is idle in the drained machine |
| Draining.DuplicateIsIdle | pkg/machine/machine.go:1368-1378 | right after a mutation has landed, a duplicate of it is idle |
| Machine.Machine.constructor | pkg/machine/machine.go:218-250 | a new machine has all clocks at 0, nothing active, queue tick 1, and a sound resolver |
| Machine.Machine.QueueMutation | pkg/machine/machine.go:1354-1440 | appends with an aligned tick of at least 2, or skips exactly the duplicates without arguments and Multi states |
| Machine.QueuedIff | pkg/machine/machine.go:2855-2876 | a duplicate is a queued mutation, no check and without arguments, of the same type, that calls exactly as many states, the new ones among them |
| Machine.Machine.PrependMut | pkg/machine/machine.go:877-905 | puts any mutation in front; the machine stays valid if and only if the mutation has no queue tick |
| Machine.Machine.Shift | pkg/machine/machine.go:2169-2184 | the queue tick equals the tick of the mutation taken, and the pending counter stays exact |
| Machine.Machine.SetActiveStates | pkg/machine/machine.go:1984-2056 | the two loops tick new, re-entered and removed states exactly as `SetActive` says, and keep parity |
| Machine.Machine.Time | pkg/machine/machine.go:833-851 | machine time lists the tick of every state name in order |
| Machine.Machine.Import | pkg/machine/machine.go:3498-3545 | succeeds exactly for the right number of known names and leaves the taken prefix otherwise; ticks and active states agree afterwards if and only if no odd tick is left out and only the last entry of a name is odd |
| Importing.ImportedParity | pkg/machine/machine.go:3514-3529 | that condition is exact for every imported prefix, names repeated or not |
| Importing.ImportOfExport | pkg/machine/machine.go:3468-3529 | importing an export into any machine of the same schema is the restart of the exporter |
| Execution.PredictTime | pkg/machine/transition.go:130-158 | the time predicted before negotiation equals the clock set afterwards for the same targets |
| Execution.Transition.constructor | pkg/machine/transition.go:76-184 | targets, acceptance, enters, exits and predicted time of a new transition |
| Execution.Transition.Negotiate | pkg/machine/transition.go:713-771 | passes exactly when accepted and not vetoed and, for an auto mutation, not fully rejected; an auto transition is resolved again from what is left |
| Execution.Transition.Commit | pkg/machine/transition.go:765-794 | clocks, active states and the report to subscriptions after a passed negotiation |
| Execution.Transition.RecoverFinalPhase | pkg/machine/machine.go:1815-1848 | drops the entered states from the failing one on and ticks them |
| Execution.DropFrom | pkg/machine/machine.go:1822-1842 | walking over exits and enters removes exactly the suffix that starts at the failing state |
| Execution.Transition.FailFinals | pkg/machine/transition.go:806-812 | repeated recovery refines `Recovered` |
| Execution.Execute | pkg/machine/transition.go:693-882 | one mutation with its handler answers refines the transition function `Next` |
| Execution.QueueAuto | pkg/machine/transition.go:829-840 | puts an auto mutation in front that calls exactly the states that are auto, inactive and removed by no active state, or leaves the queue alone when there is none |
| Execution.ProcessFront | pkg/machine/machine.go:2161-2226 | one iteration runs the front mutation and leaves exactly the rest of the queue, with an auto mutation in front if and only if the transition landed, ticked, and was neither auto nor a health check |
| Execution.ProcessQueue | pkg/machine/machine.go:2137-2250 | exactly the queued mutations are processed, in their order, each followed by its auto mutation, until the queue is empty; that takes at most two transitions per queued mutation and is exactly a run, to which the results over runs apply |
| Bindings.Binding.Switch | pkg/machine/subscriptions.go:139-172 | one flag is set, the counter stays exact, and the total is reached if and only if all flags match and the binding can close |
| Indexes.Index.Insert | pkg/machine/subscriptions.go:700-734 | a new binding is listed under each of its states, as often as the state was passed |
| Indexes.Index.Visit | pkg/machine/subscriptions.go:136-178 | a binding is touched, its counter stays exact, and it is taken out when the counter is at the total, also when it was before |
| Indexes.Index.Release | pkg/machine/subscriptions.go:217-253 | for each state of the binding, a list of length 1 goes away whatever it holds, otherwise one entry of the binding goes |
| Indexes.SweptExact | pkg/machine/subscriptions.go:324-354 | taking out open bindings, each once, leaves exactly the others listed if and only if none of them was made for repeated states |
| Indexes.Index.TouchState | pkg/machine/subscriptions.go:129-182 | for any index: every entry of the list is visited, the bindings at their total are returned once for each entry, and the lists are swept of them one after the other |
| Indexes.Index.TouchOpen | pkg/machine/subscriptions.go:129-182 | from an exact index: exactly the open bindings that reach their total are returned; the index stays exact and each is returned once if and only if none was made for repeated states |
| Subscriptions.Await | pkg/machine/subscriptions.go:671-790 | When and WhenNot: closed at once exactly when satisfied, otherwise a binding for exactly these states, reused if there is one |
| Subscriptions.FullIsDue | pkg/machine/subscriptions.go:125-188 | a binding that becomes full at any point of the walk is due |
| Subscriptions.ProcessWhen | pkg/machine/subscriptions.go:125-188 | returns exactly the due bindings, each once, and leaves exact flags, also for bindings opened by final handlers |
| TimeSubscriptions.TimeFlags | pkg/machine/subscriptions.go:888-898 | one flag per state from its last occurrence, a counter of all occurrences, and when the counter can reach the total |
| TimeSubscriptions.AwaitTime | pkg/machine/subscriptions.go:859-921 | WhenTime for any lists of states, repetitions included: a matching open binding is returned whatever the clock says, otherwise closed at once exactly when all times have come; whichever binding is returned can ever close if and only if all but the last occurrence of each state had come when it was made |
| TimeSubscriptions.PassedIsReached | pkg/machine/subscriptions.go:859-921 | all times have come if and only if the earlier occurrences have and the awaited last ones have |
| TimeSubscriptions.ClosedAreDue | pkg/machine/subscriptions.go:257-302 | in any index, what is returned can close and all its times have come |
| TimeSubscriptions.ProcessWhenTime | pkg/machine/subscriptions.go:257-302 | only bindings that can close and whose times have all come are returned; all of them are, each once, and the others stay listed with exact flags, if and only if none of them was made for repeated states |
| TimeSubscriptions.AwaitSum | pkg/machine/subscriptions.go:923-965 | keeps the list strictly ascending, one channel per sum, closed exactly when reached and not listed |
| TimeSubscriptions.ProcessWhenTimeSum | pkg/machine/subscriptions.go:356-376 | closes precisely the sums that are reached and keeps the rest in order |
| Live.ProcessStateCtx | pkg/machine/subscriptions.go:90-121 | splits contexts into those of reported states and the rest |
| Live.ReportedExpire | pkg/machine/subscriptions.go:90-121 | contexts that stay are bound to the current tick, cancelled ones to a strictly smaller one |
| Live.LiveMachine.NewStateCtx | pkg/machine/subscriptions.go:637-669 | a context is bound to the current tick of its state, shared per state |
| Live.LiveMachine.When | pkg/machine/machine.go:556-590 | may be called at any time, also between commit and processing: closed at once exactly when satisfied, otherwise an open wait for exactly these states; all other waits stay open |
| Live.LiveMachine.WhenTime | pkg/machine/machine.go:601-628 | the same for times, the last one passed for a state counting, with lists that do not fit closed at once; between transitions a wait whose times have all come is returned open only if it can never close |
| Live.LiveMachine.WhenTimeSum | pkg/machine/machine.go:639-662 | closed at once exactly when the sum is reached, otherwise listed once in order |
| Live.LiveMachine.Begin | pkg/machine/transition.go:767-787 | live contexts always carry the current tick, every context cancelled by a transition a strictly smaller one, unless an auto mutation re-enters an active Multi state |
| Live.LiveMachine.Finish | pkg/machine/machine.go:2253-2276 | closes exactly the waits for states that are due, each once, and keeps all others open, each of them unsatisfied now; closes the reached sums and keeps the others; the same for times, with every open wait exact afterwards, if and only if no wait due on time was made for repeated states |
| ClockSync.GenDeepUpdate | pkg/rpc/rpc_server.go:1348-1381 | the loop over tracked states refines the list of changes in both index spaces |
| ClockSync.GenShallowUpdate | pkg/rpc/rpc_server.go:1383-1419 | the same for shallow clocks |
| Updates.CalcUpdate | pkg/rpc/rpc_server.go:1305-1323 | a deep update takes a client in sync with the last push to the tracked clock of the data if and only if every difference fits; a shallow one takes any client whose tracked activity agrees with the last push to the activity of the data; both carry the narrowed queue and machine tick differences and the checksum |
| Updates.CalcUpdateMutations | pkg/rpc/rpc_server.go:1327-1346 | one update for each mutation, relative to the one before it; where each fits, a client in sync visits the tracked clock of every one in turn |
| Updates.EmptyUpdate | pkg/rpc/rpc_server.go:1348-1381 | a deep update lists no change if and only if no tracked tick differs |
| Updates.EmptyShallowUpdate | pkg/rpc/rpc_server.go:1383-1419 | a shallow update lists no change if and only if no tracked activity differs |
| ClockSync.ClockFromUpdate | pkg/rpc/rpc_client.go:856-878 | every listed tick is added at its index, indexes out of range are skipped |
| ClockSyncFacts.ChangesDelta | pkg/rpc/rpc_server.go:1348-1381 | an update adds to each tracked tick its difference modulo 2^32 and to no other tick anything |
| ClockSyncFacts.MaskedSum | pkg/rpc/rpc.go:800-801 | the tracked sum is the sum of the time with untracked states at 0 |
| ClockSyncFacts.DriftDetection | pkg/rpc/rpc_client.go:950-1007 | for any client clock and any differences, an update is accepted if and only if the client's total agrees modulo 256 with the total pushed last |
| Acceptance.AcceptsIff | pkg/rpc/rpc_client.go:950-1007 | whatever was collected, pushed last and held by the client, an update is accepted if and only if the client's total and what the update means to add agree with its checksum |
| Acceptance.StepsBetween | pkg/rpc/rpc_server.go:1348-1381 | in one index space an update means the difference of the tracked sums, less what the client has no place for |
| Acceptance.StepsFromNothing | pkg/rpc/rpc_server.go:1366-1373 | compared with nothing it means the tracked sum, less the ticks of states whose number points at a 0 |
| Replication.InSyncAccepts | pkg/rpc/rpc_client.go:950-1007 | a client in sync never rejects the next update |
| Replication.UpdateExact | pkg/rpc/rpc_server.go:1305-1323 | from a client in sync the update leads to the new tracked clock if and only if every difference fits its width |
| Replication.BatchVisitsAll | pkg/rpc/rpc_client.go:1010-1026 | a batch passes every checksum and visits exactly the tracked clock of each mutation in turn |
| Replication.BatchExact | pkg/rpc/rpc_server.go:1327-1346 | a batch visits exactly the clocks of its mutations if and only if its first one fits the last push |
| Replication.ResentFits | pkg/rpc/rpc.go:766-776 | a queue that starts no later than the last push fits it if and only if nothing tracked has happened in between |
| Replication.SkippedPush | pkg/rpc/rpc_server.go:819-822 | after a push that was not sent, of whatever data, the next update is accepted if and only if the client's total agrees modulo 256 with what the server takes it to be |
| Replication.ShallowParity | pkg/rpc/rpc_server.go:1383-1419 | a shallow update adds 1 to the tracked ticks of a client whose activity changed and nothing to any other, so tracked states are as active as in the data however many activations were skipped |
| Servers.TrackedIndexes | pkg/rpc/rpc.go:921-933 | tracked indexes are distinct, inside the schema, and point at the tracked names |
| Servers.TrackedRises | pkg/rpc/rpc.go:921-933 | tracked indexes are in schema order |
| Servers.Server.CalcTrackedStates | pkg/rpc/rpc.go:921-933 | tracked states are the allowed ones that are not skipped, in schema order, with their indexes |
| Servers.Server.RemoteHello | pkg/rpc/rpc_server.go:941-988 | the export is masked or filtered to tracked states and remembered as the last push, whose machine tick stays; full indexes stay on once asked for; the queue of mutations stays |
| Servers.HelloAccepts | pkg/rpc/rpc_server.go:941-988 | after a handshake, the first update of the next message, from whatever data was kept or collected, is accepted if and only if the exported ticks and what it means to add agree with its checksum, less the machine tick pushed last |
| Servers.KeptAccepts | pkg/rpc/rpc_server.go:984-988 | for data in the index space in use: if and only if the exported ticks it does not track, less its own ticks the client has no place for, are that machine tick modulo 256 |
| Servers.InitialAccepts | pkg/rpc/rpc_server.go:263-274 | for the initial data: nothing to send, and as a response if and only if the exported sum plus 1 is that machine tick modulo 256 |
| Servers.FreshAccepts | pkg/rpc/rpc_server.go:974-988 | for data collected after the handshake: computable if and only if this client asked for full indexes, or none did, or tracked states come first, and then accepted if and only if that machine tick is 0 modulo 256 |
| Servers.CollectIsCollected | pkg/rpc/rpc.go:798-822 | the checksum of collected data covers exactly its tracked positions, in both index spaces |
| Servers.Server.TransitionEnd | pkg/rpc/rpc.go:798-843 | the data holds the tick (or activity) of every tracked state at its position with the sum of exactly these ticks (with shallow clocks, of the whole collected time) and a checksum over it, becomes the latest and, with mutations synced, joins the queue |
| Servers.Server.DataQueue | pkg/rpc/rpc.go:766-776 | hands out the whole queue, keeps it, and forgets the latest data |
| Servers.Server.NewMsgMutation | pkg/rpc/rpc_server.go:834-859 | with mutations synced a response carries one update for every queued mutation, and a client in sync with the last push visits the tracked clock of each where they fit; otherwise the one update brings such a client to the latest data, or to the activity in it; the latest data becomes the last push |
| Servers.Server.PushClient | pkg/rpc/rpc_server.go:746-826 | nothing happens when there is no data or neither tracked sum nor queue tick moved; otherwise the same for a push, except that an update is dropped, and yet remembered, if and only if no tracked tick (or activity) differs |
| SyncLimits.WideQueueDrifts | pkg/rpc/rpc_server.go:1316-1322 | a queue tick that advanced by 2^16 passes the checksum unseen |
| SyncLimits.SkippedPushDrifts | pkg/rpc/rpc_server.go:819-822 | only the queue tick moved: nothing is sent and the next update is rejected |
| SyncLimits.PushBeforeTransition | pkg/rpc/rpc_server.go:746-826 | a handshake, a push before any transition, a transition: the update is rejected, in one index space and with machine tick 0 |
| SyncLimits.PushOfKeptData | pkg/rpc/rpc_server.go:941-988 | data collected for one client is pushed to the next, which tracks another state, and rejected |
| SyncLimits.HelloRejected | pkg/rpc/rpc_server.go:984-988 | after a client that saw machine tick 1 the next one rejects its first update |
| SyncLimits.StickySchema | pkg/rpc/rpc_server.go:974-982 | a client without full indexes after one with them: the first update looks up a missing entry |
| SyncLimits.ResentQueueDrifts | pkg/rpc/rpc.go:766-776 | a queue sent again passes every checksum and leaves the client 2^32 ahead |
| NetMachine.Visit | pkg/rpc/netmach.go:1461-1471 | everything visited from here on has its requirements visited and listed, and nothing outside any closed superset is listed |
| NetMachine.ActivateRequired | pkg/rpc/netmach.go:1450-1479 | the smallest Require-closed set around the active states, cycles included, each state once and the active ones first |
| NetMachine.NetMach.UpdateClock | pkg/rpc/netmach.go:1361-1446 | shows the smallest closed set around the odd ticks, and reports what became active and inactive |
| NetMachine.NetMach.ClockUpdate | pkg/rpc/rpc_client.go:939-1007 | an accepted update advances the mirror, a rejected one changes nothing |
| NetMachine.NetMach.ClockUpdateMutations | pkg/rpc/rpc_client.go:1010-1026 | a batch is applied up to its first rejected update |
| NetMachine.NetMach.constructor | pkg/rpc/rpc_client.go:803-836 | a mirror made from a handshake holds the exported time and machine tick 0 |
| Mirroring.ClientTicks | pkg/rpc/rpc_server.go:954-968 | in both index spaces a client in sync holds each tracked tick under its name, and 0 elsewhere |
| Mirroring.MirrorIsFaithful | pkg/rpc/netmach.go:1374-1384 | a client in sync with a Require-closed source shows nothing active that is inactive there, and tracked states exactly |
| Mirroring.FullMirror | pkg/rpc/netmach.go:1374-1384 | a client in sync that tracks all states shows exactly the active set of a Require-closed source |
| Mirroring.RunIsMirrored | pkg/rpc/rpc_client.go:1010-1026 | for one batch, whatever the source did meanwhile, a client in sync with the last push visits the tracked clock of every reading, and its picture is faithful at each of them, or exact if it tracks all states |

## Left out

- Goroutines, locks, timeouts, backoff, deadlines and disposal: there is one processing loop, and handler outcomes are arbitrary.
- The order that After produces between states that are not neighbours: its comparator is not transitive. Beyond 20 elements Go's stable sort merges blocks, which a non-transitive comparator can tell from the insertion sort of the model.
- The in-place slice deletions of partial auto acceptance: they are a set of rejected auto states followed by the recheck. An exit handler that rejects an auto state in an auto transition looks up an index of -1 there, which is not modelled.
- The result values (Executed, Canceled) of transitions, except the queue ticks.
- SetSchema and runs across a schema change.
- Subscription contexts and their expiry, WhenArgs, WhenQuery, WhenQueue and WhenQueueEnds.
- Live.LiveMachine.Begin: final handlers complete, because the source does not process subscriptions after a recovered final phase.
- DefaultResolverFacts.DefaultIsSound: an unknown name left in Add is excluded, because the source indexes out of range when it is planned.
- Machine.Machine.constructor: the same.
- Execution.ProcessQueue: handlers enqueue nothing while the queue drains; mutations with a cancelled context, Eval mutations and the Exception mutation that a panic prepends are not modelled.
- Machine.Machine.Import: the machine ID, the machine tick and the MachineRestored mutation are not modelled.
- Clocks and queue ticks are unbounded; the 64-bit wrap-around of sums is not modelled (it does not change totals modulo 256).
- Push scheduling and throttling by time (a push is attempted or not), responses when no transition was collected since the last batch, full resynchronisation, and acceptance of shallow updates.
- The machine clock map of the client, which repeats its machine time, and its queue flushing, tracers, handlers and subscriptions.
- Network transports, encoding, telemetry, rendering, logging, history and process supervision.
