# Verified model of Sibyl's core

This project models the parts of the Sibyl agent framework whose behaviour spans several functions or
several concurrent parties, and proves what they promise. Each module stands for one component:

| module | component |
|---|---|
| `Ordering` | string order, ascending listings of finite sets, insertion sort; shared by the others |
| `Text` | white space and trimming of UTF-8 bytes |
| `PlanGraph`, `Plan` | plans as dependency graphs: what layers mean, the counting algorithm that computes them, validation, layered options |
| `PlanWorkflow`, `PlanRuns` | executing a plan on a cluster whose activities finish in any order, and why every interleaving gives the result of evaluating the nodes one by one |
| `Calculator`, `CalculatorMeaning` | the recursive-descent calculator that evaluates while it parses, its grammar, the round trip from formulas, and its answers in terms of written decimal numbers |
| `Broker`, `BrokerRuns` | the in-memory event broker and what each subscriber receives over a whole run of calls |
| `BrokerRaces`, `BrokerInterleavings`, `BrokerRefinement` | the same broker with concurrent calls interleaved operation by operation: when it panics, what is delivered and counted, and how it refines to atomic calls |
| `OAuthProtocol`, `OAuthService` | the authorization-code protocol as interleaved steps (RFC 6749, sections 4.1 and 10.12), and the two entry points as code running among those steps |
| `OAuthWorkflow` | the durable workflow that waits for the callback, exchanges with the PKCE verifier (RFC 7636, section 4.5), identifies and stores |
| `TokenStore`, `TokenRefresh` | the sealed token store and the refreshing callers over it (RFC 6749, section 6) |
| `Dispatch` | posting to channels, and the race of several channels' waiters for a verdict |
| `Caches`, `Retry` | the two TTL caches, memoizing through a cache, and retry with exponential backoff in 64-bit nanoseconds |
| `Decompose` | the heuristic question splitter |

Conventions. Code that changes state step by step is a class or a method with loops, proved against a
specification function or relation; what the component promises is then proved about that
specification as lemmas over all inputs, runs or reachable states. Concurrency appears in two forms: a
state machine over atomic steps (`OAuthProtocol`, `BrokerRuns`, `BrokerRaces`), and methods between whose effects
other parties take any number of steps (`Cluster.Progress`, `Service.Others`, `Race.Progress`); a
`Service` records the steps taken, which always form a run of `OAuthProtocol`.
Choices the program does not control (map iteration order, completion order, answers of remote
services, jitter, cancellation) are nondeterministic; clocks, generated identifiers, routing decisions
and registry answers are parameters.

`dafny verify dfyconfig.toml` checks everything.

Findings about the code, with the member that states each:

- The calculator accepts a unary `+` that its grammar comment and description do not mention, for
  instance in `+1` (`Calculator.PlusAccepted`). An accepted string is one of the documented grammar
  exactly when no `+` stands, white space skipped, at its start, after an operator or after `(`
  (`Calculator.PlusExactly`, agent/tools_builtin.go:283-286). The model follows the code.
- Cancelling a subscription for the first time after `Close` has shut its channel panics
  (`BrokerRuns.PanicsExactly`, `BrokerRuns.CancelAfterClosePanics`).
- A publication panics when a cancel or `Close` closes a channel between its snapshot and its send on
  that channel, although a comment at agent/broker.go:198-201 takes the closed flag to guard the sends
  (`BrokerRaces.PanicsExactly`, `BrokerRaces.CancelRaces`, `BrokerRaces.CloseRaces`,
  `BrokerRaces.RaceReached`). A publication under way when `Close` begins may also still deliver to a
  subscriber that joins later (`BrokerInterleavings.LateDelivery`), and only such a one
  (`BrokerInterleavings.ClosedAdmitsNone`).
- `WithRetry` panics in its jitter for some answers of the inner call exactly when it may retry and the
  initial delay is below two nanoseconds or the last doubling overflows (`Retry.PanicsExactly`,
  `Retry.OneNanosecondPanics`).
- Two prompt pairs share their cache key exactly when a NUL inside one system prompt is the other's
  separator, and every system prompt with a NUL has such a partner (`Caches.KeysCollideExactly`,
  `Caches.NulCollides`).
- A table entry is answered for ever exactly when its expiry falls into the epoch's first second
  (`Caches.NeverExpires`).
- `Await` on several channels of which none can wait reports a timeout at once, and an empty choice is
  returned as a verdict exactly by a single channel that answers one (`Dispatch.Dispatcher.Await`).
- `Await` can lose a verdict: when the caller's context is done it may report that although a winning
  answer is already queued, because the code's `select` takes either ready case. That is the only way
  for the winner that arrived first not to be the result (`Dispatch.Dispatcher.FirstArrivedWins`).
- The question splitter slices a text at offsets found in its lower-cased form. It panics exactly when
  the last separator found there ends beyond the text (`Decompose.SplitPanicsExactly`), as for two
  letters U+023A before " and " (`Decompose.StrokesPanic`), and it cuts at the separators exactly when
  they stand at the same offsets in both (`Decompose.SplitRightExactly`), as in all ASCII text
  (`Decompose.AsciiSplitsRight`) but not after a Kelvin sign (`Decompose.KelvinMiscut`).
- For plans with repeated identifiers, the count in the cycle error depends on the order of the nodes
  (`Plan.RepeatedCountDependsOnOrder`). It does not when identifiers are unique
  (`Plan.LayersIgnoreOrder`), or the order keeps how much the last node of each name requires
  (`Plan.StuckIgnoresOrder`).

## Model

| member | source | states |
|---|---|---|
| `Ordering.SortStrings` | plan/plan.go:240 | sorting gives a permutation of the input in which no string comes before an earlier one in byte order |
| `Ordering.LessIsBefore` | plan/plan.go:240 | the order sorted by is the byte order: at the first difference the first string ends or has the smaller byte |
| `Ordering.SortedDistinctIsListing` | plan/plan.go:231-240 | whatever order a set is listed in, sorting it gives the one ascending listing of the set |
| `PlanGraph.WithinGrows` | plan/plan.go:230-249 | what is peeled in `k` rounds stays peeled in the next |
| `PlanGraph.WithinSettles` | plan/plan.go:230-249 | peeling is finished after as many rounds as there are nodes |
| `PlanGraph.LayerIsLongestChain` | plan/plan.go:211-214 | a node is in layer `k` exactly when the longest dependency chain ending at it has `k + 1` nodes |
| `PlanGraph.CycleNeverPeeled` | plan/plan.go:237-239 | no node of a cycle is ever peeled |
| `PlanGraph.LongChainHasCycle` | plan/plan.go:237-239 | a dependency chain longer than the number of nodes yields a cycle |
| `PlanGraph.PeelsCompletely` | plan/plan.go:230-250 | everything is peeled if and only if every requirement names a node and there is no cycle |
| `PlanGraph.PeelingIsEarliest` | plan/plan.go:211-214 | peeling places every node at least as early as any valid layering |
| `PlanGraph.LayersOfSucceeds` | plan/plan.go:216-251 | layering succeeds if and only if every requirement names a node and the graph is acyclic |
| `PlanGraph.LayersOfMeaning` | plan/plan.go:211-215 | layers are non-empty, ascending, hold every node, and a node's layer number is the length of its longest chain |
| `PlanGraph.LayersOfOptimal` | plan/plan.go:211-251 | no valid layering has fewer layers or places a node earlier |
| `PlanGraph.LayersOfRespectsRequires` | plan/plan.go:211-214 | everything a node requires is in an earlier layer |
| `PlanGraph.LayersDisjoint` | plan/plan.go:230-249 | no node is in two layers |
| `Plan.Over` | plan/plan.go:89-114 | each of the four single fields is the upper level's if set there and the lower one's otherwise; `NonRetryable` is unchanged if the upper list is empty and otherwise both lists without repetitions, in order of first appearance |
| `Plan.LayeredAssociative` | plan/plan.go:89-114 | layering options is associative |
| `Plan.LayeredUnit` | plan/plan.go:89-114 | unset options change nothing, and are overridden entirely exactly when no type is repeated |
| `Plan.LayeredKeepsNonRetryable` | plan/plan.go:87-112 | layering never drops a non-retryable type, and adds exactly the upper one's |
| `Plan.OptionsFor` | plan/plan.go:152-156 | each single field is the node's if set, else the plan's, else the default, and the error types are those of all three levels, in either grouping |
| `Plan.Check` | plan/plan.go:116-126 | options are accepted exactly when nothing in them is negative; otherwise the first negative field is blamed |
| `Plan.EffectiveOptionsUsable` | plan/plan.go:81-126 | in a validated plan every node has a positive timeout and attempts, a heartbeat of at least zero, and a duplicate-free `NonRetryable` holding exactly the three levels' types |
| `Plan.LayersIgnoreOrder` | plan/plan.go:132-133 | permuting the nodes, and reordering or repeating requirements, changes neither the uniqueness of identifiers nor the layers |
| `Plan.StuckIgnoresOrder` | plan/plan.go:216-251 | with repeated identifiers too, a permutation that keeps how much the last node of each name requires keeps the error and its count |
| `Plan.RepeatedCountDependsOnOrder` | plan/plan.go:219-224 | two nodes of one name, one requiring nothing, the other something else: two nodes remain in one order, one in the other |
| `Plan.MetAfter` | plan/plan.go:242-247 | one more identifier done meets exactly its recorded requirement entries, under any repetition of names |
| `Plan.CountEdges` | plan/plan.go:217-224 | the tables start with the number of requirement entries, with multiplicity, and the matching dependents |
| `Plan.Runnable` | plan/plan.go:231-240 | whatever order the map is iterated in, the runnable nodes come out as the ascending listing of those with count zero that are not done |
| `Plan.Retire` | plan/plan.go:242-247 | retiring a layer keeps every count equal to the requirement entries, with multiplicity, not yet met, for repeated identifiers too |
| `Plan.ReadyIsLayer` | plan/plan.go:230-236 | for unique identifiers, under that counting invariant, the ready nodes are exactly the next layer of the graph |
| `Plan.Peel` | plan/plan.go:216-251 | the counting loop terminates and returns the layers of the graph, for unique identifiers only, or the cycle error with the number of nodes never reached |
| `Plan.Layers` | plan/plan.go:216-251 | succeeds if and only if identifiers are unique, requirements name nodes and the graph is acyclic, each layer then in byte order; with unique identifiers the result depends on the graph alone, and every failure is the cycle error with the number of nodes never reached |
| `Plan.ValidateNodes` | plan/plan.go:177-192 | the first loop accepts exactly unique, named nodes with an activity and sound options; a refusal names the first fault of the first faulty node |
| `Plan.ValidateRequirements` | plan/plan.go:194-203 | the second loop accepts exactly requirements that name other nodes of the plan; a refusal names the first bad requirement |
| `Plan.Validate` | plan/plan.go:160-209 | accepts exactly the well-formed plans; every error names the first fault of the plan, in the order nodes missing, defaults, nodes, requirements, cycle |
| `Plan.WellFormedMeans` | plan/plan.go:160-209 | well-formed, read off the nodes: there are some, nothing is negative, every node has a name of its own and an activity, requirements name nodes, and no nodes require each other in a circle |
| `Plan.SelfRequirementIsCycle` | plan/plan.go:199-201 | a node requiring itself is a cycle, so refusing it excludes no acyclic plan |
| `Plan.FindNode` | plan/plan.go:254-261 | finds a node exactly when the plan has one with that identifier |
| `Plan.Leaves` | plan/plan.go:266-281 | the identifiers that no node requires, in byte order; for unique identifiers, their ascending listing |
| `PlanWorkflow.Cluster.Get` | plan/workflow.go:79-85 | waiting for one task lets any others complete, and never changes a result |
| `PlanWorkflow.Cluster.ExecuteActivity` | plan/workflow.go:76 | hands over a task under the next handle and records which results existed then |
| `PlanWorkflow.DispatchLayer` | plan/workflow.go:65-77 | hands over a layer whole and in order, each task after all its requirements had completed, with their outputs as input |
| `PlanWorkflow.DispatchNode` | plan/workflow.go:66-76 | what is handed over carries the node's activity, arguments and effective options and its requirements' outputs |
| `PlanWorkflow.UpstreamReady` | plan/workflow.go:65-74 | once all earlier layers are collected, a node of the next layer has everything it requires |
| `PlanWorkflow.AwaitLayer` | plan/workflow.go:79-85 | collects a layer's outputs in order, or stops at its first failing node with everything before it collected |
| `PlanWorkflow.Run` | plan/workflow.go:42-98 | every run, whatever the interleaving: an invalid plan starts nothing; otherwise layers are handed over whole and in order after their requirements, success collects every output, failure is the first failing node of the last layer handed over |
| `PlanRuns.CollectedIsSequential` | plan/workflow.go:56-86 | collecting the first `n` results equals evaluating the first `n` nodes one by one |
| `PlanRuns.RunRefinesSequential` | plan/workflow.go:56-98 | with deterministic activities every interleaving returns the result of evaluating the nodes one by one in layer order |
| `PlanRuns.OrderTopological` | plan/workflow.go:34-41 | layer order lists every node once, after everything it requires |
| `PlanRuns.SequentialSolves` | plan/workflow.go:34-41 | evaluating any topological order succeeds with `m` if and only if `m` gives every node the output its activity makes of its requirements' outputs |
| `PlanRuns.RunComputesSolution` | plan/workflow.go:34-98 | a run succeeds with `m` if and only if `m` solves the dependency graph, so the outputs are unique |
| `PlanRuns.SequentialFailure` | plan/workflow.go:81-83 | a failure is blamed on the first node, in layer order, whose activity fails on its requirements' outputs |
| `PlanRuns.DispatchedOnce` | plan/workflow.go:65-77 | no node is handed over twice; a successful run hands over every node |
| `PlanRuns.DependentsNotDispatched` | plan/workflow.go:81-83 | no transitive dependent of the failed node is ever handed over |
| `Calculator.SkipSound` | agent/tools_builtin.go:207-211 | skipping stops at the end or at the first character that is not white space, having passed only white space |
| `Calculator.Completeness` | agent/tools_builtin.go:197-318 | at every level, what the grammar derives the parser reads, up to further operators of that level |
| `Calculator.Soundness` | agent/tools_builtin.go:197-318 | at every level, what the parser reads the grammar derives |
| `Calculator.SentenceIffReading` | agent/tools_builtin.go:197-318 | the parser reads a whole string as a tree if and only if the grammar derives the string as that tree |
| `Calculator.SentenceUnique` | agent/tools_builtin.go:197-201 | the grammar is unambiguous: one left-associative, precedence-respecting tree |
| `Calculator.PlusExactly` | agent/tools_builtin.go:197-201 | an accepted string has a tree without unary `+`, as the documented grammar demands, exactly when no `+` stands where a phrase may begin |
| `Calculator.PlusAccepted` | agent/tools_builtin.go:283-286 | `+1` is accepted and is not of the documented grammar |
| `Calculator.MoreSpoilt` | agent/tools_builtin.go:262-264 | a zero divisor spoils whatever is read after it at the same level |
| `Calculator.ArithParser.SkipSpaces` | agent/tools_builtin.go:207-211 | advances to the first position that is not white space, never past the end |
| `Calculator.ArithParser.ParseExpression` | agent/tools_builtin.go:213-238 | terminates, never moves back or past the end, and evaluates exactly the expression the grammar reads there |
| `Calculator.ArithParser.ParseTerm` | agent/tools_builtin.go:240-268 | likewise for a term, failing on a zero divisor |
| `Calculator.ArithParser.ParseFactor` | agent/tools_builtin.go:270-299 | likewise for a factor |
| `Calculator.ArithParser.ParseNumber` | agent/tools_builtin.go:300-318 | reads the longest run of digits and dots and its value, or fails on a character that starts none or on a run that is no number |
| `Calculator.Run` | agent/tools_builtin.go:179-195 | answers with the value of the tree the whole string reads as, or an error: "required" exactly for a string of white space, in Unicode's sense, "unexpected input" exactly where something follows an expression that has a value, and any other with the fault it names at some position |
| `Calculator.AnswerMeaning` | agent/tools_builtin.go:179-195 | the answer is `v` if and only if the string is a sentence whose tree has value `v`; a sentence with a zero divisor is answered by the division error |
| `Calculator.RenderingDerives` | agent/tools_builtin.go:197-318 | a formula written with only the brackets it needs and any white space is a phrase whose tree has the formula's value |
| `Calculator.RoundTrip` | agent/tools_builtin.go:179-318 | rendering any formula and running the tool gives the formula's value, or the division error if it has none |
| `CalculatorMeaning.DecimalReads` | agent/tools_builtin.go:300-317 | a decimal number, with leading zeros and with or without digits on either side of its point, is read as its value |
| `CalculatorMeaning.NumeralExactly` | agent/tools_builtin.go:300-317 | a run of digits and dots is accepted if and only if it is a decimal number |
| `CalculatorMeaning.NumberAnswers` | agent/tools_builtin.go:179-195 | a written number is answered with its value |
| `CalculatorMeaning.SignAnswers` | agent/tools_builtin.go:268-286 | a sign before a written number negates it or leaves it |
| `CalculatorMeaning.OperationAnswers` | agent/tools_builtin.go:210-265 | the four operations on written numbers, division by zero refused |
| `CalculatorMeaning.ChainAnswers` | agent/tools_builtin.go:210-265 | multiplication and division bind before addition and subtraction, and equals group to the left |
| `CalculatorMeaning.BracketsAnswer` | agent/tools_builtin.go:287-298 | brackets bind first |
| `CalculatorMeaning.SentencesGroup` | agent/tools_builtin.go:197-201 | in every derived tree no operation is an operand of a tighter one, nor the right operand of an equal one, unless bracketed |
| `CalculatorMeaning.SpacesAreUnicode` | agent/tools_builtin.go:207-211 | the white space skipped is Unicode's among the one-byte characters |
| `Broker.MemoryBroker.Publish` | agent/broker.go:78-108 | one step of the machine: every open matching channel gets the event or counts a drop; no send meets a closed channel; nothing after `Close` |
| `Broker.MemoryBroker.FanOut` | agent/broker.go:94-107 | sends to exactly the given channels and adds one drop per full one |
| `Broker.MemoryBroker.Subscribe` | agent/broker.go:115-146 | one step of the machine: a fresh open channel, indexed under its workflow |
| `Broker.MemoryBroker.SubscribeAll` | agent/broker.go:149-176 | one step of the machine: a fresh open channel for all events |
| `Broker.MemoryBroker.Cancel` | agent/broker.go:126-143 | one step: unregisters and closes once; panics exactly when the machine's step does, and is then used up with all else as it was |
| `Broker.MemoryBroker.Close` | agent/broker.go:180-204 | one step: closes every registered channel and empties the index; repeated calls do nothing |
| `Broker.MemoryBroker.AllRegistered` | agent/broker.go:189-193 | gathers every open channel, whatever order the map is iterated in |
| `Broker.MemoryBroker.Receive` | agent/broker.go:115-117 | a consumer takes the oldest buffered event; a closed channel still yields what it holds |
| `Broker.MemoryBroker.Stats` | agent/broker.go:216-218 | reports both counters |
| `Broker.FannedOut` | agent/broker.go:94-107 | sending to the workflow's list and then to the global list offers the event to exactly the open matching channels, each once |
| `Broker.IndexedCancel` | agent/broker.go:128-139 | removing a subscription keeps the index holding exactly the open channels |
| `BrokerRuns.ReachableReflects` | agent/broker.go:78-204 | in every run a channel is open exactly while its subscription is live, and has the capacity asked for, or 64, or 256 for all events, which its buffer never exceeds |
| `BrokerRuns.PanicsExactly` | agent/broker.go:126-143 | the next call panics if and only if it is the first cancel of a subscription that `Close` has shut |
| `BrokerRuns.OrderlyNeverPanics` | agent/broker.go:180-204 | a run with no cancel after `Close` never closes a channel twice |
| `BrokerRuns.CancelAfterClosePanics` | agent/broker.go:141 | subscribe, close, cancel panics |
| `BrokerRuns.SubscriberGets` | agent/broker.go:78-108 | in every run, what a subscriber took and then its buffer are exactly the accepted events, in order, as many taken as were received; all events meant for it if it always had room |
| `BrokerRuns.AcceptedExactly` | agent/broker.go:94-107 | an event meant for a subscription is accepted if and only if fewer accepted events are untaken than it asked room for |
| `BrokerRuns.AcceptedOfOffers` | agent/broker.go:94-107 | the accepted events are an in-order subsequence of those meant for the subscriber, short by exactly the number it had no room for |
| `BrokerRuns.Conservation` | agent/broker.go:78-108 | deliveries plus drops equal the sum over publications of their live audience, and `published` counts the publications before `Close` |
| `BrokerRuns.DeliveredOffered` | agent/broker.go:94-107 | one publication adds exactly the channels with room to the deliveries |
| `BrokerRuns.ClosedIsFinal` | agent/broker.go:79-81 | after `Close` no earlier subscriber is delivered anything more, and neither counter moves |
| `BrokerRuns.LateSubscriberGetsNothing` | agent/broker.go:79-81 | with atomic calls, a subscriber that joins after `Close` never gets anything |
| `BrokerRaces.EveryRunKeeps` | agent/broker.go:78-204 | in every interleaving registered channels are open, an entered cancel is on its way or has closed its channel, and each publication's audience is parted into pending, delivered and refused |
| `BrokerRaces.PanicsExactly` | agent/broker.go:94-107 | the next step panics if and only if it sends on a channel closed since the snapshot, or is a cancel closing what `Close` has closed |
| `BrokerRaces.QuietNeverPanics` | agent/broker.go:94-107 | without closing a channel that a publication still has to serve, nor one by both a cancel and `Close`, no interleaving panics |
| `BrokerRaces.CancelRaces` | agent/broker.go:127-142 | whenever a publication has a channel to serve, cancelling that subscription first makes the send panic |
| `BrokerRaces.CloseRaces` | agent/broker.go:180-204 | so does closing the broker, whatever the closed flag says |
| `BrokerRaces.RaceReached` | agent/broker.go:78-108 | one subscriber and one publication reach such a state |
| `BrokerInterleavings.SubscriberGets` | agent/broker.go:94-107 | in every interleaving a subscriber gets the event of each publication that delivered to it once, in the order of the sends, and nothing else |
| `BrokerInterleavings.InOrder` | agent/broker.go:78-108 | the event of a finished publication comes before that of any publication begun later |
| `BrokerInterleavings.CountersExact` | agent/broker.go:82-107 | in every interleaving `published` counts the publications past their count and `dropped` the sends that found no room |
| `BrokerInterleavings.ClosedAdmitsNone` | agent/broker.go:79-81 | once `Close` has begun no publication is admitted, so later deliveries come from those under way |
| `BrokerInterleavings.LateDelivery` | agent/broker.go:78-108 | a subscriber that joins after `Close` can still get an event |
| `BrokerRefinement.PublishRefines` | agent/broker.go:78-108 | a publication that nothing comes between, in any order of sends, is one step of the machine with atomic calls |
| `BrokerRefinement.CancelRefines` | agent/broker.go:127-142 | so is a cancel, panicking alike |
| `BrokerRefinement.CloseRefines` | agent/broker.go:180-204 | so is a `Close`, in any order of closing |
| `BrokerRefinement.SingleStepsRefine` | agent/broker.go:78-204 | the remaining calls are one step in both machines |
| `OAuthProtocol.NextExtends` | auth/oauth/start.go:139-168 | no step takes back a flow's identity, a handler's code and signal, a workflow's input or a delivered signal |
| `OAuthProtocol.MappingsKept` | auth/oauth/start.go:139-146 | every mapping, and every workflow a handler found by one, stays that of the flow that generated the state |
| `OAuthProtocol.InboxKept` | auth/oauth/callback.go:90-94 | every handler-sent signal stays one whose state is the receiving workflow's |
| `OAuthProtocol.StageKept` | auth/oauth/workflow.go:158-166 | a workflow goes by its first signal, and only a stranger's can lead to a mismatch |
| `OAuthProtocol.ReachableKept` | auth/oauth/callback.go:96-98 | from `Put` on a flow stays mapped until its callback is brought or its start fails |
| `OAuthProtocol.Keeps` | auth/oauth/start.go:139-169 | every step of any flow, handler or workflow keeps the whole invariant |
| `OAuthProtocol.EveryRunKeeps` | auth/oauth/start.go:139-169 | so does every run of any number of them, interleaved in any way |
| `OAuthProtocol.LaterExtends` | auth/oauth/start.go:139-168 | however a run goes on, it takes back no flow, handler, workflow or delivered signal |
| `OAuthProtocol.MappingLeadsHome` | auth/oauth/activities.go:123-125 | a mapped state leads to its own flow's workflow, whose input, once started, holds that state |
| `OAuthProtocol.HandlerNeverMismatches` | auth/oauth/callback.go:80-94 | the handler signals only the flow that generated the state and never drives a workflow into the mismatch branch |
| `OAuthProtocol.ExchangesMatch` | auth/oauth/workflow.go:156-168 | a workflow only exchanges the code of its first signal, and only if that came with its own state |
| `OAuthProtocol.CallbackCanArrive` | auth/oauth/start.go:135-146 | while a started workflow waits and its callback has not been brought, a callback with its state is found and delivered |
| `OAuthService.MemoryStateMapper.Put` | auth/oauth/activities.go:149-157 | refuses an empty state, otherwise maps the state and nothing else |
| `OAuthService.MemoryStateMapper.Get` | auth/oauth/activities.go:160-165 | the mapped workflow, if any |
| `OAuthService.MemoryStateMapper.Delete` | auth/oauth/activities.go:168-173 | removes that state only |
| `OAuthService.ParseCallback` | auth/oauth/activities.go:191-206 | yields the query's code and state exactly when the query parses, reports no error and both are non-empty; otherwise the first reason why not |
| `OAuthService.Service.StartFlow` | auth/oauth/start.go:95-174 | among any steps of others: success, exactly when every party answers well, leaves the workflow waiting with the state as input and the state mapped to it; a failed start leaves the state unmapped; every other error has its own condition and no effect; the run so far is extended |
| `OAuthService.Service.Record` | auth/oauth/start.go:139-146 | recording is the protocol's `Put` step: the flow's state is mapped to its workflow and nothing else changes in the table |
| `OAuthService.Service.Execute` | auth/oauth/start.go:148-165 | starting is the protocol's `Start` step: acknowledged, the workflow waits with the flow's state; unacknowledged, it may or may not have started, as the server says |
| `OAuthService.Service.HandleCallback` | auth/oauth/callback.go:74-103 | among any steps of others: success means the code lies in the inbox of the workflow holding its state and the mapping is gone; otherwise the state is unmapped, or the workflow does not run or its signal was refused; the run so far is extended |
| `OAuthService.Service.Others` | auth/oauth/callback.go:74-103 | any number of steps of other flows, callbacks and workflows extend the run and leave the given process where it stood |
| `OAuthService.Service.SignalWorkflow` | auth/oauth/callback.go:88-94 | the signal is delivered exactly if the workflow runs and it is not refused, as the protocol's step; a failure deletes nothing |
| `OAuthService.Service.SelectSignal` | auth/oauth/workflow.go:133-168 | the waiting workflow takes its oldest signal, matching or not, or times out, only for want of one or because the timer is selected |
| `OAuthService.Service.FinishFlow` | auth/oauth/workflow.go:168-222 | the workflow's end is the protocol's `Finish` step, whatever signals have come meanwhile |
| `OAuthService.BroughtMeans` | auth/oauth/callback.go:88-98 | in any reachable state a succeeded handler's signal is with the workflow whose input holds its state |
| `OAuthService.StartedMeans` | auth/oauth/start.go:139-146 | in any reachable state a started flow whose workflow has got no signal is mapped to it |
| `OAuthWorkflow.OAuthFlowWorkflow` | auth/oauth/workflow.go:103-223 | the protocol's workflow as code, among any steps of others: stages only move forward; completed exactly when a session is returned; each early error exactly on its condition, a mismatch only by a stranger's signal; pairs are stored only after a matching callback, a successful exchange and identification; the store then holds the session's pair; only the first signal matters; a session is returned exactly when each activity was heard to succeed; an input without a state is refused and takes no step of the protocol |
| `OAuthWorkflow.AwaitCallback` | auth/oauth/workflow.go:119-168 | waits the given or default time for the first signal and goes on only with one that carries the input's state; it times out only for want of a signal or because the timer is selected |
| `OAuthWorkflow.Redeem` | auth/oauth/workflow.go:168-222 | the three activities in order, stopping at the first that fails; each failure means an unregistered party or three attempts none of which was heard to succeed, after the earlier steps were |
| `OAuthWorkflow.SessionExactly` | auth/oauth/workflow.go:178-222 | every outcome being as the log says, a session is returned if and only if exchange, identification and storing were each heard to succeed |
| `OAuthWorkflow.LogJustified` | auth/oauth/workflow.go:179-213 | exchange, identification and storing in that order justify every stored pair |
| `OAuthWorkflow.Activities.Exchange` | auth/oauth/activities.go:87-99 | asks the provider once, or refuses an unregistered one without asking |
| `OAuthWorkflow.Activities.Whoami` | auth/oauth/activities.go:102-110 | likewise for identification |
| `OAuthWorkflow.Activities.StoreTokens` | auth/oauth/activities.go:113-121 | writes the pair under its owner and provider in the named store exactly if the store accepts it, or refuses an unregistered store |
| `OAuthWorkflow.Activities.RunStoreTokens` | auth/oauth/workflow.go:204-213 | repeated up to three times, storing leaves what storing once leaves; it fails only for an unregistered store or after three attempts not heard to succeed |
| `OAuthWorkflow.Activities.RunExchange` | auth/oauth/workflow.go:170-191 | at most three attempts, all with the same code, verifier and redirect URI, up to the first heard to succeed; it fails only for an unregistered provider or after three others |
| `OAuthWorkflow.Activities.RunWhoami` | auth/oauth/workflow.go:193-202 | likewise for identification |
| `OAuthWorkflow.RunFlow` | auth/oauth/flow.go:56-88 | a session exactly when exchange, identification and, if there is a store, storing succeed; each failure means its step was refused and stores nothing |
| `TokenStore.MemoryTokenStore.Get` | auth/oauth/store.go:107-126 | the pair last put under the canonical identity and provider; not-found exactly if no entry is filed there, and each unreadable entry its own error |
| `TokenStore.MemoryTokenStore.Put` | auth/oauth/store.go:129-152 | replaces exactly that key's entry by the pair as its owner will read it, its expiry and the time, or changes nothing; fails exactly if cancelled or without a nonce |
| `TokenStore.MemoryTokenStore.Delete` | auth/oauth/store.go:156-164 | removes exactly that key |
| `TokenStore.MemoryTokenStore.List` | auth/oauth/store.go:167-183 | exactly one reference per entry, under its own key, whatever order the map is iterated in |
| `TokenStore.KeysSeparate` | auth/oauth/store.go:79-82 | two accounts share an entry exactly when canonical identity and provider are the same |
| `TokenRefresh.WithRefresh` | auth/oauth/flow.go:157-206 | at most two calls with the caller's input and one refresh, the second call only after an authentication error and with the pair then in the store; a granted renewal is stored unless the context is cancelled or sealing fails; other keys untouched; each outcome follows from the answers |
| `TokenRefresh.CurrentSession` | auth/oauth/flow.go:252-288 | refreshes exactly when the stored pair is expired or within the leeway, and returns the pair then in the store; a granted renewal is stored unless cancelled or not sealable |
| `TokenRefresh.StoredIsRenewed` | auth/oauth/flow.go:167-205 | after any run over any users, every stored pair is its initial pair renewed as often as that user's calls stored a renewal |
| `TokenRefresh.SupersededForGood` | auth/oauth/flow.go:188-200 | once a renewal is stored, later calls on that key use it or one made from it |
| `TokenRefresh.ReplacedForGoodExactly` | auth/oauth/flow.go:188-200 | no run brings a replaced pair back if and only if renewing never leads back to it |
| `Dispatch.Group` | channels/channels.go:129-133 | groups the receipts by channel, in order, losing none |
| `Dispatch.OfMeans` | channels/channels.go:129-133 | a group is each receipt on its channel, once and in order |
| `Dispatch.Dispatcher.Notify` | channels/channels.go:87-116 | one receipt or one error per target, both in routing order, no target an error |
| `Dispatch.Dispatcher.OneDelivered` | channels/channels.go:98-114 | a target yields a receipt exactly if its channel is registered, can post and does |
| `Dispatch.Dispatcher.AllDelivered` | channels/channels.go:96-115 | several targets yield what each yields, in order |
| `Dispatch.Race.Arrive` | channels/channels.go:171-174 | a running waiter's only answer always finds a free place in the queue |
| `Dispatch.Race.Receive` | channels/channels.go:187-191 | the next answer in arrival order, or the end of the caller's context |
| `Dispatch.Race.Drain` | channels/channels.go:159-174 | after the reader has left, every remaining waiter still gets rid of its answer |
| `Dispatch.Dispatcher.Launch` | channels/channels.go:163-175 | starts one waiter with its own receipts per channel that can wait, or names an unregistered channel |
| `Dispatch.Dispatcher.Judge` | channels/channels.go:177-202 | reads answers until the decision on them, in the order they arrived, is made |
| `Dispatch.Dispatcher.Await` | channels/channels.go:124-203 | one channel: its answer, whatever it is; several: the first real verdict to arrive, a timeout or a failure as decided by the answers read, the end of the context only while undecided; a timeout at once if none can wait; an empty choice only from a single channel |
| `Dispatch.Dispatcher.FirstArrivedWins` | channels/channels.go:177-202 | the first answer to arrive with a choice in it, read or not, is the result exactly unless the context ended the wait before it was read |
| `Dispatch.Dispatcher.RunRace` | channels/channels.go:153-203 | the race asks every channel that can wait with its own receipts and reports the decision on the answers in arrival order, never an empty choice |
| `Dispatch.Dispatcher.Normalize` | channels/channels.go:206-216 | keeps choice and channel, leaves a canonical actor alone, and otherwise takes the resolved actor if there is one |
| `Dispatch.TimeoutExactly` | channels/channels.go:186-202 | all answers in: a timeout if and only if every waiter timed out, a verdict if and only if some waiter answered a choice, and otherwise the failure of all |
| `Dispatch.OrderDecidesOnlyTheWinner` | channels/channels.go:186-202 | the arrival order decides which verdict wins, never whether there is one or how it fails |
| `Retry.WithRetry` | agent/middleware.go:70-101 | with at least one attempt and 100 ms where no delay is given: calls up to the first success, exactly `attempts` failures, a cancelled sleep, or the panic of a jitter without room; each sleep is the doubled delay and less than half of it again |
| `Retry.DelayDoubles` | agent/middleware.go:96 | without overflow the n-th delay is the initial one times 2^n |
| `Retry.FirstOverflow` | agent/middleware.go:90-96 | the first doubling past 64 bits makes a delay negative |
| `Retry.CanPanicMeans` | agent/middleware.go:90 | some answers of the inner call make the wrapper panic if and only if the jitter has no room before some retry |
| `Retry.PanicsExactly` | agent/middleware.go:90-96 | the wrapper can panic if and only if it may retry and the initial delay is below 2 ns or the last doubling overflows |
| `Retry.OneNanosecondPanics` | agent/middleware.go:90 | one nanosecond, two attempts and a first failure panic |
| `Retry.BackoffBounds` | agent/middleware.go:90-96 | n sleeps add up to at least initial*(2^n - 1) and less than half as much again |
| `Retry.RetrySummary` | agent/middleware.go:70-101 | uncancelled and without overflow: calls up to the first success or exactly `attempts`, and the closed-form bounds on the total sleep |
| `Caches.MemoryCache.Get` | agent/middleware.go:137-151 | the unexpired value, dropping an expired one |
| `Caches.MemoryCache.Set` | agent/middleware.go:154-162 | replaces that key, to expire after the TTL |
| `Caches.SQLiteCache.Get` | agent/cache_sqlite.go:95-115 | the value unless its whole-second expiry has passed, deleting it then |
| `Caches.SQLiteCache.Set` | agent/cache_sqlite.go:118-125 | replaces that row, expiring at a whole second, 0 meaning never |
| `Caches.SQLiteCache.Vacuum` | agent/cache_sqlite.go:137-143 | deletes exactly the rows that a `Get` would not answer, and none without a TTL |
| `Caches.MemoryKeepsLastSet` | agent/middleware.go:115-162 | over any run with a monotone clock the memory cache answers the value last set until its TTL is over |
| `Caches.TableKeepsLastSet` | agent/cache_sqlite.go:95-143 | over any such run, sweeps included, so does the table, by the whole second |
| `Caches.VacuumInvisible` | agent/cache_sqlite.go:137-143 | a sweep is invisible to every later `Get` |
| `Caches.CachesAgree` | agent/cache_sqlite.go:95-125 | whenever the memory cache hits, the table hits with the same value, and for less than a second longer |
| `Caches.BoundExactly` | agent/cache_sqlite.go:110-121 | that bound holds at all times if and only if the expiry second is not 0 |
| `Caches.NeverExpires` | agent/cache_sqlite.go:110-121 | an entry is answered for ever if and only if its expiry second is 0, and until that second has passed otherwise |
| `Caches.KeysCollideExactly` | agent/middleware.go:195-203 | two prompt pairs share a key if and only if a NUL in one system prompt is the other's separator |
| `Caches.KeysDistinct` | agent/middleware.go:195-203 | with NUL-free system prompts keys are distinct |
| `Caches.NulCollides` | agent/middleware.go:195-203 | every pair whose system prompt contains a NUL shares its key with another pair |
| `Caches.WithCache` | agent/middleware.go:178-193 | through either cache a hit asks nobody, a miss asks once, returns what it is told and remembers only success, and with NUL-free system prompts every answer is the inner call's over any run |
| `Text.TrimTakesSpace` | agent/decompose.go:98 | trimming takes nothing but white space, from the ends, and leaves nothing exactly of blank text |
| `Text.TrimTakesAll` | agent/decompose.go:98 | no beginning and no end of trimmed text is white space |
| `Text.SpaceWidthMeans` | agent/decompose.go:98 | white space is Unicode's, in its UTF-8 form |
| `Text.BlankBytes` | agent/tools_builtin.go:181 | blank text holds no printable ASCII character, so nothing the calculator could read |
| `Decompose.SplitCaseInsensitive` | agent/decompose.go:152-170 | for any text, terminates and yields the slices at the offsets found in the lower-cased text, or panics |
| `Decompose.SplitPanicsExactly` | agent/decompose.go:161-168 | slicing panics if and only if the last separator of the lower-cased text ends beyond the text |
| `Decompose.SplitRightExactly` | agent/decompose.go:150-170 | the text is cut at its own leftmost separators, ignoring case, if and only if they stand at the same offsets in the lower-cased text |
| `Decompose.AsciiSplitsRight` | agent/decompose.go:150-170 | so it is for all ASCII text |
| `Decompose.NothingLost` | agent/decompose.go:161-168 | whatever the offsets, the pieces with the removed slices between them are the text again |
| `Decompose.KelvinMiscut` | agent/decompose.go:156-168 | a Kelvin sign before a separator has the text cut inside the sign and inside the separator |
| `Decompose.StrokesPanic` | agent/decompose.go:156-168 | two letters U+023A before a separator make the splitter panic |
| `Decompose.PiecesRebuild` | agent/decompose.go:150-170 | pieces at the text's own separators, interleaved with the removed occurrences, are the text again |
| `Decompose.CutsAreSeparators` | agent/decompose.go:150-170 | what is removed is the separator up to case |
| `Decompose.PiecesClean` | agent/decompose.go:150-170 | no piece contains the separator in any case |
| `Decompose.SplitTrimmed` | agent/decompose.go:97-148 | the first rule giving at least two parts decides, or the first separator at which slicing panics: question marks, then the separators in priority order, else the text itself |
| `Decompose.AsciiRule` | agent/decompose.go:97-148 | for ASCII text: question marks decide if there are several with two parts between them, else the first separator at which the text falls into two parts, else it stays whole |
| `Decompose.KeptMeans` | agent/decompose.go:103-108 | every piece that is not blank is kept, trimmed, in its place |
| `Decompose.PartsSound` | agent/decompose.go:97-148 | unless slicing panics, a non-blank text yields at least one part, each non-empty and trimmed |
| `Decompose.PartsDoNotSplitAgain` | agent/decompose.go:123-143 | no part made at the text's own separators still contains the separator or splits at it |
| `Decompose.Decompose` | agent/supervisor.go:35-41 | panics exactly when slicing does; otherwise none exactly for a blank question, and non-empty trimmed sub-questions numbered from 0, as many as the rule gives up to a positive cap |

## Left out

- Calculator.Run: numbers are exact rationals, so float64 rounding, range errors and the formatting of the result are not modelled.
- Broker.MemoryBroker.Publish: one atomic step; the interleavings of its parts with other calls are the subject of `BrokerRaces`, on values.
- Broker.MemoryBroker.Subscribe: channels are entries of a table named by their number; pointers and the Go scheduler are not modelled.
- BrokerRaces.EveryRunKeeps: a publication may send in any order, where the code goes by registration, and a second call of a cancel function does not wait for the first.
- OAuthService.Service.StartFlow: generated states and workflow IDs are taken to be unused before, so the fixed identifier returned when the random source fails is outside the model.
- OAuthService.ParseCallback: decoding of the raw query string is a parameter.
- TokenStore.MemoryTokenStore.Put: serialization and sealing are symbolic inverse pairs under one key; the raw provider response in a pair is not modelled.
- TokenRefresh.WithRefresh: calls follow one another; two concurrent refreshes of one key are not modelled.
- OAuthWorkflow.Activities.RunExchange: retries are up to three attempts with lost acknowledgements; back-off between attempts and timeouts belong to the workflow server.
- Dispatch.Dispatcher.Await: how an adapter polls, and that waiters notice the cancelled context, are not modelled; a running waiter may answer at any time.
- Caches.SQLiteCache.Set: SQL errors, which the code treats as misses or ignores, and persistence are not modelled.
- Caches.CacheKey: the hash is taken to be free of collisions, so the key is the hashed text itself.
- Decompose.SplitCaseInsensitive: lower-casing is a parameter of which only the effect on ASCII is fixed.
- Worker registration, tracing, metrics, logging, HTTP clients, SSE parsing, Slack, web UI and commands are plumbing around this core.
- The Echo activity, the identity resolvers and routers, `Emitter`, policies, token counting and the synthesizer are straight-line code.
- ConvergeWorkflow, SupervisorWorkflow, PRReviewWorkflow and the tool-agent loop are not modelled.
