# Verified models of the client's protocols and tree algorithms

This project models the parts of the database client that are state machines, concurrent
protocols or recursive algorithms, and proves what they guarantee over every input and every
run. `dafny verify dfyconfig.toml` checks all of it.

Most components come in two layers. A specification layer describes one step as a function of
the state (or, for tree algorithms, the result as a function of the tree), and lemmas speak about
all runs of it. An object layer holds the same fields as the client's class and updates them in
place with the same loops and branches; each method is proved to take exactly the specified step.

* **HiLo ids** (`Hilo.dfy`, `HiloProgress.dfy`). Any number of callers share one range and one memoised "next range"
  task. A step runs one caller from one `await` to the next; the server answers or refuses the
  request in flight at any moment. Uniqueness, absence of gaps and the single request in flight
  hold for every interleaving, in terms of the ranges the server answered, and every call ends. `MultiTypeHilo.dfy` puts one such generator per collection tag
  behind the semaphore.
* **Node selection, speed test and failover** (`NodeSelector.dfy`, `NodeChoices.dfy`,
  `SpeedTest.dfy`, `SpeedTestRuns.dfy`, `Failover.dfy`, `RequestExecutor.dfy`). Between two sends the environment may restore nodes,
  count other failures and install topologies. The failover recursion is bounded by a
  lexicographic measure; in calm weather every node is tried exactly once, with the one exact
  exception described below.
* **Bulk insert** (`BulkInsertGrammar.dfy`, `BulkInsert.dfy`, `BulkInsertRoundTrip.dfy`,
  `BulkInsertBatches.dfy`, `BulkInsertOperation.dfy`, `BulkInsertWriter.dfy`). The stream is a sequence of tokens with a
  decoder that knows nothing of the writer's flags. Underneath, strings and buffers are collected,
  copied into exactly sized arrays and handed to the request body.
* **Document diff** (`JsonDiff.dfy`, `JsonDiffMeaning.dfy`, `JsonDiffReport.dfy`,
  `JsonDiffPlaces.dfy`, `JsonDiffRun.dfy`). The yes/no mode and the reporting mode with its shared
  list of changes, what "unchanged" means, which entry the report has for which place of the two
  documents, and when it is complete.
* **Type-aware mapping** (`ObjectMapping.dfy`, `ObjectPaths.dfy`, `ObjectReach.dfy`,
  `ObjectMappingRoundTrip.dfy`, `ObjectAddresses.dfy`, `ObjectMappingExact.dfy`, `ObjectCommute.dfy`,
  `ObjectCollections.dfy`).
  Recording the paths of dates while writing plain JSON, walking those paths, with their marks for
  the contents of arrays, sets and maps, to put the dates back, and exactly which trees come back.
* **Semaphore** (`Semaphores.dfy`, `SemaphoreObjects.dfy`), **response cache** (`HttpCache.dfy`),
  **query value converters** (`QueryConverters.dfy`), **duration text** (`TimeSpans.dfy`),
  **change subscriptions** (`Subscriptions.dfy`, `SubscriptionObjects.dfy`) and **time values**
  (`TimeValues.dfy`).
* `Wrappers.dfy`, `Numbers.dfy`, `Texts.dfy`, `SortedTexts.dfy` and `Decimals.dfy` hold what several
  of them share: options, truncating remainder, splitting and sorting of texts and decimal numerals.

Lemmas carry `{:induction false}` throughout: no proof relies on automatic induction.

## What the proofs found

* Failover with a topology whose etag is zero forgets its first failure, because the recorded etag
  then differs from the current one. The first node is sent to a second time exactly when the
  round-robin place points at it (`EachNodeOnceExactlyWhen`).
* A bulk insert whose first command is an attachment or a time series never writes the comma
  after it. The stream can be decoded exactly when the first thing asked for is a document, a
  counter or a heartbeat, or when nothing else follows (`DecodesExactlyWhenSafe`).
* Unchanged documents are equal, up to the ignored fields, exactly when nothing in them is confused
  (`UnchangedMeansEqualUnlessConfused`): null in the place of zero, false or the empty text; an
  object in the place of anything truthy that is not an object but has the same properties (a list
  and its indices, a text and its characters, a number or true and an object without compared
  properties); or two unequal falsy items of an array. Equal documents are unchanged exactly when
  no compared property is the not-a-number value (`EqualIsUnchangedUnlessNaN`).
* Inside an array the report looks no further into objects and arrays once the flag is set. What
  sets it is a visible change of an earlier item, but also any earlier pair of objects, changed or
  not, while the shared list already holds a change from anywhere. The report is complete exactly
  when no differing pair stands behind such a position (`ReportCompleteExactlyWhen`); what it does list
  is always right (`ReportIsSound`).
* The mapping gives a tree of objects, arrays, dates and plain values back exactly when it is an
  object, none of its objects has a `constructor` property that names a date, set or map type or a
  `__proto__` key, no date lies under `@metadata` outside an array, the recorded path of every date
  leads back to that date, no key on the way to one ends in `[]`, `$SET` or `$MAP`, and no object on
  the way has a property called `hasOwnProperty` (`RoundTripExactlyWhen`). Keys without dots,
  exclamation marks, brackets and collection marks are enough for the paths and for the marks; a dot
  or an exclamation mark in a key above a date always spoils them. A mark matters beyond the paths
  only as the second key under an empty one (`MarksOnlyUnderEmptyKey`): there the path is right, but
  it is read as the contents of a collection (`MarkedDateIsLost`).
* Two typed paths may be applied in either order when the first segments in which they differ name
  two properties (`TouchesCommute`); with a collection mark they may collide (`MarksMayCollide`).
* A new selector never starts a speed test because it was asked to or because time passed: the first
  one begins exactly when a topology arrives without the fastest node, or when a recording counts
  that no test had asked for (`TestsExactlyWhenBegun`). A later topology can end it unnoticed
  (`TestsNowExactlyWhen`).
* When a new topology keeps the fastest node in the middle of a speed test, the wins are forgotten
  but the counter is not. The branch for too many concurrent tests, which otherwise only a single
  node reaches, is then reached by some run exactly with up to one node more than the wins forgotten
  (`CapReachedInRunExactlyWhen`).
* Durations of at least a day that have milliseconds come back too long, by 9999 or 999 times the
  milliseconds depending on the printer.
* Subscribing the same handler twice counts it twice, and the connection is then never given up.
* The bounds of a negative number of months are crossed, and comparing it with seconds between
  them says "greater" both ways round. On all other values comparison is antisymmetric.

## Model

| member | source | states |
|---|---|---|
| HiloProtocol.RunKeepsInv | src/Documents/Identity/HiloIdGenerator.ts:42-107 | in every interleaving of callers, answers and refusals: only the newest task can be unsettled, every older range is used up, results are exactly the issued ids of their range, each received once, and no request has two owners |
| HiloProtocol.UniqueExactlyWhenIssuedPartsDisjoint | src/Documents/Identity/HiloIdGenerator.ts:42-56 | two calls ever get the same id if and only if the server granted ranges that overlap in ids already handed out; the client never duplicates by itself |
| HiloProtocol.RangesAreAnswers | src/Documents/Identity/HiloIdGenerator.ts:99-107 | in every run the ranges behind the empty one of the start are, in order, exactly the low, high and tag of the server's answers |
| HiloProtocol.DisjointAnswersGiveUniqueIds | src/Documents/Identity/HiloIdGenerator.ts:42-107 | when no id lies in two answers of the server, no two calls ever get the same id |
| HiloProtocol.IdsAreAnswered | src/Documents/Identity/HiloIdGenerator.ts:42-56 | every id given lies in an answer of the server, between its low and high, and carries its tag |
| HiloProtocol.NoGaps | src/Documents/Identity/HiloIdGenerator.ts:47-56 | every id of every answer of the server but the last has been received, by exactly one caller and with its tag |
| HiloProtocol.AnswerFindsRangeUsedUp | src/Documents/Identity/HiloIdGenerator.ts:90-107 | when the server answers, every id of its answer before has been received |
| HiloProtocol.AtMostOneRequestInFlight | src/Documents/Identity/HiloIdGenerator.ts:68-84 | no two range requests are ever in flight together, and the one in flight is the task the field names |
| HiloProtocol.RefusalFailsAtMostOneCaller | src/Documents/Identity/HiloIdGenerator.ts:58-87 | a call fails only through a refused request, and one refusal fails at most one call; the other waiters try again |
| HiloProtocol.NoCallerIsStuck | src/Documents/Identity/HiloIdGenerator.ts:58-87 | a call without a result can go on at once or the shared task is in flight; there is no deadlock |
| HiloProgress.EveryCallEnds | src/Documents/Identity/HiloIdGenerator.ts:42-87 | once no new call comes in and the server answers with non-empty ranges, every schedule ends within the work left, and then every call has an id or its own request was refused |
| HiloProgress.IdsInOrder | src/Documents/Identity/HiloIdGenerator.ts:42-107 | calls made one after the other get the ids of the server's answer in order, from its lowest on to its highest, without another request |
| HiloProtocol.HiloIdGenerator.FromLoopHead | src/Documents/Identity/HiloIdGenerator.ts:44-66 | the segment from the head of the loop to its next `await` or return is the specified step |
| HiloProtocol.HiloIdGenerator.TryReplace | src/Documents/Identity/HiloIdGenerator.ts:68-86 | the compare-and-set segment: a new task only replaces the one seen before, otherwise the caller waits for the newer one |
| HiloProtocol.HiloIdGenerator.RunCaller | src/Documents/Identity/HiloIdGenerator.ts:58-87 | resuming a parked caller takes the specified step from each of the three `await` points |
| HiloProtocol.HiloIdGenerator.EnterCall | src/Documents/Identity/HiloIdGenerator.ts:42-56 | a new call runs at once up to its first `await` |
| HiloProtocol.HiloIdGenerator.StartTask | src/Documents/Lazy.ts:14-21 | the first call starts the task, later calls find the same one |
| HiloProtocol.HiloIdGenerator.OnAnswer | src/Documents/Identity/HiloIdGenerator.ts:99-107 | an answer installs a fresh range and settles exactly the task that asked |
| HiloProtocol.HiloIdGenerator.OnRefusal | src/Documents/Identity/HiloIdGenerator.ts:99-107 | a refusal settles the task as faulted and leaves the range alone |
| MultiTypeHilo.RunKeepsInv | src/Documents/Identity/MultiTypeHiLoIdGenerator.ts:24-120 | in every interleaving of calls, resumptions, releases and granted tasks: table and generators created belong together one to one, whoever has a generator has the one in the table, each undisposed acquisition belongs to exactly one call that still gives it back, and a tag never loses or changes its generator |
| MultiTypeHilo.OneGeneratorPerTag | src/Documents/Identity/MultiTypeHiLoIdGenerator.ts:40-61 | no tag ever gets two generators, every call that is served has the generator made for the tag it asked for, and all calls for one tag use the same one |
| MultiTypeHilo.NoCallIsStuck | src/Documents/Identity/MultiTypeHiLoIdGenerator.ts:93-118 | while a call waits for the semaphore, it or the holder of the permit can go on or a granted task is due |
| MultiTypeHilo.EveryCallIsServed | src/Documents/Identity/MultiTypeHiLoIdGenerator.ts:24-120 | once no new call comes in, every schedule ends within the work left, and then every call has its generator |
| NodeSelection.FirstUp | src/Http/NodeSelector.ts:112-124 | the first index of an interval whose node is up (and a member, if asked), with everything before it ruled out |
| NodeSelection.SuccessorFollowsFastest | src/Http/NodeSelector.ts:16-49 | a new topology keeps the fastest node, found again by its tag at the first place that has it, with the speed-test mode carried over; when it is gone, the first place is fastest and a speed test begins; the timer stays |
| NodeSelection.NodeSelector.FailedRequest | src/Http/NodeSelector.ts:77-84 | counts the failure; an index out of range changes nothing |
| NodeSelection.NodeSelector.RestoreNodeIndex | src/Http/NodeSelector.ts:207-215 | clears the failures of the place that holds the node object, if any place does |
| NodeSelection.NodeSelector.GetPreferredNode | src/Http/NodeSelector.ts:150-192 | first member that is up, else first node that is up, else round robin, with the error on an empty topology |
| NodeSelection.NodeSelector.GetNodeBySessionId | src/Http/NodeSelector.ts:103-127 | first member that is up from the session's place on, wrapping round, else the preferred node |
| NodeSelection.NodeSelector.GetFastestNode | src/Http/NodeSelector.ts:194-205 | the fastest node while it is an up member, else a speed test is scheduled and the preferred node taken |
| NodeSelection.NodeSelector.FindMaxIndex | src/Http/NodeSelector.ts:264-279 | the first index with the largest number of wins, or zero when nobody has won |
| NodeSelection.NodeSelector.Record | src/Http/NodeSelector.ts:234-262 | one recording: ignored when the node moved, counted, or electing a node |
| NodeSelection.NodeSelector.SelectFastest | src/Http/NodeSelector.ts:281-286 | the election ends the phase and schedules the next test |
| NodeSelection.NodeSelector.StartSpeedTestTimer | src/Http/NodeSelector.ts:288-296 | a phase begins unless the periodic timer is already running |
| NodeSelection.NodeSelector.SwitchPhase | src/Http/NodeSelector.ts:217-228 | enters the phase with cleared counters only from the idle mode |
| NodeSelection.NodeSelector.UpdateTopology | src/Http/NodeSelector.ts:86-101 | a newer or forced topology replaces the state, an older one changes nothing, and the answer tells which |
| NodeChoices.PlainRequestTakesFirstChoice | src/Http/RequestExecutor.ts:802-809 | a write outside session load balancing, and a read without a balance, goes to the first member that is up, else the first node that is up, else the next in turn, whatever the session |
| NodeChoices.SessionRequestTakesItsPlace | src/Http/RequestExecutor.ts:796-812 | under session load balancing, for writes too, and for reads in turn, the node is the first member that is up from the place of the session id (its remainder, whatever its sign) going round, so on a healthy topology that very place |
| NodeChoices.FastestRequestTakesFastest | src/Http/RequestExecutor.ts:813-815 | a read from the fastest node goes there while it is a member that is up, otherwise to the first choice after the speed test was asked for |
| NodeChoices.EveryPlaceHasASession | src/Http/NodeSelector.ts:103-111 | every place is the place of some session id, and of its negative |
| NodeChoices.FailureTakesOneOut | src/Http/NodeSelector.ts:77-84 | after a failure exactly that place is not up any more |
| NodeChoices.RecoveryBringsOneBack | src/Http/NodeSelector.ts:207-215 | after a recovery the first place of the node is up, and no other place changes |
| SpeedTestPhase.PhaseStarts | src/Http/NodeSelector.ts:37-40 | both ways into a phase start with the counter two ahead of the wins |
| SpeedTestPhase.PhaseSurvivesReorderWhenFresh | src/Http/NodeSelector.ts:40-47 | a topology that keeps the fastest node leaves a running phase consistent exactly when nothing had been recorded in it |
| SpeedTestPhase.TimerIsHarmless | src/Http/NodeSelector.ts:217-248 | in a phase the periodic timer and stale recordings change nothing |
| SpeedTestPhase.RecordInPhase | src/Http/NodeSelector.ts:250-261 | with two or more nodes a recording keeps the counter two ahead of the total wins or elects the node with its tenth win; the "too many" branch is not taken |
| SpeedTestPhase.ElectionStartsTimer | src/Http/NodeSelector.ts:281-296 | an election makes the winner the fastest node and ends the phase; without a running timer it starts one and the next phase, with cleared wins |
| SpeedTestPhase.ReorderDrifts | src/Http/NodeSelector.ts:16-49 | a topology that keeps the fastest node in mid-phase lets the counter run ahead of the wins by all the wins it forgets |
| SpeedTestRuns.CapReachedInRunExactlyWhen | src/Http/NodeSelector.ts:234-262 | some run of recordings and topologies from the start of a phase, forgetting so many wins on the way, ends with n nodes and a recording that takes the branch for too many concurrent tests, if and only if n is positive and at most one more than the wins forgotten |
| SpeedTestRuns.TestsExactlyWhenBegun | src/Http/NodeSelector.ts:217-228 | over its whole life a selector is in a speed test at some time if and only if at some time a topology arrived without the fastest node or a recording counted; asking for a test and the timer never start the first one |
| SpeedTestRuns.TestsNowExactlyWhen | src/Http/NodeSelector.ts:16-49 | as long as no recording counts, a selector is in a speed test exactly when a topology dropped the fastest node and none after it failed to carry the mode over |
| SpeedTestPhase.PlayCounts | src/Http/NodeSelector.ts:234-262 | over any sequence of recordings every counter is the node's earlier wins plus its wins played, and an election happens at a tenth win with all others at nine or less |
| SpeedTestPhase.ElectedWithinBound | src/Http/NodeSelector.ts:234-286 | from a fresh phase of n >= 2 nodes, 9n + 1 recordings elect a node, the first to reach ten wins and strictly ahead of all others |
| Failover.MeasureDrops | src/Http/RequestExecutor.ts:1711-1776 | at each recursive send the triple (topologies still to come, recorded etag out of date, nodes not yet failed) strictly drops, whatever happened in between |
| Failover.SendsAreBounded | src/Http/RequestExecutor.ts:1711-1776 | whatever the environment does, failover ends within one send per untried node (or one per node and one more when the recorded etag is out of date) and one per node of every topology still to come |
| Failover.NoNodeTwice | src/Http/RequestExecutor.ts:1758-1765 | while the recorded etag stays current no node is sent to twice, and none that failed before |
| Failover.GivesUpWithAReason | src/Http/RequestExecutor.ts:1758-1765 | a command gives up only with a non-empty list of failed nodes or on an empty topology |
| Failover.ReportsTheFailed | src/Http/RequestExecutor.ts:1742-1776 | while the recorded etag stays current, a command that gives up reports exactly the nodes that had failed before and those it was sent to |
| Failover.AnsweredByTheLast | src/Http/RequestExecutor.ts:1711-1776 | whatever the environment does, a run starts at the node chosen, goes on after every failure, and is answered if and only if its last node answers |
| Failover.TopologyArrivesExactlyWhen | src/Http/NodeSelector.ts:86-101 | a topology that arrives meanwhile is installed with all its nodes up if and only if it is newer or forced |
| Failover.ChoiceFollowsOrder | src/Http/NodeSelector.ts:103-192 | whenever a node is up, every policy chooses the head of its failover order |
| Failover.OrderIsUpNodes | src/Http/NodeSelector.ts:103-192 | the failover order of each policy holds exactly the nodes that are up, each once |
| Failover.PriorityIsPermutation | src/Http/NodeSelector.ts:103-192 | the priority list behind the order names every place of the topology exactly once |
| Failover.MembersFirst | src/Http/NodeSelector.ts:155-192 | no member comes after a node that is not a member |
| Failover.CalmRun | src/Http/RequestExecutor.ts:1711-1776 | with every attempt failing and nothing else happening, the sends from any point follow the failover order and then the round-robin rule |
| Failover.CalmSends | src/Http/RequestExecutor.ts:1711-1776 | a fresh command on a healthy topology is sent to the nodes in failover order, and once more to the first in the one exceptional case |
| Failover.EachNodeOnceExactlyWhen | src/Http/RequestExecutor.ts:1071-1080 | a fresh command is sent to every node exactly once before it gives up if and only if the topology has an etag or the round-robin place is not the first node tried |
| FailoverExecution.RequestExecutor.ChooseNodeForRequest | src/Http/RequestExecutor.ts:796-819 | the node of the policy that conventions, kind of command and session context give, with the selector left as that policy leaves it |
| FailoverExecution.RequestExecutor.RecordEtag | src/Http/RequestExecutor.ts:1071-1080 | the command records the topology's etag once, and only a non-zero one |
| FailoverExecution.RequestExecutor.BookFailure | src/Http/RequestExecutor.ts:1723-1765 | the failure is booked on the command and on the selector, the failed nodes are forgotten when the etag changed, and the retry test comes last |
| FailoverExecution.RequestExecutor.HandleServerDown | src/Http/RequestExecutor.ts:1711-1776 | the nodes contacted after a failure and the outcome are those of the specified run |
| FailoverExecution.RequestExecutor.ExecuteOnSpecificNode | src/Http/RequestExecutor.ts:1066-1082 | the nodes contacted and the outcome are those of the specified run, by mutual recursion that terminates by the same measure |
| FailoverExecution.RequestExecutor.LetHappen | src/Http/NodeSelector.ts:77-101 | restored nodes, failures of other commands and new topologies keep executor and selector etag equal |
| BulkInsertGrammar.ParseTokens | src/Documents/BulkInsertOperation.ts:87-130 | the decoder reads any well-formed command back from its tokens and leaves the rest of the stream |
| BulkInsertGrammar.ParsePieces | src/Documents/BulkInsertOperation.ts:663-676 | a stream of commands decodes if and only if exactly the commands after the first have a comma before them |
| BulkInsertRoundTrip.RunExplained | src/Documents/BulkInsertOperation.ts:56-130 | after any calls, the text written is the rendering of a list of commands, each batch non-empty, within its limit and closed except a running last one, whose entries are what was asked for in order |
| BulkInsertRoundTrip.StepExplained | src/Documents/BulkInsertOperation.ts:150-217 | each call extends that list by what it was asked to store, or leaves it |
| BulkInsertRoundTrip.SafeExactlyWhenItemsSafe | src/Documents/BulkInsertOperation.ts:157-163 | whether all commas are in place can be read off what the caller asked for |
| BulkInsertRoundTrip.DecodeShown | src/Documents/BulkInsertOperation.ts:663-676 | a rendered list of commands decodes to itself or, when a comma is missing, not at all |
| BulkInsertRoundTrip.DecodesExactlyWhenSafe | src/Documents/BulkInsertOperation.ts:795-835 | for every run ended by finish the stream decodes if and only if the first thing asked for starts the commas (or is all there is), and then to exactly the records asked for, in order, all batches closed, non-empty and within their size limit |
| BulkInsertRoundTrip.AttachmentFirstIsLost | src/Documents/BulkInsertOperation.ts:297-300 | an attachment first and a document after it cannot be decoded |
| BulkInsertRoundTrip.EqualsIgnoreCaseExactlyWhen | src/Utility/StringUtil.ts:125-132 | two ids count as the same document if and only if they have the same length and each pair of characters is equal or the two cases of one letter |
| BulkInsertBatches.IncrementsAreBatched | src/Documents/BulkInsertOperation.ts:69-105 | any number of increments for one document is sent as full batches of 1024 and one rest |
| BulkInsertBatches.PointsAreBatched | src/Documents/BulkInsertOperation.ts:150-217 | any number of points of one time series is sent as full batches of the configured size and one rest |
| BulkInsertBatches.DocumentTakenExactlyWhen | src/Documents/BulkInsertOperation.ts:744-753 | after any calls a document is taken if and only if its id is not empty and does not end in a bar and no time series is open |
| BulkInsertBatches.SeriesOpensExactlyWhen | src/Documents/BulkInsertOperation.ts:892-910 | after any calls a time series opens if and only if none is open, the id and the name are not empty, and the name does not start with INC: in any case without an at sign |
| BulkInsertObject.BulkInsertOperation.ExecuteBeforeStore | src/Documents/BulkInsert/BulkInsertOperationBase.ts:16-22 | opens the list once |
| BulkInsertObject.BulkInsertOperation.EndPreviousCommandIfNeeded | src/Documents/BulkInsertOperation.ts:724-730 | closes a running counter batch, refuses while a time series is running |
| BulkInsertObject.BulkInsertOperation.WriteToStream | src/Documents/BulkInsertOperation.ts:663-676 | a document with the comma its place asks for |
| BulkInsertObject.BulkInsertOperation.StoreEntity | src/Documents/BulkInsertOperation.ts:610-638 | storing is the specified step and is accepted exactly when it adds a record |
| BulkInsertObject.BulkInsertOperation.TryStoreEntitySync | src/Documents/BulkInsertOperation.ts:581-599 | the synchronous form does the same except that it refuses first and full-buffer calls |
| BulkInsertObject.BulkInsertOperation.WriteCountersPrefix | src/Documents/BulkInsertOperation.ts:121-130 | opens a counter batch and resets its counters |
| BulkInsertObject.BulkInsertOperation.SwitchCountersTo | src/Documents/BulkInsertOperation.ts:69-85 | the document of the counter gets a batch: the running one of that document, or a new one after closing the one of another |
| BulkInsertObject.BulkInsertOperation.IncrementCounterOf | src/Documents/BulkInsertOperation.ts:56-110 | an increment joins the running batch of its document or opens a new one, and is accepted exactly when it adds a record |
| BulkInsertObject.BulkInsertOperation.StoreAttachmentOf | src/Documents/BulkInsertOperation.ts:287-345 | an attachment header and its bytes follow each other, and are accepted exactly when they add a record |
| BulkInsertObject.BulkInsertOperation.HeartBeatTick | src/Documents/BulkInsertOperation.ts:422-457 | a heartbeat is a command of its own, written only when due, supported and no time series is running |
| BulkInsertObject.BulkInsertOperation.TimeSeriesFor | src/Documents/BulkInsertOperation.ts:140-148 | a time series is opened exactly when its names are valid and none is running |
| BulkInsertObject.BulkInsertOperation.WriteSeriesPrefix | src/Documents/BulkInsertOperation.ts:196-205 | opens a time-series batch and resets its counters |
| BulkInsertObject.BulkInsertOperation.AppendTo | src/Documents/BulkInsertOperation.ts:150-194 | a point opens, joins or splits a batch as the specified step |
| BulkInsertObject.BulkInsertOperation.DisposeSeriesObject | src/Documents/BulkInsertOperation.ts:211-217 | closes the batch exactly when one was opened |
| BulkInsertObject.BulkInsertOperation.FinishStream | src/Documents/BulkInsertOperation.ts:795-821 | the whole stream with its closing bracket, an error while a time series runs, or nothing when no call was made |
| BulkInsertBytes.CopyInto | src/Documents/BulkInsert/BulkInsertWriterBase.ts:182-189 | writes exactly the given bytes at the index and leaves what comes before |
| BulkInsertBytes.Concat | src/Documents/BulkInsert/BulkInsertWriterBase.ts:179-192 | a new array of exactly the given length that holds the concatenation of all items, none of its uninitialised content |
| BulkInsertBytes.BulkInsertStream.Push | src/Documents/BulkInsert/BulkInsertWriterBase.ts:132-141 | the item is appended and the byte length and pass-through flag stay right |
| BulkInsertBytes.BulkInsertStream.ToBuffers | src/Documents/BulkInsert/BulkInsertWriterBase.ts:143-171 | the buffers together hold exactly the bytes pushed, in order, however they are split at large buffers |
| BulkInsertBytes.BytesConserved | src/Documents/BulkInsert/BulkInsertWriterBase.ts:60-75 | after any pushes and flushes, bytes sent followed by bytes buffered are the bytes pushed |
| BulkInsertBytes.FlushEmptiesBuffer | src/Documents/BulkInsert/BulkInsertWriterBase.ts:52-75 | after any pushes and flushes a flush leaves at most a megabyte buffered, and once the write before it has ended nothing: then everything pushed is sent |
| BulkInsertBytes.FlushWaits | src/Documents/BulkInsert/BulkInsertWriterBase.ts:52-75 | behind a flush that handed over, the next one changes nothing while that write is under way and at most a megabyte has come in |
| BulkInsertBytes.AllBytesSent | src/Documents/BulkInsert/BulkInsertWriterBase.ts:34-50 | after dispose the request body has received the bytes pushed and then the closing bracket, and a second dispose sends nothing |
| BulkInsertBytes.BulkInsertWriter.Write | src/Documents/BulkInsert/BulkInsertWriterBase.ts:132-141 | a push goes to the current collection only |
| BulkInsertBytes.BulkInsertWriter.FlushIfNeeded | src/Documents/BulkInsert/BulkInsertWriterBase.ts:56-75 | when needed, the collection is handed over whole and a fresh one started |
| BulkInsertBytes.BulkInsertWriter.WriteToStream | src/Documents/BulkInsert/BulkInsertWriterBase.ts:85-102 | the request body grows by the buffers in order |
| BulkInsertBytes.BulkInsertWriter.DisposeWriter | src/Documents/BulkInsert/BulkInsertWriterBase.ts:34-50 | sends what is left and the closing bracket once |
| JsonDiff.ObjectAgrees | src/Mapping/JsonOperation.ts:33-158 | comparing two objects only adds to the shared list, and leaves an empty list empty exactly when the yes/no mode says unchanged |
| JsonDiff.ItemsAgree | src/Mapping/JsonOperation.ts:185-264 | the same for the items of an array, despite the short-circuit on the flag and the accumulated list |
| JsonDiff.ArrayAgrees | src/Mapping/JsonOperation.ts:164-282 | the same for arrays of different length, although the flag stays unset then |
| JsonDiff.ModesAgree | src/Mapping/JsonOperation.ts:9-28 | for all documents the yes/no mode answers changed if and only if the report is not empty |
| JsonDiffMeaning.SelfObject | src/Mapping/JsonOperation.ts:66-104 | a document compared with itself is unchanged if and only if no compared property holds the not-a-number value |
| JsonDiffMeaning.ObjectMeaning | src/Mapping/JsonOperation.ts:46-150 | on documents without falsy values whose objects were objects before, unchanged means equal after erasing the five ignored fields at every depth, in both directions |
| JsonDiffMeaning.ZeroBecomesNull | src/Mapping/JsonOperation.ts:98-105 | zero turned into null is no change, null turned into zero is one |
| JsonDiffMeaning.UnchangedMeansEqualUnlessConfused | src/Mapping/JsonOperation.ts:33-264 | for all unchanged documents: they are equal after erasing the ignored fields if and only if no falsy value became null, no object replaced a truthy value with the same properties, and no falsy item another |
| JsonDiffMeaning.EqualIsUnchangedUnlessNaN | src/Mapping/JsonOperation.ts:66-104 | for all documents that are equal after erasing the ignored fields: they are unchanged if and only if no compared property holds the not-a-number value |
| JsonDiffMeaning.CountsAsItsProperties | src/Mapping/JsonOperation.ts:46-141 | whatever stood in the place of an object is compared as the object of its own properties, so a number or truth value is unchanged by exactly the objects with nothing but ignored fields |
| JsonDiffReport.ReportCompleteExactlyWhen | src/Mapping/JsonOperation.ts:33-282 | for all documents the report is the full list of differences if and only if no differing pair of objects or arrays stands behind a position that set the flag; it never is longer |
| JsonDiffPlaces.FullReportListsDifferences | src/Mapping/JsonOperation.ts:33-302 | for all documents without repeated keys the full report has exactly one entry for each place, at any depth, where the documents differ: with the path of that place, its name, both its values and the kind (removed, new or changed property; added, changed or removed item); removed properties first, the others in the order of the new document |
| JsonDiffPlaces.ReportListsDifferencesExactlyWhen | src/Mapping/JsonOperation.ts:33-302 | the actual report is such a list of all differences if and only if no array hides one behind its flag |
| JsonDiffPlaces.ReportIsSound | src/Mapping/JsonOperation.ts:33-302 | also when it is not complete, every entry of the report belongs to a place where the documents differ |
| JsonDiffPlaces.BlankIsFalsy | src/Mapping/JsonOperation.ts:98-99 | the values that count as missing are undefined, null, false, zero, not-a-number and the empty text, and no others |
| JsonDiffReport.ArrayReport | src/Mapping/JsonOperation.ts:164-282 | for every array and every list so far: the flag comes out set exactly when some position sets it, and the list grows by the full report exactly when that is not in the way |
| JsonDiffReport.FlagAtPosition | src/Mapping/JsonOperation.ts:185-194 | the flag before position k is set exactly when an earlier position had a visible change, or held two objects while the list was not empty |
| JsonDiffReport.SameSetsNoFlag | src/Mapping/JsonOperation.ts:185-264 | unchanged items leave the flag unset while the list is empty, and so does a mere difference in length between two inner arrays |
| JsonDiffReport.EarlierChangeHidesObject | src/Mapping/JsonOperation.ts:152-157 | in a whole document, after any change of one property, a list whose first object is unchanged is reported without any change of its second object, so the report is full if and only if that object is unchanged |
| JsonDiffRun.CompareJson | src/Mapping/JsonOperation.ts:33-158 | the loop answers as the yes/no specification without a list, and extends the list as the report specification with one |
| JsonDiffRun.CompareField | src/Mapping/JsonOperation.ts:72-149 | the same for one property |
| JsonDiffRun.CompareJsonArray | src/Mapping/JsonOperation.ts:164-282 | the same for two arrays |
| JsonDiffRun.CompareItem | src/Mapping/JsonOperation.ts:186-257 | the same for one array position |
| JsonDiffRun.EntityChanged | src/Mapping/JsonOperation.ts:9-27 | a new document is always changed; the change table gets an entry for a stored one exactly when it changed and a report was asked for |
| ObjectMappingExact.RoundTripExactlyWhen | src/Mapping/ObjectMapper.ts:53-122 | for every tree of objects, arrays, dates and plain values, and any date parser that undoes the printer, reading what was written with the recorded types in sorted order gives the tree back if and only if it is an object in which nothing poses as a built-in or sets its prototype, no date is hidden under metadata, the path of every date leads to it, no key on the way ends in a collection mark and no object on the way hides the lookup |
| ObjectMappingExact.RestoredExactlyWhen | src/Mapping/ObjectMapper.ts:74-88 | the same for the recorded types in any order |
| ObjectMappingExact.MarksOnlyUnderEmptyKey | src/Mapping/ObjectMapper.ts:134-147 | when the paths lead to their dates, a key on the way to a date ends in a collection mark if and only if the first key is empty and the second is a mark |
| ObjectMappingExact.MarkedDateIsLost | src/Mapping/ObjectMapper.ts:154-174 | a date under the mark of an array or map under an empty key makes reading throw, and under the mark of a set it stays text, although its recorded path leads to it |
| ObjectMappingExact.PoserIsLost | src/Utility/TypeUtil.ts:124-133 | a tree with an object that poses as a date, set or map, or has a key that sets the prototype, never comes back, whatever types are applied |
| ObjectMappingExact.PosingDateThrows | src/Utility/TypeUtil.ts:58-60 | an object whose constructor property names the date type makes writing throw |
| ObjectMappingExact.HiddenLookupThrows | src/Mapping/ObjectMapper.ts:151-158 | an own property called hasOwnProperty, whatever its value, makes reading throw when the date beside it is put back |
| ObjectMappingExact.CleanKeysAreFaithful | src/Mapping/ObjectMapper.ts:78-82 | keys that are non-empty and free of dots, exclamation marks, brackets and the two collection marks are enough for every path to lead to its date and for none to ask for a collection |
| ObjectMappingExact.DottedKeyIsNeverRestored | src/Mapping/ObjectMapper.ts:78-82 | a tree with a date under a key that has a dot or an exclamation mark never comes back |
| ObjectAddresses.FaithfulExactlyWhen | src/Mapping/ObjectMapper.ts:78-82 | on any object the recorded paths together lead to all dates if and only if each leads to its own: no exchange of paths can make up for a lost one |
| ObjectPaths.SegmentsUndoJoined | src/Mapping/ObjectMapper.ts:78-82 | taking a recorded path apart gives back the keys it was joined from, when they are clean |
| ObjectPaths.JoinedIsInjective | src/Mapping/ObjectMapper.ts:438-439 | two different properties under clean keys never get the same path |
| ObjectPaths.CleanIsFaithful | src/Mapping/ObjectMapper.ts:78-82 | the path of any property under clean keys leads back to it |
| ObjectPaths.CleanExactlyWhen | src/Mapping/ObjectMapper.ts:78-82 | a key is clean if and only if it is not empty and holds no dot, exclamation mark, opening bracket, `$MAP` or `$SET` |
| ObjectMapping.ApplyNestedTypes | src/Mapping/ObjectMapper.ts:68-91 | the loop applies the paths in sorted order, each to everything it leads to, and stops at the first exception |
| ObjectCollections.EachReadExactlyWhen | src/Mapping/ObjectMapper.ts:192-254 | reading inside a collection succeeds if and only if the value is one of that kind and every element can be read by itself; where no value can be set, all elements must be undefined |
| ObjectCollections.EachIsRead | src/Mapping/ObjectMapper.ts:192-254 | every item or member is then what it becomes by itself, in its own place, and nothing else changes |
| ObjectCollections.NothingBelowBlank | src/Mapping/ObjectMapper.ts:124-129 | below undefined, null, false, zero and the empty text nothing is looked up, whatever the path |
| ObjectCollections.NoItemsThrows | src/Mapping/ObjectMapper.ts:231-232 | asking any other value that is neither array nor object for its items throws |
| ObjectCollections.AllItems | src/Mapping/ObjectMapper.ts:231-254 | for every array and every rest of a path behind `[]`: the result has the same length and item k is the item k read by itself |
| ObjectCollections.ListOfDatesIsRead | src/Mapping/ObjectMapper.ts:68-91 | a property with a list of printed dates and nulls, read with its key, `[]` and the type of dates, becomes the list of these dates, and no other property changes |
| ObjectCollections.DateOfEveryItemIsRead | src/Mapping/ObjectMapper.ts:231-254 | a date below every object of a list is read for each object from its own text |
| ObjectCollections.SetHoldsDistinctItems | src/Mapping/ObjectMapper.ts:284-287 | a list read as a set holds, in its order, exactly the items that do not repeat an earlier primitive |
| ObjectCollections.AllMembers | src/Mapping/ObjectMapper.ts:213-229 | all members of a set are replaced by what they become, in the same order |
| ObjectCollections.SetOfDatesIsRead | src/Mapping/ObjectMapper.ts:68-91 | a list of printed dates, read as a set with dates as its members, becomes the set of these dates in the order of their first occurrence |
| SortedTexts.SortedIsOrdered | src/Mapping/ObjectMapper.ts:74-75 | the paths are taken in order, each once |
| SortedTexts.OrderedByUnits | src/Mapping/ObjectMapper.ts:74-75 | that order is the one of their UTF-16 code units, in which a character outside the basic plane comes before those from U+E000 on |
| ObjectReach.TouchKeepsText | src/Mapping/ObjectMapper.ts:124-254 | applying a type to a path, through properties and the contents of collections, leaves every text alone that the path cannot lead to |
| ObjectReach.SegmentsArePieceKeys | src/Mapping/ObjectMapper.ts:78-82 | a path is taken apart into pieces that have a mark only at their start |
| ObjectReach.PathOfFindable | src/Mapping/ObjectMapper.ts:78-82 | the recorded path of a date under keys that paths can find at all asks for no collections |
| ObjectMappingRoundTrip.WriteIsLiteral | src/Mapping/ObjectMapper.ts:368-462 | without posing objects the writer replaces every date by its text and changes nothing else |
| ObjectMappingRoundTrip.NothingDone | src/Mapping/ObjectMapper.ts:368-462 | the written literal is the tree with none of its dates put back |
| ObjectMappingRoundTrip.RecordIsPaths | src/Mapping/ObjectMapper.ts:378-443 | for every tree and all keys the recorded paths are exactly the paths of the dates outside skipped metadata |
| ObjectMappingRoundTrip.RecordedExactlyWhen | src/Mapping/ObjectMapper.ts:378-443 | a date is recorded if and only if it does not lie under an `@metadata` property with nothing but objects on the way from there |
| ObjectMappingRoundTrip.HiddenExactlyWhen | src/Mapping/ObjectMapper.ts:433-436 | a tree hides a date from the record if and only if some date lies like that |
| ObjectMappingRoundTrip.TouchRestoresOne | src/Mapping/ObjectMapper.ts:124-191 | applying the address of a recorded date puts back exactly that date and changes nothing else, or throws exactly when an object on the way has an own property called hasOwnProperty; if a key on the way ends in a collection mark the date stays text or reading throws |
| ObjectMappingRoundTrip.PathsRestoreInAnyOrder | src/Mapping/ObjectMapper.ts:74-88 | applying recorded paths in any order puts back exactly their dates, or throws exactly when one of them meets such an object; with a collection mark in one of them they never put back all their dates |
| ObjectCommute.TouchesCommute | src/Mapping/ObjectMapper.ts:124-323 | on any tree, types of two paths whose first different segments name two properties can be applied in either order, exceptions included, also through and into the contents of arrays, sets and maps |
| ObjectCommute.MarksMayCollide | src/Mapping/ObjectMapper.ts:231-254 | a path with a collection mark and one to an item can give different results in different orders, although neither contains the other |
| ObjectMappingRoundTrip.RestoredExactlyWhenNothingHidden | src/Mapping/ObjectMapper.ts:433-436 | a tree with all recorded dates back is the original if and only if no date lies under metadata outside an array |
| Semaphores.RunKeepsInv | src/Utility/Semaphore.ts:16-64 | in every run of acquire, time-out, dispose and task steps the counter equals held permits plus granted tasks not yet run, stays within the capacity, equals it while anybody waits, grants follow the order of arrival, and no leave is one too many |
| Semaphores.ExclusiveAndInOrder | src/Utility/Semaphore.ts:16-64 | at any time at most as many acquisitions as the capacity hold a permit, and nobody is granted one while an earlier arrival still waits |
| Semaphores.StepKeepsInv | src/Utility/SemaphoreUtil.ts:46-98 | each step keeps that, also when the acquisition timed out or was disposed before its task ran |
| Semaphores.AllPermitsComeBack | src/Utility/SemaphoreUtil.ts:80-98 | once everything is disposed and every granted task has run, the counter is zero, and with a positive capacity everyone was granted in turn |
| Semaphores.TasksDrain | src/Utility/SemaphoreUtil.ts:50-60 | when everything is disposed, each task run passes its permit on, so exactly the granted and the waiting ones still run and no more |
| Semaphores.LateNeverHolds | src/Utility/SemaphoreUtil.ts:50-60 | in every run an acquisition that timed out or was disposed before its task ran never comes to hold a permit |
| Semaphores.LateTaskPassesOn | src/Utility/SemaphoreUtil.ts:50-60 | the permit it was granted goes to the next in the queue, or back |
| Semaphores.NoLeaveThrows | src/Utility/Semaphore.ts:43-64 | in every state that a run reaches no disposal and no task gives back a permit that is not in use |
| SemaphoreObjects.Semaphore.TakeFor | src/Utility/Semaphore.ts:16-41 | the detour over the first-here flag always comes to the simple take and leaves the flag as it was |
| SemaphoreObjects.Semaphore.LeaveOne | src/Utility/Semaphore.ts:43-64 | gives the permit back or on to the head of the queue, and tells whether it threw |
| SemaphoreObjects.SemaphoreAcquisition.constructor | src/Utility/SemaphoreUtil.ts:32-78 | a new acquisition is granted at once or waits |
| SemaphoreObjects.SemaphoreAcquisition.Task | src/Utility/SemaphoreUtil.ts:50-64 | a granted task takes the permit, or gives it back when it comes too late |
| SemaphoreObjects.SemaphoreAcquisition.RunScheduled | src/Utility/Semaphore.ts:2-4 | the event loop runs a granted task once |
| SemaphoreObjects.SemaphoreAcquisition.DisposeThis | src/Utility/SemaphoreUtil.ts:80-98 | disposing gives back a held permit exactly once |
| HttpCaching.RunKeepsInv | src/Http/HttpCache.ts:36-108 | after any commands the total is the sum of the weights and within the budget, keys are distinct, stored entries are exactly the most recently used ones in order of use, and each holds the last value written |
| HttpCaching.PutKeepsLongestSuffix | src/Http/HttpCache.ts:86-108 | storing an item that fits keeps it and exactly the longest run of most recently used entries that fits beside it |
| HttpCaching.OversizePutOnlyDeletes | src/Http/HttpCache.ts:87-97 | an item that can never fit removes only the entry under its own key |
| HttpCaching.HitsAreCurrent | src/Http/HttpCache.ts:45-62 | every hit returns what a map that never evicts would return |
| HttpCaching.PayloadsStayWithinSize | src/Http/HttpCache.ts:86-117 | after any commands the total is the length of all stored payloads and twenty for each entry, and within the size the cache was made with |
| HttpCaching.StoredIsFound | src/Http/HttpCache.ts:36-108 | a response or a not-found marker just stored is found with its change vector and payload, or nothing is found when it can never fit |
| HttpCaching.HttpCache.PutItem | src/Http/HttpCache.ts:86-108 | the eviction loop comes to the specified cache |
| HttpCaching.HttpCache.Fetch | src/Http/HttpCache.ts:45-72 | the stored item, moved to the most recent end, or nothing and no change |
| HttpCaching.HttpCache.Store | src/Http/HttpCache.ts:36-43 | stores the response under its address |
| HttpCaching.HttpCache.StoreNotFound | src/Http/HttpCache.ts:74-80 | stores the marker of a missing document, at the weight of an empty one |
| QueryConverters.RegistrationsAreOrdered | src/Documents/Conventions/DocumentConventions.ts:918-940 | after any registrations no converter precedes one for a strict subclass |
| QueryConverters.LookupAfterRegister | src/Documents/Conventions/DocumentConventions.ts:918-954 | a new registration is found for a value exactly when it matches and is at least as specific as what was found before |
| QueryConverters.LookupIsMostSpecific | src/Documents/Conventions/DocumentConventions.ts:943-954 | lookup finds the converter of the most specific registered class of the value, the latest one for that class, and fails only when no registered class matches |
| QueryConverters.MatchesExactlyWhen | src/Documents/Conventions/DocumentConventions.ts:945-947 | a converter is for a value if and only if its class stands in the chain of base classes of the value's class |
| QueryConverters.TypesFormChain | src/Documents/Conventions/DocumentConventions.ts:945-946 | with single inheritance the classes a value is an instance of form a chain |
| QueryConverters.DocumentConventions.RegisterQueryValueConverter | src/Documents/Conventions/DocumentConventions.ts:918-940 | the scan finds the place before the first converter of the same or a base class; frozen conventions refuse |
| QueryConverters.DocumentConventions.TryConvert | src/Documents/Conventions/DocumentConventions.ts:943-954 | the loop finds the first converter that matches |
| TimeSpans.DurationToTimeSpan | src/Utility/TimeUtil.ts:23-54 | the running remainder prints the same parts as dividing the whole duration |
| TimeSpans.MillisToTimeSpan | src/Utility/TimeUtil.ts:81-109 | the same for the printer with six fraction digits |
| TimeSpans.PrintedIsRead | src/Utility/TimeUtil.ts:56-79 | the parser reads any printed duration, with up to four zeros behind the milliseconds, back to the duration plus an excess that is zero unless it has days and milliseconds |
| TimeSpans.DurationRoundTrip | src/Utility/TimeUtil.ts:23-79 | printing and reading gives the duration plus 9999 times its milliseconds if it is a day or more, hence the duration itself if and only if it is under a day or whole seconds |
| TimeSpans.MillisRoundTrip | src/Utility/TimeUtil.ts:56-109 | the same with 999 times for the other printer |
| TimeSpans.ClockIsRead | src/Utility/TimeUtil.ts:7-19 | the hours, minutes and seconds of a printed duration are read back as their milliseconds |
| TimeSpans.ParseIntReads | src/Utility/TimeUtil.ts:7-11 | a number is read from any text as its digits behind blanks and a sign, and there is none without digits |
| TimeSpans.RefusedExactlyWhen | src/Utility/TimeUtil.ts:13-15 | a text is refused if and only if its clock does not have three parts |
| TimeSpans.EmptyFractionIsZero | src/Utility/TimeUtil.ts:60-65 | days and a clock with only a dot behind it have no milliseconds |
| Subscriptions.RunKeepsInv | src/Documents/Changes/ChangesObservable.ts:24-89 | for any number of observables on one connection, the counter is the number of data subscribers plus the duplicate subscriptions, and each shared handler is registered once exactly while its observable has subscribers |
| Subscriptions.DisconnectsExactlyOnDrop | src/Documents/Changes/DatabaseConnectionState.ts:53-58 | a step runs the disconnect action exactly when it takes the last subscriber away and no handler was ever subscribed twice |
| Subscriptions.OneDisconnectPerDrop | src/Documents/Changes/DatabaseConnectionState.ts:49-58 | without duplicates, disconnects over a run are the drops to zero |
| Subscriptions.DuplicateNeverDisconnects | src/Documents/Changes/ChangesObservable.ts:35-36 | after one duplicate subscription the connection is never given up again |
| Subscriptions.EverySubscriberOnce | src/Documents/Changes/ChangesObservable.ts:91-102 | a change reaches every subscriber of its type whose filter accepts it exactly once, and nobody else |
| Subscriptions.SubscribedExactlyWhen | src/Documents/Changes/ChangesObservable.ts:24-89 | after any run the subscribers of an observable, for data and for errors, are exactly the handlers subscribed there and not unsubscribed since |
| Subscriptions.TypesAreKept | src/Documents/Changes/ChangesObservable.ts:17-21 | every observable keeps the type it was created with |
| SubscriptionObjects.DatabaseConnectionState.DecOne | src/Documents/Changes/DatabaseConnectionState.ts:53-58 | counts one less and disconnects at zero |
| SubscriptionObjects.DatabaseConnectionState.RemoveOnChange | src/Documents/Changes/DatabaseConnectionState.ts:94-96 | removes the latest registration of a handler and keeps the order of the others |
| SubscriptionObjects.ChangesObservable.Subscribe | src/Documents/Changes/ChangesObservable.ts:24-52 | subscribing for data or errors is the specified step on observable and connection |
| SubscriptionObjects.ChangesObservable.Unsubscribe | src/Documents/Changes/ChangesObservable.ts:62-89 | unsubscribing is the specified step, also for a handler that was never subscribed |
| TimeValues.AntisymmetricExactlyWhen | src/Primitives/TimeValue.ts:162-188 | for all values of all units, comparing the other way round gives the opposite answer or the same exception, if and only if it is not a negative month count with the seconds between its crossed bounds |
| TimeValues.NegativeMonthsAreCrossed | src/Primitives/TimeValue.ts:195-205 | minus one month and minus 395 days each compare as the greater |
| TimeValues.AnswersAreNegatives | src/Primitives/TimeValue.ts:247-257 | on non-negative values whose difference fits in 32 bits the two answers are negatives of each other |
| TimeValues.ExtremesCompare | src/Primitives/TimeValue.ts:215-245 | everything but zero, in whatever unit, is below the largest value and above the smallest, and two of a kind are the same |
| TimeValues.SameUnitAnswers | src/Primitives/TimeValue.ts:162-174 | in one unit the answer is the difference or the nearest 32-bit number, with zero the plain difference |
| TimeValues.BoundsInDays | src/Primitives/TimeValue.ts:195-205 | the bounds are whole years of 365 and 366 days and the months left of 28 and 31 days; for negative months the years are rounded away from zero, the months left are not |
| TimeValues.BoundsAreStrictlyMonotone | src/Primitives/TimeValue.ts:195-205 | both month bounds strictly grow with the number of months, across the change of year |
| TimeValues.LessIsTransitive | src/Primitives/TimeValue.ts:162-188 | definite answers are transitive across seconds, months, zero and the extreme values: if two comparisons answer, so does the third |
| TimeValues.SameIsCongruent | src/Primitives/TimeValue.ts:162-174 | values that compare equal can stand for each other in every comparison |
| TimeValues.CalendarIsWithinBounds | src/Primitives/TimeValue.ts:195-205 | wherever so many months start in the Gregorian calendar, their days lie between the bounds |
| TimeValues.AnswerHoldsForEveryLength | src/Primitives/TimeValue.ts:176-187 | months compare with seconds definitely if and only if every real length between the bounds agrees, the exception is thrown exactly when the seconds lie between them, and a definite answer holds for every stretch of the calendar |

## Left out

- HTTP requests, timers, compression, TLS and foreign runtimes: the server, the clock and the event loop are steps of an environment.
- HiLo: returning unused ranges and the refresh on a changed separator, since a call in flight may still use a returned range; the id prefix.
- MultiTypeHiLoIdGenerator: the refresh on a changed separator, which empties the table; its state is a value, so updates in place are not shown, and a call that fails while it holds the permit releases it like one that succeeds.
- Node selection: a selected node tag, promotable nodes, a missing topology and topology etags that are not numbers.
- Failover: broadcast, the answers "too early" and "gone", time-outs and the race for the fastest node; a command is either answered or fails with a retry.
- Speed test: the requests that produce the recordings.
- Bulk insert: JSON text and string escaping (each written value is one token), remote parameters of attachments, the server version check (an input of a heartbeat), the stream lock, and time-series objects used after their disposal.
- BulkInsertState.Lower: folds only the letters A to Z, where the client uses full case conversion.
- Bulk insert writer: waiting for the previous asynchronous write; the model writes at once and lets the end of a write happen at any later step.
- BulkInsertBytes.Concat: takes strings as their UTF-8 bytes; the encoding itself is not modelled.
- Document diff: functions and symbols as property values, which raise an exception; values are JSON trees with an undefined and a not-a-number value.
- Object mapping: sets and maps in the tree that is written, the type of a map when reading, user classes, registered types and field-name converters, and own properties of strings and the length of arrays, through which no date can come back; printing and parsing of dates, what becomes of an object that poses as a set or sets its prototype, and the length of an object read as a list are parameters; the tree is a value, which loses nothing since reading works on a private deep copy.
- Semaphore: takes of more than one permit, tasks that use the semaphore again while they run, and the promise that tells the caller.
- Cache: the age of an item and the release handle; the payload of a stored response is a string.
- Query converters: what a converter does with the value, and values from classes with changed prototypes.
- Durations: negative and fractional numbers of milliseconds, and blanks other than space, tab and line ends in front of a number.
- Subscriptions: filters that throw, connecting, and the error an emitter raises when an undefined handler is removed, which leaves the state as it was.
- Time values: their text form, and values that are not whole numbers.
