# Verified core of sp00ky

A Dafny model of the algorithms at the heart of the sp00ky sync framework, with proofs of what they promise. Each
module stands for one component:

| module | component |
|---|---|
| `Rules`, `Rebase`, `RebaseExact`, `ParentParam`, `CrdtSchema` | rewriting a parent table's permission rule so that it can be read through a record link on a generated row |
| `Agent`, `AgentBooks`, `AgentPrompt`, `AgentMix`, `AgentLease`, `AgentRule`, `AgentBackend` | the pool agent's poll loop: what becomes of each start, whose outcome a report carries, how long a job can outlive scheduler contact, when that keeps it inside its lease, how the loop ends and what it leaves the backend doing |
| `Names`, `Canonical`, `TableHash` | canonical JSON and the byte stream a table hash is taken over |
| `JsonText`, `CanonicalReads`, `TableReads` | a reader of JSON text by RFC 8259, and that it reads that text and that stream back |
| `Graph`, `DockerDeps` | validating `dependsOn` among docker apps, and the order dev starts them in |
| `DagLayout`, `DagRender`, `DagCanvas` | laying out and drawing a workflow graph |
| `Supervisor`, `SupervisorVerdict` | the restart policy of the dev supervisor over whole runs |
| `Flags`, `FlagCache` | feature-flag rules, their edits, and the materialized assignments |
| `Routes` | deciding whether an exposed route pattern can meet an OpenAPI path |
| `EnvConfigYaml`, `EnvSpelling` | reading and printing the `env:` block, and how it is spelled |
| `Annotations`, `ClientSchema` | the line scanners over schema files |

Code that updates state is modelled by classes and loops, each proved against a specification function; the theorems
are about those functions. Durations, outcomes of calls, the SurrealQL parser, the flag hash and the database are
parameters, so the theorems hold for all of them.

## What the proofs found

* **The agent's rule is not unconditional.** The agent's documentation says that it always stops its jobs before the
  scheduler may hand them on (apps/agent/src/lib.rs:22-26). A poll may be held for 30 s, a failed poll pauses 1 s, each
  completion read meanwhile can block for a poll and a report (`give_up_after` + 46 s together), and each cancel of a
  reply, one that ends in a shutdown included, for a report. `RuleExact` gives the inequality under which the rule
  holds, in both directions and for every lease configuration, and `MarginExact` its usual form: the margin must exceed
  41 s + k (g + 46 s) + lag. The margin the pool engine hands out, at most 30 s, fails it for every lease
  (`ShippedMarginIsTooShort`).
* **An outcome can be taken for another start's** only if one reply cancels an attempt that runs and leaves it running
  again (`MixExact`, in both directions; `RecallMixesOutcomes` is such a run). In every run without such a reply each report
  carries what its own task sent (`OutcomesAreOwn`); in every run it says what some task of its attempt sent in it (`ReportsSaySo`). The loop's `select!` reads a waiting message before any poll is
  answered, so a dropped start is never reported, even when its attempt is assigned again (`DroppedIsNeverReported`).
  The engine does not send such a reply: it cancels attempts that are no longer bound to the machine and assigns
  attempts that are (packages/pool-core/src/engine.rs:1016-1060).
* **Aborted work can go on.** A cancel of one of several jobs only drops its request, and the backend is restarted only when
  nothing runs any more at that moment. So when the last job ends by itself, the backend may still work on one that was cancelled,
  while the agent is idle and takes new jobs (`AbortedWorkGoesOn`, apps/agent/src/lib.rs:381-389, 428-440). An idle agent's backend
  is clean in every run if and only if it is recycled per job (`CleanExactly`).
* **Books by attempt** hold throughout a run exactly when no attempt is assigned again after it left `running`
  (`AttemptBooksExact`); by start they always hold (`BooksAlways`).
* **Edges over more than one column** are drawn through the boxes between: only blank cells of a box can be filled, so
  no text is lost, but a route keeps to the gaps exactly when it spans one column (`RouteKeepsToGaps`).
* **The table stream** is exact for NUL-free ids. A NUL in an id lets one row spell two (`NulIdCollides`); rows that
  share an id show their order (`PreimageById`, `RepeatedIdKeepsOrder`).
* **Rebasing** preserves the meaning of a rule, whatever operators, methods and edges mean and on every database, if and
  only if the rule is in the fragment `Fine` (`PreservedExactly`, and `RebasedTextExactly` for the text the code returns).
  What it gets wrong: bare `$parent`, a method of `$parent`, `$parent` where a nested subquery binds it anew, leading
  graph steps, and row fields in a method's arguments or in a node kind the pass does not enter (`BareParentMoves`,
  `ParentMethodMoves`, `NestedParentMoves`, `UnenteredStay`, `ArgumentsStay`). The text pass also moves a `$parent` path
  spelled in a literal (`LiteralsMove`).
* **The env block** survives printing and reading exactly when no mapping the reader visits holds a lone vault list
  beside keys that are not strings (`PrintedConfigReadsBack`).
* **Schema scanners.** An annotation above a `DEFINE FIELD` whose `ON` stands on the next line is neither attached nor
  reported (`SplitDefinitionLosesAnnotation`), which `LostExactlyWhen` delimits. A permissions clause left open
  swallows every statement up to the next `;` (`OpenClauseSwallows`), and `KeptExactly` says for any schema which lines stay.

## Model

| member | source | states |
|---|---|---|
| `CrdtSchema.IdiomNode.Rebase` | apps/cli/src/crdt_schema.rs:375-384 | the in-place edit of one path: a path that starts with a field goes behind the link, a bare `id` becomes the link, any other path stays |
| `CrdtSchema.RebaseInPlace` | apps/cli/src/crdt_schema.rs:343-373 | the recursive in-place pass over a tree whose path nodes each have one owner leaves the tree standing for the rebased rule |
| `Rebase.ThroughTheLink` | apps/cli/src/crdt_schema.rs:318-324 | on a row that links to record r, link + path reaches what the path reaches on r itself |
| `Rebase.RowPath` | apps/cli/src/crdt_schema.rs:375-384 | a rewritten row path on the generated row has the value of the original path on the linked record, bare `id` included |
| `Rebase.ParentPath` | apps/cli/src/crdt_schema.rs:386-394 | a rewritten `$parent` path has its old value when `$parent` changes from the record to the generated row |
| `Rebase.PathPreserved` | apps/cli/src/crdt_schema.rs:375-394 | a path whose arguments keep their values keeps its value, on the checked row, in a subquery or behind `$parent`, if the fragment allows its head there |
| `Rebase.ArgsPreserved` | apps/cli/src/crdt_schema.rs:375-384 | the arguments of a path's steps, which the tree pass does not enter, keep their values if the fragment allows them there |
| `Rebase.SelectPreserved` | apps/cli/src/crdt_schema.rs:364-370 | a statement subquery keeps its own scope: it selects the same rows and projects the same values, only `$parent` moves |
| `Rebase.Preserved` | apps/cli/src/crdt_schema.rs:325-394 | in every scope the rewritten expression has the value the expression had |
| `Rebase.RebasePreserves` | apps/cli/src/crdt_schema.rs:325-394 | for every rule of the fragment, every store, operator meaning and link, the rebased rule on the generated row evaluates to what the rule evaluates to on the linked record |
| `RebaseExact.Shows` | apps/cli/src/crdt_schema.rs:343-394 | every rule outside the fragment has a stage on which one reading, the rebased rule's or the original's, shows a mark |
| `RebaseExact.IsClean` | apps/cli/src/crdt_schema.rs:315-324 | which the other reading never shows there |
| `RebaseExact.PreservedExactly` | apps/cli/src/crdt_schema.rs:315-394 | so a rule that does not itself name the link keeps its meaning, for all meanings of operators, methods and edges and all databases, if and only if it is in the fragment |
| `ParentParam.ParentMarked` | apps/cli/src/crdt_schema.rs:386-391 | the marker pass takes `$parent.id` only where the word ends there, so `$parent.identity` is left to the next pass and `$parent.id()` is not |
| `ParentParam.RenderPass` | apps/cli/src/crdt_schema.rs:386-394 | each of the three textual passes over a rendered rule rewrites exactly its dotted `$parent` paths, those in method arguments included, and copies everything else, for every rule and every text behind it |
| `ParentParam.ThreePassesAreOne` | apps/cli/src/crdt_schema.rs:386-394 | the three replacements through the marker equal one rewrite of each `$parent` path of the tree |
| `CrdtSchema.RebasedRuleIsTheParentsRule` | apps/cli/src/crdt_schema.rs:325-334 | for every rule that is no literal, whatever white space is around it, the text the whole function returns is the rendering of a rule that has on every linked row the value the parsed rule has on the record |
| `CrdtSchema.RebasedTextExactly` | apps/cli/src/crdt_schema.rs:325-334 | that text, for every parsed rule, is the rendering of a rule that always has the original's value if and only if the original is in the fragment |
| `CrdtSchema.LiteralsPass` | apps/cli/src/crdt_schema.rs:326-329 | `true` and `false`, in any case and with any white space around, give exactly that word in lower case |
| `CrdtSchema.ParserDecides` | apps/cli/src/crdt_schema.rs:330-333 | any other rule fails if and only if the parser rejects it without the white space around it, and is else the rendering of the rebased rule |
| `CrdtSchema.OpenOnlyIfSaid` | apps/cli/src/crdt_schema.rs:325-334 | the answer is `true` only if the rule is a case variant of `true` or its rebased rendering is that |
| `CrdtSchema.BareParentMoves` | apps/cli/src/crdt_schema.rs:386-394 | a bare `$parent` keeps naming the generated row: for every table and link some database tells the rules apart |
| `CrdtSchema.ParentMethodMoves` | apps/cli/src/crdt_schema.rs:386-394 | likewise a method of `$parent`, called on the link instead of the row |
| `CrdtSchema.NestedParentMoves` | apps/cli/src/crdt_schema.rs:386-394 | likewise `$parent` in a nested statement subquery, moved although it names the subquery's row |
| `CrdtSchema.UnenteredStay` | apps/cli/src/crdt_schema.rs:343-378 | likewise a leading graph step, and a field inside a node kind the pass does not enter |
| `CrdtSchema.ArgumentsStay` | apps/cli/src/crdt_schema.rs:375-384 | likewise a field in the argument of a method, as the pass edits only the head of a path |
| `CrdtSchema.LiteralsMove` | apps/cli/src/crdt_schema.rs:386-394 | a `$parent` path spelled inside a literal is moved too, for every such text |
| `Agent.ReportTime` | apps/agent/src/lib.rs:463-493 | a report lasts at most the window, one pause and one post |
| `Agent.PollLoop.constructor` | apps/agent/src/lib.rs:363-367 | the loop starts with nothing running, an empty channel and fresh contact |
| `Agent.PollLoop.DeliverReport` | apps/agent/src/lib.rs:463-493 | the retry loop takes the time its answers dictate and adds one report |
| `Agent.PollLoop.Abort` | apps/agent/src/lib.rs:403-405 | aborted tasks are at work no more, but the last step of one may still send |
| `Agent.PollLoop.Drain` | apps/agent/src/lib.rs:403-405 | every running job is aborted and counted as dropped, none is reported |
| `Agent.PollLoop.CancelOne` | apps/agent/src/lib.rs:428-440 | a cancel of a running attempt aborts and reports it, and restarts the backend if it was the last; of any other it does nothing |
| `Agent.PollLoop.Handle` | apps/agent/src/lib.rs:413-442 | one command: a repeated assignment is ignored, a new one starts a task |
| `Agent.PollLoop.HandleAll` | apps/agent/src/lib.rs:412-443 | all commands of a reply are obeyed in order, with messages of tasks coming in between, and a shutdown among them is noted |
| `Agent.PollLoop.Resume` | apps/agent/src/lib.rs:444-458 | a shutdown ends the loop and drops what runs; otherwise the loop pauses; either way it is known how long the reply took |
| `Agent.PollLoop.Obey` | apps/agent/src/lib.rs:410-450 | a successful poll renews contact before any command is handled |
| `Agent.PollLoop.Consume` | apps/agent/src/lib.rs:381-389 | an outcome is reported only if its attempt still runs, and for the task that runs it |
| `Agent.PollLoop.Endure` | apps/agent/src/lib.rs:393-409 | a failed poll exits past the orphan time, gives up past the give-up time, and pauses otherwise |
| `Agent.PollLoop.Turn` | apps/agent/src/lib.rs:369-458 | one turn of the loop does what the transition function says, for every event, also for those `select!` would not pick while a message waits (those that it would are `Prompt`) |
| `AgentBooks.TurnKeepsBooks` | apps/agent/src/lib.rs:369-458 | every turn keeps the books by start: running, reported and dropped split what was started, reports are unique, a report says cancelled exactly for cancelled tasks, every task sends at most once |
| `AgentBooks.BooksAlways` | apps/agent/src/lib.rs:365-458 | so they hold at all times in every run, whatever is assigned again |
| `AgentBooks.FreshExact` | apps/agent/src/lib.rs:415-441 | after one command the books hold by attempt if and only if it did not assign an attempt that had left `running` |
| `AgentBooks.AttemptBooksExact` | apps/agent/src/lib.rs:365-458 | at every command boundary of a run the attempts split into running, reported and dropped, each reported at most once and as cancelled exactly when cancelled, if and only if no attempt is assigned again after it left `running` |
| `AgentBooks.DroppedForGood` | apps/agent/src/lib.rs:403-405 | a dropped task stays dropped, and no report takes it for its own, for the rest of every run |
| `AgentPrompt.DroppedIsNeverReported` | apps/agent/src/lib.rs:378-405 | in every run in which waiting messages are read before polls are answered, no report carries the outcome of a dropped start, whatever its task still sends and even when its attempt is assigned again |
| `AgentMix.TurnKeepsCurrent` | apps/agent/src/lib.rs:378-458 | what keeps it so, turn by turn: waiting messages are of tasks that run, or of attempts that do not |
| `AgentMix.OutcomesAreOwn` | apps/agent/src/lib.rs:381-389 | if no reply cancels a running attempt and leaves it running, every report that is not of a cancel carries, word for word, what the very task it takes out of `running` sent in an event of the run, and every task at work is one the loop runs |
| `AgentBooks.ReportsSaySo` | apps/agent/src/lib.rs:381-389 | in every run, every report's outcome stands in an event of the run as sent by a task of its attempt, or the attempt was cancelled in the run |
| `AgentMix.MixExact` | apps/agent/src/lib.rs:415-441 | what is sent meanwhile can make a reply leave a message that will be taken for another start's if and only if the reply cancels an attempt that runs and leaves it running |
| `AgentMix.RecallMixesOutcomes` | apps/agent/src/lib.rs:381-441 | for every config such a reply has a run that reports the first start's outcome for the second, which stays at work unknown to the loop |
| `AgentLease.TurnKeepsTimely` | apps/agent/src/lib.rs:369-452 | every turn keeps the bound on the silence with which the loop is entered while jobs run |
| `AgentLease.PartitionBound` | apps/agent/src/lib.rs:369-458 | in every run that reads waiting messages first and has no reply that cancels a running attempt and leaves it running, no task is at work later than the entry bound (the longer of how long the last reply took and, while that leaves room, the give-up time + 1 s) + 30 s + k (g + 46 s) after the last contact, k the completions read since; work amid a reply, a shutdown's included, is counted |
| `AgentLease.BlockedIs` | apps/agent/src/lib.rs:381-389 | the k completions add k (g + 46 s) |
| `AgentLease.HandledAfterReply` | apps/agent/src/lib.rs:410-450 | how long a reply takes: the pause unless it shuts down, and a report and a restart for each cancel |
| `AgentLease.OrphanBound` | apps/agent/src/lib.rs:393-399 | in every run with backend restarts of at most R, an agent still polling heard from the scheduler within max(last reply's time, orphan time + 1 s + R) + k (g + 46 s + R); an orphan exit comes only past the orphan time; every exit leaves nothing running |
| `AgentLease.NoTwoMachines` | apps/agent/src/lib.rs:22-26 | with a lease longer than that bound, a task has ended or been aborted, and a stop grace has passed, before anyone else may start its job |
| `AgentRule.WorstReport` | apps/agent/src/lib.rs:463-493 | the bound on a report is reached for every window |
| `AgentRule.WorstRun` | apps/agent/src/lib.rs:369-452 | for every config, every k and every reply time there is a run, with no message left waiting while a poll is held, that reaches the bound |
| `AgentRule.RuleExact` | apps/agent/src/lib.rs:22-26 | over all such runs whose replies take at most h and that read at most k completions after a contact, no task overlaps its job's next owner if and only if the lease exceeds the longest entry silence + 40 s + k (g + 46 s) + lag |
| `AgentRule.MarginExact` | apps/agent/src/lib.rs:318-320 | for a margin below the lease and replies within g + 1 s: if and only if the margin exceeds 41 s + k (g + 46 s) + lag |
| `AgentRule.ShippedMarginIsTooShort` | packages/pool-core/src/engine.rs:168-172 | the margin the engine hands out fails that for every lease |
| `AgentBackend.ExitExact` | apps/agent/src/lib.rs:369-458 | which turns end the loop, and how: by the event, the commands in the reply, and the time without contact against the hello reply's numbers |
| `AgentBackend.RestartExact` | apps/agent/src/lib.rs:381-409 | a failed poll stops the jobs exactly past the lease less the margin and then restarts the backend; a completion restarts it exactly when recycling is on and nothing runs any more; shown by how long the turn takes |
| `AgentBackend.AbortedWorkGoesOn` | apps/agent/src/lib.rs:428-440 | without recycling, for any two attempts, a run after which the agent is idle while the backend may still work on a cancelled job |
| `AgentBackend.CleanExactly` | apps/agent/src/lib.rs:381-440 | an idle agent's backend is clean in every run that reads waiting messages first if and only if it is recycled per job |
| `Agent.PollLoop.RestartBackend` | apps/agent/src/lib.rs:386-388 | a restart takes its time and leaves the backend clean |
| `Names.LessIs` | packages/ssp-protocol/hash_test2.rs:13-14 | the order of strings: a proper prefix first, else the first difference decides |
| `Names.Sort` | packages/ssp-protocol/hash_test2.rs:13-14 | the one strictly increasing sequence of a set of names |
| `Names.SortedOnce` | packages/ssp-protocol/hash_test2.rs:13-14 | there is only one such sequence |
| `Canonical.StringOnce` | packages/ssp-protocol/hash_test2.rs:18-19 | an escaped string is uniquely decodable in front of any text |
| `Canonical.NumOnce` | packages/ssp-protocol/hash_test2.rs:33-36 | a number ends where a delimiter follows |
| `Canonical.ItemsOnce` | packages/ssp-protocol/hash_test2.rs:25-32 | an array's printed items determine the items |
| `Canonical.MembersOnce` | packages/ssp-protocol/hash_test2.rs:12-24 | an object's printed members determine keys and values |
| `Canonical.CanonOnce` | packages/ssp-protocol/hash_test2.rs:10-38 | nested canonical JSON is uniquely decodable: equal texts in front of any delimited rest come from equal values and equal rests |
| `CanonicalReads.ShortestString` | packages/ssp-protocol/hash_test2.rs:18-19 | no spelling of a string by section 7 of RFC 8259 is shorter than the canonical one |
| `CanonicalReads.ReadsBack` | packages/ssp-protocol/hash_test2.rs:10-38 | a reader written from sections 2 to 7 of RFC 8259 reads the canonical text of every value, in front of any delimiter, back as the value and stops there; the text has no white space between tokens, and keys ascend in every object |
| `TableReads.StreamReads` | packages/ssp-protocol/hash_test2.rs:43-49 | the stream of rows with NUL-free ids reads back as exactly those rows |
| `TableReads.PreimageReads` | packages/ssp-protocol/hash_test2.rs:40-51 | what the hasher is fed reads back as the table's rows ordered by id, rows of one id in table order |
| `TableHash.StripKeeps` | packages/ssp-protocol/hash_test2.rs:53-62 | stripping keeps exactly the fields that are not null and do not begin with `_00_`, unchanged, and any other value whole |
| `TableHash.Buffer.Push` | packages/ssp-protocol/hash_test2.rs:10-38 | appending to the output buffer |
| `TableHash.WriteCanonical` | packages/ssp-protocol/hash_test2.rs:10-38 | the buffer writer appends exactly the canonical text of the value |
| `TableHash.WriteObject` | packages/ssp-protocol/hash_test2.rs:12-24 | the object loop, over keys in sorted order |
| `TableHash.WriteArray` | packages/ssp-protocol/hash_test2.rs:25-32 | the array loop |
| `TableHash.SortIsStableSort` | packages/ssp-protocol/hash_test2.rs:41-41 | the sort by id orders and permutes the rows, and rows of one id keep their order |
| `TableHash.FeedRow` | packages/ssp-protocol/hash_test2.rs:43-49 | one row adds its id, a NUL, its canonical value, a NUL |
| `TableHash.HashTable` | packages/ssp-protocol/hash_test2.rs:40-51 | the hasher is fed the stream of the sorted rows |
| `TableHash.StreamOnce` | packages/ssp-protocol/hash_test2.rs:43-49 | the stream of a row sequence with NUL-free ids determines it |
| `TableHash.PreimageById` | packages/ssp-protocol/hash_test2.rs:40-51 | two tables feed the hasher the same bytes if and only if they hold the same rows, in the same order, for each id |
| `TableHash.PreimageExact` | packages/ssp-protocol/hash_test2.rs:40-51 | with distinct ids: if and only if they hold the same rows in any order |
| `TableHash.NulIdCollides` | packages/ssp-protocol/hash_test2.rs:43-49 | for any two rows there is one row, with a NUL in its id, that spells the same stream |
| `TableHash.RepeatedIdKeepsOrder` | packages/ssp-protocol/hash_test2.rs:41-41 | with a repeated id, swapping the rows changes the stream unless they are equal |
| `TableHash.StrippedRowsExact` | packages/ssp-protocol/hash_test2.rs:53-62 | stripped rows print alike if and only if they agree on every key that is neither reserved nor null |
| `DagRender.BuildIndex` | apps/cli/src/dag_render.rs:108-109 | each name is mapped to a node that bears it, the last one given |
| `DagRender.WantOf` | apps/cli/src/dag_render.rs:116-123 | one more than the largest column among the listed dependencies, 0 without any |
| `DagRender.Relax` | apps/cli/src/dag_render.rs:114-132 | one round raises columns towards the longest-path number and never past it; a round without change is a fixed point |
| `DagRender.Columns` | apps/cli/src/dag_render.rs:111-133 | the bounded iteration reaches the longest-path number of every node of an acyclic graph |
| `DagRender.RestingIsLevel` | apps/cli/src/dag_render.rs:111-133 | a fixed point of the rounds is the longest-path numbering |
| `DagLayout.PathWithinLevel` | apps/cli/src/dag_render.rs:111-133 | no path from a node is longer than its number |
| `DagLayout.PathOfLevel` | apps/cli/src/dag_render.rs:111-133 | some path from it is that long |
| `DagLayout.LevelsExist` | apps/cli/src/dag_render.rs:111-133 | every acyclic graph has such a numbering |
| `DagLayout.LevelsAreFew` | apps/cli/src/dag_render.rs:113-113 | the numbers are below the node count, so the round limit suffices |
| `DagRender.Depth` | apps/cli/src/dag_render.rs:135-135 | the number of columns, with the last one inhabited |
| `DagRender.Group` | apps/cli/src/dag_render.rs:136-139 | each column holds exactly the nodes of its number, in input order |
| `DagLayout.BarycenterIs` | apps/cli/src/dag_render.rs:149-159 | the key times the number of listed dependencies is at most 1000 times the sum of their rows, and less than one number short of it; without any it is half of the largest 64-bit number |
| `DagLayout.RootsComeLast` | apps/cli/src/dag_render.rs:154-155 | so within a column a step without dependencies comes behind those with some |
| `DagRender.KeyAt` | apps/cli/src/dag_render.rs:146-160 | the sort key: the mean row of the listed dependencies times 1000, rounded down, or the default, then the name |
| `DagRender.SortBy` | apps/cli/src/dag_render.rs:145-161 | sorting a column permutes it and orders it by key |
| `DagRender.OrderColumn` | apps/cli/src/dag_render.rs:144-164 | a column is ordered by the rows to its left, and only its own rows are assigned |
| `DagRender.OrderRows` | apps/cli/src/dag_render.rs:141-164 | the left-to-right pass leaves every column ordered by the final rows |
| `DagRender.Layout` | apps/cli/src/dag_render.rs:107-166 | for every acyclic uniquely named graph the result is its layered, barycenter-ordered layout |
| `DagLayout.LayoutOnce` | apps/cli/src/dag_render.rs:107-166 | a graph has one such layout |
| `DagRender.LayoutIgnoresInputOrder` | apps/cli/src/dag_render.rs:107-166 | any permutation of the nodes gives the same columns of names in the same row order |
| `DagCanvas.InsideIs` | apps/cli/src/dag_render.rs:228-235 | text stands in a box as it is and padded if it has at most twenty characters, else as its first nineteen and an ellipsis |
| `DagCanvas.BoxIs` | apps/cli/src/dag_render.rs:218-237 | a box is a frame, heavy if selected, with the glyph and name on its second line and the detail on its third |
| `DagCanvas.SizeIs` | apps/cli/src/dag_render.rs:174-191 | the canvas ends with the last column of boxes and below the fullest column |
| `DagCanvas.RouteIs` | apps/cli/src/dag_render.rs:246-268 | a route's cells: from directly right of one box to directly left of the other, on the lines of their names, but for one character column strictly between where it goes from one line to the other |
| `DagCanvas.Put` | apps/cli/src/dag_render.rs:197-206 | writes the text, clipped to the canvas, and changes no other cell |
| `DagCanvas.PutBox` | apps/cli/src/dag_render.rs:218-237 | a box fills its own four by twenty-four cells and nothing else |
| `DagCanvas.DrawColumn` | apps/cli/src/dag_render.rs:211-238 | all boxes up to this column stand unharmed on the canvas, and their places are known |
| `DagCanvas.DrawBoxes` | apps/cli/src/dag_render.rs:188-238 | the canvas holds every box of the layout and blanks elsewhere: boxes do not overlap |
| `DagCanvas.DrawEdge` | apps/cli/src/dag_render.rs:246-268 | an edge fills exactly the blank cells of its route, with the horizontal character on the two lines and the vertical one between, and puts the arrow at its tip |
| `DagCanvas.AddEdge` | apps/cli/src/dag_render.rs:246-268 | drawing one more edge changes no non-blank box cell and keeps every earlier arrow |
| `DagCanvas.DrawEdges` | apps/cli/src/dag_render.rs:240-269 | after all edges: boxes' non-blank cells as drawn, blanks exactly off the routes, an arrow at every tip |
| `DagCanvas.RouteKeepsToGaps` | apps/cli/src/dag_render.rs:246-268 | a route stays in the gaps between columns if and only if it spans one column |
| `DagCanvas.ShortEdgesKeepBoxes` | apps/cli/src/dag_render.rs:240-269 | when all edges do, every box cell, blanks included, is as drawn |
| `DagCanvas.EveryDependencyHasAnEdge` | apps/cli/src/dag_render.rs:242-249 | in a layout every listed dependency lies to the left, so none is skipped |
| `DagCanvas.ArrowsDrawn` | apps/cli/src/dag_render.rs:240-269 | every listed dependency ends in an arrow directly left of its dependent's box |
| `DagCanvas.Render` | apps/cli/src/dag_render.rs:169-275 | drawn if and only if there are steps and they fit the width; every access in bounds; boxes kept; for acyclic uniquely named graphs every arrow in place |
| `Graph.StuckNeedsCycle` | apps/cli/src/backend.rs:1450-1474 | in a set where every app waits for another of the set, each depends on a cycle |
| `Graph.RestrictAcyclic` | apps/cli/src/dev.rs:2894-2898 | filtering apps makes no cycle |
| `DockerDeps.EnterDeps` | apps/cli/src/dev.rs:2983-2988 | the entries of one app: one reverse edge and one in-degree per listed dependency |
| `DockerDeps.Enter` | apps/cli/src/dev.rs:2980-2990 | afterwards in-degrees and reverse edges count every listed entry, repeats included |
| `DockerDeps.Release` | apps/cli/src/dev.rs:2999-3005 | taking an app off the queue queues those, and only those, that waited for nothing else |
| `DockerDeps.Peel` | apps/cli/src/dev.rs:2991-3006 | the queue emits each app at most once, after all its listed dependencies |
| `DockerDeps.PeelExact` | apps/cli/src/backend.rs:1450-1474 | an app is emitted if and only if it does not depend on a cycle, and else its in-degree stays positive |
| `DockerDeps.CheckDeps` | apps/cli/src/backend.rs:1434-1448 | the first bad entry of an app's list, self-dependency or unknown app, or none |
| `DockerDeps.Validate` | apps/cli/src/backend.rs:1428-1476 | accepts if and only if every dependency names another docker app and the relation is acyclic; an error names the first bad app; a cycle error lists, sorted, exactly the apps that transitively depend on a cycle |
| `DockerDeps.Stragglers` | apps/cli/src/dev.rs:3007-3012 | the rest is appended once each in name order, behind what the queue gave |
| `DockerDeps.StartOrder` | apps/cli/src/dev.rs:2976-3014 | on any graph each app once, and every app clear of cycles after its listed dependencies; on an acyclic one the straggler loop adds nothing |
| `DockerDeps.ValidatedStartIsSound` | apps/cli/src/dev.rs:2894-2900 | a validated graph filtered to dev apps starts every app after all its remaining dependencies |
| `Supervisor.RestartPolicy.constructor` | apps/cli/src/dev.rs:2077-2087 | the fresh policy |
| `Supervisor.RestartPolicy.Tick` | apps/cli/src/dev.rs:2092-2146 | one tick updates the fields and answers as the step function says |
| `Supervisor.RunSound` | apps/cli/src/dev.rs:2092-2146 | the invariants of every run: counters, gating restart, spaced streak |
| `Supervisor.RestartRate` | apps/cli/src/dev.rs:2028-2035 | a run whose ticks span T has at most 5 (1 + floor(T / 60 s)) crash restarts |
| `Supervisor.BackoffOfState` | apps/cli/src/dev.rs:2092-2146 | in every reachable state the backoff is min(2^n, 30) s after n consecutive crash restarts, n at most 5 |
| `Supervisor.RestartsAreSpaced` | apps/cli/src/dev.rs:2115-2145 | two successive restarts of either kind are at least the backoff in force apart, across resets too |
| `Supervisor.GivingUp` | apps/cli/src/dev.rs:2137-2140 | giving up comes only on an exit that is not intentional, with five crash restarts counted, and at least 60 s after the first of them |
| `SupervisorVerdict.VerdictExact` | apps/cli/src/dev.rs:2092-2146 | what every tick of every run is answered, by the ticks and answers before it: with the last stable minute read off the ticks (alive, more than 60 s after the first alive tick since one that was dead), a dead tick waits if and only if the last restart of either kind since then is less than a backoff ago, restarts without counting on exit codes 3 and 4, restarts counting after fewer than five crash restarts since then, and gives up after five |
| `SupervisorVerdict.GivingUpExactly` | apps/cli/src/dev.rs:2137-2140 | a tick gives up if and only if the service is down for no intentional exit, past the backoff, with exactly five crash restarts since the last stable minute; and that is at least 60 s after the first of them |
| `Supervisor.GivingUpIsFinal` | apps/cli/src/dev.rs:2093-2095 | after giving up every tick does nothing |
| `Flags.FirstMatchIsBest` | apps/cli/src/flag.rs:612-668 | the stable sort and first-match loop choose the earliest hitting rule of least priority |
| `Flags.EvaluateIs` | apps/cli/src/flag.rs:612-668 | if the flag is not disabled and a rule hits, the answer is the variant of the hitting rule that outranks every earlier one that hits and is outranked by no later one; else it is the default, `off` if there is none; the payload is the one stored under the answer, and none without one |
| `Flags.RolloutShare` | apps/cli/src/flag.rs:656-661 | of the hundred buckets a rollout hits as many as its percentage says, none below zero and all above a hundred |
| `Flags.ListsHitTheirs` | apps/cli/src/flag.rs:646-655 | an allowlist hits exactly the users it names, and a rule of any other kind but a rollout hits no one |
| `Flags.ListedBeatsRollouts` | apps/cli/src/flag.rs:34-37 | among rollouts made by the tool, a user put on an allowlist gets its variant |
| `Flags.UnsetLeaves` | apps/cli/src/flag.rs:494-519 | where the user was listed, no allowlist is left that names them or no one |
| `Flags.UnsetKeepsRollouts` | apps/cli/src/flag.rs:494-519 | and the rules that are not allowlists stay as they were, in order |
| `Flags.RolloutSets` | apps/cli/src/flag.rs:576-593 | afterwards the variant's percentage in force is the one given, and no other variant's changes |
| `Flags.RuleList.Allowlist` | apps/cli/src/flag.rs:555-574 | the loop edits the first allowlist rule of the variant that has a user list, or appends one |
| `Flags.RuleList.Rollout` | apps/cli/src/flag.rs:576-593 | the loop sets the percentage of the variant's first rollout rule, or appends one |
| `Flags.RuleList.Remove` | apps/cli/src/flag.rs:494-519 | takes the user off every allowlist and drops empty ones; without a hit nothing is written |
| `Flags.AllowlistFrame` | apps/cli/src/flag.rs:555-574 | allowlisting a user changes no one else's choice |
| `Flags.AllowlistSelf` | apps/cli/src/flag.rs:555-574 | the user keeps a choice of higher rank, and else gets the variant |
| `Flags.AllowlistTwice` | apps/cli/src/flag.rs:555-574 | repeating the edit changes nothing |
| `Flags.UnsetFrame` | apps/cli/src/flag.rs:493-515 | unsetting leaves everyone else's choice, and the user the choice among the other rules |
| `Flags.RolloutMoves` | apps/cli/src/flag.rs:576-593 | raising a percentage moves users only into the variant, lowering it only out |
| `Flags.EditsSpareOthers` | apps/cli/src/flag.rs:612-668 | the frames for the evaluator's answer, payload included, and for disabled flags |
| `Flags.RolloutRaiseMovesIn` | apps/cli/src/flag.rs:612-668 | after a raise the evaluator's answer is the old one or the variant |
| `FlagCache.Database.Materialize` | apps/cli/src/flag.rs:687-770 | the loop writes the changed assignments in order; a missing flag deletes the rows of its key and no other |
| `FlagCache.WantedIs` | apps/cli/src/flag.rs:727-728 | what is to be stored is the evaluator's answer with its payload, a null payload being none |
| `FlagCache.StoredIs` | apps/cli/src/flag.rs:775-784 | what a stored row says: its variant and payload, null being none, and nothing without a variant |
| `FlagCache.CacheAgrees` | apps/cli/src/flag.rs:687-784 | afterwards every listed user's stored assignment is the evaluator's, others' is unchanged, and a row is written if and only if a listed user's differed |
| `FlagCache.OtherRowsUntouched` | apps/cli/src/flag.rs:687-770 | rows of other keys and unlisted users stay as they were |
| `FlagCache.SecondRunWritesNothing` | apps/cli/src/flag.rs:703-735 | a second run writes nothing |
| `Routes.SplitJoin` | apps/cli/src/backend.rs:2360-2361 | splitting joined slash-free segments gives them back |
| `Routes.PrefixSegments` | apps/cli/src/backend.rs:2366-2377 | a string prefix is a segment prefix whose last segment may be cut short |
| `Routes.OverlapExact` | apps/cli/src/backend.rs:2350-2378 | true if and only if some concrete request path is matched by both the pattern and the spec path |
| `EnvSpelling.ReadsExactly` | apps/cli/src/backend.rs:1195-1252 | a YAML value reads as a source if and only if it spells it, shape by shape (a string, one `vault` key with a list of which the strings count, string keys `dev` and `cloud` only, any other mapping's string keys); so anything else is refused |
| `EnvSpelling.ConfigReadsExactly` | apps/cli/src/backend.rs:1332-1377 | the same for the whole block |
| `EnvConfigYaml.SourceRoundTrip` | apps/cli/src/backend.rs:1166-1252 | a printed source reads back as itself if and only if it is stable: inline variables do not look like a vault list or a split |
| `EnvConfigYaml.EntryRoundTrip` | apps/cli/src/backend.rs:1261-1291 | the same for entries |
| `EnvConfigYaml.ConfigRoundTrip` | apps/cli/src/backend.rs:1310-1377 | the same for the whole block |
| `EnvConfigYaml.ReadIsStable` | apps/cli/src/backend.rs:1195-1252 | which YAML values read into stable sources |
| `EnvConfigYaml.PrintedConfigReadsBack` | apps/cli/src/backend.rs:1310-1377 | for every YAML value that reads: printing and reading again gives the same block if and only if no visited mapping pairs a lone vault list with keys that are not strings |
| `EnvConfigYaml.StringKeyedConfigReadsBack` | apps/cli/src/backend.rs:1310-1377 | so with string keys it always does |
| `EnvConfigYaml.MixedKeysDoNot` | apps/cli/src/backend.rs:1206-1252 | a mapping with a number key and a vault list that does not read back |
| `Annotations.ExtractFieldAnnotations` | apps/cli/src/annotations.rs:102-187 | the loop collects what the field scan specifies |
| `Annotations.ExtractTableAnnotations` | apps/cli/src/annotations.rs:252-303 | the loop collects what the table scan specifies |
| `Annotations.UnattachedAnnotations` | apps/cli/src/annotations.rs:197-227 | the loop collects what the orphan scan specifies |
| `Annotations.FateOfAnnotation` | apps/cli/src/annotations.rs:102-303 | which scanners keep an annotation line depends only on the next line that is no comment and on whether a field body is open |
| `Annotations.EntriesAreRight` | apps/cli/src/annotations.rs:102-303 | each field has exactly its annotations, in the order of the lines and each once: the standalone ones outside definitions whose next line that is no comment defines it, and the trailing ones on the line that defines it or closes its definition; each table exactly its own; and those reported as unattached are exactly the ones followed by no `DEFINE FIELD` or `DEFINE TABLE` |
| `Annotations.KeyByLines` | apps/cli/src/annotations.rs:136-180 | the scanner's key names the field of the last line that opened a definition, if no line since closed it |
| `Annotations.NoAnnotationIsLost` | apps/cli/src/annotations.rs:189-197 | when field definitions close before the next `DEFINE`, and the scanners' patterns agree on the line after it, each annotation is exactly one of attached to a field, attached to a table, reported |
| `Annotations.BodyByLines` | apps/cli/src/annotations.rs:136-180 | a field body is open exactly when some line began a definition and no line since closes it |
| `Annotations.LostExactlyWhen` | apps/cli/src/annotations.rs:102-303 | in any schema, that holds of an annotation if and only if the next statement's patterns agree across the scanners |
| `Annotations.SplitDefinitionLosesAnnotation` | apps/cli/src/annotations.rs:105-108 | an annotation above a `DEFINE FIELD` with its `ON` on the next line is neither attached nor reported |
| `ClientSchema.SkipBucket` | apps/cli/src/codegen.rs:1346-1360 | skips a bucket statement to behind its terminator, or to the end |
| `ClientSchema.FilterClientSchema` | apps/cli/src/codegen.rs:1292-1474 | the loop with its flags computes the filter |
| `ClientSchema.FilterIsImages` | apps/cli/src/codegen.rs:1292-1474 | when every permissions clause closes before the next statement, the result is, in order, each kept line as it is and each clause as one terminated line of its kind, which is that of the last definition before it |
| `ClientSchema.FilterShows` | apps/cli/src/codegen.rs:1415-1435 | the text of such a result: lines of the schema that begin no permissions clause, and the two terminated blanket clauses |
| `ClientSchema.NoServerStatements` | apps/cli/src/codegen.rs:1343-1397 | no bucket or access statement survives, in any schema |
| `ClientSchema.FilterTwice` | apps/cli/src/codegen.rs:1292-1474 | filtering is idempotent on such schemas |
| `ClientSchema.KeptExactly` | apps/cli/src/codegen.rs:1292-1474 | in any schema the lines of the result that begin no clause are, in order, exactly the lines outside bucket and access statements, by the lines that begin and end those, with no clause opened before them and not closed since |
| `ClientSchema.OpenClauseSwallows` | apps/cli/src/codegen.rs:1437-1466 | so a clause left open swallows every line up to the one that closes it |
| `ClientSchema.AccessFlag` | apps/cli/src/codegen.rs:1362-1397 | the access flag and brace count say that the last `DEFINE ACCESS` outside buckets has not met a line with balanced braces and a `;` since |
| `ClientSchema.KindFlag` | apps/cli/src/codegen.rs:1399-1404 | whose clause comes: a field's if outside bucket and access statements some `DEFINE FIELD` has no `DEFINE TABLE` behind it, else a table's |
| `ClientSchema.ClauseFlag` | apps/cli/src/codegen.rs:1415-1466 | the skip flag says that a clause was opened and not closed since |

## Left out

- SurrealQL text: the parser is a parameter, and the renderer covers plain names; escaped identifiers and characters beyond ASCII words are not modelled.
- RebaseExact.PreservedExactly: for rules that do not themselves read a field, or call a method, of the link's name; expressions in other steps than method arguments (computed indexes, filters) are not modelled.
- AgentRule.RuleExact: replies are taken to last at least the pause of 0.2 s, and no reply of the runs it ranges over cancels a running attempt and leaves it running, because a task started that way can leave `running` without being stopped (`RecallMixesOutcomes`).
- AgentLease.NoTwoMachines: a cancel of one of several jobs only drops its request (apps/agent/src/lib.rs:433-439); what the backend still does for it, without a restart, is not bounded.
- Aborting is taken to end with the turn: the last step of an aborted task may still send until the next poll is sent, not later.
- The agent's hello and ready phases, `run_job`, and the processes and signals behind them: only their durations and outcomes enter.
- The scheduler: only its lease contract (a job is handed on when its lease is over), with the lag between renewing a lease and the agent noting it as a parameter.
- BLAKE3 and SHA-256, and UTF-8: streams are sequences of characters, ordered by code point, and a user's bucket is any number.
- Number formatting: a JSON number is its printed text; that it is one by section 6 of RFC 8259 is required where the text is read back.
- The list fallback, legend, status glyph tables and trailing-space trimming of the graph drawing.
- Integer widths: counters, sums and durations are unbounded.
- SQL text, loading flags and users, and `evaluated_at` of the flag commands.
- Regular expressions and comment stripping of the schema scanners: lines come classified; annotation parsing and warnings are not modelled.
- YAML text, and tagged YAML values.
- Path rebasing of included configs, code generation proper, the TUI, scaffolding and deployment commands.
