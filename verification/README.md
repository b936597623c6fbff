# PySH: a verified model of its process plumbing and its small interpreters

PySH is an interactive shell written in Python. This project models the parts of it in which a
mistake is hard to see from one function, and proves what they guarantee:

* **Pipelines, redirections, jobs.** `Kernel` is one process as the operating system shows it to the
  shell: a descriptor table, pipes, unreaped children, process groups, the terminal. Every call may
  fail. `Redirect` is the context manager that redirects descriptors 0 to 2, `Pipeline` the loop that
  forks the stages, `Jobs` the job table, and `Shell` puts them together and states three invariants
  over whole runs of commands: conservation of children (`Books`), groups and terminal (`Groups`),
  and descriptors (`Descriptors`). `PipeEnds` is a second view of a pipeline: a step relation in
  which the parent's loop interleaves with the descriptor setup of every stage.
  `ParentTrace` and `Pipeline.FollowsIsRun` tie the two views together: what the forking loop does is a
  run of the step relation.
* **The rc interpreter.** `RcSyntax` and `RcInterpreter` are the line-oriented code; `RcSemantics` is a
  concrete syntax tree with a big-step semantics; `RcMeaning` proves that the code has that meaning on
  the printed lines of every structured program; `RcLaws` says construct by construct, in terms of the
  texts of the lines, what the interpreter does; `RcComments` and `RcNormalize` carry it over to the text
  of a file.
* **Inheritance of profiles and themes.** `Inheritance` is the memoized search both share,
  `InheritanceLaws` what it guarantees on every graph, `InheritanceOrder` the value of every name on every
  graph and when the dictionary order matters, `Profiles` and `Themes` the two merges.
* **Quote-aware scanners and command chains.** `Quoting` is one automaton against which `Scanners`
  measures four hand-written loops; `QuotingLaws` and `ScannerLaws` say what they find in command lines
  composed of quoted, escaped and plain pieces; `Chain` relates the one-pass chain loop to AND-OR trees.
* **Virtual environments and the audit log.** `Virtualenv` and `Audit` are two small state machines.

Loops of the source are loops here, objects that it updates are classes. Each method is proved against
a function of its inputs and the old state, and its answers are also stated outright: statuses as
numbers, keywords and variables by their names, descriptors by what they lead to. The laws are lemmas
about those functions.

`dafny verify dfyconfig.toml` checks everything.

## How the kernel is modelled

Failures are nondeterministic choices inside the methods of `Kernel.Process`, so a contract about a
caller holds for every pattern of failures and every answer of `waitpid`. The process counts failed
calls, calls that failed during a cleanup (`late`), interrupted waits, stops and refused handovers. The
contracts use the counts to say that something goes wrong only if a call went wrong: a pipeline is not
set up and a redirection not entered exactly when a call has failed, descriptors are not restored only
when a call of a cleanup has failed. A failed `open` reports a missing file, a denied one or another
error, and `Popen` a missing program, one that cannot be executed or another error; as POSIX has it,
`dup`, `dup2`, `write` and `close` report neither a missing nor a denied file. Pids are never reused, pipes
and opened files get fresh numbers, and new descriptors are the lowest free ones. A file that is not
opened and not piped by the modelled code is `Inherited`, whatever it really is. Closing an open
descriptor, signalling an own child and waiting for an own child succeed. The process also keeps what
the contracts need to talk about the past: the statuses that waits delivered, the table each child was
forked with, the groups that got the terminal, the signals that were sent, the children that were
asked for without blocking and what was answered.

## Where the code differs from what one might expect

* `_collect_block` is called outside the `try`, so a malformed block at the outermost level raises,
  although `src/pysh/config/rc.py:49` says the loader never raises. `RcBounds.RaisesIffMalformed` gives
  the exact condition, `RcBounds.UnclosedBlockRaises` an input.
* `_collect_block` compares whole lines with `fi` and `done`, `_split_branches` compares first words.
  Command lines of structured programs therefore avoid the keywords as first words as well;
  `RcBounds.TransparentIff` proves that a command line is transparent to branch splitting in every
  program exactly if its first word is no closer.
* The mark `+` in the job listing is the stored id, although
  `docs/architecture/job-control-contract.md:149` lets it fall back. `Jobs.MarkAgrees` says exactly
  when mark and current job agree, `Jobs.MarkDiffers` gives a table in which they do not.
* A background pipeline reports the status of its last stage exactly when the poll that collects that
  stage also ends the job (`Jobs.ReportsLastStage`; `Jobs.LastStatusDropped` gives two polls after which a
  failed last stage is reported as a success). A background command reports its own status exactly if
  nobody else has collected its process (`Jobs.OwnStatusIff`).
* A redirection file that cannot be opened is handled like a command that is missing or denied, because
  the redirections are entered inside the inner `try`: `cat < missing` ends with 127, but
  `cat > missing/out` with 1, because the report enters its redirections once more.
  `Shell.MeansMissingIff` says exactly when status 127 means that the command itself is missing.
* `_run_external` forgets the new child exactly if `Popen` has succeeded and a call of the cleanup of its
  redirections fails (flushing, closing a stream, or putting a descriptor back). It is the `Lost` outcome
  of `Shell.Shell.ExecuteExternal`, and `abandoned` and `damaged` carry it through a run.
* Saving and restoring descriptors 0 to 2 is the identity exactly when 0 is closed or all three are open
  (`RedirectLaws.RestoredIff`), so the redirection methods ask for the three to be open.
* The order of the dictionary has no influence on which definitions are merged for a name exactly if its
  chain of bases ends, or runs into a name that is its own base (`InheritanceOrder.OrderIrrelevantIff`);
  `Profiles.CyclicValueDependsOnOrder` is an input on which it matters.
* `a && b &` runs only `b` in the background: all commands of an `&` item run there exactly if it is a
  single command (`Chain.AllInBackgroundIff`).
* The comment scan of rc files ignores backslashes outside quotes, so it agrees with the other scanners on
  quoting exactly if no quote is escaped outside quotes (`RcComments.CommentScanAgreesIff`);
  `RcComments.EscapedQuoteHidesComment` is a line whose comment it keeps.
* A virtual environment whose directory name contains `:` does not become the first entry of PATH
  (`Virtualenv.BinFirstAndOnce`).

## Model

| member | source | states |
|---|---|---|
| `RcSyntax.ConditionOfHeader` | src/pysh/config/rc.py:247-253 | reading an `if` or `while` header gives back the condition it was written with, whatever blanks stand around it, with or without a trailing semicolon |
| `RcSyntax.ForHeaderOf` | src/pysh/config/rc.py:227-244 | reading a `for` header gives back its variable and items whatever blanks stand around them, and is refused exactly when the variable is no name or the items cannot be split |
| `RcSyntax.CollectBlock` | src/pysh/config/rc.py:314-348 | the index loop succeeds exactly when the block is closed by its own closer, and then returns exactly `lines[start..end]` |
| `RcSyntax.BlockEndsAtFirstZero` | src/pysh/config/rc.py:314-348 | a block of n lines is collected if and only if the nesting depth is zero for the first time after n lines and the last of them is the right closer |
| `RcSyntax.SplitIfBlock` | src/pysh/config/rc.py:357-390 | the loop over the inner lines finds the branches of the recursive definition; it succeeds exactly if the header can be read and the next line is `then`; where nothing is nested there is an else-branch exactly if some line is `else` or `else:` |
| `RcMeaning.BlockOfPrinted` | src/pysh/config/rc.py:314-348 | collecting inverts printing: the block of a printed statement is exactly its own lines, whatever follows it |
| `RcMeaning.ScanStmt` | src/pysh/config/rc.py:372-389 | at any depth a nested statement is appended whole to the current branch, so an inner `else` never attaches to an outer `if` |
| `RcMeaning.BranchesOfPrinted` | src/pysh/config/rc.py:357-390 | splitting inverts printing: exactly the then- and else-lines of this `if` come back |
| `RcInterpreter.InterpretLines` | src/pysh/config/rc.py:256-311 | the index loop computes the recursive specification: state, calls, reports, status, and whether it raises |
| `RcInterpreter.RunIfBlock` | src/pysh/config/rc.py:393-405 | an if-block runs the branch that its condition selects and raises on a malformed block or condition |
| `RcInterpreter.RunForBlock` | src/pysh/config/rc.py:408-428 | the loop binds the variable to each item in turn and ends with the last status or the first error |
| `RcInterpreter.RunWhileBlock` | src/pysh/config/rc.py:431-456 | the guarded loop computes the specification with its iteration limit |
| `RcMeaning.MeaningPreserved` | src/pysh/config/rc.py:256-456 | on the printed lines of every structured program the line interpreter has the state, executor calls, reports and status of the big-step semantics, and never raises |
| `RcMeaning.BlockMeaning` | src/pysh/config/rc.py:274-301 | one block under its `try` means what its statement means, errors included |
| `RcLaws.SeparatorIff` | src/pysh/config/rc.py:357-390 | between any two programs a line that opens and closes nothing separates the branches of an `if` if and only if it is `else` or `else:`; otherwise everything is the then-branch; the branches start after a line `then` and nothing else |
| `RcLaws.LoneOpenerIff` | src/pysh/config/rc.py:274-311 | a line by itself makes the interpreter raise if and only if its first word is `if`, `for` or `while` |
| `RcLaws.CloserIff` | src/pysh/config/rc.py:314-348 | a program between a header and a line that opens nothing is one block if and only if that line is `fi` after `if`, `done` after `for` or `while` |
| `RcLaws.DoIff` | src/pysh/config/rc.py:415-421 | the body of a loop starts after a line `do` and nothing else |
| `RcLaws.CommandMeaning` | src/pysh/config/rc.py:303-309 | any other line goes to the executor once as it stands; the status is its status, or 1 with a report if it raises, and the rest runs in the state it leaves |
| `RcLaws.BlankMeaning` | src/pysh/config/rc.py:268-272 | blank lines change nothing, not even the status |
| `RcLaws.IfElseMeaning` | src/pysh/config/rc.py:393-405 | an `if` with two branches runs the one before `else` if its condition holds and the one after it if not; a malformed condition runs neither, reports and yields status 1 |
| `RcLaws.IfMeaning` | src/pysh/config/rc.py:393-405 | an `if` without `else` whose condition fails does nothing and yields status 0 |
| `RcLaws.ForMeaning` | src/pysh/config/rc.py:408-428 | a `for` binds its variable to the items from first to last, runs all of its body each time, and ends with the status of the last round, or 0 without items |
| `RcLaws.WhileLoopMeaning` | src/pysh/config/rc.py:431-456 | a `while` runs its body as long as its condition holds, at most 10,000 times, and ends with the last status, or with status 1 after a malformed condition or at the limit |
| `RcLaws.MalformedHeaderMeaning` | src/pysh/config/rc.py:274-301 | a block whose header cannot be read runs nothing, is reported and yields status 1 |
| `RcLaws.MissingKeywordMeaning` | src/pysh/config/rc.py:366-368 | a block without its `then` or `do` runs nothing, is reported and yields status 1 |
| `RcLaws.MalformedBodyStops` | src/pysh/config/rc.py:408-456 | a malformed block inside the body of a loop ends the loop in its first round |
| `RcLaws.ElseColonExample` | tests/test_rc_interpreter.py:87-99 | the file of this test runs only the line after `else:` |
| `RcBounds.InterpreterCalls` | src/pysh/config/rc.py:256-456 | executor calls are bounded by a cost that multiplies item counts and the while limit through nesting |
| `RcBounds.ProgramCalls` | src/pysh/config/rc.py:408-456 | the same bound for the big-step semantics |
| `RcBounds.LineCalls` | src/pysh/config/rc.py:256-456 | on arbitrary lines, malformed ones included, executor calls are bounded by a cost read off the lines |
| `RcBounds.LineCostOfPrinted` | src/pysh/config/rc.py:256-456 | on printed programs the cost of the lines is no larger than the cost of the program |
| `RcBounds.WhileMeaning` | src/pysh/config/rc.py:431-456 | the same for the big-step semantics |
| `RcBounds.RaisesIffMalformed` | src/pysh/config/rc.py:276-306 | the interpreter raises if and only if some outermost block is not well formed, whatever the executor does |
| `RcBounds.UnclosedBlockRaises` | src/pysh/config/rc.py:348 | an unclosed block at the outermost level raises |
| `RcBounds.TransparentIff` | src/pysh/config/rc.py:335-379 | a line that block collection takes for a command leaves the branches of every `if` in every program as they are if and only if its first word is no closer |
| `RcBounds.FirstWordCloserMisleads` | src/pysh/config/rc.py:335-379 | for every such line whose first word is a closer, an inner `else` goes to the outer `if` |
| `RcComments.StripInlineComment` | src/pysh/config/rc.py:168-193 | the line is cut at the first `#` outside quotes that starts a word, and is unchanged if there is none |
| `RcComments.CommentStartIsFirst` | src/pysh/config/rc.py:168-193 | the scan finds the first position at which a quoting automaton is outside quotes and a `#` starts a word, and nothing if and only if there is none |
| `RcComments.CommentScanAgreesIff` | src/pysh/config/rc.py:168-193 | it sees the same open quotes as the other scanners at every position if and only if no quote is escaped outside quotes |
| `RcComments.CommentsAreUnquoted` | src/pysh/config/rc.py:168-193 | in such a line comments start exactly at the unquoted `#` that start a word |
| `RcComments.EscapedQuoteHidesComment` | src/pysh/config/rc.py:168-193 | a line with an escaped quote whose unquoted comment is kept |
| `RcComments.HashAfter` | src/pysh/config/rc.py:186-193 | after text without quotes a `#` starts a comment if and only if it stands at the start of the line or after a blank or tab |
| `RcComments.QuotedHashStays` | src/pysh/config/rc.py:174-189 | a quoted text keeps its `#` |
| `RcNormalize.SplitLine` | src/pysh/config/rc.py:206-216 | a line that ends in `; then` or `; do` becomes its head and the keyword, an empty head being left out |
| `RcNormalize.NormalizeKeywordLines` | src/pysh/config/rc.py:196-218 | normalization is line by line |
| `RcNormalize.HeaderLine` | src/pysh/config/rc.py:206-214 | a header with `; then` or `; do` at its end becomes the header and the keyword; blanks before the marker go |
| `RcNormalize.BareMarker` | src/pysh/config/rc.py:209-214 | a marker with nothing before it becomes the keyword alone |
| `RcNormalize.TrailingGoes` | src/pysh/config/rc.py:203-205 | blanks and a comment at the end of a line make no difference |
| `RcNormalize.BlankLinesGo` | src/pysh/config/rc.py:203-205 | blank lines and lines with only a comment are dropped |
| `RcNormalize.NormalizeSource` | src/pysh/config/rc.py:196-218 | the usual layout of a program is normalized to its printed lines |
| `RcNormalize.SourceMeaning` | src/pysh/config/rc.py:460-484 | loading the text of a program in its usual layout runs the program |
| `RcNormalize.ExecuteLines` | src/pysh/config/rc.py:473-484 | normalizing and interpreting, for all lines; for the source of a program the result is its big-step result |
| `Redirect.Redirection.Save` | src/pysh/core/shell.py:360-361 | every duplicate that was made is recorded, also when a later one fails |
| `Redirect.Redirection.Perform` | src/pysh/core/shell.py:366-391 | one redirection changes one standard descriptor as intended; otherwise exactly one call has failed, its error is reported, and everything opened is accounted for |
| `Redirect.Redirection.PerformAll` | src/pysh/core/shell.py:366-391 | the loop applies the redirections from left to right, and completes if and only if no call fails |
| `Redirect.Redirection.OpenStreams` | src/pysh/core/shell.py:384-392 | the three stream duplicates are recorded together; before that they are held by nobody |
| `Redirect.Redirection.Enter` | src/pysh/core/shell.py:337-392 | entering succeeds if and only if no call fails, and then shows the process exactly the fold of the redirections over the pipe ends: without a redirection of it descriptor 0 leads where the passed read end does, descriptor 1 where the passed write end does, and 0, 1 and 2 stay as they are if nothing is passed for them; if one call fails and none of the cleanup does, the table is the one on entry and the error of that call is raised |
| `Redirect.Unredirected` | src/pysh/core/shell.py:356-391 | a descriptor without a redirection leads to the pipe end passed for it, or where it led before |
| `Redirect.Redirected` | src/pysh/core/shell.py:356-391 | a redirected descriptor leads where its last redirection sends it: a file opened for reading, truncating or appending, the data, or a duplicate; the duplicate of a descriptor not redirected before is one of its pipe end, so `2>&1` sees the pipe, and it stays the same as its source if that is not redirected later |
| `Redirect.Redirection.Undo` | src/pysh/core/shell.py:393-419 | after a failed setup the cleanup is clean if and only if none of its calls fails, and then the table is the one on entry |
| `Redirect.Redirection.Restore` | src/pysh/core/shell.py:398-411 | every duplicate is closed even if restoring its descriptor fails, and a failure is reported if and only if there was one |
| `Redirect.Redirection.Leave` | src/pysh/core/shell.py:393-419 | leaving is clean if and only if none of its calls fails, and then puts exactly the saved descriptors back and keeps nothing recorded; a failed flush skips everything |
| `Redirect.Redirection.DropUnrecorded` | src/pysh/core/shell.py:371-388 | objects that only the frame refers to are closed with it |
| `RedirectLaws.FoldTraces` | src/pysh/core/shell.py:366-391 | every descriptor ends where its last redirection sends it, a duplication seeing the earlier ones |
| `RedirectLaws.RestoredIff` | src/pysh/core/shell.py:360-411 | saving and restoring is the identity if and only if descriptor 0 is closed or 0, 1 and 2 are all open |
| `PipeEnds.Ownership` | src/pysh/core/shell.py:1495-1551 | in every interleaving the write end of pipe k is held only by the parent and stage k, its read end only by the parent, stage k and stage k + 1; a running stage has given up its own read end |
| `PipeEnds.EndOfFile` | src/pysh/core/shell.py:1495-1551 | once the parent is past stage k, the pipe has a writer if and only if stage k holds its write end, and none when stage k is gone |
| `PipeEnds.BrokenPipe` | src/pysh/core/shell.py:1518-1551 | when stage k runs and stage k + 1 is gone, nobody reads the pipe between them |
| `PipeEnds.Wiring` | src/pysh/core/shell.py:1495-1537 | from the end of its redirections until it runs, stage k has the read end of pipe k - 1 on descriptor 0 and the write end of pipe k on descriptor 1 unless it redirects them; the first stage has the input, the last one the output, and all have the errors of the shell |
| `PipeEnds.RedirectedStage` | src/pysh/core/shell.py:1523-1537 | a redirection in a stage overrides the pipe, and `2>&1` without an earlier redirection of the output sends the errors into the pipe |
| `PipeEnds.ForkedEndsClosed` | src/pysh/core/shell.py:1528-1533 | when a stage is about to run it has closed every pipe descriptor that it was forked with |
| `PipeEnds.ParentRestored` | src/pysh/core/shell.py:1495-1610 | at the end the parent has exactly its own descriptors, and after a failed setup all stages are gone |
| `PipeEnds.EnteredStage` | src/pysh/core/shell.py:354-391 | after its redirections a stage leads to its own read end only through the variable that it closes next |
| `PipeEnds.StageInvStep` | src/pysh/core/shell.py:1512-1537 | every step of a stage keeps the invariant on the ends it holds |
| `PipeEnds.ParentInvStep` | src/pysh/core/shell.py:1495-1551 | every step of the parent keeps the invariant that its table is its own descriptors and the ends its variables name |
| `Pipeline.ForkStage` | src/pysh/core/shell.py:1499-1511 | a stage that cannot be forked leaves the descriptors as they were |
| `Pipeline.StartStage` | src/pysh/core/shell.py:1495-1551 | one iteration: the child inherits the shell's descriptors and exactly its pipe ends, the parent keeps only the next read end |
| `Pipeline.StageForked` | src/pysh/core/shell.py:1495-1551 | one forked stage: what it inherits, what the parent keeps, and four steps of the step relation |
| `Pipeline.ForkStages` | src/pysh/core/shell.py:1495-1551 | the whole loop: it completes if and only if no call fails; consecutive children, all in the group of the first stage and none in a contained shell, descriptors back on success; the parent follows the step relation |
| `Pipeline.FollowsIsRun` | src/pysh/core/shell.py:1495-1551 | what the loop does is a run of the step relation in which every stage starts with the table its process inherited |
| `ParentTrace.Iterate` | src/pysh/core/shell.py:1495-1551 | an iteration that forks its stage is four steps of the parent |
| `ParentTrace.ForkFails` | src/pysh/core/shell.py:1502-1511 | a fork that fails leads to the cleanup after the new pipe is closed |
| `Pipeline.TerminateAndReap` | src/pysh/core/shell.py:304-334 | every started child gets SIGTERM, in order, some of them SIGKILL afterwards, and none is left unreaped; nothing else is signalled |
| `Pipeline.AwaitAll` | src/pysh/core/shell.py:1574-1604 | all children are reaped; the status is the exit code of the last stage, 128 plus its signal, or 1, and 130 if an interrupt arrived, which goes to the group or to own children only |
| `Pipeline.InterruptAll` | src/pysh/core/shell.py:1577-1598 | the remaining children are signalled once and reaped |
| `Accounting.NewJob` | src/pysh/core/shell.py:1559-1564 | registering fresh children as a job keeps every child in exactly one job |
| `Accounting.PolledIsAccounted` | src/pysh/core/jobs.py:190-222 | a poll keeps every process that was not collected with its job |
| `Accounting.Removed` | src/pysh/core/jobs.py:161-171 | removing jobs that are over drops no unreaped process |
| `Accounting.RemovedAreReaped` | src/pysh/core/jobs.py:161-171 | the processes of jobs that went are all reaped |
| `Shell.Shell.ExecutePipeline` | src/pysh/core/shell.py:1475-1610 | the setup fails if and only if a call fails, with status 1; on every path the descriptors are back; a failed setup and a foreground run leave no child; a foreground run reports the exit code of its last stage, 128 plus its signal, or 1, and 130 after an interrupt; a background run leaves its stages to one new job or to the enclosing substitution; all stages are in the group of the first one, which gets the terminal; the loop follows the step relation |
| `Shell.Shell.Conclude` | src/pysh/core/shell.py:1553-1610 | what follows the loop: status, children, job table, signals and terminal |
| `Shell.Shell.RunForeground` | src/pysh/core/shell.py:1569-1604 | terminal, waits and status of a foreground pipeline, interrupts included |
| `Shell.Shell.AbortSetup` | src/pysh/core/shell.py:1601-1610 | the failure path reaps the started stages and closes the last read end |
| `Shell.Shell.Launch` | src/pysh/core/shell.py:1553-1567 | background stages become one job, or none in a contained shell |
| `Shell.MeansMissingIff` | src/pysh/core/shell.py:1680-1716 | status 127 means that the command itself is missing if and only if no redirection opens a file; if what cannot be opened stays so, it is enough that some redirection is not of standard input |
| `Shell.Shell.SpawnRedirected` | src/pysh/core/shell.py:1680-1692 | the child of `Popen` sees exactly the fold of its redirections, the shell's descriptors are restored unless a call of the cleanup fails, and a failure is that of one call, with its error; without redirections nothing is duplicated |
| `Shell.Shell.ReportNotStarted` | src/pysh/core/shell.py:1693-1723 | a missing program or redirection file gives 127 unless the report has to enter redirections again and fails, a denied one 126, any other error 1, whichever of the two raised it |
| `Shell.Shell.AwaitCommand` | src/pysh/core/shell.py:1742-1797 | a foreground command is collected, or stopped and entered as a stopped job exactly if the wait found it stopped, or interrupted and reaped exactly if an interrupt arrived |
| `Shell.Shell.ExecuteExternal` | src/pysh/core/shell.py:1639-1806 | the whole of an external command: what it was started with, which error gave which status, the exit code, 128 plus the signal or 1 of a process that was waited for, 148 for a stop and 130 for an interrupt, which children are left and who answers for them, job table, terminal; a started child is lost if and only if a call of the cleanup fails |
| `Shell.Shell.Foreground` | src/pysh/core/shell.py:2638-2667 | `fg` finds its job, lends it the terminal, continues it if stopped, and leaves it stopped (148) or done with the exit code, 128 plus the signal or 1 of the last process there was to wait for, 130 after an interrupt; a job that was over stays over with status 0 |
| `Shell.Shell.ForegroundJob` | src/pysh/core/shell.py:2651-2667 | the part of `fg` that follows the lookup |
| `Shell.Shell.AwaitProcesses` | src/pysh/core/shell.py:2714-2743 | the status is that of the last process there was to collect; after an interrupt every process is reaped |
| `Shell.Shell.WaitForJob` | src/pysh/core/shell.py:2714-2745 | the job is marked stopped or done accordingly and conservation is kept |
| `Shell.Shell.ResolveJob` | src/pysh/core/shell.py:2694-2712 | without an argument the alive job with the greatest id, with a number that job if it exists |
| `Shell.Shell.Background` | src/pysh/core/shell.py:2669-2692 | `bg` succeeds if and only if the job exists, is stopped and could be signalled; it signals only its group and changes nothing else |
| `Shell.Shell.ReapBackgroundJobs` | src/pysh/core/jobs.py:173-224 | every process of every running job is asked for; the job is stopped if and only if one of them was stopped, otherwise done if and only if each has ended or was gone; other jobs are untouched; no child is lost |
| `Shell.Shell.PromptThenBackground` | src/pysh/core/shell.py:2669-2692 | after the poll `bg` accepts a background job if and only if the poll has found one of its processes stopped and its group can be signalled |
| `Shell.Shell.ListAndRemoveJobs` | src/pysh/core/shell.py:2628-2636 | exactly the jobs that are over go, a running one if the poll found all its processes ended or gone; no process of a removed job is left unreaped |
| `Shell.Shell.RunAll` | src/pysh/core/shell.py:1475-2752 | over any run of commands conservation, groups and descriptors hold; unless a call of a cleanup fails, the descriptors end as they were and, outside substitutions, every unreaped child is in exactly one alive job |
| `Jobs.NumberedAlways` | src/pysh/core/jobs.py:88-171 | in every reachable table ids are below the next id, never come back once given up, and the stored current job is the greatest id or none |
| `Jobs.JobTable.AddJob` | src/pysh/core/jobs.py:88-109 | a new job gets the next id and becomes current |
| `Jobs.JobTable.MarkStatus` | src/pysh/core/jobs.py:111-119 | only the status of that job changes; an unknown id is ignored |
| `Jobs.JobTable.MarkEnded` | src/pysh/core/jobs.py:121-131 | only status and last status of that job change |
| `Jobs.JobTable.GetCurrentJob` | src/pysh/core/jobs.py:139-149 | the running or stopped job with the greatest id, and none if and only if all jobs are done or terminated |
| `Jobs.JobTable.RemoveDoneJobs` | src/pysh/core/jobs.py:161-171 | exactly the done and terminated jobs go, and the current id with them |
| `Jobs.MarkAgrees` | src/pysh/core/jobs.py:228-241 | the mark in the listing is the current job if and only if the marked job is alive, or nothing is marked and nothing alive |
| `Jobs.MarkDiffers` | src/pysh/core/jobs.py:228-241 | they differ after two jobs were added and the second has ended without having been removed |
| `Jobs.PollJob` | src/pysh/core/jobs.py:190-222 | one poll asks for every process; the job is stopped if one was stopped, otherwise done if and only if each has ended or was gone, and then has the exit code, 128 plus the signal or 1 of the last one collected; it keeps, in order, exactly the processes that are still there |
| `Jobs.PolledMeans` | src/pysh/core/jobs.py:190-222 | the same for every job and every answers, and nothing else of the job changes |
| `Jobs.AllPolledMeans` | src/pysh/core/jobs.py:186-224 | after the poll of a table each running job has the status that the answers for its own processes tell |
| `Jobs.LastCollectedIs` | src/pysh/core/shell.py:2714-2743 | the status of a wait is the exit code, 128 plus the signal or 1 of the last process there was to wait for, and 0 if there was none |
| `Jobs.AllPolledStep` | src/pysh/core/jobs.py:186-224 | polling one more job leaves what the polls before it have found |
| `Jobs.EarlierStatusDropped` | src/pysh/core/jobs.py:190-222 | if the last stage is collected before the poll that ends the job, its status has no influence |
| `Jobs.ReportsLastStage` | src/pysh/core/jobs.py:190-222 | a job reports the status of its last stage, whatever it is, if and only if the poll that collects the stage ends the job |
| `Jobs.LastStatusDropped` | src/pysh/core/jobs.py:190-222 | two polls after which a pipeline whose last stage failed is reported as a success |
| `Jobs.OwnStatusIff` | src/pysh/core/jobs.py:190-222 | a background command reports its own status if and only if its process is still there when the poll that ends the job comes |
| `Inheritance.Resolver.ResolveName` | src/pysh/config/profiles.py:124-147 | the closure over mutable memo, visiting set and diagnostics computes the recursive specification and leaves the visiting set as it was |
| `Inheritance.Resolver.ResolveAll` | src/pysh/config/profiles.py:149-151 | resolving every name ends, with nothing left in the visiting set |
| `InheritanceLaws.ResolvePath` | src/pysh/config/profiles.py:124-147 | a call resolves exactly the new names on its path and reports exactly how the path ends |
| `InheritanceLaws.EverythingReported` | src/pysh/config/profiles.py:121-151 | on every graph and in every order all names are resolved, each cycle is reported once by a member, each bad base once, and nothing else |
| `InheritanceLaws.ValueOfGrounded` | src/pysh/config/profiles.py:121-151 | a name whose chain of bases ends is resolved to the merge of its chain, in every dictionary order |
| `InheritanceLaws.EachKeeps` | src/pysh/config/profiles.py:121-151 | what every merge keeps holds of every resolved value, on cycles too |
| `InheritanceLaws.TwoCycle` | src/pysh/config/profiles.py:121-151 | on a cycle of two the name resolved first gets its base and the other does not |
| `InheritanceOrder.SolvedStep` | src/pysh/config/profiles.py:124-151 | after every call each resolved value is its definition merged over the value under it, nothing being under a name whose base is the reported name of its cycle |
| `InheritanceOrder.ValueOnEveryGraph` | src/pysh/config/profiles.py:121-151 | on every graph and in every order a name is resolved to the merge of its chain up to its end or to the edge cut at the reported name |
| `InheritanceOrder.OrderIrrelevantIff` | src/pysh/config/profiles.py:121-151 | the order has no influence on which definitions are merged if and only if the chain ends or runs into a self-base |
| `InheritanceOrder.SameValue` | src/pysh/config/profiles.py:121-151 | under this condition the value is the same in every order |
| `InheritanceOrder.FirstReported` | src/pysh/config/profiles.py:131-133 | a cycle is reported by the name of it that is listed first, if that name comes first of all |
| `Profiles.MergeProfileItems` | src/pysh/config/profiles.py:154-165 | the loop over the items, in any order, lays the tables `prompt`, `editor`, `completion` and `history` over older ones, drops `base`, and replaces everything else |
| `Profiles.SectionFromNearestAncestor` | src/pysh/config/profiles.py:116-165 | a resolved section key has a value if and only if the nearest ancestor that defines it gives that value; a section that is no table cuts inheritance |
| `Profiles.PlainFromNearestAncestor` | src/pysh/config/profiles.py:116-165 | any other key has a value if and only if the nearest ancestor that has the key gives that value |
| `Profiles.NoBaseSurvives` | src/pysh/config/profiles.py:154-165 | no resolved profile has a `base` key, on any graph |
| `Profiles.ResolveProfiles` | src/pysh/config/profiles.py:116-151 | user profiles replace built-in ones and all are resolved; an unknown base is reported for exactly the profiles whose `base` is there, is not None and is no name of a profile |
| `Profiles.CyclicValueDependsOnOrder` | src/pysh/config/profiles.py:131-151 | an input that fails the condition of order independence, and two orders that give different values |
| `Themes.MergeColorItems` | src/pysh/config/themes.py:121-128 | the inner loop lays each color section that is a table over its older self and replaces the others |
| `Themes.MergeThemeItems` | src/pysh/config/themes.py:113-132 | the outer loop merges `colors` by sections if it is a table, drops `base` and `override`, and replaces everything else |
| `Themes.ColorFromNearestAncestor` | src/pysh/config/themes.py:80-132 | a resolved color has a value if and only if the nearest ancestor that defines it gives that value |
| `Themes.NoBaseOrOverrideSurvives` | src/pysh/config/themes.py:113-132 | neither key survives resolution, on any graph |
| `Themes.Assemble` | src/pysh/config/themes.py:73-79 | a user theme with a built-in name is rejected if and only if it does not say `override = true`; the rejected ones are reported in order and all others taken |
| `Themes.ResolveThemes` | src/pysh/config/themes.py:71-110 | the assembled themes are resolved in dictionary order, built-in names first |
| `Quoting.SegmentsRejoin` | src/pysh/contracts/block_syntax.py:44-108 | the untrimmed stages joined by a bar are the command |
| `Quoting.PipelineIffStages` | src/pysh/contracts/block_syntax.py:44-108 | a text has a lone unquoted pipe if and only if it has more than one stage |
| `Quoting.SplitRoundTrip` | src/pysh/contracts/block_syntax.py:44-108 | joining proper stages and splitting gives them back if and only if no stage but the last leaves a quote open |
| `QuotingLaws.SplitsBetweenStages` | src/pysh/contracts/block_syntax.py:44-108 | a command line composed of plain characters, escapes, quoted texts and double bars is split at exactly the single bars between its stages |
| `QuotingLaws.OneStage` | src/pysh/contracts/block_syntax.py:44-108 | without such a bar it is one stage, trimmed |
| `QuotingLaws.QuotedWhere` | src/pysh/contracts/block_syntax.py:62-105 | unquoted is what follows complete pieces, not what follows a backslash or stands inside quotes |
| `Scanners.MoveInStep` | src/pysh/contracts/block_syntax.py:62-105 | the bisimulation: every move of the splitter keeps it in step with the automaton |
| `Scanners.SplitUnquotedPipeStages` | src/pysh/contracts/block_syntax.py:44-108 | the splitter returns the automaton's stages |
| `Scanners.ContainsUnquotedAny` | src/pysh/compat/profile_importer.py:301-333 | it finds a target if and only if one stands unquoted, `\|\|` being no target |
| `Scanners.HasUnquotedPipeline` | src/pysh/compat/profile_importer.py:293-294 | it holds if and only if the splitter returns more than one stage |
| `Scanners.ContainsCommandSubstitution` | src/pysh/compat/profile_importer.py:240-267 | it finds a substitution if and only if one starts outside single quotes and unescaped |
| `Scanners.SplitFirstWord` | src/pysh/core/shell.py:2936-2970 | the text is cut at its first unquoted blank |
| `ScannerLaws.WordEnds` | src/pysh/core/shell.py:2936-2970 | the first word ends at the first blank or tab between its pieces; quoted and escaped blanks do not end it |
| `ScannerLaws.TargetFound` | src/pysh/compat/profile_importer.py:301-333 | a target is found between pieces and not where it is quoted or escaped |
| `ScannerLaws.SubstitutionFound` | src/pysh/compat/profile_importer.py:240-267 | a backquote or `$(` starts a substitution after complete pieces and inside double quotes, not after a backslash or inside single quotes |
| `Chain.LoopIsEval` | src/pysh/core/shell.py:1174-1190 | from any point on the flag-driven loop is the evaluation of the parsed trees |
| `Chain.LoopOfFlattened` | src/pysh/core/shell.py:1174-1190 | for all AND-OR trees the loop over their flat form runs the same commands in the same order to the same status |
| `Chain.FlattenParse` | src/pysh/core/shell.py:1174-1190 | flattening the parsed items gives the chain back |
| `Chain.ParseFlatten` | src/pysh/core/shell.py:1174-1190 | parsing a flattened list of items gives the items back |
| `Chain.RunChain` | src/pysh/core/shell.py:1174-1190 | turn by turn: an element is skipped exactly after `&&` with a status other than 0 or after the two bars with status 0; any other runs once, in the background exactly if `&` follows it, with the status of the last command that ran as `$?`; the whole is the evaluation of the trees |
| `Chain.BackgroundIffLast` | src/pysh/core/shell.py:1174-1190 | of the commands that an item runs exactly its last command runs in the background, if the item has an `&` and that command gets its turn |
| `Chain.AllInBackgroundIff` | src/pysh/core/shell.py:1174-1190 | all commands of an `&` item run in the background if and only if it is a single command |
| `Virtualenv.BinFirstAndOnce` | src/pysh/core/shell.py:2035-2038 | the directory is first and occurs once if and only if its name has no `:` |
| `Virtualenv.OtherEntriesKept` | src/pysh/core/shell.py:2035-2038 | all other entries are kept in order |
| `Virtualenv.PathMeans` | src/pysh/core/shell.py:2035-2038 | the new path is the directory and then the other entries in order; if the directory was no entry, it is written before the old path |
| `Virtualenv.ActivatedMeans` | src/pysh/core/shell.py:2021-2042 | in environment and locals an activation leaves this path, made from the one before the first activation, VIRTUAL_ENV at the root, and no PYTHONHOME |
| `Virtualenv.LastActivationCounts` | src/pysh/core/shell.py:2021-2042 | so does any run of activations and changes that ends in an activation, for the last root and the path before the first activation |
| `Virtualenv.DeactivateRestores` | src/pysh/core/shell.py:2021-2068 | after a first activation and any further activations and changes, `deactivate` restores the three variables in environment and locals |
| `Virtualenv.ReactivationForgets` | src/pysh/core/shell.py:2032-2041 | activating again depends only on the snapshot and the new root |
| `Virtualenv.OthersUntouched` | src/pysh/core/shell.py:2021-2068 | other variables are left alone |
| `Virtualenv.ShellVariables.ActivateRoot` | src/pysh/core/shell.py:2021-2042 | PATH becomes the directory followed by the other entries of the path in the first snapshot, in order, VIRTUAL_ENV the root, and PYTHONHOME is removed, in environment and locals; the rest is the specified activation |
| `Virtualenv.ShellVariables.Restore` | src/pysh/core/shell.py:2051-2068 | the two loops put back the environment and then the locals |
| `Virtualenv.ShellVariables.Deactivate` | src/pysh/core/shell.py:2044-2049 | without a snapshot nothing happens; otherwise PATH, PYTHONHOME and VIRTUAL_ENV are what the snapshot says in environment and locals, and it is used up |
| `Audit.AuditLaw` | src/pysh/diagnostics/audit.py:122-155 | after any events the file is its old content and whole lines; only a failed sink may end in a proper prefix of one line |
| `Audit.ClosedStays` | src/pysh/diagnostics/audit.py:138-139 | a failed or closed sink writes nothing |
| `Audit.AuditLogSink.WriteLine` | src/pysh/diagnostics/audit.py:141-146 | the write loop appends the whole line or a proper prefix and then closes |
| `Audit.AuditLogSink.WriteStructuredEvent` | src/pysh/diagnostics/audit.py:122-146 | an open sink appends the whole line of the event, or, exactly if a write or close failed, a proper prefix and is closed; otherwise nothing is written; only an encoding error is raised |
| `Audit.AuditLogSink.Close` | src/pysh/diagnostics/audit.py:148-155 | closing is final and writes nothing |
| `Audit.OthersDoNotMatter` | src/pysh/diagnostics/trace.py:142-150 | with arbitrary other sinks before and after it, the audit file is what the audit sink makes of the events that no earlier sink has let escape |
| `Audit.AuditDoesNotMatter` | src/pysh/diagnostics/trace.py:142-150 | the states of the other sinks do not depend on the audit sink |
| `Audit.CallFanOut` | src/pysh/diagnostics/trace.py:145-150 | every sink gets the event in order, containing failures, until a foreign error escapes; behind that one no sink is called |

## Left out

- The real effects of `fork`, `exec`, `Popen`, signals, terminal calls and clocks; no pid is reused; closing an open descriptor, signalling an own child and waiting for an own child succeed.
- Interrupts outside the wait loops, failures of `print`, and `BaseException` raised inside the rc executor.
- The parsers (`split_chain`, `parse_redirections`, `iter_logical_lines`, expansion) are not part of this model: chain elements, redirection actions and lines are inputs. A DUP action names descriptors 1 and 2 only, as `src/pysh/parsing/redirection.py` produces it.
- `shlex`, `re`, JSON, TOML and `pathlib`: items of a `for` header, conditions, lines of the audit log and bases are abstract functions or values.
- Redirection: descriptors 0, 1 and 2 are open on entry; `fdopen` succeeds; Python objects that only the frame refers to are closed when it is left.
- Redirect.Redirection.CloseHeld: the order in which descriptors are closed is not fixed, because the result does not depend on it.
- Shell.Shell.ExecuteExternal: commands whose `RedirectionSpec` has no actions but paths, systems without job control, and the fallback to `proc.wait` are not modelled; the parser always produces actions. Errors that are no `OSError` are not modelled either.
- Shell.Shell.ReapBackgroundJobs: jobs are polled in an arbitrary order, which covers the order of the source, and the notices printed about them are not modelled.
- Jobs.JobTable: jobs are values in a map, so that several references to one `Job` object are not captured.
- PipeEnds: what a stage does between two of its modelled points is over-approximated: it may close, copy and open anything and make pipes of its own, but gains no end of this pipeline; a stage stands for its whole process tree. The shell holds no end of a pipe that is not made yet.
- Foreground pipelines are waited for without asking for stops, so nothing is claimed about stopping them.
- RcNormalize.NormalizeSource: the usual layout has one keyword at the end of a header line; `py { ... }` blocks over several lines are not modelled, and reading the file is not part of this model.
- `_strip_trailing_comment`, which takes a backslash inside single quotes for an escape.
- Virtualenv: notices to plugins, and finding and checking the directory.
- Audit: opening and checking the file, redaction, the text form of traces; a write of a non-empty buffer takes at least one byte.
- Themes and profiles: the unreachable `unknown profile` and `unknown theme` reports, and copying of values.
- Prompt, completion, history, plugins, the Python runtime, option checks and release scripts: they would add easy members only.
