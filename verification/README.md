# Model Courier: a verified model of the task protocol

Model Courier queues inference requests from devices and hands them to Workers. This project
models the parts of it in which several parties race through shared state, and proves what
holds over whole runs of them.

* **The task queue.** `TaskTable` gives every transaction of the server's repository as a
  function of the three tables it works on (tasks, artifacts, events); `Repository` is the class
  with those tables as fields, whose methods have the shape of the source (UPDATE statements as
  loops over rows, the claim as sort, window and scan) and are proved to have exactly that effect.
  `RowProtocol` shows that every transaction is a step, or no step, of each single row, and
  `Invariant` that all transactions keep one invariant. `Runs` draws the consequences for
  arbitrary interleavings of arbitrarily many devices, Workers and sweeps, and `Claims` says what
  a polling Worker receives through the 32-row window. `Effects` says what each transaction means
  in the columns of the rows, apart from the functions that compute it. `Scenarios` exhibits runs in which a failure
  is reached or an assumption turns out to be needed, with requests that the server accepts.
* **What runs beside the queue.** `Storage` is the file store. `Cleanup` interleaves uploads,
  releases, crashes and the two halves of any number of cleanups with the repository's
  transactions. `Quotas` interleaves the quota check with the insert it guards. `WorkerClient`
  is a Worker's `run_once` over a network that loses requests and replies.
* **The desktop Agent.** `AgentRuntime` is the thread controller, one step per lock section.
  `BindingTable` and `AgentStore` are the store of model bindings, `Verification` and
  `VerifiedBindings` the optimistic verification of a binding while others save it.
* **The canonical encoding.** `JsonText` prints and parses JSON text; `CanonicalJson` proves that
  the sorted, compact text identifies a value up to the order of its keys, which is what both
  digests (idempotency and verification) rely on.

## Reading the model

* A `BEGIN IMMEDIATE` block is one atomic step and an exception inside it rolls back. Constraint
  violations of the schema (a reused identifier or path) are the error `IntegrityViolation`.
  Comparisons with NULL are false.
* Times are real numbers of seconds without rounding. Nothing is assumed about clocks unless a
  lemma has a hypothesis about them (in `Runs` and, for everything that rests on
  `Cleanup.ServerInv`, `Cleanup.SteadyClock`). Such a hypothesis is about the order of commits, and
  the code does not see to it: it reads its clock before it takes the write lock
  (`repository.py:389-392`). `Scenarios.LeaseRevived` and `Cleanup.DisorderDropsUnvisitedRow` are
  runs that break the promise without it; `Runs.UndoableIff`, `Runs.FinalIffEndedOrPastDeadline` and
  `Cleanup.UnvisitedRowCameLate` say exactly what survives with no assumption about clocks.
* Tokens, identifiers and the order of rows with equal `created_at` come from outside and are
  parameters. A lease token's hash is a constructor, so it is free of collisions; fencing does not
  depend on tokens being distinct. The digest hash is an arbitrary function, assumed injective only
  where a lemma says so, and a digest is never the empty string.
* Text is a sequence of Unicode scalar values.

## Where the code differs from what one might expect

* The sweep adds up `total_changes`, which counts from the opening of the connection: the returned
  number is 3a + 2b + c for a, b and c rows changed by its three statements.
* An upload that finishes too late commits the status `expired` and then raises. It is the only
  rejected call that changes anything.
* The error record that the sweep writes has only a code, and the device view of a task cannot
  parse it: a task becomes unreadable exactly when the sweep fails it.
* The third retry delay, 120 seconds, is never used.
* `cleanup_expired` leaves every file in place, while deleting the rows, unless the artifact root
  is spelled as an absolute path without `..`.
* A cleanup deletes a row without having visited its file exactly if the upload of that row, with
  a clock behind the cleanup's cutoff, committed between its two halves and the task expires by the
  cutoff. This can happen even while a Worker holds a good lease on the task.
* A rejected lease can be accepted again, for the same moment, by a later heartbeat with an earlier
  clock, exactly if its row still carries it and the deadline has not been reached at that moment.
* A repeated create goes through the quota check first, which counts the task itself: a device with
  ten active tasks that repeats a request is refused instead of being given its task.
* A cancelled upload skips the clean-up (`except Exception` does not see a cancellation) and leaves
  its temporary file.
* The limits on active tasks can be exceeded when requests race: with k requests in flight
  10 + (k - 1) for a device and 100 + (k - 1) for the instance are the exact bounds.
* A polling Worker is told that there is no work while there is, behind 32 older tasks that no
  polling Worker can run, for as long as those stay queued and unexpired. A task that expires
  before they do is never run.
* A claim does not look at owners, and every later call puts the owner of the caller's access token
  into the lease (`routes_workers.py:21-31`): a Worker that is handed a task can start it if and only
  if its token's owner owns the task. Otherwise the attempt is lost.
* The Agent's status label can come to say `stopped` while a thread is at work, exactly when a
  `start` has made a thread while a `stop` was between its two sections. A call of `verify_model`
  that marks a binding has marked another one than it tried exactly if its two reads disagree.
* `docs/protocol.md:57-58` calls a status `cancelled`; the code writes `canceled`, as here.
* A repeated publication of the same result is refused, not answered with success.

## Model

| member | source | states |
|---|---|---|
| Repository.TaskRepository.CreateUploading | src/model_courier/server/repository.py:224-286 | Creates at most one row for a key; answers a repeated request with the existing row or a conflict; keeps the database invariant |
| Repository.TaskRepository.FinalizeAndEnqueue | src/model_courier/server/repository.py:288-352 | Checks in the source's order, late expiry committed before the rejection, the artifact row expiring with its task; keeps the invariant |
| Repository.TaskRepository.Matches | src/model_courier/server/repository.py:354-381 | Returns the first capability that fits the request, and nothing only if none fits |
| Repository.TaskRepository.SelectWindow | src/model_courier/server/repository.py:393-401 | The rows returned are the oldest eligible ones, distinct, in order, 32 only if more were left out |
| Repository.TaskRepository.ClaimNext | src/model_courier/server/repository.py:383-451 | Leases the first row of a legal window that a capability fits, with the next generation, or changes nothing; keeps the invariant |
| Repository.TaskRepository.CheckTheLease | src/model_courier/server/repository.py:453-469 | The order and outcome of all comparisons, unknown task before stale lease before deadline |
| Repository.TaskRepository.StartTask | src/model_courier/server/repository.py:471-485 | Renews and marks running under an accepted lease only, otherwise nothing changes; keeps the invariant |
| Repository.TaskRepository.HeartbeatTask | src/model_courier/server/repository.py:487-502 | Renews under an accepted lease without changing the status; keeps the invariant |
| Repository.TaskRepository.FailTask | src/model_courier/server/repository.py:504-538 | Gives the task back with its delay or fails it, lease columns cleared; keeps the invariant |
| Repository.TaskRepository.PublishResult | src/model_courier/server/repository.py:540-568 | Stores result and retention under an accepted lease only; keeps the invariant |
| Repository.TaskRepository.RemoveInputArtifacts | src/model_courier/server/repository.py:570-594 | Only a succeeded task's rows go, and their paths are what is returned; keeps the invariant |
| Repository.TaskRepository.CancelTask | src/model_courier/server/repository.py:632-657 | Withdraws any unfinished task of its owner and leaves a finished one alone; keeps the invariant |
| Repository.TaskRepository.Update | src/model_courier/server/repository.py:601-627 | The row loop of a statement rewrites exactly the rows its WHERE clause selects at the start and returns how many |
| Repository.TaskRepository.SweepStatements | src/model_courier/server/repository.py:599-628 | Three loops in sequence equal one simultaneous step of every row; the returned number is 3a + 2b + c |
| Repository.TaskRepository.RequeueExpired | src/model_courier/server/repository.py:596-630 | The whole sweep is that step and keeps the invariant |
| Repository.TaskRepository.DeleteArtifacts | src/model_courier/server/cleanup.py:25-28 | The final DELETE of a cleanup removes the expired or unpublished rows only; keeps the invariant |
| TaskTable.PickIsFirst | src/model_courier/server/repository.py:402-405 | The claim's scan finds the first row that some capability fits, and none only if there is none |
| Effects.CreateMakesTask | src/model_courier/server/repository.py:252-286 | A create with an unused key adds exactly one row, column by column the request and nothing else, and one log entry |
| Effects.CreateFindsTask | src/model_courier/server/repository.py:238-250 | A create with a used key returns that row or a conflict, by the digest alone, and changes nothing |
| Effects.UploadEnqueues | src/model_courier/server/repository.py:319-352 | A complete, matching and timely upload queues its task and records its file under the given or a fresh identifier and path, expiring with the task |
| Effects.UploadRefused | src/model_courier/server/repository.py:298-318 | Every other upload: which reason is found first, and what it is answered with |
| Effects.UploadCollides | src/model_courier/server/migrations/001_initial.sql:60-67 | An identifier or path in use is refused and nothing is committed |
| Effects.FitsIffServes | src/model_courier/server/repository.py:354-381 | A capability is accepted if and only if it has the task's type, the named provider, service and model, all formats asked for and, if it lists formats, every input MIME type |
| Effects.FirstThatServes | src/model_courier/server/repository.py:363-381 | The capability chosen is the first of the list that meets all these tests |
| Effects.GrantServes | src/model_courier/server/repository.py:393-449 | A granted task was queued, due and unexpired, and the lease names the first capability that meets all its requirements |
| Effects.GrantLeases | src/model_courier/server/repository.py:406-449 | A grant column by column: attempt and generation one higher, holder, token, end of the lease within ten minutes and the deadline, log entry, and the matching lease |
| Effects.SoleTaskIsGranted | src/model_courier/server/repository.py:393-449 | The only eligible task is granted whenever some capability meets its requirements: there is no further test |
| Effects.WindowIsThirtyTwo | src/model_courier/server/repository.py:398 | 31 unfitting tasks that are as old cannot hide a task, 32 older ones do |
| Effects.LeaseDecides | src/model_courier/server/repository.py:453-469 | Every lease-bound call is answered by the row if that carries the lease and the lease has time left, with a conflict otherwise, and with NotFound for an unknown task; refusals change nothing |
| Effects.RenewalEffect | src/model_courier/server/repository.py:471-502 | A start makes the task running, a heartbeat leaves its status, both move the end of the lease and touch nothing else |
| Effects.FailEffect | src/model_courier/server/repository.py:504-538 | A failure report stores the error reported, ends every lease, and queues the task with its delay exactly if asked to and leased less than three times |
| Effects.PublishEffect | src/model_courier/server/repository.py:540-568 | A publication stores the result for seven days and ends every lease |
| Effects.ReleaseEffect | src/model_courier/server/repository.py:570-594 | A release takes exactly the rows of a succeeded task of this owner and answers with exactly their paths |
| Effects.SweepEffect | src/model_courier/server/repository.py:596-630 | Each row under a sweep: overdue uploads and queued tasks expire, a lapsed lease is taken away and the task is claimable at once if it has an attempt and time left and failed otherwise, all else stays |
| Effects.SweepCount | src/model_courier/server/repository.py:598-630 | The number returned, in terms of the rows whose status changed |
| Effects.CancelEffect | src/model_courier/server/repository.py:632-657 | The owner's cancel ends every unfinished task and every lease on it, a finished task is returned as it stands, a stranger gets NotFound |
| Effects.CanceledForGood | src/model_courier/server/repository.py:632-657 | In any run a canceled task stays canceled and no lease on it is accepted again |
| Effects.PurgeEffect | src/model_courier/server/cleanup.py:25-28 | Exactly the expired or unpublished artifact rows are deleted |
| TaskTable.StatementsAreOneStep | src/model_courier/server/repository.py:601-628 | No sweep statement selects a row an earlier one wrote, so each selects the rows it would have selected at the start |
| RowProtocol.Projection | src/model_courier/server/repository.py:224-657 | Refinement: each transaction is a step of the single-row protocol, or no step, of every row; transactions that read no clock write no row |
| RowProtocol.NewRow | src/model_courier/server/repository.py:252-277 | Rows appear only by a create whose key was free |
| RowProtocol.RowInvStep | src/model_courier/server/repository.py:288-657 | Lease columns are set exactly while leased or running, the lease ends at min(last write + 600, deadline), attempt equals generation and is at most 3, below 3 when queued: every step keeps all of it |
| RowProtocol.EvolvesStep | src/model_courier/server/repository.py:288-657 | Every status change lowers the count of changes left; finished rows never change; a lease keeps its holder within a generation |
| RowProtocol.StatusTable | src/model_courier/server/repository.py:288-657 | Every status change one transaction can make, with the condition under which it can |
| RowProtocol.LateTestsAreImplied | src/model_courier/server/repository.py:467-515 | The deadline test and the expiry test of a failure report decide nothing once the lease comparison has passed |
| RowProtocol.FreshLeaseIsCurrent | src/model_courier/server/repository.py:406-449 | A granted lease is accepted at its own moment and never ends after its task |
| RowProtocol.RenewalNeverShortens | src/model_courier/server/repository.py:487-502 | A renewal with a clock not before the last write never moves the lease's end back, nor past the deadline |
| RowProtocol.RetryDelays | src/model_courier/server/repository.py:80-81 | Retry delays are 5 and 30 seconds, nobody can claim earlier, and the third delay is unreachable |
| RowProtocol.SweepGuardsDisjoint | src/model_courier/server/repository.py:601-627 | The three WHERE clauses exclude one another, sweeping a row twice is sweeping it once, and no lapsed lease is left |
| RowProtocol.OnlyTheSweepBreaksTheView | src/model_courier/server/routes_devices.py:21-22 | A readable task becomes unreadable exactly by the sweep failing it |
| Scenarios.UnreadableTask | src/model_courier/server/repository.py:618-627 | For every acceptable request and Worker that serves it, a run from the empty database after which the device cannot read the task |
| Invariant.InvStep | src/model_courier/server/repository.py:224-657 | Every transaction keeps the invariant of the whole database |
| Invariant.RowsKept | src/model_courier/server/repository.py:224-657 | No transaction deletes a task or changes its identity, request or expiry, and all rows keep their invariant |
| Invariant.KeysKept | src/model_courier/server/migrations/001_initial.sql:56 | No two tasks ever share owner, device and idempotency key, by what the code does and without the constraint |
| Invariant.ArtifactsKept | src/model_courier/server/repository.py:319-338 | Every artifact row belongs to a task whose upload is over, expires with it, is the only one of its task and has its path to itself |
| Invariant.LogKept | src/model_courier/server/repository.py:278-434 | The log holds one creation, at most one queueing and exactly one lease event per attempt of each task, in step with its status |
| Invariant.RejectionsChangeNothing | src/model_courier/server/repository.py:312-318 | Rejected calls leave the database as it was, with the late upload as the one exception |
| Runs.ReachableInv | src/model_courier/server/repository.py:224-657 | The invariant holds in every state of every run |
| Runs.RowsEvolve | src/model_courier/server/repository.py:224-657 | Between any two moments of a run: finished tasks unchanged, identity unchanged, generation not fallen, holder unchanged within a generation |
| Runs.BoundedLife | src/model_courier/server/repository.py:288-657 | No task changes its status more than ten times in any run of any length |
| Runs.ChangesSpend | src/model_courier/server/repository.py:288-657 | From any moment of a run on, a task changes its status no more often than its status and attempt then allow |
| Runs.AttemptsAreBounded | src/model_courier/server/repository.py:383-451 | Attempt, generation and the number of logged leases agree, never exceed 3, and a queued task has one left, although the claim never tests it |
| Runs.GenerationsIncrease | src/model_courier/server/repository.py:406 | Later leases of a task carry higher generations |
| Runs.AtMostOneLeaseAccepted | src/model_courier/server/repository.py:453-469 | Of all leases ever issued for a task at most one is acceptable in any state, even judged by different clocks |
| Runs.Fencing | src/model_courier/server/repository.py:453-469 | Once a lease is rejected it is rejected in every later state, if no later transaction reads an earlier clock than the rejection |
| Runs.UndoableIff | src/model_courier/server/repository.py:453-502 | With any clock, some next transaction can undo a rejection if and only if the row still carries the lease, less than 600 seconds have passed since its end, and the deadline has not been reached |
| Runs.FinalIffEndedOrPastDeadline | src/model_courier/server/repository.py:453-502 | With any clocks, no continuation of a run accepts an issued lease at a given time if and only if its row no longer carries it or that time is not before the deadline |
| Runs.ClockGoingBackRevives | src/model_courier/server/repository.py:487-502 | On any row, a renewal that read its clock before the lease ran out revives it for moments at which it had been rejected |
| Scenarios.LeaseRevived | src/model_courier/server/repository.py:487-502 | For every acceptable request that outlives one lease, a run in which an issued lease is rejected at 600 and then, after such a heartbeat, accepted at 600: the clock assumption of fencing is needed |
| Runs.EndedLeaseStaysEnded | src/model_courier/server/repository.py:453-469 | A superseded or released lease is rejected for ever with no clock assumption |
| Runs.RenewalsNeverShorten | src/model_courier/server/repository.py:471-502 | In a run with a steady clock no start or heartbeat shortens the lease, or extends it past the task's expiry |
| Runs.PublishedIsFinal | src/model_courier/server/repository.py:540-568 | After a publication the whole row never changes, every lease is rejected, and the publisher held the task's last lease |
| Runs.OneResult | src/model_courier/server/repository.py:540-568 | At most one publication per task is accepted in any run |
| Runs.SuccessWasPublished | src/model_courier/server/repository.py:540-568 | A succeeded task always goes back to an accepted publication and still holds its result |
| Runs.LateCallsAreHarmless | src/model_courier/server/repository.py:453-466 | After a task is over every lease-bound call is refused with a conflict and changes nothing |
| Runs.CreateIsIdempotent | src/model_courier/server/repository.py:238-250 | Any later create with the same owner, device and key finds the same task and changes nothing; it is refused exactly if its digest differs |
| Runs.ForcedTermination | src/model_courier/server/repository.py:596-630 | One sweep at or after a task's expiry ends it for good, whatever its history and whatever clocks that read |
| Runs.SweepIsIdempotent | src/model_courier/server/repository.py:596-630 | A second sweep at the same moment changes and reports nothing; no lapsed lease is still held |
| Claims.NoTaskMeansNoneInWindow | src/model_courier/server/repository.py:393-451 | "No task" is answered exactly when nothing in the window can be run, and changes nothing |
| Claims.GrantGoesToOldest | src/model_courier/server/repository.py:393-402 | A granted task is an oldest of all the tasks these capabilities can run |
| Claims.Drain | src/model_courier/server/repository.py:383-451 | With at most 31 eligible tasks in the way, repeated polls hand out every runnable task once, oldest first, before "no task" |
| Claims.SureGrantIff | src/model_courier/server/repository.py:393-400 | A claim succeeds whatever order ties come in if and only if some runnable task has at most 31 unrunnable ones as old as itself |
| Claims.Starvation | src/model_courier/server/repository.py:393-400 | One poll behind 32 older tasks that the Worker cannot run is refused, and changes nothing |
| Claims.StarvedBehindBlockers | src/model_courier/server/repository.py:393-451 | Over a run: while 32 older queued tasks fit no polling Worker and are neither cancelled nor expired, the task behind them is never leased, whatever else happens |
| Claims.RefusalEnds | src/model_courier/server/repository.py:393-451 | A poll is granted once fewer than 32 tasks that are as old and do not fit are unexpired, if a runnable task has lived to see it |
| Scenarios.StarvedToDeath | src/model_courier/server/repository.py:393-451 | For any number of polls, a run in which a Worker that could run a task polls that often in vain, and the task expires without ever having been leased |
| Storage.CleanupNeedsResolvedRoot | src/model_courier/server/storage.py:175 | A stored relative path is recognised as below the root if and only if the root is spelled as an absolute path without `..` |
| Storage.DotsInTheRoot | src/model_courier/server/storage.py:43 | Parts that are `.` or empty in the configured root do no harm, since a path drops them when it is made |
| Storage.WherePathsLead | src/model_courier/server/storage.py:143-144 | Absolute paths are taken as they are, others start where the root, or the working directory, leads |
| Storage.UpUndoesDown | src/model_courier/server/storage.py:143-175 | Resolving a path: going down and up again leads nowhere, and nothing is above the top |
| Storage.ArtifactStore.WriteStream | src/model_courier/server/storage.py:74-130 | Exactly which of four outcomes an upload has: all of the declared content under the final name with its size and digest, nothing left (wrong size, client gone), or, if cancelled, what had arrived left in the temporary file; no other file is touched |
| Storage.ArtifactStore.DeleteExpired | src/model_courier/server/storage.py:166-181 | Exactly the listed files below the root go, and the report accounts exactly for their number, their bytes, and the paths that led to nothing, repeated paths included |
| Storage.ArtifactStore.RemoveRelative | src/model_courier/server/storage.py:140-147 | Removes one stored file, below the resolved root only |
| Cleanup.CleanupExpired | src/model_courier/server/cleanup.py:12-29 | Alone, a cleanup removes the expired or unpublished rows and the files they name below the root, nothing else; with an unresolved root every file stays |
| Cleanup.TargetsByRoot | src/model_courier/server/cleanup.py:21-24 | With a resolved root the rows reach every file they name, with any other root none |
| Cleanup.StepKeeps | src/model_courier/server/cleanup.py:15-28 | Every interleaved step that does not read an earlier time than the last keeps: paths about to be unlinked are no upload's and no unexpired row's; unexpired rows have their file; working tasks have their input row |
| Cleanup.InputsOutliveLeases | src/model_courier/server/cleanup.py:12-29 | If times read do not decrease in commit order, a task with an acceptable lease still has its input row and file, whatever else goes on |
| Cleanup.CleanupAgrees | src/model_courier/server/cleanup.py:16-28 | If times read do not decrease in commit order, every row the second transaction deletes was selected by the first with the same path, and its file is gone |
| Cleanup.UnvisitedRowCameLate | src/model_courier/server/cleanup.py:16-28 | With any clocks, a row is deleted that was not in the batch with its path if and only if its upload, with a clock behind the cutoff, committed in between and its task expires by the cutoff |
| Cleanup.DisorderDropsUnvisitedRow | src/model_courier/server/cleanup.py:16-28 | A run with such an upload: its row is deleted unvisited, its file stays, and the task has an acceptable lease without its input |
| Cleanup.ReleasedFilesGo | src/model_courier/server/routes_workers.py:136-141 | Unless the server crashes in between, every path a release returned is waiting to be unlinked or gone for good |
| Cleanup.CleanupAdvances | src/model_courier/server/cleanup.py:21-28 | Each step of a cleanup or a release removes a file or finishes, and leaves less to do |
| Cleanup.CrashForgets | src/model_courier/server/cleanup.py:16-28 | A crash loses the batches, uploads and releases in progress, and nothing that is on disk |
| Quotas.Reserve | src/model_courier/server/quotas.py:33-63 | Exactly when a reservation is granted |
| Quotas.ActiveOnlyShrinks | src/model_courier/server/quotas.py:40-53 | No transaction but a create adds to the active tasks of any device |
| Quotas.QuotaUnderRaces | src/model_courier/server/routes_devices.py:44-51 | With at most k requests between their first count and their insert, never more than 10 + (k - 1) active tasks per device nor 100 + (k - 1) in all |
| Quotas.BoundIsAttained | src/model_courier/server/routes_devices.py:44-51 | For every k and every device, acceptable requests from the empty database on bring the device to 10 + (k - 1), so the plain limit holds only without races |
| Quotas.InstanceBoundIsAttained | src/model_courier/server/routes_devices.py:44-51 | For every k, acceptable requests of twelve devices bring the instance to 100 + (k - 1) |
| Quotas.ReplayAnsweredIff | src/model_courier/server/routes_devices.py:42-56 | In any run, a repeated create is answered with its task if and only if device, instance, disk and budget are below their limits, the task itself counted; nothing changes either way |
| Quotas.ReplayRefusedAtLimit | src/model_courier/server/routes_devices.py:42-56 | For every device, a run without races in which its tenth create succeeds and the same request, repeated, is refused by the quota |
| WorkerClient.StepKeeps | src/model_courier/worker/runtime.py:54-122 | Every step of the Worker, the network and the others keeps what an outcome claims |
| WorkerClient.OutcomesAreTruthful | src/model_courier/worker/runtime.py:89-118 | "Succeeded" means the server holds this result from this lease, for ever; "failed" means this lease never delivers it; on any network |
| WorkerClient.LostPublishReply | src/model_courier/worker/runtime.py:107-118 | After a committed publication with a lost reply the fallback report is refused, changes nothing, and `run_once` raises |
| WorkerClient.LostRequests | src/model_courier/worker/runtime.py:54-118 | A request that does not arrive changes nothing on the server and ends the run with an exception or a failure report |
| WorkerClient.UndisturbedRunSucceeds | src/model_courier/worker/runtime.py:54-94 | A Worker that is answered in time runs the task it was granted and its result is stored |
| WorkerClient.ReportedInTime | src/model_courier/worker/runtime.py:95-118 | A provider failure reported in time is stored as reported, and queued again exactly if retryable and attempts are left |
| WorkerClient.HeartbeatExtends | src/model_courier/worker/runtime.py:145-161 | A heartbeat during execution makes the lease good for exactly ten minutes more, or until the deadline |
| WorkerClient.GrantIsForeignIffOwnersDiffer | src/model_courier/server/routes_workers.py:21-75 | A Worker that was granted a task has its start accepted at that time if and only if its token's owner owns the task |
| WorkerClient.ForeignClaimNeverStarts | src/model_courier/server/routes_workers.py:21-31 | A Worker that was handed another owner's task never starts it, whatever others do: `run_once` can only raise |
| Scenarios.ForeignGrant | src/model_courier/server/repository.py:393-449 | For every acceptable request and stranger, a run from the empty database in which a Worker of that stranger is handed the task, its start is refused, and an attempt is gone |
| AgentRuntime.AgentRuntimeController.StartWorker | src/model_courier/agent/runtime.py:29-44 | Either raises and changes nothing, or exactly one thread is alive afterwards, the stored one, with an unsignalled event of its own; keeps the invariant |
| AgentRuntime.AgentRuntimeController.StopBegins | src/model_courier/agent/runtime.py:46-53 | Afterwards every thread still alive has been told to stop, and the caller waits if there was one; keeps the invariant |
| AgentRuntime.AgentRuntimeController.StopEnds | src/model_courier/agent/runtime.py:55-57 | Leaves a truthful label if no thread was started since the first section; keeps the invariant |
| AgentRuntime.AgentRuntimeController.RunEnters | src/model_courier/agent/runtime.py:59-61 | Only the stored thread, the one alive, gets to write `running`; keeps the invariant |
| AgentRuntime.AgentRuntimeController.RunReadsEvent | src/model_courier/agent/runtime.py:63 | The event read outside the lock is the one made for this thread; keeps the invariant |
| AgentRuntime.AgentRuntimeController.RunWritesOutcome | src/model_courier/agent/runtime.py:64-69 | Only the stored thread gets to write its outcome, and the label is then truthful; keeps the invariant |
| AgentRuntime.StepKeeps | src/model_courier/agent/runtime.py:29-69 | Every step keeps: all threads but the newest are dead, each has its own event, stoppers' threads have been signalled |
| AgentRuntime.OneThread | src/model_courier/agent/runtime.py:29-44 | In every interleaving at most one thread is alive, the one in the controller's field |
| AgentRuntime.OwnEvent | src/model_courier/agent/runtime.py:37-63 | A thread in its loop holds the event made for it, although it reads the field outside the lock |
| AgentRuntime.OnlyTheCurrentThreadWrites | src/model_courier/agent/runtime.py:59-69 | `_run` writes the label only for the thread in the controller's field |
| AgentRuntime.NeverRevived | src/model_courier/agent/runtime.py:33-36 | A signalled thread stays signalled, and while it lives `start` raises and changes nothing |
| AgentRuntime.DeadStaysDead | src/model_courier/agent/runtime.py:37-44 | No step of a run brings a thread back that has died |
| AgentRuntime.ErrorMeansRaised | src/model_courier/agent/runtime.py:62-69 | The label `error` goes back to an exception in a loop, in every run |
| AgentRuntime.OutcomeIsWritten | src/model_courier/agent/runtime.py:62-69 | A thread whose loop ended writes `error` after an exception and `stopped` otherwise |
| AgentRuntime.OverlapMislabels | src/model_courier/agent/runtime.py:46-57 | From any machine with the invariant, if a `start` makes a thread while a `stop` is between its sections, that `stop` can finish next and mislabels it |
| AgentRuntime.LabelSafeIffNoOverlap | src/model_courier/agent/runtime.py:29-69 | The label is truthful in every state of a run and one step beyond if and only if no `start` made a thread while a `stop` was between its sections |
| AgentRuntime.LabelIsSound | src/model_courier/agent/runtime.py:46-69 | When stops do not overlap starts, `stopped` and `error` mean that no thread is working |
| AgentRuntime.LateStopMislabels | src/model_courier/agent/runtime.py:54-57 | A run in which a late write says `stopped` while a newer thread is in its loop |
| JsonText.ParsePrinted | src/model_courier/contracts/envelope.py:57-64 | Parsing printed text returns the value and leaves what follows, for all values, escapes and spacing (sections 4 and 7 of RFC 8259) |
| JsonText.ScanQuoted | src/model_courier/contracts/envelope.py:61 | Unescaping an escaped string returns it, control characters included |
| JsonText.EscapesInUse | src/model_courier/contracts/envelope.py:61 | Which characters are escaped and how (section 7 of RFC 8259), and that no other is |
| JsonText.NumeralByPlaces | src/model_courier/contracts/envelope.py:61 | Integers are written in decimal places without leading zeros |
| CanonicalJson.LessIffFirstDifference | src/model_courier/contracts/envelope.py:61 | Keys are ordered by the code point at their first difference, a prefix first |
| CanonicalJson.SortSorts | src/model_courier/contracts/envelope.py:61 | Sorting by key puts the same members in strictly increasing order |
| CanonicalJson.NormalInOrder | src/model_courier/contracts/envelope.py:61 | In the canonical form the keys of every object, at every level, stand in that order |
| CanonicalJson.ObjectSample | src/model_courier/contracts/envelope.py:61 | The text of an object whose keys were inserted out of order, for any gap |
| CanonicalJson.WordsSample | src/model_courier/contracts/envelope.py:61 | JSON's words and brackets |
| CanonicalJson.DigestSample | src/model_courier/contracts/envelope.py:61-64 | What is hashed is the text without spaces |
| CanonicalJson.SortedUnique | src/model_courier/contracts/envelope.py:61 | A set of members has only one sorted order |
| CanonicalJson.SameIffNormalEqual | src/model_courier/contracts/envelope.py:57-64 | Two values are equal up to key order at every depth if and only if their sorted forms are identical |
| CanonicalJson.LoadsDumps | src/model_courier/contracts/envelope.py:57-64 | Parsing the sorted text gives an equal value back |
| CanonicalJson.TextIdentifiesValue | src/model_courier/contracts/envelope.py:57-64 | Two values have the same canonical text if and only if they are equal up to key order |
| CanonicalJson.DigestsIdentifyUpToCollision | src/model_courier/contracts/envelope.py:57-64 | Equal values have equal digests, and equal digests mean equal values or a collision of the hash on the canonical texts of these two values |
| AgentStore.SavedTextIsStored | src/model_courier/agent/store.py:65-80 | What is saved can be read back as the binding that was saved, up to key order |
| AgentStore.StoredSample | src/model_courier/agent/store.py:68 | Stored texts have a space after every comma and colon |
| BindingTable.StatementsOnBinding | src/model_courier/agent/store.py:69-125 | Saving and unmarking leave a binding unmarked, marking leaves it marked only while its text is the expected one, and no statement touches another binding |
| AgentStore.EnabledMeansTrue | src/model_courier/agent/store.py:143 | A binding counts as enabled exactly if its stored `enabled` is true |
| AgentStore.DigestDecides | src/model_courier/agent/store.py:194-195 | Two stored texts with one digest are the same text |
| AgentStore.Store.SaveBinding | src/model_courier/agent/store.py:65-80 | Saving replaces the text and clears the mark of that binding only |
| AgentStore.Store.Unmark | src/model_courier/agent/store.py:104-110 | Clears a mark, keeps the text, and tells whether the binding exists |
| AgentStore.Store.MarkVerified | src/model_courier/agent/store.py:111-125 | Marks exactly if the expected digest is that of the stored binding, and the binding then counts as verified |
| AgentStore.Store.HasVerifiedEnabledBinding | src/model_courier/agent/store.py:139-151 | The scan finds something if and only if some enabled binding counts as verified |
| Verification.StepKeepsIffConsistent | src/model_courier/agent/api.py:187-191 | Every interleaved step keeps "marks are earned" except, exactly, a digest read that sees another text than the binding read |
| Verification.MarkEarnedIffReadsAgree | src/model_courier/agent/api.py:187-190 | A call that marks a binding has marked the one it tried if and only if its two reads saw the same text |
| Verification.TornReadMarksUntested | src/model_courier/agent/api.py:187-190 | For any two bindings, a run in which a save between the two reads gets the untried one marked |
| Verification.UndisturbedMarks | src/model_courier/agent/api.py:183-304 | From any reachable state a verification that nobody disturbs marks the binding it tried |
| Verification.TestedMeansInferred | src/model_courier/agent/api.py:235-304 | The history of tests holds successful inferences only, each on what its call had read |
| VerifiedBindings.VerifiedMeansTested | src/model_courier/agent/store.py:127-137 | With agreeing reads, a binding counts as verified exactly when marked, and then an inference has succeeded on the very binding stored now |

## Left out

- The Worker's `run_once`, `verify_model` and the racing form of `cleanup_expired` are step machines rather than classes, because what matters is where the steps of others fall between theirs; each step uses the same functions that the class methods are proved against. Temporary files, the provider and the timing of the heartbeat thread are not modelled.
- JsonText.ParsePrinted: finite floats are known by their decimal text, so float printing itself is not modelled, and the parser accepts some malformed numbers that Python refuses; NaN, infinities, escaped surrogates and UTF-8 encoding are not part of this model.
- CanonicalJson.SameIffNormalEqual: Python's equality across number types (1 == 1.0 == True) is not the equality used here; values are equal when they have the same type and content. Objects with a repeated key cannot be built.
- AgentStore.Store.HasVerifiedEnabledBinding: reading `enabled` with `json_extract` is a look at the stored member, and bindings are any JSON value rather than the `ModelBinding` schema.
- Repository.TaskRepository.CreateUploading: owners, devices and Workers, their foreign keys and `last_seen_at` are not part of this model, so a create never fails for an unknown device.
- Errors of the file system itself; and a file without a row, which a racing or crashed upload leaves behind, is allowed for but not bounded.
- The 10 GiB artifact budget as an invariant: the reservation counts the sizes in the envelope while the upload trusts its own query, so the code does not keep it.
- `ArtifactStore.begin`, `path_for` and `publish_result`, the `submit` endpoint and result artifacts: not part of the task state machine.
- Quotas.BoundIsAttained: that every request is acceptable is stated up to the number of tasks whose decimal numeral fits into a key of 128 characters; likewise Quotas.InstanceBoundIsAttained.
- Symbolic links in the artifact tree.
- HTTP routing, dependencies, schema validation of requests and response bodies; only the order of calls that the handlers make is kept.
- SQLite's own behaviour: locking, WAL, busy timeouts and the migration scripts.
- Access tokens, secret filtering and `TokenStore`; `set_accepting` and the handlers around it; `execution_lock`.
- `worker_presence`, capability parsing, provider factories, model adapters, the SDK client and the desktop interface: each is settled by reading one function, or belongs to a library.
- Design-document features that the code does not have: replaying an identical result as a success, a one-hour upload limit, a background sweeper.
