# A model of the platform's stateful core

This Dafny project models four parts of the CTF platform's Go backend and proves what they keep.

**Dynamic instances** (`Protocol`, `Safety`, `Bounds`, `World`, `Service`, `Reconcile`). The runtime
service keeps the instance table and the container engine in step: start, renew, delete, sweep and
reconcile, one mutex per process, and an administrator's terminate that takes no mutex.
`Protocol.dfy` is the automaton of atomic steps: one event is one SQL statement or one engine call,
any of which may fail. `Enabled` says when the code may issue it, `Apply` what it does. `Safety.dfy`
and `Bounds.dfy` prove what every run of enabled events keeps, for every interleaving of any number
of actors. `World.dfy` is the shared world a request acts in: before each step of its own, any number
of enabled events of others happen. `Service.dfy` and `Reconcile.dfy` hold the handlers with the
branches and loops of the source; that each event they issue is enabled is what a check made earlier
in the handler is worth after others have moved. Results that need one process (capacity, cooldown,
ports, lifetime) ask for `solo`; the others hold for any number of processes. `calm` marks a stretch
in which only time passes; it is asked for only where a whole pass is compared with the state before
it. Lock, Unlock, Busy, Abort and SweepEnd events, and the fields `issued` and `swept`, are history;
`faults` counts the statements and calls that failed, so that an internal error is answered only when
there was one. What a handler read, and the state it answered in, are states of the run during the
call (`Visited`). Times are integers; the clock never goes back.

**Rate limiters** (`Windows`, `Limiters`). The in-memory fixed window, the Redis pair of INCR and
PEXPIRE on a server that other clients use in between, and the fallback from one to the other, in
nanoseconds.

**challenge.yaml** (`SpecText`, `Spec`, `SpecReader`, `SpecPrint`, `SpecOrder`, `SpecLaws`). The line-oriented
reader and the normaliser: `Spec.dfy` says what one line does to a challenge, `SpecReader.dfy` is the
step-by-step form of the source proved equal to it, `SpecPrint.dfy` writes a canonical text and
proves that it is read back, `SpecOrder.dfy` proves what the reader does not see, and `SpecLaws.dfy`
says what is read, refused and defaulted without the functions that do it.

**Flags and scoreboard** (`Game`, `Scoreboard`). A submission is three statements without a lock;
the scoreboard sums, orders and ranks.

`Text.dfy` (decimal numbers) and `Sets.dfy` are shared helpers.

## Limits found

- `docs/dynamic-instances.md` (line 49) says reconciliation removes managed containers without a
  record. It removes those whose (challenge, user) key no active record holds. A failed start that
  leaves its container behind, followed by a start that succeeds, reaches a state in which nothing
  is left to do and the first container stays for good (`Convergence.ShadowReachable`). From any
  state, what repeated passes settle in is the one-to-one correspondence exactly if at the start no
  active record's live container was shadowed by another of the same key
  (`Convergence.SettlesExactly`).
- `Service.SubmitFlag` can answer two overlapping correct submissions as a solve with points each
  (`Submissions.Race`). A request that found its challenge unsolved is answered wrongly exactly if
  another request of the same user inserted the solve between its check and its insert
  (`Submissions.WrongExactly`), and reported points differ from the scoreboard exactly if that
  happened to one of the user's requests (`Submissions.ReportsExact`).
- The Redis limiter and the in-memory one, which the fallback treats as equals, decide alike exactly
  if the window is a whole number of milliseconds (`RedisLimiting.AgreementExact`).
- `renew_allowed` and `max_renew_count` overwrite each other, so their order matters exactly if they
  contradict each other (`SpecOrder.ScalarsCommute`).
- A fixed window of `max` calls admits up to `2 * max` in an interval of its length, and this is
  attained (`MemoryLimiting.SlidingBoundTight`).

## Model

| member | source | states |
|---|---|---|
| Safety.InvRun | backend/internal/runtime/service.go:66-285 | every state of every run, by any number of processes and administrators, keeps: rows match the containers they name, terminated rows have no live container, one active row per user and challenge; with one process also capacity, exclusive pool ports, cooldown gaps and renewal terms |
| Safety.FreshDeployment | backend/migrations/0001_initial_schema.sql:83-103 | the empty table meets the invariants |
| Safety.RetiredForGood | backend/internal/store/runtime_repository.go:304-371 | over any interleaving with unlocked administrators, a row once terminated stays terminated and its container never runs again |
| Safety.LiveContainerLoss | backend/internal/runtime/service.go:287-332 | a live container of an active row is lost only to the engine itself or to a stop aimed at that row by its owner, after expiry, or by an administrator; never to reconciliation |
| Safety.InFlightContainerSafe | backend/internal/runtime/service.go:118-138 | between container start and row insert nobody but the starting thread and the engine can remove the container, and no row is added |
| Safety.CapacityStep | backend/internal/runtime/service.go:95-103 | one process never exceeds a positive limit of active instances of a challenge |
| Safety.PortStep | backend/internal/runtime/service.go:346-376 | with a fixed pool, active rows hold distinct ports inside it |
| Safety.CooldownStep | backend/internal/runtime/service.go:105-116 | any two rows of one user and challenge start at least a cooldown apart |
| Safety.TermsStep | backend/internal/runtime/service.go:205-214 | renewals stay within the limit and each has bought a full time-to-live |
| Bounds.LifetimeBound | backend/internal/app/server.go:167-181 | with sweeps at most P apart an instance is gone by startedAt + (R+1)*(TTL+P); at all times expiresAt >= startedAt + (1+renewals)*TTL and renewals <= R |
| Bounds.CappedRun | backend/internal/runtime/service.go:265-285 | over a run with regular sweeps no expiry passes its cap |
| Bounds.CreationsBounded | backend/internal/store/runtime_repository.go:387-407 | n instances of one user and challenge started within a length L satisfy (n-1)*cooldown <= L |
| Bounds.PoolBoundsInstances | backend/internal/runtime/service.go:334-379 | a fixed pool caps the instances active at once by its size |
| Interference.OtherLater | backend/internal/admin/service.go:236-258 | whatever another actor does, rows I saw keep their identity, never come back to life, and containers I saw stopped stay stopped |
| Interference.OtherGuarded | backend/internal/runtime/service.go:67-68 | while I hold the only mutex, others can at most terminate rows and remove containers: no row and no container is added |
| Interference.AdmissibleStays | backend/internal/runtime/service.go:95-138 | capacity, cooldown and port checks made under the only mutex still hold at the insert |
| World.Platform.Others | backend/internal/admin/service.go:236-258 | any finite number of steps of others keeps the invariants and the guarantees one relies on |
| World.Platform.EveryStateSafe | backend/internal/runtime/service.go:66-332 | every state the platform went through meets the invariants |
| World.Platform.ActiveInstance | backend/internal/store/runtime_repository.go:206-259 | finds the active row of a user and challenge, or none exists, or the query failed |
| World.Platform.CountActive | backend/internal/store/runtime_repository.go:373-385 | counts exactly the creating and running rows of a challenge, expired ones included |
| World.Platform.LatestInstance | backend/internal/store/runtime_repository.go:387-438 | the row of the user and challenge started last, whatever its status |
| World.Platform.ListActive | backend/internal/store/runtime_repository.go:440-500 | lists exactly the active rows, each once |
| World.Platform.ListActivePorts | backend/internal/store/runtime_repository.go:502-527 | exactly the positive ports of active rows |
| World.Platform.ListExpired | backend/internal/store/runtime_repository.go:529-580 | exactly the active rows expiring by the given time, soonest first |
| World.Platform.InsertInstance | backend/internal/store/runtime_repository.go:261-302 | inserts an active row under a fresh id exactly if no active row has its user and challenge; otherwise nothing changes |
| World.Platform.RenewRow | backend/internal/store/runtime_repository.go:304-354 | extends an active row and counts the renewal; a terminated row is reported missing and unchanged |
| World.Platform.RetireRow | backend/internal/store/runtime_repository.go:356-371 | terminates a row whose container is gone, whatever its status was |
| World.Platform.StartContainer | backend/internal/runtime/docker.go:99-190 | a start gives a running container with the labels and port asked for and used by no row; a failed one may leave a container behind |
| World.Platform.StopContainer | backend/internal/runtime/docker.go:192-201 | after a successful stop the container is gone, whether or not it was there |
| World.Platform.ListManaged | backend/internal/runtime/docker.go:214-249 | lists exactly the live containers with their labels, in any order |
| World.Platform.ContainerExists | backend/internal/runtime/docker.go:203-212 | tells whether a container is live, or fails |
| InstanceService.PlaceInPool | backend/internal/runtime/service.go:346-378 | the port found is the least pool port neither held in the listing nor refused; exhaustion is reported only if every pool port is held or refused |
| InstanceService.PoolNotExhausted | backend/internal/runtime/service.go:357-378 | a pool larger than the held and refused ports together is never reported exhausted |
| InstanceService.PlaceContainer | backend/internal/runtime/service.go:334-379 | with or without a pool, what was launched is the container returned plus those of failed attempts, and the port is free of active rows |
| InstanceService.Service.CheckStart | backend/internal/runtime/service.go:70-116 | the checks of a start in order, each with its own refusal: an active row found by the lookup is returned, capacity and cooldown refuse only where the lookup found none, and with one process cooldown only where there was room |
| InstanceService.Service.RecordStart | backend/internal/runtime/service.go:123-150 | the row is inserted, dated by a clock reading made meanwhile, or the own container is stopped and the row another process won with is returned; without a failed call an error means that row was gone again; the container keeps running without row only if its removal failed after the insert failed too or somebody held the key meanwhile, which takes a second process |
| InstanceService.Service.Withdraw | backend/internal/runtime/service.go:139-147 | the own container is stopped, unless that call fails, and the active row of the user and challenge is returned, unless there is none or the lookup fails |
| InstanceService.Service.StartLocked | backend/internal/runtime/service.go:66-151 | a start issues failed attempts, then launch and insert, or launch and removal; each refusal holds of the state it is given in and, with one process, only after the earlier checks passed; exhaustion means every pool port was held or refused; a created row starts at a clock reading made during the call; an internal error without a failed call means another process won the row and it was gone again; a container that ran is left without row only if its removal failed after the insert failed too or somebody held the key meanwhile |
| InstanceService.Service.StartInstance | backend/internal/runtime/service.go:66-151 | the same for the state of the run the answer was given in, between taking and releasing the mutex, under every interleaving; every start that launched found no active row, room and no recent start in states of the run; it answers that it waits only while a thread of its process has the mutex |
| InstanceService.Service.RenewLocked | backend/internal/runtime/service.go:178-223 | renews the own active row once, from the later of the expiry as looked up and a clock reading made during the call, by one TTL, below the limit; the row was looked up in one state of the run and renewed in a later one, and with one process it is the same in both; every error holds of the state it is given in |
| InstanceService.Service.RenewInstance | backend/internal/runtime/service.go:178-223 | the same for the state the answer was given in, between taking and releasing the mutex; it waits only while a thread of its process has the mutex |
| InstanceService.Service.DeleteLocked | backend/internal/runtime/service.go:225-263 | stop, then terminate, of the own active row at a clock reading made during the call; a failure leaves at most the stop |
| InstanceService.Service.DeleteInstance | backend/internal/runtime/service.go:225-263 | the same for the state the answer was given in; after success the row is terminated and its container gone whatever others did since; it waits only while a thread of its process has the mutex |
| InstanceService.Service.SweepLocked | backend/internal/runtime/service.go:265-285 | under every interleaving the k reported terminations are exactly the first k, in order, of the expiry-ordered list read in a state of the run during the call, dated during the sweep; without failure all of it, and with one process no row expiring by the sweep time stays active; rows of other ids get no statement |
| InstanceService.Service.SweepExpired | backend/internal/runtime/service.go:265-285 | the same between taking and releasing the mutex, the listing read before the state of the answer; it fails only if a statement or stop failed; it waits only while a thread of its process has the mutex |
| AdminService.TerminateInstance | backend/internal/admin/service.go:236-258 | without any mutex, success leaves the row terminated and its container gone; failure leaves at most the stop, and without a failed call means the row does not exist |
| Reconciliation.KeyInjective | backend/internal/runtime/service.go:405-407 | the key text determines challenge and user, even if the challenge name has colons |
| Reconciliation.BuildIndex | backend/internal/runtime/service.go:303-305 | the loop over the listing builds the map in which later containers shadow earlier ones of the same key |
| Reconciliation.ListingIndexed | backend/internal/runtime/service.go:298-305 | every key of a live container is in the map, with a live container of that key |
| Reconciliation.LastListedWins | backend/internal/runtime/service.go:303-305 | of the containers with one key the map holds the one listed last |
| Reconciliation.RetireMissing | backend/internal/runtime/service.go:307-322 | under every interleaving an error-free loop terminates every listed row whose container was gone when it began, only rows whose container is gone when it ends, each once, as many as counted, and drops every listed key from the map; undisturbed, exactly the rows whose container was gone |
| Reconciliation.ReapOrphans | backend/internal/runtime/service.go:324-329 | under every interleaving the containers stopped are ones left in the map, each gone, as many as counted, and without error all of them; no container of an active row can be among them |
| Reconciliation.CompletedPass | backend/internal/runtime/service.go:287-332 | the two loops together make one pass |
| Reconciliation.Reconcile | backend/internal/runtime/service.go:287-332 | under every interleaving: the rows and then the containers it read, in states of the run during the call from which nothing comes back, the rows terminated, which are listed ones whose container is gone, and the containers stopped, which are indexed ones whose key no listed row held, as many as reported, all of them unless a call failed; undisturbed and without error it is one pass; it waits only while a thread of its process has the mutex |
| Reconciliation.WorkDone | backend/internal/runtime/service.go:307-331 | whoever acts meanwhile, after an error-free call every listed row whose container was gone when containers were listed is terminated with its container gone, and every indexed container whose key no listed row held is gone |
| Reconciliation.LostRowsFinished | backend/internal/runtime/service.go:307-322 | whoever acts meanwhile, after an error-free call every row whose container was gone before the call is terminated with its container gone |
| Reconciliation.OrphansRemoved | backend/internal/runtime/service.go:298-329 | whoever acts meanwhile, after an error-free call a container listed and still running has a key that an active row held when the rows were read, or another container of that key was removed |
| Convergence.PassConserves | backend/internal/runtime/service.go:287-332 | active rows plus containers drop by exactly the two numbers reported |
| Convergence.EmptyReport | backend/internal/runtime/service.go:318-331 | (0, 0) is reported exactly if nothing was out of step, and then nothing changed |
| Convergence.PassesSettle | backend/internal/runtime/service.go:287-332 | from any state, more passes than there are rows and containers include one that reports (0, 0), with nothing out of step |
| Convergence.InStepExact | backend/internal/runtime/service.go:298-330 | where passes end, rows and containers are one to one exactly if no two containers share a key |
| Convergence.ShadowsKept | backend/internal/runtime/service.go:303-330 | a pass neither removes nor makes a shadow: a live container beside an active row's own live one, with its key |
| Convergence.SettlesExactly | backend/internal/runtime/service.go:287-332 | from any state, more passes than there are rows and containers settle, in the one-to-one correspondence exactly if there was no shadow at the start |
| Convergence.ShadowReachable | backend/internal/runtime/docker.go:169-182 | for every configured challenge and user two starts, the first failing after its container runs, reach a settled state with a container no record names |
| Convergence.ShadowStays | backend/internal/runtime/service.go:303-321 | a container sharing the key of an active row is never removed |
| Convergence.TwoPassesSuffice | backend/internal/runtime/service.go:287-332 | with unique keys two passes give a one-to-one correspondence and a third changes nothing |
| Windows.SlidingBound | backend/internal/app/rate_limiter.go:51-60 | grants in windows of one length, max each, put at most 2*max in any closed interval of that length |
| Windows.SpanBound | backend/internal/app/rate_limiter.go:51-60 | a closed interval of m window lengths holds at most (m+1)*max grants |
| MemoryLimiting.MemoryLimiter.Allow | backend/internal/app/rate_limiter.go:41-61 | one call changes the buckets and answers as the window function says |
| MemoryLimiting.SlidingBoundHolds | backend/internal/app/rate_limiter.go:41-61 | for every ordered run of calls, a closed interval of one window holds at most 2*max admitted calls per key |
| MemoryLimiting.SlidingBoundTight | backend/internal/app/rate_limiter.go:51-60 | for all limits some run attains the bound |
| MemoryLimiting.DenialJustified | backend/internal/app/rate_limiter.go:55-57 | a denied call lies in a live window that already admitted max calls of the key |
| RedisLimiting.RedisSlidingBound | backend/internal/app/rate_limiter.go:97-106 | with INCR and PEXPIRE of all clients interleaved in any way, and any PEXPIRE missing, a closed interval of one window, rounded down to milliseconds, holds at most 2*max accepted counts |
| RedisLimiting.CommandsWindowed | backend/internal/app/rate_limiter.go:97-106 | accepted counts sort into windows of at most max each, a window apart, however the commands of all clients interleave |
| RedisLimiting.BetweenExpiries | backend/internal/app/rate_limiter.go:97-106 | of the INCRs of a key from one that starts its counter until the next that does, exactly the first max are accepted, however clients interleave and whatever PEXPIREs are lost |
| RedisLimiting.ReopenedExpired | backend/internal/app/rate_limiter.go:101-104 | a counter starts again only after an expiry that a PEXPIRE sent since it started had set |
| RedisLimiting.LostExpiry | backend/internal/app/rate_limiter.go:101-104 | a counter whose PEXPIRE was lost never starts again and admits max calls for good |
| RedisLimiting.RedisDenialJustified | backend/internal/app/rate_limiter.go:97-106 | an INCR is refused only after exactly max INCRs of its key were accepted since its counter was started |
| RedisLimiting.SameDecisions | backend/internal/app/rate_limiter.go:85-107 | without errors and with whole milliseconds, both limiters decide alike on every ordered run |
| RedisLimiting.AgreementExact | backend/internal/app/rate_limiter.go:102-102 | they agree on all runs exactly if the window is a whole number of milliseconds |
| RedisLimiting.NothingLimited | backend/internal/app/rate_limiter.go:101-106 | a window shorter than a millisecond admits every call |
| RedisLimiting.RedisServer.Allow | backend/internal/app/rate_limiter.go:85-107 | the commands the call sent, with other clients in between, and the answer that the reply to its INCR decides, for every place where it may fail; no answer is given only if a call failed; a limiter switched off answers without dialling; an answer admits exactly if the reply to the own INCR in the log is within max, and a PEXPIRE follows exactly the reply 1 |
| FallbackLimiting.FallbackLimiter.Allow | backend/internal/app/rate_limiter.go:221-230 | the memory limiter is asked exactly if Redis gave no answer, and the history of what happened accounts for exactly the answer given; where Redis answered, the call is admitted exactly if the reply to its own INCR is within max |
| FallbackLimiting.EitherSplits | backend/internal/app/rate_limiter.go:221-230 | each admission of a process is an accepted Redis count or an admitted call of its memory limiter |
| FallbackLimiting.FallbackSlidingBound | backend/internal/app/rate_limiter.go:221-230 | whatever fails and however the clients of all processes interleave, a closed interval of one window holds at most 4*max calls per key that one process admits if the window is a whole number of milliseconds, and 5*max for any other of at least one millisecond |
| FallbackLimiting.FallbackSlidingBoundTight | backend/internal/app/rate_limiter.go:221-230 | for all limits with a window of whole milliseconds some history attains 4*max |
| SpecText.StripComment | backend/internal/challengeimport/importer.go:938-958 | the scanning loop computes the text before the comment |
| SpecText.LongestUncommented | backend/internal/challengeimport/importer.go:938-958 | what remains is the longest prefix without an unquoted # |
| SpecText.CommentsStripped | backend/internal/challengeimport/importer.go:938-958 | stripping twice is stripping once |
| SpecText.AppendedComment | backend/internal/challengeimport/importer.go:941-957 | an appended comment is invisible exactly if the line has a comment or ends outside quotes |
| SpecText.AtoiItoa | backend/internal/challengeimport/importer.go:764-768 | every 64-bit integer is read back from its decimal text |
| SpecText.DurationRead | backend/internal/challengeimport/importer.go:837-841 | every whole number of seconds up to the Duration limit is read back |
| TextLaws.LowerExact | backend/internal/challengeimport/importer.go:927-936 | the lower-case form is the text without capitals that differs in letter case only |
| TextLaws.QuotedKept | backend/internal/challengeimport/importer.go:938-958 | from a quote to the next of its kind nothing is a comment, after it the line goes on as if nothing had been, and a quote left open protects the rest |
| TextLaws.PlainKept | backend/internal/challengeimport/importer.go:938-958 | outside quotes only a # begins a comment |
| TextLaws.ScalarLayers | backend/internal/challengeimport/importer.go:920-925 | outer white space goes first, then double quotes, then single quotes, and only these |
| TextLaws.AtoiExact | backend/internal/challengeimport/importer.go:764-768 | digits with or without a sign are read as their value exactly if it fits 64 bits |
| TextLaws.AtoiRefuses | backend/internal/challengeimport/importer.go:764-768 | nothing else is read as a number |
| TextLaws.GroupThen | backend/internal/challengeimport/importer.go:837-841 | a number with its unit adds to what the rest of a duration reads as, within the limit of a Duration |
| TextLaws.DurationRefuses | backend/internal/challengeimport/importer.go:837-841 | a number without unit is refused, except zero; a sign negates or changes nothing |
| TextLaws.BoolSpellings | backend/internal/challengeimport/importer.go:927-936 | true, yes and on, and false, no and off, in any case and with space around them, are the spellings of a switch, and there are no others |
| TextLaws.SplitExact | backend/internal/challengeimport/importer.go:908-918 | a line is split at its first colon; without colon or without key it is refused |
| TextLaws.IndentExact | backend/internal/challengeimport/importer.go:379-383 | the indent is the number of blanks at the start |
| TextLaws.LongLineReported | backend/internal/challengeimport/importer.go:493-497 | a line longer than the buffer ends the reading with an error after the lines before it |
| TextLaws.RenewalsAllowed | backend/internal/challengeimport/importer.go:872-884 | the older switch makes the number of renewals positive or zero, as it says, changing it as little as possible |
| SpecReader.NormalizeSpec | backend/internal/challengeimport/importer.go:239-358 | the in-place normaliser, defaults and errors in source order, computes Normalize |
| SpecReader.NormalizeAttachments | backend/internal/challengeimport/importer.go:286-296 | attachments are trimmed in place; the first defect is reported with its index |
| SpecReader.Reader.AssignScalar | backend/internal/challengeimport/importer.go:752-891 | one scalar updates exactly its field or fails with the error of its kind |
| SpecReader.Reader.AssignLastAttachment | backend/internal/challengeimport/importer.go:893-906 | one key of the attachment being read |
| SpecReader.Reader.ReadLine | backend/internal/challengeimport/importer.go:372-492 | one round of the loop makes the step StepLine prescribes, and the collected environment and command agree with the runtime section |
| SpecReader.ParseSpec | backend/internal/challengeimport/importer.go:360-501 | the whole loop and the normaliser compute Parse |
| ReaderLaws.AssignRefuses | backend/internal/challengeimport/importer.go:752-891 | a scalar is refused exactly for an unknown section, an unknown key of its section, or a value that is no number, switch or duration where its key asks for one |
| ReaderLaws.LayoutRefuses | backend/internal/challengeimport/importer.go:375-397 | the indent of a line with text is 0, 2 or 4; at 0 stands a section, and a runtime section exists once it was opened |
| ReaderLaws.MemberRefuses | backend/internal/challengeimport/importer.go:399-450 | an item begins one attachment, env and command open their blocks in the runtime section only, and any other line needs a colon and closes the block |
| ReaderLaws.DetailRefuses | backend/internal/challengeimport/importer.go:452-490 | a nested line is refused outside a block, and in a block if it has not its form |
| ReaderLaws.NothingRead | backend/internal/challengeimport/importer.go:360-371 | keys no line sets are empty, zero or off, so that an empty text is refused for its points |
| ReaderLaws.FirstRefusalCounts | backend/internal/challengeimport/importer.go:374-492 | reading ends with the failure of the first line refused, whatever follows |
| ReaderLaws.LongLineRefused | backend/internal/challengeimport/importer.go:493-501 | a text with a line too long is never accepted, and fails for that if its lines before are accepted |
| NormalLaws.NormalizeKeeps | backend/internal/challengeimport/importer.go:239-358 | of an accepted challenge every field is what was given, trimmed or in lower case, or the default where nothing was given; without status the visible switch decides |
| NormalLaws.NormalizeRefuses | backend/internal/challengeimport/importer.go:239-358 | a challenge is refused exactly if it has a defect, and for the first in the order of the source |
| Spec.NormalizeFixed | backend/internal/challengeimport/importer.go:239-358 | accepted specs are in normal form (visible iff published, positive points; a runtime is dynamic with image, positive port, TTL, memory and CPU, and no negative limit), and exactly the normal forms are left unchanged |
| Spec.NormalizeIdempotent | backend/internal/challengeimport/importer.go:239-358 | normalising twice is normalising once |
| Spec.MetaFixed | backend/internal/challengecfg/status.go:15-53 | statuses and visibility agree after normalising, and exactly normal meta data is left unchanged |
| Spec.FlagFixed | backend/internal/game/service.go:95-138 | exactly trimmed flags with a known strategy, and a compiling pattern where it is one, are left unchanged |
| SpecPrint.RoundTrip | backend/internal/challengeimport/importer.go:360-501 | for every writable challenge in normal form and every order of its environment, reading the printed text gives back the challenge |
| SpecPrint.PrintedRead | backend/internal/challengeimport/importer.go:372-492 | reading the printed lines gives back every writable challenge, normal or not |
| SpecPrint.QuotedExact | backend/internal/challengeimport/importer.go:920-925 | a quoted value is read back exactly if it has no quote at its ends |
| SpecPrint.PlainPrintable | backend/internal/challengeimport/importer.go:920-958 | text without newline, double quote and single quote at an end is printable |
| SpecPrint.FieldSplit | backend/internal/challengeimport/importer.go:908-918 | a printed key and value are split again |
| SpecPrint.ListRead | backend/internal/challengeimport/importer.go:399-416 | printed attachments are read back in order |
| SpecPrint.EnvRead | backend/internal/challengeimport/importer.go:466-475 | printed variables are read back whatever the order of their keys |
| SpecPrint.CommandRead | backend/internal/challengeimport/importer.go:456-465 | printed command items are read back in order |
| SpecPrint.TextScanned | backend/internal/challengeimport/importer.go:372-374 | lines of at most 65535 characters are delivered unchanged |
| SpecOrder.BlankLinesIgnored | backend/internal/challengeimport/importer.go:375-378 | a blank or comment-only line anywhere changes nothing, errors included |
| SpecOrder.CommentOnly | backend/internal/challengeimport/importer.go:375-378 | spaces, and spaces with a comment, are such lines |
| SpecOrder.CommentsIgnored | backend/internal/challengeimport/importer.go:375-383 | a comment after a line with closed quotes changes nothing, errors included |
| SpecOrder.ScalarsCommute | backend/internal/challengeimport/importer.go:752-891 | two accepted scalars of a section commute exactly unless they are the two spellings of the renewal limit and contradict each other |
| SpecOrder.RenewalSpellings | backend/internal/challengeimport/importer.go:854-883 | an example in which they do not commute |
| SpecOrder.ScalarOrder | backend/internal/challengeimport/importer.go:441-450 | any permutation of independent adjacent scalar lines is accepted alike |
| SpecOrder.UnitsExchange | backend/internal/challengeimport/importer.go:418-476 | a scalar and a nested block, or blocks of different kinds, or independent scalars of a section may be exchanged |
| SpecOrder.UnitOrder | backend/internal/challengeimport/importer.go:399-477 | any permutation of the scalars and nested blocks of a section, scalars on either side of a block, is accepted alike |
| SpecOrder.SectionsCommute | backend/internal/challengeimport/importer.go:385-397 | two sections of different names may be exchanged, from any challenge |
| SpecOrder.SectionOrder | backend/internal/challengeimport/importer.go:385-492 | any permutation of the sections of a text is accepted alike |
| Folding.AnyOrder | backend/internal/challengeimport/importer.go:372-493 | steps that commute pairwise give the same result in any order |
| Submissions.EvaluateExact | backend/internal/game/service.go:95-146 | a static flag fits if equal, a case-insensitive one if the trimmed texts differ in letter case only, a pattern if it matches; no kind means static; unknown kinds and patterns that do not compile cannot be judged |
| Submissions.InvRun | backend/internal/store/game_repository.go:150-194 | under every interleaving: one solve per user and challenge at most, each owed to a correct submission of that user for that challenge, and truthful reports add up to the score |
| Submissions.DistinctSubmissions | backend/migrations/0001_initial_schema.sql:115-123 | different solves are owed to different submissions |
| Submissions.RivalsLose | backend/internal/game/service.go:63-81 | of two requests credited for one solve one report is wrong |
| Submissions.LoserHasRival | backend/internal/store/game_repository.go:177-194 | a wrong report has a rival whose report is right |
| Submissions.ReportsExact | backend/internal/game/service.go:73-81 | in every run, the points reported to a user equal the score exactly if none of the user's requests was overtaken between its check and its insert |
| Submissions.WrongExactly | backend/internal/game/service.go:63-81 | a request that found its challenge unsolved is answered wrongly exactly if another request of the same user inserts the solve between its check and its insert |
| Submissions.OvertakenExact | backend/internal/game/service.go:63-81 | the wrong answers of a run are those of the requests overtaken |
| Submissions.SequentialReports | backend/internal/game/service.go:39-82 | if no user has two requests for one challenge open at once, the points reported to each user sum to the scoreboard score |
| Submissions.Race | backend/internal/game/service.go:63-81 | for every challenge and accepted flag two overlapping requests report the points twice and score them once |
| GameService.Store.ReportsSoFar | backend/internal/game/service.go:39-82 | at any time of the service, points reported equal the score exactly if none of the user's requests was overtaken in what happened so far |
| GameService.Store.AnswerWrong | backend/internal/game/service.go:63-81 | an answer of the service is wrong exactly if its request was overtaken in what happened so far |
| GameService.Store.SubmitFlag | backend/internal/game/service.go:39-82 | under every interleaving the answer is what the request's statements came to: the stored submission, its judgement, and a solved challenge after a correct flag; each refusal is explained, and failure is answered only after a failed statement; a flag is incorrect exactly if it does not fit, and the strategy is called invalid only if the challenge cannot be judged |
| GameService.Store.CreateSolve | backend/internal/store/game_repository.go:177-194 | afterwards the challenge is solved; the time is missing exactly if a solve was there already when the insert ran |
| Scoreboard.BeforeStrictTotal | backend/internal/store/game_repository.go:275-288 | score descending, last solve ascending with nulls last, id: a strict total order |
| Scoreboard.LastSolveExact | backend/internal/store/game_repository.go:275-288 | the last solve is the latest time of the user's solves, and missing exactly if there is none |
| Scoreboard.PointsDecide | backend/internal/store/game_repository.go:275-288 | more points give a smaller rank |
| Scoreboard.TimeDecides | backend/internal/store/game_repository.go:275-288 | of equal points, those ranks are smaller whose every solve is older than some solve of the other, or whose rival has none |
| Scoreboard.IdDecides | backend/internal/store/game_repository.go:275-288 | of equal points and equal last solves the smaller id has the smaller rank |
| Scoreboard.BoardUnique | backend/internal/store/game_repository.go:275-288 | only one listing of the same rows is in order |
| Scoreboard.ListScoreboard | backend/internal/store/game_repository.go:274-319 | every player once, in order |
| Scoreboard.PlaceIsRank | backend/internal/game/service.go:84-93 | the place in the listing is one more than the number of players ahead |
| Scoreboard.RankedScoreboard | backend/internal/game/service.go:84-93 | the loop writes ranks 1..n, and each is one more than the number of players ahead |
| Scoreboard.SolveMoves | backend/internal/store/game_repository.go:275-288 | one more solve worth points never worsens its user's rank, keeps the order of the others, and moves each down by at most one, exactly if overtaken |

## Left out

- Docker's HTTP interface and PostgreSQL: a set of containers and tables with the filters, orders and unique indexes of the statements; any call may fail.
- A statement or engine call that takes effect although an error is reported (a lost acknowledgement): a failed stop or statement leaves things as they were; only a container start may fail and leave its container.
- World.Platform.StopContainer: a successful stop makes the container vanish. Docker may still list a container for a moment while removing it, and it answers 304 for one that was created but never started and whose best-effort removal failed (backend/internal/runtime/docker.go:151-168, 192-201): that stop removes nothing, the listing shows the container again, and each pass reports it as removed once more. Convergence.PassConserves, Convergence.PassesSettle and Convergence.SettlesExactly rest on there being none such.
- World.Platform.RetireRow: offered only for rows whose container is gone, which every caller in the source ensures by stopping it first; the statement itself has no such guard.
- Challenge and runtime configuration changing during a run, and rows deleted by cascade; the theorems about submissions hold for any challenge each request read, the handler reads one catalog.
- A process that crashes within a request; a restart from any state that meets the invariants is covered.
- An administration service built without a container manager, which would terminate rows without stopping containers.
- InstanceService.Service.StartInstance: does not model slug resolution, access URLs, host addresses and container names, which are text over library URL parsing.
- GetInstance, ListChallenges and the audit log: single queries that change nothing modelled.
- RedisLimiting.RedisSlidingBound: expiry takes effect exactly at its time; a server that expires a key a moment late only denies more.
- FallbackLimiting.FallbackLimiter.Allow: other threads of the same process take their turn before or after it, not within; FallbackLimiting.FallbackSlidingBound covers every interleaving.
- The sockets, authentication and dialect of Redis, and its failures other than by place: before INCR, after it, or around PEXPIRE.
- SpecText.DurationRead: durations are whole seconds in hours, minutes and seconds; fractions and smaller units are refused by the model.
- Spec.FlagFixed: the regular-expression engine is a predicate on patterns; case folding and white space are those of ASCII.
- SpecReader.ParseSpec: error messages and line numbers; each error keeps its kind, and attachment errors their index.
- SpecReader.NormalizeSpec: works on a copy of the attachments, so it does not capture that the caller's slice is rewritten too.
- Import itself: attachment staging, ownership references, upserts, image building.
- Scoreboard.ListScoreboard: users, roles and names come from outside as the set of players; the per-player list of solves is a separate query and not modelled.
- A repeated use of one submission id by the solves table: it cannot happen, since each request records its own.
- submission_limiter.go repeats the in-memory limiter; store_memory.go is a plain map the services do not use.
- HTTP handlers, sessions, roles, contest phases, logging and metrics; of the background loop only the order of sweeps is used.
