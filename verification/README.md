# DirectorDeck: a verified model of the timeline backend

DirectorDeck drives ComfyUI to render long videos out of many short MiniMax H3 segments.
A project's draft is compiled to a timeline, a run of some of its segments becomes one
parent job with one child prompt per segment, and a reconciler turns what ComfyUI did into
durable results. This project models that backend and proves what it promises.

**The child protocol** (`PromptOwnership`, `ChildLedger`, `ChildProtocol`,
`ChildInvariants`, `PromptRuns`, `PromptProgress`). Every child is a durable row with a typed prompt
ownership and a certificate; a ComfyUI server that may delay the queue, lose responses,
mint another id, refuse, drop or restart; and any number of suspended actors, each holding
the stale snapshot it read before its last await. One event is one stretch between two
awaits. `PromptRuns` runs all children of a job together with the dispatcher, its failure
cleanup, crashes and server restarts, in every interleaving, and proves what can never go
wrong; `PromptProgress` proves what each actor can always achieve, and when it must not act.

**Absence and parents** (`AbsenceGates`, `OrderedOutputs`, `ParentLifecycle`, `ParentOutcomes`,
`JobRuns`). When absence from queue and history means removal; how outputs are matched to
the selected segments; and the race between reconciliation, assembly of the final movie and
cancellation, with the reason each job ends for.
`JobRuns` joins the parent with its children: a pass reads the real children, every
transaction that ends the parent closes them too, and the whole job runs in every
interleaving of both.

**The scheduler** (`ContinuityGraph`, `DescendantFailure`, `Dispatch`, `SubmissionTickets`).
The dependency graph of a plan and its cycle check, the worklist that fails dependents, the
lazy dispatch loop with its gates, and the chain of tickets that serialises jobs.

**The compiler** (`Drafts`, `ContinuityChains`, `RunPlans`, `H3Frames`, `Retiming`,
`CacheKeys`, `ReferenceSlots`, `RunnableDrafts`, `TimelineCompiler`). Frame alignment, the
retiming of source clips, authored continuity, the checks, the layout with its dense frame
map, the chained cache keys, and the plan of a run. `RunPlans` closes the loop with the
scheduler: every draft and selection yields a plan the graph check accepts and the
dispatcher runs.

**Two smaller algorithms** (`ShotCuts`, `LoaderConfig`): the greedy shot filter and the
fault-tolerant product configuration.

Where the code and its documentation or obvious reading differ, the model follows the code:

- The dispatch loop decides by unit order: a segment demanded before its own unit was
  visited counts as failed. `Dispatch.Doomed` says what the loop does for any order.
  "Dependency-failed exactly when some same-run ancestor gave no certified output" is true
  of a plan, whatever succeeds, if and only if no unit stands before the segment it
  continues (`Dispatch.OrderDecidesTheReading`). `Dispatch.EarlyContinuationIsDoomed` is the
  smallest plan of the other kind. The graph check accepts it, but the compiler never emits
  one: every compiled plan is in the good order (`RunPlans.EveryPlanIsLegal`).
- An independent reference video is compiled with its index moved behind the source video,
  a reference audio with its bare slot although a paired source audio precedes it; the tag
  numbers account for both (`ReferenceSlots.TagNamesExactlyOne`).
- A renamed prompt is recorded only if the clock has not moved backwards since the intent
  (`PromptProgress.RenamedPromptIsBound`).

## Assumptions

- Every conditional database update is atomic, and every write renews `updated_at` to a
  value not used before, so it identifies a row version.
- A prompt enters the queue at most once and leaves it into history, by removal or by loss
  of the server; queue to history is one step, and a finished prompt stays in history while the server lives.
- The server honours the requested prompt id, refuses the prompt, or its response arrives.
- ComfyUI runs in the backend's own process group: its restart also ends the dispatcher.
- Distinct children have distinct prompt ids; segment ids of a draft are unique.
- The cache digest is injective, durations and frame rates are exact numbers.

## Model

| member | source | states |
|---|---|---|
| PromptOwnership.Transition | backend/directordeck/workflow/execution.py:1598-1660 | An accepted ownership change moves along the allowed transitions, bumps the revision, keeps the requested id, fixes an actual id once, and carries a certificate exactly in the confirmed states |
| PromptOwnership.TransitionExactly | backend/directordeck/workflow/execution.py:1602-1690 | A transition is accepted exactly when it names the current revision, leads where it may, keeps a known id and certificate, does not go back in time and carries what its state requires; a stale revision is reported first |
| PromptOwnership.SuccessorsLeadThere | backend/directordeck/workflow/execution.py:1536-1588 | The transition table read by target: confirmed states never change, nothing is prepared or submitting again, only an answer makes a prompt owned and never the requested id after the actual one |
| ChildLedger.ReleaseExactly | backend/directordeck/database.py:6838-6979 | A release is written exactly when its evidence releases this record and proves this status; a row that ended differently and a segment's success are never written this way |
| ChildLedger.OutputReceiptExactly | backend/directordeck/database.py:6241-6348 | An output is recorded, and its row left to the probe, exactly for a successful history of an active row without one |
| ChildLedger.ReceiptExactly | backend/directordeck/database.py:5615-5690 | A response records the requested id as such and any other as the actual one, projected onto the row, exactly when revision, state and time allow |
| ChildInvariants.StepKeeps | backend/directordeck/app.py:4712-5063 | Every step of dispatcher, cancel, reconciler, recovery, websocket sink or server keeps the child invariant: ids and certificates are truthful, terminal rows are released, and stale snapshots stay usable |
| ChildInvariants.ClaimKeeps | backend/directordeck/app.py:4815-4834 | A cancel claim written from a stale snapshot, by any actor, keeps the invariant and takes nothing back |
| ChildInvariants.HistoryKeeps | backend/directordeck/app.py:3161-3370 | Applying an exact history found earlier keeps the invariant even if other actors moved the row since |
| ChildInvariants.NewTask | backend/directordeck/app.py:4567-4709 | A suspended actor created by a step holds a snapshot or target that is meaningful in the new state |
| ChildProtocol.TasksSurvive | backend/directordeck/app.py:2994-3017 | What a suspended actor knows survives every later step of the others |
| PromptRuns.NextKeeps | backend/directordeck/app.py:5909-6159 | Every move of a whole job, including cleanup, finalizer, crash and server restart, keeps the invariant of every child and of the cleanup's certainty |
| PromptRuns.NoOrphanedPrompt | backend/directordeck/app.py:4567-4709 | In every interleaving a terminal child has no prompt queued, running or in transit: never sent, refused, or released by a certificate of something that happened to that very prompt |
| PromptRuns.SuccessIsCertified | backend/directordeck/database.py:6349-6539 | A succeeded child has exact successful history, and a segment its output receipt |
| PromptRuns.TerminalIsAbsorbing | backend/directordeck/app.py:7889-7904 | No continuation of any run changes the status of a terminal child |
| PromptRuns.ReleaseIsAbsorbing | backend/directordeck/database.py:6838-6979 | Confirmed ownership and its certificate never change again in any run |
| PromptRuns.OnlyProofReleases | backend/directordeck/app.py:3334-3350 | Ownership is released only by an acknowledged directed cancel, exact history or a confirmed restart, and erased only by a pre-queue rejection; false answers, errors and absences never release it nor end the child |
| PromptProgress.RenamedPromptIsBound | backend/directordeck/app.py:6215-6347 | The id the server really minted is recorded exactly when the clock has not gone back since the intent |
| PromptProgress.ClaimSucceeds | backend/directordeck/app.py:4902-4950 | A user who lists a row outside a live submission, and cleanup or recovery once the POST is over, can always claim the cancellation of a live prompt; in the other cases the claim changes nothing |
| PromptProgress.ClaimNeedsOwnership | backend/directordeck/app.py:4618-4650 | An earlier claim is taken over as it is, whatever the clock says, and a claim the record cannot take changes nothing |
| PromptProgress.LateClaimLeavesProbe | backend/directordeck/app.py:4618-4650 | A cancel that comes while a successful output is being probed keeps the certificate, and the probe still decides |
| PromptProgress.DirectedCancelFinishes | backend/directordeck/app.py:8592-8815 | From any reachable ambiguous state, list, claim by a user, cleanup or recovery that may, directed cancel and settle end the child as cancelled with a cancel certificate |
| PromptProgress.UnconfirmedCancelIsKept | backend/directordeck/app.py:4957-5008 | A directed cancel that fails or answers false leaves the child active, its ownership unconfirmed and the error stage noted; a prompt that still lives can be cancelled again |
| PromptProgress.UserMarksSubmission | backend/directordeck/app.py:4902-4921 | A user who cancels during a live submission writes the cancelling mark and nothing else; from any other stage no mark is made |
| PromptProgress.MarkedSubmissionIsCancellable | backend/directordeck/app.py:4902-4921 | The mark survives the response, and the dispatcher then finds a prompt under its honoured id that it may cancel |
| PromptProgress.FinishedPromptIsSettled | backend/directordeck/app.py:3161-3370 | From any state earlier actors can leave, reconciling a finished prompt ends the child with exactly the status its history and output earn, for the owner once its POST is over and for anyone else outside owned stages; otherwise nothing is written |
| PromptProgress.UndisturbedChildFinishes | backend/directordeck/app.py:7790-7990 | When the server honours the requested id the child is shown queued, then running, and reaches the end its prompt earns under a certificate of that history, whoever reconciles it |
| PromptProgress.RenamedChildIsCancelled | backend/directordeck/comfy.py:525-547 | A response naming another id is cancelled inline; acknowledged, the child ends cancelled under a cancel certificate for the minted id and nothing is left alive |
| PromptProgress.RenamedChildStaysOwned | backend/directordeck/app.py:8340-8365 | Unacknowledged, the renamed child stays active and owned under the minted id, open to a later directed cancel and, if the prompt still runs, to settlement by its history |
| PromptProgress.RejectionErasesIntent | backend/directordeck/database.py:5430-5508 | A rejection erases the intent and fails the child exactly while nobody has touched it; otherwise ownership stays for cleanup |
| PromptProgress.LostReplyStaysCancellable | backend/directordeck/app.py:8292-8365 | After a lost response cleanup and recovery can cancel the prompt under the id it was asked for |
| PromptProgress.StaleListingIsInert | backend/directordeck/database.py:7229-7303 | A row written since it was listed is not overwritten from the listing |
| PromptProgress.UnsubmittedIsClosed | backend/directordeck/app.py:3710-3758 | A child is closed from a listing exactly while it has no prompt id and has not ended |
| PromptProgress.DependentFailsUnsubmitted | backend/directordeck/database.py:7305-7347 | A dependent is failed exactly while it is preparing without a prompt id, and only at the listed version |
| PromptProgress.ProgressShowsRunning | backend/directordeck/app.py:8903-8990 | Progress shows a queued, running or submitting child as running, never revives one that is being cancelled or has ended, and never touches ownership |
| PromptProgress.PlacementIsShown | backend/directordeck/app.py:3303-3330 | What the queue shows is written from a fresh listing unless a process owns the row |
| PromptProgress.EndedChildIsLeftAlone | backend/directordeck/app.py:7889-7904 | Nobody who lists an ended child, or acts without listing it, writes anything; only a settlement already under way is outside this |
| PromptProgress.AbsenceOnlyDoubts | backend/directordeck/app.py:3331-3347 | An absence makes the ownership unconfirmed for whoever may settle it, leaves the row, and a live prompt can still be cancelled |
| PromptProgress.InterruptionIsMarked | backend/directordeck/app.py:6162-6213 | An interrupted dispatcher leaves each submitted active child cancelling and changes nothing else of it |
| PromptProgress.StartupTakesOver | backend/directordeck/database.py:7722-7801 | Startup hands every owned active child to restart recovery, cancels the unowned ones and leaves ended ones alone |
| PromptProgress.LostBootIsReleased | backend/directordeck/database.py:2130-2443 | A prompt of a lost boot is marked unconfirmed and a confirmed restart ends its child under a restart certificate for its id |
| PromptProgress.RestartedChildEnds | backend/directordeck/database.py:2130-2443 | From every reachable state of a job, a server restart followed by startup, a confirmed restart and the output probe ends every child with nothing left in ComfyUI |
| PromptProgress.CleanupTargetsSubmitted | backend/directordeck/app.py:5909-6159 | A cleanup begins between two POSTs and has to check exactly the submitted children that have not ended |
| PromptProgress.CertainCleanupFinishes | backend/directordeck/app.py:5909-6159 | A cleanup that released all its targets can check them off and finalize, which ends every child |
| PromptProgress.UncertainCleanupNeverFinalizes | backend/directordeck/app.py:5909-6159 | One unreleased target keeps the cleanup from ever finalizing |
| AbsenceGates.AbsenceIsSound | backend/directordeck/app.py:5660-5727 | After the POST returned, any of the three readers that concludes removal is right, against every interleaving of the server |
| AbsenceGates.RemovalIsRecognised | backend/directordeck/app.py:5660-5727 | Each reader recognises a removed prompt after exactly the requests it insists on, and not with one less |
| AbsenceGates.DoubtStartsAgain | backend/directordeck/app.py:5660-5727 | A visible prompt, a failed request and an ownership mark make every reader start again |
| AbsenceGates.OneAbsenceIsNotEnough | backend/directordeck/app.py:5546-5547 | One history-then-queue absence alone would misread a prompt moving between them |
| AbsenceGates.InTransitDefeatsEveryReader | backend/directordeck/app.py:3132-3139 | Before the POST returned every reader can be made to conclude removal of a prompt that is then queued |
| OrderedOutputs.OrderedTimelineOutputs | backend/directordeck/app.py:3512-3576 | Succeeds exactly when the children's outputs match the requested segments one to one, and then returns them in timeline order |
| OrderedOutputs.MatchIsUnique | backend/directordeck/app.py:3512-3576 | At most one output list is a complete match |
| OrderedOutputs.ChildOrderIrrelevant | backend/directordeck/app.py:3512-3576 | Reordering the children never changes whether or how the outputs match |
| OrderedOutputs.CompleteIsOneToOne | backend/directordeck/app.py:3512-3576 | In a complete match each requested segment's entry is published exactly once |
| OrderedOutputs.MatchIsPublished | backend/directordeck/app.py:3512-3576 | In a complete match every requested segment's output is some child's own: the file of a typed child's artifact under its expected node, or a legacy output whose node belongs to the segment; and no child publishes anything else |
| ParentLifecycle.VerdictMeaning | backend/directordeck/app.py:3780-3948 | A pass publishes a terminal parent only when all children are terminal; success and assembly claims only when all succeeded and the outputs match completely |
| ParentLifecycle.VerdictExactly | backend/directordeck/app.py:3780-4056 | A pass publishes cancelled, failed and succeeded, and claims an assembly, exactly under the stated conditions on members, causes, cancel bit and status |
| ParentLifecycle.ReasonExactly | backend/directordeck/app.py:3780-4027 | The reason and the outputs published with each terminal verdict, exactly |
| ParentLifecycle.ShownExactly | backend/directordeck/app.py:4208-4245 | What a pass shows of a parent that goes on, exactly |
| ParentLifecycle.SiblingsExactly | backend/directordeck/app.py:3710-3758 | A failed or cancelled control closes exactly the unbound siblings that have not ended, as cancelled only on an explicit cancel by the director |
| ParentOutcomes.ReasonsAreTrue | backend/directordeck/app.py:3780-4198 | In every run the status of an ended parent fits its reason, and what the reason says of the children is true of them for good |
| ParentOutcomes.OnlyAskedOrRemovedIsCancelled | backend/directordeck/app.py:3904-3940 | In a run in which nobody asked to cancel, a job ends cancelled only if ComfyUI removed every segment |
| ParentLifecycle.ParentSuccessIsComplete | backend/directordeck/app.py:3780-3948 | In every run a succeeded parent has only succeeded children and outputs matching the selected enabled segments one to one |
| ParentLifecycle.PassEndsLast | backend/directordeck/app.py:3780-3806 | The reconciler ends a parent only after every child has ended |
| ParentLifecycle.SuccessExactly | backend/directordeck/app.py:3942-4027 | A segments-only job nobody cancels succeeds exactly when every child succeeded and a complete match exists |
| ParentLifecycle.AssemblyPublishesExactly | backend/directordeck/app.py:4182-4198 | Whatever the event, a movie is newly published exactly when an assembly that worked ends with its claim still current; it was then made of a complete match of succeeded children, and never after the cancel bit |
| ParentLifecycle.UndisturbedMovieIsDecided | backend/directordeck/app.py:3692-4271 | An undisturbed complete movie job that nobody assembles yet is claimed by one pass, left alone by later passes, and decided by its assembly |
| ParentOutcomes.LostAssemblyIsRetried | backend/directordeck/database.py:7803-7850 | An assembly cut off by a restart is claimed again by the next pass, under a version the lost assembly does not hold |
| ParentLifecycle.NoClaimAfterCancel | backend/directordeck/app.py:4029-4056 | Once the cancel bit is durable no step claims an assembly |
| ParentLifecycle.SuccessAfterCancelIsPreclick | backend/directordeck/app.py:4408-4508 | After the bit only the one no-assembly pre-click pass may newly publish success |
| ParentLifecycle.CancelWins | backend/directordeck/app.py:4408-4508 | Once that pass is used up no run turns the cancelled job into a success |
| ParentOutcomes.CancelledJobEnds | backend/directordeck/app.py:3904-3940 | Once every child of a cancelled job has ended without a failed control, the first pass that respects the request publishes the user's cancellation and no output |
| ParentLifecycle.OvertakenClaimIsInert | backend/directordeck/app.py:4182-4198 | An assembly whose claim the row has moved past changes nothing in any later state |
| ParentLifecycle.CancellationOvertakes | backend/directordeck/app.py:4182-4198 | Setting the bit or turning the parent cancelling moves the row past every claim |
| ParentLifecycle.TerminalParentIsAbsorbing | backend/directordeck/database.py:8129-8160 | No run changes the status or published outputs of a terminal parent |
| JobRuns.NextKeeps | backend/directordeck/app.py:3687-3948 | Every step of a whole job, by its children, its parent, a pass or a transaction that ends it, keeps the parent and its real children in agreement, and never ends the parent before its children |
| JobRuns.ChildrenAreReported | backend/directordeck/app.py:3700-3709 | A member that had not ended takes its own child's status and submission with the cause and output reported for it, an ended one stays, and the parent row is not written |
| JobRuns.TerminalParentHoldsNothing | backend/directordeck/database.py:7349-7416 | In every run of the whole job, once the parent is terminal every child is terminal and has no prompt queued, running or in transit |
| JobRuns.SuccessIsEarnedByAll | backend/directordeck/app.py:3780-3948 | In every run of the whole job, each child of a succeeded parent has exact successful history, and a segment its output receipt |
| JobRuns.ClosingEndsJob | backend/directordeck/database.py:7349-7416 | A submission whose cleanup was certain ends the parent cancelled with the cancel bit and failed without it, a failed admission ends it failed, a confirmed restart cancelled; every child that had not ended takes that same status, the others keep theirs, and nothing is left in ComfyUI |
| JobRuns.RestartKeeps | backend/directordeck/database.py:2130-2443 | A confirmed restart over children held for it keeps parent and children in agreement: each owned child is released, each other one cancelled, and the parent ends over ended children |
| JobRuns.CertifyingTakes | backend/directordeck/database.py:2130-2443 | A confirmed restart gives every owned active child a restart certificate for its own id and cancels every child that had not ended |
| JobRuns.FailAdmittedKeeps | backend/directordeck/app.py:7023-7064 | Failing an admitted job that owns no prompt keeps parent and children in agreement, and ends the parent over ended children |
| ContinuityGraph.ExecutionContinuityGraph | backend/directordeck/app.py:6838-6917 | Terminates on every plan, accepts exactly the well-formed acyclic ones, and returns the exact order-preserving inverse of the same-run predecessor map |
| ContinuityGraph.FindsCycleFrom | backend/directordeck/app.py:6903-6912 | Following predecessors with a seen set ends, and reports a cycle only if there is one and otherwise a finite walk |
| ContinuityGraph.IndexDependencies | backend/directordeck/app.py:6861-6902 | Without an error the map built is the predecessor map and its inverse in plan order |
| ContinuityGraph.SuccessorsInvertPredecessors | backend/directordeck/app.py:6914-6917 | A segment is listed under p exactly when p is its same-run predecessor |
| ContinuityGraph.EndingWalksAreAcyclic | backend/directordeck/app.py:6903-6912 | If every predecessor walk ends there is no cycle |
| DescendantFailure.FailContinuityDescendants | backend/directordeck/app.py:6982-7020 | On any graph, cyclic or not, the worklist ends with exactly the transitive dependents, having failed exactly the unsubmitted ones |
| DescendantFailure.ChildStore.FailDependency | backend/directordeck/database.py:7305-7347 | Only a provably unsubmitted child of a dispatching parent is failed; everything else is untouched |
| DescendantFailure.ClosedHoldsPath | backend/directordeck/app.py:6982-7020 | A set closed under dependents holds everything reachable, so the worklist forgets nothing |
| Dispatch.Dispatch | backend/directordeck/app.py:7645-7724 | Against any outcome, including a POST refused or lost, a failing gate and a parent found cancelling after the POST: a continuation is posted only after its predecessor settled certified, nothing overtakes a gate, a segment with a barrier directly follows the barrier's POST and release, no other barrier is posted, posts are an initial part of the admitted segments and only doomed ones are failed; if not stopped, exactly the admitted ones are posted and exactly the doomed ones dependency-failed; if stopped, the log ends with what happened there |
| Dispatch.VisitUnit | backend/directordeck/app.py:7645-7718 | One step of the lazy generator and its gate keeps the whole loop invariant, or stops, before the POST or after it, with everything posted so far in order and gated |
| Dispatch.PostSegment | backend/directordeck/app.py:8117-8212 | A segment something waits on is followed by nothing but its own settlement; a lost POST or gate breaks the loop off at once, an overtaken parent after the settlement |
| Dispatch.PassBarrier | backend/directordeck/app.py:8053-8096 | A barrier that fails is posted and stops the loop, one that releases is posted and released, one that is not planned leaves no event |
| Dispatch.FaithfulIsBarred | backend/directordeck/app.py:8053-8096 | A segment with a barrier stands directly behind the barrier's POST and release, and no barrier event occurs without a planned barrier |
| Dispatch.FailBelow | backend/directordeck/app.py:8174-8195 | Failing below an uncertified predecessor adds exactly its descendants and keeps the invariant |
| Dispatch.PostingIsRight | backend/directordeck/app.py:7656-7673 | A segment that reaches its POST has no unusable ancestor |
| Dispatch.DownstreamIsBelow | backend/directordeck/app.py:6982-7020 | Reachability over dependents is ancestry over predecessors |
| Dispatch.TopologicalOutcome | backend/directordeck/app.py:7724-7734 | In topological order a segment is dependency-failed exactly when some same-run ancestor gave no certified output |
| Dispatch.OrderDecidesTheReading | backend/directordeck/app.py:7645-7718 | That reading is true of a plan whatever succeeds if and only if no unit stands before the segment it continues |
| Dispatch.AdmittedOnce | backend/directordeck/app.py:7645-7718 | The admitted segments are distinct and are exactly those not doomed, so no segment is posted twice |
| Dispatch.EarlyContinuationIsDoomed | backend/directordeck/app.py:7656-7673 | The smallest plan in the other order, which the graph check accepts and no compilation emits: its continuation is failed though all would succeed |
| SubmissionTickets.TicketRegistry.AdmitJob | backend/directordeck/app.py:7159-7164 | Under the lock a job takes the tail as predecessor and becomes the tail |
| SubmissionTickets.TicketRegistry.SettleTicket | backend/directordeck/app.py:7174-7184 | Settling is idempotent, releases at once behind a done predecessor and otherwise leaves the release to it |
| SubmissionTickets.TicketRegistry.ReleaseTicket | backend/directordeck/app.py:7166-7172 | Completes the ticket and clears the registry only if it is still the tail |
| SubmissionTickets.StepKeeps | backend/directordeck/app.py:7155-7184 | Admission, entry, settlement and callbacks keep the chain invariant |
| SubmissionTickets.AdmissionWaitsForTail | backend/directordeck/app.py:7159-7164 | A job waits for the one admitted just before it exactly while something earlier is unfinished |
| SubmissionTickets.TurnComes | backend/directordeck/app.py:7355-7371 | A job whose earlier tickets are done may enter its loop, once |
| SubmissionTickets.SettlingReleasesInTurn | backend/directordeck/app.py:7174-7184 | A settled job's ticket completes at once exactly when every earlier one has, and no other ticket changes |
| SubmissionTickets.CallbackCompletes | backend/directordeck/app.py:7166-7184 | A settled ticket whose turn has come can be completed, and the registry then has no tail exactly when all are done |
| SubmissionTickets.TicketsCompleteInOrder | backend/directordeck/app.py:7155-7184 | In every run a done ticket, or a job in its loop, means every earlier ticket is done and out of its loop |
| SubmissionTickets.OneSubmitterAtATime | backend/directordeck/app.py:7355-7371 | At most one job is in its submit loop |
| SubmissionTickets.LoopsEnteredInAdmissionOrder | backend/directordeck/app.py:7355-7371 | Loops are entered in admission order, each at most once |
| SubmissionTickets.IdleTailMeansIdle | backend/directordeck/app.py:9755-9760 | The registry shows no unfinished tail exactly when every ticket is done |
| SubmissionTickets.EveryTicketCompletes | backend/directordeck/app.py:8400-8401 | Once all jobs settled, callbacks keep being ready until, after exactly as many as there were unfinished tickets, all are done |
| H3Frames.RoundingIsNearestEven | backend/directordeck/compiler.py:111-111 | Rounding is the only nearest integer, ties to even |
| H3Frames.RawFramesAreClosest | backend/directordeck/compiler.py:110-112 | The frames of a duration are, of all counts from five on, the closest to it |
| H3Frames.AlignmentIsLeast | backend/directordeck/compiler.py:110-118 | An accepted duration compiles to the least count congruent to 5 mod 17 not below five or the rounded duration; rejection happens exactly above 498 |
| H3Frames.AlignH3Frames | backend/directordeck/compiler.py:110-118 | Accepted counts lie in 5..498 and are 5 mod 17 |
| H3Frames.AlignmentIsMonotone | backend/directordeck/compiler.py:110-118 | A longer duration never compiles to fewer frames |
| H3Frames.AlignmentIsIdempotent | backend/directordeck/compiler.py:110-118 | Compiling an aligned clip's own duration gives its length back |
| H3Frames.SampleIsTwelveLonger | backend/directordeck/compiler.py:592-602 | With a documented overlap the sample is visible plus overlap plus 12, within the limit exactly when visible plus overlap is at most 500 |
| Retiming.TrimIsClosest | backend/directordeck/compiler.py:746-763 | The trim is the closest to the request the file admits: its length to the duration, its start to the requested start, its end to the requested end among those that leave something, ties to even |
| Retiming.TrimKeepsLength | backend/directordeck/compiler.py:746-763 | A requested range of at least a frame inside the file keeps its length to within one frame |
| Retiming.RoundDivIsRounding | backend/directordeck/compiler.py:787-789 | Integer half-even division is the rounding of the exact quotient |
| Retiming.SourceMapping | backend/directordeck/compiler.py:782-796 | The loop yields the rounded map, inside the trim, so its final clamp changes nothing |
| Retiming.FrameStaysInTrim | backend/directordeck/compiler.py:782-795 | The map stays in the trim and hits both ends when there is more than one output frame |
| Retiming.FrameIsClosest | backend/directordeck/compiler.py:782-795 | Each output frame shows the source frame closest to its exact place, the output spread evenly over the trim |
| Retiming.FrameIsMonotone | backend/directordeck/compiler.py:782-795 | The map never goes back |
| Retiming.NoFrameRepeats | backend/directordeck/compiler.py:782-795 | With at least as many source as output frames the map is strictly increasing |
| Retiming.RetimingCovers | backend/directordeck/compiler.py:782-795 | With at most as many source as output frames exactly the frames of the trim are shown |
| Retiming.EqualLengthsShift | backend/directordeck/compiler.py:782-795 | Equal lengths give the exact shift |
| ContinuityChains.UnifiedContinuityPredecessors | backend/directordeck/compiler.py:547-571 | Exactly the linked enabled segments get a predecessor, and it is the one enabled just before |
| ContinuityChains.AncestorIsEarlierNeighbour | backend/directordeck/compiler.py:547-571 | The n-th ancestor is the n-th enabled segment before, up to the start of the chain |
| ContinuityChains.ChainsAreDisjointPaths | backend/directordeck/compiler.py:547-571 | Authored predecessors have no cycle and no segment is continued twice |
| RunPlans.ResolveHistoricalTakes | backend/directordeck/app.py:6350-6440 | Resolves exactly the selected links whose predecessor is omitted, each by the take its own audio mode admits, and fails exactly when one has no such take |
| RunPlans.ProjectRoutes | backend/directordeck/workflow/v6_projection.py:406-459 | Every selected segment gets one unit, exactly one of unlinked, same-run or historical; any continuity keeps the plan in timeline order, and without it the anchored family comes first, each family in timeline order |
| RunPlans.EveryPlanIsLegal | backend/directordeck/app.py:6838-6917 | Every draft and selection yields a well-formed, acyclic, topologically ordered graph with at most one dependent per segment |
| RunPlans.FailureFollowsTheChain | backend/directordeck/app.py:7645-7718 | A selected segment is dependency-failed exactly when a segment its chain reaches back to inside the run gave no certified output |
| RunPlans.CompileRun | backend/directordeck/app.py:7204-7220 | From a draft to an accepted graph the only continuity failure is a missing take |
| CacheKeys.SameKeyMeansSameChain | backend/directordeck/compiler.py:799-832 | Two compilations give a segment the same key exactly when they agree on render and shared models and, link by link along its chain, on segment, family sampling, family model and linked successor |
| CacheKeys.EditInvalidatesExactly | backend/directordeck/compiler.py:943-976 | Editing one segment changes exactly its key, that of the neighbour it is or was linked to, and those of its downstream chain |
| CacheKeys.InsertionInvalidatesExactly | backend/directordeck/compiler.py:943-976 | Enabling a segment, or disabling it, changes exactly the key of the neighbour linked across it and those of the segments whose chain reaches back to it |
| CacheKeys.EnablingInserts | backend/directordeck/compiler.py:547-571 | Enabling a segment of a draft is such an insertion into its enabled timeline |
| ReferenceSlots.DenseMeansPermutation | backend/directordeck/compiler.py:513-544 | The sorted-slots check accepts exactly the permutations of 0..N-1 |
| ReferenceSlots.TagsAreDense | backend/directordeck/compiler.py:481-510 | The available tag numbers are exactly 1 up to the number of compiled inputs |
| ReferenceSlots.TagNamesExactlyOne | backend/directordeck/compiler.py:983-1002 | In a checked segment every available tag names exactly one compiled input; a video's is the one whose index is the tag minus one, the source at index 0 |
| ReferenceSlots.InputsExactly | backend/directordeck/compiler.py:983-1002 | What a segment is compiled from, exactly and in order: anchors first then last; a source video, or its audio only as a reference, before the numbered files |
| ReferenceSlots.TagMeaning | backend/directordeck/compiler.py:481-510 | Behind a leading source, which is number one, the references count on from two in slot order, otherwise from one |
| RunnableDrafts.ValidateUnifiedRunnable | backend/directordeck/compiler.py:605-730 | Accepts exactly the runnable drafts and selections and returns the enabled segments |
| RunnableDrafts.CheckContinuity | backend/directordeck/compiler.py:574-602 | Passes exactly when every selected continuation has a long enough predecessor and an admissible sample |
| RunnableDrafts.RunnableContinuation | backend/directordeck/compiler.py:583-602 | A runnable continuation samples visible plus overlap plus 12 frames, at most 512 |
| RunnableDrafts.ContinuityFitsExactly | backend/directordeck/compiler.py:574-602 | With a documented overlap a continuation fits exactly when both segments align, the predecessor is as long as the overlap and at most 500 frames are kept and re-read |
| RunnableDrafts.TagsAreInputs | backend/directordeck/compiler.py:665-677 | Tags are available exactly when each is numbered within the compiled inputs of its kind |
| RunnableDrafts.CheckSourceAudio | backend/directordeck/compiler.py:681-729 | Passes exactly when every source-audio segment has an audible source trimmed to the output length |
| TimelineCompiler.BuildUnifiedTimeline | backend/directordeck/compiler.py:835-1058 | Compiles exactly the runnable drafts with no explicit empty selection that align and fit 100000 frames, to contiguous spans in enabled order, clips covering their segment's span, chained keys and a dense map of exactly the total length |
| TimelineCompiler.SegmentIsAsDrafted | backend/directordeck/compiler.py:920-1027 | A compiled segment has its draft's id, the aligned length of its duration, a clip exactly if it has a source video, that clip the source file cut as requested and placed over the segment's span |
| TimelineCompiler.Measure | backend/directordeck/compiler.py:920-921 | Measures every enabled segment, and fails exactly when one does not align |
| TimelineCompiler.CompileSegment | backend/directordeck/compiler.py:920-1027 | One loop step gives the segment its aligned span, its chained key, its clip and its mapping |
| TimelineCompiler.LayOut | backend/directordeck/compiler.py:920-1029 | The loop leaves contiguous spans, clips numbered in segment order over their segment's span, and chained keys |
| TimelineCompiler.DenseMap | backend/directordeck/compiler.py:1043-1058 | The concatenated map has the timeline's length, so the internal assertion cannot fail, and each span holds its segment's own mapping |
| TimelineCompiler.MapShowsSegment | backend/directordeck/compiler.py:1043-1058 | Frame start plus k shows the k-th entry of the segment's mapping |
| TimelineCompiler.MapStaysInClips | backend/directordeck/compiler.py:1043-1058 | Every entry names an existing clip and a frame inside its file |
| TimelineCompiler.SourceAudioIsShifted | backend/directordeck/compiler.py:678-729 | Throughout a selected source-audio segment the map is the exact shift of its trim |
| TimelineCompiler.SpansAreDisjoint | backend/directordeck/compiler.py:920-1030 | Spans of different segments never overlap |
| ShotCuts.SceneFrames | backend/directordeck/media.py:676-682 | The frames are the distinct rounded non-negative times, in order |
| ShotCuts.FrameOfIsClosest | backend/directordeck/media.py:676-682 | The frame of a scene time is, of all frames, the closest |
| ShotCuts.KeepCuts | backend/directordeck/media.py:722-728 | The filter keeps an admissible choice, counts the rest as removed, and blocks every candidate it did not keep |
| ShotCuts.GreedyStaysAhead | backend/directordeck/media.py:722-728 | The i-th kept cut is never later than the i-th of any other admissible choice |
| ShotCuts.DetectShots | backend/directordeck/media.py:685-739 | Cuts run from 0 to the end with no shot below the minimum unless there is one, kept plus removed is all candidates, and no admissible choice keeps more |
| LoaderConfig.RuntimeSnapshot | backend/directordeck/config_manager.py:198-283 | Succeeds exactly when root, some loader and the fallback are usable; returns the first acceptable entries, satisfying every strict validator, with the first sixteen reports |
| LoaderConfig.KeepFirst | backend/directordeck/config_manager.py:223-237 | One filtering loop keeps exactly the first acceptable entry of each key, in order, and reports the others under the cap |
| LoaderConfig.FilteredIsStrict | backend/directordeck/config_manager.py:109-127 | What remains satisfies the strict validators, so rebuilding the snapshot cannot fail |
| LoaderConfig.StrictInputIsUnchanged | backend/directordeck/config_manager.py:273-283 | Strictly valid input comes back unchanged with no diagnostics |
| LoaderConfig.SilentMeansComplete | backend/directordeck/config_manager.py:217-221 | A load reports nothing exactly when it dropped nothing |
| LoaderConfig.FilteringIsIdempotent | backend/directordeck/config_manager.py:198-283 | Loading what a load published changes nothing |
| LoaderConfig.PolicyForIsFirstMatch | backend/directordeck/config_manager.py:331-335 | Lookup is the first matching policy in kept order, else the fallback |
| LoaderConfig.SelectionsResolve | backend/directordeck/config_manager.py:109-127 | Every published selection offers its default among distinct ids, each of a usable published loader; loaders and patterns are distinct |
| LoaderConfig.ReportsNameTheDropped | backend/directordeck/config_manager.py:217-271 | The reports name exactly the dropped loader entries, the dropped policy entries and a policy list that is none |
| LoaderConfig.ConfigManager.Initialize | backend/directordeck/config_manager.py:285-311 | Loads once: the same file returns the snapshot, another fails, and a failed load publishes nothing |
| LoaderConfig.ConfigManager.LoraLoaderPolicy | backend/directordeck/config_manager.py:323-335 | Returns the first match or the fallback, always a selection that resolves among the published loaders, and fails before initialisation |

## Left out

- Child and parent rows are values changed by events rather than objects: the protocol is a race between suspended actors, so a step is an event and an in-place row would hide the interleavings.
- JobRuns.TerminalParentHoldsNothing: a job's child rows are fixed from the start; barriers inserted later are in `ParentLifecycle` alone.
- HTTP routes, parsing, reason projection, redaction, media proxying, uploads, ffmpeg and catalog code: plumbing and I/O. Assembly is one step that succeeds, fails or is overtaken.
- Dispatch.Dispatch: what ComfyUI makes of each segment and barrier, and where the loop is interrupted, lost or overtaken, is fixed in advance as arbitrary sets. The races behind them are in `PromptRuns`.
- Rules of the Ray ledger and its epochs: only the gates are modelled, a barrier before a segment and the wait after a Ray segment.
- The endpoint lock: the tickets alone already admit one submitter at a time.
- PromptRuns.NoOrphanedPrompt: speaks of children with typed ownership; closing children without it is `AbsenceGates`.
- Liveness of the child protocol beyond what `PromptProgress` states: whether ComfyUI ever answers is not assumed.
- RunnableDrafts.ValidateUnifiedRunnable: states when a draft is accepted, not which of several failing checks is reported first.
- TimelineCompiler.BuildUnifiedTimeline: an explicit empty selection is an error here, where the code fails on it without a message of its own; presentation fields of a compiled segment (prompt, task label, export mode, run selection) are not modelled.
- The regular expression that finds tags in a prompt: a prompt carries its tags as a list.
- The legacy single-family builder (compiler.py:375-467): it maps frames by the same formula as `Retiming.FrameAt`.
- Loader options and display fields of the product configuration, and its single-branch option lookup.
- Shot sensitivities: they only choose an ffmpeg threshold.
- LoaderConfig.ConfigManager.Initialize: the lock is not modelled; calls are one after another.
