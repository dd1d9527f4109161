# VoteIT, modelled and proved

A Dafny model of the parts of VoteIT that hold real algorithms or state machines, with proofs of what
they keep. `dafny verify dfyconfig.toml` checks all of it.

## What is modelled

**Initial state over the websocket.** Collectors append messages to named sections; `Bundle.IterBundles`
packs the sections into numbered frames within a byte budget and splits oversized batches.
`Bundle` holds the nested loop as it is, proved equal to a greedy cut of one flat list of pieces
(`Partition`). `BundleRoundTrip` reads the frames as a client would and gets every section back;
`BundleProperties` bounds the frames and shows that no packing of the same pieces needs fewer;
`BundleFrames` says how full they are, and that an ordinary meeting is one frame.
`InitialState` builds the whole subscribe stream, and `CollectorRegistry` says which collectors run.

**The transaction batcher.** `Transaction` is a machine of nested atomic blocks, savepoints and Django's
list of commit hooks, with an independent history of what was asked for. `Connection` has the objects
(the connection, the batcher, the related-modified push), each method tied to a step of that machine.
`TransactionRuns` tells whole transactions by their events alone.
`Collapse` is the regrouping on commit.

**Subscriptions.** `Subscriptions` is the protocol between client, consumer, worker and channel-layer
groups; `Consumer` has the handlers and jobs.

**Polls, agenda items and meetings.** `Tally` counts, `Poll` is the life of a poll and its proposals, and
`Machines` joins the three machines.

**Roles.** `Roles` closes role assignments under requirements; `GroupRoles` and `InviteRoles` are the two
drivers; `BulkInvites` and `RowChecks` write invites and check the rows they come from.

**Dialects and texts.** `Dialects` resolves and merges; `Paragraphs`, `Diff` and `Text` cut texts and show
changes.

## Where the code does less than it says

Each of these is a lemma with the input, beside the exact condition under which the code does what is
promised.

- A rollback does not always drop what was put off under it, although `voteit/agenda/signals.py:94` says
  so: the hook keeps the savepoints of the moment it was *registered*. Rolling a savepoint back drops
  everything of a kind that waits exactly when nothing was waiting when the savepoint was opened
  (`Transaction.RollbackIsAllOrNothing`, `Transaction.PushOutlivesRollback`). The other direction holds
  always: nothing is lost.
- Regrouping can leave a client with another final state when an object is touched under two actions or
  through two targets in one transaction (`Collapse.TwoActionsOnOneObject`,
  `Collapse.TwoTargetsForOneObject`). The states are the same exactly when, for every object, the last post
  about it in the group opened last does the same to it as the last post about it of all
  (`Collapse.FoldsAgreeExactly`).
- A worker that dies between joining a group and announcing it, and a leave handler overtaken by a new
  subscription, leave a membership nobody knows of (`Subscriptions.StepExact`,
  `Subscriptions.CrashIsForgotten`, `Subscriptions.LateLeaveIsForgotten`; what a schedule has to avoid is in
  `Subscriptions.OrderlyNeverForgets`).
- Nothing is asked of a poll without an agenda item, so it could be started in a closed meeting
  (`Machines.StrayPollInClosedMeeting`, exactly then by `Machines.StrayExact`). Only direct writes make such
  polls: every request names the agenda item, and without them it does not happen (`Machines.RunIsHosted`).
- Removing roles looks one level up only, which is right exactly for hierarchies that are closed
  transitively (`Roles.RemoveKeepsClosed`, `Roles.RemovalLeavesOpen`). An addition leaves an empty row exactly when it names no role
  and creates the row (`Roles.AddExact`).
- Changing a group role straight to another through the API signals nothing, so the roles the new one
  brings are not given (`GroupRoles.SwitchIsNotSignalled`), unless the user holds them already
  (`GroupRoles.StepExact`).
- Bringing a user in line with an invite gives its roles, besides blocked ones that stay, exactly when these
  together have all they require (`InviteRoles.SyncExact`). The API takes other sets as well
  (`voteit/invites/rest_api/serializers.py:242`): the row can go in between, and a role that is both held and
  asked for can be lost (`InviteRoles.UnclosedLosesRole`).
- Roles that a group brings can be taken directly (`GroupRoles.TakenFromUnderGroup`); everyone stays covered
  exactly when no group of the user brings one that goes, or the user leaves every group with the last role
  (`GroupRoles.TakeExact`).
- Writing invites again brings the users of all that are given other roles in line, also of one that was
  rejected, or rejected and opened again (`BulkInvites.RejectedIsSynced`), where a change of a single invite
  asks for acceptance (`voteit/invites/models.py:335`). Only those who accepted are reached exactly when no
  used invite in another state is given other roles (`BulkInvites.SyncedHaveAccepted`).

## Model

| member | source | states |
|---|---|---|
| Partition.GreedyIsMaximalPartition | voteit/messaging/bundle.py:88-100 | a greedy cut loses nothing, reorders nothing, and each group is non-empty, fits, and could not have taken the next element |
| Partition.GreedyIsFewest | voteit/messaging/bundle.py:88-100 | for a limit that every stretch of a fitting group keeps, no cut into fitting groups has fewer of them |
| Bundle.SplitBatch | voteit/messaging/bundle.py:63-100 | the chunk loop yields the greedy cut of the items, and a message that cannot be split as it is |
| Bundle.Sized | voteit/messaging/bundle.py:103-114 | what is within the limit goes out whole with its size; a piece over it, whatever the limit, is a message that cannot be split or a batch of one item |
| Bundle.PiecesKeepLimit | voteit/messaging/bundle.py:103-114 | batches over the limit are split as far as they can be, and what is within it stays whole |
| Bundle.OverheadCountsBytes | voteit/messaging/bundle.py:59-60 | a section is charged for the bytes of its name, one for each character only in the ASCII range |
| Bundle.PackSection | voteit/messaging/bundle.py:170-202 | the inner loops pack exactly the greedy cut of the pieces so far, and end (pieces left, then whether the frame is non-empty) |
| Bundle.FillHead | voteit/messaging/bundle.py:175-186 | takes the longest run of pieces the frame can hold, and at least one into an empty frame |
| Bundle.IterBundles | voteit/messaging/bundle.py:117-205 | the frames are the greedy cut of the tokens of all sections, rendered; for any sections and budget |
| Bundle.SplitKeepsLimit | voteit/messaging/bundle.py:88-100 | parts of a split batch are non-empty, of the same class, reckoned one comma above their real size, and keep the limit when they hold two items or more |
| BundleProperties.FewestParts | voteit/messaging/bundle.py:88-100 | no split of the batch that keeps the limit has fewer parts |
| BundleProperties.FewestPieces | voteit/messaging/bundle.py:103-114 | no way of splitting the messages over the limit into parts that keep it has fewer parts in all |
| BundleProperties.FramesKeepLimit | voteit/messaging/bundle.py:109-113 | in a frame no batch of two or more items is larger than what a frame has for its section |
| BundleProperties.FrameKeepsBudget | voteit/messaging/bundle.py:155-205 | a frame with more than a lone first message keeps message sizes and section overheads, up to its last section with a message, within the usable budget |
| BundleProperties.FewestFrames | voteit/messaging/bundle.py:155-205 | no other packing of the same pieces in the same order within the budget has fewer frames |
| BundleFrames.FramesAreFull | voteit/messaging/bundle.py:170-202 | no frame is sent early: the first message of the next one, with what its section costs unless it goes on, would not have fitted, up to one comma for each message |
| BundleFrames.FrameKeepsWholeBudget | voteit/messaging/bundle.py:155-155 | wrapper and content of a frame keep the budget asked for, or the one configured, unless a lone first message is larger or the budget holds none |
| BundleFrames.OneFrameIsEnough | voteit/messaging/bundle.py:155-205 | sections that fit within the budget together go out in one frame, each of them whole |
| BundleProperties.FramesAreNumbered | voteit/messaging/bundle.py:156-205 | frames are numbered from 0 without gaps, addressed to the channel, and none is empty |
| BundleRoundTrip.RoundTrip | voteit/messaging/bundle.py:124-130 | a client reading the frames in order ends with every section complete, in order, with its name and failure flag, saying what its collector said |
| BundleRoundTrip.SplitKeepsStatements | voteit/messaging/bundle.py:63-73 | splitting a batch keeps its items in order |
| InitialState.AppState.Open | voteit/messaging/state.py:58-70 | opens an empty section, unless one is open already |
| InitialState.AppState.Append | voteit/messaging/state.py:77-82 | appends to the flat list and to the open section, and to nothing else |
| InitialState.AppState.AddBatch | voteit/messaging/state.py:84-93 | one batch for any number of payloads, nothing for none |
| InitialState.Collect | voteit/messaging/jobs.py:124-141 | a collector contributes one section with what it built before it raised, flagged if it did; only a lost transaction ends the rest |
| InitialState.Applicable | voteit/messaging/jobs.py:111-121 | a collector that raises when asked opts out, unless the transaction is lost |
| InitialState.TakenIsExact | voteit/messaging/jobs.py:187-191 | exactly the collectors that say so when asked contribute |
| InitialState.TakenInOrder | voteit/messaging/jobs.py:187-191 | and they keep their order |
| InitialState.BuildSubscription | voteit/messaging/jobs.py:144-208 | refusal is the single error; otherwise the announcement, the frames and the end, in that order |
| InitialState.StreamKeepsItsPromise | voteit/messaging/jobs.py:187-208 | the names announced are exactly those of the contributing collectors, and exactly the sections that then arrive, in that order |
| CollectorRegistry.Registry.Register | voteit/messaging/registry.py:43-52 | refuses exactly a second collector of the same name; keeps the first position |
| CollectorRegistry.Registry.CollectorsFor | voteit/messaging/registry.py:68-83 | the cached index always answers as a fresh search and sort would: exactly the collectors that name the channel, sorted |
| CollectorRegistry.BuildIndex | voteit/messaging/registry.py:76-82 | the index lists for every channel its collectors sorted by order and name |
| CollectorRegistry.ImportOrderDoesNotMatter | voteit/messaging/registry.py:68-73 | the list of a channel does not depend on the order of registration |
| CollectorRegistry.CollectorsAreExact | voteit/messaging/registry.py:76-82 | a channel has the collectors that name it, as often as they do, by their order and then their name |
| Collapse.CollapsePosts | voteit/messaging/utils.py:146-174 | groups by action and target in order of first post, batches groups of the threshold size that have a batch class |
| Collapse.BatchedExactly | voteit/messaging/utils.py:158-174 | a message is sent as it is when its group is below the threshold or has no batch class; otherwise the whole group is sent at once, in order |
| Collapse.GroupsInOrder | voteit/messaging/utils.py:146-157 | groups are sent in the order of their first post |
| Collapse.CollapseKeepsGroups | voteit/messaging/utils.py:118-134 | for every action and target exactly the posted messages arrive, in the posted order |
| Collapse.CollapseKeepsAll | voteit/messaging/utils.py:146-174 | the multiset of messages is kept |
| Collapse.SameLastTouch | voteit/messaging/utils.py:118-134 | the last word about an object stays the same if and only if it belongs to the group, among those about the object, that was opened last |
| Collapse.LastWordsStayExactly | voteit/messaging/utils.py:118-134 | regrouping keeps the last word about every object if and only if each belongs to the group, among those about it, that was opened last |
| Collapse.FoldsAgreeExactly | voteit/messaging/utils.py:146-174 | a client folding upserts and deletes ends in the same state as from the raw stream, whatever threshold and starting state, if and only if for every object the last post in the group opened last does the same to it as the last post of all |
| Collapse.CollapseKeepsMeaning | voteit/messaging/utils.py:146-174 | in particular when the last word about every object stays the last |
| Collapse.OneGroupIsEnough | voteit/messaging/utils.py:118-134 | and that is so when no object is touched under two actions or through two targets |
| Collapse.TwoActionsOnOneObject | voteit/messaging/utils.py:124-129 | an object changed, deleted and changed again ends up deleted at the client |
| Collapse.TwoTargetsForOneObject | voteit/messaging/utils.py:131-134 | an object posted through two targets can end up at an older version |
| Transaction.RunKeeps | voteit/messaging/utils.py:177-189 | over every run of blocks, savepoints, releases, rollbacks and publishes at most one hook of a kind waits, and it holds exactly what survives |
| Transaction.RunDelivers | voteit/messaging/utils.py:96-108 | over every run of transactions each surviving message arrives exactly once, in order within its action and target, and nothing else does |
| Transaction.RunPushes | voteit/agenda/signals.py:78-103 | every commit pushes exactly the surviving agenda items, in one push |
| TransactionRuns.CleanRunDelivers | voteit/messaging/utils.py:96-108 | over every run in which all blocks succeed, exactly the messages published arrive, in the order of publishing within their action and target |
| TransactionRuns.CleanRunPushes | voteit/agenda/signals.py:78-103 | and exactly the agenda items asked for are pushed |
| TransactionRuns.AbortSendsNothing | voteit/messaging/utils.py:177-189 | when the outermost block raises nothing put off in it is sent or pushed, whatever savepoints there were |
| TransactionRuns.RaiseDooms | voteit/messaging/utils.py:177-189 | an inner block that raises dooms the transaction when no block around or of it has a savepoint |
| TransactionRuns.DoomedSendsNothing | voteit/messaging/utils.py:177-189 | a doomed transaction sends nothing, whatever is done in it and however it ends |
| Transaction.NothingLost | voteit/messaging/utils.py:177-189 | an item none of whose savepoints was rolled back survives, whichever savepoint its hook was registered under |
| Transaction.CommitRuns | voteit/messaging/utils.py:142-144 | what a commit sends is the regrouping of the surviving messages, and nothing when there are none |
| Transaction.RollbackIsAllOrNothing | voteit/agenda/signals.py:93-103 | a rollback drops all that waits, or nothing: all exactly when nothing waited when the savepoint was opened |
| Transaction.OutlivesItsSavepoint | voteit/messaging/utils.py:177-189 | what is put off under a rolled-back savepoint is run when something of its kind was waiting before |
| Transaction.PushOutlivesRollback | voteit/agenda/signals.py:93-103 | an input: the push reaches an agenda item whose change was rolled back |
| Transaction.MessageOutlivesRollback | voteit/messaging/utils.py:96-108 | an input: a message is sent whose savepoint was rolled back |
| Connection.DatabaseConnection.GetOrCreateBatcher | voteit/messaging/utils.py:177-189 | finds the first batcher among the hooks, or registers a new one, or nothing outside of a block |
| Connection.DatabaseConnection.Publish | voteit/messaging/utils.py:96-108 | adds to the batcher inside of a block, sends at once outside or when asked to |
| Connection.DatabaseConnection.ScheduleRelatedModifiedPush | voteit/agenda/signals.py:93-103 | adds to the waiting push or registers a new one; at once outside of a block |
| Connection.DatabaseConnection.Invoke | voteit/messaging/utils.py:142-144 | running a hook does what its entry says |
| Subscriptions.StepExact | voteit/messaging/consumer.py:107-159 | a step keeps every membership known or about to be known if and only if it is not a death between joining and announcing, nor a late discard of a ref joined again |
| Subscriptions.RunExact | voteit/messaging/jobs.py:181-196 | a run keeps track of every membership throughout if and only if no step of it is one of those |
| Subscriptions.DisconnectLeavesAll | voteit/messaging/consumer.py:341-347 | with nothing in flight a disconnect leaves every group if and only if every membership is known |
| Subscriptions.OrderlyNeverForgets | voteit/messaging/consumer.py:153-159 | a run forgets no membership if no worker dies between joining and announcing and no subscription is granted while a leave handler for the same ref waits |
| Subscriptions.RunLeavesAll | voteit/messaging/consumer.py:341-347 | so after any such run a disconnect with nothing in flight leaves every group |
| Subscriptions.CrashIsForgotten | voteit/messaging/jobs.py:181-196 | a worker that dies after joining leaves a membership that survives the disconnect |
| Subscriptions.LateLeaveIsForgotten | voteit/messaging/consumer.py:153-159 | so does leaving and subscribing again while the leave handler waits |
| Subscriptions.SubscribeReaches | voteit/messaging/consumer.py:89-122 | subscribing ends with the ref joined and known if the channel is known and the user allowed; otherwise no group is joined |
| Subscriptions.RecheckIsQueued | voteit/messaging/consumer.py:174-182 | a recheck asked for is queued behind the other jobs for exactly the groups known, unless there are none |
| Subscriptions.LeaveReaches | voteit/messaging/consumer.py:154-159 | leaving ends with the ref neither joined nor known |
| Consumer.RecheckLeavesDenied | voteit/messaging/jobs.py:230-256 | a recheck leaves exactly the groups no longer allowed and tells the consumer of each, in order |
| Consumer.RecheckReaches | voteit/messaging/consumer.py:174-182 | with no other job waiting, handling, taking and running a recheck leaves exactly the known groups that are not allowed, and the consumer is told of each and of no other |
| Consumer.DeniedAreNotAllowed | voteit/messaging/jobs.py:235-246 | denied are exactly the listed refs that are not allowed |
| Consumer.Session.RunRecheck | voteit/messaging/jobs.py:230-256 | the loop of the job does what the steps of the machine do: it leaves exactly the listed groups that are not allowed |
| Consumer.Session.RunSubscribe | voteit/messaging/jobs.py:211-227 | joins, announces and streams; an error ends it after joining |
| Consumer.Session.Dispatch | voteit/messaging/consumer.py:107-145 | the event handlers add and discard refs; a recheck that is asked for is queued for exactly the groups the consumer knows of, unless there are none, and a forwarded event changes nothing |
| Consumer.Session.FinishLeave | voteit/messaging/consumer.py:153-159 | the second half of leaving discards the ref |
| Consumer.Session.Disconnect | voteit/messaging/consumer.py:341-347 | leaves the groups still known |
| Tally.CountVotes | voteit/poll/models.py:337-343 | every ballot handed in with the summed weight of its voters, abstentions apart |
| Tally.CountIsExact | voteit/poll/models.py:334-341 | every ballot handed in, and no other, counts what its voters weigh in the register together, and the abstentions likewise |
| Tally.OrderDoesNotMatter | voteit/poll/models.py:337-343 | the count does not depend on the order of the votes |
| Tally.NothingLost | voteit/poll/models.py:337-345 | ballots and abstentions together are the weight of everyone who voted |
| Tally.WithinTotal | voteit/poll/models.py:101-102 | with no negative weight they stay within the total weight of the register |
| Tally.InRegisterIsExact | voteit/poll/models.py:311-319 | the cleanup keeps exactly the votes of those in the register |
| Tally.DefaultIsUnused | voteit/poll/models.py:335-338 | after the cleanup the default weight does not matter |
| Poll.ClosingResolves | voteit/poll/statemachines.py:109-122 | the attempt at a result and the automatic transitions in their order come to an end decided by register, votes, method and flag alone |
| Poll.ClosingOutcome | voteit/poll/statemachines.py:207-219 | closing gives no result unless somebody in the register voted without abstaining; otherwise it fails exactly when the method does, on the votes of those in the register |
| Poll.EventsLead | voteit/poll/statemachines.py:42-98 | from which states each event leads where, and that nothing else moves a poll |
| Poll.VotePoll.Close | voteit/poll/statemachines.py:207-219 | closing ends without a result, failed, withheld or finished exactly by these, and never rests in between |
| Poll.VotePoll.TakeAutomaticTransition | voteit/poll/statemachines.py:109-122 | takes the first automatic transition whose conditions hold |
| Poll.VotePoll.FinalizeVoteData | voteit/poll/models.py:321-348 | refuses final ballots and a missing register, otherwise stores count, checksum and abstentions |
| Poll.VotePoll.CalculateResult | voteit/poll/models.py:350-364 | leaves the ballots final but no result when the method fails |
| Poll.VotePoll.CleanupRemovedVotes | voteit/poll/models.py:311-319 | removes the votes of those not in the register |
| Poll.VotePoll.SetProposalsFromResult | voteit/poll/models.py:382-393 | approves, denies or publishes each proposal, keeping those the machine refuses |
| Poll.VotePoll.SaveVote | voteit/poll/models.py:504-511 | only those in the register may vote; the vote saved is from then on the only one of its voter, without its ballot when it abstains; nobody else's vote changes, and a refused one changes nothing |
| Poll.SavedExact | voteit/poll/models.py:504-511 | in the machine too a saved vote is the only one of its voter and nobody else's changes; a refused one changes nothing |
| Poll.VotePoll.LockProposals | voteit/poll/models.py:366-372 | locks the published proposals |
| Poll.VotePoll.ReleaseProposals | voteit/poll/models.py:374-380 | publishes the locked proposals |
| Poll.VotePoll.PublishResult | voteit/poll/statemachines.py:79-86 | publishing applies the result and clears the flag |
| Poll.PollLifecycle | voteit/poll/statemachines.py:27-122 | over every run a poll never rests in closed, has ballots, checksum and result exactly when finished or withheld, and its flag agrees |
| Poll.ResultIsFinal | voteit/poll/models.py:188-189 | from then on ballots, checksum, abstentions and result never change |
| Poll.RetryStartsAfresh | voteit/poll/statemachines.py:221-226 | a failed attempt leaves no trace: closing again gives what closing then would have given |
| Poll.ResultAddsUp | voteit/poll/models.py:358-362 | vote count and abstentions of a result are the weight cast, all of it in the register, and within its total for weights that are not negative |
| Poll.NoneLeftVoting | voteit/poll/models.py:374-393 | entering finished or canceled leaves no proposal of the poll voting |
| Poll.DecidedAsVoted | voteit/poll/models.py:382-393 | which proposals end approved, denied and published, with the exceptions the proposal machine makes |
| Poll.FinishedAsVoted | voteit/poll/models.py:382-393 | however a poll comes to be finished, its proposals end as its result says |
| Poll.ProposalsFollow | voteit/poll/statemachines.py:200-230 | announcing or starting a poll locks exactly its open proposals, cancelling publishes exactly the locked, and nothing else but finishing touches them |
| Poll.ProposalMoves | voteit/proposal/statemachines.py:24-57 | from which states each event of a proposal is allowed, and where it leads |
| Poll.CancelUndoesStart | voteit/poll/statemachines.py:200-230 | starting leaves no proposal open and cancelling puts all back, if and only if none was locked before |
| Machines.OngoingPollsAreHosted | voteit/poll/statemachines.py:167-173 | over every run an ongoing poll of an item has the item ongoing and the meeting upcoming, ongoing, or about to be deleted from one of these |
| Machines.StepKeeps | voteit/meeting/statemachines.py:28-84 | every transition of the three machines, direct archiving, and creation and deletion keep that |
| Machines.AbortBringsBack | voteit/meeting/statemachines.py:145-150 | aborting a deletion brings the meeting back to its state before, whatever happened meanwhile |
| Machines.ClosingIsQuiet | voteit/agenda/statemachines.py:26-70 | a meeting closes without ongoing polls, an item starts in an ongoing meeting and stops without ongoing polls |
| Machines.MeetingMoves | voteit/meeting/statemachines.py:28-84 | an event brings the meeting into a state exactly when it is allowed and its conditions hold, and changes nothing else |
| Machines.ItemMoves | voteit/agenda/statemachines.py:26-70 | likewise for an agenda item, with what it asks of its polls and of the meeting |
| Machines.RowsComeAndGo | voteit/meeting/models.py:312-316 | archiving takes the whole agenda along, rows begin private, and an agenda item takes exactly its polls with it |
| Machines.StrayExact | voteit/poll/statemachines.py:167-169 | no poll at all is ongoing outside of such meetings, and a step breaks that if and only if it starts a poll without an agenda item there |
| Machines.RunIsHosted | voteit/poll/statemachines.py:167-173 | over every run in which polls are created on an agenda item no poll at all is ongoing in a closed, archiving or archived meeting |
| Machines.PollsMoveAlike | voteit/poll/statemachines.py:42-122 | the joint machine moves a poll exactly as the poll's own machine does, when item and meeting let it start |
| Machines.Meeting.Send | voteit/meeting/statemachines.py:112-150 | one event, with the state before a deletion remembered |
| Machines.Meeting.Archive | voteit/meeting/models.py:312-316 | archives the meeting and every agenda item, and nothing else |
| Roles.GetRequiredRoles | voteit/core/models.py:256-262 | the recursion ends for acyclic hierarchies and gives the least closed set with the roles |
| Roles.GetReverseRequiredRoles | voteit/core/models.py:264-271 | the roles and those that require one of them directly |
| Roles.AddIsLeast | voteit/core/models.py:229-239 | adding gives the least closed set with the old roles and the new |
| Roles.RemoveIsGreatest | voteit/core/models.py:241-254 | every closed set of old roles without the removed ones is part of what is left |
| Roles.RemovalIsExact | voteit/core/models.py:241-254 | a removal takes the roles named and those that require one of them directly, the row with the last role, and nothing from others |
| Roles.RemoveKeepsClosed | voteit/core/models.py:264-271 | what is left is closed, for all assignments and removals, if and only if the hierarchy is transitive |
| Roles.RemovalLeavesOpen | voteit/core/models.py:264-271 | an input: removing the last of three roles in a chain leaves the first without the second |
| Roles.RunExact | voteit/core/models.py:149-161 | over a run under a transitive hierarchy assignments stay closed and a row exists exactly while it holds a role, if and only if no addition creates a row without naming a role |
| Roles.AddExact | voteit/core/models.py:149-154 | an addition leaves no empty row behind if and only if it names a role or the row is there already |
| Roles.UserRoles.Add | voteit/core/models.py:229-239 | the new assignment, and the roles that are new, if any |
| Roles.UserRoles.Remove | voteit/core/models.py:241-254 | the new assignment, the roles removed, if any, and that the row goes with the last of them |
| Roles.RoleContext.AddRoles | voteit/core/models.py:149-154 | creates the row if need be and adds to it |
| Roles.RoleContext.RemoveRoles | voteit/core/models.py:156-161 | does nothing without a row |
| GroupRoles.RolesToRemove | voteit/meeting/signals.py:249-261 | the loop that stops early subtracts the union of the other memberships' roles |
| GroupRoles.OthersAreElsewhere | voteit/meeting/signals.py:255-257 | in whatever order the other memberships are listed, together they bring what the user's other groups bring |
| GroupRoles.HandleRevoked | voteit/meeting/signals.py:239-262 | the handler with its early returns and its loop takes exactly the roles that only this membership brings and those requiring one of them, in an active meeting, and nothing from anybody else |
| GroupRoles.RevokedTakesExactly | voteit/meeting/signals.py:239-262 | a role stays if and only if it was held and neither it nor one it requires is brought by this membership alone in an active meeting; nobody else is touched |
| GroupRoles.LeavingTakesExactly | voteit/meeting/signals.py:218-224 | leaving a group takes what a revocation takes |
| GroupRoles.GrantedGivesExactly | voteit/meeting/signals.py:222-236 | a role in a group gives its roles with all they require and takes nothing |
| GroupRoles.ExchangeIsExact | voteit/meeting/signals.py:222-262 | an exchange takes what only the old role brought and gives what the new one brings |
| GroupRoles.RevokeExact | voteit/meeting/signals.py:241-262 | a revocation leaves what the other groups bring if and only if none of that requires a role taken away |
| GroupRoles.TakeExact | voteit/meeting/signals.py:112-117 | taking roles directly keeps everyone covered if and only if no group of the user brings one that goes, or the user is left with none and so leaves every group |
| GroupRoles.StepExact | voteit/meeting/signals.py:208-262 | with closed group roles every change keeps everyone covered except an unsignalled switch and roles taken directly, each with its exact condition |
| GroupRoles.SwitchIsNotSignalled | voteit/meeting/rest_api/views.py:405-418 | an input: a role switched to another straight away does not give what the new one brings |
| GroupRoles.TakenFromUnderGroup | voteit/meeting/rest_api/views.py:225 | an input: a role a group brings is taken directly |
| GroupRoles.RunExact | voteit/meeting/signals.py:208-262 | over a run everyone holds what their groups bring throughout if and only if every step meets its condition |
| GroupRoles.RunKeeps | voteit/meeting/signals.py:208-262 | so over every run of signalled changes everyone holds what their remaining groups bring |
| InviteRoles.UpdateAssignedRoles | voteit/invites/models.py:100-121 | the loop over the invites, working from what users held when it began |
| InviteRoles.SyncExact | voteit/invites/models.py:100-121 | leaves the user with the invite's roles and the blocked ones that stay if and only if these together have all they require |
| InviteRoles.WantedMeans | voteit/invites/models.py:116-121 | of the roles held exactly those blocked stay besides the invite's whose requirements are blocked or of the invite too |
| InviteRoles.SyncGivesRoles | voteit/invites/models.py:100-121 | so it does when the invite's roles have all they require |
| InviteRoles.UnclosedLosesRole | voteit/invites/models.py:116-121 | an input: asked to discuss and propose without participating, a discussing participant loses discussing, and the row goes in between |
| InviteRoles.SyncKeepsMembership | voteit/meeting/roles.py:20-23 | where every role requires one base role the row stays between removals and additions if and only if that role is asked for or blocked |
| InviteRoles.SyncAllExact | voteit/invites/models.py:108-121 | for the invites of a call, all given the same roles, whoever used one or more of them ends up with these and the blocked ones that stay if and only if these have all they require, and nobody else is touched |
| InviteRoles.SyncAllGivesRoles | voteit/invites/models.py:108-121 | so they do when the roles given have all they require |
| InviteRoles.MeetingRolesAreWellMade | voteit/meeting/roles.py:14-23 | the meeting's hierarchy is transitive and based on the participant |
| InviteRoles.ResyncKeeps | voteit/invites/models.py:108-121 | a second invite of the same user in the call changes nothing more, although it works from the roles held before the first |
| InviteRoles.CreateOrUpdateMixed | voteit/invites/models.py:175-242 | after a bulk call the users of exactly the invites given other roles hold these and the blocked ones that stay, if and only if these have all they require, and nobody else is touched |
| BulkInvites.MeetingInvites.CreateOrUpdateMixed | voteit/invites/models.py:175-242 | fails exactly on partial invites and then writes nothing; otherwise updates, reopens and creates exactly what was asked for, leaves every other invite as it is, and reports |
| BulkInvites.MeetingInvites.UpdateRoles | voteit/invites/models.py:197-207 | an invite nobody asked for, or with the roles already, stays as it is; any other gets the roles and is open unless accepted, and keeps its key, recipient and user; these are counted, and those used are returned |
| BulkInvites.WritesExactly | voteit/invites/models.py:183-235 | an invite no item asks for stays as it is, any other only changes its roles and is opened unless accepted, and new ones are for the items none covers |
| BulkInvites.ReportIsExact | voteit/invites/models.py:236-242 | changed, existing and added are the invites asked for with other roles, with these roles, and the new ones |
| BulkInvites.PartialMeans | voteit/invites/models.py:161-173 | an invite is partial exactly when two types of user data are in use, it has all of no item, and it shares a registered value with one |
| BulkInvites.MeetingInvites.FindToAdd | voteit/invites/models.py:218-226 | the items no invite covers, each once |
| BulkInvites.EveryItemIsInvited | voteit/invites/models.py:215-235 | afterwards every item is part of an invite with the roles, open or accepted |
| BulkInvites.StaysValid | voteit/invites/models.py:304-311 | no two invites get equal user data |
| BulkInvites.ReportAddsUp | voteit/invites/models.py:236-242 | added, changed and existing together are as many as the keys reported |
| BulkInvites.SecondCallChangesNothing | voteit/invites/models.py:175-242 | a second call with the same input writes nothing and reports all as existing |
| BulkInvites.ToSyncIsExact | voteit/invites/models.py:108-121 | the users brought in line are those of the invites that match and have other roles |
| BulkInvites.SyncedHaveAccepted | voteit/invites/models.py:108-121 | only users of accepted invites are brought in line if and only if no used invite in another state is given other roles |
| BulkInvites.RejectedIsSynced | voteit/invites/models.py:108-121 | an input: an invite its user rejected, or rejected before it was opened again |
| RowChecks.CheckIntersections | voteit/invites/registries.py:152-177 | passes if and only if any two rows have equal user data or share no value; otherwise names the first row that does and a value |
| RowChecks.CheckConflictingRoles | voteit/invites/registries.py:179-228 | passes if and only if the recipient determines the roles; otherwise names two rows that disagree |
| RowChecks.CheckConflictingRows | voteit/invites/abcs.py:187-306 | passes if and only if rows writing the same record agree on every protected column; otherwise names two rows that do not |
| RowChecks.SameRecordIsSameKey | voteit/invites/abcs.py:270-276 | rows have one key exactly when they are for the same recipient and have all of the key columns filled in alike |
| RowChecks.FirstClash | voteit/invites/abcs.py:269-283 | finds the first row that disagrees with the first one of its key |
| RowChecks.CellIsNone | voteit/invites/abcs.py:23-49 | a cell is none exactly when it is missing, empty, zero or blank |
| RowChecks.CellIsTrimmed | voteit/invites/abcs.py:23-49 | any other cell is its words without the blanks around them, or its number |
| RowChecks.DataOfIsExact | voteit/invites/registries.py:290-293 | a row's user data are exactly the identifying columns filled in |
| Dialects.GetDependentDialects | voteit/meeting/dialects.py:97-116 | ends always; succeeds if and only if all that can be reached is registered and reached in one way; then lists it once each, every dialect before those it requires, level by level in the order they are required |
| Dialects.MergeDialects | voteit/meeting/dialects.py:123-142 | list fields are merged from the furthest dialect on, other fields taken from the nearest |
| Dialects.MergedListIsUnion | voteit/meeting/dialects.py:133-138 | a merged list has no duplicates and holds exactly the items of all dialects |
| Dialects.MergedInOrder | voteit/meeting/dialects.py:133-138 | what dialects further away have stays first and as it is; what a nearer one adds follows in its own order |
| Dialects.MergedFieldIsNearest | voteit/meeting/dialects.py:139-141 | any other field has the value of the first dialect from the root that sets it |
| Dialects.GetMergedHandler | voteit/meeting/dialects.py:123-142 | resolving and merging together |
| Paragraphs.GetParagraphs | voteit/proposal/models.py:250-267 | the flag-driven loop cuts at blank lines and strips every line |
| Paragraphs.BlankLineCuts | voteit/proposal/models.py:256-267 | the paragraphs before and after a blank line are the paragraphs of what is before and after it |
| Paragraphs.RunIsOneParagraph | voteit/proposal/models.py:256-267 | lines none of which is blank are one paragraph, of all of them stripped |
| Paragraphs.ParagraphsAreStable | voteit/proposal/models.py:250-267 | paragraphs joined by blank lines are cut into the same paragraphs |
| Paragraphs.ParagraphsAreClean | voteit/proposal/models.py:209-221 | every line of a stored paragraph has something in it and nothing around it |
| Paragraphs.CheckBulletList | voteit/proposal/diff.py:66-70 | finds a bulleted line; fails exactly when a blank line comes before any |
| Paragraphs.NoBlankLineInParagraph | voteit/proposal/diff.py:66-70 | so it never fails on a stored paragraph |
| Text.SplitOfJoin | voteit/proposal/models.py:250-256 | joining lines and splitting the text again gives the lines |
| Text.SplitAtEnd | voteit/proposal/models.py:256-257 | a line ends at the first character that ends one, a carriage return and a newline together being one end |
| Text.StripTakesBlanks | voteit/proposal/models.py:257-258 | stripping takes blanks from both ends and nothing else |
| Text.StripOfPadded | voteit/proposal/models.py:257-258 | and takes all of them |
| Diff.GroupsAreFaithful | voteit/proposal/diff.py:90-105 | the groups without insertions are the original, those without deletions the changed text |
| Diff.ShownIsText | voteit/proposal/diff.py:83-88 | joining group by group reads as the text joined at once |
| Diff.BriefShowsChanges | voteit/proposal/diff.py:19-28 | the brief form keeps every change and cuts an unchanged group to a beginning and an end around one filler, at most twice the cap and one |
| Diff.BriefIsExact | voteit/proposal/diff.py:19-28 | an unchanged group is cut at more than eight words or two lines, or twice that and one between two changes, to four words or one line next to each change |
| Diff.Changes.DoCompare | voteit/proposal/diff.py:97-108 | the groups of all opcodes, exactly the first marked as first and the last as last |
| Diff.OpcodeShowsAs | voteit/proposal/diff.py:97-105 | every opcode shows as what it is, right after those before it; what is replaced as a deletion and then an insertion |
| Diff.OneGroupEach | voteit/proposal/diff.py:97-105 | and as nothing else: one group each, and one more for what is replaced |
| Diff.Changes.Shown | voteit/proposal/diff.py:83-88 | in full and without deletions the texts joined are the changed text; briefly every change is shown in full and an unchanged group in full or exactly cut around one filler |

## Left out

- The Django ORM, SQL, serializers, audit log and admin: rows are values in maps and sequences, uniqueness constraints are invariants or consequences.
- Redis, RQ, chanx and ASGI: what is kept is first-in-first-out delivery, group membership and one worker at a time per consumer; with several workers on one consumer's jobs at once the subscription results do not apply.
- Permissions and validators: an arbitrary boolean per step.
- JSON bytes: `Bundle` takes the size of an indivisible message and of an item as given. The packer itself does not reckon the commas between messages and between sections, so the bound is on message sizes and section overheads.
- Writes past the machines (admin edits, raw saves): a poll's flag to withhold its result is set when it is created, its agenda item and an item's meeting never change.
- Poll methods and register policies: a method is any function from a count that may fail, a policy puts any register in place.
- SHA-512: a checksum is the ballot data it was taken from.
- Django's atomic blocks and its list of commit hooks are not in this repository: `Transaction` states what the framework documents, each hook keeping the savepoints active when it was registered and a rollback dropping those that keep the savepoint.
- Savepoint operations that fail in the database, and connections closed inside a transaction.
- Database errors while hooks run after a commit: each hook is taken to finish.
- Meetings of other organisations: channel names and group names are one to one for integer keys.
- The nested loop that packs frames is three methods here, one for each level; the library sort is an insertion sort; the two loops of the row checks that remember the first value of a key are one method.
- The update of a poll's proposals and votes by other users between its events is any change of one proposal the proposal machine allows, and any saved vote.
- The text of markup and of tags stripped from a proposal: `Diff` works on the parts.
- The sequence matcher: its documented contract, contiguous opcodes none of which is empty, is a precondition.
- Import and export, OAuth, user merging, terms of service, HTML cleaning, image checks, registries of outgoing messages and channels: library calls or single branches.
