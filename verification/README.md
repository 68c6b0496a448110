# A model of the server's keys, schedulers, memberships, caches and codecs

This project models the parts of the notification server where the order of steps, a carry, an
eviction or an overlapping worker decides whether the result is right, and proves what those parts are for.
`dafny verify dfyconfig.toml` checks all of it.

- **Sort keys** (`LexOrder`, `Base62`, `IntegerPart`, `Midpoint`, `Fracdex`, `KeyRuns`, `SortKeys`): fractional
  index keys over base 62. Integer parts are numbered by an order isomorphism, so carries and borrows across
  changing lengths are plus and minus one; on top of that stand `KeyBetween`, `NKeysBetween`, the append for a
  new channel and the migration of old rows.
- **Automation** (`Escalation`, `EscalationBounds`, `EscalationRepeats`, `EscalationDelivery`, `EscalationAcks`, `Lease`,
  `ScheduleTime`, `ScheduleRuns`, `ScheduleProgress`, `Delivery`, `DeliveryRuns`, `DeliveryPolicies`, `DigestPasses`,
  `DigestSummaries`): every SQL statement is one atomic step on shared tables. Workers hold copies that may be stale and
  may crash between any two steps. Depth, volume and repeats of escalation, mutual exclusion of leases, at-most-once
  delivery per key, the next run of a schedule and when it ends, an account in which every copy of a message is in
  exactly one place, the one its user's policies name, and exactly what overlapping digest passes lose.
- **Channel membership** (`Membership`, `Channels`, `ChannelTables`, `Reconciliation`, `OverlappingSyncs`): the
  reconciliation of manual, automatic and group access, what every operation changes in the tables, exactly, and
  reconciliations that overlap.
- **Caches** (`DecayMap`, `RateLimit`, `Replay`): each one trims its memory, and each is compared with a map that
  never forgets. It is shown exactly when trimming cannot be observed.
- **Codecs** (`Bytes`, `LdapBer`, `LdapFilter`, `LdapSpace`, `LdapRoundTrip`, `LdapEscape`, `LdapTemplate`, `Mqtt`,
  `MqttQos2`): the BER subset and filter language of the LDAP client (sections 8.1.3 and 8.3 of X.690, section 4.5.1 of RFC 4511,
  section 3 of RFC 4515), and MQTT framing with the QoS 2 receiver (sections 1.5.5, 3.3 and 4.3.3 of MQTT 5.0).
- **Stream registry** (`StreamRegistry`, `StreamRuns`): one-shot closing of WebSocket clients, in-place deletion from
  their lists, and all interleavings of the two.

`Common`, `Lists` and `Counting` hold what several modules share. Code that changes state step by step is a class or
a method with loops, proved equal to a specification function; the properties are lemmas about that function and
about runs of it.

Where the code and its own description differ, the model follows the code:

- `KeyBetween` says that it returns a valid key. Below the successor of `smallestInt` it returns `smallestInt`, which
  its own validation rejects (`Fracdex.KeyBetweenClosed`, an exact condition).
- The filter parser copies value bytes as they are. Section 3 of RFC 4515 would have it undo the escapes that
  `escapeFilter` writes, so a directory sees an escaped name unless the name has no special byte
  (`LdapTemplate.DefaultTemplateSends`, exact).
- The dynamic limiter trims by the window of the call at hand. That is invisible exactly while no window exceeds twice
  the smallest plus one clock unit (`RateLimit.TrimmingIsInvisibleExactly`, for every capacity); the server calls it
  with one window. The two-generation map and the fixed-window limiter trim by their own fixed period and window.
- The group columns of a channel are what its groups grant after every reconciliation, not after every operation:
  exactly those operations break it that drop the row of a user whom a group still covers
  (`Reconciliation.StaysReconciledExactly`, with `EachCauseOccurs`). Reconciliations that overlap can leave them wrong
  too, for good: exactly when the last write of a row went by grants that have changed since, or a drop comes last
  (`OverlappingSyncs.ReconciledExactly`, with a run in `StaleWriteRestores`).
- A digest pass deletes by user what is there by then, not what it has read, and deletes also when its summary turns
  out to be stored. `DigestPasses.LostExactly` says over all runs which copies are deleted unsent. One engine without
  a failure is enough (`DigestPasses.OneEngineLoses`), as are one crash or two engines at once. A summary that is stored
  but never handed over is left by a crash or a failed look-up in between, and by nothing else
  (`DigestSummaries.UnsettledExactly`).
- A deduplication key is used twice exactly when its message is deleted and an engine with a copy of the occurrence
  stores it after that (`ScheduleRuns.StoredTwiceExactly`; `ScheduleRuns.KeyDeliveredTwice` is such a run).

## Model

| member | source | states |
|---|---|---|
| IntegerPart.IntOrder | fracdex/fracdex.go:174-193 | Byte order on integer parts, across lengths and both letter cases, is the order of the ranks that Value gives them; no integer part is a proper prefix of another |
| IntegerPart.ValueOnto | fracdex/fracdex.go:174-182 | Every rank of the interval is taken, so Value is an order isomorphism onto the interval |
| IntegerPart.EndsOfRange | fracdex/fracdex.go:214-286 | incrementInt gives the empty string exactly at the top of the interval, decrementInt exactly at its bottom |
| IntegerPart.SmallestIntIsMinimum | fracdex/fracdex.go:174-182 | smallestInt is the bottom of the interval |
| IntegerPart.IncrementIsSuccessor | fracdex/fracdex.go:214-248 | incrementInt is +1 on ranks through every carry, every change of length and the step from Z to a |
| IntegerPart.DecrementIsPredecessor | fracdex/fracdex.go:250-286 | decrementInt is -1 on ranks through every borrow, every change of length and the step from a to Z |
| IntegerPart.IncrementDecrementInverse | fracdex/fracdex.go:214-286 | incrementInt and decrementInt undo each other |
| IntegerPart.NothingBetween | fracdex/fracdex.go:214-248 | Nothing lies strictly between an integer part and its successor |
| IntegerPart.IncrementInPlace | fracdex/fracdex.go:222-231 | The digit loop leaves the digits and the carry that IncrementIsSuccessor counts as plus one |
| IntegerPart.IncrementInt | fracdex/fracdex.go:214-248 | incrementInt succeeds exactly on valid integer parts, with its two errors, and returns the successor |
| IntegerPart.DecrementInPlace | fracdex/fracdex.go:258-267 | The digit loop leaves the digits and the borrow that DecrementIsPredecessor counts as minus one |
| IntegerPart.DecrementInt | fracdex/fracdex.go:250-286 | decrementInt succeeds exactly on valid integer parts, with its two errors, and returns the predecessor |
| Midpoint.MidBetween | fracdex/fracdex.go:108-161 | midpoint lies strictly between any two fractions in order and does not end in 0 |
| Midpoint.MidLength | fracdex/fracdex.go:108-161 | A midpoint is at most one digit longer than the longer of its bounds |
| Midpoint.MidIsShortest | fracdex/fracdex.go:108-161 | Nothing strictly between two fractions is shorter than their midpoint, unless it ends in a zero |
| Midpoint.ScanPrefix | fracdex/fracdex.go:109-122 | The scan for the longest common prefix, the first string padded with 0 |
| Midpoint.MidpointOf | fracdex/fracdex.go:108-161 | midpoint, with its scan and recursion, computes the fraction MidBetween is about |
| Midpoint.MidCommonPrefix | fracdex/fracdex.go:109-129 | A common prefix passes through midpoint unchanged |
| Fracdex.KeyBetweenSucceeds | fracdex/fracdex.go:21-103 | KeyBetween succeeds exactly on valid bounds in order (its overflow and underflow errors cannot occur), with a key strictly between them |
| Fracdex.KeyBetweenClosed | fracdex/fracdex.go:21-103 | The result is itself a valid key except, exactly, below the successor of smallestInt, where it is smallestInt |
| Fracdex.BlockedBound | fracdex/fracdex.go:53-60 | The one bound at which the result is not a valid key, written out |
| Fracdex.IntegerKeyPreferred | fracdex/fracdex.go:21-103 | When a bare integer part fits between the bounds the result is a bare integer part, the nearest one to the closed bound |
| Fracdex.FirstKeyIsMiddle | fracdex/fracdex.go:36-41 | With both ends open the key is the integer part in the middle of the interval of ranks |
| KeyRuns.Reverse | fracdex/fracdex.go:408-413 | reverse mirrors the slice in place |
| KeyRuns.StepBelow | fracdex/fracdex.go:367-383 | Each key made below another uses up one of finitely many steps, unless the integer part is smallestInt |
| KeyRuns.KeysAbove | fracdex/fracdex.go:351-366 | The open-top loop returns n increasing valid keys above a |
| KeyRuns.KeysBelow | fracdex/fracdex.go:367-383 | The open-bottom loop succeeds exactly when there is room below b, and after the reversal returns n increasing keys |
| KeyRuns.NKeysBetween | fracdex/fracdex.go:340-406 | NKeysBetween succeeds exactly on good bounds with room, and returns n strictly increasing keys strictly between them |
| SortKeys.LastKey | database/application.go:41-46 | The query for a user's last key returns the greatest one |
| SortKeys.AppendedKeyIsLast | database/application.go:41-51 | A created or transferred channel gets a valid key that sorts after all the user's others; it fails exactly on an invalid last key |
| SortKeys.CountMissing | database/database.go:251-258 | The count that decides whether the migration runs |
| SortKeys.FillMissingSortKeys | database/database.go:251-282 | The migration cannot fail, changes only sort keys, and gives each user's channels, in their previous order, the keys of ranks 0, 1, 2 and so on, whatever other users have |
| Escalation.EscalationWouldCycle | automation/engine.go:347-363 | The walk up the parents, at most eight messages, answers whether the target channel is on the chain |
| Escalation.StepKeepsInv | automation/engine.go:646-734 | Every statement of publishing, queueing and escalating, by any worker on stale copies, every crash, every queueing cut short by a failed insert, every row passed over after a failure and every cleanup of the history keeps the invariant. That repeats do happen is EscalationRepeats.EveryRepeatIsSent |
| Escalation.RunKeepsInv | automation/engine.go:328-345 | The invariant holds after every run |
| Escalation.VisitsStable | automation/engine.go:354-362 | Messages stored later do not change what the cycle search answers for an old one |
| EscalationRepeats.EveryRepeatIsSent | automation/engine.go:711-729 | Over every run a completed row that no worker finished early has sent exactly its repeats, 0 to MaxRepeats when it repeats at all, each once |
| EscalationRepeats.RepeatsInOrder | automation/engine.go:709-718 | Over every run a repeat of a row is stored after all the repeats below it |
| EscalationRepeats.SavedRowIsOpenExactly | automation/engine.go:718-729 | A saved row stays open exactly while its next repeat is one the rule still sends |
| EscalationRepeats.WorkerSendsAllRepeats | automation/engine.go:646-734 | A worker that passes over an open row undisturbed completes it, having stored all the repeats that were left |
| EscalationRepeats.EscalationsFitTheirRules | automation/engine.go:328-345 | Over every run an escalated message is about a message of its rule's channel and priority, is as urgent as that, and goes to the rule's channel if it names one |
| EscalationRepeats.EveryRuleIsQueued | automation/engine.go:328-345 | Over every run, when a worker has queued its whole list for a message, every enabled rule for it has a row, unless it would send the message round |
| EscalationRepeats.NewMessagesAreQueued | automation/engine.go:711-712 | A published message and a first repeat of depth below five have their rules queued next; later repeats have none |
| EscalationRepeats.PassesEnd | automation/engine.go:646-734 | Every statement of a pass brings the worker nearer to its end |
| EscalationBounds.CyclesExactly | automation/engine.go:347-363 | A rule is kept back exactly when it is for a channel, and names none or one that the message or an ancestor of it is in |
| EscalationBounds.EveryRunDepth | automation/engine.go:646-734 | In every run no message is deeper than five, and following the parent exactly depth times reaches its root, a published message |
| EscalationBounds.EveryRunVolume | automation/engine.go:699-730 | In every run one source message causes at most (1 + m) * (R + ... + R^5) escalated messages, for R enabled rules repeating at most m times |
| EscalationBounds.EveryRunAvoidsLoops | automation/engine.go:347-363 | In every run a message escalated to a channel was never in that channel before, anywhere on its chain |
| EscalationBounds.EveryKeyStoredOnce | database/message.go:87-100 | In every run without message deletion each escalation's deduplication key is stored once, however workers overlap |
| EscalationBounds.EveryRuleQueuedOnce | database/automation.go:584-596 | In every run a rule is queued for a message at most once, though completed rows are cleaned up: nothing queues for an old message again |
| EscalationDelivery.EveryKeyDeliveredByOneWorker | automation/engine.go:202-248 | In every run without message deletion, with overlapping workers, crashes, failures and history cleanup, all deliveries under one escalation key come from one worker and reach each user at most once |
| EscalationDelivery.CoreIsEscalation | automation/engine.go:646-734 | Leaving its deliveries out, such a run is exactly the run of Escalation with the same statements, so its bounds hold here too |
| EscalationDelivery.EveryMessageIsDelivered | automation/engine.go:235-249 | In every run each stored message has reached its recipients once each and in order, up to those its worker is still to come to, unless a crash has cut it short; after that it reaches nobody |
| EscalationDelivery.DeliveryEnds | automation/engine.go:235-249 | Left alone, a worker hands its message to all remaining recipients in order and is then free again |
| EscalationAcks.EscalatedWasUnacknowledged | automation/engine.go:663-679 | In every run, with acknowledgements given and withdrawn at any time, a row is escalated only by a worker that since it came to the row found the message unacknowledged and after that its root |
| EscalationAcks.AcknowledgedIsNotEscalated | automation/engine.go:663-679 | So a message that is acknowledged all the time from when a worker comes to its row, or whose root is, is not escalated by that worker |
| EscalationAcks.FinishedWasAcknowledged | automation/engine.go:663-687 | In every run in which all reads succeed, a row is finished early only by a worker that, since it came to the row, found its message or its root acknowledged |
| EscalationAcks.AckIsHistory | database/automation.go:277-295 | A message counts as acknowledged exactly by those who acknowledged it and have not withdrawn since |
| EscalationAcks.AnybodyMayAcknowledge | database/automation.go:277-285 | Anybody may acknowledge a message or withdraw that, at any time, and it changes nothing else |
| EscalationAcks.ChecksComeOutRight | automation/engine.go:661-679 | Left alone, a worker's checks end in a go-ahead exactly if nobody has acknowledged the message or its root |
| EscalationAcks.CoreIsEscalation | automation/engine.go:646-734 | Leaving checks and acknowledgements out, such a run is exactly the run of Escalation with the same statements |
| EscalationBounds.ChainLevelBound | automation/engine.go:711-712 | Only first repeats have their own escalations queued, so one level has at most R times as many of them as the level before |
| EscalationBounds.LevelBound | automation/engine.go:699-730 | One level has at most R * (1 + m) messages per continuing message of the level before |
| Lease.LeaseTable.Update | database/automation.go:360-366 | The UPDATE writes the row exactly when the holder has it or it has expired, and says so |
| Lease.LeaseTable.Insert | database/automation.go:368-372 | The INSERT succeeds exactly when there is no row of the name |
| Lease.LeaseTable.TryAcquire | database/automation.go:360-373 | Run alone, an acquire fails exactly on a live lease of somebody else |
| Lease.LeaseTable.Release | database/automation.go:375-377 | A release deletes the row only of its holder |
| Lease.LiveLeaseStands | database/automation.go:360-373 | Under every interleaving of the two statements of any calls, a live unreleased lease keeps its row |
| Lease.MutualExclusion | automation/engine.go:820-851 | While a lease is unexpired and unreleased no other holder's acquire of the name succeeds |
| Lease.AtMostOneLiveHolder | database/automation.go:360-377 | Two leases of one name that are live at one moment belong to one holder |
| Lease.CallsFailForCause | database/automation.go:360-373 | In every run, whatever comes between its two statements, a call fails only when somebody else held an unexpired lease at its UPDATE or was granted the name before its INSERT |
| Lease.AloneIsExact | database/automation.go:360-377 | With nobody in between a call takes the lease exactly when nobody else holds a live one, and a release frees exactly the holder's |
| ScheduleTime.CandidateIsNext | automation/engine.go:502-539 | The candidate of an hourly, daily, weekly or single schedule is the least matching instant after now |
| ScheduleTime.FirstRunExists | automation/engine.go:541-550 | A recurring schedule has a first run on no excluded date |
| ScheduleTime.SlotCount | automation/engine.go:485-494 | Excluded dates hold at most 24 candidates each |
| ScheduleTime.SlotUsed | automation/engine.go:541-550 | Each attempt that hits an excluded date uses one of them up |
| ScheduleTime.NextScheduleRun | automation/engine.go:541-550 | Returns the least allowed instant after now, or nothing exactly when that instant breaks EndAt or MaxRuns, while 24 * excluded dates < 10000 |
| ScheduleTime.NextRunIsFirst | automation/engine.go:485-550 | The same in the schedule's own fields: the first run unless it is after EndAt or the runs are used up |
| ScheduleTime.RunsAreClockReadings | automation/engine.go:502-539 | A run is at the full minute, at the minute and hour of the schedule and on its weekday, read off a clock in its zone, fields out of range counting as the nearest in range |
| ScheduleTime.WeekdayIsCalendar | automation/engine.go:526-535 | Day 0 was a Thursday and the days of the week follow one another |
| ScheduleRuns.AdvanceIsLater | automation/engine.go:417-470 | Skipped, failed or completed, an occurrence is followed only by later ones |
| ScheduleRuns.OccurrencesIncrease | automation/engine.go:396-475 | Over any series of passes of one engine on its own row the scheduledFor values strictly increase, so it never reuses a key. A stale save of an overlapping engine can set a row back; then the keys decide, see StoredTwiceExactly |
| ScheduleRuns.RunSchedules | automation/engine.go:396-475 | A pass advances every due row by how its publishing went, passes over a row whose history entry could not be stored, and leaves the others; what advancing means is in ScheduleProgress |
| ScheduleProgress.RunsAreCounted | automation/engine.go:461-462 | Over any passes RunCount grows by exactly the completed runs, and the plan is otherwise unchanged |
| ScheduleProgress.MaxRunsIsKept | automation/engine.go:461-466 | Over any passes at most MaxRuns - RunCount runs complete, and when that many have the schedule has ended |
| ScheduleProgress.RecurringGoesOn | automation/engine.go:417-470 | After a completed or skipped occurrence a recurring schedule is next due at the first run of its plan later than that, as long as its end and its runs allow, and has ended otherwise |
| ScheduleProgress.FailureIsRetried | automation/engine.go:441-450 | A failed occurrence is due again from a minute later on, and not before |
| ScheduleProgress.MisfiresAreSkippedExactly | automation/engine.go:417-430 | An occurrence is dropped exactly when the schedule skips misfires and it is more than five minutes late |
| ScheduleProgress.PublishAlone | automation/engine.go:432-475 | Undisturbed, a published occurrence is stored under its key and delivered to every recipient in order unless the key is taken, and the row is treated as RunSchedules does |
| ScheduleRuns.AtMostOncePerMessage | automation/engine.go:202-248 | However engines overlap, crash or meet edited and deleted schedules and messages, all deliveries of one message come from one engine, once to each user |
| ScheduleRuns.StoredTwiceExactly | database/message.go:87-100 | In every run two messages are stored under one deduplication key if and only if the one stored first was deleted and an engine that still held a copy of the occurrence came to store it after that |
| ScheduleRuns.AtMostOncePerKey | automation/engine.go:432-440 | In every other run all deliveries of a key come from one engine, once to each user |
| ScheduleRuns.KeyDeliveredTwice | automation/engine.go:432-440 | Whatever the schedule, a run from the start in which two engines deliver one key to one user, the message being deleted in between |
| ScheduleRuns.KeysStay | database/message.go:87-100 | In every run a stored key keeps its message until that is deleted |
| Membership.Normalize | model/application_membership.go:51-58 | NormalizeChannelRole keeps the four assignable roles and makes every other text member |
| Membership.EffectiveRoleIsStrongest | model/application_membership.go:60-81 | The effective role is the strongest of the manual, automatic and group role, or member when there is none |
| Membership.RanksAreInOrder | model/application_membership.go:34-49 | From no role and unknown texts over read-only, member, publisher and manager to the owner |
| Membership.GrantedIsAccess | database/application_membership.go:306-320 | The nested loops grant exactly the covered users the highest-ranked role and the disjunction of the receive flags |
| Membership.GrantedOrderIndependent | database/application_membership.go:306-320 | Neither the order of assignments nor that of group members changes what is granted |
| Membership.OwnerAssignmentWouldDependOnOrder | model/application_membership.go:34-58 | Order would matter if a stored group role could be owner, which normalization rules out |
| Membership.Channel.Desired | database/application_membership.go:306-320 | The loops fill the desired map that GrantedIsAccess characterises |
| Membership.Channel.ReconcileRow | database/application_membership.go:329-354 | What becomes of one existing row: kept, changed or deleted |
| Membership.Channel.ReconcileExisting | database/application_membership.go:322-355 | The loop over the existing rows, in any order, striking off what it used |
| Membership.Channel.CreateMissing | database/application_membership.go:356-367 | The loop that creates the missing rows, in any map order |
| Membership.Channel.SyncGroupAssignments | database/application_membership.go:301-370 | The whole reconciliation computes Sync, every column of which the lemmas below characterise, and keeps the owner's row |
| Membership.Channel.Upsert | database/application_membership.go:111-119 | A manual role replaces the old one, clears auto-assignment and keeps the group columns |
| Membership.UpsertGrants | database/application_membership.go:111-119 | From then on the manual role counts unless a group gives a stronger one, the row is not auto-assigned, and what groups and the member set stays |
| Membership.Channel.TransferOwnership | database/application_membership.go:180-207 | The membership part: the new owner has a row that is not auto-assigned, an old row otherwise unchanged. Refusals are in Channels.ApplyKeepsInv, the new sort key is in SortKeys.AppendedKeyIsLast |
| Membership.Channel.AssignToAllUsers | database/application_membership.go:17-39 | Everybody but the owner gets a row, existing rows stay, in any order |
| Membership.Channel.SetAutoAssign | database/application_membership.go:239-254 | Switching on adds rows, switching off deletes exactly the auto-assigned ones |
| Membership.AutoAssignIsExact | database/application_membership.go:17-39 | Exactly the users without a row get one, as receiving members, exactly the auto-assigned rows go, and no other row changes |
| Membership.SyncAssignsExactlyTheCovered | database/application_membership.go:301-370 | After a reconciliation a row is group-assigned exactly when some assigned group has its user, with the right role and flag |
| Membership.SyncKeepsManualAccess | database/application_membership.go:328-355 | Role, auto flag and override never change; exactly the rows that only a lost group held vanish, exactly the newly covered appear |
| Membership.SyncHonoursOverride | database/application_membership.go:334-353 | A member's own notification choice survives |
| Membership.SyncReceiveColumn | database/application_membership.go:328-367 | Without a choice of the member's own a row with manual, automatic or owner's access keeps its receive flag, and any other row of a covered user receives exactly when some covering assignment does |
| Membership.SyncLeavesNoTrace | database/application_membership.go:343-354 | A row that stays when its group goes keeps nothing of it |
| Membership.SyncOtherRows | database/application_membership.go:342-367 | A row no group has to do with is unchanged, and a new row is held by groups alone |
| Membership.SyncIdempotent | database/application_membership.go:301-370 | Reconciling twice is reconciling once |
| Channels.ApplyKeepsInv | api/application_membership.go:213-323 | Each of seventeen operations on channels, members, groups and users keeps the invariant |
| Channels.OwnersAlwaysMembers | database/application_membership.go:168-254 | Over every sequence of operations a channel with an owner has a row for that owner, not auto-assigned |
| Channels.ReconcilingAgain | database/application_membership.go:287-299 | A second reconciliation changes nothing in the tables |
| ChannelTables.RowsChangeExactly | api/application_membership.go:213-323 | For each operation exactly who has a row of a channel after it, before any reconciliation |
| ChannelTables.ChangeKeepsOwn | database/application_membership.go:141-254 | A row that an operation leaves keeps role, auto flag and notifications, unless it is the one row the operation sets |
| ChannelTables.ChoiceIsTaken | database/application_membership.go:141-166 | A member's choice of notifications is taken over, and nobody else's row changes |
| ChannelTables.ChoiceIsKept | database/application_membership.go:141-166 | It stays so with every other operation and reconciliation that leaves the row |
| ChannelTables.AssignmentsChangeExactly | database/application_membership.go:268-285 | Exactly which group assignments of a channel there are after any operation |
| ChannelTables.GroupsChangeExactly | database/group.go:26-99 | Exactly which groups there are after any operation, and who is in them |
| ChannelTables.AppsChangeExactly | database/application.go:36-92 | Exactly which channels there are after any operation, and with which owner and auto-assignment |
| ChannelTables.UsersChangeExactly | database/user.go:79-152 | A user is created once and deleted exactly when asked for while owning no channel that others are in |
| Reconciliation.StaysReconciledExactly | api/application_membership.go:213-323 | Group columns being what the groups grant survives an operation exactly unless it drops the row of a user still covered: an accepted removal, auto-assign switched off over an auto-assigned row, or an ownerless channel refilled without the user |
| Reconciliation.SyncedIsReconciled | database/application_membership.go:301-370 | Whatever was there before, the channels that an operation reconciles have group columns that are what their groups grant |
| Reconciliation.EachCauseOccurs | api/application_membership.go:213-323 | Each of the three operations undoes a reconciliation in a state that is reached from empty tables |
| OverlappingSyncs.ReconciledExactly | database/application_membership.go:301-370 | Over every run of reconciliations that overlap each other and group changes, with reading and writing apart: a channel ends up unreconciled exactly when for some user the last write went by grants that have changed since, the row was removed after it although covered, or a covered user was never written |
| OverlappingSyncs.StaleWriteRestores | database/application_membership.go:301-370 | A run in which a user taken out of the group keeps the access, with every reconciliation complete |
| OverlappingSyncs.AloneIsSync | database/application_membership.go:301-370 | With nothing in between, reading and writing is the reconciliation of Membership |
| DecayMap.DecayMap.Set | decaymap/decaymap.go:48-68 | Set sweeps the outdated halves and moves the key to the half of the current generation |
| DecayMap.DecayMap.Pop | decaymap/decaymap.go:28-43 | Pop takes the key out of the half it is in |
| DecayMap.SetRefines | decaymap/decaymap.go:48-68 | Set keeps the two halves in step with the map that never forgets |
| DecayMap.PopRefines | api/oidc.go:570-576 | popPendingSession keeps them in step and answers as that map does under an exact time to live |
| DecayMap.RunRefines | decaymap/decaymap.go:28-68 | They are in step after every run with times that never run back |
| DecayMap.PopIsExact | api/oidc.go:570-576 | A pop succeeds exactly when the key was set less than one period ago and not popped since, with the session set last |
| DecayMap.StoredEntriesAreYoung | decaymap/decaymap.go:48-68 | In every run a key is in at most one half and nothing stored is two periods old at the latest Set |
| RateLimit.FixedWindowLimiter.Allow | security/ratelimit.go:36-67 | The answer, the retry and the new table of one call, trimming included, in any map order |
| RateLimit.DynamicLimiter.Allow | security/ratelimit.go:98-123 | The same with the caller's limit and window; calls without a limit leave the table alone |
| RateLimit.Prune | security/ratelimit.go:51-58 | The deletion loop, in any map order, keeps exactly the entries seen since the cutoff |
| RateLimit.TrimmingIsInvisible | security/ratelimit.go:51-58 | Every answer is the one given with no trimming, while no window exceeds twice the smallest plus one clock unit |
| RateLimit.TrimmingIsVisible | security/ratelimit.go:111-116 | For every wider spread of windows and every capacity, a run whose last call is let through with trimming and refused without |
| RateLimit.TrimmingIsInvisibleExactly | security/ratelimit.go:98-123 | For every capacity: all ordered runs with windows in a range answer as without trimming if and only if its top is at most twice its bottom plus one, or no window is positive |
| RateLimit.AdmissionBounds | security/ratelimit.go:36-67 | Of a key's calls in a window exactly the first limit are admitted, and at most 2 * limit - 1 in any interval of window length |
| RateLimit.RetryIsExact | security/ratelimit.go:59-67 | After a refusal the first call of the key at or after the window's end is admitted and none before; waiting for retry reaches that end |
| RateLimit.OnlyLimitedCallsCount | security/ratelimit.go:98-123 | Who is let through need not wait; calls without a limit are let through and leave no trace, the others are counted |
| RateLimit.OnlyIdleAreDropped | security/ratelimit.go:51-58 | A key is dropped only beyond the capacity and only when not seen for two windows; what is beyond the capacity after a counted call has been seen since |
| Replay.ReplayCache.Remember | security/replay.go:19-33 | Remember refuses exactly a live key; otherwise it stores the new expiry and, above the capacity, keeps exactly the live entries |
| Replay.AcceptedIsExact | security/replay.go:19-33 | A call is accepted exactly when every earlier accepted call of its key is at least its time to live ago |
| Replay.TableIsHistory | security/replay.go:23-32 | The table says of a key what the history of accepted calls says |
| Replay.CapacityIsInvisible | security/replay.go:27-31 | The capacity at which entries are trimmed changes no answer |
| Replay.OnlyExpiredAreDropped | security/replay.go:27-31 | Room is made only when it is needed, and only by dropping what has expired |
| Replay.MemoryIsBounded | security/replay.go:27-31 | Over every run, beyond the capacity there are only entries that were live when the last call was accepted |
| LdapBer.Fill | auth/ldap/client.go:49-51 | The loop that writes a number backwards into an eight-byte buffer leaves its big-endian octets |
| LdapBer.WriteLen | auth/ldap/client.go:47-54 | encLen gives the short form below 128 and otherwise the octet count and the big-endian octets that LengthRoundTrip reads back |
| LdapBer.Write | auth/ldap/client.go:55-58 | enc gives tag, length and the joined contents, the form that TlvRoundTrip reads back |
| LdapBer.WriteInt | auth/ldap/client.go:59-65 | encInt gives the octets IntRoundTrip is about, a zero octet in front of a leading bit that is set |
| LdapBer.IntValue | auth/ldap/client.go:94-94 | intValue gives the number of the octets modulo 2^64, read as signed; IntRoundTrip says when that is the number written |
| LdapBer.SignedIsTwosComplement | auth/ldap/client.go:94-94 | The sign is that of a 64-bit two's complement number |
| LdapBer.IntRoundTrip | auth/ldap/client.go:59-65 | The octets of a non-negative integer give it back, its sign bit is clear, and none is superfluous |
| LdapBer.NextLength | auth/ldap/client.go:69-76 | readLength consumes exactly the length and rejects the indefinite form and more than four octets |
| LdapBer.NextTlv | auth/ldap/client.go:77-83 | readTLV consumes exactly one item, with the errors for end of input, short values and more than 16 MiB |
| LdapBer.ReadChildren | auth/ldap/client.go:84-93 | children splits a body into its items or gives the first error |
| LdapBer.LengthRoundTrip | auth/ldap/client.go:47-76 | readLength undoes encLen, whatever follows, exactly for lengths of up to four octets |
| LdapBer.LengthForms | auth/ldap/client.go:69-76 | The short form, the reserved forms and the long form, by first octet |
| LdapBer.TlvRoundTrip | auth/ldap/client.go:55-83 | readTLV undoes enc, whatever follows, exactly for bodies of up to 16 MiB; which error a longer one gives |
| LdapBer.ChildrenRoundTrip | auth/ldap/client.go:84-93 | children returns the items that were written one after the other |
| LdapFilter.FilterParser.ParseFilter | auth/ldap/client.go:158-180 | The parser, with its position and all its errors, computes Parse and encodes the tree it reads |
| LdapFilter.FilterParser.ParseList | auth/ldap/client.go:162-166 | The loop parses operands up to the first byte that opens none, and encodes them joined |
| LdapFilter.FilterParser.ParseEquality | auth/ldap/client.go:169-178 | Attribute and value, trimmed and untrimmed, with the four errors |
| LdapFilter.SkipIsExact | auth/ldap/client.go:157-157 | Blanks, tabs and newlines are skipped, up to the first other byte |
| LdapSpace.TrimIsExact | auth/ldap/client.go:173-173 | TrimSpace leaves a part of the text with no Unicode white space in UTF-8 at either end, and cuts off nothing but white space |
| LdapSpace.SpacesAreCharacters | auth/ldap/client.go:173-173 | What is cut off in one go is one white-space character, and one is cut off whenever there is one |
| LdapRoundTrip.ParsePrint | auth/ldap/client.go:158-180 | A printed filter parses to its own tree wherever it stands and whatever follows |
| LdapRoundTrip.DecodeEncode | auth/ldap/client.go:55-93 | The bytes of a filter decode, with readTLV and children, to its own tree exactly when its body is within 16 MiB |
| LdapRoundTrip.FilterRoundTrip | auth/ldap/client.go:158-180 | Text to tree to bytes to tree loses nothing |
| LdapRoundTrip.ParsePrinted | auth/ldap/client.go:156-180 | The running parser on a printed filter returns bytes that decode to it |
| LdapRoundTrip.SampleParses | auth/ldap/client.go:156-180 | The running parser turns one text with every kind of part in it into the bytes that section 4.5.1 of RFC 4511 asks for |
| LdapEscape.EscapeFilter | auth/ldap/client.go:148-154 | The loop of escapeFilter computes the escaped name that the lemmas below are about |
| LdapEscape.EscapeIsSafe | auth/ldap/client.go:148-154 | No parenthesis, star or NUL is left in an escaped name |
| LdapEscape.EscapeRoundTrip | auth/ldap/client.go:148-154 | Undoing the escapes gives the name back |
| LdapEscape.EscapeIsIdentity | auth/ldap/client.go:148-154 | Escaping changes a name exactly when it has a special byte |
| LdapEscape.EscapesAreThese | auth/ldap/client.go:148-154 | The escapes of the five special bytes, letter by letter |
| LdapEscape.PutPrinted | auth/ldap/client.go:220-221 | Replacing the placeholder in the text of a filter is replacing it in the values of the tree |
| LdapTemplate.NameCannotChangeShape | auth/ldap/client.go:220-221 | Whatever the user name, and whatever template the parser accepts whose attributes do not hold the placeholder: with the escaped name put in, the same part of the text parses, to the template's tree with only values changed |
| LdapTemplate.ParseInPlace | auth/ldap/client.go:158-180 | Where any text, with white space anywhere, parses to a tree, the text with the placeholder replaced parses, wherever it stands, to the tree with its values replaced |
| LdapTemplate.DefaultTemplateSends | auth/ldap/client.go:219-221 | With the default template the value sent is the escaped name, which is the name exactly when it has no special byte |
| Mqtt.EncodeRemainingLength | automation/engine.go:1158-1167 | The loop gives the encoding that VarIntRoundTrip decodes |
| Mqtt.DecodeVarInt | automation/engine.go:1114-1124 | The loop gives the value and byte count, or the error for short input or a fifth byte, that VarIntRoundTrip is about |
| Mqtt.VarIntRoundTrip | automation/engine.go:1114-1167 | Decoding undoes encoding and reports the exact byte count, with any bytes following, exactly below 2^28 |
| Mqtt.VarIntBounds | automation/engine.go:1114-1124 | What is decoded is below 2^28 and its own encoding is no longer than what was read |
| Mqtt.ReadRemaining | automation/engine.go:1096-1111 | The length loop of readMQTTPacket, with the 4 MiB limit checked at every byte |
| Mqtt.ReadPacket | automation/engine.go:1093-1112 | readMQTTPacket consumes exactly one packet, or gives the error for end of input, size or length |
| Mqtt.PacketRoundTrip | automation/engine.go:1093-1112 | A written packet is read back, whatever follows, exactly up to 4 MiB |
| Mqtt.DecodePublish | automation/engine.go:1126-1150 | An accepted PUBLISH has QoS at most 2 and a 16-bit identifier |
| Mqtt.PublishRoundTrip | automation/engine.go:1126-1150 | Topic, identifier, QoS and payload of every well-formed PUBLISH are recovered for protocols 4 and 5 |
| Mqtt.PublishParts | automation/engine.go:1126-1150 | Conversely an accepted body is a length-prefixed topic, an identifier, counted properties and the payload |
| Mqtt.WireRoundTrip | automation/engine.go:1093-1150 | The same from the wire, framing included |
| MqttQos2.Receiver.Receive | automation/engine.go:930-967 | One turn of the receive loop: deliveries, pending map, replies and the errors that end the connection |
| MqttQos2.PendingIsFirst | automation/engine.go:945-965 | A message waits exactly when its identifier had a PUBLISH since its last PUBREL, and it is the first of those |
| MqttQos2.DeliveriesAreExact | automation/engine.go:914-968 | Over any packets, what is delivered is each QoS 0 and 1 message, and at each PUBREL the first PUBLISH since the PUBREL before |
| MqttQos2.NothingDeliveredTwice | automation/engine.go:945-965 | Over any packets, the delivered messages come from pairwise different PUBLISH packets |
| MqttQos2.RetransmissionIsHarmless | automation/engine.go:945-965 | A retransmission inserted anywhere in a connection, while its identifier waits, changes neither what is ever delivered nor what waits in the end, whatever follows |
| MqttQos2.RepliesAreExact | automation/engine.go:930-967 | Every packet is answered with its identifier, in order, repetitions included |
| MqttQos2.PublishIsHeld | automation/engine.go:920-955 | A well-formed QoS 2 PUBLISH on the wire is held under its identifier with its topic and payload |
| MqttQos2.PubrelReleases | automation/engine.go:957-967 | A PUBREL on the wire releases its identifier, whatever its flags and whatever follows |
| MqttQos2.OtherTypesAreIgnored | automation/engine.go:914-968 | Only PUBLISH and PUBREL are looked at, and a PUBREL without an identifier ends the connection |
| MqttQos2.ReplyIsPacket | automation/engine.go:943-966 | Every reply is a whole packet: read back it is its type and the identifier, and nothing of what follows |
| StreamRegistry.Uniq | api/stream/stream.go:275-285 | uniq keeps the first occurrences |
| Lists.FirstsMembers | api/stream/stream.go:275-285 | They are distinct and the same elements as before |
| StreamRegistry.Client.MayExecute | api/stream/once.go:28-36 | The flag is granted once |
| StreamRegistry.Client.Close | api/stream/client.go:45-50 | A channel is closed only by the call that sets the flag, so never twice |
| StreamRegistry.Registry.Register | api/stream/stream.go:181-185 | register appends to the user's list |
| StreamRegistry.Registry.Remove | api/stream/stream.go:168-179 | remove takes out the one client, or nothing |
| StreamRegistry.CloseAndDrop | api/stream/stream.go:98-104 | Deleting backwards inside the one array leaves what filtering by token would, and closes exactly what it removes |
| StreamRegistry.SpliceOut | api/stream/stream.go:102-102 | Moving the tail down inside the array takes out one position |
| StreamRegistry.Registry.NotifyDeletedClient | api/stream/stream.go:94-117 | Only the user's list changes |
| StreamRegistry.Registry.NotifyDeletedUser | api/stream/stream.go:75-91 | All the user's clients are closed and the list goes |
| StreamRegistry.CloseAll | api/stream/stream.go:257-261 | The closing loops of NotifyDeletedUser and Close |
| StreamRuns.StepKeepsInv | api/stream/stream.go:75-185 | Every atomic step of registering, closing, removing and sweeping keeps the invariant |
| StreamRuns.ClosedAtMostOnce | api/stream/client.go:45-59 | In every interleaving each client is closed at most once and calls onClose at most once |
| StreamRuns.OpenClientsAreRegistered | api/stream/stream.go:168-185 | In every interleaving each open client is registered, once, under its own user |
| StreamRuns.QuietListsAreOpenClients | api/stream/stream.go:149-185 | When no closing call is under way the lists hold exactly the open clients |
| StreamRuns.SweepClosesAll | api/stream/stream.go:253-273 | When a sweep ends, every client it covers is off the lists and has its flag taken; it is closed once, unless a NotifyClose has taken the flag and is about to close it |
| StreamRuns.SweepFinishes | api/stream/stream.go:75-147 | A sweep needs nobody: by its own steps it ends, lets go of the lock and has taken its clients' flags and list entries |
| StreamRuns.SweepAlone | api/stream/stream.go:75-118 | In every interleaving, from any moment the lock is free: a sweep on its own takes the flag and the list entry of every registered client it covers, and touches no other |
| StreamRuns.CloseFinishes | api/stream/client.go:45-59 | In every interleaving, from any moment the lock is free: a NotifyClose closes its client, calls onClose and takes it off its list, and touches no other |
| Delivery.QuietIsAnArc | automation/engine.go:308-326 | Quiet hours are an arc of the day, across midnight or not, or the whole day |
| Delivery.PriorityIsMonotone | automation/engine.go:277-306 | A higher priority is never delivered less directly; without policies that hold it back a message is notified at once |
| Delivery.HighestIsMaximum | automation/engine.go:566-568 | A summary is as urgent as its most urgent item |
| Delivery.RecipientsAreExact | automation/engine.go:214-247 | Everyone receiving or mentioned once, never the sender |
| Delivery.Engine.DeliverTo | automation/engine.go:277-306 | deliver settles one copy: digest, quiet hours, or the notifier; DeliveryPolicies.PostHonoursPolicies says which, in the policies' fields |
| Delivery.Engine.CollectRecipients | automation/engine.go:216-233 | The recipient list: receiving members, then mentioned members other than the sender |
| Delivery.Engine.DeliverStored | automation/engine.go:214-248 | The delivery loop gives each distinct recipient one delivery, in order |
| Delivery.Engine.RunDigests | automation/engine.go:552-619 | With nothing in between, the digest pass treats each due user once, in the order of the query; DigestPasses has the statements interleaved |
| Delivery.Engine.SendSummary | automation/engine.go:589-607 | Storing the summary unless its key is there, delivering a new one under the quiet hours, then deleting the items |
| Delivery.Engine.RunDeferred | automation/engine.go:621-644 | The deferred pass treats each entry once, in the order of the query |
| DeliveryRuns.PostIsExact | automation/engine.go:214-248 | Posting takes on exactly one copy per eligible recipient, each in exactly one place |
| DeliveryPolicies.PostHonoursPolicies | automation/engine.go:277-306 | In the policies' own fields: a new message goes into the digests that take it, to users whose quiet hours hold it back it is deferred if they defer and suppressed if they do not, everybody else is notified at once |
| DeliveryPolicies.DeferredIsNotifiedOnce | automation/engine.go:621-644 | Over every run a deferred copy waits until a pass comes outside its user's quiet hours and is then notified once and for all; if its message is deleted before, it never is |
| DeliveryPolicies.SummaryHonoursQuietHours | automation/engine.go:596-603 | A digest summary is sent by the quiet hours alone, with the highest priority among its items |
| DeliveryPolicies.NextDigest | automation/engine.go:609-615 | The next run is one interval ahead, or a quarter of an hour for shorter ones |
| DeliveryPolicies.DigestIsConfigured | api/automation.go:868-888 | A digest that is switched on is due from one interval later on; switched off it is never due, and what waited is gone |
| DeliveryPolicies.DeletedStaysSilent | database/message.go:376-399 | Over every run a deleted message is not there again, nothing waits for it and nobody is notified of it |
| DeliveryPolicies.DeletionIsExact | database/message.go:376-399 | A deletion takes exactly the rows of its messages and leaves the others |
| DeliveryRuns.EveryCopyIsAccountedFor | automation/engine.go:552-644 | At any point of any run each copy is notified once, waiting for a digest, in one summary, deferred, suppressed or dropped, and never two of these |
| DeliveryRuns.StepKeepsInv | automation/engine.go:552-644 | Every step, the pass over one user's digest being one, keeps the account, and every stored summary is older than its user's next run |
| DeliveryRuns.DigestsAreNeverLost | automation/engine.go:558-618 | With the pass over one user as one step all waiting items enter one new summary; DigestPasses.LostExactly is for interleaved statements |
| DeliveryRuns.RunDeferredIsExact | automation/engine.go:621-644 | In any reachable state the pass hands over each entry out of quiet hours once and keeps the others |
| DigestPasses.LostExactly | automation/engine.go:552-619 | Over every run of any engines, statement by statement, with deliveries, crashes and failing statements in between: a copy is deleted unsent if and only if a pass that has not read it, or found its summary stored, deletes it and no pass that has read it stores a new summary |
| DigestPasses.DeletionLosesExactly | automation/engine.go:604-607 | What a single deletion loses at once: the copies at risk that no summary holds yet |
| DigestPasses.OneEngineLoses | automation/engine.go:559-604 | A run of one engine without any failure that loses a copy which arrived after the items were read |
| DigestPasses.CrashLoses | automation/engine.go:589-604 | A run of one engine with a single crash that loses a copy which the deleting pass had read, its summary being stored already |
| DigestPasses.OverlapLoses | automation/engine.go:552-604 | The same with two engines and no failure |
| DigestPasses.UninterruptedPass | automation/engine.go:552-619 | With nothing in between, the statements of a pass over one digest do what the one step of DeliveryRuns does |
| DigestSummaries.UnsettledExactly | automation/engine.go:589-603 | Over every run, a stored summary is never notified, deferred or suppressed exactly when its engine crashed before handing it over, could not look up the quiet hours, or has yet to do it |

## Left out

- HTTP handlers, routing, audit, templates, saved searches, reactions and the web interface: no hard property; the guards that matter are conditions of the steps.
- Cryptography, OIDC, WebAuthn, TLS, SMTP, syslog, Home Assistant and plugins: they rest on libraries that are not part of this model.
- `Float64Approx`: approximate by its own comment.
- Sort keys with characters outside base 62: validation does not look at digits, and what the code does with them is not modelled.
- Database collations: sort keys are compared byte by byte.
- Cron schedules, daylight saving and named time zones: a zone is a constant offset.
- Database errors inside a delivery: the calls succeed. A failing lookup of a policy falls back to the notifier in the code. Failing statements of a digest pass are in `DigestPasses`.
- `EscalationBounds.EveryKeyStoredOnce`: for runs without message deletion. Deleting a message frees its deduplication key, so a worker with a stale copy of a row could store that repeat once more, as `ScheduleRuns.StoredTwiceExactly` says of schedules.
- `EscalationDelivery.EveryKeyDeliveredByOneWorker`: for runs without message deletion, for the same reason; the bounds and the loop avoidance of `Escalation` are for such runs too.
- Acknowledgements in `Escalation` itself: whether a due row is finished, skipped or escalated is a free choice of the step, so every outcome of the checks is covered; `EscalationAcks` adds the checks.
- Rule edits during an escalation run: the bounds are for fixed rules.
- A failed publish of a schedule: it is retried under a new time, hence under a new key; at most once is per key.
- The digest pass in `DeliveryRuns`: the pass over one user is one step; `DigestPasses` interleaves its statements, with reading the quiet hours and handing a summary over as one of them.
- The deferred pass of overlapping engines: one deferred entry is one step.
- The reconciliation in `Channels`: one step after the operation. `OverlappingSyncs` has reading the grants, reading the rows and writing apart; assignments and the members of each group are read in one step there.
- `muClients` of the stream registry: treated exactly like `clients`, so modelled once.
- The channels `write` and `closed` as Go channels: closing is a counted event; sending to clients is not modelled.
- `StreamRuns.ClosedAtMostOnce`: Remove runs as one step once the lock is free, since nothing else can touch the lists while it holds it.
- Read deadlines in the middle of an MQTT packet: a packet is there or the stream has ended.
- The JSON inside MQTT payloads, and a failing Publish: a delivery is the call of Publish.
- `ScheduleRuns.RunSchedules`: whether the history entry was stored and publishing succeeded is an input, because it depends on the database.
- White space between the parts of a printed filter: the parser skips it and the model of the parser does too, but the printer writes none.
- Times before the epoch of the two-generation map: the server uses its start time.
