# A model of the insurance office's platform, with proofs

The platform puts an assistant on a WhatsApp line of an insurance office, lets people of the office take a chat over,
imports the office's policies, watches the services it depends on, and bills what was used. This project models the
parts of it that are state machines kept in a table plus a few fields in memory, and the pure algorithms with laws, and
proves what they keep over every run, every interleaving or every input.

How the model is built:

- A row is a datatype or the fields of a class; one `update`, `updateMany` or `$transaction` is one atomic step. An
  operation of several statements is several steps, and what it read in an earlier one travels in the event, so every
  interleaving of operations is a run of events. Time is a non-decreasing integer, in milliseconds; where a strict
  clock is needed the lemma says so.
- Methods that update fields, or loop, are methods of a class or with a loop here too, each proved equal to a function
  of the old state; the properties are lemmas about those functions and about runs of them.
- Where the code does not keep a property it is expected to keep, the code is modelled as it is, a lemma gives the run
  that breaks it, and another says exactly when it holds.

| module | what it models |
|---|---|
| `Wrappers`, `Texts`, `Sorting`, `Rounding` | options, storage outcomes, filtered lists; cutting, trimming, finding, joining and splitting texts; the stable sort; amounts to cents and to a column's decimals |
| `IntegrationStatus`, `IntegrationHistory`, `IntegrationQueue`, `IntegrationService` | incidents of an external service: the steps of a report and their faults; what the stored incidents mean; the queue per component; the class |
| `Chat`, `ChatActivity`, `ChatSessions`, `ChatOwnership`, `ChatUnread`, `ChatRequests`, `ChatMoves`, `ChatResolved`, `ChatMatters`, `ChatGoodbye`, `TakeoverTimeout`, `SplitSweep`, `ChatService` | one conversation with its messages, matters and sweeps; what its row remembers of its messages, its sessions, ownership, unread counter, the texts of its requests, what moves its matters, when they are resolved and when answered, goodbyes; the sweep that gives it back, over the table and between its read and its write; the class |
| `AssistantActions`, `EventStream`, `QuestionLimit` | confirming and cancelling a proposal from any number of tabs; the incremental event-stream reader; the sliding hour of questions |
| `CarteraSync`, `CarteraClients`, `CarteraService` | the import of policies, vehicles and installments, with movements that throw halfway; the clients they belong to; the service over the codes of an organization |
| `CarteraRetry`, `CarteraWindow`, `CarteraNightly` | what importing failed movements again heals; which of them are ever asked for again; the pass of every night over the installments |
| `MonthlyClose`, `Balance`, `BalanceCounts`, `PlanLimit` | the monthly close and its read-back; the balance tally; what each of its metrics counts; a number at its plan's limit |
| `Schedule`, `ScheduleText`, `PhoneMatch`, `StaffNames`, `AssistantSetup`, `AssistantSetupLaws` | business hours and their text; Argentine phones; the settings of a number over its organization's |

## What the proofs found

- Two incidents of a component can be open at once: the incident is written and the component's pointer to it is not.
  That is the only way (`IntegrationStatus.StepKeepsTidy`, `TwoOpenAfterLostPointer`).
- Opening a thread can drop a customer message nobody saw, exactly when a session reset left `lastMessageAt` null in
  between (`ChatUnread.ClearDropsOnlyAfterReset`, `ResetLosesAMessage`).
- A matter can end up pending with a resolution date: a text joins it after it was read open and resolved meanwhile
  (`ChatResolved.StepKeepsDated`, `JoinAfterHandBackKeepsTheDate`).
- Two texts joined to a request at once can lose the first (`ChatRequests.ConcurrentJoinsLoseAText`). A join loses
  nothing exactly when the text its row has by then is in what it writes, or in another open request
  (`JoinLosesNothingIff`); and no text is ever lost in a run in which no join of a request falls between another's
  reading and writing of it (`NoTextIsLost`).
- The app's reply marks matters as of the marking, not of the reply, so handing the chat back can then settle a
  request nobody answered (`ChatMatters.LateAppMarkingSettlesUnanswered`). While every marking follows its reply, a
  panel one however late and an app one before the customer asks for more, it cannot
  (`HandBackResolvesOnlyAnswered`).
- Overlapping inactivity sweeps can claim the same silence twice (`ChatGoodbye.OverlappingSweepsClaimTwice`). However
  many overlap, a claim is of a new silence exactly when the chat was last claimed before the sweep that claims it found
  it (`ClaimsANewSilenceIff`, and over whole runs `OneGoodbyePerSilenceIff`).
- A reply that lands between the takeover sweep's read and its write is interrupted at once
  (`SplitSweep.ReplyBetweenReadAndWrite`): the chat given back has been silent for `operatorIdleMs` exactly when nobody
  of the office wrote in between and no takeover made in between stands (`SplitSweepInterruptsIff`).
- `cancel` writes without a condition, so a change that ran can end up shown as cancelled
  (`AssistantActions.CancelledAfterRunning`), and only so (`CancelledNeverRanIff`).
- The cancellation date of an installment survives a re-read exactly when every movement of the batch that lists it
  cancels it (`CarteraSync.CancellationDateSurvives`).
- A movement that fails heals when a later import brings it again (`CarteraRetry.RetryHeals`), except a policy's start
  and holder when the oldest movement failed and a newer one created the row (`RetryHealsThePolicyIff`,
  `RetryKeepsTheLaterStart`). The next import brings it exactly when it is dated in that import's window
  (`CarteraWindow.ComesAgainIff`), and a code is stamped, which shortens the window to three months, whatever failed
  (`StampShortens`): a movement of a first import that fails and is older than that never comes in
  (`BackfillLeavesAHole`, `LeftOutForGood`).
- The pass of every night keeps an installment's status as its listing would tell it that day, except that a debit on its
  way to the bank written behind white space stays pending past its date, and one the import stamped overdue before its day
  ended stays so (`CarteraNightly.NightsAreHonestIff`).
- A client without an e-mail gets the one a movement tells exactly when nobody else holds it, nor the phone told with it
  (`CarteraClients.EmailIsFilledInIff`): a phone in use loses an e-mail nobody has.
- A closed month reads back the live figures exactly when they fit the columns they are stored in
  (`MonthlyClose.CloseReadsBack`): an assigned plan, a pause, a text longer than its column or an amount finer than its
  decimals is not kept.
- A WhatsApp id does not match its own phone exactly when the national number starts with 0
  (`PhoneMatch.IdsMatchTheirPhone`).
- An alias sent empty brings the organization's back only when the number has no CBU, holder or bank of its own
  (`AssistantSetupLaws.EmptyAliasFallsBackIff`), and staff names read back only when none has a comma inside
  (`StaffNames.StaffReadsBackIff`).
- The takeover sweep ignores what the customer writes exactly when `maxMs` is at most `quietMs` or at most
  `operatorIdleMs` (`TakeoverTimeout.IgnoresCustomerIff`).

## Model

| member | source | states |
|---|---|---|
| IntegrationStatus.StepKeepsSound | src/integration-status/integration-status.service.ts:168-252 | whatever storage calls of one report throw, before or after taking effect, memory equals the row and the row points to no ended or missing incident |
| IntegrationStatus.EveryRunIsSound | src/integration-status/integration-status.service.ts:167-252 | the same over every run of reports, faults and restarts |
| IntegrationStatus.WriteKeepsApart | src/integration-status/integration-status.service.ts:221-243 | reopening a recent incident or opening a new one leaves incidents disjoint, more than 15 minutes apart, only the last one open |
| IntegrationStatus.StepKeepsTidy | src/integration-status/integration-status.service.ts:209-248 | one report keeps that, and the pointer to the open incident, if and only if it does not write an incident without pointing the row at it |
| IntegrationStatus.EveryRunIsTidy | src/integration-status/integration-status.service.ts:167-252 | over every run that never loses the pointer, incidents are disjoint, far apart, and at most one is open, the one pointed to |
| IntegrationStatus.TwoOpenAfterLostPointer | src/integration-status/integration-status.service.ts:230-247 | a refused pointer write, then another failure, leaves two open incidents |
| IntegrationStatus.SuccessIsStoredOncePerMinute | src/integration-status/integration-status.service.ts:168-194 | with nothing open, a success less than a minute after a stored one writes nothing, and a later one is stored |
| IntegrationStatus.ForgottenIff | src/integration-status/integration-status.service.ts:507-530 | a component in memory asks for its row no more, and leaves memory if and only if a call its report does make throws |
| IntegrationStatus.RefusedStoresNothing | src/integration-status/integration-status.service.ts:167-252 | a report whose every storage call is refused leaves the row and the incidents as they were |
| IntegrationHistory.EveryRunTellsItsEpisodes | src/integration-status/integration-status.service.ts:167-252 | while storage works, the stored incidents are exactly the episodes read off the reports (start, last failure, message, sample, count, end), the row has the last failure, one is open exactly while the last report failed, and the success stamp lags less than a minute |
| IntegrationHistory.StepIncidents | src/integration-status/integration-status.service.ts:197-252 | a failure reopens, extends or adds one incident, a success ends the open one, and a restart changes none |
| IntegrationHistory.FailureStep | src/integration-status/integration-status.service.ts:197-252 | incidents that tell the episodes so far still do after a failure |
| IntegrationHistory.QuietStep | src/integration-status/integration-status.service.ts:168-194 | and after a success or a restart |
| IntegrationQueue.AdvanceKeepsSerial | src/integration-status/integration-status.service.ts:522-530 | each storage call of a running report keeps its component as if the finished reports had run alone, and keeps its reports in order |
| IntegrationQueue.QueueIsFifo | src/integration-status/integration-status.service.ts:522-530 | in every interleaving, what finished, runs and waits since the process last started is what arrived since, in order |
| IntegrationQueue.InterleavingIsSerial | src/integration-status/integration-status.service.ts:521-530 | in every interleaving of all components' storage calls, with the process dying and starting again anywhere, an idle component is what whole reports and restarts, one at a time, leave, those of this life the first that arrived in it; so it is sound, and tidy unless a pointer was lost |
| IntegrationQueue.CrashKeepsSerial | src/integration-status/integration-status.service.ts:521-530 | wherever the process dies, with the call in flight applied or not, the component is left as by whole reports and a restart |
| IntegrationQueue.AdvanceProgresses | src/integration-status/integration-status.service.ts:522-530 | every storage call, whether it throws or not, brings the running report nearer its end, and ends it exactly when it adds it to the finished ones |
| IntegrationService.IntegrationStatusService.LoadComponent | src/integration-status/integration-status.service.ts:507-519 | reads or creates the row once and keeps it in memory; other components are left alone |
| IntegrationService.IntegrationStatusService.SucceededTask | src/integration-status/integration-status.service.ts:168-194 | the step of a success, with the branch that writes nothing |
| IntegrationService.IntegrationStatusService.FailedTask | src/integration-status/integration-status.service.ts:197-252 | the step of a failure: extends, reopens or opens, then points the row |
| IntegrationService.IntegrationStatusService.Serialize | src/integration-status/integration-status.service.ts:522-530 | one report whole; one that threw forgets the component |
| ChatOwnership.StepKeepsOwned | src/inbox/inbox.service.ts:277-313 | every step keeps an assigned chat paused, and an owner leaves only through a release |
| ChatOwnership.EveryRunIsOwned | src/inbox/inbox.service.ts:277-376 | in every interleaving an assigned chat is paused, and a paused one was taken or written in by the office |
| ChatOwnership.OwnerChangesThroughRelease | src/inbox/inbox.service.ts:277-376 | between two different owners there was a release |
| ChatSessions.EveryRunIsHeld | src/inbox/inbox.service.ts:277-376 | in every interleaving a waiting chat is paused and somebody has it, and one that is not paused is as a new one: nobody has it and nothing waits |
| ChatSessions.TakeoverIsUndone | src/inbox/inbox.service.ts:277-376 | giving back, by hand or by the sweep, undoes a takeover of a free chat to the letter |
| ChatSessions.SessionStartsIff | src/bot/bot.service.ts:346-419 | in every run without resets, an arriving message starts a session exactly when somebody wrote before and nobody within the timeout |
| ChatSessions.ResetStartsOver | src/bot/bot.service.ts:536-552 | a reset starts a session, so that no goodbye is due and the next message starts no other, and changes nothing else |
| ChatUnread.ClearDropsOnlyAfterReset | src/inbox/inbox.service.ts:204-220 | in every reachable state that stores a customer message newer than the fetch, the clear reads the thread up to the fetch if and only if lastMessageAt is null, and else changes nothing |
| ChatUnread.OpeningClearsIff | src/inbox/inbox.service.ts:204-220 | in every run without resets, opening the thread zeroes the counter and keeps when it was read if and only if no activity is stored later than that, and else changes nothing |
| ChatActivity.StampIsLastActivity | src/bot/bot.service.ts:697-741 | in every run without resets, lastMessageAt is later than a time if and only if a message of the customer, the bot or the office, goodbyes apart, is stored later than it |
| ChatUnread.StepKeepsCounts | src/bot/bot.service.ts:697-741 | every step but a reset keeps the counter equal to the customer messages newer than the last effective clear |
| ChatUnread.UnreadCountsWhatIsNew | src/inbox/inbox.service.ts:204-220 | on a strict clock with no reset, in every interleaving, the counter is that number and no clear drops a message newer than its fetch |
| ChatUnread.ResetLosesAMessage | src/bot/bot.service.ts:536-552 | a reset between fetch and clear uncounts a message nobody saw |
| ChatRequests.HandoffLosesNoText | src/novedades/novedades.service.ts:64-109 | alone, whatever its storage calls do, recording a request keeps every text already written; and its own is written too unless the call that opens a new request was refused |
| ChatRequests.RequestGoes | src/novedades/novedades.service.ts:64-214 | while storage works, a request the same as an open one goes nowhere, else to the newest open one of the last day if they are of one sort and it does not say it already, else to a new matter |
| ChatRequests.JoinKeepsTextIff | src/novedades/novedades.service.ts:172-214 | whatever the join had read, a text is written after it if and only if the row read with the new text holds it, or another open request does |
| ChatRequests.JoinLosesNothingIff | src/novedades/novedades.service.ts:172-214 | a join loses no text if and only if the text its row has by then is in what it writes, or in another open request |
| ChatRequests.CurrentJoinLosesNothing | src/novedades/novedades.service.ts:172-214 | a join that read the text its row still has loses no text and writes its own |
| ChatRequests.NoTextIsLost | src/novedades/novedades.service.ts:64-214 | in every interleaving in which no join of a request falls between another's reading and writing of it, every text sent stays in its request to the end |
| ChatRequests.ConcurrentJoinsLoseAText | src/novedades/novedades.service.ts:172-214 | two joins that read the same matter lose the first text |
| ChatResolved.StepKeepsDated | src/novedades/novedades.service.ts:144-214 | every step keeps resolved exactly the matters with a resolution date, if and only if it is not a join of a matter resolved since it was read |
| ChatResolved.DatedAllAlongIff | src/novedades/novedades.service.ts:144-214 | a run keeps them together at every moment if and only if none of its texts joins a resolved matter |
| ChatResolved.EveryRunIsDated | src/novedades/novedades.service.ts:172-214 | in every interleaving in which nothing resolves a matter between a text's reading it open and joining it, a matter is RESOLVED exactly when resolvedAt is set |
| ChatResolved.ResolvedHasItsDate | src/novedades/novedades.service.ts:144-160 | over every run at all, a resolved matter has its date |
| ChatMatters.StepKeepsHandled | src/novedades/novedades.service.ts:120-137 | every step keeps matters in progress answered after their last text, if and only if it does not mark an unanswered one |
| ChatMatters.HandledAllAlongIff | src/novedades/novedades.service.ts:120-160 | a run is so at every moment if and only if no marking of it reaches an unanswered matter |
| ChatMatters.MarkingsReachAnsweredOnly | src/inbox/inbox.service.ts:495-510 | in every interleaving whose markings follow replies, a panel one stamped with its reply however late, an app one with nothing asked since its reply, no marking reaches an unanswered matter |
| ChatMatters.EveryRunIsHandled | src/novedades/novedades.service.ts:120-160 | over every such interleaving, a chat matter in progress or resolved is answered after its last text |
| ChatMatters.HandBackResolvesOnlyAnswered | src/inbox/inbox.service.ts:335-376 | in every such interleaving, handing a chat back resolves a matter only if the office wrote, or somebody moved it by hand, after the last text joined to it; pending ones are left alone |
| ChatMatters.PanelMarksOnlyAnswered | src/inbox/inbox.service.ts:495-510 | a marking stamped with the time of a reply anywhere before it reaches no unanswered matter |
| ChatMatters.AppMarksOnlyAnswered | src/bot/bot.service.ts:268-333 | nor does one that follows an app reply with nothing asked in between |
| ChatMatters.LateAppMarkingSettlesUnanswered | src/bot/bot.service.ts:329-330 | when something was, handing back settles what nobody answered |
| ChatMoves.MarkingLeavesNoneWaiting | src/novedades/novedades.service.ts:120-137 | after a marking no matter asked by then is pending; quotes, later ones and those not pending stay as they were |
| ChatMoves.ResolvingLeavesNoneInProgress | src/novedades/novedades.service.ts:144-160 | after handing back no chat matter is in progress: those that were are resolved with their date, the rest stay |
| ChatMoves.JoinedWaitsAgain | src/novedades/novedades.service.ts:197-208 | a joined request waits again from now with the text under its own, and takes the text's category only if it had none |
| ChatMoves.OthersStay | src/novedades/novedades.service.ts:64-214 | no step touches a matter it is not about, takes one away, or adds one other than last and pending |
| ChatResolved.JoinAfterHandBackKeepsTheDate | src/novedades/novedades.service.ts:196-208 | a join that read the matter open leaves it pending with a resolution date |
| ChatGoodbye.StepKeepsArmed | src/bot/bot.service.ts:566-611 | every step keeps a claimed chat from being due again before somebody writes |
| ChatGoodbye.SelectedIff | src/bot/bot.service.ts:579-605 | in every run without resets on a strict clock with one timeout, a sweep selects a chat if and only if its number is attended by the bot, somebody wrote in it, nobody within the timeout, and the customer, the bot or the phone wrote since it was last claimed |
| ChatGoodbye.OneGoodbyePerSilence | src/bot/bot.service.ts:566-611 | with sweeps one after another, two claims of a chat are a session timeout apart with a message that is no goodbye written between them |
| ChatGoodbye.ClaimsANewSilenceIff | src/bot/bot.service.ts:566-611 | with any number of sweeps overlapping and claiming in any order, a claim is of a silence begun since the last claim if and only if the chat was last claimed before this sweep found it |
| ChatGoodbye.OneGoodbyePerSilenceIff | src/bot/bot.service.ts:566-611 | over whole runs whose sweeps claim within a timeout of finding: between every two claims somebody wrote and a whole timeout of silence followed, if and only if every claim is so |
| ChatGoodbye.OverlappingSweepsClaimTwice | src/bot/bot.service.ts:579-611 | overlapping sweeps claim one silence twice |
| ChatGoodbye.BotService.FindSilent | src/bot/bot.service.ts:579-605 | at most `limit` chats, each silent, not warned and reachable; all of those when they are fewer |
| ChatGoodbye.BotService.ClaimPendingWarnings | src/bot/bot.service.ts:566-611 | claims exactly the chats it found, and touches no other |
| TakeoverTimeout.PausedHasHuman | src/inbox/bot-takeover-timeout.service.ts:77-83 | a paused chat of any run has an office time to count the silence from |
| TakeoverTimeout.DueIff | src/inbox/bot-takeover-timeout.service.ts:137-160 | in any state, the sweep gives a chat back if and only if it is paused, the office neither wrote nor took it over for operatorIdleMs, and it is closed now, or nobody at all wrote for quietMs, or the office did not for maxMs |
| TakeoverTimeout.SweepWaitsButNotForever | src/inbox/bot-takeover-timeout.service.ts:137-160 | in every reachable state the sweep never returns a chat before operatorIdleMs of office silence and always does from the larger of operatorIdleMs and maxMs, whatever the hours and the customer |
| TakeoverTimeout.IgnoresCustomerIff | src/inbox/bot-takeover-timeout.service.ts:137-160 | it ignores the customer if and only if maxMs is at most quietMs or operatorIdleMs |
| SplitSweep.SplitSweepInterruptsIff | src/inbox/bot-takeover-timeout.service.ts:76-89 | with the read and the write of the sweep any number of steps apart, the chat is left with the bot, and had operatorIdleMs of office silence as of the read if and only if nobody of the office wrote in between and no takeover made in between stands |
| SplitSweep.HeldSinceIff | src/inbox/inbox.service.ts:277-376 | while nobody writes, a chat is held since after a moment if and only if a takeover made since then still stands |
| SplitSweep.ReplyBetweenReadAndWrite | src/inbox/bot-takeover-timeout.service.ts:83-88 | a reply between the sweep's read and write does not stop it |
| ChatService.ChatRow.ClearUnreadUpTo | src/inbox/inbox.service.ts:204-220 | zeroes the counter and keeps the time read, unless lastMessageAt is later than the fetch; `ChatUnread.OpeningClearsIff` says when that is of the messages |
| ChatService.ChatRow.TakeoverBy | src/inbox/inbox.service.ts:277-313 | succeeds once: only while nobody has the chat |
| ChatService.ChatRow.AutoReleaseToBot | src/inbox/inbox.service.ts:361-376 | gives back a chat that is still paused and resolves what was in progress in it; says whether it did |
| ChatService.ChatRow.RecordAgentEcho | src/bot/bot.service.ts:268-333 | an app reply pauses the chat and marks its matters; a repeated webhook changes nothing |
| ChatService.ChatRow.JoinOpenHandoff | src/novedades/novedades.service.ts:172-214 | joins the text to the newest compatible open request of the last day, and says whether that settled it; a call that threw did not |
| ChatService.ChatRow.RecordHandoffOf | src/novedades/novedades.service.ts:64-109 | shares a repeat, joins a compatible open matter, or opens a new one, also when looking for either threw |
| TakeoverTimeout.BotTakeoverTimeoutService.SweepOne | src/inbox/bot-takeover-timeout.service.ts:76-89 | one chat of the sweep: given back with its answered matters resolved exactly when the office abandoned it, read off its handover and its messages, and else untouched |
| TakeoverTimeout.BotTakeoverTimeoutService.ReleaseIdleTakeovers | src/inbox/bot-takeover-timeout.service.ts:52-97 | a sweep that throws nowhere gives back exactly the abandoned chats and counts them; a call that throws ends it at its chat, the later ones as they were and the count 0; nothing happens while another sweep is at work |
| AssistantActions.StepKeepsOnce | src/assistant/assistant-actions.service.ts:132-179 | every storage call of any tab keeps claims and runs paired, at most one, on a row that is no longer pending |
| AssistantActions.RunsAtMostOnce | src/assistant/assistant-actions.service.ts:132-179 | in every interleaving of confirms and cancels the change runs at most once, after a claim made for a time before the proposal expired |
| AssistantActions.FinishedRunShowsHowItEnded | src/assistant/assistant-actions.service.ts:132-168 | in every interleaving in which no cancel overwrites a claim, once the claiming tab has finished the card reads confirmed if and only if the change and the keeping of its summary succeeded, and failed if and only if one threw, with its error; from the claim until then it reads confirmed |
| AssistantActions.RunEndsWithItsOutcome | src/assistant/assistant-actions.service.ts:148-166 | a run ends with the outcome of its change, or with what the keeping of its summary threw |
| AssistantActions.TabProgresses | src/assistant/assistant-actions.service.ts:132-179 | every storage call brings its tab nearer the end and leaves the others where they are; asking too late ends it with nothing done |
| AssistantActions.StepKeepsCancelledFinal | src/assistant/assistant-actions.service.ts:170-179 | CANCELLED keeps meaning never run if and only if no cancel writes over a claim |
| AssistantActions.CancelledNeverRanIff | src/assistant/assistant-actions.service.ts:132-179 | in every interleaving, a proposal shown as cancelled never ran, at any moment, if and only if no cancel that read it pending writes after a claim |
| AssistantActions.CancelledAfterRunning | src/assistant/assistant-actions.service.ts:170-179 | a cancel that read the proposal pending is written over a change that ran |
| AssistantActions.UndoOfUndo | src/assistant/assistant-actions.service.ts:103-130 | going back twice proposes the original change to the letter, if and only if the payload that goes back has no field called "undo" |
| AssistantActions.ActionService.ConfirmBy | src/assistant/assistant-actions.service.ts:132-168 | a conflict exactly when it is not pending and in time, with nothing changed; else the change runs once, and the row is confirmed with its summary or failed with its error, as it went |
| AssistantActions.ActionService.CancelBy | src/assistant/assistant-actions.service.ts:170-179 | the row is cancelled exactly when it was pending and in time, and else left as it was; and what the card then shows |
| EventStream.BlankLineIsFirst | src/assistant/assistant-model.client.ts:160-176 | the reader cuts at the first blank line of what it holds, and only when there is one |
| EventStream.EventsContinue | src/assistant/assistant-model.client.ts:154-178 | reading a text and then more of it is reading both at once, with only the unfinished tail carried over |
| EventStream.ReadEvents | src/assistant/assistant-model.client.ts:154-178 | however the text is cut into chunks, the events are those of the whole text split at blank lines, its unfinished tail dropped |
| EventStream.ReadBlocks | src/assistant/assistant-model.client.ts:163-176 | the inner loop yields the finished blocks and leaves the tail, which holds no blank line |
| EventStream.EarlierEventsStay | src/assistant/assistant-model.client.ts:154-178 | what was yielded is the beginning of what the longer text yields |
| EventStream.PrintedStreamReadsBack | src/assistant/assistant.controller.ts:91-93 | a printed stream reads back as exactly its payloads if and only if none is empty, the end mark or led by white space |
| EventStream.LinesReadTogether | src/assistant/assistant-model.client.ts:163-176 | an event of several data lines reads as their payloads, one under the other, white space before each dropped |
| QuestionLimit.NoHourExceedsTheLimit | src/assistant/assistant.service.ts:230-238 | in any one-hour window at most 60 questions of a person are accepted |
| QuestionLimit.AcceptedIff | src/assistant/assistant.service.ts:230-238 | over every history of questions in order, one more is accepted if and only if fewer than 60 accepted ones lie in the hour that ends with it |
| QuestionLimit.PrunedIsEnough | src/assistant/assistant.service.ts:231-232 | dropping old times loses nothing a later look needs |
| QuestionLimit.KeptDecides | src/assistant/assistant.service.ts:230-238 | the pruned list decides as the full history of accepted times does, and goes on doing so |
| QuestionLimit.AssistantService.CountQuestion | src/assistant/assistant.service.ts:230-238 | a question is accepted exactly when fewer than 60 accepted ones, of all there ever were, lie in the hour that ends now; other people's are left alone |
| CarteraSync.SortBySuplemento | src/cartera-sync/cartera-sync.service.ts:128-130 | the same movements, oldest endorsement first |
| CarteraSync.FoldIsPerCertificate | src/cartera-sync/cartera-sync.service.ts:372-604 | a certificate's rows depend only on its own movements, in their order |
| CarteraSync.ArrivalOrderDoesNotMatter | src/cartera-sync/cartera-sync.service.ts:329-340 | with suplementos distinct per certificate, any arrival order leaves the same policy, vehicle and installment rows |
| CarteraSync.HighestSuplementoWins | src/cartera-sync/cartera-sync.service.ts:494-602 | policy fields come from the highest suplemento, risk from the last that says something, the vehicle from the last that brings one, each installment from the last that lists it, with its status told from that listing's own words and date, deletedAt null exactly when it is not ANULADA; validFrom is set only on creation |
| CarteraSync.MappedStatusTells | src/cartera-sync/cartera-sync.service.ts:139-151 | paid exactly for PAGADA or COBRADA in any case, rejected exactly for its three words, and overdue exactly when neither, not on its way to the bank and past its date |
| CarteraSync.CancelledIsItsWord | src/cartera-sync/cartera-sync.service.ts:153-156 | cancelled exactly for ANULADA, in any case and with white space around |
| CarteraSync.ResolvedRiskTells | src/cartera-sync/cartera-sync.service.ts:34-61 | moto or car by the vehicle's type, else life, home or shop by the article or an insured person, and told at all exactly when one of these is |
| CarteraSync.CuotasUntilSays | src/cartera-sync/cartera-sync.service.ts:567-602 | a movement that throws among its installments leaves those before whole, at most the next one half written, and the others as they were |
| CarteraSync.StampCompletes | src/cartera-sync/cartera-sync.service.ts:595-602 | the second write of an installment adds the date of a cancellation that had none, and nothing else |
| CarteraSync.CancellationDateSurvives | src/cartera-sync/cartera-sync.service.ts:570-602 | a cancellation date survives the batch if and only if every movement listing the installment cancels it |
| CarteraService.CarteraSyncService.UpsertPolicyRow | src/cartera-sync/cartera-sync.service.ts:495-529 | creates or updates the policy row |
| CarteraService.CarteraSyncService.UpsertCuotaRows | src/cartera-sync/cartera-sync.service.ts:567-602 | the installments of one movement, in order, each with its two writes, until a call throws; `CarteraSync.CuotasUntilSays` says what each row then tells |
| CarteraService.CarteraSyncService.SyncClientOf | src/cartera-sync/cartera-sync.service.ts:415-492 | finds, completes or creates the client of a document; a taken e-mail or phone is left out, and a row the table refuses throws |
| CarteraService.CarteraSyncService.SyncNovedadOf | src/cartera-sync/cartera-sync.service.ts:372-604 | one movement on its client and the three tables; an unusable one changes nothing, and one that throws leaves exactly the writes made before |
| CarteraService.CarteraSyncService.SyncCode | src/cartera-sync/cartera-sync.service.ts:298-357 | one code: a request that throws leaves it alone; an answer is imported, oldest endorsement first, those that throw skipped and counted, and the code stamped whatever they did |
| CarteraService.CarteraSyncService.RunGuarded | src/cartera-sync/cartera-sync.service.ts:232-372 | every code in turn, with its counts, or nothing while another run is in flight; when nothing throws, every code's batch folded one after another |
| CarteraService.BatchKeepsNoClash | src/cartera-sync/cartera-sync.service.ts:415-492 | whatever the movements and wherever they throw, no two clients come to share a document, an e-mail or a phone |
| CarteraService.NobodyIsInTheWay | src/cartera-sync/cartera-sync.service.ts:423-447 | while no client is retired, no movement is held back by another client's e-mail or phone |
| CarteraService.BatchKeepsHolders | src/cartera-sync/cartera-sync.service.ts:415-529 | over a whole batch, wherever its movements throw, every policy's holder is a client in use |
| CarteraService.RefusedLeavesTables | src/cartera-sync/cartera-sync.service.ts:415-492 | a movement whose client is refused leaves the policies, vehicles and installments alone, and any other goes on as if there were no clients |
| CarteraNightly.NightsAreHonestIff | src/cartera-sync/cartera-sync.service.ts:196-216 | after any number of nights an installment reads as its listing would on the last of them, if and only if it is not a debit on its way to the bank written behind white space and come due since, nor was it stamped overdue for a day still to end |
| CarteraNightly.NightsChangeOnlyTheStatus | src/cartera-sync/cartera-sync.service.ts:203-216 | the nights turn live pending installments overdue and change nothing else |
| CarteraService.CarteraSyncService.MarkOverdueInstallments | src/cartera-sync/cartera-sync.service.ts:203-216 | every installment is as the pass leaves it alone, and the count is of those it marks |
| CarteraClients.RefusedIff | src/cartera-sync/cartera-sync.service.ts:415-468 | a movement's client is refused if and only if none of its document is in use and a retired one holds the document, or the e-mail or phone the new one would have |
| CarteraClients.HolderIsClient | src/cartera-sync/cartera-sync.service.ts:415-492 | unless refused, the document has a client in use from then on: the one it had, or one more as told with what nobody else holds |
| CarteraClients.EmailIsFilledInIff | src/cartera-sync/cartera-sync.service.ts:474-492 | a client without an e-mail gets the one told if and only if nobody else holds it or the phone told with it; every other client, and one that has an e-mail, stays |
| CarteraRetry.RetryHeals | src/cartera-sync/cartera-sync.service.ts:329-347 | wherever the movements of a batch threw, a later import that brings them again, and does not fail, leaves every certificate as if the failed batch had never been, but for dates of cancellations, and the start and holder of a policy the failed batch created |
| CarteraWindow.StampShortens | src/cartera-sync/cartera-sync.service.ts:105-110 | the next window is three months if and only if the code was stamped before or answers now and its stamp is written, whatever its movements did |
| CarteraWindow.ComesAgainIff | src/cartera-sync/cartera-sync.service.ts:105-120 | a certificate's movements all come again at the next import if and only if they are all dated in the window the stamp leaves |
| CarteraWindow.NextImportHeals | src/cartera-sync/cartera-sync.service.ts:343-350 | a code's import that fails anywhere is healed by its next one for every certificate whose movements are all dated in the next window |
| CarteraWindow.MissingComesInIff | src/cartera-sync/cartera-sync.service.ts:296-340 | a certificate not in the table is in it after an import without failures if and only if one of its movements is dated in the window |
| CarteraWindow.LeftOutForGood | src/cartera-sync/cartera-sync.service.ts:343-350 | once a code is stamped, a certificate left out whose movements are older than three months stays out over every later run of imports |
| CarteraWindow.BackfillLeavesAHole | src/cartera-sync/cartera-sync.service.ts:343-350 | a first import whose one movement throws is stamped all the same, and the movement never comes in once older than three months |
| CarteraRetry.RetryHealsThePolicyIff | src/cartera-sync/cartera-sync.service.ts:329-347 | the policy is then wholly as if it had never been if and only if it existed before, the failed batch did not create it, or the movement that created it tells the same start and holder as the oldest one |
| CarteraRetry.RetryKeepsTheLaterStart | src/cartera-sync/cartera-sync.service.ts:495-529 | the oldest movement throws, the next one creates the policy, and importing both again keeps the later start |
| CarteraRetry.FailedRunWrites | src/cartera-sync/cartera-sync.service.ts:329-340 | a batch that fails anywhere writes in a certificate only what its own movements say |
| MonthlyClose.CloseReadsBack | src/monthly-close/monthly-close.service.ts:366-442 | with amounts in cents, a stored row reads back the live figures if and only if they fit their columns and have no assigned plan or pause |
| MonthlyClose.MissingAmountsReadZero | src/monthly-close/monthly-close.service.ts:430-442 | a row with the terms of a settlement and no amounts reads its amounts as zero |
| MonthlyClose.OneRowPerNumberAndPeriod | src/monthly-close/monthly-close.service.ts:193-228 | over every sequence of closes a period has at most one row per number |
| MonthlyClose.CloseLeavesExactlyTheKept | src/monthly-close/monthly-close.service.ts:206-224 | after a writing close the live rows of the month are exactly the kept numbers as computed now, and the month is closed exactly when somebody was kept |
| MonthlyClose.KeptIff | src/monthly-close/monthly-close.service.ts:206-224 | after a writing close a number of the month has a live row if and only if it was in service, sent a message or cost something |
| MonthlyClose.CloseTouchesNothingElse | src/monthly-close/monthly-close.service.ts:206-224 | other months keep every row, and a number no longer kept is retired with its figures as they were |
| MonthlyClose.CloseIsIdempotent | src/monthly-close/monthly-close.service.ts:193-205 | a close without force after one that kept somebody changes nothing |
| MonthlyClose.ClosedMonthReadsLiveFigures | src/monthly-close/monthly-close.service.ts:236-263 | each kept number's row of the closed month reads back its live figures, as far as they fit |
| MonthlyClose.MonthlyCloseService.CloseOf | src/monthly-close/monthly-close.service.ts:193-228 | the close with its refusals: a month not ended, another close at work, a month already closed |
| Balance.AttributionOrder | src/balance/balance-metrics.ts:120-130 | a record goes to the first the organization has of its own code and its number's (the number's first for quotes), and to the master code if and only if it has neither |
| Balance.TallyIsCodeSum | src/balance/balance-metrics.ts:133-160 | a recorded metric of a code is the sum of the amounts credited to it; an unrecorded one stays null |
| Balance.TallyConserves | src/balance/balance-metrics.ts:133-160 | a recorded metric summed over the codes is the sum of everything added |
| Balance.StoredBalanceConserves | src/balance/balance-metrics.ts:151-160 | as stored, counts conserve exactly and money within half a cent per code |
| BalanceCounts.HandoffsAreCounted | src/balance/monthly-balance-snapshot.service.ts:322-337 | per code, requests for a person count each once, and a claim the bot stopped again under its own reason and no other |
| BalanceCounts.QuotesAreCounted | src/balance/monthly-balance-snapshot.service.ts:345-353 | per code, a quote is the bot's if and only if it came through a number |
| BalanceCounts.RequestsAreCounted | src/balance/monthly-balance-snapshot.service.ts:355-363 | per code, each coverage request counts once, and a closed one again at the month's end and only then |
| BalanceCounts.LeadsAreCounted | src/balance/monthly-balance-snapshot.service.ts:365-374 | the same of leads, by their own code before their number's |
| BalanceCounts.StoredMoneyIsInCents | src/balance/balance-metrics.ts:151-160 | as stored, premium and debt are whole cents within half a cent, and every other metric is as added up |
| Balance.StoppedWithinHandoffs | src/balance/monthly-balance-snapshot.service.ts:322-337 | per code, stopped claims never exceed requests for a person |
| Balance.ClosedWithinRequests | src/balance/monthly-balance-snapshot.service.ts:339-375 | per code, closed requests never exceed coverage requests plus leads |
| Balance.BalanceTally.AddTo | src/balance/balance-metrics.ts:144-149 | the map stays the tally of what was added |
| Balance.BalanceTally.FeedHandoffs | src/balance/monthly-balance-snapshot.service.ts:322-337 | adds each group once, and its stopped claims beside it |
| Balance.BalanceTally.FeedSales | src/balance/monthly-balance-snapshot.service.ts:339-375 | adds quotes, requests and leads, and the closed ones only at the month's end |
| Balance.BalanceTally.Result | src/balance/balance-metrics.ts:151-160 | the tally with money rounded to cents, code by code |
| PlanLimit.LimitAfterContinue | src/billing/billing.service.ts:300-319 | after "continue" the number is unpaused on the covering plan, or on the largest plus its blocks, as the month is then billed |
| PlanLimit.TargetIsLeast | src/billing/billing.service.ts:301-314 | no limit on offer above the month's messages is smaller |
| PlanLimit.TargetIsOnSale | src/billing/billing.service.ts:302-305 | the plan moved to is the smallest on sale above the messages, or the largest on sale when none is |
| PlanLimit.ContinueMovesTo | src/billing/billing.service.ts:300-319 | "continue" moves a paused number to that plan, with blocks if and only if no plan on sale is above the messages |
| PlanLimit.GivenPlanHolds | src/usage/usage.service.ts:259-264 | a number is on the plan it was given, a trial only in its first month |
| PlanLimit.ElseTheSmallest | src/usage/usage.service.ts:259-264 | else on the smallest plan on sale, or with none on sale the smallest that is no trial, or on none if and only if all are trials |
| PlanLimit.ContinueEndsAboveAndLeast | src/billing/billing.service.ts:283-322 | the limit after continuing is always strictly above the month's messages, so the number is not paused again for them, and the least such limit on offer |
| PlanLimit.AssignedPlanEndsThePauseOnlyAbove | src/billing/billing.service.ts:245-276 | an assigned plan sets its own limit and ends the pause exactly when that exceeds the messages |
| PlanLimit.BillingService.ResolveLimit | src/billing/billing.service.ts:283-322 | writes the answer and closes the notices only of a number paused this month; every refusal changes nothing |
| PlanLimit.BillingService.AssignPlanTo | src/billing/billing.service.ts:245-276 | only an active paid plan is assigned; the notices close only with the pause |
| Schedule.DayIsAcceptedIff | src/business-hours/schedule.ts:77-109 | a day is accepted if and only if its times are valid and no two ranges overlap, whatever their order; what is kept is the same ranges, each over before the next starts |
| Schedule.NeighboursDecide | src/business-hours/schedule.ts:101-107 | once sorted, the check of neighbours is the check of every pair |
| Schedule.ClockIsATime | src/business-hours/schedule.ts:62-67 | every time a clock shows is accepted, and is that many minutes into the day |
| Schedule.TimeIsAClock | src/business-hours/schedule.ts:62-67 | and no other text is |
| Schedule.ValidateIsIdempotent | src/business-hours/schedule.ts:70-111 | an accepted week is accepted again as it is |
| Schedule.ValidateWeek | src/business-hours/schedule.ts:70-111 | day by day, the first problem found is the answer |
| Schedule.NextOpening | src/business-hours/schedule.ts:196-214 | the earliest opening after now outside every closure within offsets 0 to 7; none exactly when there is none |
| Schedule.OpensIff | src/business-hours/schedule.ts:192-214 | a range opens exactly when it is its day's, no closure holds the day, its first and last included, and it starts later than this minute |
| Schedule.OpensWithinTheWeek | src/business-hours/schedule.ts:196-214 | with no closure in that span and some weekday open, there is an opening |
| ScheduleText.SignatureTells | src/business-hours/schedule.ts:130-130 | two days have the same signature if and only if they have the same hours |
| ScheduleText.GroupsAreTheRuns | src/business-hours/schedule.ts:133-148 | the groups are maximal runs of days with the same hours, in order, covering each open day exactly once and no closed day |
| ScheduleText.TimeTextLosesNothing | src/business-hours/schedule.ts:122-125 | two times that read the same are the same time |
| ScheduleText.TextLosesNothing | src/business-hours/schedule.ts:133-150 | two accepted weeks have the same text if and only if they are the same week |
| ScheduleText.FormatSchedule | src/business-hours/schedule.ts:133-150 | the two loops print exactly that text |
| PhoneMatch.SuffixMissesNoStoredForm | src/common/phone-match.ts:39-45 | if two phones are the same line, the stored one's digits end with the suffix of the other |
| PhoneMatch.PrefilterFindsIff | src/common/phone-match.ts:26-45 | filtering by the suffix loses a matching phone exactly when its text does not end with those digits |
| PhoneMatch.SamePhoneIsSymmetric | src/common/phone-match.ts:26-29 | being the same phone is symmetric |
| PhoneMatch.IdsMatchTheirPhone | src/common/phone-match.ts:49-52 | an id of a phone matches it if and only if the national number does not start with 0 |
| PhoneMatch.BothShapesMatch | src/common/phone-match.ts:8-24 | a stored area, 15 and number, with or without the trunk 0, and the line's WhatsApp id are the same phone, for an area code that does not start with 0 or 54 |
| PhoneMatch.CandidateIff | src/common/phone-match.ts:14-23 | ten local digits stand for themselves, twelve for what has a mobile 15 put back after two to four digits, and others for nothing |
| PhoneMatch.FindsTheOnlyClient | src/bot/bot.service.ts:856-866 | when every owner's phone ends in six digits and the suffix leaves at most 20 candidates, the client is found if and only if exactly one owns the phone |
| PhoneMatch.OnlyTheFirstAreSeen | src/bot/bot.service.ts:856-866 | beyond the first twenty clients on the suffix, the others change nothing |
| StaffNames.KeptStandForAll | src/common/staff-names.ts:10-21 | the kept names are trimmed, distinct but for case, and stand for every name sent |
| StaffNames.StaffReadsBackIff | src/common/staff-names.ts:2-21 | the stored text reads back as the kept names if and only if none has a comma inside |
| StaffNames.SerializeStaffNames | src/common/staff-names.ts:10-21 | one pass with the lower-case names seen gives that text |
| AssistantSetup.MergeBotProfile | src/common/bot-profile.ts:76-82 | each field sent replaces or clears the stored one, and the rest stay |
| AssistantSetup.AccountIsWhole | src/common/bot-profile.ts:99-110 | the four account fields are all the number's own or all the organization's |
| AssistantSetup.SettingsAreOwnFirst | src/common/number-assistant.ts:24-34 | the bot's name, the staff and the hours in use are the number's own where it has them and else the organization's |
| AssistantSetup.HoursRead | src/business-hours/schedule.ts:113-120 | stored hours that are no accepted week read as Monday to Friday from 08:00 to 16:00, and an accepted week as itself |
| AssistantSetup.ProfileChangesOf | src/phone-numbers/assistant-setup.ts:46-65 | the changes of a setup, field by field |
| AssistantSetup.AssistantSetupData | src/phone-numbers/assistant-setup.ts:80-106 | only what differs from what the number uses is written; hours that are no week reject it |
| AssistantSetupLaws.SetupTwiceIsOnce | src/phone-numbers/assistant-setup.ts:80-106 | writing a setup a second time leaves the number as the first time left it |
| AssistantSetupLaws.SentBackWritesNothingIff | src/phone-numbers/assistant-setup.ts:80-106 | sending back what the number uses writes nothing, if and only if its two names were stored trimmed and the bot's is not an empty text |
| AssistantSetupLaws.TypedAliasIsUsed | src/phone-numbers/assistant-setup.ts:54-63 | a typed alias that is not empty is the one in use, ignoring case |
| AssistantSetupLaws.OrganizationAliasFollowsIt | src/phone-numbers/assistant-setup.ts:57-59 | the organization's alias gives the number the organization's whole account, today's and any later one |
| AssistantSetupLaws.EmptyAliasFallsBackIff | src/phone-numbers/assistant-setup.ts:54-63 | after an alias sent empty the one in use is the organization's if and only if it has none or the number has no CBU, holder or bank of its own |
| AssistantSetupLaws.BotNameIsUsed | src/phone-numbers/assistant-setup.ts:84-87 | the bot's name sent is the one in use; an empty one leaves the organization's |
| AssistantSetupLaws.PresentationIsUsed | src/phone-numbers/assistant-setup.ts:48-53 | a typed name is the one introduced; an empty one leaves the organization's |
| AssistantSetupLaws.OtherFieldsStay | src/phone-numbers/assistant-setup.ts:98-104 | every field of the number's own profile that is not changed stays as it was |
| AssistantSetupLaws.HoursAreUsed | src/phone-numbers/assistant-setup.ts:92-97 | hours that are a week are the ones in use |
| AssistantSetupLaws.StaffIsUsed | src/phone-numbers/assistant-setup.ts:88-91 | the staff sent are the ones in use, when no name has a comma inside |

## Left out

- HTTP, guards, cron triggers, the database itself, e-mail, uploads and the calls to Meta, OpenAI, Triunfo and InfoAuto: each is a step that returns or throws, or is not here.
- Prompts, product copy, listings, pagination and plain create, read, update and delete: they would only add easy members.
- Incidents: the AI explanation of an incident and the alerts that follow it; incidents are named by their position among the component's.
- Conversations: their creation and change of number, the flow state, the client link, the last page of the thread, retention and deletion. A deleted row is a row that is not there.
- A marking or a resolving of matters that fails is logged and skipped: in a run the step is then missing, and in the classes it works.
- The mark of a stopped claim on a request, which a text joined to it only overwrites, and whether the office read it.
- Quote matters: the status they share with the quote request or lead; only their own row is modelled.
- TakeoverTimeout.BotTakeoverTimeoutService.ReleaseIdleTakeovers: what it reads of a chat and what it writes are one step; `SplitSweep` takes them apart.
- The inactivity goodbye: the message sent after the claim, the hours it mentions and which number's switch is off, which is a flag of the chat here.
- AssistantActions.RunsAtMostOnce: a database failure while the outcome is being written leaves the row CONFIRMED; the model lets keeping the summary throw, as the code catches it, but not the write of the failure itself.
- The proposal's executors, who may see a proposal and the card's wording.
- Event stream: decoding bytes into characters, and the JSON inside a payload.
- Cartera import: the loop over organizations, each with its own tables and skipped when it has no credentials; the producer code of a policy or a client, which is the batch's own; the password of a new client. The instant of a run is one value for the whole of it; a movement's risk data is reduced to what the risk type reads.
- CarteraService.CarteraSyncService.SyncClientOf: completing a client fails only where the table refuses it.
- CarteraWindow.NextImportHeals: how the calendar counts months back is any function of the date, and the insurer keeps what it once listed.
- CarteraNightly.NightsAreHonestIff: the database compares the start of the stored estado in any case, as its collation does; the accents the collation also passes over are not modelled.
- CarteraSync.HighestSuplementoWins: upper case is of the letters a to z only, which decide every word the code compares with.
- Monthly close: how the live figures are computed; they are an input. Amounts are real numbers: the code rounds them to cents, halves up, and a column to its decimals, halves away from zero.
- Balance: the counts of policies, claims, debt, conversations and notices, which only add amounts; an organization without codes, which has no balance.
- PlanLimit.ContinueEndsAboveAndLeast: the catalog is taken smallest first, one row per id, every plan with at least one message, and the size of a block positive, as the platform's catalog is kept and validated.
- Prices, invoices, and who may answer for a number.
- Time zones: the local date, weekday and minute are inputs, and a date is counted from a Monday.
- Schedule.NextOpening: the phrase that says when, which only names the opening found.
- The messages built around the schedule, and whether the office is open this minute.
- Numbers and names as text: lower case is any function of texts, so nothing depends on how the platform does it, except where a lemma asks that only the empty text has the empty one's.
- AssistantSetupLaws.StaffIsUsed: a name with a comma inside is several names when read back, as `StaffNames.StaffReadsBackIff` says.
- Keys of a stored profile that are not among the twelve fields, which the code drops on the first merge.
