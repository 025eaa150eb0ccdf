# Verified model of the outreach scheduler

The repository runs outreach over a pool of Telegram accounts. Three engines take ticks over that pool: the
sender (jobs of messages), campaigns (drip steps over a segment of contacts) and the add-member engine
(filling a group). Each tick picks the accounts that may act, takes them in a rotated order, pairs them with
queued work, and updates targets, accounts, contacts and the job in place; a flood warning quarantines the
account and ends the tick. Around the engines are the contact book with its imports, the inbox with its
opt-out replies, warm-up runs that ramp new accounts, a proxy pool, spintax templates and a rate limiter.

This project models that behaviour in Dafny and proves what every tick keeps and what holds over whole runs.

| file | what it models |
|---|---|
| `Core.dfy`, `Ordering.dfy` | time; `ORDER BY key, id` and changing rows in order |
| `Models.dfy` | the rows and the database session |
| `Pacing.dfy`, `Pool.dfy`, `Capacity.dfy` | caps, delays, hours, rotation; what attempts do to the account pool; that caps are reached |
| `Spintax.dfy`, `SpintaxSearch.dfy`, `SpintaxMeaning.dfy`, `SpintaxLaws.dfy` | the rewriting loop and the meaning of nested templates |
| `Sender.dfy`, `SenderJobs.dfy`, `SenderLaws.dfy` | send jobs, their ticks and laws |
| `Campaigns.dfy`, `CampaignLaws.dfy`, `Segments.dfy` | segments, drip targets, campaign ticks and laws; whom a first start is for |
| `Destinations.dfy`, `DestinationLaws.dfy`, `Listings.dfy` | member lists, add ticks and laws; who becomes a member |
| `Warmup.dfy`, `WarmupLaws.dfy`, `WarmupFates.dfy` | warm-up runs and their laws; what becomes of each row |
| `Reports.dfy` | what ticks report against what happened |
| `Rotation.dfy` | fairness of the stateless rotation; when one account comes twice in a row |
| `Outreach.dfy` | the engines interleaved over one pool: spacing, caps, warnings |
| `Text.dfy`, `TextLaws.dfy` | the string methods, and what they mean character by character |
| `Contacts.dfy`, `ContactLaws.dfy`, `ImportLaws.dfy`, `ContactFields.dfy`, `Identity.dfy`, `SendTargets.dfy` | the contact book and addressing |
| `Inbox.dfy`, `InboxLaws.dfy`, `InboxFates.dfy`, `Consent.dfy` | paging, messages, opt-outs, and opt-outs over whole runs |
| `Findings.dfy` | concrete scenes in which the documentation promises more than the code does |
| `Proxies.dfy`, `ProxyFates.dfy` | the proxy pool |
| `RateLimit.dfy` | the in-process rate limiter |

How it is set up:

- Services that update rows are methods over `Models.Database`; each is proved equal to a specification
  function of the old state, and the laws are lemmas about those functions. What decides a function's result is
  also stated over the fields of the rows alone, without the function's own helpers.
- What the network answers is an arbitrary function of the attempt's number, so every law holds for every
  answer. Random draws are arbitrary indices. Clocks are arguments.
- Sessions do not flush before a query (`backend/app/db/session.py:29`), and recording a sent message commits
  in the middle of a tick. Each answer therefore carries a flag telling whether it flushed, and the targets as
  stored are kept apart from the targets as the tick holds them.
- Whole runs are sequences of events in which each event finds the part of the state a law is about as the
  event before left it, and everything else may be anything.

Where the code and its documentation disagree, the code is modelled:

- A job or campaign is completed by the tick after the one that empties its queue, never by that tick
  (`SenderLaws.CompletionExact`, `CampaignLaws.CompletionExact`; a scene: `Findings.EmptiedQueueStaysRunning`).
- Opt-out replies are said to be honoured permanently. They are only if the sender is a known contact when the
  reply comes (`InboxLaws.OptOutReplyExact`, `InboxLaws.StopFromStrangerIsForgotten`), a contact reached by
  phone need not be one (`Findings.StopByPhoneIsNotHeard`), and giving consent in bulk, un-ticking the flag or
  deleting the contact clears them (`Identity.OptOutSurvives`).
- Usernames are said to be unique. An import can give two contacts one username
  (exactly when: `ContactLaws.CommittedUsernamesExact`, `ContactLaws.ImportUsernamesExact`).
- Consecutive sends are said to come from different accounts. Plain failures of the sender are not remembered,
  so they may not: contacts without an identifier fail plainly (`Findings.SameAccountTwice`), and so does a warning
  without a text (`Findings.SameAccountAfterSilentWarning`). Exactly when: `Rotation.SameSenderAgain`,
  `Rotation.SameSenderByAnswers`, and before the tick `Rotation.SameSenderPossible`.
- The default window is meant to cover the whole day and leaves out its last minute (`Pacing.DefaultWindow`).
- A fixed window of `limit` hits admits up to `2 * limit - 1` in an interval of the window's length
  (`RateLimit.SlidingBound`, `RateLimit.BoundIsReached`).
- Every outreach action is said to target consenting contacts that did not opt out. Adding members queues
  others too (exactly which: `DestinationLaws.ListedThoughUnreachable`), and add ticks act on them
  (`Findings.AddTickActsOnOptedOut`; exactly when: `DestinationLaws.ConsentHoldsExactly`).

## Model

| member | source | states |
|---|---|---|
| SpintaxLaws.Spin | backend/worker/antiban/spintax.py:13-23 | the rewriting loop ends and returns the result of replacing the leftmost innermost group by a drawn option until no group is left |
| SpintaxLaws.SpinIsMeaning | backend/worker/antiban/spintax.py:13-23 | for every text, well nested or not, the results over all draws are exactly the meanings of the template the text parses to: a group means any one of its top-level options, inner groups chosen in turn |
| SpintaxLaws.SpinMeansTemplate | backend/worker/antiban/spintax.py:13-23 | soundness: spinning a written-out template gives one of its meanings, whatever is drawn |
| SpintaxLaws.SpinReachesMeaning | backend/worker/antiban/spintax.py:13-23 | completeness: for every meaning there are draws that produce it |
| SpintaxLaws.MeaningIsOfTheText | backend/worker/antiban/spintax.py:13-23 | reading back a written-out well-nested template keeps its meanings, so the meaning belongs to the text |
| Spintax.ParseShows | backend/worker/antiban/spintax.py:13-23 | every text, with any unbalanced braces, is the written form of a well-nested template |
| SpintaxSearch.SearchFindsFirst | backend/worker/antiban/spintax.py:10-20 | the search finds exactly the leftmost group that holds no braces |
| SpintaxMeaning.PlugSound | backend/worker/antiban/spintax.py:13-23 | replacing the first innermost group by one of its pieces adds no meaning |
| SpintaxMeaning.PlugComplete | backend/worker/antiban/spintax.py:13-23 | ... and together the pieces lose none |
| SpintaxLaws.PickKeepsShape | backend/worker/antiban/spintax.py:13-23 | a resolved group leaves a well-nested template with fewer groups: no brace or bar is added |
| Pacing.RotateIsRing | backend/worker/antiban/pacing.py:40-51 | on distinct ascending ids the k-th place of the rotated order is k steps round the ring, entered after the last-used id |
| Pacing.RotateKeepsAll | backend/worker/antiban/pacing.py:40-51 | rotation keeps every id as often as it was given |
| Pacing.RotateAvoidsLast | backend/worker/antiban/pacing.py:40-51 | with two or more distinct ids the last-used one never comes first |
| Pacing.InWindowIsArc | backend/worker/antiban/pacing.py:30-37 | a window is the arc of the clock from start to end, over midnight or not |
| Pacing.DefaultWindow | backend/worker/antiban/pacing.py:30-37 | the default window 00:00-23:59 shuts out the last minute of the day after its first instant |
| Pool.OrderIsUsable | backend/app/services/sender.py:226-237 | the order of a tick is the usable accounts, each once |
| Capacity.InOrder | backend/app/services/sender.py:226-237 | which accounts a tick may take, over their own fields: active, logged in, below the cap, idle for the delay |
| Capacity.SenderWorks | backend/app/services/sender.py:222-237 | when a sender tick does anything, over the fields, and that it otherwise changes nothing |
| Capacity.CampaignWorks | backend/app/services/campaigns.py:306-324 | the same for campaign ticks |
| Capacity.AddWorks | backend/app/services/destinations.py:226-243 | the same for add ticks, whose accounts and memberships come in the order of their ids |
| Capacity.BusyTick | backend/app/services/sender.py:226-266 | a tick that delivers everything charges every fit account below its cap, once, and no other |
| Capacity.CapIsReached | backend/worker/antiban/pacing.py:7-16 | the cap is reached, not only kept: in a run of such ticks a fit account has its count plus one for each tick, up to its cap |
| Sender.RunTick | backend/app/services/sender.py:210-302 | the tick leaves exactly the accounts, contacts, job and summary of the specification |
| Sender.AttemptAll | backend/app/services/sender.py:250-289 | the loop over the accounts pairs accounts and targets in order and stops after a warning, with stored rows kept apart from the session’s |
| Sender.FilterQueue | backend/app/services/sender.py:239-248 | queued targets are split into reachable ones in order and skipped ones, counted |
| SenderLaws.AttemptRecord | backend/app/services/sender.py:250-289 | the k-th attempt pairs the k-th usable account with the k-th reachable target; what delivery, warning and plain failure do to both |
| SenderLaws.TargetFate | backend/app/services/sender.py:239-289 | finished targets never change; queued ones are skipped exactly when their contact is gone, without consent or opted out; attempted ones end sent or failed; the others stay queued |
| SenderLaws.ContactFate | backend/app/services/sender.py:267-269 | exactly the contacts delivered to are touched |
| SenderLaws.QueuedAfter | backend/app/services/sender.py:239-289 | which targets are still queued after a tick |
| Capacity.TargetsByIdOrder | backend/app/services/sender.py:158-164 | the targets of a tick come in the order of their ids |
| SenderLaws.Conservation | backend/app/services/sender.py:239-302 | what leaves the queue is exactly what is reported as sent, failed or skipped |
| SenderLaws.ReportIsTrue | backend/app/services/sender.py:239-302 | the numbers sent and skipped are the numbers of targets that became sent and skipped; paused is reported exactly when the job is paused |
| SenderLaws.Progress | backend/app/services/sender.py:239-289 | a working tick that finds anything queued shortens the queue, whatever is answered |
| SenderLaws.RunEnds | backend/app/services/sender.py:210-302 | termination: more staffed ticks than queued targets leave the job paused or done |
| SenderLaws.CompletionExact | backend/app/services/sender.py:291-301 | a tick completes the job if and only if nothing was queued when it began, however stale the counted rows; done implies nothing queued |
| Reports.SenderJobAfter | backend/app/services/sender.py:258-302 | every field of a job after a working tick: paused by a warning, done when nothing was queued, else running; the account remembered is that of the last action listed |
| Findings.EmptiedQueueStaysRunning | backend/app/services/sender.py:291-301 | a scene in which a tick empties the queue and leaves the job running, whether or not it flushed |
| SenderLaws.StoredStillQueued | backend/app/services/sender.py:291-301 | the stored rows counted at the end of a tick still hold a queued target if there was one at its start |
| SenderLaws.OnlyReachable | backend/app/services/sender.py:241-248 | a tick acts only on contacts that consent and did not opt out |
| SenderLaws.BodyLaw | backend/app/services/sender.py:32-38 | the recorded text is a meaning of the template, with the link line exactly when there is a link and it is not held back |
| SenderJobs.AddTargets | backend/app/services/sender.py:96-119 | selected contacts without a target become queued targets under new ids |
| SenderJobs.AddingKeepsTargets | backend/app/services/sender.py:96-119 | adding keeps old targets as they are; new ones are queued for consenting selected contacts |
| SenderJobs.AddingCoversAll | backend/app/services/sender.py:96-119 | after adding every selected contact is a target and nobody is one twice |
| SenderJobs.AddingIs | backend/app/services/sender.py:96-119 | who is a target afterwards, over the fields: who was one, and every known contact that consents, did not opt out and passes the ids and the source given |
| SenderJobs.StartJob | backend/app/services/sender.py:122-128 | starting sets the status and, the first time, the start |
| SenderJobs.PauseJob | backend/app/services/sender.py:131-135 | pausing changes the status only |
| SenderJobs.StopJob | backend/app/services/sender.py:138-142 | stopping changes the status only |
| Campaigns.RunTick | backend/app/services/campaigns.py:296-398 | the tick leaves exactly the accounts, contacts, campaign and summary of the specification |
| Campaigns.AttemptAll | backend/app/services/campaigns.py:346-379 | the loop over the accounts, ended by a warning that leaves its target queued |
| Campaigns.FilterQueue | backend/app/services/campaigns.py:328-346 | due reachable targets in schedule order; due unreachable ones skipped; later ones passed over |
| Campaigns.MaterializeTargets | backend/app/services/campaigns.py:152-178 | the nested loop adds the rows of every step and segment contact under consecutive ids |
| Campaigns.StartCampaign | backend/app/services/campaigns.py:181-190 | starting makes the targets the first time only |
| Campaigns.PauseCampaign | backend/app/services/campaigns.py:193-197 | pausing changes the status only |
| Campaigns.StopCampaign | backend/app/services/campaigns.py:200-204 | stopping changes the status only |
| CampaignLaws.FirstStartReachesAll | backend/app/services/campaigns.py:123-178 | a first start gives every consenting contact of the segment a target for every step |
| CampaignLaws.FirstStartOnlyThese | backend/app/services/campaigns.py:123-178 | ... at the start plus the step’s offset, and nobody else gets one |
| CampaignLaws.FirstStartNoDuplicates | backend/app/services/campaigns.py:123-178 | ... and no contact gets a step twice |
| Segments.FirstStartExact | backend/app/services/campaigns.py:123-178 | over the fields of contact, segment and steps: a contact has a row for a step exactly when it consents, did not opt out, passes source, stage and tag and has not joined the excluded group; when each row is due and which template it has |
| Segments.LaterStart | backend/app/services/campaigns.py:181-190 | a later start changes the status only |
| CampaignLaws.AttemptRecord | backend/app/services/campaigns.py:346-379 | the k-th attempt pairs the k-th usable account with the k-th due target; what is recorded, charged, quarantined and left queued |
| CampaignLaws.TargetFate | backend/app/services/campaigns.py:328-379 | a target is recorded by its attempt, skipped when due and unreachable, or left as it was |
| CampaignLaws.ContactFate | backend/app/services/campaigns.py:367-373 | exactly the new leads that were sent a message become contacted |
| CampaignLaws.ReportIsTrue | backend/app/services/campaigns.py:328-398 | the reported numbers sent, joined, failed and skipped are the numbers of targets that changed to those states; paused is reported exactly when the campaign is paused |
| CampaignLaws.Conservation | backend/app/services/campaigns.py:328-398 | what leaves the queue is exactly what is reported as sent, joined, failed or skipped |
| CampaignLaws.AttemptsAddUp | backend/app/services/campaigns.py:346-379 | queued targets and sound accounts together fall by one for every skip and every attempt |
| CampaignLaws.Progress | backend/app/services/campaigns.py:328-379 | so a working tick that finds a due target lowers that sum |
| CampaignLaws.RunEnds | backend/app/services/campaigns.py:296-398 | termination: more ticks that find an account and everything due than there are queued targets leave the campaign paused or done, whatever other ticks come in between |
| CampaignLaws.CompletionExact | backend/app/services/campaigns.py:381-394 | a tick completes the campaign if and only if nothing was queued when it began; done implies nothing queued |
| Reports.CampaignAfterTick | backend/app/services/campaigns.py:346-398 | every field of a campaign after a working tick |
| CampaignLaws.OnlyReachable | backend/app/services/campaigns.py:338-346 | a tick acts only on contacts that consent and did not opt out |
| CampaignLaws.TickKeepsDrip | backend/app/services/campaigns.py:328-379 | a tick keeps schedule order and time, with any answers |
| CampaignLaws.RunKeepsDrip | backend/app/services/campaigns.py:152-379 | in every reachable state every queued target follows every executed one in (scheduled_at, id) order, and none ran early, through warnings, skips, pauses, stops and restarts |
| CampaignLaws.NoStepOvertakes | backend/app/services/campaigns.py:152-379 | no contact gets a later-scheduled step while an earlier one is queued; none runs before start plus offset |
| Rotation.CampaignTicksWalkTheRing | backend/app/services/campaigns.py:322-379 | stateless rotation refines a ring that remembers its place: the k-th recorded action of a run comes from the (start + k) mod n-th usable account |
| Rotation.CampaignTicksAreFair | backend/app/services/campaigns.py:322-379 | the accounts’ action counts differ by at most one |
| Rotation.SenderTicksWalkTheRing | backend/app/services/sender.py:238-272 | the same for sender ticks in which every attempt is delivered |
| Rotation.SenderTicksAreFair | backend/app/services/sender.py:238-272 | the accounts’ send counts differ by at most one |
| Rotation.SameSenderAgain | backend/app/services/sender.py:250-289 | exactly when a sender tick sends first from the account that sent last: it is usable and every other usable account was tried without a delivery |
| Rotation.SameSenderByAnswers | backend/app/services/sender.py:250-289 | by the answers, with no premise on them: a tick sends first from the account that sent last if and only if that account is usable, there is a target for its turn, the turns before it are plain failures, and it delivers |
| Rotation.SameSenderPossible | backend/app/services/sender.py:167-289 | before the tick: some answers make it send again from the last account, if and only if that account is usable and there is a target for its turn whose contact has an identifier; a contact without one is a plain failure, any other may be |
| Findings.SameAccountTwice | backend/app/services/sender.py:250-289 | a scene in which the account that sent last sends again though another one is usable: the first contact has no identifier |
| Findings.SameAccountAfterSilentWarning | backend/app/services/sender.py:180-181 | the same when every contact has an identifier and the first warning has no text: it is taken for a plain failure |
| Rotation.CampaignNeverRepeats | backend/app/services/campaigns.py:346-379 | a campaign acts first from its last account exactly when that is the only usable one |
| Destinations.AddMembers | backend/app/services/destinations.py:135-176 | the contacts listed, the counts and the contacts made on the way; an ambiguous identifier stores nothing |
| Destinations.RunAddTick | backend/app/services/destinations.py:217-283 | the add tick leaves exactly the accounts, memberships and summary of the specification |
| DestinationLaws.ListingCoversAll | backend/app/services/destinations.py:135-176 | after listing exactly the old members and those asked for are members, each once |
| Listings.MembersExact | backend/app/services/destinations.py:135-176 | who is a member afterwards, over the fields: who was one, who was picked with consent and without an opt-out, and whom a typed text names |
| Listings.ReportIs | backend/app/services/destinations.py:158-176 | queued is the number of members gained, all pending; queued and skipped together are the willing contacts picked and the identifiers typed |
| Listings.TypingIs | backend/app/services/destinations.py:101-132 | which texts are identifiers, and what the contact added for one looks like |
| DestinationLaws.ListedThoughUnreachable | backend/app/services/destinations.py:135-176 | exactly which unreachable contacts adding members queues: known ones, not members yet, that a typed identifier names in its normal form |
| DestinationLaws.MemberFate | backend/app/services/destinations.py:243-281 | removed contacts fail, attempted ones take the answer and the account, a flooded one stays pending, the others stay as they were |
| Reports.AddReportIsTrue | backend/app/services/destinations.py:243-283 | added and invited are the numbers of memberships that became so; with failed they are all attempts but the flooded one |
| Reports.AddActions | backend/app/services/destinations.py:262-281 | the actions listed are exactly the charges, each with the state answered |
| Reports.SenderActions | backend/app/services/sender.py:258-272 | the actions a sender tick lists are exactly its charges, each with its contact |
| Reports.CampaignActions | backend/app/services/campaigns.py:363-379 | the same for campaign ticks |
| DestinationLaws.AttemptsAddUp | backend/app/services/destinations.py:243-281 | pending memberships and sound accounts together fall by one for every attempt |
| DestinationLaws.Progress | backend/app/services/destinations.py:243-281 | so ticks that find something pending end |
| DestinationLaws.RunEnds | backend/app/services/destinations.py:217-283 | termination: as many working ticks as there are pending memberships and sound accounts leave nothing pending |
| DestinationLaws.ConsentIsNotLookedAt | backend/app/services/destinations.py:217-283 | an add tick does the same whatever the contacts’ flags are |
| DestinationLaws.ConsentHoldsExactly | backend/app/services/destinations.py:217-283 | an add tick acts on reachable contacts only, whatever is answered, if and only if it does not work at all or the pending memberships its accounts suffice for all belong to reachable or removed contacts |
| Findings.AddTickActsOnOptedOut | backend/app/services/destinations.py:217-283 | a scene in which an add tick acts on a contact that opted out, whatever is answered |
| Outreach.RunIsPaced | backend/app/services/sender.py:227-266 | over any interleaving of ticks, warm-up commands and operators the pool agrees with the log of charges |
| Outreach.ChargesAreSpaced | backend/worker/antiban/pacing.py:11-16 | two successive charges of one account, by whichever engines, are at least the minimum delay apart |
| Outreach.CapsHold | backend/worker/antiban/pacing.py:7-8 | an account is charged at most as often as its cap leaves room for at the start; a pool within its caps stays within them |
| Outreach.OneChargeEach | backend/app/services/destinations.py:243-281 | no tick of any engine charges an account twice |
| Outreach.WarningsAreBounded | backend/app/services/sender.py:273-283 | no quarantined, banned or logged-out account comes back in a run of ticks, and the warnings are exactly the active or warming accounts lost |
| Pool.AttemptsAndSound | backend/app/services/campaigns.py:357-362 | a tick never makes an account sound; a warning makes exactly one unsound |
| Pool.WarningCostsOne | backend/app/services/campaigns.py:357-362 | the attempts of a tick leave all sound accounts but the one warned last |
| Warmup.RunTick | backend/app/services/warmup.py:219-296 | the tick leaves exactly the accounts, participants and summary of the specification |
| Warmup.Visit | backend/app/services/warmup.py:238-294 | one participant’s turn: the day, the stage, at most one action |
| Warmup.StartRun | backend/app/services/warmup.py:151-169 | waiting and paused participants go on and their accounts are warming |
| Warmup.PauseRun | backend/app/services/warmup.py:172-176 | pausing changes the status only |
| Warmup.StopRun | backend/app/services/warmup.py:179-188 | every participant is done and warming accounts become active |
| Warmup.AddParticipants | backend/app/services/warmup.py:103-125 | accounts that exist and have no seat get one; an account asked for twice stores nothing |
| WarmupFates.AccountFate | backend/app/services/warmup.py:249-266 | every account in a tick, from the rows: a warming one becomes active exactly when an ongoing participant of it is past the days of the last stage, other statuses stay, and its stage is that of its last participant that advanced |
| WarmupFates.FinishedIsFree | backend/app/services/warmup.py:260-266 | over whole runs: the tick that completes a participant leaves its account not warming |
| WarmupFates.TriesExactly | backend/app/services/warmup.py:268-278 | a visit tries an action exactly when its participant is below the cap of its stage, idle for the delay, and has a group to join or a message and someone to send it to |
| WarmupFates.TriedIs | backend/app/services/warmup.py:191-216 | which action: the first group not joined; then the next message to the next target, never to itself |
| WarmupFates.TargetsInOrder | backend/app/services/warmup.py:206-207 | whom it may chat with: the partners, then the phone of every other ongoing account, by id |
| WarmupFates.TurnIs | backend/app/services/warmup.py:243-290 | every field of a participant after its visit |
| WarmupFates.StartedRow | backend/app/services/warmup.py:151-160 | waiting and paused participants are ongoing from where they were; the others stay |
| WarmupFates.RunAfter | backend/app/services/warmup.py:151-188 | what starting, stopping and adding leave of the run itself |
| WarmupFates.TickKeepsRun | backend/app/services/warmup.py:219-296 | a tick changes nothing of the run but its participants |
| WarmupFates.StartedAccount | backend/app/services/warmup.py:161-167 | accounts whose participant was set going are warming, with its stage and the first such time; the others stay |
| WarmupFates.StoppedRow | backend/app/services/warmup.py:179-182 | every participant is done |
| WarmupFates.StoppedAccount | backend/app/services/warmup.py:183-185 | the warming accounts of the run become active; nothing else changes |
| WarmupFates.AddedRows | backend/app/services/warmup.py:103-125 | who gets a seat and what the new row looks like |
| Reports.WarmupReportIs | backend/app/services/warmup.py:233-294 | the counts are the numbers of participants that advanced and completed, actions and errors follow the visits |
| WarmupLaws.StepRow | backend/app/services/warmup.py:219-296 | every event treats each participant by itself |
| WarmupLaws.StageClimbs | backend/app/services/warmup.py:249-266 | a stage never goes down and rises by one at most, by ticks only; a finished participant never changes again |
| WarmupLaws.RampTakesItsTime | backend/app/services/warmup.py:249-266 | a participant has spent the days of every earlier stage, and completes no sooner than the days of all stages, with any clock |
| WarmupLaws.RampEndsInTime | backend/app/services/warmup.py:249-266 | over any events but a stop, with ticks at most a gap apart that find the account, it completes no later than the days of all stages plus one gap per stage |
| WarmupLaws.JoinsBeforeChats | backend/app/services/warmup.py:194-216 | the joined groups are a duplicate-free prefix of the deduplicated list, nobody chats before joining all, actions keep the run’s delay |
| WarmupLaws.DailyCapsHold | backend/app/services/warmup.py:268-290 | with a clock that never goes back every action is within the cap of its stage, counting all of its UTC day |
| WarmupLaws.DayTotalsHold | backend/app/services/warmup.py:268-290 | a UTC day with any action holds no more of them than the cap of the stage its last action was done in |
| WarmupLaws.TickKeepsSound | backend/app/services/warmup.py:260-266 | warm-up ticks change no status but warming to active |
| ContactBook.ImportContacts | backend/app/services/contacts.py:118-208 | the import with its two dictionaries leaves exactly the rows and counts of the specification |
| ImportLaws.RowFate | backend/app/services/contacts.py:126-193 | each row by its raw cells: unreadable, without identifier, without consent, about the contact its phone or else its username is listed for, or a new one; what is counted and which fields change |
| ImportLaws.CountsAre | backend/app/services/contacts.py:126-208 | the five counts of an upload in terms of its cells |
| ImportLaws.ConsentIsGiven | backend/app/services/contacts.py:144-193 | after an upload a contact consents exactly if it did before or a row with a cell that gives consent stored it |
| ImportLaws.PhoneForm | backend/app/services/contacts.py:48-59 | a phone is a plus and the digits of the cell, and there is one exactly when there is a digit |
| ImportLaws.UsernameForm | backend/app/services/contacts.py:62-66 | a username is what stands after the at signs of the stripped cell, in lower case |
| TextLaws.StripMeans | backend/app/services/contacts.py:48-66 | stripping takes away exactly the whitespace at both ends |
| TextLaws.SpaceCodes | backend/app/services/contacts.py:48-66 | which characters are whitespace |
| TextLaws.DropLeadingMeans | backend/app/services/contacts.py:62-66 | exactly the leading at signs are dropped |
| TextLaws.LowerMeans | backend/app/services/contacts.py:62-66 | lower case changes the letters A to Z only, one by one |
| TextLaws.DigitsOfConcat | backend/app/services/contacts.py:48-59 | the digits of two texts joined are those of the first and then those of the second |
| TextLaws.DigitsOfChar | backend/app/services/contacts.py:48-59 | ... and of a character the character itself, if it is one |
| ContactBook.CreateContact | backend/app/services/contacts.py:357-387 | stores a normalised contact or reports the field another contact has |
| ContactFields.CreateIs | backend/app/services/contacts.py:333-387 | when creating is refused, and every field of the contact it stores |
| ContactBook.EditContact | backend/app/services/contacts.py:404-436 | keeps one identifier, reports conflicts, keeps the lead type in step |
| ContactFields.EditIs | backend/app/services/contacts.py:404-436 | when editing is refused, and every field it leaves |
| ContactBook.FindOrCreateContact | backend/app/services/destinations.py:101-132 | a typed identifier is found in normal form or added with consent; several matches raise |
| ContactBook.SavePeerAsContact | backend/app/services/inbox.py:403-499 | creates or updates the contact of an inbox peer and links the conversation |
| ContactFields.SaveIs | backend/app/services/inbox.py:403-499 | when saving a peer is refused, and every field of the contact it adds or updates |
| ContactFields.SubjectIs | backend/app/services/inbox.py:425-445 | whom a save is about: a contact with a typed identifier, else the peer’s own |
| ContactFields.PeerIs | backend/app/services/inbox.py:38-53 | the contact of a peer: the only one with its Telegram id, else the only one with its username; two are an error |
| ContactFields.PeerNameIs | backend/app/services/inbox.py:56-59 | a peer’s username is stored without at signs and in lower case, unless nothing is left |
| ContactBook.BulkSetConsent | backend/app/services/contacts.py:492-503 | sets consent for known ids and counts them |
| ContactBook.SetConsentMeans | backend/app/services/contacts.py:492-503 | giving consent clears the opt-out of exactly the listed contacts; taking it away leaves opt-outs |
| ContactFields.ConsentIs | backend/app/services/contacts.py:492-503 | the fields of every contact after a bulk change |
| ContactFields.FlagsAre | backend/app/services/inbox.py:362-375 | stage and flags after an edit, an opt-out reply and an operator’s status: opting out by any of them sets the flag |
| ContactLaws.ImportRowKeepsPhones | backend/app/services/contacts.py:126-193 | after every row each contact with a phone is the one the phone dictionary points to, whatever entries went stale |
| ContactLaws.ImportKeepsPhonesUnique | backend/app/services/contacts.py:126-193 | an upload never makes two contacts share a phone |
| ContactLaws.ImportAddsUp | backend/app/services/contacts.py:126-208 | every row is counted once, the book grows by exactly the imported rows, nobody is removed and no opt-out changes |
| ContactLaws.ImportUsernamesExact | backend/app/services/contacts.py:126-193 | usernames stay unique after every row if and only if no row matched by phone carries another contact’s username |
| ContactLaws.CommittedUsernamesExact | backend/app/services/contacts.py:126-208 | the book an upload leaves has two contacts with one username if and only if some row gave its contact another one’s username and no later row took it from either |
| ContactLaws.UsernameClashExample | backend/app/services/contacts.py:126-193 | a concrete upload that gives two contacts one username |
| ContactLaws.NormalizePhoneIsStable | backend/app/services/contacts.py:48-59 | normalising a phone again changes nothing |
| ContactLaws.NormalizeUsernameIsStable | backend/app/services/contacts.py:62-66 | normalising a username again changes nothing exactly when the first result does not begin with whitespace |
| ContactLaws.UsernameNotStable | backend/app/services/contacts.py:62-66 | a username that normalises differently the second time |
| Identity.OpKeepsUnique | backend/app/services/contacts.py:333-436 | no operation breaks unique phones, and none but a clashing upload breaks unique usernames |
| Identity.PhonesStayUnique | backend/app/services/contacts.py:126-193 | phones stay unique under every sequence of operations, uploads included |
| Identity.IdentitiesStayUnique | backend/app/services/contacts.py:333-436 | phones and usernames both stay unique under every sequence of operations without a clashing upload |
| Identity.IdentitiesStayUniqueByHand | backend/app/services/contacts.py:333-436 | in particular under every sequence of operations without uploads |
| Identity.FirstMatchDoesNotMatter | backend/app/services/inbox.py:425-454 | when both typed identifiers match different contacts the save is refused, whichever row comes first |
| Identity.OptOutSurvives | backend/app/services/contacts.py:492-503 | an opt-out survives an operation exactly when that is not consent given again, the flag un-ticked or the contact deleted |
| Inbox.GetOrCreateConversation | backend/app/services/inbox.py:62-107 | finds the peer’s conversation and fills in what it did not know, or opens one |
| Inbox.RecordIncoming | backend/app/services/inbox.py:110-166 | the message, the conversation and the sender’s contact after a message; an ambiguous sender stores nothing |
| Inbox.HearMessage | backend/app/services/inbox.py:140-162 | an opt-out or a first reply, on the conversation and the contact |
| Inbox.MarkRead | backend/app/services/inbox.py:355-359 | clears the unread count |
| Inbox.SetStatus | backend/app/services/inbox.py:362-375 | moves the linked contact’s stage along, except for blocked; opted-out sets the flag |
| InboxFates.OptOutIs | backend/app/services/inbox.py:14-19 | which texts opt out: six words, and everything that begins with stop |
| InboxFates.MessageIs | backend/app/services/inbox.py:140-162 | every field of contact and conversation after a message |
| InboxFates.ChosenIs | backend/app/services/inbox.py:72-88 | which conversation a message belongs to |
| InboxFates.LearnsOnlyNew | backend/app/services/inbox.py:99-106 | a conversation learns only what it did not know |
| InboxFates.NewIs | backend/app/services/inbox.py:89-98 | what a new conversation knows |
| InboxFates.NameIs | backend/app/services/inbox.py:124-130 | the name shown: the peer’s, else the contact’s name, username, phone or number |
| InboxLaws.PageIsNewest | backend/app/services/inbox.py:298-324 | a page is the newest part of what matches, oldest first |
| InboxLaws.HasOlderMeans | backend/app/services/inbox.py:327-338 | there is more exactly when something matches before the page’s first message |
| InboxLaws.PagingLosesNothing | backend/app/api/inbox.py:236-267 | paging back with any limits ends and gives exactly the thread as it was at the start, in order and each message once, whatever arrives meanwhile |
| InboxLaws.OptOutReplyExact | backend/app/services/inbox.py:152-157 | an opt-out reply makes exactly its sender’s contact unreachable, if the sender is a known contact |
| InboxLaws.SavedPeerReachable | backend/app/services/inbox.py:456-494 | exactly when a contact can be written to after its peer was saved; the conversation’s status does not matter |
| InboxLaws.StopFromStrangerIsForgotten | backend/app/services/inbox.py:152-157 | STOP from a peer that is no contact is forgotten when the peer is saved |
| Findings.StopByPhoneIsNotHeard | backend/app/services/inbox.py:38-53 | STOP from a contact known by phone, whose Telegram id was never resolved, finds nobody, and the next sender tick writes to the contact again |
| Consent.OptOutStays | backend/app/services/inbox.py:152-157 | a recorded opt-out is still there after any events that do not clear it |
| Consent.OptOutIsHonoured | backend/app/services/inbox.py:152-157 | once an opt-out is recorded no sender or campaign tick acts on the contact, whatever comes in between, until it is explicitly cleared |
| Consent.OptOutHoldsFromItsRecord | backend/app/services/inbox.py:152-157 | ... counted from the reply or operation that records it |
| Consent.ReplyIsRecorded | backend/app/services/inbox.py:152-157 | an opt-out message of a known contact records an opt-out |
| ProxyPool.AssignFreeProxy | backend/app/services/proxies.py:133-156 | the free healthy proxy with the lowest id; an account that has one keeps it |
| ProxyPool.ReleaseProxy | backend/app/services/proxies.py:159-166 | both sides of an assignment are cleared |
| ProxyPool.UpdateAccount | backend/app/api/accounts.py:125-153 | releasing, choosing and auto-assigning a proxy, and the two refusals |
| ProxyPool.DeleteAccount | backend/app/api/accounts.py:183-203 | the account gives its proxy back and is gone |
| ProxyPool.ImportProxies | backend/app/services/proxies.py:98-130 | new addresses are added once, repeated and stored ones skipped, malformed lines reported |
| ProxyFates.AssignIs | backend/app/services/proxies.py:133-156 | which proxy an account gets, over the fields: the lowest active, untaken one not known dead |
| ProxyFates.EditIs | backend/app/api/accounts.py:125-153 | every case of an account edit, with the two refusals |
| ProxyFates.DeleteIs | backend/app/api/accounts.py:183-203 | the account lets go of its proxy; the other accounts stay |
| ProxyFates.ImportReports | backend/app/services/proxies.py:98-130 | every address is imported or skipped, unreadable texts are listed in order |
| ProxyFates.ImportAdds | backend/app/services/proxies.py:98-130 | what a new row looks like, and that its address is some line’s |
| ProxyPool.ChoosingOwnChangesNothing | backend/app/api/accounts.py:131-149 | choosing the proxy an account already holds changes nothing |
| ProxyPool.ImportKeeps | backend/app/services/proxies.py:98-130 | an upload keeps stored rows, adds unassigned ones and never an address twice |
| ProxyPool.ImportCovers | backend/app/services/proxies.py:98-130 | every well-formed address of an upload is in the pool afterwards |
| ProxyPool.PoolStaysOneToOne | backend/app/services/proxies.py:98-166 | in every reachable state a proxy names an account exactly when the account names it, and addresses are unique |
| ProxyPool.NoSharedProxy | backend/app/services/proxies.py:133-166 | no two accounts ever share a proxy |
| RateLimit.MemoryStore.Hit | backend/app/ratelimit.py:25-34 | one hit reads and overwrites its key’s bucket only |
| RateLimit.SlidingBound | backend/app/ratelimit.py:25-34 | any interval of one window’s length admits at most 2 * limit - 1 hits of a key |
| RateLimit.BoundIsReached | backend/app/ratelimit.py:25-34 | and that bound is reached, for every window |
| RateLimit.WindowAdmitsFirst | backend/app/ratelimit.py:25-34 | a window admits exactly its first limit hits |
| RateLimit.KeysAreIndependent | backend/app/ratelimit.py:25-34 | hits on other keys never change an answer |
| RateLimit.RemainingIsLeft | backend/app/ratelimit.py:25-34 | exactly `remaining` further hits of the key are let in before its window ends |
| RateLimit.RetryAfterWait | backend/app/ratelimit.py:25-34 | when waiting for the reported time is enough: exactly when the fraction of a second left rounds up, to the even second for a half, or is nothing |
| RateLimit.WaitTooShort | backend/app/ratelimit.py:25-34 | with 1.4 seconds left the reported wait is too short |
| SendTargets.SendTargetRoundTrip | backend/app/services/contacts.py:573-590 | a contact is addressed by number exactly when it has neither username nor phone, and then by its stored Telegram id |
| SendTargets.AddressIs | backend/app/services/contacts.py:573-590 | the address text: username after an at sign, else phone with one plus, else the number |
| SendTargets.CoerceNumeral | backend/engine/actions.py:67-83 | printing an integer and reading it back are inverse |
| SendTargets.CoerceRaises | backend/engine/actions.py:67-83 | reading a target raises exactly on two or more minus signs before a numeral |

## Left out

- Outreach.CapsHold: the pool has the same accounts throughout a run; creating and deleting accounts in between is not an event.
- Outreach.WarningsAreBounded: starting a warm-up run, logging in and setting a status by hand are left out of its runs, because each of them can bring an account back.
- Consent.OptOutIsHonoured: about sender and campaign ticks only; add ticks and warm-up do not look at consent.
- WarmupLaws.DailyCapsHold: needs a clock that never goes back; with one that does, the daily count starts again on the earlier day.
- WarmupLaws.RampEndsInTime: about runs that nobody stops and whose ticks find the participant's account: a stop ends the ramp early and a tick without the account does nothing for it.
- ProxyPool.ImportProxies: takes lines already parsed; the URL and colon grammar of proxy lines and the type and credential columns are not modelled.
- ProxyPool.UpdateAccount: the label, the engine's rebinding of a live client and the audit record are not modelled.
- ContactBook.ImportContacts: takes rows already read from CSV or XLSX; UTM columns are not modelled.
- InboxLaws.PagingLosesNothing: about paging without a search text; deleting a conversation meanwhile is not modelled.
- Inbox.RecordIncoming: previews, times, media and message types of messages are not modelled.
- Sender.RunTick: the error text of a failed target is not modelled; a tick is one step, so a tick of the worker and one of the API on the same job at the same time are not.
- Campaigns.RunTick: template rendering, the result text and the group membership recorded by an invite are not modelled.
- Destinations.RunAddTick: the method and error columns of a membership are not modelled.
- Sender.AttemptAll: the error text of a failed target is not modelled.
- Campaigns.AttemptAll: the error text of a failed target and the membership recorded by an invite are not modelled.
- Warmup.RunTick: the error texts in the summary are not modelled, only whose they are.
- Inbox.HearMessage: the conversation's time and preview of the last message are not modelled.
- InboxLaws.PageIsNewest: about pages with a limit and without a search text.
- ProxyPool.DeleteAccount: logging the account out of the engine and the audit record are not modelled.
- Warmup.AddParticipants: removing a participant is not an event of the runs.
- DestinationLaws.RunEnds: about runs in which the engine answers with settled states and nobody makes an account sound again.
- `parse_hhmm`, missing schedule times and naive datetimes: windows are minutes after midnight and times are whole microseconds in UTC.
- Unicode: stripping, lower-casing and digits are those of ASCII.
- The Redis branch of the limiter, the engine session manager, Telegram calls, bots, referrals, analytics, backups, authentication, routing and the frontend are not part of this model.
- Nothing was executed.
