# The drop-mining engine, modelled and proved

This project models the part of twitch-drops-miner-go that decides what to earn, runs a watch
session to its end, and paces its requests, and proves what that part keeps over all its inputs and runs.

| file | models |
|---|---|
| `Common.dfy` | option and result types, filtering and counting |
| `Inventory.dfy` | campaigns, drops, preconditions, earnability (`internal/inventory/campaign.go`) |
| `Earnability.dfy` | earnability over time; readiness against earnability; eligibility as documented and as coded |
| `Ranking.dfy` | priority sort and selection (`internal/inventory/selector.go`) |
| `Queue.dfy` | the operator's queue and its agreement with the selector (`cmd/tdm/queue.go`) |
| `Switching.dfy` | channel switching (`internal/inventory/switch.go`) |
| `Claiming.dfy` | the server's answer to a claim; reconciling minutes (`claim.go`, `reconcile.go`) |
| `Session.dfy` | the watch session's state and the sections of code that change it (`internal/session/watch_session.go`) |
| `SessionRuns.dfy` | its loops interleaved: safety, completion, exclusion |
| `SessionStops.dfy` | what ends a session and what does not; since when the channel is down |
| `SessionTermination.dfy` | how long a session can tick, and what the bound rests on |
| `SessionClaims.dfy` | which drop a trigger ends up claiming |
| `RateLimiter.dfy`, `RateProtocol.dfy` | the request limiter, and its callers, timer and close interleaved (`internal/gql/ratelimit.go`) |
| `RetryLoop.dfy`, `Batch.dfy` | the retrying request loop and concurrent chunked batches (`internal/gql/client.go`) |
| `Backoff.dfy` | exponential backoff over the reals (`internal/gql/backoff.go`) |
| `TopicSync.dfy` | topic subscriptions over a reconnecting socket (`internal/pubsub/connection.go`, `topics.go`) |
| `Watching.dfy` | the single-channel beacon watcher (`internal/channel/watcher.go`) |
| `Sweep.dfy`, `SweepOutcome.dfy` | sweeping up unclaimed drops with a cooldown; what a sweep asks for and what comes of it (`internal/inventory/claim.go`) |
| `ConfigLists.dfy` | the three operator lists in memory, on disk and offline (`internal/daemon/supervisor.go`, `cmd/tdm/`, `internal/config/persist.go`) |

## How it is built

Code that changes fields becomes a class: each section that runs under one lock is a method, and its
contract equates the fields after the call, read off by `View()`, with a function of the fields before.
Where several goroutines share that state, a `World` holds the state together with where every goroutine
is; `Exec(w, events)` is the world after any list of events that were all possible when they came. In the
session, the limiter, the watcher and the topic client the methods' contracts use the functions that the
steps are made of, or the steps themselves; a whole call of `SyncTopics` is shown to be a stretch of such a
run (`SyncPass`). The main results quantify over all lists of events, so over all interleavings. Lemmas whose names end in
`Exact` say what an operation does in terms of the data alone, without the functions its contract is made of. Replies of
servers, random draws, the clock and failing writes are arguments of the events.

- The pointer `activeDrop` is an index into the array of drops that the session and its campaign share, so
  that a claim is seen by the next search for an earnable drop.
- A trigger and the claim it leads to are separate steps. The claim re-reads the active drop.
- Instants and minutes are integers. The keyword exclude list is a predicate on texts.

## What is assumed, and where

- Distinct drop IDs within a campaign: `ReadyExact`, `EarnableEntryIsReady`, `ReadyEntryIsEarnable` and
  `FirstDropIsReady` only. `ReadyByLast` says what readiness is for any IDs, and `ReadyAgreement` exactly
  when it is the intended one.
- Nested, non-empty drop windows: `EndpointTestExact` only. `EndpointTestAgreement` is the exact condition
  for any windows.
- Faithful reports (never below the local minutes of the active drop), a timeout of at least one time unit
  and minutes not over the required ones: the bound on ticks only. `OscillationNeverEnds` shows that without
  faithful reports no session at all has a bound, and `BoundedExactlyByTimeout` that with them a session has
  one exactly when it has a timeout.
- Ticks at least one time unit apart: a `Tick` event is possible once per instant.
- Each release matches one granted acquire: in the limiter's runs only a caller that holds a slot releases one. The
  clock does not go back. The rate bound is proved for every capacity, also for capacities below 1.
- The exclude keywords are fixed for a session, which copies them when it is built.
- Lists of games are not longer than the largest integer, as no slice is: the results on priorities and order only.
- The list keys of the config file hold lists, and no environment variable overrides them.

## Where the code and its comments differ

- `Eligible` is described as always requiring a linked account and as gating campaigns whose rewards are
  exclusively badges or emotes. The code gates every campaign with at least one such reward, and then does
  not look at the link. The model follows the code. `EligibleAgreement` says for which campaigns and settings
  the two agree. It matters for the queue, which can list an unlinked badge campaign as ready
  (`ReadyButUnlinked`), and not for the selector, which picks linked campaigns only (`SelectedIsLinked`).
- The limiter is described as holding a capacity within a rolling window. What holds over any interval of
  one window is twice the capacity less one, and that is attained (`RateBound`, `RateBoundIsSharp`). The
  described bound holds exactly for capacities up to 1 (`RollingBoundExact`).
- A claim is not always for the drop whose minutes triggered it. It is for whichever drop is active when the
  claim begins. The two can differ exactly in sessions that have a PubSub client and a successor to their
  first drop (`MistargetExact`, `SuccessorByWindows`).

## Model

Handlers of one line, such as constructors, resets and getters, have no row.

| member | source | states |
|---|---|---|
| Inventory.PreconditionsChain | internal/inventory/campaign.go:202-212 | the collected set holds exactly the IDs that some unclaimed drop lists as a precondition |
| Inventory.DropPreconditionsMet | internal/inventory/campaign.go:214-230 | true if and only if every precondition is the ID of some claimed drop |
| Inventory.BaseEarnConditions | internal/inventory/campaign.go:232-247 | decides the time-independent half of earnability, given the right chain set |
| Inventory.FirstEarnableDrop | internal/inventory/campaign.go:321-333 | returns the least earnable index, and none exactly when nothing is earnable |
| Inventory.CanEarnNow | internal/inventory/campaign.go:297-309 | true if and only if some drop is earnable now on the channel, so exactly when a first earnable drop exists |
| Inventory.CanEarnBefore | internal/inventory/campaign.go:336-349 | decides the endpoint test over the campaign's and the drops' windows |
| Inventory.PreconditionStatus | internal/inventory/campaign.go:176-199 | the status shown: claimed, excluded, blocked by the first precondition not claimed in the map by ID, or ready |
| Earnability.CanProgressExact | internal/inventory/campaign.go:232-247 | the base conditions: unclaimed, minutes asked for, no excluded text, every precondition the ID of a claimed drop, and a reward or an unclaimed dependent |
| Earnability.EarnableExact | internal/inventory/campaign.go:249-291 | a drop is earnable on a channel if and only if the account is linked, both windows are open, the campaign is valid and admits the channel by list and by game, and the drop can progress |
| Earnability.EndpointExact | internal/inventory/campaign.go:336-349 | the endpoint test holds if and only if the linked, valid campaign and some drop that can progress reach into the interval |
| Earnability.FoundOnChannel | internal/inventory/campaign.go:258-291 | a drop found on a channel implies the listed channel by ID or login and the game, or one of the two special games |
| Earnability.StatusExact | internal/inventory/campaign.go:169-199 | claimed before excluded before blocked; blocked by the first precondition whose last drop is unclaimed, under that drop's name or the bare ID |
| Earnability.EarnableSometimeExact | internal/inventory/campaign.go:249-291 | a campaign is earnable at some instant of [now, stamp) if and only if some drop meets the base conditions and the three windows overlap |
| Earnability.EndpointTestComplete | internal/inventory/campaign.go:336-349 | the endpoint test misses no campaign that is earnable at some instant of the interval, whatever its windows |
| Earnability.EndpointTestExact | internal/inventory/campaign.go:336-349 | with nested non-empty windows the endpoint test holds if and only if the campaign is earnable at some instant |
| Earnability.EndpointTestAgreement | internal/inventory/campaign.go:336-349 | for any windows the test and earnability at some instant agree if and only if an accepted campaign has a base-earnable drop whose windows overlap |
| Earnability.EndpointTestNeedsNesting | internal/inventory/campaign.go:253-255 | a drop window that closes before its campaign opens passes the test and is never earnable |
| Earnability.ByIdClaimed | internal/inventory/campaign.go:184-192 | the lookup by ID finds a claimed drop if and only if the last drop of that ID is claimed |
| Earnability.FirstUnmetReady | internal/inventory/campaign.go:188-198 | the scan finds no unmet precondition if and only if the last drop of each listed ID is claimed |
| Earnability.ReadyByLast | internal/inventory/campaign.go:176-199 | what "Ready" means whatever the IDs: unclaimed, unexcluded, and the last drop of each precondition's ID claimed |
| Earnability.ReadyExact | internal/inventory/campaign.go:169-199 | with distinct IDs "Ready" is shown exactly for unclaimed, unexcluded drops whose preconditions are met |
| Earnability.ReadyAgreement | internal/inventory/campaign.go:169-199 | with repeated IDs "Ready" and met preconditions agree if and only if met preconditions have their last drops claimed |
| Earnability.ReadyNeedsDistinctIds | internal/inventory/campaign.go:184-198 | with a repeated ID an earnable drop can be shown as blocked |
| Earnability.EligibleExact | internal/inventory/campaign.go:114-119 | with a badge or emote among the rewards the setting decides, otherwise the link |
| Earnability.EligibleAgreement | internal/inventory/campaign.go:110-119 | exactly for which campaigns and settings the code is what its comment says |
| Earnability.EligibleUnlinked | internal/inventory/campaign.go:110-119 | an unlinked campaign is eligible if and only if the setting is on and it has a badge or emote |
| Earnability.BadgeCampaignIsEligible | internal/inventory/campaign.go:110-119 | a running unlinked badge campaign is eligible, against the comment |
| Earnability.EarnableIsLinked | internal/inventory/campaign.go:258-265 | no earnability test lets an unlinked campaign through |
| Ranking.PriorityIndexIsFirst | internal/inventory/selector.go:76-83 | the first position of the game in the list, and the largest integer exactly when it is not listed |
| Ranking.SortByPriority | internal/inventory/selector.go:61-74 | the sorted copy is a permutation in which no later campaign is listed before an earlier one, of those listed alike none ends before an earlier one, and peers keep their order |
| Ranking.BeforeExact | internal/inventory/selector.go:63-72 | the comparison: listed before, or listed alike and ending earlier |
| Ranking.RankedInPriorityOrder | internal/inventory/selector.go:56-74 | the ranking is in that order, stated on the names, the ends and the input alone |
| Ranking.RankedIsPermutation | internal/inventory/selector.go:62-73 | ranking keeps the multiset of campaigns |
| Ranking.RankedIsStableSort | internal/inventory/selector.go:56-73 | the ranking is ordered by priority index and then end, and keeps tied campaigns in their order |
| Ranking.StableSortUnique | internal/inventory/selector.go:63-72 | two stable sorts of the same campaigns are equal, whatever algorithm made them |
| Ranking.SortByPriorityIsTheStableSort | internal/inventory/selector.go:56-74 | a sequence is a stable sort of the campaigns if and only if it is the ranking |
| Ranking.RankingCommutesWithFilter | internal/inventory/selector.go:31-50 | ranking what passes a filter gives what passes it in the ranking, in the same order |
| Ranking.SelectCampaign | internal/inventory/selector.go:25-54 | returns the first campaign of the unfiltered ranking that is not excluded, is eligible and is earnable within the hour: none such is listed before it, listed alike and ending earlier, or a peer and before it among the candidates; none only when there is none |
| Ranking.FirstOfRanking | internal/inventory/selector.go:50-53 | the head of the ranked survivors is the first qualifying campaign of the whole ranking |
| Queue.SplitEligible | internal/inventory/fetch.go:64-77 | both halves keep the order, every campaign lands in the half its eligibility says, and each skipped one carries its reason |
| Queue.ReasonIsTheCause | internal/inventory/fetch.go:64-77 | changing what the reason names makes the campaign eligible, and changing the other thing does not |
| Queue.RunningCampaigns | cmd/tdm/queue.go:120-136 | the campaigns kept are exactly the eligible, unexcluded, running ones, in order |
| Queue.BuildQueue | cmd/tdm/queue.go:119-156 | the entries are those of the ranked running campaigns, drop by drop |
| Queue.EntryAt | cmd/tdm/queue.go:140-154 | where each drop of each campaign stands in the queue, and what is shown there |
| Queue.EntryExact | cmd/tdm/queue.go:143-152 | which field of the campaign and the drop each field of an entry shows |
| Queue.InQueueExact | cmd/tdm/queue.go:120-136 | which campaigns are queued, in terms of rewards, setting, link, name and window |
| Queue.FirstSurvivesFilter | cmd/tdm/queue.go:127-138 | the first match of a list is the first match of what a filter keeps, if the filter keeps it |
| Queue.QueueAgreesWithSelector | cmd/tdm/queue.go:112-138 | the selected campaign is the first of the queue's ranking that is earnable within the hour if and only if it is running |
| Queue.EarnableEntryIsReady | cmd/tdm/queue.go:142-152 | the queue entry of an earnable drop reads ready |
| Queue.FirstDropIsReady | cmd/tdm/queue.go:119-156 | the drop a session on the selected campaign starts with is in the queue, at a stated place, as ready |
| Queue.ReadyEntryIsEarnable | cmd/tdm/queue.go:112-118 | a ready entry of a running campaign is earnable if and only if the account is linked, minutes are asked for, a reward or a dependent exists and the drop's window is open |
| Queue.SelectedIsLinked | internal/inventory/selector.go:38-53 | whatever the badge setting, the selected campaign is linked |
| Queue.QueuedUnlinked | cmd/tdm/queue.go:119-136 | an unlinked campaign is queued if and only if the setting is on, it has a badge or emote, is not excluded and is running |
| Queue.ReadyButUnlinked | cmd/tdm/queue.go:119-156 | such a campaign's drop is shown as ready though at no instant and on no channel it can be earned |
| Switching.FirstWantedRange | internal/inventory/switch.go:13-24 | the first wanted game that matches by ID or non-empty name, and the largest integer exactly when none does |
| Switching.PriorityExact | internal/inventory/switch.go:13-24 | the position of the first wanted game that an online channel's game matches; offline, without a game or unmatched it is the largest integer |
| Switching.BetterExact | internal/inventory/switch.go:29-42 | better means matching where the current channel does not match up to there, or matching alike and alone being on the channel list |
| Switching.SwitchIsRankOrder | internal/inventory/switch.go:29-42 | the switch test is the strict order of a rank below 2(n + 1) for n wanted games |
| Switching.DecideExact | internal/inventory/switch.go:72-120 | nothing within the grace window; otherwise the first candidate of smaller rank, and no switch exactly when there is none |
| Switching.DecideIdle | internal/inventory/switch.go:80-94 | with nothing watched the first candidate is taken, or none when there is none |
| Switching.StandardGrace | internal/inventory/switch.go:50-59 | the standard window keeps an offline channel for 120 seconds |
| Switching.SwitchesBoundedByRank | internal/inventory/switch.go:104-113 | every switch lowers the rank, so switches made plus the rank reached never exceed the starting rank |
| Switching.NoPingPong | internal/inventory/switch.go:68-120 | over any candidate lists a watcher switches at most 2(n + 1) - 1 times |
| Switching.NoPingPongIsSharp | internal/inventory/switch.go:68-120 | for any list of games that do not match one another some candidate lists bring about that many switches |
| Claiming.ReconcileMinutes | internal/inventory/reconcile.go:45-75 | minutes in range become the drop's as they are, others the nearest bound; changed exactly when the drop changed; no other drop is touched |
| Claiming.JudgeExact | internal/inventory/claim.go:69-88 | the four results of a claim by status and link: already claimed is granted whatever the link, eligible unless reported not linked |
| Session.WatchSession.constructor | internal/session/watch_session.go:209-218 | a session begins with the first earnable drop active and the progress clock at now |
| Session.WatchSession.TickChecks | internal/session/watch_session.go:273-289 | a tick stops for the grace time before it stops for the no-progress time |
| Session.WatchSession.OnReport | internal/session/watch_session.go:295-308 | a report moves only the active drop's minutes, resets the clock only on change, and asks for a claim if and only if it is about that drop and its minutes reach the required ones |
| Session.ReportExact | internal/session/watch_session.go:295-308 | all a report changes, field by field, for minutes below, within and above the range |
| Session.ClaimMessageExact | internal/session/watch_session.go:416-424 | all a claim message changes, and when it asks for a claim |
| Session.ClaimAskedAtZeroRemaining | internal/inventory/campaign.go:58-65 | a report asks for a claim if and only if it is about the active drop and leaves it no minutes remaining |
| Session.WatchSession.OnDropClaim | internal/session/watch_session.go:416-424 | a claim message stores the instance ID and asks for a claim of the active drop |
| Session.WatchSession.OnStreamDown | internal/session/watch_session.go:350-355 | the first stream-down sets the offline time; later ones keep it |
| Session.WatchSession.Watchdog | internal/session/watch_session.go:452-459 | the watchdog stops exactly when the offline grace is used up |
| Session.StopsExact | internal/session/watch_session.go:273-289 | at which instants a tick stops for the channel, for lack of progress or not at all, and the watchdog for the channel |
| Session.WatchSession.EnterClaim | internal/session/watch_session.go:479-485 | the claim is for the drop active at that moment, if it is unclaimed |
| Session.WatchSession.OnClaimReply | internal/inventory/claim.go:69-104 | the drop becomes claimed, with its claim ID and full minutes, exactly for the two accepted statuses with the account not known to be unlinked |
| Session.SettleExact | internal/inventory/claim.go:69-104 | a grant claims that drop with full minutes under the ID sent, and any other reply changes nothing |
| Session.WatchSession.AdvanceToNext | internal/session/watch_session.go:533-551 | the next active drop is the first earnable one of the shared array; completion exactly when there is none |
| Session.AdvanceExact | internal/session/watch_session.go:533-551 | the next drop is the first earnable one; the progress clock is set only where there is one |
| SessionRuns.StepGrows | internal/session/watch_session.go:258-552 | no step changes more of a drop than its minutes and claim state, and none takes a claim back |
| SessionRuns.LogGrows | internal/session/watch_session.go:479-496 | a step logs at most one entry: a request for an unclaimed drop or a grant of one now claimed |
| SessionRuns.OnlyActiveTouched | internal/session/watch_session.go:258-552 | a step changes, requests and claims no drop but the active one |
| SessionRuns.SessionSafety | internal/session/watch_session.go:188-552 | in every interleaving the active drop is one of the session's own with positive minutes, met preconditions and no exclude match; at most one claim is under way; a granted drop is never requested again; claims only grow |
| SessionRuns.CompletionIsHonest | internal/session/watch_session.go:536-551 | the step that reports completion finds no earnable drop at that moment |
| SessionRuns.CompletedRuns | internal/session/watch_session.go:464-473 | a completed run has a step that completed it, at whose instant no drop could be earned; from then on none is active, none changes and nothing is requested |
| SessionRuns.BlockedNotEarnable | internal/inventory/campaign.go:232-247 | no drop of a blocked set meets the base conditions |
| SessionRuns.ExclusionPrunes | internal/inventory/campaign.go:311-333 | in every run no drop of a blocked set (excluded, or waiting for a member of the set or for no drop; cycles included) is active, requested or claimed |
| SessionRuns.ClaimedBeforeStillUnlocks | internal/inventory/campaign.go:315-320 | a drop whose preconditions were claimed before the run stays unlocked in every run, even if those are excluded now |
| SessionStops.WhyItStops | internal/session/watch_session.go:273-289 | for each step that ends a session, the reason and when exactly it applies; no other step ends one |
| SessionStops.OutcomeStays | internal/session/watch_session.go:464-472 | the first reason stands, and whatever stops the session cancels the other loops |
| SessionStops.StoppedIsCancelled | internal/session/watch_session.go:246-472 | in every run a session with an outcome is cancelled |
| SessionStops.MessagesArrive | internal/session/watch_session.go:291-333 | a report or claim message on either loop leaves the session as the code for it does and takes that loop to a claim exactly if it asks for one |
| SessionStops.NoTickAfterCancel | internal/session/watch_session.go:263-271 | a cancelled session processes no more ticks, however long its run goes on |
| SessionStops.LoopsStopWithTheSession | internal/session/watch_session.go:263-345 | in every run a started loop stops only when the session is cancelled; without a PubSub client that loop never runs |
| SessionStops.AfterReply | internal/session/watch_session.go:487-496 | a grant goes on to confirmation, a failed request ends the loop, a refusal or a missing link lets it go on |
| SessionStops.RequestedUnder | internal/inventory/claim.go:44-47 | a request is sent under the drop's own claim ID, or one made of user, campaign and drop |
| SessionStops.OfflineSinceExact | internal/session/watch_session.go:350-360 | in every run the offline time is the instant of the first down message since the channel was last up, and there is none without such a message |
| SessionTermination.PotentialStep | internal/session/watch_session.go:295-308 | no step raises minutes left plus claims left, and each that resets the progress clock lowers it |
| SessionTermination.TicksBoundedBy | internal/session/watch_session.go:259-336 | the invariant that bounds the ticks so far by the potential spent and the time since the last progress |
| SessionTermination.SessionTerminates | internal/session/watch_session.go:259-336 | with faithful reports every run processes at most (minutes left + claims left + 1) times the timeout, plus one, reconcile ticks, even if every claim fails |
| SessionTermination.TimesIsProduct | internal/session/watch_session.go:283-289 | the bound's repeated sum is a product |
| SessionTermination.OscillationNeverEnds | internal/session/watch_session.go:299-302 | in any session whatever its timeout, a server whose minutes go up and down and which refuses claims brings about any number of ticks |
| SessionTermination.NoTimeoutNeverEnds | internal/session/watch_session.go:283-289 | with the no-progress check off, runs with faithful reports have any number of ticks |
| SessionTermination.BoundedExactlyByTimeout | internal/session/watch_session.go:259-336 | the runs with faithful reports have a common bound on their ticks if and only if the timeout is positive |
| SessionClaims.SoloClaimsTheTrigger | internal/session/watch_session.go:328-332 | without a PubSub client every claim is for the drop that triggered it, with its minutes complete |
| SessionClaims.WithoutSuccessor | internal/session/watch_session.go:475-552 | in a session without a successor to its first drop no other drop is ever active, triggers or is touched |
| SessionClaims.StaleTriggerClaimsSuccessor | internal/session/watch_session.go:475-485 | with a PubSub client and a successor, a run requests the successor, which has made no progress, for a trigger of the first drop |
| SessionClaims.MistargetExact | internal/session/watch_session.go:475-552 | some run can enter a claim for another drop than its trigger if and only if there are a PubSub client and a successor |
| SessionClaims.SuccessorByWindows | internal/session/watch_session.go:533-551 | there is a successor if and only if, with the first drop claimed, some drop meets the base conditions and its window and the campaign's are open together now or later |
| SessionClaims.UnwatchedDropIsClaimed | internal/session/watch_session.go:475-485 | two drops: the second is requested with none of its ten minutes watched |
| RateLimiting.RateLimiter.AcquirePass | internal/gql/ratelimit.go:39-65 | closed exactly on a closed limiter, else cancelled exactly on a done context, both without a trace; else granted exactly below the capacity, the first grant arming the timer; else parked last in the list |
| RateLimiting.RateLimiter.ReleaseSlot | internal/gql/ratelimit.go:80-88 | one slot less, not below zero, and everyone in the list gets a token |
| RateLimiting.RateLimiter.OnWindowReset | internal/gql/ratelimit.go:90-97 | a fresh window, no timer, and everyone in the list gets a token |
| RateLimiting.RateLimiter.NotifyAll | internal/gql/ratelimit.go:99-107 | exactly the waiters gain tokens and the list is emptied |
| RateLimiting.RateLimiter.Remove | internal/gql/ratelimit.go:109-116 | the first occurrence of the channel leaves the list; the others keep their order |
| RateLimiting.WithoutAt | internal/gql/ratelimit.go:109-116 | where a place is the first of the channel, exactly that one is taken out |
| RateLimiting.RateLimiter.CloseLimiter | internal/gql/ratelimit.go:119-130 | closed for good, timer stopped, and everyone in the list gets a token |
| RateProtocol.WakeInvHolds | internal/gql/ratelimit.go:39-137 | in every run parked callers have channels of their own, each in the list or holding a token; the concurrent count is the number of slot holders; the timer is armed exactly while grants count |
| RateProtocol.NoLostWakeup | internal/gql/ratelimit.go:62-107 | no parked caller is forgotten: while any is in the list the limiter is full and open and a release or the timer is outstanding; closed means all are signalled; neither counter passes the capacity |
| RateProtocol.WakingSteps | internal/gql/ratelimit.go:80-107 | a release, a reset and a close each enable every parked caller to wake |
| RateProtocol.GrantsExact | internal/gql/ratelimit.go:42-60 | which steps grant a slot; one with a done context or on a closed limiter leaves the limiter alone and the caller through |
| RateProtocol.ResetsExact | internal/gql/ratelimit.go:90-130 | when the timer can reset an open limiter and what that starts; on a closed one it runs at most once, if it was due at the close |
| RateProtocol.ReleaseExact | internal/gql/ratelimit.go:80-88 | a release makes room for one, never below none, and changes neither total nor timer |
| RateProtocol.GivingUp | internal/gql/ratelimit.go:67-72 | a caller that gives up leaves the list, and nobody else does |
| RateProtocol.RateInvHolds | internal/gql/ratelimit.go:52-60 | in every run grants are ordered, at most the capacity per window, and a later window's grants come a full window after the first grant of an earlier one |
| RateProtocol.Spread | internal/gql/ratelimit.go:52-60 | grants 2c - 1 places apart are at least a window apart |
| RateProtocol.FewInWindow | internal/gql/ratelimit.go:52-60 | such a history has at most 2c - 1 grants in any half-open interval of one window |
| RateProtocol.RateBound | internal/gql/ratelimit.go:39-137 | in every run any half-open interval of one window holds at most 2 * capacity - 1 grants, and none without capacity |
| RateProtocol.RateBoundIsSharp | internal/gql/ratelimit.go:52-60 | for every capacity and window some run attains that bound |
| RateProtocol.RollingBoundExact | internal/gql/ratelimit.go:15-16 | the documented bound, the capacity in any window of time, holds of all runs if and only if the capacity is at most 1 or the window is empty |
| RateProtocol.GrantsNeedCapacity | internal/gql/ratelimit.go:52-60 | a limiter without capacity never grants |
| RetryLoop.Scan | internal/gql/client.go:323-366 | the first message that calls for a retry decides, in order over all envelopes |
| RetryLoop.ScanExact | internal/gql/client.go:323-366 | which retry the messages call for: the first of the three transient ones or, while it is allowed, of the two one-off ones decides |
| RetryLoop.CollectAll | internal/gql/client.go:372-384 | the data of the envelopes in order, or the failure of the first that is not clean |
| RetryLoop.Do | internal/gql/client.go:96-201 | the loop with its flags does what the recursive description of it does, on every trace of the outside world |
| RetryLoop.TransientExact | internal/gql/client.go:110-190 | an attempt is retried as transient exactly for a network error on a live context, 429, 500 to 599, or another decoded response but 401 in which one of the three transient messages decides |
| RetryLoop.PassExact | internal/gql/client.go:110-200 | when an attempt refreshes, retries once, goes on, or ends the call, and with which failure |
| RetryLoop.TransientThenData | internal/gql/client.go:110-199 | after any number of network errors, 429 and 5xx replies slept through, the data of the clean reply that follows are returned |
| RetryLoop.NotAdmittedEnds | internal/gql/client.go:102-104 | a call that the limiter does not admit ends there, without a request |
| RetryLoop.AttemptsAccounted | internal/gql/client.go:101-200 | every attempt but the last is retried for a transient outcome, refreshed, or retried once, and takes and returns one slot |
| RetryLoop.RetryBound | internal/gql/client.go:96-200 | a call retried for T transient outcomes makes at most T + 3 attempts, with one refresh and one single retry at most |
| RetryLoop.RetryBoundIsSharp | internal/gql/client.go:96-200 | for every T some server has a call retried for exactly T transient outcomes spend all T + 3 |
| RetryLoop.SlotsReturned | internal/gql/client.go:102-120 | each attempt takes one slot and returns it before any sleep or refresh; none is held at the end |
| RetryLoop.CollectExact | internal/gql/client.go:372-384 | data come back if and only if every envelope is clean, and then envelope by envelope |
| RetryLoop.CollectFailure | internal/gql/client.go:374-380 | the failure is the first message, or the error field, of the first envelope that is not clean |
| RetryLoop.SuccessIsTheLastResponse | internal/gql/client.go:148-199 | what a successful call returns is the content of its last response, and of no earlier one |
| Batch.Registered | internal/gql/client.go:209-214 | a batch goes on only if every operation is in the registry |
| Batch.Fetch | internal/gql/client.go:239-246 | a chunk succeeds exactly when its request does with one reply per operation |
| Batch.WriteOne | internal/gql/client.go:247-249 | a chunk's write goes to an index never written before and keeps all others |
| Batch.Turn | internal/gql/client.go:239-251 | any step of any chunk goroutine keeps the batch invariant |
| Batch.Wait | internal/gql/client.go:254-258 | data only when every chunk succeeded; a failure only when some chunk failed or came back short |
| Batch.DoBatch | internal/gql/client.go:204-259 | under every schedule a successful batch has at each index the reply at position i mod 20 of chunk i div 20, each written once; any failed or short chunk fails the call |
| Batch.BatchExact | internal/gql/client.go:230-249 | a complete batch in plain terms: chunks of twenty and a rest, a reply to each operation, result 20c + k from reply k of chunk c |
| Backoff.ExponentialBackoff.NextDelay | internal/gql/backoff.go:72-84 | the delay, and a step forward exactly when the value is not over the maximum |
| Backoff.ValueRange | internal/gql/backoff.go:76-77 | every draw keeps the value between its two jitter extremes |
| Backoff.ValueExact | internal/gql/backoff.go:76-77 | the value at both ends of the draw and evenly between them |
| Backoff.NextExact | internal/gql/backoff.go:79-83 | the value and a step forward up to the maximum, the maximum and no step above it |
| Backoff.DelaysCapped | internal/gql/backoff.go:72-91 | over any settings, calls, resets and draws no delay exceeds the maximum |
| Backoff.StepsBounded | internal/gql/backoff.go:72-91 | the counter never passes the first step whose least value exceeds the maximum |
| Backoff.StepsBoundedExactly | internal/gql/backoff.go:72-91 | over all calls and draws the counter has a bound if and only if such a step exists |
| Backoff.DefaultStep | internal/gql/backoff.go:54-84 | with the defaults steps 0 to 8 always advance and step 9 always gives 300 s |
| Backoff.DefaultSchedule | internal/gql/backoff.go:54-84 | with the defaults nine strictly increasing delays below 300 s, then exactly 300 s for ever with the counter at 9 |
| TopicSync.ChunkTopics | internal/pubsub/topics.go:34-50 | the index loop produces the consecutive chunks, 20 long when the size is not positive |
| TopicSync.ChunksExact | internal/pubsub/topics.go:33-50 | the chunks joined are the input, and none is empty or too long |
| TopicSync.ChunksFull | internal/pubsub/topics.go:42-48 | every chunk but the last is full |
| TopicSync.SyncFramesExact | internal/pubsub/connection.go:221-268 | frames of 20 topics but for the last removal and the last addition, removals first |
| TopicSync.Client.Register | internal/pubsub/connection.go:93-101 | the world takes an add step: the union, a caller about to signal exactly when the set changed, and nothing else |
| TopicSync.Client.Unregister | internal/pubsub/connection.go:113-121 | the world takes a remove step: the difference, a caller about to signal exactly when the set changed, and nothing else |
| TopicSync.Client.AddTopics | internal/pubsub/connection.go:92-109 | a signal is left exactly when one was there or the set changed |
| TopicSync.Client.RemoveTopics | internal/pubsub/connection.go:112-129 | a signal is left exactly when one was there or the set changed |
| TopicSync.UpdatesExact | internal/pubsub/connection.go:92-121 | the topics change by exactly those given, and a caller has to signal exactly where that is a change |
| TopicSync.Connection.SendChunks | internal/pubsub/connection.go:222-238 | one frame per chunk in order, as many as writes succeed; ok exactly when all were written |
| TopicSync.Connection.Missing | internal/pubsub/connection.go:213-250 | exactly the listed topics that the other set lacks |
| TopicSync.Connection.SyncTopics | internal/pubsub/connection.go:196-276 | removals before additions, as many frames as writes succeed; the submitted set is the snapshot on success, and on failure changed by the removals exactly when all their frames were written |
| TopicSync.SyncIsARun | internal/pubsub/connection.go:278-304 | the snapshot, the frames and the end of a sync are steps that take the connection from starting to waiting |
| TopicSync.BrokenSyncIsARun | internal/pubsub/connection.go:299-303 | a sync whose write fails is a stretch of steps that ends with the connection dropped |
| TopicSync.SyncPass | internal/pubsub/connection.go:196-304 | one call of the sync code takes the world as the fields show it to the world as they show it afterwards by such a stretch |
| TopicSync.SyncFramesApply | internal/pubsub/connection.go:213-273 | a server applying the frames of a sync in order ends with what was removed taken out and what was added put in |
| TopicSync.SyncInvHolds | internal/pubsub/connection.go:176-306 | in every run a difference between registered and submitted topics has a signal or a caller about to give one |
| TopicSync.TopicsConverge | internal/pubsub/connection.go:144-306 | in every run, across reconnects, a settled client has submitted exactly the registered topics and the server holds exactly those |
| TopicSync.CanSettle | internal/pubsub/connection.go:144-306 | from every reachable state the client can settle without a change to the topics |
| Watching.Watcher.Begin | internal/channel/watcher.go:51-58 | Start and Stop cancel the loop they find and wait for it |
| Watching.Watcher.Join | internal/channel/watcher.go:58-61 | the fields are cleared once the loop is gone; a Stop is then over |
| Watching.Watcher.FinishStart | internal/channel/watcher.go:63-74 | a new loop if and only if a playback token was obtained |
| Watching.Watcher.SendBeacon | internal/channel/watcher.go:113-136 | one beacon, numbered by the loop's counter, which moves on by one |
| Watching.Watcher.OnTick | internal/channel/watcher.go:126-131 | a tick leads to a beacon unless the loop is cancelled |
| Watching.TickExact | internal/channel/watcher.go:126-131 | a tick takes a live loop to its next beacon and ends a cancelled one, and touches nothing else |
| Watching.BeginExact | internal/channel/watcher.go:55-61 | Start and Stop cancel exactly the loop they find and wait for it; without one Start goes on and Stop is over |
| Watching.JoinExact | internal/channel/watcher.go:58-61 | once the loop is gone it is no longer current, and only a Start goes on |
| Watching.TokenExact | internal/channel/watcher.go:63-74 | with a token a fresh loop becomes the current one, without one nothing starts |
| Watching.DiscoverExact | internal/channel/watcher.go:93-120 | without a beacon URL the loop is over, with one its first beacon is number 1 |
| Watching.CancelledFallsSilent | internal/channel/watcher.go:122-138 | over any continuation a cancelled loop sends at most one more beacon, and none if it was waiting for a tick |
| Watching.WatcherInv | internal/channel/watcher.go:51-139 | in every run all loops but the current one are gone and the beacon counters match what was sent |
| Watching.SingleChannel | internal/channel/watcher.go:47-139 | at most one loop is alive; beacons of an earlier start precede those of a later one; each loop's numbers run from 1 without a gap |
| Watching.Consecutive | internal/channel/watcher.go:113-136 | beacons of one loop are numbered consecutively |
| Watching.NothingLeftRunning | internal/channel/watcher.go:63-88 | a Start without a token and a finished Stop leave no loop running |
| Sweep.Sweeper.ClaimOne | internal/inventory/claim.go:35-105 | a claimed drop needs no request; any other is claimed, under its own or the generated ID, exactly when the reply grants it; nothing else changes |
| Sweep.Sweeper.VisitDrop | internal/inventory/claim.go:163-193 | one drop: filters, cooldown, claim, and the counters and cache that follow from the reply |
| Sweep.Sweeper.SweepCampaign | internal/inventory/claim.go:154-194 | one campaign of the sweep, skipped when upcoming or excluded |
| Sweep.Sweeper.SweepUnclaimed | internal/inventory/claim.go:145-197 | the nested loops do the sweep drop by drop in order, never stopping at an error |
| Sweep.DropStepTouches | internal/inventory/claim.go:163-193 | a drop changes only by being granted, and then counts as one |
| Sweep.SweepCounts | internal/inventory/claim.go:143-197 | the reported count is the number of drops that became claimed, and every drop a filter rejects is left as it was |
| Sweep.SweepSpaced | internal/inventory/claim.go:173-186 | a sweep keeps the spacing of requests and what the cache remembers |
| Sweep.CooldownRespected | internal/inventory/claim.go:133-186 | over any sweeps sharing a cache, a not-linked reply is followed by no request for that drop ID before its cooldown ends |
| SweepOutcome.WantedExact | internal/inventory/claim.go:154-171 | what a sweep filters out, in terms of windows, names, claim state, keywords and the day of grace |
| SweepOutcome.SweepExact | internal/inventory/claim.go:145-197 | the whole outcome of a sweep: its requests in order with their answers, the drops asked for, the drops claimed, the cache and both counts |
| SweepOutcome.EachDropGetsItsTurn | internal/inventory/claim.go:143-194 | a drop is asked for if and only if it is wanted and not cooling when reached, at most once, and ends claimed if and only if it was or its own reply grants it, whatever the other replies are |
| ConfigLists.AddGames | cmd/tdm/priority.go:156-171 | appends the names in order, skipping those present |
| ConfigLists.RemoveGamesFromList | cmd/tdm/priority.go:176-194 | the offline loop keeps exactly the names not to be removed, in order |
| ConfigLists.RemoveGames | internal/daemon/supervisor.go:530-548 | the daemon's own loop keeps exactly the names not to be removed, in order |
| ConfigLists.AddedExact | cmd/tdm/priority.go:153-171 | adding keeps the old list as a prefix, adds exactly the missing names and makes no repeats |
| ConfigLists.AddedSnoc | cmd/tdm/priority.go:156-171 | adding goes item by item in order, appending what is not there by then |
| ConfigLists.ChangedExact | internal/daemon/supervisor.go:370-390 | the list each of the four actions makes |
| ConfigLists.RemoveUndoesAdd | cmd/tdm/priority.go:156-194 | removing names that were new gives back the list they were added to |
| ConfigLists.ConfigFile.SaveKey | internal/config/persist.go:45-71 | one key is written, or on any failure the file is as it was; a file that does not parse is never overwritten |
| ConfigLists.Supervisor.UpdatePriority | internal/daemon/supervisor.go:364-409 | the daemon's own loops edit the list as the offline ones do; memory and file change together, or on a failed write neither does |
| ConfigLists.Supervisor.UpdateExclude | internal/daemon/supervisor.go:421-461 | the same for the exclude list |
| ConfigLists.Supervisor.UpdateDropExclude | internal/daemon/supervisor.go:481-521 | the same for the keyword list |
| ConfigLists.ServeExact | internal/daemon/supervisor.go:363-521 | when a request fails, what it leaves in memory, and which key of the file it writes |
| ConfigLists.ListingExact | internal/daemon/supervisor.go:371-372 | listing changes nothing, whatever the file is like |
| ConfigLists.OfflineExact | cmd/tdm/priority.go:98-136 | when an offline command fails, and which key it writes with which list |
| ConfigLists.RunOffline | cmd/tdm/priority.go:98-136 | the offline command loads the file, edits its list and saves that key |
| ConfigLists.ServeKeepsSync | internal/daemon/supervisor.go:392-404 | a request keeps memory equal to the file and other keys as they were; a failed one changes nothing |
| ConfigLists.ServeMatchesOffline | cmd/tdm/priority.go:94-136 | a daemon request does to the file what the offline command does, and succeeds when it does |
| ConfigLists.ListsAgree | internal/daemon/supervisor.go:364-548 | after any requests with writes failing at will memory equals the file, other keys are kept, and the successful requests made offline leave that same file |

## Left out

- HTTP, WebSocket, JSON and the operation registry's content: replies and bodies are values of the events and traces.
- `Client.Do` payloads: variables and their merging, endpoints, headers and the wording of errors. A single-operation
  request is the case of one envelope; a batch body that is a lone error envelope is a body with one envelope.
- Delays inside the retry loop: only the order of sleeps, refreshes and slots is modelled. The lengths are those of `Backoff`.
- Backoff: rounding of floating point and the truncation to whole nanoseconds, and the bound on the counter only for a non-negative base and ordered variances.
- Batch: which of several chunk errors is reported. Cancelling the other chunks is part of their traces. Results are a
  sequence replaced index by index, not a slice shared between goroutines.
- Limiter: `Acquire` as one blocking call. It is split into passes, parking, waking and giving up, which is where its goroutine can be interrupted.
- Session: the confirmation polls after a claim count only as time passing; the runtime-state file, progress callbacks and
  logging are not modelled; the two checks of a tick and the reading of the clock happen at one instant; data races on
  drop fields outside the lock are not modelled.
- SessionTermination.SessionTerminates: bounds processed ticks, not wall-clock time, because a progress request may stay inside client retries.
- Watcher: `Start` and `Stop` as single blocking calls, and the beacon request itself; a tick and the drained ones after it are one event.
- PubSub: ping and pong, nonces, the token in frames, inbound events, and the wait between dials.
- Sorting: the standard library's stable sort is an insertion here. `SortByPriorityIsTheStableSort` says why that does not matter.
- Switching: lists of more than the largest integer many games.
- Sweep: campaigns and their drops are a sequence field of the sweeper, so sharing of the backing arrays with other holders is not captured.
- Config lists: action names outside the four known ones, a config file holding the JSON value null, environment overrides,
  the creation of directories and the atomicity of the file write.
- The supervisor's selection loop, its status and error counts: mostly plumbing around `SelectCampaign`, sweeps and sessions.
- Inventory parsing, claimed-benefit timestamps, channel discovery, authentication, IPC, commands, logging.
- Keyword case folding and substring search: the exclude list is any predicate on texts.
