# NestAI verification model

NestAI coordinates a household: it routes tasks to members, lets a member drop a task so that a backup can claim it,
broadcasts escalations nobody answers, watches the calendar for conflicts, finds micro-windows for wellness goals,
scrubs personal data from text before it is sent to a language model, cleans up what the model answers, and runs its
background sweeps on an in-process job queue. This project models those engines and services in Dafny and proves what
they are for. Check it with `dafny verify dfyconfig.toml`.

## How the model is laid out

| file | models |
|---|---|
| `Base`, `Household`, `Sequences`, `Decimal` | shared values: instants in milliseconds, ids, members; filter-and-map, the stable sort; decimal numerals |
| `Lifecycle` | the stored rows (tasks, escalations, projects, milestones) and the effect of every service call on them; runs of calls |
| `LifecycleLaws` | laws over whole runs: `Ledger`, `Invariants`, `Locks`, `Broadcasts`, `CriticalOverrides`, `Firing` |
| `Tenancy` | tenant isolation as non-interference over runs |
| `Services` | the service classes over a `Database` object updated in place; every method is proved to have the effect `Lifecycle.Apply` gives its call |
| `Routing`, `Backup`, `Escalation`, `Seasonal` | the core engines the services call |
| `Replacement`, `Scrubber`, `ScrubberLaws`, `RoundTrip`, `Numbering`, `ScrubEffect`, `SsnRule` | the PII tokenizer, its effect on a text and its inverse, and one of its rules in full |
| `ConflictRadar`, `MicroWindows`, `LoadEquity` | the calendar and wellbeing engines |
| `Dedupe`, `Drafts`, `PostProcess` | normalization and de-duplication of extracted tasks and events |
| `JobQueue`, `JobQueueLaws` | the in-memory job queue over the host's timers, and its laws over runs |

Code that updates state is written as methods with loops and as classes with fields, each proved equal to a function of
its inputs or of the old state; the laws are lemmas about those functions. A NotFound exception or a thrown error is an
`Option` or a response value and leaves the state unchanged.

The laws say what the engines decide in terms a caller can check, not in those of the functions that decide: who is
eligible or can back up, what a score is made of, when a conflict is reported and how the report is ordered, how long a
window lasts and what the text becomes are written out, in milliseconds, points and birthdays, and proved equivalent to
what the code computes (`Routing.EligibleOn`, `Backup.CanBackUp`, `ConflictRadar.ReportHolds`, `Lifecycle.StepOnTask`,
`ScrubEffect.PassReplacesMatches`).

## What the model assumes

- One service call is one atomic step, so runs are serialized. Fresh row ids, the current time and the row that
  `findFirst` picks among equally recent ones are inputs of the call; laws hold for every choice.
- The time a call reads and the `createdAt` its row gets are the same instant. Only `Broadcasts` asks more of time: a
  clock that does not run backwards and a timer tick at least every minute.
- Ids are natural numbers, standing for strings under a total order; instants are integers; shares, scores in
  `confidence` and percentages are reals, where the program has doubles.
- The state a run starts from satisfies the invariant in question; `Invariants.EmptyStoreConsistent`,
  `Firing.EmptyStoreInOrder`, `Broadcasts.EmptyStoreServed` and `JobQueueLaws.FreshIsConsistent` say that an empty
  store or queue does.
- Scrub rules are abstract matchers. What a match list is (`AllMatch`: non-empty, in order, no overlap) is the regular
  expression engine's contract. The round-trip laws also ask that no match holds a bracket or touches text shaped like
  a token with a number below 10^9 (`AllAvoid`). The six rules of the program keep to this: none can match a bracket,
  and inside such a token there is no white space, no `@`, no `$`, no `USD` and no run of ten digits; for the social
  security rule `SsnRule.RuleIsAdmissible` proves it. Texts are shorter than 10^9 characters, which is above the longest
  string the runtime allows.
- `trim`'s white space, `toLowerCase` and `Number(...)` on values that are not numbers are parameters of `Drafts`.

## What the proofs found

- Dropping a task twice and claiming it once leaves a CLAIMED task with an open escalation. What does hold over every
  run is that open escalations are drops minus winning claims.
- The deciding rule (the first applicable one by priority, then by input order) is certain to decide the assignment
  when its priority is above -942, and not at -942 or below. The constants alone would suggest -937 (scores lie in
  0..63), but two members eligible for one task are at most 58 points apart.
- Above that bound routing is independent of the order of the members iff the deciding rule has one eligible target; at
  any priority one target is enough. Rules the loop never reaches do not matter. At every priority the assignee alone is
  independent of it iff there is one target or the member ranked first without rules stays first whichever target is
  forced.
- Scrubbing is undone exactly when no issued token already stood in the text. Without brackets in the text that is
  always so; `[SSN_1]` typed by a user ahead of a real match is the failing case.
- Replacing tokens longest first, which a comment in `scrubber.ts` gives as needed, is not needed where the round trip
  succeeds: there every order gives the same string, since closing brackets keep any token from occurring inside
  another. Nothing is claimed about the order once an issued token stood in the text.
- The radar's neighbour scan decides whether any two commitments of a member are too close, but does not name every
  such pair. Its verdict depends on input order only when all commitments are apart, the threshold is 0 or less and a
  zero-length commitment shares its start with a longer one.
- A task key joins title, due date and category with bars. It takes a bar in a title and a bar in a due date to merge
  two different tasks, so with ISO dates keys identify tasks.

## Model

| member | source | states |
|---|---|---|
| `Services.TasksService.Create` | services/api/src/modules/tasks/tasks.service.ts:46-64 | creating a row and routing it has the effect of the create call on the store; the decision of the router and the stored row come back, with no decision when routing is off |
| `Services.TasksService.RouteAndAssign` | services/api/src/modules/tasks/tasks.service.ts:66-104 | the routing loop over the household's active members and its rules, and the update of the task, have the effect of the route call; an unknown or foreign task is NotFound and changes nothing |
| `Services.TasksService.Assign` | services/api/src/modules/tasks/tasks.service.ts:106-118 | status and assignee are set only when task and member both belong to the household |
| `Services.TasksService.Drop` | services/api/src/modules/tasks/tasks.service.ts:124-150 | the task becomes DROPPED with nobody assigned and one open escalation is created, of tier 0, with the task's due date, or one hour from now, as its deadline |
| `Services.TasksService.ClaimTaskFor` | services/api/src/modules/tasks/tasks.service.ts:156-219 | the guards, the search for the most recent open escalation, the core lock and both updates have the effect of the claim call, and the response says so |
| `Services.FindMostRecentOpen` | services/api/src/modules/tasks/tasks.service.ts:175-178 | the search returns an unresolved escalation of the task in the household that no other one is newer than, or none exactly when there is none |
| `Services.EscalationService.Broadcast` | services/api/src/modules/escalation/escalation.service.ts:31-77 | marks the event as broadcast and returns the backup selection among the other active members; a foreign event is NotFound |
| `Services.BroadcastOffers` | services/api/src/modules/escalation/escalation.service.ts:38-75 | a broadcast goes to everybody iff the task is HIGH or CRITICAL; its candidates are exactly the household's active adults, not excluded, with no busy or travel block in the two hours from the due date or from now, and one with most points is selected |
| `Services.BroadcastSeesOwnRows` | services/api/src/modules/escalation/escalation.service.ts:38-40 | in every reachable state the answer of broadcast depends on the household's own rows only, although the task is read without a tenant filter |
| `Services.EscalationService.SweepCriticalOverrides` | services/api/src/modules/escalation/escalation.service.ts:84-104 | counts the household's unresolved events and lists, each once, exactly those nobody has taken on whose deadline is less than 21 minutes away |
| `Services.SchedulerService.RunEscalationTimer` | services/api/src/scheduler/scheduler.service.ts:150-182 | the loop over the fetched rows marks exactly the unresolved events that are ten minutes old and not broadcast, and returns their number and the number of overriding ones |
| `Services.SchedulerService.FireDueMilestones` | services/api/src/scheduler/scheduler.service.ts:116-126 | fires exactly the due milestones and returns their number |
| `Services.SeasonalService.Create` | services/api/src/modules/seasonal/seasonal.service.ts:36-83 | stores the project and, when a goal date can be resolved, its four milestones |
| `Ledger.RunLedger` | services/api/src/modules/tasks/tasks.service.ts:124-219 | over every run a task gains one escalation per successful drop and one resolved escalation per claim that won an open one |
| `Ledger.OpenIsDropsMinusWins` | services/api/src/modules/tasks/tasks.service.ts:124-219 | open escalations of a task = those open before + drops - winning claims, over every run |
| `Ledger.WonAtMostOnce` | packages/core/src/escalation/escalation.ts:223-248 | an escalation is won at most once over any run, and once exactly when the run is what resolves it |
| `Ledger.WinLeavesOthersOpen` | services/api/src/modules/tasks/tasks.service.ts:175-218 | a winning claim closes exactly the escalation it found, so nothing of the task stays open iff just one was open |
| `Ledger.ResolutionIsFinal` | packages/core/src/escalation/escalation.ts:223-248 | claimant and resolution time of a resolved escalation never change again |
| `Ledger.ClaimedTaskWithOpenEscalation` | services/api/src/modules/tasks/tasks.service.ts:124-142 | drop, drop, claim leaves a CLAIMED task with an open escalation: the counting law is the true statement |
| `Lifecycle.StepOnEscalation` | services/api/src/modules/tasks/tasks.service.ts:124-219 | what any one call can do to one escalation: opened only by a drop, with the deadline that gives it; claimed only by the winning claim; broadcast only on demand or by a tick once ten minutes old; otherwise unchanged |
| `Lifecycle.StepOnTask` | services/api/src/modules/tasks/tasks.service.ts:66-219 | what any one call can do to one stored task: household, due date and draft never change; status and assignee change only by a drop, a claim, an assignment or a route that finds somebody, each under its own guards |
| `Lifecycle.TasksGrow` | services/api/src/modules/tasks/tasks.service.ts:46-64 | no call but the creation of a task adds one |
| `Lifecycle.CreatedTask` | services/api/src/modules/tasks/tasks.service.ts:46-64 | a created task is OPEN and unassigned, or ASSIGNED to whom routing finds |
| `Invariants.RunConsistent` | services/api/src/modules/tasks/tasks.service.ts:97-219 | in every reachable state: ASSIGNED or CLAIMED iff an assignee is set; claimant iff resolution time; assignees and claimants belong to the row's household |
| `Invariants.RunDeadlines` | services/api/src/modules/tasks/tasks.service.ts:124-142 | in every reachable state every escalation has its task's due date as deadline or, without one, its own creation time plus an hour; a drop leaves the task DROPPED and unassigned with such an escalation open |
| `Invariants.RoutedIsOwned` | services/api/src/modules/tasks/tasks.service.ts:66-104 | routing from the service only ever names a member of the calling household |
| `Invariants.CoreLockNeverRefuses` | services/api/src/modules/tasks/tasks.service.ts:175-213 | the refusal branch of the core lock cannot be reached from the service |
| `Locks.LockStep` | services/api/src/modules/tasks/tasks.service.ts:97-219 | one call takes a claimed task away iff it is a route that finds somebody, an assignment, or a drop of that task by its own household; claims of it change nothing at all |
| `Locks.LockedIffNotReleased` | services/api/src/modules/tasks/tasks.service.ts:97-219 | over any run the task stays with its claimant throughout iff no call releases it |
| `Locks.ClaimLocks` | services/api/src/modules/tasks/tasks.service.ts:156-219 | after a successful claim every sequence of claims, broadcasts, sweeps, ticks, new rows and calls on other tasks leaves the task claimed by the same member, and further claims are refused without effect |
| `Broadcasts.NothingWaitsElevenMinutes` | services/api/src/scheduler/scheduler.service.ts:150-168 | with ticks at most a minute apart, nothing is unresolved and un-broadcast eleven minutes after its creation |
| `Broadcasts.TickServes` | services/api/src/scheduler/scheduler.service.ts:150-168 | after a tick nothing waiting was ten minutes old at it, whatever the state before: the hypothesis from which the bound holds |
| `Broadcasts.TickIsIdempotent` | services/api/src/scheduler/scheduler.service.ts:150-168 | a second tick at the same or an earlier instant broadcasts nothing and changes nothing |
| `Broadcasts.ElevenMinutesIsSharp` | services/api/src/scheduler/scheduler.service.ts:86-86 | the bound is sharp: with the run starting as the escalation is created, a millisecond after a tick, one millisecond less than eleven minutes is reached |
| `Broadcasts.SharpStateServed` | services/api/src/scheduler/scheduler.service.ts:150-168 | the state of that run can be one that the last tick has served |
| `CriticalOverrides.TimerCountsAllSweeps` | services/api/src/scheduler/scheduler.service.ts:160-181 | the global timer's override count is the sum of the per-household sweeps on the same store |
| `CriticalOverrides.OverrideLasts` | packages/core/src/escalation/escalation.ts:302-322 | an overriding event overrides at every later instant of every run until it is resolved |
| `Escalation.OverrideWindow` | packages/core/src/escalation/escalation.ts:302-322 | an open event overrides iff its deadline is less than 21 minutes away |
| `Escalation.ClaimOnce` | packages/core/src/escalation/escalation.ts:223-248 | a claim succeeds iff the event has neither claimant nor resolution time, then records just these two, and is refused ever after |
| `Firing.CountsAddUp` | services/api/src/scheduler/scheduler.service.ts:116-126 | over every run the returned counts add up to the number of milestones that became fired |
| `Firing.FiredByOneSweep` | services/api/src/scheduler/scheduler.service.ts:116-126 | a milestone is fired by exactly one sweep if it becomes fired, and by none otherwise |
| `Firing.SweepIsComplete` | services/api/src/scheduler/scheduler.service.ts:116-126 | after a sweep exactly the milestones due by then or fired before are fired |
| `Firing.RunFiresInOrder` | packages/core/src/seasonal/seasonal.ts:32-45 | in every reachable state a project with milestones has exactly one of each stage, and its fired stages are the first k of the stage order for some k |
| `Firing.AddedOneOfEach` | packages/core/src/seasonal/seasonal.ts:153-166 | the milestones created for a project are one of each stage |
| `Firing.ProjectMilestones` | packages/core/src/seasonal/seasonal.ts:32-75 | creating a project stores unfired milestones 30 days, 14 days, 48 hours and 15 minutes before its explicit date or, without one, the opening date or, without both, the start of the window, and touches no other |
| `Firing.UndatedProject` | services/api/src/modules/seasonal/seasonal.service.ts:55-75 | without any of the three it stores none |
| `Seasonal.MilestonesAscend` | packages/core/src/seasonal/seasonal.ts:153-166 | milestones come in stage order and a later stage fires strictly later |
| `Tenancy.StepOfSlice` | services/api/src/tenant/tenant-prisma.ts:40-61 | one call seen from one household acts as on that household's rows alone, and calls of other households are invisible |
| `Tenancy.RunOfSlice` | services/api/src/tenant/tenant-prisma.ts:40-61 | non-interference over whole runs: the slice of the outcome is the outcome of the slice |
| `Routing.Route` | packages/core/src/routing/engine.ts:139-209 | the loops that gather, boost, sort and rate candidates compute the routing function |
| `Routing.GatherCandidates` | packages/core/src/routing/engine.ts:145-152 | the loop over the members gathers the eligible ones with age and score, in input order |
| `Routing.ApplyRules` | packages/core/src/routing/engine.ts:163-173 | the loop boosts the first applicable candidate of the first rule that has one, and then stops |
| `Routing.AssignedIffEligible` | packages/core/src/routing/engine.ts:139-209 | null iff nobody is eligible, otherwise an eligible member |
| `Routing.EligibleOn` | packages/core/src/routing/engine.ts:34-54 | a member is eligible iff active, with every required skill and, where an age bound is set, a known birth date whose birthday of the minimum is reached and of the maximum plus one is not |
| `Routing.AppliesOn` | packages/core/src/routing/engine.ts:67-79 | a rule applies to a member iff it names nobody else, the member has its skills and is in its age range |
| `Routing.Suits` | packages/core/src/routing/engine.ts:57-64 | a rule is for a task iff its category is not set or the task's, and the task requires its skills |
| `Household.AgeCountsBirthdays` | packages/core/src/routing/age.ts:16-33 | the age is at least n iff n is 0 or birthday n is today or earlier |
| `Routing.DecisionIsRanking` | packages/core/src/routing/engine.ts:139-209 | with distinct ids the decision is read off one ranking: every eligible member once, by score then id, the first target of the deciding rule with 1000 points and its priority more; assignee, alternatives and confidence follow from it |
| `Routing.ScoreAdds` | packages/core/src/routing/engine.ts:85-132 | 30 points for being available or 5 for travelling, 15 for driving on a logistics, errand or school task, 5 or 10 for one or more required skills, 8 for a head on an admin or approval task |
| `Routing.ConfidenceRange` | packages/core/src/routing/engine.ts:185-208 | confidence 0 without an assignee, in [0.5, 0.95] with one |
| `Routing.EligibleScoresAreClose` | packages/core/src/routing/engine.ts:85-132 | base scores of members eligible for one task lie in 0..63 and differ by at most 58 |
| `Routing.DecidingRanksHighest` | packages/core/src/routing/engine.ts:141-173 | the rule the loop stops at is applicable and none outranks it; there is none iff no rule is applicable |
| `Routing.EarliestTopRuleDecides` | packages/core/src/routing/engine.ts:141-143 | among applicable rules of equal priority the first in input order decides, because the sort is stable |
| `Routing.DecidingRuleForces` | packages/core/src/routing/engine.ts:163-178 | if the deciding rule has priority above -942, the first member in input order that it can force is assigned, with confidence 0.95 |
| `Routing.TopRuleForces` | packages/core/src/routing/engine.ts:163-173 | if an applicable rule has priority above -942 the assignee is eligible and satisfies the deciding rule, whose priority is at least that |
| `Routing.TopRuleBoundIsSharp` | packages/core/src/routing/engine.ts:163-173 | at every priority of -942 or less some household is routed around its only rule |
| `Routing.WithoutRulesBestScoreWins` | packages/core/src/routing/engine.ts:175-178 | when no rule applies the assignee has the best base score and the least id among equals |
| `Routing.OrderIrrelevantIff` | packages/core/src/routing/engine.ts:139-209 | where the deciding rule, if any, has priority above -942: assignee and whole decision are the same for every order of the members iff that rule has one eligible target |
| `Routing.AssigneeFixedIff` | packages/core/src/routing/engine.ts:139-209 | at every priority: the assignee is the same for every order of the members iff the deciding rule, if any, has one target or the member ranked first unforced stays first whichever target is forced |
| `Routing.RouteIgnoresMemberOrder` | packages/core/src/routing/engine.ts:139-209 | at every priority, permuting the members changes nothing when the deciding rule, if any, has one eligible target |
| `Routing.NamedRuleHasOneTarget` | packages/core/src/routing/engine.ts:67-79 | a rule that names its assignee has at most one target |
| `Routing.UnnamedRuleDependsOnOrder` | packages/core/src/routing/engine.ts:166-166 | with one unnamed rule and two members, whoever stands first is assigned |
| `Backup.HasClearedSchedule` | packages/core/src/escalation/escalation.ts:97-112 | the loop over the blocks answers true iff no busy or travel block of the member meets the window |
| `Backup.SelectBackup` | packages/core/src/escalation/escalation.ts:119-194 | the scoring loop and the sort compute the selection |
| `Backup.CandidatesAreTheEligible` | packages/core/src/escalation/escalation.ts:119-194 | the candidates are exactly the members that can back up, each with its score, ordered by score then id |
| `Backup.CanBackUp` | packages/core/src/escalation/escalation.ts:119-160 | a member can back up iff an active adult, not excluded, with no busy or travel block in the window, who drives if that is asked and whose commute, if known, is within the limit, if set |
| `Backup.Points` | packages/core/src/escalation/escalation.ts:162-178 | 50 points for being available or 10 for travelling, 10 for driving, one per minute that a known commute is under an hour |
| `Backup.SelectedIsBest` | packages/core/src/escalation/escalation.ts:119-194 | the selected member is no worse than any that can back up; none is selected iff nobody can |
| `Backup.SelectionIgnoresOrder` | packages/core/src/escalation/escalation.ts:119-194 | with distinct ids, permuting members or availability blocks changes nothing |
| `Scrubber.Scrub` | packages/core/src/privacy/scrubber.ts:75-102 | the passes, each a walk over the matches with the memo updated in place, compute the scrub function |
| `Scrubber.ReplaceMatches` | packages/core/src/privacy/scrubber.ts:85-99 | one replace call: text between matches is copied, each match becomes its token |
| `Scrubber.Unscrub` | packages/core/src/privacy/scrubber.ts:111-120 | the loop of split-and-join replacements, longest token first, computes the unscrub function |
| `Scrubber.RestoresLongestFirst` | packages/core/src/privacy/scrubber.ts:112-114 | the replacements are those of the entries with an original, longest token first |
| `ScrubEffect.PassReplacesMatches` | packages/core/src/privacy/scrubber.ts:84-99 | on the text the rules before it left, every rule's pass replaces each match by the token under which the final map lists that type and text, and copies everything else |
| `ScrubEffect.MapListsMatches` | packages/core/src/privacy/scrubber.ts:79-102 | the map lists each type and text that some rule matched, once, in order of first match, and nothing else |
| `ScrubEffect.OneTokenEach` | packages/core/src/privacy/scrubber.ts:87-89 | a type and a text have one token |
| `RoundTrip.UnscrubUndoesScrub` | packages/core/src/privacy/scrubber.ts:75-120 | for every text, unscrub after scrub gives the text back iff no issued token occurs in the text |
| `RoundTrip.BracketFreeRoundTrip` | packages/core/src/privacy/scrubber.ts:75-120 | every text without brackets makes the round trip |
| `RoundTrip.AnyOrderWorks` | packages/core/src/privacy/scrubber.ts:108-118 | every order of the replacements succeeds or fails like every other, and where they succeed all give the same string as longest first |
| `RoundTrip.TokensIdentifyOriginals` | packages/core/src/privacy/scrubber.ts:80-99 | entries share a token iff they share type and original, and no token occurs inside another |
| `RoundTrip.DroppedOriginalsRestoreNothing` | packages/core/src/privacy/scrubber.ts:93-95 | dropping the originals gives the same scrubbed text and a map that restores nothing |
| `SsnRule.LiteralTokenBreaksRoundTrip` | packages/core/src/privacy/scrubber.ts:75-120 | with the social security rule, the text "[SSN_1] 123-45-6789" comes back changed |
| `SsnRule.RuleIsAdmissible` | packages/core/src/privacy/scrubber.ts:38-41 | on every string the social security pattern meets what the round trip asks of rules |
| `SsnRule.SpansAreMatches` | packages/core/src/privacy/scrubber.ts:38-41 | the social security rule matches exactly where its pattern does: no match begins inside another |
| `Numbering.TokensAreNumbered` | packages/core/src/privacy/scrubber.ts:90-96 | for any rules the tokens issued for a type are exactly those numbered from 1 to the number of its entries, in map order |
| `RoundTrip.ClashByNumber` | packages/core/src/privacy/scrubber.ts:75-120 | so the round trip fails iff a token numbered up to the count of its type stands in the text |
| `Numbering.ScrubbedHasTokens` | packages/core/src/privacy/scrubber.ts:80-102 | for any rules every map that scrub returns, with or without originals, can be handed to unscrub |
| `ScrubberLaws.TokenInjective` | packages/core/src/privacy/scrubber.ts:92-92 | tokens determine their type and number |
| `ScrubberLaws.TokensRead` | packages/core/src/privacy/scrubber.ts:92-92 | how the tokens of each of the seven types read |
| `ScrubberLaws.KeyInjective` | packages/core/src/privacy/scrubber.ts:87-87 | memo keys determine type and original |
| `ScrubberLaws.InternFinds` | packages/core/src/privacy/scrubber.ts:85-98 | the token a match gets is the one the memo holds for its type and text from then on |
| `Replacement.BracketsReplaced` | packages/core/src/privacy/scrubber.ts:117-117 | replacing a bracketed token by bracket-free text removes exactly one opening bracket per occurrence |
| `Replacement.CountGrows` | packages/core/src/privacy/scrubber.ts:116-118 | replacing one token never removes an occurrence of another |
| `ConflictRadar.DetectConflicts` | packages/core/src/commute/commute.ts:245-324 | the grouping map, the neighbour loop and the final sort compute the report |
| `ConflictRadar.GroupByMember` | packages/core/src/commute/commute.ts:268-274 | one pass groups each member's commitments, keys in order of first appearance |
| `ConflictRadar.ScanMember` | packages/core/src/commute/commute.ts:280-311 | the neighbour loop pushes exactly the scan of the sorted commitments |
| `ConflictRadar.ReportSoleDriver` | packages/core/src/commute/commute.ts:251-266 | the loop over driving commitments pushes the sole-driver conflicts |
| `ConflictRadar.ScanReports` | packages/core/src/commute/commute.ts:286-310 | a scan holds exactly the conflicts between neighbours: overlap or a gap below the threshold in milliseconds, with the window between them, MEDIUM iff the gap is under 360000 ms |
| `ConflictRadar.ReportOrdered` | packages/core/src/commute/commute.ts:317-322 | of two conflicts in the report the later is HIGH only if the earlier is, the earlier LOW only if the later is, and among equals window starts ascend |
| `ConflictRadar.ReportHolds` | packages/core/src/commute/commute.ts:245-324 | the report holds exactly what is wrong between neighbours of each member's commitments by start and, when just one member is active, driving and an adult, that member's name on every driving commitment |
| `ConflictRadar.SilentIffAllClear` | packages/core/src/commute/commute.ts:280-311 | for any starts and ends: neighbours are clear of each other iff every earlier commitment is clear of every later one |
| `ConflictRadar.SilentIffAllApart` | packages/core/src/commute/commute.ts:268-312 | for commitments that end no earlier than they start and any threshold: silent iff every two of the member are apart and no zero-length one comes, in the input, after a longer one with the same start (which matters only at thresholds of 0 or less) |
| `ConflictRadar.SilentIffAllApartPlain` | packages/core/src/commute/commute.ts:268-312 | with positive lengths, or a positive threshold, silent iff every two are apart |
| `ConflictRadar.RadarDecidesAllPairs` | packages/core/src/commute/commute.ts:245-324 | the first of these said of the whole report |
| `ConflictRadar.ReportMentions` | packages/core/src/commute/commute.ts:245-324 | the report mentions a member's double booking or squeeze iff that member's scan finds one |
| `ConflictRadar.RippleIffLateEnd` | packages/core/src/commute/commute.ts:276-297 | whatever the lengths, the report calls a member double-booked iff, by start, one of the member's commitments starts before an earlier one, neighbour or not, has ended |
| `ConflictRadar.RippleIffOverlap` | packages/core/src/commute/commute.ts:276-297 | with positive lengths, iff two of the member's commitments overlap |
| `ConflictRadar.SoleDriverReported` | packages/core/src/commute/commute.ts:251-266 | a sole-driver conflict per driving commitment iff exactly one member is active, driving and an adult |
| `ConflictRadar.VerdictIgnoresOrder` | packages/core/src/commute/commute.ts:279-312 | the verdict on a member is the same for every order of the input unless all are apart and some zero-length commitment shares its start with a longer one at a threshold of 0 or less |
| `ConflictRadar.ZeroLengthDependsOnOrder` | packages/core/src/commute/commute.ts:279-279 | any such pair alone gets either verdict, depending on its order |
| `ConflictRadar.NestedPairUnnamed` | packages/core/src/commute/commute.ts:280-311 | an overlap with a non-neighbour goes unnamed although the member is reported |
| `MicroWindows.ComputeGaps` | packages/core/src/wellbeing/wellbeing.ts:67-94 | filter, sort and sweep compute the gaps |
| `MicroWindows.Sweep` | packages/core/src/wellbeing/wellbeing.ts:80-93 | the loop that moves the cursor over the sorted blocks |
| `MicroWindows.GapsAreTheFreeTime` | packages/core/src/wellbeing/wellbeing.ts:67-94 | gaps are non-empty, ascending and disjoint; an instant lies in one iff it is in range and outside every range-meeting block widened by the buffer |
| `MicroWindows.GapsLabelled` | packages/core/src/wellbeing/wellbeing.ts:84-92 | a gap carries the label of the block it ends before, or of the last block at the range end |
| `MicroWindows.GapsCarryLabels` | packages/core/src/wellbeing/wellbeing.ts:84-92 | for any blocks and buffer: a gap carries the label of a range-meeting block that begins the buffer after it, or at the range end that of a latest range-meeting block, or none if no block meets the range |
| `MicroWindows.GapsClear` | packages/core/src/wellbeing/wellbeing.ts:67-94 | no gap meets a widened block |
| `MicroWindows.FindMicroWindows` | packages/core/src/wellbeing/wellbeing.ts:102-146 | for any blocks, buffer and durations the finder computes the suggestions |
| `MicroWindows.PlaceGoals` | packages/core/src/wellbeing/wellbeing.ts:116-143 | the loop over the goals computes the allocation with its consumed intervals |
| `MicroWindows.FindGap` | packages/core/src/wellbeing/wellbeing.ts:119-141 | the inner loop finds the first long-enough gap that overlaps no consumed interval |
| `MicroWindows.OverlapIsUsed` | packages/core/src/wellbeing/wellbeing.ts:123-126 | over disjoint gaps the interval test on consumed equals a per-gap used flag |
| `MicroWindows.AllocationIsPlan` | packages/core/src/wellbeing/wellbeing.ts:116-143 | over disjoint gaps the allocation is the plan made with used flags |
| `MicroWindows.ServedByPreference` | packages/core/src/wellbeing/wellbeing.ts:102-143 | a served goal has a free gap of at least its minutes that no earlier goal was given and that is preferred, by label then start, to every other such gap, and its minutes from the start of that gap are suggested; an unserved goal has no such gap |
| `MicroWindows.WindowsAreTheServed` | packages/core/src/wellbeing/wellbeing.ts:129-141 | the suggestions are exactly the windows of the served goals, each from the start of its gap for the goal's minutes |
| `MicroWindows.PlanIsFirstFit` | packages/core/src/wellbeing/wellbeing.ts:116-143 | over any list of gaps, each goal of the member in order has the first one that fits and that no earlier goal was given |
| `MicroWindows.FirstFitUnique` | packages/core/src/wellbeing/wellbeing.ts:116-143 | and that determines the plan |
| `MicroWindows.UnservedGoalsDoNotFit` | packages/core/src/wellbeing/wellbeing.ts:119-122 | a goal left without a window has more minutes than every free gap not taken by an earlier goal |
| `MicroWindows.SuggestionsAreSafe` | packages/core/src/wellbeing/wellbeing.ts:102-146 | windows follow one another without overlap, are no more than the goals, last their goal's minutes, lie inside the range and miss every busy block |
| `MicroWindows.WindowsServeDifferentGoals` | packages/core/src/wellbeing/wellbeing.ts:117-141 | with distinct goal ids no two windows serve the same goal |
| `LoadEquity.ComputeLoadEquity` | packages/core/src/wellbeing/wellbeing.ts:224-256 | the load map, the running total, the entries and the sort compute the ranking |
| `LoadEquity.AddUp` | packages/core/src/wellbeing/wellbeing.ts:231-243 | one pass over the tasks tallies each member's load and the total |
| `LoadEquity.LoadsSumToTotalIff` | packages/core/src/wellbeing/wellbeing.ts:231-249 | member loads sum to at least the weight of the counted tasks, and to exactly that iff every counted task's assignee is carried by just one listed member |
| `LoadEquity.LoadsSumToTotal` | packages/core/src/wellbeing/wellbeing.ts:231-243 | with distinct ids member loads sum to the weight of the counted tasks |
| `LoadEquity.LoadByUrgency` | packages/core/src/wellbeing/wellbeing.ts:231-243 | a listed member's load is one point per low, two per medium, three per high and four per critical task of a counted category assigned to the member |
| `LoadEquity.RepeatedMemberCountedTwice` | packages/core/src/wellbeing/wellbeing.ts:245-249 | a member listed twice is counted twice, for chores of the three default categories and no others |
| `LoadEquity.ClampNeverBites` | packages/core/src/wellbeing/wellbeing.ts:247-247 | raw shares already lie in 0..100 |
| `LoadEquity.SharesSumNearHundred` | packages/core/src/wellbeing/wellbeing.ts:245-264 | for a non-zero total the rounded shares of n members sum to within 0.05 * n of 100 |
| `LoadEquity.RankingIsByLoad` | packages/core/src/wellbeing/wellbeing.ts:245-256 | a rearrangement of one entry per member with the member's id, load and share, the share being that load in percent of the total to the nearest tenth, halves up; shares in 0..100, ordered by share then id, and consistent with the loads |
| `LoadEquity.RankingIgnoresOrder` | packages/core/src/wellbeing/wellbeing.ts:224-256 | with distinct ids the order of members and tasks does not matter |
| `PostProcess.Process` | packages/core/src/extraction/extractor.ts:125-163 | normalizing, filtering and de-duplicating both lists computes the extraction |
| `Dedupe.Collapse` | packages/core/src/extraction/extractor.ts:132-142 | the loop over the map keeps, per key, the entry in place of the first one and of highest confidence |
| `PostProcess.ProcessTwice` | packages/core/src/extraction/extractor.ts:125-163 | post-processing is idempotent |
| `PostProcess.EntriesAreTheLeaders` | packages/core/src/extraction/extractor.ts:132-142 | output keys are distinct; an entry survives iff it is the earliest of maximal confidence among the kept ones with its key |
| `PostProcess.KeptIffPasses` | packages/core/src/extraction/extractor.ts:133-136 | kept entries are exactly the normal forms of raw entries that have a title, if empty ones are dropped, and enough confidence |
| `PostProcess.OutputPasses` | packages/core/src/extraction/extractor.ts:125-163 | tasks and events that come out are normal forms of ones that went in, titled and confident as asked; the overall confidence is read like theirs and notes are kept iff they are a string |
| `PostProcess.RaisingTheThreshold` | packages/core/src/extraction/extractor.ts:136-136 | raising the confidence threshold drops the entries below it and brings in no other |
| `PostProcess.BarsConfuseKeys` | packages/core/src/extraction/extractor.ts:106-108 | a bar in a title and one in a due date can make two different tasks share a key, and the second is dropped |
| `Dedupe.SurvivorKeys` | packages/core/src/extraction/extractor.ts:132-142 | survivors have distinct keys and stand in the order in which their keys first appeared |
| `Drafts.TaskKeyIdentifies` | packages/core/src/extraction/extractor.ts:106-108 | keys agree iff the categories do and either titles and due dates do, or one title continues the other after a bar with the text that the other due date begins with before a bar |
| `Drafts.BarFreeTaskKeys` | packages/core/src/extraction/extractor.ts:106-108 | without bars in the lower-cased titles, or without bars in the due dates, keys agree iff title, due date and category do |
| `Drafts.EventKeyIdentifies` | packages/core/src/extraction/extractor.ts:110-112 | the same iff for events, with title and start |
| `Drafts.BarFreeEventKeys` | packages/core/src/extraction/extractor.ts:110-112 | without bars in the lower-cased titles, or without bars in the starts, keys agree iff title and start do |
| `Drafts.NormalizeTaskTwice` | packages/core/src/extraction/extractor.ts:71-87 | a normalized task read back as raw input normalizes to itself |
| `Drafts.NormalizeEventTwice` | packages/core/src/extraction/extractor.ts:89-103 | a normalized event read back as raw input normalizes to itself |
| `Drafts.TrimTwice` | packages/core/src/extraction/extractor.ts:74-74 | trimmed titles neither start nor end with white space, and stay as they are |
| `Drafts.TrimCutsSpace` | packages/core/src/extraction/extractor.ts:74-74 | trimming cuts white space off both ends and nothing else |
| `Drafts.ConfidenceTwice` | packages/core/src/extraction/extractor.ts:59-63 | confidences lie in 0..1 whatever the raw value, and stay as they are |
| `Drafts.ConfidenceReads` | packages/core/src/extraction/extractor.ts:59-63 | what is no finite number counts as 0, and a number outside 0..1 as the nearer end |
| `Drafts.AgeReads` | packages/core/src/extraction/extractor.ts:82-83 | an age is kept iff it is a number of at least 0, rounded down |
| `Drafts.NamesDefault` | packages/core/src/extraction/extractor.ts:47-56 | only the exact names are read; any other urgency is MED and any other category ADMIN |
| `Drafts.EventReads` | packages/core/src/extraction/extractor.ts:89-103 | starts and locations of the wrong kind are dropped, and only a literal true makes an all-day event |
| `Drafts.SkillsTwice` | packages/core/src/extraction/extractor.ts:65-68 | the skill list is free of repeats and of non-strings, and stable |
| `Drafts.SkillsRead` | packages/core/src/extraction/extractor.ts:65-68 | the skills are exactly the strings of the array, in order of first appearance |
| `JobQueue.InMemoryJobQueue.RegisterHandler` | services/api/src/queue/in-memory-job-queue.ts:22-24 | replaces the handler of a name |
| `JobQueue.InMemoryJobQueue.EnqueueJob` | services/api/src/queue/in-memory-job-queue.ts:26-39 | starts one timer and tracks it; a negative or missing delay is 0 |
| `JobQueue.InMemoryJobQueue.RepeatJob` | services/api/src/queue/in-memory-job-queue.ts:41-58 | starts an interval under a new key, or throws without effect when everyMs is missing |
| `JobQueue.InMemoryJobQueue.Remove` | services/api/src/queue/in-memory-job-queue.ts:60-66 | stops and forgets the interval of a known key; an unknown key changes nothing |
| `JobQueue.InMemoryJobQueue.CloseQueue` | services/api/src/queue/in-memory-job-queue.ts:68-73 | stops and forgets every tracked timer, by loops over the set and the map |
| `JobQueue.InMemoryJobQueue.OnTimer` | services/api/src/queue/in-memory-job-queue.ts:32-84 | a firing timeout is forgotten first; the handler registered at that moment runs, or nothing does |
| `JobQueueLaws.RepeatKeysNeverCollide` | services/api/src/queue/in-memory-job-queue.ts:51-51 | no two calls of repeat along any run return the same key, whatever the names |
| `JobQueueLaws.RunConsistent` | services/api/src/queue/in-memory-job-queue.ts:17-73 | in every reachable state the live timers are exactly the tracked ones, so close leaves none behind |
| `JobQueueLaws.OneShotsConserved` | services/api/src/queue/in-memory-job-queue.ts:26-73 | pending + enqueued = fired + still pending + cancelled, over every run |
| `JobQueueLaws.OneShotsFireOnce` | services/api/src/queue/in-memory-job-queue.ts:26-39 | a one-shot fires at most once over any run |
| `JobQueueLaws.RemovedJobsStaySilent` | services/api/src/queue/in-memory-job-queue.ts:60-66 | after its key is removed a repeating job never fires again |
| `JobQueueLaws.RemoveStopsOnlyItsTimer` | services/api/src/queue/in-memory-job-queue.ts:60-66 | and the timers of all other keys stay live |
| `JobQueueLaws.ClosedQueueIsSilent` | services/api/src/queue/in-memory-job-queue.ts:68-73 | after close nothing fires and no handler runs until something new is scheduled |
| `JobQueueLaws.ScheduledJobRuns` | services/api/src/queue/in-memory-job-queue.ts:22-84 | over any run, a timer that fires runs the job it was started for, with its payload, through the handler registered last for its name, if any; delays are never negative |

## Left out

- `setStatus` (it writes any status), member deletion (the foreign key clears assignees) and interleaved execution of two claims: no step of the runs.
- Creation and update of members (`members.service.ts`): no step of the runs either, so the members stay fixed along a run.
- `apps/web` and `packages/adapters`: user interface, network skeletons, fixtures and mocks.
- The regular expressions of the scrubber but for the social security one; nothing is claimed about which personal data they find.
- `filterByCommute`, `assignByRouteSynergy` and `distanceKm`: a filter, and trigonometric floating point.
- `recurrence.ts` (occurrences come from a library that is not part of this model) and `dependencies.ts` (string templates).
- `computeBalanceBattery`: one ratio and a lookup in the load-equity result.
- `reject` of the escalation engine: no service calls it.
- `purgeSweep`, the digest and check-in jobs and time zones: single queries and locale-dependent code.
- Parsing of dates and of `opensRule`, `classifySeasonalIntent`, milestone content: a resolved goal date is an input.
- Prisma, NestJS wiring, guards, authentication and the BullMQ driver: the database is a map of rows.
- Descriptions, rationales, reasons and display names.
- Sorting of ISO strings (`localeCompare` on `startsAt` and `windowStart`) is sorting of instants, which agrees within the years 0 to 9999.
- In-place sorts and in-place score changes of candidates are modelled on sequence values; nothing else holds a reference to those arrays.
- RoundTrip.UnscrubUndoesScrub: matchers that touch token-shaped text, such as the phone pattern on a token with a ten-digit number, are outside its hypothesis.
- ConflictRadar.SilentIffAllApart: commitments that end before they start; `ConflictRadar.SilentIffAllClear` holds for them too.
- Routing.OrderIrrelevantIff: for a deciding rule of priority -942 or less the exact condition is stated for the assignee (`Routing.AssigneeFixedIff`), not for confidence and alternatives.
- ConflictRadar.ReportOrdered: nothing is stated about the order among conflicts of equal severity and window start.
- MicroWindows.GapsAreTheFreeTime: blocks end no earlier than they start and the edge buffer is not negative.
- MicroWindows.ServedByPreference: the same, and durations are positive; `MicroWindows.FindMicroWindows` itself asks for none of this.
- MicroWindows.SuggestionsAreSafe: the buffer is kept only around blocks that meet the scan range, as in the program.
- LoadEquity.SharesSumNearHundred: shares are reals, so the error of double arithmetic is not covered.
- LoadEquity.ComputeLoadEquity: the fallback weight for an unknown urgency is not modelled, because urgencies are the four of the schema.
- PostProcess.Process: a value on which `Number(...)` throws is not modelled; such values do not come out of JSON.
- JobQueue.InMemoryJobQueue.OnTimer: which live timer fires, and when, is left open, so delays and intervals are recorded but order nothing; a handler that throws counts as having run, and calls it makes on the queue are later steps.
