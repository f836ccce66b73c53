# Verification of the lost-pet alert backend

A Dafny model of the parts of the backend whose correctness depends on many
operations at once: the notification fan-out, the invitation lifecycle, the
alert-creation rate limiter, recipient matching, the life of an alert, language
negotiation and the zone cache. `dafny verify dfyconfig.toml` checks all of it.

## How it is built

A component that changes tables appears twice. A *machine* (`Step`, `Run`) says
what one atomic database, Redis or cache call does to a value holding the tables;
runs of the machine are arbitrary interleavings, and the theorems are about them.
A *class* holds the same tables as fields, follows the source's methods and loops,
and each of its methods is proved to make exactly the steps of the machine. Beside
that, its contract says in the tables' own fields, with the source's numbers, which rows
change, how, and when it refuses; for the larger components the `Outcomes` and
`WaveVerdicts` files hold these statements. Pure code is modelled by functions.

| files | component |
|---|---|
| `Invitations`, `InvitationRuns`, `InvitationSweeps`, `InvitationOutcomes`, `InvitationService`, `InvitationTokens` | invitation lifecycle, its run invariant, what sweeps can change, what each operation leaves, the service |
| `InvitationText`, `InvitationRendering`, `InvitationMeaning`, `InvitationMarkup`, `InvitationParts` | the two parts of an invitation email |
| `RateLimit`, `RateLimitAdmissions` | alert-creation limiter, and its admissions counted one by one |
| `Matching`, `MatchingIds` | strategies and two-pass deduplication, and the same with ids of two kinds |
| `Waves`, `WaveVerdicts`, `WaveSteps`, `WaveOutcomes`, `WaveJobs`, `WaveAccounting`, `WaveRaces`, `WaveIds` | escalation waves over the notification table, the verdict on one user, the steps of a whole job, what it leaves, the processor, its accounting, jobs that race for a user, ids of two kinds |
| `SuccessStory` | interleaved success-story workers |
| `AlertLife`, `AlertOutcomes`, `AlertService`, `AlertWaves` | alert status and expiry, what each read and write does to every row, the services, waves over closing alerts |
| `Language`, `LanguageHeader` | `Accept-Language` negotiation |
| `ZoneCache`, `ZoneServices` | zone cache races, the services |
| `Common`, `Strings` | optional values, spans of time, counting; JavaScript string operations |

Times are integers in milliseconds. Tokens are fresh values and the hash is
injective. Distances, qualities and coordinates are reals. A day is 24 hours.

## What turned out not to hold, and exactly when it does

- A sweep is not invisible to its sender: a stale PENDING row blocks `create` and a
  `resend` of a sibling row and may be revoked, a swept one does not and may not. Sweeps
  can be added and removed freely in a run if and only if none of its operations meets a
  stale row (`InvitationSweeps.SweepsInvisibleExactly`, one event at a time
  `SweepVisibleExactly`, a run where it decides `SweepCanDecideCreate`).
- An attempt in the same millisecond as the last admission can be admitted although
  the full history would refuse it (`RateLimit.SameMillisecondExactly`).
- The limiter counts distinct milliseconds, though its messages speak of alerts. Attempts in
  distinct milliseconds stay within every limit
  (`RateLimitAdmissions.DistinctAttemptsStayWithinLimits`); all runs do, counted one by one,
  if and only if some limit is at most one (`AdmissionsWithinLimitsExactly`). With the
  defaults six alerts pass the five per hour (`SixInAnHourOfFive`).
- A client that retries exactly when `retry_after_seconds` has passed is refused again
  precisely when the wait was a whole number of seconds (`RateLimit.RetryHintIsTight`, at one input
  `RateLimitAdmissions.RetryAtTheHintIsRefused`).
- The HTML and text parts of an invitation agree for every body exactly when the link
  is not empty (`InvitationMeaning.PartsAgreeExactly`).
- Three renewals are not a limit under races. The counter never passes three, and renewals
  that do not overlap are counted one for one, so they are at most three
  (`AlertLife.AtMostThreeWholeRenewals`); but from a state some run accepts more than three
  in all, if and only if the count is below three or a renewal is in flight
  (`AlertLife.RenewalLimitExactly`). An alert then lives a week and an interval for each
  accepted renewal (`NoAlertOutlivesAcceptedRenewals`) and so without bound
  (`OverlapsLiveForEver`).
- A resolved alert can still become cancelled, exactly when a cancellation had read it
  before (`AlertLife.ResolvedIsFinalExactly`, from an empty table
  `CancelOverwritesResolve`). Resolving a cancelled or expired alert is accepted, and so is
  renewing an expired or resolved one, which stays closed.
- After a successful invalidation a read can still miss the write, exactly when an
  older query was in flight (`ZoneCache.StaleReadExactly`, from the start
  `StaleReadHappens`).
- `notification.constants.ts` calls the daily cap a maximum of notifications. The code
  bounds wave batches by the cap, and rows by the cap minus one plus the user's devices
  (`Waves.DailyCapHolds`). A push keeps the rows within the cap if and only if its devices
  still fit under it (`Waves.CapKeptExactly`); a LOW wave to three devices does not
  (`Waves.LowWaveExceedsItsCap`).
- A worker that crashes after claiming a success story loses the rest of it: a retry
  finds the claim taken (`SuccessStory.CrashAfterClaimIsFinal`). A wave that crashes
  inside a user's devices leaves the remaining ones to be excluded as already notified
  (`Waves.CutShortPushIsFinal`).
- The guards of a turn and its insertions are separate calls. While no push of a user fails, a
  device with two wave pushes got them from two turns, the later of which had checked before
  the earlier push was inserted (`WaveRaces.TwoPushesMeanOverlap`); and two turns in flight
  with a device ahead of both do push to it twice (`OverlapPushesTwice`, from an empty table
  `RaceHappens`).
- A second email follows an accepted one exactly when the first left no row
  (`Waves.EmailRepeatsExactly`).
- A token-less match that is also a reachable device, as when its token is empty or new,
  gets two rows instead of one (`WaveAccounting.EveryDeviceOnce`, `WaveIds.TwoRowsExample`).
- `findDevicesForAlert` takes a latitude or longitude of zero for a missing one.
- The interfaces declare string ids, and only the alert-zone strategy converts to strings.
  If other strategies deliver numbers, a user is returned twice exactly when matched in
  both kinds, and the creator passes the filter exactly when matched with a number
  (`MatchingIds.ReturnedTwiceExactly`, `MatchingIds.CreatorPassesExactly`,
  `WaveIds.BothKindsExample`). A match with a number finds no devices: its user is pushed to
  only by a match with a string (`WaveIds.PushNeedsText`, `WaveIds.NumbersAreNeverPushed`).
- Two departures from section 12.4.2 of RFC 9110: a weight is read only from a parameter
  that starts with a lower-case `q=` (`LanguageHeader.QualityExactly`), so one written with
  `Q=` counts as 1 (`UpperCaseWeightDecides`, `UpperCaseExample`); and a quality above 1 is
  accepted and wins (`QualityAboveOneDecides`, `AboveOneExample`).

## Model

| member | source | states |
|---|---|---|
| Invitations.StepKeepsInv | src/invitation/invitation.service.ts:200-668 | every step keeps the invariant: row mirrors its newest send, acceptance columns exactly on ACCEPTED rows, one PENDING row per sender and address, limits, cooldown, one outstanding delivery per queued log row |
| Invitations.CreateKeepsInv | src/invitation/invitation.service.ts:227-290 | an issued invitation keeps it, the partial unique index included |
| Invitations.ResendKeepsInv | src/invitation/invitation.service.ts:398-479 | so does a reissued one, with its new token, expiry and log row |
| Invitations.DeliveryKeepsInv | src/invitation/invitation.service.ts:508-577 | so does either outcome of any outstanding delivery |
| Invitations.RecordKeepsLimits | src/invitation/invitation.service.ts:168-194 | a send the check lets through keeps every rolling day and hour within the limits, not only the window it looked at |
| Invitations.RecordKeepsCooldown | src/invitation/invitation.service.ts:419-434 | a failed newest send lifts the cooldown, yet every earlier send is already a cooldown behind |
| Invitations.FinishKeepsLimits | src/invitation/invitation.service.ts:547-574 | outcomes that flip asynchronously never push a window over its limit |
| Invitations.RunKeepsInv | src/invitation/invitation.service.ts:200-668 | the invariant survives every run |
| InvitationRuns.ReachableInv | src/invitation/invitation.service.ts:200-668 | hence it holds in every reachable state |
| InvitationRuns.SendLimitsHold | src/invitation/invitation.service.ts:168-194 | in every reachable state no sender exceeds the daily limit in any rolling 24 hours, everyone stays within the hourly cap when it is on, and two sends of an invitation are a cooldown apart unless the earlier failed |
| InvitationRuns.TokenNamesOneRow | src/invitation/invitation-token.ts:8-17 | a token names at most one row, and only minted tokens are stored |
| InvitationRuns.TokenMatchCount | src/invitation/invitation.service.ts:629-645 | an acceptance by token changes one row if the token is live, else none |
| InvitationRuns.PreviewIffConvertible | src/invitation/invitation.service.ts:342-362 | while invitations are enabled, `preview` answers at an instant exactly when `acceptByToken` would change one row then |
| InvitationRuns.DeadTokenStaysDead | src/invitation/invitation.service.ts:435-450 | no step revives a minted token that is not live |
| InvitationRuns.DeadTokenNeverConverts | src/invitation/invitation.service.ts:629-645 | it never converts anything again in any run |
| InvitationRuns.ConversionKillsToken | src/invitation/invitation.service.ts:629-645 | a conversion ends its token |
| InvitationRuns.TokenConvertsOnce | src/invitation/invitation.service.ts:629-645 | a token converts at most one row, at most once, in any run |
| InvitationRuns.ResendRetiresToken | src/invitation/invitation.service.ts:435-470 | after a resend the earlier token neither previews nor converts, for ever |
| InvitationRuns.CurrentTokenIsNewestSend | src/invitation/invitation.service.ts:485-506 | of all outstanding deliveries only the row's newest send carries its current token |
| InvitationRuns.DeliveryTouchesOnlyItsSend | src/invitation/invitation.service.ts:508-577 | a failed delivery changes a row if and only if it is that row's newest send and the row is PENDING; it then only expires it; a success changes no row |
| InvitationRuns.ClosedRowsAreFrozen | src/invitation/invitation.service.ts:384-396 | ACCEPTED and REVOKED rows never change again |
| InvitationRuns.RegisteredPendingShrinks | src/invitation/invitation.service.ts:227-233 | once an address has an account no row addressed to it becomes PENDING |
| InvitationRuns.AcceptByEmailHandles | src/invitation/invitation.service.ts:648-668 | an acceptance by email leaves no live row for the address |
| InvitationRuns.HandledStaysHandled | src/invitation/invitation.service.ts:584-668 | and there is none again after any step |
| InvitationRuns.HandledAddressGainsNothing | src/invitation/invitation.service.ts:584-626 | in any run, replays included, a row of a handled address is converted exactly if it was before |
| InvitationRuns.RegisteredAddressGetsNoRow | src/invitation/invitation.service.ts:227-233 | an address with an account never gets another row |
| InvitationRuns.HandledAddressNeverConverts | src/invitation/invitation.service.ts:584-668 | so every conversion of a handled address in any later state stood, unaltered, before |
| InvitationSweeps.RepliesIgnoreSweeps | src/invitation/invitation.service.ts:152-161 | two runs that differ in sweeps answer alike as long as no sender operation meets a stale row |
| InvitationSweeps.SweepsAreInvisible | src/invitation/invitation.service.ts:152-161 | as long as no operation of the run meets a stale row, adding or removing sweeps changes no later preview, conversion or other answer |
| InvitationSweeps.SweepsInvisibleExactly | src/invitation/invitation.service.ts:152-161 | every placing of sweeps in a run gives the same answers if and only if no operation of it meets a stale row |
| InvitationSweeps.SweepVisibleExactly | src/invitation/invitation.service.ts:235-245 | a sweep changes the next reply if and only if that operation would meet a stale row |
| InvitationSweeps.SweepCanDecideCreate | src/invitation/invitation.service.ts:235-245 | a run in which one sweep decides whether an invitation is issued |
| InvitationServices.InvitationService.Create | src/invitation/invitation.service.ts:200-303 | every refusal in order with its condition in terms of the tables; otherwise exactly one new PENDING row that lives the configured time, one log row and one outstanding delivery; an issued token is live unless that time is zero; the invariant is kept |
| InvitationServices.InvitationService.Revoke | src/invitation/invitation.service.ts:384-396 | not found for a row that is missing or another sender's, refused unless PENDING; otherwise only that row's status and withdrawal time change, and its token is dead afterwards |
| InvitationServices.InvitationService.Resend | src/invitation/invitation.service.ts:398-479 | every refusal in order, another sender's row and the unique-index conflict included; otherwise only that row's hash, status and two times change and one send is queued; the earlier token is dead afterwards |
| Invitations.RefusesExactlyWhenFull | src/invitation/invitation.service.ts:168-194 | the check refuses exactly when the sender's rolling day, or else everyone's rolling hour, is full |
| InvitationServices.InvitationService.EnforceSendLimits | src/invitation/invitation.service.ts:168-194 | refuses if and only if as many log rows as the limit, not failed and later than 24 hours (or, for everyone, one hour) ago, stand; otherwise any one more send keeps every window within its limit |
| InvitationServices.InvitationService.Sweep | src/invitation/invitation.service.ts:152-161 | a row changes if and only if it is PENDING, past its expiry and in scope, and then only to EXPIRED |
| InvitationServices.InvitationService.Preview | src/invitation/invitation.service.ts:342-362 | valid if and only if some row with the token's hash is PENDING and unexpired; that is when one row would convert now |
| InvitationServices.InvitationService.Deliver | src/invitation/invitation.service.ts:508-577 | the log row gets its outcome; a failure expires the row it was for if that is still PENDING with the token sent, and nothing else changes |
| InvitationServices.InvitationService.AcceptByToken | src/invitation/invitation.service.ts:629-645 | a row changes if and only if it had the token's hash, was PENDING and expires later than now; it is then the old row with ACCEPTED, the token route, now and the user; the count is the number of such rows; the token is dead afterwards |
| InvitationServices.InvitationService.AcceptByEmail | src/invitation/invitation.service.ts:648-668 | a row changes if and only if it was addressed to the email, was PENDING and expires later than now; it is then the old row with ACCEPTED, the email route, now and the user; the count is the number of such rows |
| InvitationServices.InvitationService.HandleUserRegistered | src/invitation/invitation.service.ts:584-612 | for every row which route converts it, the token before the address and the address only if verified; every other row stays |
| InvitationOutcomes.LimitExactly | src/invitation/invitation.service.ts:168-194 | the check counts exactly the log rows of the last 24 hours and hour that have not failed |
| InvitationOutcomes.CreateExactly | src/invitation/invitation.service.ts:200-303 | the create step answers and leaves what the tables before it say, for every input |
| InvitationOutcomes.RevokeExactly | src/invitation/invitation.service.ts:384-396 | so does the revoke step |
| InvitationOutcomes.CoolingExactly | src/invitation/invitation.service.ts:419-434 | a resend is too soon if and only if the newest send has not failed and less than the cooldown has passed since the row was sent |
| InvitationOutcomes.ResendExactly | src/invitation/invitation.service.ts:398-479 | so does the resend step |
| InvitationOutcomes.SweepExactly | src/invitation/invitation.service.ts:152-161 | so does a sweep |
| InvitationOutcomes.PreviewExactly | src/invitation/invitation.service.ts:342-362 | so does a preview, for which the plausibility check decides nothing |
| InvitationOutcomes.DeliveryExactly | src/invitation/invitation.service.ts:508-577 | so does either outcome of a delivery |
| InvitationOutcomes.TokenConvertsExactly | src/invitation/invitation.service.ts:628-645 | the rows converted by a token, field by field, and no others |
| InvitationOutcomes.EmailConvertsExactly | src/invitation/invitation.service.ts:647-668 | the rows converted by an address, field by field, and no others |
| InvitationOutcomes.RegistrationExactly | src/invitation/invitation.service.ts:584-612 | the rows a registration converts, and by which route |
| InvitationText.EscapeHtmlIsOnePass | src/invitation/invitation-text.ts:21-28 | five chained replaces equal one map over the characters |
| InvitationText.DecodeEscaped | src/invitation/invitation-text.ts:21-28 | decoding entities gives the input back, whatever follows |
| InvitationRendering.BodySpelled | src/invitation/invitation-text.ts:84-99 | the renderer's chain of splits and joins spells exactly the intended paragraphs, breaks, anchors and characters |
| InvitationRendering.SplitJoin | src/invitation/invitation-text.ts:91-95 | splitting and joining is replacing every occurrence |
| InvitationMeaning.CollapseIsLines | src/invitation/invitation-text.ts:88-90 | collapsing blank lines of the filled text is filling each paragraph |
| InvitationMeaning.HtmlSaysTheText | src/invitation/invitation-text.ts:84-104 | read back as text, the HTML part is the text part with runs of newlines reduced to two |
| InvitationMeaning.NormalizeTextIdempotent | src/invitation/invitation-text.ts:31-33 | normalising twice is normalising once |
| InvitationMeaning.PartsAgreeExactly | src/invitation/invitation-text.ts:84-104 | for one-line links the parts agree on every body if and only if the link is not empty |
| InvitationMeaning.EmptyLinkMergesBlankLines | src/invitation/invitation-text.ts:84-104 | a family of bodies on which an empty link makes them differ |
| InvitationMarkup.CountIsHoles | src/invitation/invitation-text.ts:43-45 | the count by splitting is the number of occurrences |
| InvitationMarkup.BlocksKeepHoles | src/invitation/invitation-text.ts:88-90 | splitting into paragraphs cuts no placeholder |
| InvitationMarkup.MarkupIsTheRenderers | src/invitation/invitation-text.ts:84-99 | every `<` of the output opens one of the renderer's tags, and there is one anchor per placeholder |
| InvitationParts.UnixNewlinesExactly | src/invitation/invitation-text.ts:31-33 | the replacement gives one newline for each return, return-newline pair or newline, read from left to right |
| InvitationParts.WindowsRoundTrip | src/invitation/invitation-text.ts:31-33 | a text written with Windows line ends comes back as it was |
| InvitationParts.NormalizeTextExactly | src/invitation/invitation-text.ts:31-33 | normalising is cutting white space off both ends of that, and nothing else |
| InvitationParts.TextPartExactly | src/invitation/invitation-text.ts:102-104 | the text part is the pieces around the placeholders, none of which holds one, joined by the link |
| InvitationParts.OnePlaceholder | src/invitation/invitation-text.ts:102-104 | with one placeholder the link stands where it stood |
| InvitationParts.AnchorLeadsToTheLink | src/invitation/invitation-text.ts:85-86 | the anchor's address cannot end its attribute and decodes to the link, as does its text |
| RateLimit.RecordRepresents | src/alert/rate-limit.service.ts:169-189 | add, prune and expire keep the set equal to the unpruned part of the admitted history |
| RateLimit.DecidesAsHistory | src/alert/rate-limit.service.ts:75-152 | at every later millisecond the set decides as the full history would, hint included |
| RateLimit.AdmissionStaysWithinLimits | src/alert/rate-limit.service.ts:106-152 | an admission keeps every closed hour, day and week within its limit |
| RateLimit.RunStaysWithinLimits | src/alert/rate-limit.service.ts:75-189 | so does every run |
| RateLimit.PruningIsInvisible | src/alert/rate-limit.service.ts:169-189 | over a whole run at increasing times the answers are those of a limiter that never prunes |
| RateLimit.SameMillisecondExactly | src/alert/rate-limit.service.ts:169-189 | exactly when a second attempt in the same millisecond is answered differently |
| RateLimit.SameMillisecondCanDiffer | src/alert/rate-limit.service.ts:169-189 | such an attempt |
| RateLimit.RetryHintIsTight | src/alert/rate-limit.service.ts:208-227 | a refusing window refuses exactly up to the oldest counted creation plus its span; the hint lies less than a second beyond, and is itself refused if and only if the wait is whole seconds |
| RateLimitAdmissions.AdmissionsAreTheHistory | src/alert/rate-limit.service.ts:169-189 | unless attempts share a millisecond, or with a limit of one even then, the history holds every admission |
| RateLimitAdmissions.DistinctAttemptsStayWithinLimits | src/alert/rate-limit.service.ts:106-149 | attempts in distinct milliseconds: no window holds more admissions than its limit |
| RateLimitAdmissions.AdmissionsWithinLimitsExactly | src/alert/rate-limit.service.ts:106-149 | every run keeps its admissions, counted one by one, within the limits if and only if some limit is at most one |
| RateLimitAdmissions.SixInAnHourOfFive | src/alert/rate-limit.service.ts:29-42 | with the defaults, six admissions within an hour |
| RateLimitAdmissions.RetryAtTheHintIsRefused | src/alert/rate-limit.service.ts:208-227 | an input at which a retry exactly at the hint is refused |
| RateLimit.RateLimitService.CheckAlertCreationLimit | src/alert/rate-limit.service.ts:75-152 | admitted if and only if the last 3,600,000, 86,400,000 and 604,800,000 milliseconds of the history each hold fewer creations than their limit; else refused by the first full one in that order, with a hint less than a second beyond the instant its own oldest creation leaves; a refusal changes nothing, an admission stores exactly the last week and touches no other user, and no window overflows |
| RateLimit.VerdictExactly | src/alert/rate-limit.service.ts:100-152 | the stored set gives that verdict for every represented history |
| RateLimit.VerdictIsUnique | src/alert/rate-limit.service.ts:100-152 | and no other verdict meets that description |
| RateLimit.KeyAfterAdmission | src/alert/rate-limit.service.ts:169-189 | after an admission the key holds the creations of the last week and expires eight days later |
| Matching.KeepBestIsBest | src/location/location.service.ts:511-551 | replacing when strictly better keeps, per key, the leftmost minimum |
| Matching.KeepBestKeepsOrder | src/location/location.service.ts:511-551 | in order of first appearance |
| Matching.DeduplicateMatches | src/location/location.service.ts:511-551 | the two passes of map updates compute per-device and then per-user minima |
| Matching.FindAlertZoneMatches | src/location/location.service.ts:272-286 | the first row of each device |
| Matching.FindDevicesForAlert | src/location/location.service.ts:74-160 | exactly one match for each user some query found: of their devices' matches the best by priority, usable token and distance, where a device's match is the first row of the first query that has one, in the order saved zones, alert zones, fresh positions, stale positions, postal codes, addresses, with that strategy's source, tier and distance (999 for postal codes); nothing for an alert that is not active or lacks coordinates |
| Matching.WinnersExactly | src/location/location.service.ts:74-160 | the winner of a device is the first row of the first strategy that found it, and only that |
| Matching.ResultIsBestOfEachUser | src/location/location.service.ts:511-551 | the result is the best of each user's device winners, one for each user |
| Matching.ResultIsLeftmostMinimum | src/location/location.service.ts:511-551 | a returned match is in the input and is the leftmost lexicographic minimum of priority, missing token and distance over its user's device winners |
| Matching.OneMatchPerUser | src/location/location.service.ts:511-551 | no user is returned twice |
| Matching.UserIsReturned | src/location/location.service.ts:511-551 | every user of the input is returned |
| Matching.HighestConfidence | src/location/location.service.ts:511-551 | with the highest confidence any strategy gave them |
| Matching.StrategiesAreTiered | src/location/location.service.ts:208-501 | every match carries the source, confidence and priority of one line of the table of strategies |
| MatchingIds.ReturnedTwiceExactly | src/location/location.service.ts:511-551 | with ids of two kinds, some user is returned twice if and only if some user is matched in both |
| MatchingIds.CreatorPassesExactly | src/notification/notification-queue.processor.ts:130-133 | the creator passes the filter of the waves if and only if matched with a number |
| MatchingIds.DeclaredIdsAgree | src/location/location.service.ts:12-20 | with string ids throughout, as declared, this is the deduplication of `Matching` |
| Matching.WavesPartitionUsers | src/notification/notification-queue.processor.ts:128-159 | every matched user but the creator belongs to exactly one wave |
| Matching.WavesReachOnlyMatched | src/notification/notification-queue.processor.ts:128-133 | a wave holds only matched users of its tier, never the creator |
| Waves.PushesOnlyTheUnreached | src/notification/notification-queue.processor.ts:205-266 | a wave inserts a push row only if every earlier push row of that user and alert has failed |
| Waves.NoDevicePushedTwice | src/notification/notification-queue.processor.ts:205-266 | while no push of the user fails, no device gets two wave pushes, over any run of waves, replays and crashes |
| Waves.ReachedUserGetsNoMore | src/notification/notification-queue.processor.ts:901-921 | once a push row stands that does not fail, no wave pushes that user for the alert again |
| Waves.AtMostOneEmail | src/notification/notification-queue.processor.ts:275-287 | with email rows always recorded a user gets at most one accepted email per alert |
| Waves.RunKeepsBatchesCovered | src/notification/notification-queue.processor.ts:927-948 | in every window, wave batches are at most the rows the cap counts |
| Waves.DailyCapHolds | src/notification/notification-queue.processor.ts:244-266 | right after any push of tier w in any run, the rolling day holds at most cap(w) batches and cap(w) - 1 + devices rows |
| Waves.CapKeptExactly | src/notification/notification-queue.processor.ts:927-948 | a push leaves the rolling day within the cap if and only if its devices still fit under it |
| Waves.FirstPushExceedsExactly | src/notification/notification-queue.processor.ts:927-948 | a first wave exceeds the cap if and only if the user has more reachable devices than it |
| Waves.LowWaveExceedsItsCap | src/notification/notification.constants.ts:21-26 | one LOW wave sends three notifications, over its cap of two |
| Waves.CutShortPushIsFinal | src/notification/notification-queue.processor.ts:237-242 | after a push cut short by a crash no turn pushes that user for the alert until a row fails |
| WaveRaces.TwoPushesMeanOverlap | src/notification/notification-queue.processor.ts:237-266 | under every interleaving of guards and insertions without failures, two wave pushes of a device come from two turns, and the later turn had checked before the earlier push was inserted |
| WaveRaces.OverlapPushesTwice | src/notification/notification-queue.processor.ts:237-266 | two turns of a user in flight with a device ahead of both push to it twice when they go on |
| WaveRaces.RaceHappens | src/notification/notification-queue.processor.ts:237-266 | such a run from an empty table |
| Waves.EmailRepeatsExactly | src/notification/notification-queue.processor.ts:276-286 | a second accepted email follows a first exactly when that left no row |
| Waves.ExclusionsDoNotCount | src/notification/notification.service.ts:170-184 | an excluded row changes no guard of any later turn |
| WaveJobs.NotificationQueueProcessor.PushToUser | src/notification/notification-queue.processor.ts:205-266 | the turn of one user: every reachable device gets one row, pushed with its job or excluded for the first of quiet hours, a standing push and a full day of 10, 5 or 2 rows; without one, the matched device is excluded if it holds a token |
| WaveJobs.NotificationQueueProcessor.EmailUser | src/notification/notification-queue.processor.ts:276-286 | nothing if an email row of the user stands or none is attempted; else the row the provider's answer gives, if recorded; a recorded attempt keeps every user at one accepted email |
| WaveJobs.NotificationQueueProcessor.ProcessAlertNotifications | src/notification/notification-queue.processor.ts:84-290 | nothing for an alert that is not active; else for every user of the wave the verdict of the rows before the job, on each of their devices and on no other. From 22 to 7 o'clock a MEDIUM or LOW wave queues nothing and excludes every reachable device for the hour; by day, and in a HIGH wave, no row carries that reason. The answer counts the jobs added |
| WaveVerdicts.RefusalIsVerdict | src/notification/notification-queue.processor.ts:229-247 | a turn is refused for the hour, then for a standing push of the user and alert, then for as many rows in the last 86,400,000 milliseconds as the tier's cap, and for nothing else |
| WaveVerdicts.CompleteTurnLeaves | src/notification/notification-queue.processor.ts:205-266 | a complete turn leaves exactly the rows and jobs of its verdict |
| WaveVerdicts.CutTurnLeaves | src/notification/notification-queue.processor.ts:248-266 | a turn cut short leaves the first rows of the complete one and their jobs but perhaps the last |
| WaveVerdicts.EmailTurnLeaves | src/notification/notification-queue.processor.ts:276-286 | the row and the accepted email of one email turn |
| WaveOutcomes.CompletedWaveLeaves | src/notification/notification-queue.processor.ts:154-290 | for every table, what a complete job leaves is decided by the rows before it: no turn changes the verdict on another user |
| WaveOutcomes.QuietHoursExactly | src/notification/notification-queue.processor.ts:890-893 | a job that leaves this queues nothing at night unless HIGH, and excludes nobody for the hour by day or when HIGH |
| WaveRaces.LoneFlightIsTheTurn | src/notification/notification-queue.processor.ts:205-266 | guards and insertions with nothing in between make exactly the turn of the machine, cut short where they stop |
| WaveAccounting.CompletedWaveAccounts | src/notification/notification-queue.processor.ts:154-269 | how often a completed wave records any device of a matched user |
| WaveAccounting.EveryDeviceOnce | src/notification/notification-queue.processor.ts:154-269 | every reachable device of a matched user gets exactly one new row and a token-less match exactly one, except that a device which is both gets two; every matched user gets a row |
| WaveAccounting.OnlyReachableDevicesArePushed | src/notification/notification-queue.processor.ts:173-266 | a completed wave queues pushes only for reachable devices, so a token-less device's row is an exclusion |
| WaveAccounting.CompletedWaveQueues | src/notification/notification-queue.processor.ts:249-266 | the jobs added are, in order, the ids of the new queued push rows |
| WaveIds.PushNeedsText | src/notification/notification-queue.processor.ts:185-206 | with ids of two kinds, a match pushes exactly when it carries a string and would push anyway |
| WaveIds.TurnRowExactly | src/notification/notification-queue.processor.ts:185-266 | a reachable device gets its turn's row if and only if the match carries a string, or it is the matched device with a token |
| WaveIds.NumbersAreNeverPushed | src/notification/notification-queue.processor.ts:185-206 | over any run a user whose matches all carry numbers is never pushed to |
| WaveIds.BothKindsExample | src/location/location.service.ts:272-286 | a user returned twice, and a creator who passes the filter |
| WaveIds.TwoRowsExample | src/notification/notification-queue.processor.ts:194-203 | a device that gets two rows in one wave |
| WaveAccounting.MatchingGivesDistinctUsers | src/location/location.service.ts:511-551 | what matching returns satisfies what the accounting needs |
| SuccessStory.StepKeepsInv | src/notification/notification-queue.processor.ts:318-460 | every call of every worker keeps: one claimer, and the tables are what it has done so far |
| SuccessStory.ClaimIsFinal | src/notification/notification-queue.processor.ts:358-369 | under every interleaving at most one worker ever passes the claim |
| SuccessStory.AtMostOncePerDevice | src/notification/notification-queue.processor.ts:402-428 | in every reachable state, crashed ones included, no device has two story pushes, every push is for a helper's device and none for the creator's, and no user two emails |
| SuccessStory.FinishedReachesEveryHelper | src/notification/notification-queue.processor.ts:371-428 | if the claimer finishes, a device reachable when it looked has one row if its user is a helper and none otherwise |
| SuccessStory.CrashAfterClaimIsFinal | src/notification/notification-queue.processor.ts:358-369 | if the claimer crashes nothing more is ever sent |
| SuccessStory.NoSnapshotNoStory | src/notification/notification-queue.processor.ts:340-356 | whatever the workers do, an alert that is gone or has no snapshot is never claimed and nothing is sent |
| SuccessStory.SoloTells | src/notification/notification-queue.processor.ts:318-460 | a worker that nothing interrupts makes exactly the claim, one row for each helper's reachable device and one email for each helper who opted in, and finishes |
| SuccessStory.DevicesOfExactly | src/notification/notification-queue.processor.ts:402-409 | the device query answers the recipients' reachable devices as often as they stand, and no others |
| SuccessStory.SuccessStoryJob.ProcessSuccessStory | src/notification/notification-queue.processor.ts:318-460 | an undisturbed job: claim, one row per reachable helper device in order, one email per opted-in helper; any other run changes nothing; a run of the machine leaves the same tables |
| AlertLife.LeavingActiveIsFinal | src/alert/alert.service.ts:510-533 | with every read and write interleaved, an alert that left ACTIVE is never ACTIVE again, a closed one never reopens, and its pet snapshot stays |
| AlertLife.ResolvedIsFinalExactly | src/alert/alert.service.ts:656-681 | a resolved alert can change status again if and only if a cancellation read it before |
| AlertLife.StepKeepsLife | src/alert/alert.service.ts:764-791 | an ACTIVE alert expires no earlier than the last sweep and no later than its renewals pay for |
| AlertLife.NoAlertOutlivesItsRenewals | src/alert/alert.service.ts:963-977 | with an expiry job at least every h, no alert is ACTIVE later than 28 days + 4h after creation, nor than (renewals + 1)(7 days + h) |
| AlertLife.BoundIsReached | src/alert/alert.service.ts:764-791 | for every h a run reaches the bound exactly |
| AlertLife.WholeRenewalsAreCounted | src/alert/alert.service.ts:764-791 | renewals that do not overlap raise the counter by exactly their number |
| AlertLife.AtMostThreeWholeRenewals | src/alert/alert.service.ts:770-774 | so a run without overlaps accepts at most three for any alert |
| AlertLife.RenewalLimitExactly | src/alert/alert.service.ts:764-791 | some run takes an alert past three renewals in all if and only if its count is below three or a renewal is in flight |
| AlertLife.OverlappingRenewalsCountOnce | src/alert/alert.service.ts:764-791 | any number of renewals that read before one of them writes are accepted, all of them, and count once |
| AlertLife.NoAlertOutlivesAcceptedRenewals | src/alert/alert.service.ts:764-791 | overlapping or not, no alert is ACTIVE later than (accepted renewals + 1)(7 days + h) after creation |
| AlertLife.OverlapsLiveForEver | src/alert/alert.service.ts:764-791 | with overlaps, for every n a timely run has an alert ACTIVE n weeks after creation |
| AlertLife.CancelOverwritesResolve | src/alert/alert.service.ts:656-681 | a run from an empty table in which a cancellation overwrites a resolution |
| AlertServices.AlertService.Create | src/alert/alert.service.ts:121-170 | the table with one more row: the creator's, ACTIVE, expiring 604,800,000 milliseconds later, never renewed |
| AlertServices.AlertService.Resolve | src/alert/alert.service.ts:485-533 | not found, another user's or already resolved, each if and only if; else that row alone becomes RESOLVED, with one notice |
| AlertServices.AlertService.Cancel | src/alert/alert.service.ts:636-681 | not found, another user's, or neither DRAFT nor ACTIVE, each if and only if; else that row alone becomes CANCELLED, with one notice |
| AlertServices.AlertService.Renew | src/alert/alert.service.ts:748-791 | not found, another user's, cancelled, or renewed three times, each if and only if; else that row alone expires 604,800,000 milliseconds from now and counts one more renewal |
| AlertServices.AlertService.CheckExpired | src/alert/alert.service.ts:964-994 | a row changes if and only if it was ACTIVE and past its expiry, and then only to EXPIRED; one notice for each of them and for no other |
| AlertServices.AlertService.MarkAsFound | src/pet/pet.service.ts:348-368 | a row changes if and only if it was ACTIVE and of the pet, and then only to RESOLVED; one notice for each of them and for no other |
| AlertServices.AlertService.SyncAlertSnapshots | src/pet/pet.service.ts:266-280 | a row changes if and only if it is DRAFT or ACTIVE and of the pet, and then only its name |
| AlertOutcomes.ReadsExactly | src/alert/alert.service.ts:485-510 | a read changes no row, and leaves a write pending if and only if the alert exists, is the user's own and its status and renewals allow it |
| AlertOutcomes.FoundInterleaved | src/pet/pet.service.ts:348-368 | with any run between read and write, a row changes if and only if it stood at the read with the pet, ACTIVE, and is still ACTIVE at the write, and then only to RESOLVED |
| AlertOutcomes.FoundMissesOnlyLaterAlerts | src/pet/pet.service.ts:348-368 | so the pet's alerts still ACTIVE after the write are exactly those created after the read |
| AlertOutcomes.ResolveInterleaved | src/alert/alert.service.ts:510-533 | a resolution writes RESOLVED to its one row whatever happened in between |
| AlertOutcomes.CancelInterleaved | src/alert/alert.service.ts:656-681 | so does a cancellation |
| AlertOutcomes.RenewInterleaved | src/alert/alert.service.ts:776-791 | a renewal writes a week from its write and one more than the count it had read |
| AlertOutcomes.WholeWritesExactly | src/alert/alert.service.ts:963-977 | the expiry job, the renaming and a whole renewal, row by row |
| AlertWaves.StepStaysQuiet | src/notification/notification-queue.processor.ts:106-116 | a closed alert with no wave past its checks stays so, and the step adds nothing for it |
| AlertWaves.ClosedAlertsGetNoMoreWaves | src/location/location.service.ts:90-93 | whatever else runs, waves add no row and no job for it, for ever |
| AlertWaves.OnlyLocatedWavesEscape | src/location/location.service.ts:90-93 | a closed alert can still get a wave row or job if and only if a wave for it is past its second check |
| Language.UsableExactly | src/i18n/language.service.ts:154-166 | the usable entries are those with a code and a positive quality |
| Language.SortSorts | src/i18n/language.service.ts:167-167 | the sort keeps the entries and orders them by quality, then position |
| Language.ParsedExactly | src/i18n/language.service.ts:149-178 | the parsed list has no duplicates, holds exactly the usable codes, and orders them by their best entry |
| Language.RepeatsDoNotMatter | src/i18n/language.service.ts:169-177 | dropping repeats never changes the choice |
| Language.ScanFindsWinner | src/i18n/language.service.ts:111-116 | the scan finds the active code with the greatest positive quality, earliest on ties, whenever there is one |
| Language.ParseAcceptLanguage | src/i18n/language.service.ts:149-178 | the loop computes the parsed list |
| Language.Resolve | src/i18n/language.service.ts:95-120 | the parameter, or the first of its values, if it spells an active code; else the code of the one winning entry; else the first language marked as default, else the first, else Greek; active unless no language is |
| Language.ParamAsks | src/i18n/language.service.ts:103-109 | the parameter's code is that of its text, or of the first text of a list |
| Language.DefaultCode | src/i18n/language.service.ts:98-101 | the first language marked as default, else the first, else Greek |
| LanguageHeader.NormalizeCodeExactly | src/i18n/language.service.ts:137-143 | a value is accepted if and only if it spells two to eight Latin letters, in either case, up to white space or a hyphen or underscore, and gives them in lower case |
| LanguageHeader.QualityExactly | src/i18n/language.service.ts:157-159 | the quality is read from the first trimmed parameter that starts with `q=`, and there is none if and only if no parameter does |
| LanguageHeader.UpperCaseWeightDecides | src/i18n/language.service.ts:157-159 | a language weighted with `Q=` is chosen over a later one of quality at most 1, whatever its weight says |
| LanguageHeader.UpperCaseExample | src/i18n/language.service.ts:157-159 | English from `en;Q=0.1,el;q=0.9` |
| LanguageHeader.QualityAboveOneDecides | src/i18n/language.service.ts:157-167 | a later language beats one of full quality if and only if its quality is above 1 |
| LanguageHeader.AboveOneExample | src/i18n/language.service.ts:157-167 | Greek from `en,el;q=2` |
| LanguageHeader.HeaderRoundTrip | src/i18n/language.service.ts:149-167 | a header written from well-formed items is read back as exactly their codes and weights; a weight that is no number counts as zero |
| ZoneCache.StepKeepsInv | src/user/alert-zone-cache.service.ts:54-80 | every interleaved call keeps: what is cached, in flight or returned was the table's answer when queried |
| ZoneCache.EveryReadWasCurrent | src/user/alert-zone-cache.service.ts:54-80 | every list returned was current at an instant no older than five minutes plus its own query-to-set delay |
| ZoneCache.LostOnlyByTwoFailures | src/user/alert-zone-cache.service.ts:54-80 | a read ends without an answer only when the query after a failure fails as well |
| ZoneCache.CacheDownStillAnswers | src/user/alert-zone-cache.service.ts:54-80 | with the get or the set failing, the read answers with the table as it is then |
| ZoneCache.StoredIsServed | src/user/alert-zone-cache.service.ts:54-80 | a set that took effect is served to the next read, acknowledged or not |
| ZoneCache.ExpiryBoundsStaleness | src/config/cache.config.ts:71-76 | so every later read sees a write even if its invalidation failed |
| ZoneCache.CleanReadsSeeTheWrite | src/user/alert-zone-cache.service.ts:115-125 | with no older live entry and no older query in flight, every read sees the write, for ever |
| ZoneCache.InvalidatedWriteIsSeen | src/user/alert-zone.service.ts:87-136 | a write, anything, and its successful invalidation: if no older query is then in flight, every later answer sees the write |
| ZoneCache.StaleReadExactly | src/user/alert-zone-cache.service.ts:54-80 | a read that starts later can miss a write if and only if an older live entry or an older query in flight is left |
| ZoneCache.StaleReadHappens | src/user/alert-zone-cache.service.ts:54-80 | such a run from the start: get, query, write, invalidate, set, get |
| ZoneServices.ActiveZonesExactly | src/user/alert-zone-cache.service.ts:86-103 | the query answers exactly the active rows by falling priority |
| ZoneServices.AlertZones.GetActiveAlertZones | src/user/alert-zone-cache.service.ts:54-80 | a cached list stored at most 300,000 milliseconds ago as it is; else every active row as often as it stands, by falling priority, which is then cached when the cache is up |
| ZoneServices.AlertZones.InvalidateCache | src/user/alert-zone-cache.service.ts:115-125 | empties the cache, or changes nothing when it is down |
| ZoneServices.AlertZones.Create | src/user/alert-zone.service.ts:52-137 | unknown user, ten rows of theirs, radius outside 50 to 5000, in order; otherwise one more row, with priority 1 and active by default, and an invalidation; the table's bounds are kept |
| ZoneServices.AlertZones.Update | src/user/alert-zone.service.ts:260-366 | not found if no row has the id, forbidden if the row is another user's, a radius outside 50 to 5000; otherwise each given field of that row takes the given value, every other field and row stays, and the cache is invalidated |
| ZoneServices.AlertZones.Delete | src/user/alert-zone.service.ts:379-430 | not found and forbidden likewise; otherwise exactly that row is gone, the others keep their order, and the cache is invalidated |
| ZoneServices.QueryListsActive | src/user/alert-zone-cache.service.ts:86-103 | the query lists every active row as often as the table holds it, by falling priority |
| ZoneServices.LookupExactly | src/user/alert-zone.service.ts:266-280 | the lookup finds the one row with the id, the owner's or another user's, or none |
| ZoneServices.UpdateExactly | src/user/alert-zone.service.ts:301-327 | an update changes that row, in the given fields only |
| ZoneServices.CountIsRows | src/user/alert-zone.service.ts:63-72 | the count compared with ten is the number of rows of the user |

## Left out

- FCM, APNs, Web Push and mail transport: a send is an arbitrary success or failure; the push worker appears only as arbitrary status changes of its rows.
- SQL, PostGIS and indexes: strategies take the rows their queries return, with one id type, except in `MatchingIds` and `WaveIds`.
- The wording of titles, payloads, logs, audit events and stored snapshots.
- `plainTextErrors` and the other field checks of `create` (invitations): one boolean, since each is a single condition.
- Interleavings inside invitation `create`, `revoke` and `resend`, and inside the rate limiter's check and record: each is one step. Redis failures, which refuse the creation with an error, are outside the model.
- Two wave jobs that handle one user at the same instant appear in `WaveRaces` only, and there without the exclusions a refused turn writes.
- `queueAlertNotifications` and its delays: runs take the three waves in any order, any number of times.
- The clock is constant within one user's turn and within one email.
- The log rows that success-story emails leave, and whether such an email was accepted: an attempt counts as written.
- ProcessSuccessStory: the order in which helpers are mailed is left open, as the set's order depends on the query.
- OneMatchPerUser: for ids of one kind; `MatchingIds` gives the condition for two.
- WavesReachOnlyMatched: for ids of one kind; `MatchingIds` gives the condition for two.
- EveryDeviceOnce: for ids of one kind; `WaveIds.TurnRowExactly` says what a turn records with two.
- Account deletion and the cascades of deleting a pet.
- `handleDeliveryReceipt`, `recordRelevance`, `resetUserLimits` and `getUserStats`: unconditional writes or plain reads.
- AcceptByEmail: addresses are taken as they are stored; trimming and lower-casing the argument are not part of the model.
- Daylight saving: `setDate(getDate() + 7)` is seven times 24 hours here.
- `toLowerCase` beyond what can yield a Latin letter, and `parseFloat`, which is an arbitrary function to finite numbers.
- The languages cache: `Resolve` takes the active languages as given.
- MarkAsFound: the checks on the pet and its `isMissing` flag are not part of the model.
- Coordinates of alert zones, which only pass through.
- Auth, adoption listings, saved zones, devices, photos, reunion snapshots, controllers and wiring.
