# Kostify: booking, sessions, chat and limits

Kostify lets tenants book rooms in verified boarding houses (kosts). This project models the parts of it in which several
functions have to agree, and proves what they keep together.

- **Rooms, bookings, contracts.** `lifecycle.dfy` gives every service call as a reading and a later commit on the four
  tables, and `effects.dfy` says who may make it, when it is refused and exactly what it changes. `one_holder.dfy`
  proves that no run of calls lets a room twice. `availability.dfy` says what a room's status means and when a room can
  become available again, `outcomes.dfy` when calls succeed and what they undo.
  `frames.dfy` and `interleaving.dfy` treat requests that overlap, since only the booking transaction locks its row.
  `booking_lock.dfy` takes that transaction apart statement by statement. `expiry.dfy` is about the sweep and how long a
  booking can hold a room, `owner_stats.dfy` about the owner's numbers, `calendar.dfy` about contract ends and survey
  dates, `pagination.dfy` about listings; `sets.dfy` holds counting lemmas. `booking_service.dfy` has the handlers in
  their own form, loading rows, setting fields and saving them, each proved to be its call of the lifecycle.
- **Refresh tokens.** `sessions.dfy` models rotation with reuse detection (the rule described in section 4.14.2 of
  RFC 9700), each request as one step; `rotation.dfy` takes the requests apart into their calls on the tables and lets
  them interleave. `auth_service.dfy` has the service and cookie handler. `client.dfy` and `interceptor.dfy` model the
  browser's response interceptor. `composition.dfy` puts browsers and server together, call by call.
- **Rate limiter and chat.** `rate_limit.dfy`, `chat.dfy`, `chat_service.dfy`.

Tables are maps, ids are numbers, instants are integers. A transaction commits as one step. Tokens and ids are parameters
of the call that draws them; one that is taken already is refused by its unique index. Hashing is injective. Calls that
can fail for outside reasons have a parameter that says whether they do.

## Where the code and its descriptions part

- Rejecting demands a pending booking although its message says "pending or processing" (`service.go:195-197` in the
  bookings module). `Outcomes.BookingMoves` has all the moves there are.
- The comment in `UpdateRoom` leaves reserved and occupied to the booking flow, but the guards let an owner set an
  available room to either, and `CreateRoom` takes any status. Such a room can never be booked, freed or deleted:
  `Availability.OrphanForever`, and `CanReturn` for the exact condition.
- No commit checks whether its row was still as it was read. `Interleaving.OverlapLetsTwice` is a run in which a room
  ends up with two live bookings, `CommitKeepsIff` the exact condition under which a commit does no harm,
  `SingleIffSafe` that for a whole run, and `LocalIsSerial` the reason why requests for different rooms need no care.
- Overlapping refreshes of one token both succeed: `Sessions.OverlappingRefreshesFork`, `RotateKeepsIff`, and
  `Rotation.SingleIffInsertsAlone` for whole runs.
- Reuse of an old refresh token is documented to revoke all sessions of its user. It revokes those there are at that
  moment; a refresh of theirs that is past its reading can still insert one. `Rotation.SuccessorSurvivesTheft` is such a
  run, `RevocationHoldsIff` and `RevocationFinalIff` the exact conditions.
- The time of a decision is not the time at which the expiry was checked: `Expiry.StampedAfterExpiry`.
- The survey window is documented as today to today plus five, and in a code comment as tomorrow to plus five. Dates are
  truncated in UTC, so that at UTC+7 it is so only before 07:00 local time: `Calendar.DocumentedWindow`.
- The limiter is described as a fixed window, but every hit renews the expiry: `RateLimit.StricterThanFixedWindow`,
  `SteadyClientStarves`.

## Model

| member | source | states |
|---|---|---|
| OneHolder.NeverLetTwice | backend/internal/modules/bookings/service.go:29-271 | in every state that any calls reach, a room's live bookings and active contracts total at most one, and a room with a holder is reserved or occupied |
| OneHolder.StepKeeps | backend/internal/modules/kosts/service.go:192-325 | every single call, owner room creation, edits and deletions included, keeps the foreign keys, one contract per booking, and one holder per room |
| OneHolder.BookKeeps | backend/internal/modules/bookings/repository.go:53-95 | booking a room that is available gives it its only holder |
| OneHolder.ApprovalKeeps | backend/internal/modules/bookings/repository.go:158-188 | approval hands the room from the booking to the contract without a moment of two holders |
| OneHolder.EndingKeeps | backend/internal/modules/bookings/service.go:256-266 | the unconditional freeing of a room at the end of a contract leaves no holder behind |
| OneHolder.ExpireKeeps | backend/internal/modules/bookings/worker.go:11-22 | the sweep frees only rooms whose one holder it expires |
| Availability.StatusTellsHolder | backend/internal/modules/bookings/service.go:92-271 | if owners never write reserved or occupied, a room is reserved exactly while it has one live booking and occupied exactly while it has one active contract |
| Availability.CanReturn | backend/internal/modules/kosts/service.go:273-288 | some run of calls makes a room available again if and only if it is not marked reserved or occupied without a holder |
| Availability.DisciplinedReturn | backend/internal/modules/kosts/service.go:277-288 | if owners leave the two statuses alone, every room can always be returned to available, with calls that leave them alone too |
| Availability.OrphanForever | backend/internal/modules/kosts/service.go:285-287 | a room marked reserved or occupied without a holder stays that way through every run: it is never booked, freed or deleted |
| Availability.OwnersCanOrphan | backend/internal/modules/kosts/service.go:203-206 | a room created as occupied is such a room |
| Effects.SweepEffect | backend/internal/modules/bookings/worker.go:11-22 | the sweep expires exactly the pending and processing bookings whose expiry has come and changes nothing else in them, frees exactly the reserved rooms that one of them names, and returns their number |
| Effects.BookEffect | backend/internal/modules/bookings/service.go:29-64 | a booking outside the window is invalid, one of a missing room or unverified kost not found, any other obstacle a conflict; otherwise exactly one pending row is added, with the day of the survey and the expiry, and the room reserved |
| Effects.CancelEffect | backend/internal/modules/bookings/service.go:92-120 | a cancellation is done if and only if the booking is this tenant's and pending; another's is not found; the row is cancelled and its room available if it was reserved |
| Effects.MarkEffect | backend/internal/modules/bookings/service.go:123-150 | a marking is done if and only if the caller owns the booking's kost and it is pending; nothing but its status changes |
| Effects.ApproveEffect | backend/internal/modules/bookings/service.go:152-182 | an approval is done if and only if the caller owns the booking's kost, it is under way and unexpired, the duration is a month or more, and neither the contract id nor the booking has a contract; the contract is of that booking, room and tenant and lasts that many calendar months from the start |
| Effects.RejectEffect | backend/internal/modules/bookings/service.go:184-216 | a rejection is done if and only if the caller owns the booking's kost and it is pending; the reason and the decision are stored, and the room is available if it was reserved |
| Effects.EndEffect | backend/internal/modules/bookings/service.go:226-272 | a contract is ended if and only if it is active and the caller owns the kost; the room becomes available whatever it was |
| Effects.CreateRoomEffect | backend/internal/modules/kosts/service.go:192-231 | only the kost's owner adds a room, with the given status or available |
| Effects.UpdateRoomEffect | backend/internal/modules/kosts/service.go:233-297 | only the kost's owner edits a room: an available one to anything, one in maintenance to available, and a reserved or occupied one to either of the two |
| Effects.DeleteRoomEffect | backend/internal/modules/kosts/service.go:299-325 | only the kost's owner deletes a room, only an available one without an active contract, and exactly its bookings and contracts go with it |
| Outcomes.BookingSucceedsIff | backend/internal/modules/bookings/repository.go:53-95 | in reachable states a booking succeeds exactly when the date is accepted, the room available, the kost verified and the new id unused: the partial unique index never fires |
| Outcomes.ApprovalSucceedsIff | backend/internal/modules/bookings/service.go:152-182 | in reachable states an approval succeeds exactly for the owner, a live booking that has not expired, at least one month and an unused contract id: the unique index on a contract's booking never fires |
| Outcomes.CancelUndoesBooking | backend/internal/modules/bookings/service.go:92-120 | cancelling a new booking restores all tables but for the cancelled row |
| Outcomes.EndUndoesApproval | backend/internal/modules/bookings/service.go:226-272 | ending the contract of an approval takes the room back to available and keeps everything else the approval wrote |
| Outcomes.BookingMoves | backend/internal/modules/bookings/service.go:195-197 | the only moves a booking makes, each with the call that makes it; in processing it can be neither cancelled nor rejected |
| Interleaving.CommitKeepsIff | backend/internal/modules/bookings/service.go:107-114 | while the rows its plan names still exist, and however stale the reading behind it is otherwise, a commit keeps one holder per room if and only if, when it runs, no other holder depends on the room it frees or takes |
| Interleaving.SingleIffSafe | backend/internal/modules/bookings/service.go:92-266 | under every interleaving without deletions, all states of a run keep one holder per room if and only if every commit, when it runs, meets no other holder that depends on the room it frees or takes |
| Interleaving.EveryInterleaving | backend/internal/modules/bookings/service.go:92-266 | under every interleaving of unlocked readings and later commits without room deletions, a booking's rank never rises, an ended contract stays ended, a booking has at most one contract ever, and a contract's room and tenant are its booking's |
| Interleaving.StillCurrent | backend/internal/modules/bookings/service.go:124-140 | a reading whose room nothing has committed to since would come out the same now |
| Interleaving.LocalIsSerial | backend/internal/modules/kosts/service.go:234-290 | a run in which no two overlapping requests commit to the same room reaches the tables of its calls made one after another in the order of their commits |
| Interleaving.LocalNeverLetsTwice | backend/internal/modules/bookings/service.go:153-266 | and so it keeps every room to one holder |
| Interleaving.OverlapLetsTwice | backend/internal/modules/bookings/service.go:103-114 | a cancellation that overlaps a marking frees the room of a booking in processing, and a second tenant books it |
| Frames.ApplyFrame | backend/internal/modules/bookings/service.go:92-271 | a call leaves the row, bookings and contracts of every room it does not commit to alone |
| BookingLock.OneBooking | backend/internal/modules/bookings/repository.go:24-95 | any number of transactions on one bookable room, interleaved statement by statement around its lock, end with one booking, exactly as if the winner had run alone, and a conflict for all the others |
| BookingLock.UndisturbedIsAlone | backend/internal/modules/bookings/repository.go:53-95 | a transaction that nothing interleaves with finishes within five turns and does what the booking transaction does as a whole, whatever the tables hold |
| BookingLock.NoDeadlock | backend/internal/modules/bookings/repository.go:24-30 | every move uses up one of five steps per transaction, and while one is unfinished some transaction can move |
| BookingLock.AvailableIsBookable | backend/migrations/000001_init.up.sql:86-89 | an available room of a verified kost has no pending booking that the index would count |
| Expiry.SweepIsOneAtATime | backend/internal/modules/bookings/worker.go:11-22 | the statement equals expiring the overdue bookings one at a time in any order, and returns the number of rooms that this moves from reserved to available |
| Expiry.SweepsCompose | backend/internal/modules/bookings/worker.go:26-32 | a sweep and then a later one are the later one alone, and their counts add up |
| Expiry.SweepIsIdempotent | backend/internal/modules/bookings/worker.go:24-32 | a second sweep at the same instant changes nothing and returns zero |
| Expiry.BoundedHold | backend/internal/modules/bookings/repository.go:71-78 | after a sweep every live booking expires later than it; while sweeps are at most d apart none is live for the expiry time plus d or longer |
| Expiry.ApprovedBeforeExpiry | backend/internal/modules/bookings/service.go:163-168 | every contract was approved by a call whose check read a clock no later than the booking's expiry; the decision, stamped by a second reading, is later than the expiry by at most the longest time between check and stamp |
| Expiry.StampedAfterExpiry | backend/internal/modules/bookings/repository.go:172-179 | the bound is met: a check at the very expiry passes, and its decision is stamped one instant later |
| OwnerStats.StatsEffect | backend/internal/modules/bookings/repository.go:231-266 | each number counts what the database holds on the owner's kosts, and the rate is the share of occupied rooms in per cent |
| OwnerStats.Conservation | backend/internal/modules/bookings/repository.go:231-266 | pending and processing bookings plus active contracts are at most reserved plus occupied rooms, which with the available ones are at most all rooms; the rate lies in 0 to 100 |
| OwnerStats.ExactConservation | backend/internal/modules/bookings/repository.go:231-266 | if owners leave reserved and occupied alone, reserved rooms equal live bookings and occupied rooms equal active contracts in number |
| BookingService.Database.CreateBookingTx | backend/internal/modules/bookings/repository.go:53-95 | the transaction refuses a missing room or unverified kost as not found and any other obstacle as a conflict, and otherwise books and reserves |
| BookingService.Database.CreateContractTx | backend/internal/modules/bookings/repository.go:158-188 | the transaction inserts the contract, saves the booking that was read as approved and occupies the room, or changes nothing |
| BookingService.Database.GetBookingWithKostOwner | backend/internal/modules/bookings/repository.go:105-115 | the booking with its kost's owner, or nothing if either is missing |
| BookingService.Database.ExpirePendingBookings | backend/internal/modules/bookings/worker.go:26-32 | exactly what is due is expired and freed, and the tables and returned count are those of expiring the overdue bookings one at a time, in every order |
| BookingService.Bookings.Create | backend/internal/modules/bookings/service.go:29-64 | the tables and answer of the booking call of the lifecycle, who may make it, when, and to what effect; keeps one holder per room |
| BookingService.Bookings.Cancel | backend/internal/modules/bookings/service.go:92-120 | the tables and answer of the lifecycle's cancellation, who may make it, when, and to what effect; keeps one holder per room |
| BookingService.Bookings.MarkProcessing | backend/internal/modules/bookings/service.go:123-150 | the tables and answer of the lifecycle's marking, who may make it, when, and to what effect; keeps one holder per room |
| BookingService.Bookings.Approve | backend/internal/modules/bookings/service.go:152-182 | the tables and answer of the lifecycle's approval, who may make it, when, and to what effect; keeps one holder per room |
| BookingService.Bookings.Reject | backend/internal/modules/bookings/service.go:184-216 | the tables and answer of the lifecycle's rejection, who may make it, when, and to what effect; keeps one holder per room |
| BookingService.Bookings.EndContract | backend/internal/modules/bookings/service.go:226-272 | the tables and answer of the lifecycle's ending, whose status check precedes the ownership check; keeps one holder per room |
| BookingService.Bookings.Stats | backend/internal/modules/bookings/repository.go:231-266 | the numbers, and that they fit together in a consistent database |
| BookingService.Kosts.CreateRoom | backend/internal/modules/kosts/service.go:192-231 | the tables and answer of the lifecycle's room creation, with any initial status; keeps one holder per room |
| BookingService.Kosts.UpdateRoom | backend/internal/modules/kosts/service.go:233-297 | the owner's three status guards amount to the lifecycle's table of allowed edits; keeps one holder per room |
| BookingService.Kosts.DeleteRoom | backend/internal/modules/kosts/service.go:299-325 | only an available room without active contracts goes, and its bookings and contracts with it; keeps one holder per room |
| BookingService.WorkerLeaves | backend/internal/modules/bookings/worker.go:34-56 | a tick sweeps if it does not fail and no stop comes before it, and what the worker leaves is a single sweep at the latest clock that such a tick has read, or nothing done |
| BookingService.StartExpiryWorker | backend/internal/modules/bookings/worker.go:34-56 | one sweep for each tick that does not fail, up to the stop; a failed tick does not end the loop |
| Sessions.LoginEffect | backend/internal/modules/auth/service.go:115-156 | a login issues a token if and only if the user exists, is active and verified, the password matches and no call fails; each refusal has its answer and leaves the tables alone |
| Sessions.RefreshEffect | backend/internal/modules/auth/service.go:158-211 | a refresh issues a token if and only if the session is neither revoked nor expired, its user exists and is active, and no call fails; each refusal has its answer, and revokes all sessions of the user, this one, or none |
| Sessions.LogoutEffect | backend/internal/modules/auth/service.go:213-226 | a logout revokes the session presented and no other |
| Rotation.IssuedOnlyIfVetted | backend/internal/modules/auth/service.go:158-211 | however the calls interleave, a session is inserted only after the presented one was read to be neither revoked nor expired and, after that, its user was found active |
| Rotation.OneLivePerLineage | backend/internal/modules/auth/service.go:158-211 | while requests with the same token come one after another, every login lineage has at most one session that is not revoked, however the calls of other refreshes, logins and logouts interleave, and whatever calls fail |
| Rotation.SingleIffInsertsAlone | backend/internal/modules/auth/service.go:186-210 | with any overlap at all, lineages stay single in all states of a run if and only if no refresh inserts a session while another of its lineage is live |
| Rotation.RedeemedOnce | backend/internal/modules/auth/service.go:186-210 | if requests with the same token have come one after another until a token is redeemed, it is never redeemed again, whatever overlaps |
| Rotation.TheftDetected | backend/internal/modules/auth/service.go:167-172 | a redeemed token that comes back is told from a good one at its reading, gets nothing, and has every session revoked that its user has at the moment of the next call; other users' sessions stay as they are; only a failing call prevents it |
| Rotation.RevocationHoldsIff | backend/internal/modules/auth/service.go:167-210 | after that, and until the user logs in, they stay without a live session in all states of a run if and only if no refresh of theirs that was past its reading inserts its session |
| Rotation.OnlyTheirLineages | backend/internal/modules/auth/service.go:167-210 | what comes to life again belongs to the lineages of such refreshes |
| Rotation.RevocationFinalIff | backend/internal/modules/auth/service.go:167-210 | some login-free continuation gives the user a live session if and only if a refresh of theirs is past its reading at that moment |
| Rotation.SuccessorSurvivesTheft | backend/internal/modules/auth/service.go:167-210 | a run in which the successor's refresh overlaps the replay and leaves a live session behind |
| Rotation.StepsMakeRefresh | backend/internal/modules/auth/service.go:158-211 | the calls of a refresh made back to back, each failing or not, are the refresh as one step |
| Sessions.RotateKeepsIff | backend/internal/modules/auth/service.go:186-210 | the writes of a refresh keep lineages single if and only if no other session of the lineage is live when they run |
| Sessions.OverlappingRefreshesFork | backend/internal/modules/auth/repository.go:50-55 | two refreshes that both read a token before either writes both succeed and fork the lineage |
| AuthService.Service.Login | backend/internal/modules/auth/service.go:115-156 | a token is issued if and only if the lookup works, the user exists, is active and verified, the password matches, no call fails and the token is unused; each refusal has its answer and changes nothing |
| AuthService.Service.Refresh | backend/internal/modules/auth/service.go:158-211 | who gets a token, each refusal's answer and what it revokes, for every choice of failing calls; lineages stay single |
| AuthService.Service.Logout | backend/internal/modules/auth/service.go:213-226 | revokes the cookie's session, and does nothing for a cookie that is missing, unknown or revoked |
| AuthService.Repository.RevokeSession | backend/internal/modules/auth/repository.go:50-55 | revokes one session and no other |
| AuthService.Repository.RevokeAllForUser | backend/internal/modules/auth/repository.go:57-61 | revokes exactly the user's sessions |
| AuthService.Repository.CreateSession | backend/internal/modules/auth/repository.go:38-40 | inserts a session unless its hash is taken |
| AuthService.Handler.Refresh | backend/internal/modules/auth/handler.go:101-115 | no cookie changes none, a refusal clears them whatever its reason, and the new token is stored exactly when the refresh is granted |
| AuthService.Handler.Login | backend/internal/modules/auth/handler.go:81-99 | the token is stored exactly for an active, verified user with the right password if no call fails; otherwise the jar stays as it is |
| AuthService.Handler.Logout | backend/internal/modules/auth/handler.go:117-122 | clears the jar whether or not the revocation succeeded |
| Client.SingleFlight | frontend/src/services/api/client.ts:29-78 | in every reachable state at most one refresh is in flight, requests wait only while one is, and each promise ever queued has been answered exactly once, in order, or is in the queue exactly once |
| Client.BoundedEffort | frontend/src/services/api/client.ts:46-79 | for n requests there are at most n refreshes, and each request is sent at most n + 1 times |
| Client.RefreshReplyEffect | frontend/src/services/api/client.ts:65-78 | when a refresh succeeds, exactly the request that started it and those that wait are sent once more; when it is refused, exactly these fail |
| Client.ReplyEffect | frontend/src/services/api/client.ts:40-64 | a 401 makes a request wait for the refresh under way, or start one, unless it has started one before or goes to an auth endpoint; any other answer settles it at once |
| Client.SettledIff | frontend/src/services/api/client.ts:38-79 | over every run, a request has succeeded if and only if it was answered well, and failed if and only if a refresh it waited for or had started was refused or it was answered badly otherwise than by a 401 that a refresh could meet |
| Client.ExemptAreSentOnce | frontend/src/services/api/client.ts:48-57 | a request to the exempt endpoints never waits, never starts a refresh, and is sent once |
| Client.AnswersDescend | frontend/src/services/api/client.ts:46-79 | every answer lowers the pair of requests that may still start a refresh (plus the running one) and requests in flight |
| Client.SomethingPending | frontend/src/services/api/client.ts:58-78 | while a request is unsettled a request or a refresh is in flight: no waiter is stranded |
| Client.EveryRequestSettles | frontend/src/services/api/client.ts:46-79 | whatever the server answers, answers run out after finitely many and then every request has settled |
| Interceptor.Api.OnResponse | frontend/src/services/api/client.ts:40-64 | the callback up to the refresh does the protocol's step and keeps its invariant |
| Interceptor.Api.ProcessQueue | frontend/src/services/api/client.ts:35-38 | every waiter is sent again if the refresh succeeded and fails if not, once and in queue order; nothing else changes, and the queue is emptied |
| Interceptor.Api.OnRefreshed | frontend/src/services/api/client.ts:65-78 | the callback after the refresh sends the waiters and the request that started it again if it succeeded, fails them if not, and clears the flag |
| Composition.ReuseNeverDetected | backend/internal/modules/auth/service.go:167-172 | for any number of honest browsers, whose refreshes interleave call by call, the server never takes the reuse-detection branch, and a token on its way to it is live |
| Composition.RefreshBrings | frontend/src/services/api/client.ts:58-78 | a refresh starts with the cookie in the jar; when it is delivered, the requests it held up are in flight again and the jar holds a live token if it succeeded, and they have failed if not |
| Composition.ServedAlone | backend/internal/modules/auth/handler.go:101-115 | the server's calls for a refresh, made one after another, amount to the handler as one step |
| Composition.IdleJarIsLive | backend/internal/modules/auth/handler.go:101-122 | a cookie in a browser with no refresh in flight is a token the server still honours |
| Composition.OvertakingLogoutIsTheft | backend/internal/modules/auth/service.go:213-226 | a logout that overtakes the refresh of the same token makes the server take that refresh for theft |
| Composition.SecondFlightRevokes | frontend/src/services/api/client.ts:58-64 | without single flight a token sent twice costs the user every session, the one just issued included |
| RateLimit.CounterIsBurst | backend/internal/http/middleware/ratelimit.go:23-31 | a key's counter is the number of hits in its current burst, the hits that follow each other at less than a window |
| RateLimit.AcceptedPerWindow | backend/internal/http/middleware/ratelimit.go:31-34 | any stretch of time no longer than the window contains at most `limit` accepted requests of a key |
| RateLimit.StricterThanFixedWindow | backend/internal/http/middleware/ratelimit.go:13-14 | the limiter accepts only what a fixed window would, and counts the same if and only if the burst has lasted for less than a window |
| RateLimit.SteadyClientStarves | backend/internal/http/middleware/ratelimit.go:23-25 | a client that never pauses for a window gets `limit` requests through, and never another |
| RateLimit.Limiter.Allow | backend/internal/http/middleware/ratelimit.go:16-36 | with no client configured everything passes, with Redis out of reach nothing does, and otherwise the counter decides |
| Calendar.ContractLength | backend/internal/modules/bookings/service.go:169-170 | a k-month contract lasts the sum of the lengths of k consecutive months beginning with the start month, whatever the start day |
| Calendar.MonthLengths | backend/internal/modules/bookings/service.go:169-170 | the lengths of the months, February's apart from leap years |
| Calendar.CalendarRepeats | backend/internal/modules/bookings/service.go:169-170 | 400 years have 97 leap days, and the calendar repeats after them |
| Calendar.OneMonthContract | backend/internal/modules/bookings/service.go:169-170 | 28 to 31 days for one month |
| Calendar.OneYearContract | backend/internal/modules/bookings/service.go:169-170 | 366 days for twelve months exactly when they run over a 29 February, else 365 |
| Calendar.LongerEndsLater | backend/internal/modules/bookings/service.go:170 | more months end strictly later |
| Calendar.CheckConstraint | backend/migrations/000001_init.up.sql:108 | the database's check on contract dates passes exactly for durations of at least one month |
| Calendar.EndDayOfMonth | backend/internal/modules/bookings/service.go:170 | the end date has the start's day of the month, or falls on day 1 to 3 of the month after a last month that is too short |
| Calendar.DatesAreUnique | backend/internal/modules/bookings/service.go:169-170 | a day number names one date |
| Calendar.SurveyWindow | backend/internal/modules/bookings/service.go:34-39 | at any fixed offset exactly six consecutive dates are accepted, 0 to 6 local days ahead; east of UTC the recorded day is the one before |
| Calendar.DocumentedWindow | README.md:95 | the documented window, today to today plus five, is the real one exactly at offset zero or while the local time of day is below the offset |
| Chat.OneConversation | backend/internal/modules/chat/chat.go:24-43 | two users share at most one conversation, whatever the order in which they are named, and starting it again finds it |
| Chat.BadgeIsSumOfList | backend/internal/modules/chat/chat.go:109-117 | the total of unread messages is the sum of the unread counts in the list of conversations |
| Chat.SendRaisesOther | backend/internal/modules/chat/chat.go:93-100 | a message raises by one the total of the other participant and nobody else's |
| Chat.OpenClearsShare | backend/internal/modules/chat/chat.go:135-145 | opening a conversation clears exactly its share of the reader's total and changes nobody else's |
| Chat.StartKeepsTotals | backend/internal/modules/chat/chat.go:123-129 | starting a conversation changes nobody's total |
| Chat.ShownIsEndOfThread | backend/internal/modules/chat/chat.go:81-91 | the newest rows, reversed, are the last min(n, limit) messages of the thread |
| Chat.ShownAreTheNewest | backend/internal/modules/chat/chat.go:81-91 | what is shown ascends in time, belongs to the conversation, and leaves out only older messages |
| ChatService.ReverseInPlace | backend/internal/modules/chat/chat.go:86-89 | the two-index loop reverses the slice |
| ChatService.Repository.GetOrCreate | backend/internal/modules/chat/chat.go:24-43 | finds the conversation of the ordered pair or appends it |
| ChatService.Repository.MarkRead | backend/internal/modules/chat/chat.go:102-107 | marks the incoming messages of one conversation and no others |
| ChatService.Repository.Messages | backend/internal/modules/chat/chat.go:81-91 | returns the end of the thread in ascending order |
| ChatService.Repository.Total | backend/internal/modules/chat/chat.go:109-117 | returns the total, which is the sum of the list's counts |
| ChatService.Service.Messages | backend/internal/modules/chat/chat.go:135-145 | a participant's incoming messages of this conversation are marked, and no others, before they are fetched; anybody else gets nothing and changes nothing |
| ChatService.Service.Send | backend/internal/modules/chat/chat.go:147-164 | a message is stored if and only if the sender takes part and the body has 1 to 2000 characters; membership is checked first |
| ChatService.Service.Start | backend/internal/modules/chat/chat.go:123-129 | only an existing user can be talked to, in a conversation of just these two, which is new only if there was none |
| Pagination.PagesTile | backend/internal/modules/bookings/handler.go:201-219 | the pages up to the reported number show every row once, and no fewer pages do |

## Left out

- Interleaving.EveryInterleaving: does not cover overlapping room deletions, because saving a stale record inserts its row again; LocalIsSerial and the single-step results do cover deletion.
- Interleaving.CommitKeepsIff: leaves out commits whose booking, contract or room row was deleted after the reading, for the same reason.
- Rotation.OneLivePerLineage: takes requests that present the same token one after another; SingleIffInsertsAlone covers all overlaps.
- Rotation.TheftDetected: does not promise that the user stays without a live session, because that is false while a refresh of theirs is under way.
- BookingService.Kosts.CreateRoom: does not model the conflict on a room number that the kost has already, because rooms have no numbers here.
- BookingService.Kosts.UpdateRoom: does not model the conflict on a room number either.
- Expiry.BoundedHold: takes the clock readings of a new booking for its survey check, expiry and creation to be one; the code makes them in this order, so that a booking's age from its creation is smaller, if anything.
- Composition.ReuseNeverDetected: assumes one tab for each cookie jar, that the answer to a refresh is delivered, and that a logout does not overlap a refresh of its browser; OvertakingLogoutIsTheft shows why.
- BookingLock.OneBooking: other writers of the room's row stay away while the transactions run.
- RateLimit.CounterIsBurst: a counter counts as gone at the instant of its expiry; the resolution of Redis's clock is not modelled.
- Chat.ShownAreTheNewest: assumes distinct creation times, without which the order of the query is open.
- ChatService.Service.Send: takes the body with the surrounding space cut off already, and one character for each byte.
- Prices, areas, photos and other text fields.
- Deletion of kosts and users and what it cascades to.
- The verification of kosts: their standing may change at any time.
- Notifications and automatic survey events, which never change the modelled tables.
- Password hashing, signing and checking of access tokens, CSRF, registration and email verification.
- The order of the conversation list and of listed bookings, and overflow of page numbers near the largest integer.
- Handlers' parsing of bodies and parameters, response envelopes, routing, and all pages of the frontend.
- Sessions are known by their token, not by an id of their own; revocation times are not kept, only the fact.
