# Parking/OS: a verified model of its protocols

This project models the parts of a parking system whose correctness does not show from reading one
function, and proves what they promise. Verify it with `dafny verify dfyconfig.toml`.

| files | what they model |
|---|---|
| `Int32`, `Text`, `Options` | the integer operators and string operations of JavaScript that the rest relies on |
| `Base32`, `Totp` | the hand-written base32 codec, HOTP (RFC 4226) and the TOTP window (RFC 6238), over any HMAC |
| `BackupCodes`, `Mfa` | backup codes as they are issued and typed, and the life of a second factor |
| `CircuitBreaker` | the breaker shared by three services, its calls interleaving at their `await` |
| `Pricing`, `Payments`, `PaymentRuns` | the hourly tariff, one pay call, and the calls, quotes and exits of a session across two services |
| `Parking`, `ParkingTables`, `ParkingPolicy`, `ReservationCreation` | slots, reservations and sessions: rows, tables and the operations on them |
| `Lifecycle`, `SlotConservation`, `Visits` | the same operations as steps of any number of workers, and the laws from creation to exit on the rows |
| `MessageBroker`, `ReservationQueue`, `QueueAnswers`, `Redelivery`, `ReservationConsumer` | the queue that feeds the workers, its redeliveries, and its consumer |
| `Ranking`, `SlotAssignment`, `SlotHistory` | the two assignment policies and the least-recently-used claim |

Code that updates state step by step is a class or a loop here, proved against functions on values;
the theorems are about those functions and about whole runs of them. Amounts are integer cents, times
are integer milliseconds, identifiers are numbers, distances and occupancy ratios are real numbers.

## What the model takes as given

- HMAC is any function to twenty bytes; a hash of a backup code is compared by the text it was made
  from; the encryption of the stored secret is left out.
- The breaker has a threshold of at least one, a positive reset time and a clock that does not go back.
- A branch has a positive price that stays fixed during a session, and the clock of the backend does
  not go back.
- An SQL claim is one atomic step that takes a matching free row that no other statement has locked, or
  nothing. Entry, exit, cancellation, each sweep and each use case of the second factor are one atomic
  step each. Creating a reservation is three steps of a worker (check, claim, insert); a pay call is a
  quote, a look-up, a charge and a store of one statement or two.
- The database keeps its unique keys and references.

## Where the code and its documentation part

The model follows the code.

- The comment of the breaker says that the probe of a half-open circuit decides. A call left over from
  the closed state can decide first (`StaleCallDecides`). The probe decides alone exactly when no call
  was in flight as it was admitted (`ProbeDecidesExactly`), and through a whole outage if none was when
  the circuit opened (`EpisodesAreTheProbes`).
- A unit test of the parking policy lets a reservation be entered again after its session is over. The
  unique key on `reservationId` refuses that insert; in reachable states it is never attempted
  (`EntryMeetsNoSession`).
- Cancelling is accepted for a confirmed reservation. With its session active the slot is offered while
  the car is parked (`SafeExactly`, `CancelDuringSessionOffersTheSlot`); the page offers the button
  only without an active session, and the hypothesis of `RunKeeps` is that or a refusal.
- A prefetch of one is documented as what keeps two users from the same slot. Slots are exclusive with
  any number of workers (`EveryRunIsSafe`); what serial processing gives is one live reservation per
  user (`SerialRunKeeps`, `RedeliveryIsHarmless`). Scaling the workers, as the documentation invites
  to, or a handling that outlives its connection can lose it (`TwoWorkersTwoReservations`,
  `SurvivingHandlerReservesTwice`); it is kept exactly while every insert finds its user without a live
  reservation (`OneLiveExactly`, and `RedeliveryIsHarmlessExactly` for the queue).
- The amount of a refused first charge is stored like a paid one. With the present payment methods,
  which refuse only what is not positive, it does no harm (`ReleasedSessionHasPaid`); with others the
  refused amount is forgiven (`RefusedFirstChargeIsForgiven`, and exactly when in
  `ReleaseIsCollectedExactly`).
- A session has one payment, by a unique key. Two first calls that overlap charge twice all the same
  (`OverlappingCallsChargeTwice`); the money is accounted for exactly while no store comes late
  (`BalancedExactly`).
- A slot that was reported blocked or marked occupied while free, or claimed by a worker that died, is
  put on offer by no operation (`StrandedForever`); nothing else loses a slot (`StepLosesExactly`,
  `OnOfferExactlyWhenFree`).

## Model

| member | source | states |
|---|---|---|
| `Base32.Encode` | auth-service/src/adapters/out/auth/rfc6238-totp.adapter.ts:83-97 | the loop over the 16-bit accumulator, which keeps stale bits, returns the grouping of the input bit stream into fives |
| `Base32.Decode` | auth-service/src/adapters/out/auth/rfc6238-totp.adapter.ts:99-116 | the decoding loop returns the whole octets of the stream that the cleaned symbols spell |
| `Base32.IndexInAlphabet` | auth-service/src/adapters/out/auth/rfc6238-totp.adapter.ts:108 | the position searched for in the alphabet is the number of the symbol, the inverse of taking the symbol at a position |
| `Base32.PendingAfterPush` | auth-service/src/adapters/out/auth/rfc6238-totp.adapter.ts:88 | shifting new bits in and cutting to 16 bits appends them to the pending bits, whatever stale bits lie above |
| `Base32.PendingAfterTake` | auth-service/src/adapters/out/auth/rfc6238-totp.adapter.ts:91-92 | taking the top of the pending bits through a mask leaves exactly the other pending bits |
| `Base32.EncodedLength` | auth-service/src/adapters/out/auth/rfc6238-totp.adapter.ts:83-97 | section 6 of RFC 4648 without padding: ceil(8n/5) symbols of the alphabet for n bytes |
| `Base32.EncodedBits` | auth-service/src/adapters/out/auth/rfc6238-totp.adapter.ts:83-97 | bit j of symbol i is input bit 5i+j, most significant first, and zero past the end |
| `Base32.EncodedCharacters` | auth-service/src/adapters/out/auth/rfc6238-totp.adapter.ts:25-97 | which character stands for which five bits: 0 to 25 are written A to Z and 26 to 31 are written 2 to 7, as table 3 of RFC 4648 has it |
| `Base32.EncodingOfF` | auth-service/src/adapters/out/auth/rfc6238-totp.adapter.ts:83-97 | the text f is written MY, a test vector of section 10 of RFC 4648 |
| `Base32.DecodeAfterEncode` | auth-service/src/adapters/out/auth/rfc6238-totp.adapter.ts:83-116 | decoding the encoding of any bytes gives those bytes |
| `Base32.DecodeAfterRetyping` | frontend/src/pages/security/SecurityPage.tsx:221-223 | the same after lower-casing, after the grouping in fours of the security page, and after both |
| `Base32.ShownInFours` | frontend/src/pages/security/SecurityPage.tsx:221-223 | a secret is shown with a space after every fourth character that is not the last |
| `Base32.EncodeAfterDecode` | auth-service/src/adapters/out/auth/rfc6238-totp.adapter.ts:83-116 | encoding what was decoded gives the text back exactly for texts that are canonical in the sense of section 3.5 of RFC 4648 |
| `Totp.Offset` | auth-service/src/adapters/out/auth/rfc6238-totp.adapter.ts:74 | masking the last byte gives its remainder by 16, so the four bytes read are in bounds |
| `Totp.Assemble` | auth-service/src/adapters/out/auth/rfc6238-totp.adapter.ts:75-79 | masks, signed 32-bit shifts and ors equal the sum of the weighted bytes without the top bit |
| `Totp.TruncationIsBigEndian` | auth-service/src/adapters/out/auth/rfc6238-totp.adapter.ts:74-79 | section 5.3 of RFC 4226: the 31-bit big-endian number at the offset |
| `Totp.CodeDenotes` | auth-service/src/adapters/out/auth/rfc6238-totp.adapter.ts:80 | six decimal digits, with leading zeros, that denote the number modulo a million |
| `Totp.SameNumberSameDigits` | auth-service/src/adapters/out/auth/rfc6238-totp.adapter.ts:80 | among digit strings of one length the number determines the digits |
| `Totp.SameCodeExactly` | auth-service/src/adapters/out/auth/rfc6238-totp.adapter.ts:80 | two truncated digests share a code exactly when they agree modulo a million |
| `Totp.BigEndianValue` | auth-service/src/adapters/out/auth/rfc6238-totp.adapter.ts:71-72 | the eight bytes authenticated are the counter, most significant first |
| `Totp.HotpIsRfc4226` | auth-service/src/adapters/out/auth/rfc6238-totp.adapter.ts:70-81 | for any HMAC the code of a counter is the one of section 5.3 of RFC 4226 |
| `Totp.Verify` | auth-service/src/adapters/out/auth/rfc6238-totp.adapter.ts:52-67 | secret decoded, code required to be six digits, three steps tried in turn |
| `Totp.VerifyWith` | auth-service/src/adapters/out/auth/rfc6238-totp.adapter.ts:61-66 | the loop over the window returns the first match, the range error of a counter that is no unsigned 64-bit number, or nothing |
| `Totp.VerifiedExactly` | auth-service/src/adapters/out/auth/rfc6238-totp.adapter.ts:52-67 | the verdict is the least step of the window with that code; nothing exactly if there is none; the range error exactly if an impossible counter comes before any match |
| `Totp.VerifiedInRange` | auth-service/src/adapters/out/auth/rfc6238-totp.adapter.ts:52-67 | away from the epoch there is no range error, and a step is found exactly when some step of the window has the code |
| `Totp.CodeOfStep` | auth-service/src/adapters/out/auth/rfc6238-totp.adapter.ts:70-81 | exactly the unsigned 64-bit numbers have a code, the one of section 5.3 of RFC 4226 |
| `Totp.AcceptedNearTheClock` | auth-service/src/adapters/out/auth/rfc6238-totp.adapter.ts:52-67 | an accepted step s has 30000 (s - 1) <= now < 30000 (s + 2), in milliseconds |
| `Totp.AcceptedByTheClock` | auth-service/src/adapters/out/auth/rfc6238-totp.adapter.ts:52-67 | and six digits are accepted exactly when a step that near to the clock shows them |
| `Totp.AcceptedExactly` | auth-service/src/adapters/out/auth/rfc6238-totp.adapter.ts:52-81 | that is, when they denote the number sections 5.3 of RFC 4226 and 4.2 of RFC 6238 define for such a step |
| `Totp.StepsOfTheStandard` | auth-service/src/adapters/out/auth/rfc6238-totp.adapter.ts:56-58 | the steps of two times in appendix B of RFC 6238 |
| `Totp.RangeErrorAtTheEpoch` | auth-service/src/adapters/out/auth/rfc6238-totp.adapter.ts:61-63 | in the first 30 seconds of the epoch any six digits raise the range error |
| `Totp.AuthenticatorIsAccepted` | auth-service/src/adapters/out/auth/rfc6238-totp.adapter.ts:32-67 | whichever way its secret was typed, an authenticator's code for a step of the window is accepted |
| `CircuitBreakers.CircuitBreaker.constructor` | backend/src/adapters/out/resilience/circuit-breaker.ts:38-55 | a breaker with no history is closed |
| `CircuitBreakers.CircuitBreaker.Begin` | backend/src/adapters/out/resilience/circuit-breaker.ts:61-73 | the first half of a call: admitted exactly when the history says so, and recorded; the history stays one that calls can produce |
| `CircuitBreakers.CircuitBreaker.Settle` | backend/src/adapters/out/resilience/circuit-breaker.ts:75-90 | the second half of a call keeps the fields equal to what the history says: the counter is the trailing run of infrastructure failures, closed exactly below the threshold, probe flag up exactly in the half-open state |
| `CircuitBreakers.ProbeIsPending` | backend/src/adapters/out/resilience/circuit-breaker.ts:62-73 | a half-open episode has admitted exactly one call, which is still pending, and admits no other |
| `CircuitBreakers.CompletionEndsTheEpisode` | backend/src/adapters/out/resilience/circuit-breaker.ts:75-90 | any call in flight can complete the half-open episode: a failure opens the circuit again, every other outcome closes it |
| `CircuitBreakers.ProbeDecidesExactly` | backend/src/adapters/out/resilience/circuit-breaker.ts:9-10 | the probe is the one call that can end the episode exactly when no call was in flight as it was admitted |
| `CircuitBreakers.EpisodesAreTheProbes` | backend/src/adapters/out/resilience/circuit-breaker.ts:61-113 | if no call was in flight when the circuit opened, every half-open episode up to the next closing is the probe's alone |
| `CircuitBreakers.NeverSticks` | backend/src/adapters/out/resilience/circuit-breaker.ts:61-90 | a reset time after the last completion an attempt is admitted exactly when the circuit is not half open, so once no probe is pending, whatever stale calls hang |
| `CircuitBreakers.AdmissionsAreSpaced` | backend/src/adapters/out/resilience/circuit-breaker.ts:62-74 | while nothing completes healthily, k admissions since the opening have taken k reset times |
| `CircuitBreakers.ProbesAreSpaced` | backend/src/adapters/out/resilience/circuit-breaker.ts:62-74 | and any two of them are a reset time apart |
| `CircuitBreakers.RateBound` | backend/src/adapters/out/resilience/circuit-breaker.ts:62-113 | at most floor((T - t0) / resetTimeoutMs) calls reach a service that stays down, for every interleaving, late stale failures included |
| `CircuitBreakers.RateBoundIsMet` | backend/src/adapters/out/resilience/circuit-breaker.ts:62-113 | the bound is attained for every number of calls |
| `CircuitBreakers.FailuresWhileOneHangs` | backend/src/adapters/out/resilience/circuit-breaker.ts:104-113 | after k consecutive failures the circuit is closed while k is below the threshold and open from the threshold on, whatever still hangs |
| `CircuitBreakers.StaleCallDecides` | backend/src/adapters/out/resilience/circuit-breaker.ts:61-102 | at every setting two calls can be pending in the half-open state, and the stale one can close the circuit, contrary to the comment on lines 9-10 |
| `Pricing.BilledHours` | backend/src/core/domain/policies/impl/hourly-pricing.policy.ts:17-18 | an hour is billed exactly once it has begun, and one hour at least |
| `Pricing.FirstHourPrice` | backend/src/core/domain/policies/impl/hourly-pricing.policy.ts:17-19 | the first hour costs the hourly price, however little of it was used |
| `Pricing.FurtherHoursPrice` | backend/src/core/domain/policies/impl/hourly-pricing.policy.ts:17-19 | every further hour costs the hourly price again |
| `Pricing.PriceIsMonotone` | backend/src/core/domain/policies/impl/hourly-pricing.policy.ts:17-19 | the price never falls as time passes |
| `ParkingTables.SlotTable.ClaimFirst` | backend/src/adapters/out/persistence/prisma/repositories/prisma-parking-slot.repository.ts:59-101 | an atomic claim reserves the first matching free row of an order that no other statement has locked, changes no other row, and fails exactly when there is none |
| `ParkingTables.SlotTable.ClaimAvailableSlot` | backend/src/adapters/out/persistence/prisma/repositories/prisma-parking-slot.repository.ts:59-77 | the same, by code |
| `ParkingTables.SlotTable.ClaimLeastRecentlyUsedSlot` | backend/src/adapters/out/persistence/prisma/repositories/prisma-parking-slot.repository.ts:83-101 | the same, by the time of the last update |
| `ParkingTables.SlotTable.UpdateStatus` | backend/src/adapters/out/persistence/prisma/repositories/prisma-parking-slot.repository.ts:103-105 | one row changes its status and its time of update |
| `ParkingTables.SlotTable.MarkAllOccupied` | backend/src/adapters/out/persistence/prisma/repositories/prisma-parking-slot.repository.ts:130-135 | exactly the free slots of the branch become occupied |
| `ParkingTables.SessionTable.Create` | backend/src/adapters/out/persistence/prisma/repositories/prisma-parking-session.repository.ts:32-42 | the insert succeeds exactly when the reservation has no session yet, as the key on the column demands |
| `ParkingPolicy.ParkingSystem.RegisterEntry` | backend/src/core/domain/policies/impl/default-parking.policy.ts:28-68 | every guard with its error; otherwise reservation confirmed, session inserted, slot occupied; an insert that meets an earlier session leaves the confirmation behind |
| `ParkingPolicy.ParkingSystem.RegisterExit` | backend/src/core/application/use-cases/parking/register-exit.use-case.ts:57-112 | every guard with its error and the missing amount; otherwise session, slot and reservation are released together |
| `ParkingPolicy.ParkingSystem.ReleaseSession` | backend/src/core/domain/policies/impl/default-parking.policy.ts:70-94 | the guards the policy repeats, and the three updates |
| `ParkingPolicy.ParkingSystem.CancelReservation` | backend/src/core/application/use-cases/reservations/cancel-reservation.use-case.ts:32-51 | refused for a stranger or a reservation that is over; otherwise cancelled and the slot freed |
| `ParkingPolicy.ParkingSystem.ExpireOverdueReservations` | backend/src/core/application/use-cases/reservations/expire-overdue-reservations.use-case.ts:33-65 | the loop expires exactly the overdue reservations, frees exactly their slots and counts them |
| `ParkingPolicy.ParkingSystem.CanCreateReservation` | backend/src/core/domain/policies/impl/default-reservation.policy.ts:13-25 | allowed exactly when the user has neither a live reservation nor an active session, with the reason of a refusal |
| `ParkingPolicy.ParkingSystem.ReportSlotBlocked` | backend/src/core/application/use-cases/parking/report-slot-blocked.use-case.ts:18-31 | one slot leaves the offer, whoever holds it |
| `ReservationCreation.CreateReservation.Execute` | backend/src/core/application/use-cases/reservations/create-reservation.use-case.ts:69-110 | refusal, suggestion, creation and failure each exactly when due; a creation is one pass of a worker through check, claim and insert; a failure before the insert leaves the claimed slot behind |
| `Visits.CheckPassesExactly` | backend/src/core/domain/policies/impl/default-reservation.policy.ts:13-25 | a check passes exactly when the user has no pending or confirmed reservation and no active session |
| `Visits.ClaimedRow` | backend/src/adapters/out/persistence/prisma/repositories/prisma-parking-slot.repository.ts:59-101 | a claim takes a free slot of the branch and type asked for, and reserves it |
| `Visits.CreatedRow` | backend/src/core/application/use-cases/reservations/create-reservation.use-case.ts:92-107 | the row inserted, field by field: pending, starting when asked for or now, lapsing the tolerance in minutes later |
| `Visits.CreatedIsSweptExactly` | backend/src/core/domain/policies/impl/default-reservation.policy.ts:31-37 | from creation to sweep: a reservation still pending after any moves is expired exactly when more than the tolerance has passed since its start |
| `Visits.SweepOnRows` | backend/src/core/application/use-cases/reservations/expire-overdue-reservations.use-case.ts:33-65 | a sweep expires exactly the pending rows whose time is over and frees exactly their slots |
| `Visits.EntryGrantedExactly` | backend/src/core/domain/policies/impl/default-parking.policy.ts:28-68 | an entry is granted exactly to a pending reservation whose time has come; it begins the session at that moment, confirms and occupies, and otherwise nothing changes |
| `Visits.EntryRefusedExactly` | backend/src/core/domain/policies/impl/default-parking.policy.ts:28-48 | in reachable states each refusal of an entry has exactly its cause |
| `Visits.EntryToExit` | backend/src/core/application/use-cases/parking/register-exit.use-case.ts:57-90 | from entry to exit: after an entry at t1 and any moves that leave the session active, an exit at t2 is granted exactly when an approved payment is short of the price from t1 to t2 by a cent at most, else refused with the amount missing |
| `Visits.OnlyActiveSessionsAreLeft` | backend/src/core/application/use-cases/parking/register-exit.use-case.ts:59-62 | an unknown or finished session is not left |
| `Visits.CancelGrantedExactly` | backend/src/core/application/use-cases/reservations/cancel-reservation.use-case.ts:32-51 | a cancellation is granted exactly to the user of a pending or confirmed reservation, and refused with its cause |
| `Visits.MarkedRows` | backend/src/adapters/out/persistence/prisma/repositories/prisma-parking-slot.repository.ts:103-135 | a simulation occupies exactly the free slots of the branch, a report blocks exactly the slot named |
| `Lifecycle.StepKeeps` | backend/src/core/application/use-cases/reservations/create-reservation.use-case.ts:69-107 | each step, with workers anywhere between check, claim and insert, keeps the invariant: no slot has two holders, no held slot is on offer, sessions and reservations agree |
| `Lifecycle.RunKeeps` | backend/src/adapters/out/persistence/prisma/repositories/prisma-parking-slot.repository.ts:54-101 | so does every run, with any number of workers |
| `Lifecycle.EveryRunIsSafe` | backend/src/core/domain/policies/impl/default-parking.policy.ts:28-94 | from an empty system: distinct holders have distinct slots that are never on offer, no two active sessions share a slot, a reservation is confirmed exactly while its one session ever is active, and an entry never meets an earlier session |
| `SlotConservation.StepLosesExactly` | backend/src/core/domain/policies/impl/default-parking.policy.ts:81-94 | a step keeps a holder for every slot off offer exactly if it is not the death of a worker with a claim, a report on a slot nobody holds, or a simulation that meets a free slot |
| `SlotConservation.RunLosesExactly` | backend/src/adapters/out/persistence/prisma/repositories/prisma-parking-slot.repository.ts:103-135 | over a whole run every slot off offer ends with a holder exactly if no step lost one: what was lost is never found again |
| `SlotConservation.OnOfferExactlyWhenFree` | backend/src/core/domain/policies/impl/default-parking.policy.ts:28-94 | from a system with every slot on offer: at the end of any run exactly the slots nobody holds are on offer, exactly if no step lost one; whatever ends a reservation gives its slot back |
| `Lifecycle.EntryMeetsNoSession` | backend/src/core/domain/policies/impl/default-parking.policy.ts:45-63 | in every reachable state the insert of an entry never violates the unique key, and only a pending reservation enters |
| `Lifecycle.CancelKeepsExactly` | backend/src/core/application/use-cases/reservations/cancel-reservation.use-case.ts:32-51 | a cancellation keeps the invariant exactly when it is refused or the reservation has no active session |
| `Lifecycle.SafeExactly` | backend/src/core/application/use-cases/reservations/cancel-reservation.use-case.ts:32-51 | the invariant holds throughout a run exactly when every cancellation is refused or finds no active session |
| `Lifecycle.CancelDuringSessionOffersTheSlot` | frontend/src/pages/reservation/MyReservationPage.tsx:51-80 | without that hypothesis, which the page observes, a parked car's slot goes to the next worker that asks for it |
| `Lifecycle.StrandedForever` | backend/src/adapters/out/persistence/prisma/repositories/prisma-parking-slot.repository.ts:103-135 | a slot off offer without a holder is never put on offer again by any operation |
| `Lifecycle.DyingWorkerStrandsItsSlot` | backend/src/core/application/use-cases/reservations/create-reservation.use-case.ts:76-107 | the claim of a worker that dies before its insert is lost for good |
| `Lifecycle.SerialRunKeeps` | backend/src/core/domain/policies/impl/default-reservation.policy.ts:13-25 | if the requests of a user are processed one after the other the user never has two live reservations |
| `Lifecycle.InsertKeepsOneLiveExactly` | backend/src/core/application/use-cases/reservations/create-reservation.use-case.ts:72-107 | an insert keeps that exactly when the user has no live reservation at that moment |
| `Lifecycle.OneLiveExactly` | backend/src/core/application/use-cases/reservations/create-reservation.use-case.ts:72-107 | with any number of workers, users have one live reservation at most throughout a run exactly when every insert finds its user without one |
| `Lifecycle.TwoWorkersTwoReservations` | backend/src/core/application/use-cases/reservations/create-reservation.use-case.ts:72-107 | two workers that check before either inserts give one user two live reservations |
| `Lifecycle.SweepExactly` | backend/src/core/application/use-cases/reservations/expire-overdue-reservations.use-case.ts:33-65 | after a sweep nothing is overdue and a second one changes nothing; exactly the overdue reservations expired and exactly their slots, as many, became free; no remaining holder lost its slot |
| `SlotAssignment.Policies.AssignDefault` | backend/src/core/domain/policies/impl/default-slot-assignment.policy.ts:16-44 | the first free slot by code, else the suggestion by distance; sorting and searching finds the earliest least match |
| `SlotAssignment.Policies.AssignBalanced` | backend/src/core/domain/policies/impl/balanced-slot-assignment.policy.ts:27-90 | the least recently used free slot, else the best other branch with a free row by distance and occupancy; filtering, scoring, sorting and taking the first finds it |
| `SlotAssignment.SuggestionExactly` | backend/src/core/domain/policies/impl/balanced-slot-assignment.policy.ts:36-71 | a branch is suggested exactly when the requested one exists and another has room; it has the least key among those, and is the first of its equals |
| `SlotAssignment.SuggestedIsNearest` | backend/src/core/domain/policies/impl/default-slot-assignment.policy.ts:27-41 | on rows and distances: no other branch with a free row is nearer, and those earlier by name are farther |
| `SlotAssignment.SuggestedIsBestBalanced` | backend/src/core/domain/policies/impl/balanced-slot-assignment.policy.ts:62-89 | on rows and distances: a candidate is nearer by at most five kilometres times what it is fuller |
| `SlotAssignment.EmptierIsPreferred` | backend/src/core/domain/policies/impl/balanced-slot-assignment.policy.ts:82-89 | at equal distance an emptier branch with room is never passed over |
| `SlotAssignment.NothingSuggestedExactly` | backend/src/core/domain/policies/impl/balanced-slot-assignment.policy.ts:36-53 | nothing is suggested exactly when the branch is unknown or no other has a free row |
| `SlotAssignment.EqualOccupancySameSuggestion` | backend/src/core/domain/policies/impl/balanced-slot-assignment.policy.ts:74-90 | when the candidates are equally occupied both policies suggest the same branch, ties included |
| `SlotAssignment.DetourIsBounded` | backend/src/core/domain/policies/impl/balanced-slot-assignment.policy.ts:74-90 | the balanced suggestion is less than the occupancy penalty farther away than the nearest branch with room |
| `Ranking.SortIsStable` | backend/src/core/domain/policies/impl/default-slot-assignment.policy.ts:28-30 | sorting by a key gives an ordered permutation that keeps equals in order |
| `Ranking.FindInSorted` | backend/src/core/domain/policies/impl/default-slot-assignment.policy.ts:28-41 | the first match of the sorted list is the earliest least match of the list |
| `Ranking.FirstOfSortedMatches` | backend/src/core/domain/policies/impl/balanced-slot-assignment.policy.ts:47-66 | so is the first of the sorted matches |
| `SlotHistory.NoBypass` | backend/src/adapters/out/persistence/prisma/repositories/prisma-parking-slot.repository.ts:83-101 | no slot is claimed twice while another slot that the second claim could take, free and unlocked, stays untouched |
| `Payments.RegisterPayment.Execute` | payments-service/src/core/application/use-cases/payments/register-payment.use-case.ts:43-87 | a stranger is refused; what is due is charged, and payment and charges are recorded as decided |
| `Payments.RegisterPayment.TopUpIfInsufficient` | payments-service/src/core/application/use-cases/payments/register-payment.use-case.ts:94-128 | the top-up charges what is missing beyond the tolerance and adds it only if approved |
| `Payments.PaymentTable.IncreaseAmount` | payments-service/src/adapters/out/persistence/prisma/repositories/prisma-payment.repository.ts:41-60 | amount added, status approved, reference appended |
| `Payments.CallCovers` | payments-service/src/core/application/use-cases/payments/register-payment.use-case.ts:65-126 | what a call leaves behind, field by field; if approved it covers the quote but for a cent |
| `Payments.SameHourChargesOnce` | payments-service/src/core/application/use-cases/payments/register-payment.use-case.ts:102-117 | a second call within the billed hour finds nothing due, exactly unless the first was a refused top-up |
| `PaymentRuns.StepBalancesExactly` | payments-service/src/adapters/out/persistence/prisma/repositories/prisma-payment.repository.ts:26-60 | with any number of calls under way: a step keeps what was collected stored or in flight exactly if it is no insert after another call's, no raise of a row written since it was read, and no end of a call with a charge not stored |
| `PaymentRuns.BalancedExactly` | payments-service/src/core/application/use-cases/payments/register-payment.use-case.ts:53-128 | over every interleaving of the look-ups, charges and stores of any number of calls: the balance holds throughout exactly when no step loses any of it |
| `PaymentRuns.RunKeeps` | payments-service/src/core/application/use-cases/payments/register-payment.use-case.ts:43-128 | with calls one at a time, for any decisions, between quotes and exits in any order: balanced, the stored amount never falls nor exceeds the latest quote, no exit during a call, no charge after an exit |
| `PaymentRuns.OrderlyLosesNothing` | payments-service/src/core/application/use-cases/payments/register-payment.use-case.ts:53-128 | calls one at a time lose nothing |
| `PaymentRuns.AloneIsAtomic` | payments-service/src/core/application/use-cases/payments/register-payment.use-case.ts:43-128 | the steps of a call that nothing overlaps do what one uninterrupted call does |
| `PaymentRuns.PayingOpensTheExit` | backend/src/core/application/use-cases/parking/register-exit.use-case.ts:69-90 | paying opens the exit: after an approved call for the price of the moment an exit is granted as long as no further hour has begun |
| `PaymentRuns.OverlappingCallsChargeTwice` | payments-service/src/core/application/use-cases/payments/register-payment.use-case.ts:53-87 | two first calls that overlap both charge the price, at every price, and the payment knows of one |
| `PaymentRuns.ReleaseIsCollectedExactly` | backend/src/core/application/use-cases/parking/register-exit.use-case.ts:69-90 | for any decisions, at a release the charges collected and the refused first charge together are the stored amount, the price or a cent less; the price was collected to the cent exactly when that charge is nothing, or one cent in a payment of the whole price |
| `PaymentRuns.RunIsFair` | payments-service/src/adapters/out/payments/card-payment.adapter.ts:8-13 | with methods that approve exactly positive amounts no charge of any call is refused, however calls interleave |
| `PaymentRuns.ReleasedSessionHasPaid` | backend/src/core/application/use-cases/parking/register-exit.use-case.ts:69-90 | a released session has an approved payment, collected to the cent, between the price at its exit less one cent and that price, and no later call charges it |
| `PaymentRuns.RefusedFirstChargeIsForgiven` | payments-service/src/core/application/use-cases/payments/register-payment.use-case.ts:72-83 | a refused first charge is stored as if paid: at every price the session leaves having paid one of its two hours |
| `BackupCodes.GeneratedCodes` | auth-service/src/core/application/use-cases/auth/confirm-mfa.use-case.ts:82-87 | what is generated has the format XXXX-XXXX over unambiguous capitals and digits |
| `BackupCodes.AnyBackupCodeIsGenerated` | auth-service/src/core/application/use-cases/auth/confirm-mfa.use-case.ts:82-87 | every text of that format can be generated |
| `BackupCodes.NormalizeTwice` | auth-service/src/core/application/use-cases/auth/confirm-mfa.use-case.ts:90-95 | normalising is idempotent on every text, for any upper-casing that keeps what Unicode promises |
| `BackupCodes.NormalFormIsTidy` | auth-service/src/core/application/use-cases/auth/confirm-mfa.use-case.ts:90-95 | the normal form of any text has no small letter and no white space at its ends |
| `BackupCodes.RetypingNormalizes` | auth-service/src/core/application/use-cases/auth/confirm-mfa.use-case.ts:90-95 | a code typed in any case with white space and dashes anywhere normalises to the code |
| `BackupCodes.RetypingTrimmed` | auth-service/src/core/application/use-cases/auth/verify-mfa.use-case.ts:63-66 | trimming keeps that, and what is left is never taken for six digits |
| `Mfa.UserTable.UpdateMfa` | auth-service/src/adapters/out/persistence/prisma/repositories/prisma-user.repository.ts:57-71 | absent fields keep their value, present ones overwrite it, null clears it |
| `Mfa.MfaService.Setup` | auth-service/src/core/application/use-cases/auth/setup-mfa.use-case.ts:42-67 | a secret is stored and nothing switched on, unless the factor is on |
| `Mfa.MfaService.Confirm` | auth-service/src/core/application/use-cases/auth/confirm-mfa.use-case.ts:46-78 | the first right code switches the factor on, stores its step and issues eight codes, of which only hashes are kept |
| `Mfa.MfaService.Verify` | auth-service/src/core/application/use-cases/auth/verify-mfa.use-case.ts:59-69 | six digits go to the authenticator, anything else to the backup codes |
| `Mfa.MfaService.ConsumeTotp` | auth-service/src/core/application/use-cases/auth/verify-mfa.use-case.ts:74-93 | a step is accepted only if later than the stored one, and stored |
| `Mfa.MfaService.ConsumeBackupCode` | auth-service/src/core/application/use-cases/auth/verify-mfa.use-case.ts:95-111 | the loop deletes the hash of the first match and nothing else |
| `Mfa.MfaService.Disable` | auth-service/src/core/application/use-cases/auth/disable-mfa.use-case.ts:32-55 | a fresh code of the authenticator clears the record |
| `Mfa.RunKeeps` | auth-service/src/core/application/use-cases/auth/verify-mfa.use-case.ts:74-111 | over every run the accepted steps increase, the last is the stored one, and codes are conserved |
| `Mfa.EveryRunIsSafe` | auth-service/src/core/application/use-cases/auth/disable-mfa.use-case.ts:32-55 | from a fresh account: accepted steps of an enrolment strictly increase, at most step(T1) - step(T0) + 3 are accepted in an interval, and codes spent and left are the eight issued |
| `Mfa.NoReplay` | auth-service/src/core/application/use-cases/auth/verify-mfa.use-case.ts:83-92 | no step is accepted again, nor an earlier one, until the factor is switched off |
| `Mfa.LoginPassesExactly` | auth-service/src/core/application/use-cases/auth/verify-mfa.use-case.ts:63-92 | six digits pass a login exactly when the least step of the window that shows them is later than the stored one |
| `Mfa.UnusedCodeIsRefusedExactly` | auth-service/src/core/application/use-cases/auth/verify-mfa.use-case.ts:79-90 | the right code of an unused step is refused exactly when a used step of the window shows the same digits |
| `Mfa.LoginUsesUp` | auth-service/src/core/application/use-cases/auth/verify-mfa.use-case.ts:74-111 | a login changes the record only by the step or the one backup code it uses up |
| `Mfa.DisablePassesExactly` | auth-service/src/core/application/use-cases/auth/disable-mfa.use-case.ts:32-55 | switching off succeeds exactly with six digits whose least step in the window is unused, and clears the record |
| `Mfa.ConfirmPassesExactly` | auth-service/src/core/application/use-cases/auth/confirm-mfa.use-case.ts:46-78 | confirming succeeds exactly for a secret set up and not switched on, with six digits the window shows |
| `Mfa.SetupExactly` | auth-service/src/core/application/use-cases/auth/setup-mfa.use-case.ts:42-67 | a setup begins a new enrolment exactly when the factor is off |
| `Mfa.BackupCodePassesExactly` | auth-service/src/core/application/use-cases/auth/verify-mfa.use-case.ts:63-66 | a text that is no six digits passes exactly when it normalises to a code that is left |
| `Mfa.RetypedCodePasses` | auth-service/src/core/application/use-cases/auth/verify-mfa.use-case.ts:95-111 | a code that is left passes however it is typed, and is then spent |
| `Mfa.EnrolmentSucceeds` | auth-service/src/core/application/use-cases/auth/confirm-mfa.use-case.ts:46-78 | whichever way the secret of a setup is typed into an authenticator, its code for a step of the window confirms |
| `ReservationConsumer.Consumer.Handle` | backend/src/adapters/in/messaging/reservation-request.consumer.ts:52-87 | acknowledged, and the user told, exactly when readable and not failed by the infrastructure, else dead-lettered; who is told of a reservation is told of the one row inserted for the request, and nobody else has a new row |
| `ReservationConsumer.Consumer.Process` | backend/src/core/application/use-cases/reservations/process-reservation-request.use-case.ts:39-90 | the creation is called; what is told is what it came to, a suggestion the policy's own; its failures are thrown on |
| `ReservationQueue.NoMessageIsLost` | backend/src/adapters/in/messaging/reservation-request.consumer.ts:31-50 | over every history each message published is ready, unsettled, acknowledged or dead-lettered exactly once, one at most unsettled |
| `QueueAnswers.AnswersAreTrue` | backend/src/core/application/use-cases/reservations/process-reservation-request.use-case.ts:39-90 | over every history, redeliveries included: a reservation told is a row this handling inserted for the user and branch of its message; every row comes from one handling, no handling makes two rows or answers twice |
| `Redelivery.RedeliveryIsHarmlessExactly` | backend/src/adapters/in/messaging/reservation-request.consumer.ts:35-45 | over every history, with handlings that outlive their connections: users have one live reservation at most at every point exactly when every insert finds its user without one |
| `Redelivery.RedeliveryIsHarmless` | backend/src/adapters/in/messaging/reservation-request.consumer.ts:35-45 | in particular if no handling outlives its connection, however often messages are delivered again |
| `Redelivery.SurvivingHandlerReservesTwice` | backend/src/adapters/in/messaging/reservation-request.consumer.ts:42-45 | if a handling outlives its connection one message can make two reservations |

## Left out

- Lifecycle.RunKeeps: interleaving inside an entry, an exit, a cancellation or a sweep is not modelled; the code reads and then writes without a transaction, and two overlapping exits or entries can interfere.
- Mfa.RunKeeps: two logins that read the same stored step at once are not modelled; both could be accepted.
- PaymentRuns.ReleasedSessionHasPaid: for calls one at a time; what overlapping calls keep and lose is in `BalancedExactly`. Floating-point rounding (`toFixed`) is replaced by exact cents.
- ReservationConsumer.Consumer.Handle: one message without interruption; handlings that interleave, and failures between any two of their steps, are in `ReservationQueue`.
- Redelivery.RedeliveryIsHarmless: one consumer process with a prefetch of one; several processes are covered by the steps of `Lifecycle` alone.
- CircuitBreakers.CircuitBreaker.Begin: the callbacks on state changes and rejections are not modelled, nor a threshold below one or a reset time that is not positive.
- ParkingTables.SlotTable.ClaimFirst: which rows other statements have locked is a parameter; the collation of `code` is any rank.
- BackupCodes.NormalizeTwice: the upper case of a character is a parameter with the properties of `IsUpperCasing`; elsewhere, beyond ASCII, only the characters whose upper case holds an ASCII letter are listed, and lower-casing is ASCII only.
- Base32.DecodeAfterRetyping: the grouping of the page is modelled on strings without surrogate pairs.
- Slot codes, the `otpauth` URI, QR payloads and their signatures: no claim depends on them.
- `sumApprovedByBranch`, availability by type and the list and get use cases: queries settled by reading one expression.
- Branch existence in pricing and simulation, and unknown sessions in a quote: one guard each, with nothing behind it.
- Haversine distance: any real function of two branches. The ratio of a branch is exact, not a float.
- JWT, bcrypt, AES-GCM, Firebase and Facebook login, the gateway proxy, gRPC and Kafka clients, realtime relay, e-mails, audit events and metrics: libraries and side effects the state does not depend on.
- The user interface, except the grouping of the secret in fours.
