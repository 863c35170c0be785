# Gymtime booking flow, verified in Dafny

Gymtime books a session at a Basic-Fit gym for one member at a requested date
and time. One run of the `Gymtime` class does the following:

1. It logs in: the credentials are exchanged for a JWT, and the JWT for a session handle.
2. It loads the member's profile and the reservations the member already holds.
3. It refuses to go on when the member holds two or more open reservations.
4. It rejects a requested minute that is not a multiple of 15.
5. It polls the member's favourite club for availability:
   - an empty reply is fatal;
   - otherwise the first slot, in provider order, that starts at the requested time of day is booked for 90 minutes;
   - when no slot matches, it sleeps for the interval and polls again, until the operator interrupts a wait.

Every fatal condition ends the process with status 1. A booking, or an interrupt
during a wait, ends it with status 0.

The project has five files:

- `api.dfy` (module `BasicFitApi`) holds the values exchanged with the provider: dates and times, the session, the member, the club and the availability slots. Every request made to the provider is recorded as an `Event`.
- `flow.dfy` (module `BookingFlow`) holds the reference definitions: one poll (`TryOnce`), the poll loop over the provider's successive replies (`Polling`) and a whole run (`Run`). It also holds the lemmas about any run.
- `gymtime.dfy` (module `Booking`) is the `Gymtime` class. It has the same fields and one method per step of the Python class. Each method assigns its fields as the source does and is proved to do exactly what `Run` describes. The self-recursion of the retry becomes a `while` loop over the poll replies.
- `recursion.dfy` (module `RetryRecursion`) models the retry as the source writes it, by self-recursion with a limited stack. It backs the finding below.
- `scenarios.dfy` (module `Scenarios`) holds concrete runs whose ending follows from the class's contracts.

The provider is not part of the model. Its answers are an input, `Replies`:

- the JWT, or `None` when that request raises;
- the session, or `None` when that request raises;
- the member;
- the open reservations;
- one `Poll` per availability query, holding the slots returned and whether the operator interrupts the wait after that query;
- whether creating the reservation succeeds.

The retry in the source never ends while no slot matches. In the model the run
ends with the outcome `StillPolling` once the given replies are exhausted.

Two facts about the code's order and state:

- The requested time is validated only after the login, the two profile requests and the limit check (main.py:41-50). An off-grid time is therefore rejected after four provider requests, not before any of them. `OffGridTimeStops` states exactly that.
- The class attribute `reservation` (main.py:14) is never assigned. The result of `create_reservation` is discarded, so the model has no confirmation value.

## Model

| member | source | states |
|---|---|---|
| BookingFlow.FirstMatch | main.py:96-109 | the index it returns is in range, and that slot starts at the requested time of day |
| BookingFlow.FirstMatchIsFirst | main.py:96-109 | no slot before the returned index starts at the requested time; when none is returned, no slot does |
| Booking.FindPreferredSlot | main.py:96-109 | the `for` loop with its early return finds exactly the first slot, in provider order, whose time of day is the booking time |
| BookingFlow.DecisivePoll | main.py:111-123 | every poll before the returned index leads to a retry, and the poll at that index (if any) does not |
| BookingFlow.Waits | main.py:111-123 | `n` unsuccessful rounds make `2n` requests |
| BookingFlow.WaitsAlternate | main.py:111-123 | the unsuccessful rounds alternate between an availability query with the fixed session, member and booking time, and a sleep of the interval |
| BookingFlow.WaitsAppend | main.py:111-123 | one more unsuccessful round appends one query and one sleep |
| BookingFlow.AfterLogin | main.py:41-43 | after login, the first two requests are the member fetch and the open-reservations fetch, both with the session |
| BookingFlow.Run | main.py:125-130 | every run starts by requesting the JWT for the given username and password |
| BookingFlow.RetryStep | main.py:110-123 | a non-empty poll with no match and no interrupt contributes one query and one sleep, then the run goes on with the next reply |
| BookingFlow.SkipRetries | main.py:110-123 | any number of retry polls leave the outcome unchanged and only prepend their queries and sleeps |
| BookingFlow.DecidedAt | main.py:83-123 | after `i` retries, a poll that ends the round decides the whole run: its trace follows the `i` rounds of waiting |
| BookingFlow.EmptyReplyIsFatal | main.py:92-94 | an empty reply, on the first poll or after any retries, ends the run with status 1 after exactly one more query, and nothing is booked |
| BookingFlow.FirstMatchIsBooked | main.py:96-109 | the deciding poll books its first matching slot with the session, the favourite club and duration 90, or fails with status 1 when creation fails; that slot's date and own duration play no part |
| BookingFlow.BookedOnlyOnFirstMatch | main.py:96-109 | conversely, a booked slot is always the first match of the deciding poll, and creation succeeded |
| BookingFlow.InterruptCancels | main.py:118-122 | a wait interrupted after a non-empty unmatched reply ends the run with status 0 after the sleep request, and nothing is booked |
| BookingFlow.NoMatchKeepsPolling | main.py:110-123 | non-empty unmatched replies without an interrupt never fail the run: each leads to a sleep and a new query, and the run is still polling |
| BookingFlow.PollingRequest | main.py:86-123 | every request of the poll loop uses the session, the member, the booking time and the interval; a reservation request, if any, is the last request and follows a query |
| BookingFlow.LoginFailureStops | main.py:125-134 | a failed login step ends the run with status 1 after at most two requests, before any availability query |
| BookingFlow.LimitStopsBeforeAvailability | main.py:43-55 | two or more open reservations end the run with status 1 after the four login and profile requests; availability is never queried and nothing is booked |
| BookingFlow.OffGridTimeStops | main.py:72-81 | a minute that is not a multiple of 15 ends the run with status 1 once the limit check passes; availability is never queried and nothing is booked |
| BookingFlow.RunReachesPolling | main.py:37-52 | when login, the limit check and the time check pass, the run is the four preamble requests followed by the poll loop for the combined booking time |
| BookingFlow.ReservationFollowsChecks | main.py:41-109 | a reservation is only created after a successful login, the limit check and the time check, as the last request and right after a query, with the session, the favourite club, a slot at the requested time and duration 90 |
| BookingFlow.SessionReused | main.py:31-109 | the session returned by login is the one passed to every later request |
| Booking.Gymtime.constructor | main.py:23-35 | stores the arguments; the ending and the request log are those of `Run`; `session` is set by login; `user` and `open_reservations` hold the fetched profile exactly when login succeeds; `date_for_booking` is set exactly when login and both checks pass, and is the combination of the requested date and time; `availability` then holds the reply of the deciding poll, and stays empty otherwise |
| Booking.Gymtime.Login | main.py:125-134 | succeeds exactly when both exchanges succeed, and only then assigns the session; requests the JWT, then the session only if a JWT was returned |
| Booking.Gymtime.StartNewBooking | main.py:37-55 | assigns the member and the open reservations, then ends as `AfterLogin` says; `date_for_booking` and `availability` change only when the limit and time checks pass, and then hold the combined booking time and the reply of the deciding poll |
| Booking.Gymtime.ParseTimeForBooking | main.py:72-81 | accepts exactly the quarter-hour minutes, and only then sets `date_for_booking` to the requested date at the requested time |
| Booking.Gymtime.CheckAvailability | main.py:83-110 | stores the reply in `availability` and does one query, exactly as `TryOnce`: fail on an empty reply, book the first match, or report no match |
| Booking.Gymtime.RetryToBookPreferredTime | main.py:113-122 | records one sleep of the interval; the run is cancelled exactly when the operator interrupts it |
| Booking.Gymtime.PollRound | main.py:83-123 | one query and, if nothing matched, one wait; either it decides the run as `Polling` does, or it extends the waiting rounds by one |
| Booking.Gymtime.TryToMakeReservation | main.py:83-123 | the loop over the replies ends, and logs the requests, exactly as `Polling`; `availability` holds the reply of the deciding poll |
| RetryRecursion.AsWrittenAgreesWithinDepth | main.py:111-123 | while the stack has room for every retry, the self-recursive retry behaves exactly like the loop |
| RetryRecursion.AsWrittenFailsBeyondDepth | main.py:113-123 | more consecutive unmatched replies than the stack admits end the self-recursive retry with status 1 |
| RetryRecursion.RecursionLimitDefeatsRetry | main.py:123 | for every stack depth there are replies on which the loop books the slot and the self-recursive retry exits with status 1 |

## Left out

- Command-line parsing and credentials from environment variables (main.py:145-169): these are library plumbing. The arguments arrive already parsed.
- The HTTP, JWT and cookie details of `basic_fit_api`: that module is not part of this model. Each request is an `Event`, and each answer is an input.
- Console output (`say_hi`, `inform_about_reservation` and the prints): presentation only. The normal return after a booking is exit status 0.
- ISO parsing with `fromisoformat` and `strftime`: slots arrive with an already parsed date and time of day. Times are compared as (hour, minute, second) triples. Microseconds and time zones are not modelled.
- The range of `Time` fields is not checked. The arguments come from an ISO parser that has already validated them.
- Real sleeping and the asynchronous delivery of `KeyboardInterrupt`: the interrupt is a flag observed at each wait. An interrupt that arrives outside the sleep is not modelled.
- A member, open-reservations or availability request that raises: the model takes these answers as given values. Only the two login steps and the reservation request can fail.
- Token expiry during a long retry: the source does not handle it.
- A negative interval, which makes `time.sleep` raise `ValueError` (and so exit with status 1): the interval is a `nat`.
- The endless retry: the replies are a finite sequence, and a run that exhausts them ends as `StillPolling`, which has no exit status.
- BookingFlow.Run: its own contract only states the first request. What a run does is stated by the lemmas about it (`LoginFailureStops`, `LimitStopsBeforeAvailability`, `OffGridTimeStops`, `RunReachesPolling`, `ReservationFollowsChecks`, `SessionReused`).

## Findings

| source | as written | input that shows it | evidently intended | confidence | as-written member | corrected member |
|---|---|---|---|---|---|---|
| main.py:123 | each retry re-enters `try_to_make_reservation`, and the call stack grows by two frames per retry; at the interpreter's recursion limit the re-entry raises `RecursionError`, which the handler at main.py:53-55 catches as an ordinary exception, and the process exits with status 1 | more consecutive non-empty unmatched replies than the stack admits (about 500 with the default limit), then a reply with the requested time | retry for as long as no slot matches, and book the slot once it appears | not executed | RetryRecursion.RecursionLimitDefeatsRetry | BookingFlow.NoMatchKeepsPolling |
