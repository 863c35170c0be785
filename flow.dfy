/**
  The booking decision logic of Gymtime as values: what one run of the flow
  requests from the provider and how it ends, given the provider's replies.
  The class in module Booking is proved to do exactly what `Run` says; the
  lemmas here state what the flow promises about any run.
 */
module BookingFlow {
  import opened BasicFitApi

  /** Every reservation is created for this many minutes. */
  const MaxGymDuration: nat := 90
  /** A member holding this many open reservations may not book another. */
  const MaxOpenReservations: nat := 2

  /** The fatal conditions, each ending the process with status 1. */
  datatype Error =
    | LoginFailed              // either step of the login raised
    | TooManyOpenReservations  // the limit check refused
    | InvalidTime              // the requested minute is off the quarter-hour grid
    | NoSessionsOnDate         // the provider returned no availability at all
    | ReservationFailed        // the provider refused to create the reservation
    | RecursionLimit           // the interpreter's stack ran out (as-written retry only)

  /** How a run ends; `StillPolling` means the replies ran out while it was still retrying. */
  datatype Outcome = Booked(slot: Slot) | Cancelled | Failed(error: Error) | StillPolling

  /** The outcome of a run together with every request it made, in order. */
  datatype Trace = Trace(outcome: Outcome, events: seq<Event>)

  /** What the operator asked for. */
  datatype Request = Request(username: string, password: string, date: Date, time: Time, interval: nat)

  /**
    One availability query: the slots the provider returned, and whether an
    interrupt arrives during the wait that follows it (if there is one).
   */
  datatype Poll = Poll(slots: seq<Slot>, interrupted: bool)

  /** Everything the provider (and the operator's keyboard) answers during one run. */
  datatype Replies = Replies(
    jwt: Option<Jwt>,                       // get_jwt_from_credentials, None if it raised
    session: Option<Session>,               // exchange_jwt_for_session, None if it raised
    member: Member,                         // get_member_information
    openReservations: seq<OpenReservation>, // get_open_reservations
    polls: seq<Poll>,                       // one reply per availability query
    createOk: bool)                         // whether create_reservation succeeds

  /** What stays fixed across retries once login and validation are done. */
  datatype Context = Context(session: Session, member: Member, at: DateTime, interval: nat)

  /** The process exit status of an outcome; None while the process is still running. */
  function ExitCode(o: Outcome): (code: Option<nat>)
  {
    match o
    case Booked(_) => Some(0)
    case Cancelled => Some(0)
    case Failed(_) => Some(1)
    case StillPolling => None
  }

  /** The grid rule for requested times: the minute is a multiple of 15. */
  predicate OnQuarterHour(t: Time)
  {
    t.minute % 15 == 0
  }

  /** The index of the first slot, in provider order, that starts at time of day `t`. */
  function FirstMatch(slots: seq<Slot>, t: Time): (r: Option<nat>)
    ensures r.Some? ==> r.value < |slots| && slots[r.value].start.time == t
  {
    if slots == [] then None
    else if slots[0].start.time == t then Some(0)
    else match FirstMatch(slots[1..], t)
      case None => None
      case Some(k) => Some(k + 1)
  }

  /** No slot before the first match starts at `t`; with no match, no slot does. */
  lemma {:induction false} FirstMatchIsFirst(slots: seq<Slot>, t: Time)
    ensures FirstMatch(slots, t).Some? ==>
      forall j :: 0 <= j < FirstMatch(slots, t).value ==> slots[j].start.time != t
    ensures FirstMatch(slots, t).None? ==>
      forall j :: 0 <= j < |slots| ==> slots[j].start.time != t
  {
    if slots != [] && slots[0].start.time != t {
      FirstMatchIsFirst(slots[1..], t);
      forall j | 1 <= j < |slots| ensures slots[j] == slots[1..][j - 1] { }
    }
  }

  /** A poll after which the flow waits and queries again. */
  predicate Retries(p: Poll, t: Time)
  {
    |p.slots| > 0 && FirstMatch(p.slots, t).None? && !p.interrupted
  }

  /** The index of the first poll after which the flow does not simply retry. */
  function DecisivePoll(polls: seq<Poll>, t: Time): (i: nat)
    ensures i <= |polls|
    ensures forall j :: 0 <= j < i ==> Retries(polls[j], t)
    ensures i < |polls| ==> !Retries(polls[i], t)
  {
    if polls == [] || !Retries(polls[0], t) then 0
    else 1 + DecisivePoll(polls[1..], t)
  }

  /** The requests of `n` unsuccessful rounds: a query, then a wait, `n` times. */
  function Waits(c: Context, n: nat): (r: seq<Event>)
    ensures |r| == 2 * n
  {
    if n == 0 then []
    else [GetAvailableTimes(c.session, c.member, c.at), Sleep(c.interval)] + Waits(c, n - 1)
  }

  /** The unsuccessful rounds alternate: a query at every even position, a wait at every odd one. */
  lemma {:induction false} WaitsAlternate(c: Context, n: nat)
    ensures forall j :: 0 <= j < 2 * n ==>
      Waits(c, n)[j] == if j % 2 == 0 then GetAvailableTimes(c.session, c.member, c.at) else Sleep(c.interval)
  {
    if n > 0 {
      WaitsAlternate(c, n - 1);
      forall j | 2 <= j < 2 * n
        ensures Waits(c, n)[j] == Waits(c, n - 1)[j - 2] && j % 2 == (j - 2) % 2
      { }
    }
  }

  /** One more unsuccessful round appends a query and a wait. */
  lemma WaitsAppend(c: Context, n: nat)
    ensures Waits(c, n) + [GetAvailableTimes(c.session, c.member, c.at), Sleep(c.interval)] == Waits(c, n + 1)
  {
    var a := Waits(c, n) + [GetAvailableTimes(c.session, c.member, c.at), Sleep(c.interval)];
    var b := Waits(c, n + 1);
    WaitsAlternate(c, n);
    WaitsAlternate(c, n + 1);
    forall j | 0 <= j < |a| ensures a[j] == b[j] {
      if j >= 2 * n {
        assert j % 2 == (j - 2 * n) % 2;
      }
    }
  }

  /** The result of one availability query: the run ends, or no slot matched. */
  datatype Attempt = Done(trace: Trace) | NoMatch(events: seq<Event>)

  /** One pass of the availability check: query, then book the first matching slot. */
  function TryOnce(c: Context, slots: seq<Slot>, createOk: bool): (a: Attempt)
  {
    var query := GetAvailableTimes(c.session, c.member, c.at);
    if |slots| == 0 then Done(Trace(Failed(NoSessionsOnDate), [query]))
    else match FirstMatch(slots, c.at.time)
      case Some(k) =>
        var create := CreateReservation(c.session, c.member.favoriteClub, slots[k], MaxGymDuration);
        Done(Trace(if createOk then Booked(slots[k]) else Failed(ReservationFailed), [query, create]))
      case None => NoMatch([query])
  }

  /** The poll, wait and retry loop over the given replies. */
  function Polling(c: Context, polls: seq<Poll>, createOk: bool): (t: Trace)
    decreases |polls|
  {
    if polls == [] then Trace(StillPolling, [])
    else match TryOnce(c, polls[0].slots, createOk)
      case Done(t) => t
      case NoMatch(e) =>
        if polls[0].interrupted then Trace(Cancelled, e + [Sleep(c.interval)])
        else
          var rest := Polling(c, polls[1..], createOk);
          Trace(rest.outcome, e + [Sleep(c.interval)] + rest.events)
  }

  /**
    The reply the poll loop leaves in `availability`: that of the deciding
    poll, or of the last poll when the replies run out, or `prior` when there
    was no poll at all.
   */
  function LastQueried(polls: seq<Poll>, t: Time, prior: seq<Slot>): (slots: seq<Slot>)
  {
    var i := DecisivePoll(polls, t);
    if i < |polls| then polls[i].slots
    else if polls != [] then polls[|polls| - 1].slots
    else prior
  }

  /** The requests made before any availability query: login, then the member's profile. */
  function Preamble(r: Request, jwt: Jwt, s: Session): (e: seq<Event>)
  {
    [GetJwt(r.username, r.password), ExchangeJwt(jwt), GetMemberInformation(s), GetOpenReservations(s)]
  }

  /**
    Everything after a successful login: profile, limit check, time validation,
    then polling (the body of start_new_booking and its exception handler).
   */
  function AfterLogin(r: Request, s: Session, member: Member, open: seq<OpenReservation>,
                      polls: seq<Poll>, createOk: bool): (t: Trace)
    ensures |t.events| >= 2 && t.events[..2] == [GetMemberInformation(s), GetOpenReservations(s)]
  {
    var profile := [GetMemberInformation(s), GetOpenReservations(s)];
    if |open| >= MaxOpenReservations then Trace(Failed(TooManyOpenReservations), profile)
    else if !OnQuarterHour(r.time) then Trace(Failed(InvalidTime), profile)
    else
      var p := Polling(Context(s, member, DateTime(r.date, r.time), r.interval), polls, createOk);
      Trace(p.outcome, profile + p.events)
  }

  /** A whole run: login, then everything after it. */
  function Run(r: Request, rep: Replies): (t: Trace)
    ensures |t.events| >= 1 && t.events[0] == GetJwt(r.username, r.password)
  {
    var login := [GetJwt(r.username, r.password)];
    if rep.jwt.None? then Trace(Failed(LoginFailed), login)
    else if rep.session.None? then Trace(Failed(LoginFailed), login + [ExchangeJwt(rep.jwt.value)])
    else
      var t := AfterLogin(r, rep.session.value, rep.member, rep.openReservations, rep.polls, rep.createOk);
      Trace(t.outcome, login + [ExchangeJwt(rep.jwt.value)] + t.events)
  }

  // ---------------------------------------------------------------------------
  // The poll loop

  /** A poll that leads to a retry contributes one query and one wait before the rest of the run. */
  lemma RetryStep(c: Context, polls: seq<Poll>, createOk: bool)
    requires polls != [] && Retries(polls[0], c.at.time)
    ensures var rest := Polling(c, polls[1..], createOk);
      Polling(c, polls, createOk)
        == Trace(rest.outcome, [GetAvailableTimes(c.session, c.member, c.at), Sleep(c.interval)] + rest.events)
  {
    assert TryOnce(c, polls[0].slots, createOk) == NoMatch([GetAvailableTimes(c.session, c.member, c.at)]);
  }

  /** Dropping the first poll keeps the retries of the ones after it. */
  lemma RetriesShift(polls: seq<Poll>, t: Time, i: nat)
    requires 0 < i <= |polls|
    requires forall j :: 0 <= j < i ==> Retries(polls[j], t)
    ensures Retries(polls[0], t)
    ensures forall j :: 0 <= j < i - 1 ==> Retries(polls[1..][j], t)
  {
    assert Retries(polls[0], t);
    forall j | 0 <= j < i - 1 ensures Retries(polls[1..][j], t) {
      assert polls[1..][j] == polls[j + 1];
    }
  }

  lemma AppendAssoc<T>(a: seq<T>, b: seq<T>, c: seq<T>)
    ensures a + (b + c) == (a + b) + c
  {
  }

  /** Polls that only lead to retries contribute a query and a wait each, and decide nothing. */
  lemma {:induction false} SkipRetries(c: Context, polls: seq<Poll>, createOk: bool, i: nat)
    requires i <= |polls|
    requires forall j :: 0 <= j < i ==> Retries(polls[j], c.at.time)
    ensures Polling(c, polls, createOk).outcome == Polling(c, polls[i..], createOk).outcome
    ensures Polling(c, polls, createOk).events == Waits(c, i) + Polling(c, polls[i..], createOk).events
  {
    if i > 0 {
      RetryStep(c, polls, createOk);
      RetriesShift(polls, c.at.time, i);
      SkipRetries(c, polls[1..], createOk, i - 1);
      assert polls[1..][i - 1..] == polls[i..];
      AppendAssoc([GetAvailableTimes(c.session, c.member, c.at), Sleep(c.interval)],
                  Waits(c, i - 1), Polling(c, polls[i..], createOk).events);
    }
  }

  /** The deciding poll is the first one that does not lead to a retry. */
  lemma DecisivePollIs(polls: seq<Poll>, t: Time, i: nat)
    requires i <= |polls|
    requires forall j :: 0 <= j < i ==> Retries(polls[j], t)
    requires i < |polls| ==> !Retries(polls[i], t)
    ensures DecisivePoll(polls, t) == i
  {
  }

  /** After `i` retries, the reply of poll `i` decides the run when it ends the round without a retry. */
  lemma DecidedAt(c: Context, polls: seq<Poll>, createOk: bool, i: nat)
    requires i < |polls|
    requires forall j :: 0 <= j < i ==> Retries(polls[j], c.at.time)
    ensures var a := TryOnce(c, polls[i].slots, createOk);
      a.Done? ==>
        (DecisivePoll(polls, c.at.time) == i &&
         Polling(c, polls, createOk) == Trace(a.trace.outcome, Waits(c, i) + a.trace.events))
    ensures var a := TryOnce(c, polls[i].slots, createOk);
      a.NoMatch? && polls[i].interrupted ==>
        (DecisivePoll(polls, c.at.time) == i &&
         Polling(c, polls, createOk) == Trace(Cancelled, Waits(c, i + 1)))
  {
    SkipRetries(c, polls, createOk, i);
    WaitsAppend(c, i);
    if !Retries(polls[i], c.at.time) {
      DecisivePollIs(polls, c.at.time, i);
    }
  }

  /** An empty reply ends the run fatally, on the first poll or after any number of retries. */
  lemma EmptyReplyIsFatal(c: Context, polls: seq<Poll>, createOk: bool)
    requires DecisivePoll(polls, c.at.time) < |polls|
    requires polls[DecisivePoll(polls, c.at.time)].slots == []
    ensures var t := Polling(c, polls, createOk);
      && t.outcome == Failed(NoSessionsOnDate)
      && ExitCode(t.outcome) == Some(1)
      && t.events == Waits(c, DecisivePoll(polls, c.at.time)) + [GetAvailableTimes(c.session, c.member, c.at)]
      && NoReservation(t.events)
  {
    var i := DecisivePoll(polls, c.at.time);
    var query := GetAvailableTimes(c.session, c.member, c.at);
    assert TryOnce(c, polls[i].slots, createOk) == Done(Trace(Failed(NoSessionsOnDate), [query]));
    DecidedAt(c, polls, createOk, i);
  }

  /**
    The first poll that offers a slot at the requested time of day books the
    first such slot in provider order, with the login session, the member's
    favourite club and the fixed duration; the slot's date and own duration play no part.
   */
  lemma FirstMatchIsBooked(c: Context, polls: seq<Poll>, createOk: bool)
    requires DecisivePoll(polls, c.at.time) < |polls|
    requires FirstMatch(polls[DecisivePoll(polls, c.at.time)].slots, c.at.time).Some?
    ensures var i := DecisivePoll(polls, c.at.time);
      var slot := polls[i].slots[FirstMatch(polls[i].slots, c.at.time).value];
      var t := Polling(c, polls, createOk);
      && slot.start.time == c.at.time
      && t.outcome == (if createOk then Booked(slot) else Failed(ReservationFailed))
      && t.events == Waits(c, i) + [GetAvailableTimes(c.session, c.member, c.at),
                                    CreateReservation(c.session, c.member.favoriteClub, slot, MaxGymDuration)]
  {
    var i := DecisivePoll(polls, c.at.time);
    assert TryOnce(c, polls[i].slots, createOk).Done?;
    DecidedAt(c, polls, createOk, i);
  }

  /** An interrupt during a wait ends the run with status 0, and nothing is booked. */
  lemma InterruptCancels(c: Context, polls: seq<Poll>, createOk: bool)
    requires DecisivePoll(polls, c.at.time) < |polls|
    requires polls[DecisivePoll(polls, c.at.time)].slots != []
    requires FirstMatch(polls[DecisivePoll(polls, c.at.time)].slots, c.at.time).None?
    ensures var t := Polling(c, polls, createOk);
      && polls[DecisivePoll(polls, c.at.time)].interrupted
      && t.outcome == Cancelled
      && ExitCode(t.outcome) == Some(0)
      && t.events == Waits(c, DecisivePoll(polls, c.at.time) + 1)
      && NoReservation(t.events)
  {
    var i := DecisivePoll(polls, c.at.time);
    assert TryOnce(c, polls[i].slots, createOk).NoMatch?;
    DecidedAt(c, polls, createOk, i);
  }

  /**
    Non-empty replies without a match never make the run fail: it waits the
    interval and queries again after each of them, and is still polling.
   */
  lemma NoMatchKeepsPolling(c: Context, polls: seq<Poll>, createOk: bool)
    requires forall j :: 0 <= j < |polls| ==> Retries(polls[j], c.at.time)
    ensures var t := Polling(c, polls, createOk);
      && t.outcome == StillPolling
      && ExitCode(t.outcome).None?
      && t.events == Waits(c, |polls|)
      && NoReservation(t.events)
  {
    SkipRetries(c, polls, createOk, |polls|);
  }

  /** The converse: a booking happens only for the first match on the deciding poll. */
  lemma BookedOnlyOnFirstMatch(c: Context, polls: seq<Poll>, createOk: bool, slot: Slot)
    requires Polling(c, polls, createOk).outcome == Booked(slot)
    ensures var i := DecisivePoll(polls, c.at.time);
      && createOk
      && i < |polls|
      && FirstMatch(polls[i].slots, c.at.time).Some?
      && slot == polls[i].slots[FirstMatch(polls[i].slots, c.at.time).value]
  {
    var i := DecisivePoll(polls, c.at.time);
    SkipRetries(c, polls, createOk, i);
    if i < |polls| && FirstMatch(polls[i].slots, c.at.time).Some? {
      FirstMatchIsBooked(c, polls, createOk);
    }
  }

  /** A request the poll loop is allowed to make in context `c`. */
  predicate PollRequest(c: Context, e: Event)
  {
    match e
    case GetAvailableTimes(s, m, at) => s == c.session && m == c.member && at == c.at
    case Sleep(secs) => secs == c.interval
    case CreateReservation(s, club, slot, d) =>
      s == c.session && club == c.member.favoriteClub && slot.start.time == c.at.time && d == MaxGymDuration
    case _ => false
  }

  /**
    Every request of the poll loop reuses the session and the booking time, and
    at most one reservation is created: as the very last request, right after a query.
   */
  lemma {:induction false} PollingRequest(c: Context, polls: seq<Poll>, createOk: bool, k: nat)
    requires k < |Polling(c, polls, createOk).events|
    ensures var e := Polling(c, polls, createOk).events;
      && PollRequest(c, e[k])
      && (e[k].CreateReservation? ==> k == |e| - 1 && 0 < k && e[k - 1].GetAvailableTimes?)
    decreases |polls|
  {
    match TryOnce(c, polls[0].slots, createOk)
    case Done(t) =>
    case NoMatch(_) =>
      if !polls[0].interrupted && k >= 2 {
        var rest := Polling(c, polls[1..], createOk).events;
        assert Polling(c, polls, createOk).events
          == [GetAvailableTimes(c.session, c.member, c.at), Sleep(c.interval)] + rest;
        PollingRequest(c, polls[1..], createOk, k - 2);
      }
  }

  // ---------------------------------------------------------------------------
  // The whole run

  /** A failed login ends the run with status 1 before the profile is fetched. */
  lemma LoginFailureStops(r: Request, rep: Replies)
    requires rep.jwt.None? || rep.session.None?
    ensures var t := Run(r, rep);
      && t.outcome == Failed(LoginFailed)
      && ExitCode(t.outcome) == Some(1)
      && 1 <= |t.events| <= 2
      && t.events[0] == GetJwt(r.username, r.password)
      && NoAvailabilityQuery(t.events) && NoReservation(t.events)
  {
  }

  /**
    Two or more open reservations end the run with status 1 right after the
    profile is fetched: availability is never queried, nothing is booked.
   */
  lemma LimitStopsBeforeAvailability(r: Request, rep: Replies)
    requires rep.jwt.Some? && rep.session.Some?
    requires |rep.openReservations| >= MaxOpenReservations
    ensures var t := Run(r, rep);
      && t.outcome == Failed(TooManyOpenReservations)
      && ExitCode(t.outcome) == Some(1)
      && t.events == Preamble(r, rep.jwt.value, rep.session.value)
      && NoAvailabilityQuery(t.events) && NoReservation(t.events)
  {
  }

  /**
    A requested minute off the quarter-hour grid ends the run with status 1
    once the limit check has passed: availability is never queried.
   */
  lemma OffGridTimeStops(r: Request, rep: Replies)
    requires rep.jwt.Some? && rep.session.Some?
    requires |rep.openReservations| < MaxOpenReservations
    requires !OnQuarterHour(r.time)
    ensures var t := Run(r, rep);
      && t.outcome == Failed(InvalidTime)
      && ExitCode(t.outcome) == Some(1)
      && t.events == Preamble(r, rep.jwt.value, rep.session.value)
      && NoAvailabilityQuery(t.events) && NoReservation(t.events)
  {
  }

  /** Once login, the limit check and the time validation pass, the run is the preamble followed by the poll loop. */
  lemma RunReachesPolling(r: Request, rep: Replies)
    requires rep.jwt.Some? && rep.session.Some?
    requires |rep.openReservations| < MaxOpenReservations && OnQuarterHour(r.time)
    ensures var c := Context(rep.session.value, rep.member, DateTime(r.date, r.time), r.interval);
      var p := Polling(c, rep.polls, rep.createOk);
      Run(r, rep) == Trace(p.outcome, Preamble(r, rep.jwt.value, rep.session.value) + p.events)
  {
    var s := rep.session.value;
    var c := Context(s, rep.member, DateTime(r.date, r.time), r.interval);
    var p := Polling(c, rep.polls, rep.createOk);
    var profile := [GetMemberInformation(s), GetOpenReservations(s)];
    var t := AfterLogin(r, s, rep.member, rep.openReservations, rep.polls, rep.createOk);
    assert t == Trace(p.outcome, profile + p.events);
    var e := [GetJwt(r.username, r.password)] + [ExchangeJwt(rep.jwt.value)] + t.events;
    assert Run(r, rep) == Trace(p.outcome, e);
    assert |e| == 4 + |p.events|;
    assert e[..4] == Preamble(r, rep.jwt.value, rep.session.value) && e[4..] == p.events;
    assert e == e[..4] + e[4..];
  }

  /**
    A reservation is only ever created after a successful login, the limit
    check and the time validation, right after an availability query, as the
    last request of the run, for a slot at the requested time of day, with the
    login session, the favourite club and duration 90.
   */
  lemma ReservationFollowsChecks(r: Request, rep: Replies, j: nat)
    requires j < |Run(r, rep).events| && Run(r, rep).events[j].CreateReservation?
    ensures rep.jwt.Some? && rep.session.Some?
    ensures |rep.openReservations| < MaxOpenReservations && OnQuarterHour(r.time)
    ensures var e := Run(r, rep).events;
      && e[..4] == Preamble(r, rep.jwt.value, rep.session.value)
      && j == |e| - 1 && 4 < j
      && e[j - 1] == GetAvailableTimes(rep.session.value, rep.member, DateTime(r.date, r.time))
      && e[j].session == rep.session.value
      && e[j].club == rep.member.favoriteClub
      && e[j].slot.start.time == r.time
      && e[j].duration == MaxGymDuration
  {
    assert rep.jwt.Some? && rep.session.Some?;
    assert |rep.openReservations| < MaxOpenReservations && OnQuarterHour(r.time);
    var c := Context(rep.session.value, rep.member, DateTime(r.date, r.time), r.interval);
    var p := Polling(c, rep.polls, rep.createOk).events;
    RunReachesPolling(r, rep);
    assert Run(r, rep).events[j] == p[j - 4];
    PollingRequest(c, rep.polls, rep.createOk, j - 4);
    if j > 4 {
      PollingRequest(c, rep.polls, rep.createOk, j - 5);
    }
  }

  /** True when `e` carries no session, or carries `s`. */
  predicate UsesSession(e: Event, s: Session)
  {
    match e
    case GetMemberInformation(s') => s' == s
    case GetOpenReservations(s') => s' == s
    case GetAvailableTimes(s', _, _) => s' == s
    case CreateReservation(s', _, _, _) => s' == s
    case _ => true
  }

  /** Once obtained, the session is passed unchanged to every later request. */
  lemma SessionReused(r: Request, rep: Replies)
    requires rep.session.Some?
    ensures var e := Run(r, rep).events;
      forall j :: 0 <= j < |e| ==> UsesSession(e[j], rep.session.value)
  {
    if rep.jwt.Some? && |rep.openReservations| < MaxOpenReservations && OnQuarterHour(r.time) {
      var c := Context(rep.session.value, rep.member, DateTime(r.date, r.time), r.interval);
      var pre := Preamble(r, rep.jwt.value, rep.session.value);
      var p := Polling(c, rep.polls, rep.createOk).events;
      RunReachesPolling(r, rep);
      forall j | 0 <= j < |pre + p| ensures UsesSession((pre + p)[j], rep.session.value) {
        if j >= 4 {
          PollingRequest(c, rep.polls, rep.createOk, j - 4);
          assert (pre + p)[j] == p[j - 4];
        }
      }
    }
  }
}
