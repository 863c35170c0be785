/**
  The Gymtime booking flow as the object it is: the constructor logs in and
  runs the booking, each step assigns the instance fields the way the
  methods of the Python class do, and the retry by self-recursion is a loop
  over the provider's successive availability replies.
  Every method is proved against the reference functions of BookingFlow.
 */
module Booking {
  import opened BasicFitApi
  import opened BookingFlow

  /** The scan of the availability list: the first slot, in provider order, at time of day `t`. */
  method FindPreferredSlot(slots: seq<Slot>, t: Time) returns (k: Option<nat>)
    ensures k == FirstMatch(slots, t)
  {
    FirstMatchIsFirst(slots, t);
    for i := 0 to |slots|
      invariant forall j :: 0 <= j < i ==> slots[j].start.time != t
    {
      if slots[i].start.time == t {
        return Some(i);
      }
    }
    return None;
  }

  class Gymtime {
    // Arguments from the command line
    const username: string
    const password: string
    const bookAtDate: Date
    const bookAtTime: Time
    const interval: nat

    // What the flow learns and decides
    var session: Option<Session>
    var user: Option<Member>
    var openReservations: seq<OpenReservation>
    var dateForBooking: Option<DateTime>
    var availability: seq<Slot>

    /** How the process ends: the status given to sys.exit, or the normal return after booking. */
    var outcome: Outcome
    /** Every request made so far, in order. */
    ghost var events: seq<Event>

    /** The operator's request, as the reference functions take it. */
    function AsRequest(): Request
    {
      Request(username, password, bookAtDate, bookAtTime, interval)
    }

    /** What stays fixed across retries, once the booking time is set. */
    ghost function RetryContext(): Context
      reads this`session, this`user, this`dateForBooking
      requires session.Some? && user.Some? && dateForBooking.Some?
    {
      Context(session.value, user.value, dateForBooking.value, interval)
    }

    /** Logs in and runs the whole booking, as the Python constructor does. */
    constructor (username: string, password: string, bookAtDate: Date, bookAtTime: Time,
                 interval: nat, replies: Replies)
      ensures this.username == username && this.password == password
      ensures this.bookAtDate == bookAtDate && this.bookAtTime == bookAtTime && this.interval == interval
      ensures Trace(outcome, events) == Run(AsRequest(), replies)
      ensures session == if replies.jwt.Some? then replies.session else None
      ensures dateForBooking.Some? <==>
        replies.jwt.Some? && replies.session.Some? &&
        |replies.openReservations| < MaxOpenReservations && OnQuarterHour(bookAtTime)
      ensures dateForBooking.Some? ==> dateForBooking.value == DateTime(bookAtDate, bookAtTime)
      ensures user == if replies.jwt.Some? && replies.session.Some? then Some(replies.member) else None
      ensures openReservations ==
        if replies.jwt.Some? && replies.session.Some? then replies.openReservations else []
      ensures availability ==
        if dateForBooking.Some? then LastQueried(replies.polls, bookAtTime, []) else []
    {
      this.username := username;
      this.password := password;
      this.bookAtDate := bookAtDate;
      this.bookAtTime := bookAtTime;
      this.interval := interval;
      session := None;
      user := None;
      openReservations := [];
      dateForBooking := None;
      availability := [];
      outcome := StillPolling;
      events := [];
      new;
      var ok := Login(replies.jwt, replies.session);
      if !ok {
        outcome := Failed(LoginFailed);
        return;
      }
      outcome := StartNewBooking(replies.member, replies.openReservations, replies.polls, replies.createOk);
    }

    /**
      Exchanges the credentials for a JWT and the JWT for a session. On
      failure nothing is assigned and the caller exits with status 1.
     */
    method Login(jwt: Option<Jwt>, cookie: Option<Session>) returns (ok: bool)
      modifies this`session, this`events
      ensures ok <==> jwt.Some? && cookie.Some?
      ensures session == if ok then cookie else old(session)
      ensures events == old(events) + [GetJwt(username, password)]
                        + (if jwt.Some? then [ExchangeJwt(jwt.value)] else [])
    {
      events := events + [GetJwt(username, password)];
      if jwt.None? {
        return false;
      }
      events := events + [ExchangeJwt(jwt.value)];
      if cookie.None? {
        return false;
      }
      session := cookie;
      ok := true;
    }

    /**
      Loads the profile, enforces the limit on open reservations, validates the
      time and tries to book; every fatal condition ends in `Failed`.
     */
    method StartNewBooking(member: Member, reservations: seq<OpenReservation>,
                           polls: seq<Poll>, createOk: bool) returns (o: Outcome)
      requires session.Some?
      modifies this`user, this`openReservations, this`dateForBooking, this`availability, this`events
      ensures var t := AfterLogin(AsRequest(), session.value, member, reservations, polls, createOk);
        o == t.outcome && events == old(events) + t.events
      ensures user == Some(member) && openReservations == reservations
      ensures |reservations| < MaxOpenReservations && OnQuarterHour(bookAtTime) ==>
        dateForBooking == Some(DateTime(bookAtDate, bookAtTime)) &&
        availability == LastQueried(polls, bookAtTime, old(availability))
      ensures |reservations| >= MaxOpenReservations || !OnQuarterHour(bookAtTime) ==>
        dateForBooking == old(dateForBooking) && availability == old(availability)
    {
      ghost var profile := [GetMemberInformation(session.value), GetOpenReservations(session.value)];
      user := Some(member);
      events := events + [GetMemberInformation(session.value)];
      openReservations := reservations;
      events := events + [GetOpenReservations(session.value)];
      assert events == old(events) + profile;
      if |openReservations| >= MaxOpenReservations {
        return Failed(TooManyOpenReservations);
      }
      var ok := ParseTimeForBooking();
      if !ok {
        return Failed(InvalidTime);
      }
      ghost var c := Context(session.value, member, DateTime(bookAtDate, bookAtTime), interval);
      assert RetryContext() == c;
      assert availability == old(availability) && dateForBooking.value.time == bookAtTime;
      o := TryToMakeReservation(polls, createOk);
      assert availability == LastQueried(polls, bookAtTime, old(availability));
      ghost var p := Polling(c, polls, createOk);
      assert events == old(events) + (profile + p.events);
    }

    /** Accepts only quarter-hour times; then the booking time is the requested date at that time. */
    method ParseTimeForBooking() returns (ok: bool)
      modifies this`dateForBooking
      ensures ok <==> OnQuarterHour(bookAtTime)
      ensures dateForBooking == if ok then Some(DateTime(bookAtDate, bookAtTime)) else old(dateForBooking)
      ensures ok ==> dateForBooking.value.time == bookAtTime
    {
      if bookAtTime.minute % 15 != 0 {
        return false;
      }
      dateForBooking := Some(DateTime(bookAtDate, bookAtTime));
      ok := true;
    }

    /**
      One availability query: fails when the provider offers nothing, books
      the first slot at the booking time of day, or reports that none matched.
     */
    method CheckAvailability(slots: seq<Slot>, createOk: bool) returns (a: Attempt)
      requires session.Some? && user.Some? && dateForBooking.Some?
      modifies this`availability, this`events
      ensures availability == slots
      ensures a == TryOnce(RetryContext(), slots, createOk)
      ensures a.Done? ==> events == old(events) + a.trace.events
      ensures a.NoMatch? ==> events == old(events) + [GetAvailableTimes(session.value, user.value, dateForBooking.value)]
    {
      availability := slots;
      events := events + [GetAvailableTimes(session.value, user.value, dateForBooking.value)];
      if |availability| == 0 {
        return Done(Trace(Failed(NoSessionsOnDate), [GetAvailableTimes(session.value, user.value, dateForBooking.value)]));
      }
      var k := FindPreferredSlot(availability, dateForBooking.value.time);
      if k.Some? {
        var create := CreateReservation(session.value, user.value.favoriteClub, availability[k.value], MaxGymDuration);
        events := events + [create];
        var result := if createOk then Booked(availability[k.value]) else Failed(ReservationFailed);
        return Done(Trace(result, [GetAvailableTimes(session.value, user.value, dateForBooking.value), create]));
      }
      return NoMatch([GetAvailableTimes(session.value, user.value, dateForBooking.value)]);
    }

    /** Waits the interval; an interrupt during the wait ends the run with status 0. */
    method RetryToBookPreferredTime(interrupted: bool) returns (cancelled: bool)
      modifies this`events
      ensures cancelled == interrupted
      ensures events == old(events) + [Sleep(interval)]
    {
      events := events + [Sleep(interval)];
      cancelled := interrupted;
    }

    /**
      Round `i` of the retry: one availability query and, when nothing
      matched, the wait that follows it.
     */
    method PollRound(polls: seq<Poll>, createOk: bool, i: nat, ghost start: seq<Event>)
      returns (finished: bool, o: Outcome)
      requires session.Some? && user.Some? && dateForBooking.Some?
      requires i < |polls|
      requires forall j :: 0 <= j < i ==> Retries(polls[j], dateForBooking.value.time)
      requires events == start + Waits(RetryContext(), i)
      modifies this`availability, this`events
      ensures availability == polls[i].slots
      ensures finished ==> DecisivePoll(polls, dateForBooking.value.time) == i
      ensures finished ==> Trace(o, events) == Trace(Polling(RetryContext(), polls, createOk).outcome,
                                                    start + Polling(RetryContext(), polls, createOk).events)
      ensures !finished ==> Retries(polls[i], dateForBooking.value.time)
      ensures !finished ==> events == start + Waits(RetryContext(), i + 1)
    {
      ghost var c := RetryContext();
      DecidedAt(c, polls, createOk, i);
      var a := CheckAvailability(polls[i].slots, createOk);
      if a.Done? {
        assert events == start + (Waits(c, i) + a.trace.events);
        return true, a.trace.outcome;
      }
      var cancelled := RetryToBookPreferredTime(polls[i].interrupted);
      WaitsAppend(c, i);
      assert events == start + Waits(c, i + 1);
      if cancelled {
        return true, Cancelled;
      }
      return false, StillPolling;
    }

    /**
      Queries availability until a slot at the booking time is booked, the
      provider offers nothing, the operator interrupts a wait, or the replies
      run out (the source would keep polling).
     */
    method TryToMakeReservation(polls: seq<Poll>, createOk: bool) returns (o: Outcome)
      requires session.Some? && user.Some? && dateForBooking.Some?
      modifies this`availability, this`events
      ensures var t := Polling(RetryContext(), polls, createOk);
        o == t.outcome && events == old(events) + t.events
      ensures availability == LastQueried(polls, dateForBooking.value.time, old(availability))
    {
      ghost var c := RetryContext();
      var i := 0;
      while i < |polls|
        invariant i <= |polls|
        invariant session.Some? && user.Some? && dateForBooking.Some? && RetryContext() == c
        invariant forall j :: 0 <= j < i ==> Retries(polls[j], c.at.time)
        invariant events == old(events) + Waits(c, i)
        invariant availability == if i == 0 then old(availability) else polls[i - 1].slots
        decreases |polls| - i
      {
        var finished;
        finished, o := PollRound(polls, createOk, i, old(events));
        if finished {
          return;
        }
        i := i + 1;
      }
      SkipRetries(c, polls, createOk, |polls|);
      assert polls[|polls|..] == [];
      DecisivePollIs(polls, c.at.time, |polls|);
      o := StillPolling;
    }
  }
}
