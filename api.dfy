/**
  The values that cross the boundary to the Basic-Fit provider (`basic_fit_api`).
  The provider itself is not part of this model: every reply it gives is an input
  of the model, and every request the booking flow makes to it is recorded as an
  `Event` so that the order and the arguments of the requests can be stated.
 */
module BasicFitApi {

  datatype Option<+T> = None | Some(value: T)

  /** A time of day, already parsed (hour, minute, second). */
  datatype Time = Time(hour: nat, minute: nat, second: nat)

  /** A calendar date, already parsed. */
  datatype Date = Date(year: int, month: nat, day: nat)

  /** A naive date-time, the value `datetime.datetime.combine` builds. */
  datatype DateTime = DateTime(date: Date, time: Time)

  /** The JWT returned for a username and password. */
  datatype Jwt = Jwt(token: string)

  /** The opaque session handle (cookie) the JWT is exchanged for. */
  datatype Session = Session(cookie: string)

  datatype Club = Club(id: string, name: string)

  /** The member profile; only the favourite club matters for booking. */
  datatype Member = Member(firstName: string, favoriteClub: Club)

  /** A reservation the member already holds; only counted by the flow. */
  datatype OpenReservation = OpenReservation(start: DateTime, duration: nat, clubName: string)

  /**
    One availability entry ("policy") offered by the provider: its start,
    its own duration, and the provider's booking token for it.
   */
  datatype Slot = Slot(start: DateTime, duration: nat, policy: string)

  /** A request made by the booking flow, in the order it is made. */
  datatype Event =
    | GetJwt(username: string, password: string)
    | ExchangeJwt(jwt: Jwt)
    | GetMemberInformation(session: Session)
    | GetOpenReservations(session: Session)
    | GetAvailableTimes(session: Session, member: Member, at: DateTime)
    | CreateReservation(session: Session, club: Club, slot: Slot, duration: nat)
    | Sleep(seconds: nat)

  /** True when no request in `events` creates a reservation. */
  predicate NoReservation(events: seq<Event>)
  {
    forall j :: 0 <= j < |events| ==> !events[j].CreateReservation?
  }

  /** True when no request in `events` asks for availability. */
  predicate NoAvailabilityQuery(events: seq<Event>)
  {
    forall j :: 0 <= j < |events| ==> !events[j].GetAvailableTimes?
  }
}
