/**
  Clients of the Gymtime class: concrete runs whose ending follows from the
  class's contracts alone.
 */
module Scenarios {
  import opened BasicFitApi
  import opened BookingFlow
  import opened Booking

  /** Requested 10:00; the provider offers 10:00 and 10:15; the 10:00 slot is booked for 90 minutes. */
  method BooksFirstMatchingSlot()
  {
    var d := Date(2026, 10, 14);
    var club := Club("nl-42", "Centrum");
    var s := Session("cookie");
    var ten := Slot(DateTime(d, Time(10, 0, 0)), 60, "policy-a");
    var quarterPast := Slot(DateTime(d, Time(10, 15, 0)), 60, "policy-b");
    var replies := Replies(Some(Jwt("jwt")), Some(s), Member("Sam", club), [],
                           [Poll([ten, quarterPast], false)], true);
    var g := new Gymtime("sam@example.org", "secret", d, Time(10, 0, 0), 30, replies);
    assert g.outcome == Booked(ten);
    assert g.events[|g.events| - 1] == CreateReservation(s, club, ten, 90);
    assert g.user == Some(Member("Sam", club)) && g.availability == [ten, quarterPast];
  }

  /** Requested 10:07: status 1 once the profile is loaded, availability never queried. */
  method RejectsOffGridTime()
  {
    var d := Date(2026, 10, 14);
    var replies := Replies(Some(Jwt("jwt")), Some(Session("cookie")), Member("Sam", Club("nl-42", "Centrum")),
                           [], [Poll([], false)], true);
    var g := new Gymtime("sam@example.org", "secret", d, Time(10, 7, 0), 30, replies);
    assert g.outcome == Failed(InvalidTime) && ExitCode(g.outcome) == Some(1);
    assert g.dateForBooking == None;
    assert |g.events| == 4;
  }

  /** Two open reservations already: status 1, availability never queried. */
  method RefusesAtLimit()
  {
    var d := Date(2026, 10, 14);
    var held := OpenReservation(DateTime(d, Time(8, 0, 0)), 90, "Centrum");
    var replies := Replies(Some(Jwt("jwt")), Some(Session("cookie")), Member("Sam", Club("nl-42", "Centrum")),
                           [held, held], [Poll([], false)], true);
    var g := new Gymtime("sam@example.org", "secret", d, Time(10, 0, 0), 30, replies);
    assert g.outcome == Failed(TooManyOpenReservations);
  }

  /** Requested 09:00; the first reply offers only 10:00, the second offers 09:00: booked on the second poll. */
  method BooksAfterOneRetry()
  {
    var d := Date(2026, 10, 14);
    var club := Club("nl-42", "Centrum");
    var ten := Slot(DateTime(d, Time(10, 0, 0)), 60, "policy-a");
    var nine := Slot(DateTime(d, Time(9, 0, 0)), 60, "policy-b");
    var polls := [Poll([ten], false), Poll([nine], false)];
    assert polls[1..] == [Poll([nine], false)];
    var replies := Replies(Some(Jwt("jwt")), Some(Session("cookie")), Member("Sam", club), [], polls, true);
    var g := new Gymtime("sam@example.org", "secret", d, Time(9, 0, 0), 30, replies);
    SkipRetries(Context(Session("cookie"), Member("Sam", club), DateTime(d, Time(9, 0, 0)), 30), polls, true, 1);
    assert g.outcome == Booked(nine);
    assert g.events[5] == Sleep(30);
  }

  /** An interrupt during the first wait ends the run with status 0. */
  method CancelsDuringWait()
  {
    var d := Date(2026, 10, 14);
    var ten := Slot(DateTime(d, Time(10, 0, 0)), 60, "policy-a");
    var replies := Replies(Some(Jwt("jwt")), Some(Session("cookie")), Member("Sam", Club("nl-42", "Centrum")),
                           [], [Poll([ten], true)], true);
    var g := new Gymtime("sam@example.org", "secret", d, Time(9, 0, 0), 30, replies);
    assert g.outcome == Cancelled && ExitCode(g.outcome) == Some(0);
  }
}
