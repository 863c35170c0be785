/**
  The retry as the source writes it: try_to_make_reservation calls
  retry_to_book_preferred_time, which calls try_to_make_reservation again, so
  every retry leaves two more frames on the interpreter's stack. Once the
  stack limit is reached the re-entry raises RecursionError, an ordinary
  exception that the handler of start_new_booking turns into exit status 1.
  The rest of the model uses the loop of BookingFlow.Polling instead.
 */
module RetryRecursion {
  import opened BasicFitApi
  import opened BookingFlow

  /**
    Polling by self-recursion: `depth` is the number of re-entries the
    interpreter's stack still admits.
   */
  function PollingAsWritten(c: Context, polls: seq<Poll>, createOk: bool, depth: nat): (t: Trace)
    decreases |polls|
  {
    if polls == [] then Trace(StillPolling, [])
    else match TryOnce(c, polls[0].slots, createOk)
      case Done(t) => t
      case NoMatch(e) =>
        if polls[0].interrupted then Trace(Cancelled, e + [Sleep(c.interval)])
        else if depth == 0 then Trace(Failed(RecursionLimit), e + [Sleep(c.interval)])
        else
          var rest := PollingAsWritten(c, polls[1..], createOk, depth - 1);
          Trace(rest.outcome, e + [Sleep(c.interval)] + rest.events)
  }

  /** While the stack has room for every retry, the recursion behaves exactly like the loop. */
  lemma {:induction false} AsWrittenAgreesWithinDepth(c: Context, polls: seq<Poll>, createOk: bool, depth: nat)
    requires DecisivePoll(polls, c.at.time) <= depth
    ensures PollingAsWritten(c, polls, createOk, depth) == Polling(c, polls, createOk)
    decreases |polls|
  {
    if polls != [] && Retries(polls[0], c.at.time) {
      AsWrittenAgreesWithinDepth(c, polls[1..], createOk, depth - 1);
    }
  }

  /** More consecutive unmatched replies than the stack admits end the as-written run with status 1. */
  lemma {:induction false} AsWrittenFailsBeyondDepth(c: Context, polls: seq<Poll>, createOk: bool, depth: nat)
    requires depth < |polls|
    requires forall j :: 0 <= j <= depth ==> Retries(polls[j], c.at.time)
    ensures PollingAsWritten(c, polls, createOk, depth).outcome == Failed(RecursionLimit)
    ensures ExitCode(PollingAsWritten(c, polls, createOk, depth).outcome) == Some(1)
    decreases depth
  {
    assert Retries(polls[0], c.at.time);
    if depth > 0 {
      AsWrittenFailsBeyondDepth(c, polls[1..], createOk, depth - 1);
    }
  }

  /**
    For every stack depth there is a run the source loses: `depth + 1`
    replies that offer only another time, then a reply offering the
    requested time. The loop books that slot; the recursion exits with status 1.
   */
  lemma RecursionLimitDefeatsRetry(c: Context, depth: nat, miss: Slot, hit: Slot)
    requires miss.start.time != c.at.time && hit.start.time == c.at.time
    ensures var polls := seq(depth + 1, _ => Poll([miss], false)) + [Poll([hit], false)];
      && PollingAsWritten(c, polls, true, depth).outcome == Failed(RecursionLimit)
      && Polling(c, polls, true).outcome == Booked(hit)
  {
    var polls := seq(depth + 1, _ => Poll([miss], false)) + [Poll([hit], false)];
    assert forall j :: 0 <= j <= depth ==> polls[j] == Poll([miss], false);
    AsWrittenFailsBeyondDepth(c, polls, true, depth);
    SkipRetries(c, polls, true, depth + 1);
    assert polls[depth + 1..] == [Poll([hit], false)];
  }
}
