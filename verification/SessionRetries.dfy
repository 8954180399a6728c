/** What comes of an accepted retry, and what belongs to a request through all its attempts. */
module SessionRetries {
  import opened Common
  import opened SessionSpec
  import opened SessionSafety
  import opened SessionOutcomes
  import opened SessionErrors

  // ---------------------------------------------------------------------------------------------
  // Acceptance
  // ---------------------------------------------------------------------------------------------

  /** Every accepting answer is recorded, however often the request has been retried: the same question is pending as
      answered, its retry can take place with any failure and any fresh task, and nothing else has changed. */
  lemma AcceptanceIsRecorded(w: World, k: nat, made: Result<TaskId, Error>)
    requires Inv(w) && Enabled(w, Answer(k, true))
    ensures var w' := Step(w, Answer(k, true));
            && k in w'.pending && w'.pending[k].answered && SameQuestion(w.pending[k], w'.pending[k])
            && w'.pending - {k} == w.pending - {k} && w' == w.(pending := w'.pending)
            && (made.Failure? || made.value !in w.owner ==> Enabled(w', Retry(k, made)))
  {
    var w' := Step(w, Answer(k, true));
    assert w'.pending - {k} == w.pending - {k};
    hide Inv;
  }

  /** What one event does to whether consultation `k` has been answered. */
  lemma StepAnswers(w: World, e: Event, k: nat)
    requires PendingExact(w) && Enabled(w, e) && k in Step(w, e).pending
    ensures Step(w, e).pending[k].answered <==> (k in w.pending && w.pending[k].answered) || e == Answer(k, true)
  {
    if e.Complete? {
      CompletionPending(w, e.task, e.error, e.response);
    }
    hide GiveUp, RetryRequest, DidComplete, DidReceive, ResumeRequest, FinalError;
  }

  lemma TicketsGrow(w: World, e: Event)
    requires Enabled(w, e)
    ensures Step(w, e).nextTicket >= w.nextTicket
    ensures forall k :: k in Step(w, e).pending ==> k in w.pending || k >= w.nextTicket
  {
    hide ApplyChecks;
  }

  /** A ticket that is not pending any more never is again. */
  lemma {:induction false} SpentForGood(w: World, events: seq<Event>, k: nat)
    requires Legal(w, events) && k !in w.pending && k < w.nextTicket
    ensures k !in Exec(w, events).pending
    decreases |events|
  {
    if events != [] {
      TicketsGrow(w, events[0]);
      hide Step;
      SpentForGood(Step(w, events[0]), events[1..], k);
    }
  }

  /** Over all runs a pending consultation has been answered if and only if an accepting answer to it has come. */
  lemma {:induction false} RunAnswers(w: World, events: seq<Event>, k: nat)
    requires Inv(w) && Legal(w, events) && k in Exec(w, events).pending
    ensures Exec(w, events).pending[k].answered
       <==> (k in w.pending && w.pending[k].answered) || Answer(k, true) in events
    decreases |events|
  {
    if events != [] {
      var e, rest := events[0], events[1..];
      var w1 := Step(w, e);
      assert events == [e] + rest;
      StepKeeps(w, e);
      PendingBelow(w, k);
      if k in w1.pending {
        StepAnswers(w, e, k);
        RunAnswers(w1, rest, k);
      } else {
        TicketsGrow(w, e);
        hide Step, Inv;
        if k in w.pending {
          SpentForGood(w1, rest, k);
          assert false;
        }
        AnswerNeedsPending(e, w, k);
        RunAnswers(w1, rest, k);
      }
    }
  }

  lemma PendingBelow(w: World, k: nat)
    requires Inv(w)
    ensures k in w.pending ==> k < w.nextTicket
  {
  }

  lemma AnswerNeedsPending(e: Event, w: World, k: nat)
    requires Enabled(w, e) && k !in w.pending
    ensures e != Answer(k, true)
  {
  }

  // ---------------------------------------------------------------------------------------------
  // What belongs to the request
  // ---------------------------------------------------------------------------------------------

  /** Whether the `r`-th request of a run can be made again: always when it got its task, else as it says. */
  function MadeConvertible(e: Event): seq<bool> {
    match e
    case Request(_) => [true]
    case RequestFailed(convertible, _, _) => [convertible]
    case _ => []
  }

  function Convertibles(events: seq<Event>): seq<bool> {
    if events == [] then [] else MadeConvertible(events[0]) + Convertibles(events[1..])
  }

  ghost predicate SameConvertibles(w: World, convertibles: seq<bool>) {
    |w.reqs| == |convertibles| && forall r :: 0 <= r < |w.reqs| ==> w.reqs[r].convertible == convertibles[r]
  }

  lemma StepConvertibles(w: World, e: Event, before: seq<bool>)
    requires Inv(w) && Enabled(w, e) && SameConvertibles(w, before)
    ensures SameConvertibles(Step(w, e), before + MadeConvertible(e))
  {
    var w' := Step(w, e);
    RequestsGrow(w, e);
    forall r: nat | r < |w.reqs| ensures w'.reqs[r].convertible == before[r] {
      SettingsStay(w, e, r);
    }
    hide Step, Inv;
  }

  lemma RequestsGrow(w: World, e: Event)
    requires Enabled(w, e)
    ensures |Step(w, e).reqs| == |w.reqs| + |MadeConvertible(e)|
    ensures MadeConvertible(e) != [] ==> Step(w, e).reqs[|w.reqs|].convertible == MadeConvertible(e)[0]
    ensures MadeConvertible(e) != [] ==> Step(w, e).reqs[|w.reqs|].retryCount == 0
  {
    hide DidComplete, GiveUp, RetryRequest, DidReceive;
  }

  /** Over all runs each request keeps for good whether it can be made again. */
  lemma {:induction false} RunConvertibles(w: World, events: seq<Event>, before: seq<bool>)
    requires Inv(w) && Legal(w, events) && SameConvertibles(w, before)
    ensures SameConvertibles(Exec(w, events), before + Convertibles(events))
    decreases |events|
  {
    if events == [] {
      assert before + [] == before;
    } else {
      StepKeeps(w, events[0]);
      StepConvertibles(w, events[0], before);
      hide Step, Inv, SameConvertibles;
      RunConvertibles(Step(w, events[0]), events[1..], before + MadeConvertible(events[0]));
      Assoc(before, MadeConvertible(events[0]), Convertibles(events[1..]));
    }
  }

  /** The retries of request `r` that take place in a run. */
  ghost function Retries(w: World, events: seq<Event>, r: nat): nat
    requires Legal(w, events)
    decreases |events|
  {
    if events == [] then 0
    else
      (if Renews(w, events[0]) && w.pending[events[0].ticket].req == r then 1 else 0)
      + Retries(Step(w, events[0]), events[1..], r)
  }

  function RetryCount(w: World, r: nat): nat {
    if r < |w.reqs| then w.reqs[r].retryCount else 0
  }

  lemma RetryCountOf(w: World, e: Event)
    requires Enabled(w, e) && !LetsBe(w, e) && Subject(w, e) < |w.reqs|
    ensures Step(w, e).reqs[Subject(w, e)].retryCount
            == w.reqs[Subject(w, e)].retryCount + if Renews(w, e) then 1 else 0
  {
    hide DidComplete, GiveUp;
  }

  lemma StepRetryCount(w: World, e: Event, r: nat)
    requires Inv(w) && Enabled(w, e)
    ensures RetryCount(Step(w, e), r)
            == RetryCount(w, r) + if Renews(w, e) && w.pending[e.ticket].req == r then 1 else 0
  {
    if r >= |w.reqs| {
      RequestsGrow(w, e);
      assert Renews(w, e) ==> w.pending[e.ticket].req < |w.reqs|;
      hide Step, Inv;
    } else if r != Subject(w, e) {
      OthersUntouched(w, e, r);
      hide Step, Inv;
    } else if LetsBe(w, e) {
      StepSame(w, e);
      hide Step, Inv;
    } else {
      RetryCountOf(w, e);
      hide Step, Inv;
    }
  }

  /** Over all runs the retry count of a request is the number of its retries that have taken place. */
  lemma {:induction false} RunRetryCount(w: World, events: seq<Event>, r: nat)
    requires Inv(w) && Legal(w, events)
    ensures RetryCount(Exec(w, events), r) == RetryCount(w, r) + Retries(w, events, r)
    decreases |events|
  {
    if events != [] {
      StepKeeps(w, events[0]);
      StepRetryCount(w, events[0], r);
      hide Step, Inv, RetryCount, Renews;
      RunRetryCount(Step(w, events[0]), events[1..], r);
    }
  }

  // ---------------------------------------------------------------------------------------------
  // A request without task that is over
  // ---------------------------------------------------------------------------------------------

  /** A request that failed before it got a task, and about which the retrier is not asked, is released at once if and
      only if requests start immediately. */
  lemma FailedIsHeld(w: World, convertible: bool, cause: Error, adapting: bool)
    requires Inv(w) && !(w.config.retrier && adapting)
    ensures var w' := Step(w, RequestFailed(convertible, cause, adapting));
            && Reported(w', |w.reqs|, None, Some(cause))
            && (w'.reqs[|w.reqs|].suspended <==> !w.config.startImmediately)
  {
    FailedNow(w, convertible, cause, adapting);
    hide Inv, Reported;
  }

  /** Once such a request is over, however that came about, only `resume()` releases it. */
  lemma {:induction false} OnlyResumeReleases(w: World, events: seq<Event>, r: nat, error: Option<Error>)
    requires Inv(w) && Legal(w, events) && Reported(w, r, None, error)
    ensures Reported(Exec(w, events), r, None, error)
    ensures Exec(w, events).reqs[r].suspended <==> w.reqs[r].suspended && Resume(r) !in events
    decreases |events|
  {
    if events != [] {
      var e, rest := events[0], events[1..];
      assert events == [e] + rest;
      StepKeeps(w, e);
      ReportedStays(w, e, r, None, error);
      OverStep(w, e, r, error);
      hide Step, Inv, Reported;
      OnlyResumeReleases(Step(w, e), rest, r, error);
    }
  }

  lemma OverStep(w: World, e: Event, r: nat, error: Option<Error>)
    requires Inv(w) && Enabled(w, e) && Reported(w, r, None, error)
    ensures r < |w.reqs| && (Step(w, e).reqs[r].suspended <==> w.reqs[r].suspended && e != Resume(r))
  {
    hide About, Attended, Counted, PendingUnique;
    if r != Subject(w, e) {
      OthersUntouched(w, e, r);
      hide Step;
    } else {
      OverSubject(w, e, r);
      hide DidComplete, GiveUp, RetryRequest, DidReceive;
    }
  }
}
