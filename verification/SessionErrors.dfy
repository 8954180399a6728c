/** Which error a request reports, over whole runs: whatever happens while the retrier is being asked. */
module SessionErrors {
  import opened Common
  import opened SessionSpec
  import opened SessionSafety
  import opened SessionOutcomes

  // ---------------------------------------------------------------------------------------------
  // The error of a request whose attempt is not over
  // ---------------------------------------------------------------------------------------------

  /** What a request may have recorded while the retrier is asked about it: what it is asked about, or, when that came
      from the transport, nothing yet. */
  predicate Fits(recorded: Option<Error>, c: Consultation) {
    recorded == Some(c.error) || (c.task.Some? && recorded.None?)
  }

  /** Running tasks belong to requests without error, and no other error than that in question is recorded. */
  ghost predicate ErrorsExact(w: World) {
    && (forall r: nat :: r < |w.reqs| && w.reqs[r].task.Some? && w.reqs[r].task.value in w.running ==>
          w.reqs[r].error.None?)
    && (forall k :: k in w.pending && w.pending[k].req < |w.reqs| ==>
          Fits(w.reqs[w.pending[k].req].error, w.pending[k]))
  }

  /** Only completions and ends of consultations change the error of a request. */
  lemma ErrorStays(w: World, e: Event, r: nat)
    requires RegistryExact(w) && OwnersExact(w) && PendingExact(w) && Enabled(w, e) && r < |w.reqs|
    requires r == Subject(w, e) ==> e.Validate? || e.Resume? || e.Chunk? || (e.Answer? && e.retry)
    ensures Step(w, e).reqs[r].error == w.reqs[r].error
  {
    if r != Subject(w, e) {
      hide Step;
      OthersUntouched(w, e, r);
    } else {
      hide DidComplete, GiveUp, RetryRequest;
    }
  }

  lemma RunningStep(w: World, e: Event, id: TaskId)
    requires Enabled(w, e) && id in Step(w, e).running
    ensures e.Complete? ==> id != e.task
    ensures id in w.running || (e.Request? && e.task == id) || (Renews(w, e) && e.made.value == id)
  {
    hide DidComplete, GiveUp, DidReceive, ResumeRequest;
  }

  lemma NewError(w: World, e: Event, r: nat)
    requires Enabled(w, e) && |w.reqs| <= r < |Step(w, e).reqs| && Step(w, e).reqs[r].task.Some?
    ensures Step(w, e).reqs[r].error.None?
  {
    hide DidComplete, GiveUp, RetryRequest, DidReceive;
  }

  lemma RenewedError(w: World, e: Event)
    requires Enabled(w, e) && Renews(w, e)
    ensures Step(w, e).reqs[Subject(w, e)].error.None?
  {
    hide GiveUp;
  }

  /** After an event a running task still belongs to a request without error. */
  lemma RunningHasNoError(w: World, e: Event, r: nat)
    requires Inv(w) && ErrorsExact(w) && Enabled(w, e)
    requires r < |Step(w, e).reqs| && Step(w, e).reqs[r].task.Some? && Step(w, e).reqs[r].task.value in Step(w, e).running
    ensures Step(w, e).reqs[r].error.None?
  {
    var id := Step(w, e).reqs[r].task.value;
    hide Attended, FinishesExact, Counted, PendingUnique;
    if r >= |w.reqs| {
      hide Step;
      NewError(w, e, r);
    } else if Renews(w, e) && r == Subject(w, e) {
      hide Step;
      RenewedError(w, e);
    } else {
      TaskUnchanged(w, e, r);
      RunningStep(w, e, id);
      hide Step;
      assert id in w.owner;
      if r == Subject(w, e) {
        StillRunning(w, e, id);
      }
      ErrorStays(w, e, r);
    }
  }

  lemma TaskUnchanged(w: World, e: Event, r: nat)
    requires RegistryExact(w) && OwnersExact(w) && PendingExact(w) && Enabled(w, e)
    requires r < |w.reqs| && (r == Subject(w, e) ==> !Renews(w, e))
    ensures Step(w, e).reqs[r].task == w.reqs[r].task
  {
    if r != Subject(w, e) {
      hide Step;
      OthersUntouched(w, e, r);
    } else if LetsBe(w, e) {
      StepSame(w, e);
      hide Step;
    } else {
      hide DidComplete, GiveUp, RetryRequest;
    }
  }

  /** What concerns a request whose task runs on is no end of an attempt. */
  lemma StillRunning(w: World, e: Event, id: TaskId)
    requires RegistryExact(w) && OwnersExact(w) && PendingExact(w) && Enabled(w, e)
    requires Subject(w, e) < |w.reqs| && w.reqs[Subject(w, e)].task == Some(id) && id in w.running
    requires e.Complete? ==> id != e.task
    ensures e.Validate? || e.Resume? || e.Chunk?
  {
  }

  /** The question that an event puts fits what the request has recorded by then. */
  lemma AskedFits(w: World, e: Event)
    requires Enabled(w, e) && Asked(w, e).Some?
    ensures var c := Asked(w, e).value;
            c.req < |Step(w, e).reqs| && Fits(Step(w, e).reqs[c.req].error, c)
  {
    if e.Complete? {
      CompletionIs(w, e.task, e.error, e.response);
      hide ApplyChecks, DidComplete, CompleteTask;
    }
  }

  /** A consultation that an event leaves pending still fits. */
  lemma PendingFits(w: World, e: Event, k: nat)
    requires Inv(w) && ErrorsExact(w) && Enabled(w, e)
    requires k in w.pending && k in Step(w, e).pending && SameQuestion(w.pending[k], Step(w, e).pending[k]) && !Ends(e, k)
    ensures w.pending[k].req < |w.reqs| && Fits(Step(w, e).reqs[w.pending[k].req].error, Step(w, e).pending[k])
  {
    var r := w.pending[k].req;
    hide Step, Attended, FinishesExact, Counted;
    if r == Subject(w, e) {
      ConsultedSubject(w, e, k);
    }
    ErrorStays(w, e, r);
  }

  /** What concerns a request about which the retrier is asked, without ending that, leaves its error alone. */
  lemma ConsultedSubject(w: World, e: Event, k: nat)
    requires RegistryExact(w) && OwnersExact(w) && PendingExact(w) && PendingUnique(w) && Enabled(w, e)
    requires k in w.pending && w.pending[k].req == Subject(w, e) && !Ends(e, k)
    ensures e.Validate? || e.Resume? || e.Chunk? || (e.Answer? && e.retry)
  {
  }

  lemma StepErrors(w: World, e: Event)
    requires Inv(w) && ErrorsExact(w) && Enabled(w, e)
    ensures ErrorsExact(Step(w, e))
  {
    var w' := Step(w, e);
    forall r: nat | r < |w'.reqs| && w'.reqs[r].task.Some? && w'.reqs[r].task.value in w'.running
      ensures w'.reqs[r].error.None?
    {
      RunningHasNoError(w, e, r);
    }
    forall k | k in w'.pending && w'.pending[k].req < |w'.reqs|
      ensures Fits(w'.reqs[w'.pending[k].req].error, w'.pending[k])
    {
      PendingStep(w, e, k);
      hide Step, Asked, Fits;
      if Asked(w, e) == Some(w'.pending[k]) {
        AskedFits(w, e);
      } else {
        PendingFits(w, e, k);
      }
    }
    hide Step;
  }

  lemma {:induction false} RunsKeepErrors(w: World, events: seq<Event>)
    requires Inv(w) && ErrorsExact(w) && Legal(w, events)
    ensures Inv(Exec(w, events)) && ErrorsExact(Exec(w, events))
    decreases |events|
  {
    if events != [] {
      hide Inv, ErrorsExact, Step;
      StepKeeps(w, events[0]);
      StepErrors(w, events[0]);
      RunsKeepErrors(Step(w, events[0]), events[1..]);
    }
  }

  // ---------------------------------------------------------------------------------------------
  // The error of a request that is over
  // ---------------------------------------------------------------------------------------------

  /** Request `r` is over for good and shows `error`; if it has had a task, the last one, its delegate has finished and
      its response handlers have been released. */
  ghost predicate Reported(w: World, r: nat, task: Option<TaskId>, error: Option<Error>) {
    && r < |w.reqs| && !Live(w, r) && w.reqs[r].task == task && w.reqs[r].error == error
    && (task.Some? ==> task.value !in w.registry && w.reqs[r].finishes == 1 && !w.reqs[r].suspended)
  }

  /** An event that is about a request that is over adds a validation, or resumes it. */
  lemma OverSubject(w: World, e: Event, r: nat)
    requires RegistryExact(w) && OwnersExact(w) && Enabled(w, e) && r < |w.reqs| && !Live(w, r) && r == Subject(w, e)
    ensures e.Validate? || e.Resume?
  {
  }

  /** Nothing changes what a request that is over reports. */
  lemma ReportedStays(w: World, e: Event, r: nat, task: Option<TaskId>, error: Option<Error>)
    requires Inv(w) && Enabled(w, e) && Reported(w, r, task, error)
    ensures Reported(Step(w, e), r, task, error)
  {
    StepKeeps(w, e);
    hide Step, About, Attended, Counted, PendingUnique;
    if r == Subject(w, e) {
      OverSubject(w, e, r);
    }
    ErrorStays(w, e, r);
    TaskUnchanged(w, e, r);
    if Live(Step(w, e), r) {
      LiveBefore(w, e, r);
    }
  }

  lemma {:induction false} ReportedForGood(w: World, events: seq<Event>, r: nat, task: Option<TaskId>, error: Option<Error>)
    requires Inv(w) && Legal(w, events) && Reported(w, r, task, error)
    ensures Reported(Exec(w, events), r, task, error)
    decreases |events|
  {
    if events != [] {
      hide Inv, Reported, Step;
      StepKeeps(w, events[0]);
      ReportedStays(w, events[0], r, task, error);
      ReportedForGood(Step(w, events[0]), events[1..], r, task, error);
    }
  }

  // ---------------------------------------------------------------------------------------------
  // The end of a consultation
  // ---------------------------------------------------------------------------------------------

  /** The event that ends consultation `k` in a run, if any does. */
  function FirstEnd(events: seq<Event>, k: nat): Option<Event> {
    if events == [] then None
    else if Ends(events[0], k) then Some(events[0])
    else FirstEnd(events[1..], k)
  }

  /** What a request shows once its consultation has ended as `end` says; none when a new attempt is made. */
  function ShownAfter(end: Event, c: Consultation, convertible: bool): Option<Error> {
    if end.Retry? && convertible then
      if end.made.Failure? then Some(end.made.error) else None
    else Some(c.error)
  }

  /** Without a retry the request shows the error that the retrier was asked about, whatever it has recorded. */
  lemma DeclineReports(w: World, k: nat)
    requires Inv(w) && ErrorsExact(w) && Enabled(w, Answer(k, false))
    ensures var c := w.pending[k];
            Reported(Step(w, Answer(k, false)), c.req, c.task, Some(c.error))
  {
    var w0, c := w.(pending := w.pending - {k}), w.pending[k];
    assert Fits(w.reqs[c.req].error, c);
    assert Step(w, Answer(k, false)) == GiveUp(w0, c);
    AnswerSame(w, k, false);
    hide GiveUp, Step, Core, Attended, About, Waits, Live;
    TakeOff(w, k);
    GiveUpKeeps(w0, c);
    OverIsReported(GiveUp(w0, c), c.req);
  }

  /** A request that is over and has had a task is finished and released. */
  lemma OverIsReported(w: World, r: nat)
    requires Inv(w) && r < |w.reqs| && !Live(w, r)
    ensures Reported(w, r, w.reqs[r].task, w.reqs[r].error)
  {
    hide About;
  }

  lemma RetryReports(w: World, k: nat, made: Result<TaskId, Error>)
    requires Inv(w) && ErrorsExact(w) && Enabled(w, Retry(k, made)) && !Renews(w, Retry(k, made))
    ensures var c := w.pending[k];
            Reported(Step(w, Retry(k, made)), c.req, c.task,
                     ShownAfter(Retry(k, made), c, w.reqs[c.req].convertible))
  {
    var c := w.pending[k];
    assert Fits(w.reqs[c.req].error, c) && c.req < |w.reqs| && c.task == w.reqs[c.req].task;
    RetryOutcome(w, k, made);
    EndOfConsultationKeeps(w, k, made);
    if c.task.None? { TasklessRetryError(w, k, made); }
    FailedRetrySame(w, k, made);
    OverIsReported(Step(w, Retry(k, made)), c.req);
    hide Step, Inv, Live, About, Consulted;
  }

  lemma TasklessRetryError(w: World, k: nat, made: Result<TaskId, Error>)
    requires Enabled(w, Retry(k, made)) && !Renews(w, Retry(k, made)) && w.pending[k].task.None?
    ensures var x := w.reqs[w.pending[k].req];
            Step(w, Retry(k, made)).reqs[w.pending[k].req].error == if x.convertible then Some(made.error) else x.error
  {
  }

  /** A retry leaves the old task behind. */
  lemma RenewedTask(w: World, k: nat, made: Result<TaskId, Error>, id: TaskId)
    requires Inv(w) && Enabled(w, Retry(k, made)) && Renews(w, Retry(k, made)) && w.pending[k].task == Some(id)
    ensures !Current(Step(w, Retry(k, made)), id) && id in w.owner
  {
    hide Attended, Waits, About, FinishesExact, Counted;
  }

  /** A task that is not current any more is never registered again. */
  lemma SupersededForGood(w: World, events: seq<Event>, id: TaskId)
    requires Inv(w) && Legal(w, events) && !Current(w, id) && id in w.owner
    ensures id !in Exec(w, events).registry
  {
    RunsKeep(w, events);
    var w' := Exec(w, events);
    if id in w'.registry {
      RegisteredIsCurrent(w', id);
      RunData(w, events, id);
    }
  }

  lemma RegisteredIsCurrent(w: World, id: TaskId)
    requires RegistryExact(w) && OwnersExact(w) && id in w.registry
    ensures Current(w, id)
  {
  }

  /** The consultation of request `r` about `error` has not ended; the request is not over. */
  ghost predicate StillAsking(w: World, k: nat, c: Consultation) {
    && k in w.pending && SameQuestion(c, w.pending[k])
    && c.req < |w.reqs| && w.reqs[c.req].task == c.task && Fits(w.reqs[c.req].error, c)
    && (c.task.Some? ==> Registered(w, c.req) && w.reqs[c.req].finishes == 0)
  }

  /** What a consultation comes to, whatever happens meanwhile and afterwards: as long as nothing ends it the same
      question stays open and nothing else is recorded; declined, the request is over for good and shows the error in
      question; accepted, it shows the failure to make the new task, or the old task is left behind. */
  ghost predicate EndsAs(w': World, k: nat, c: Consultation, convertible: bool, end: Option<Event>) {
    match end
    case None => StillAsking(w', k, c)
    case Some(e) =>
      if e.Retry? && e.made.Success? && convertible then c.task.Some? ==> c.task.value !in w'.registry
      else Reported(w', c.req, c.task, ShownAfter(e, c, convertible))
  }

  lemma ConsultationGoesOn(w: World, k: nat)
    requires Inv(w) && ErrorsExact(w) && k in w.pending
    ensures StillAsking(w, k, w.pending[k])
  {
  }

  lemma EndedNow(w: World, e: Event, k: nat, events: seq<Event>)
    requires Inv(w) && ErrorsExact(w) && k in w.pending && Enabled(w, e) && Ends(e, k) && Legal(Step(w, e), events)
    ensures var c := w.pending[k];
            c.req < |w.reqs| && EndsAs(Exec(Step(w, e), events), k, c, w.reqs[c.req].convertible, Some(e))
  {
    var c := w.pending[k];
    var w1 := Step(w, e);
    assert c.req < |w.reqs|;
    StepKeeps(w, e);
    hide Inv, ErrorsExact, Step, Exec, Legal, Reported, Enabled;
    if e.Answer? {
      DeclineReports(w, k);
      ReportedForGood(w1, events, c.req, c.task, Some(c.error));
    } else if Renews(w, e) {
      if c.task.Some? {
        RenewedTask(w, k, e.made, c.task.value);
        SupersededForGood(w1, events, c.task.value);
      }
    } else {
      RetryReports(w, k, e.made);
      ReportedForGood(w1, events, c.req, c.task, ShownAfter(e, c, w.reqs[c.req].convertible));
    }
  }

  lemma SettingsStay(w: World, e: Event, r: nat)
    requires RegistryExact(w) && OwnersExact(w) && PendingExact(w) && Enabled(w, e) && r < |w.reqs|
    ensures Step(w, e).reqs[r].convertible == w.reqs[r].convertible
    ensures Step(w, e).reqs[r].checks == w.reqs[r].checks + Added([e], r)
  {
    AddedOne(e, r);
    assert w.reqs[r].checks + [] == w.reqs[r].checks;
    hide Added;
    if r != Subject(w, e) {
      OthersUntouched(w, e, r);
      hide Step;
    } else if LetsBe(w, e) {
      StepSame(w, e);
      hide Step;
    } else {
      hide DidComplete, GiveUp;
    }
  }

  lemma {:induction false} ConsultationEnds(w: World, k: nat, events: seq<Event>)
    requires Inv(w) && ErrorsExact(w) && k in w.pending && Legal(w, events)
    ensures var c := w.pending[k];
            c.req < |w.reqs| && EndsAs(Exec(w, events), k, c, w.reqs[c.req].convertible, FirstEnd(events, k))
    decreases |events|
  {
    var c := w.pending[k];
    assert c.req < |w.reqs| && k < w.nextTicket;
    if events == [] {
      ConsultationGoesOn(w, k);
    } else {
      var e, rest := events[0], events[1..];
      if Ends(e, k) {
        EndedNow(w, e, k, rest);
      } else {
        StepKeeps(w, e);
        StepErrors(w, e);
        PendingStep(w, e, k);
        SettingsStay(w, e, c.req);
        hide Inv, ErrorsExact, Step, EndsAs;
        ConsultationEnds(Step(w, e), k, rest);
        SameEnd(Exec(w, events), k, c, Step(w, e).pending[k], w.reqs[c.req].convertible, FirstEnd(rest, k));
      }
    }
  }

  /** Whether it has been answered does not matter to how a consultation ends. */
  lemma SameEnd(w': World, k: nat, c: Consultation, c': Consultation, convertible: bool, end: Option<Event>)
    requires SameQuestion(c, c') && EndsAs(w', k, c', convertible, end)
    ensures EndsAs(w', k, c, convertible, end)
  {
  }

  // ---------------------------------------------------------------------------------------------
  // The order of the validations
  // ---------------------------------------------------------------------------------------------

  /** The validations that a run adds to request `r`, in order. */
  function Added(events: seq<Event>, r: nat): seq<Check> {
    if events == [] then []
    else (if events[0].Validate? && events[0].req == r then [events[0].check] else []) + Added(events[1..], r)
  }

  lemma AddedOne(e: Event, r: nat)
    ensures Added([e], r) == if e.Validate? && e.req == r then [e.check] else []
  {
    assert Added([], r) == [];
  }

  function ChecksOf(w: World, r: nat): seq<Check> {
    if r < |w.reqs| then w.reqs[r].checks else []
  }

  lemma StepChecks(w: World, e: Event, r: nat)
    requires Inv(w) && Enabled(w, e)
    ensures ChecksOf(Step(w, e), r) == ChecksOf(w, r) + Added([e], r)
  {
    if r < |w.reqs| {
      SettingsStay(w, e, r);
      hide Step;
    } else {
      AddedOne(e, r);
      hide Inv, DidComplete, GiveUp, RetryRequest, DidReceive;
    }
  }

  /** A request keeps all its validations, in the order in which they were added, through every attempt. */
  lemma {:induction false} RunChecks(w: World, events: seq<Event>, r: nat)
    requires Inv(w) && Legal(w, events)
    ensures ChecksOf(Exec(w, events), r) == ChecksOf(w, r) + Added(events, r)
    decreases |events|
  {
    if events == [] {
      assert ChecksOf(w, r) + [] == ChecksOf(w, r);
    } else {
      AddedOne(events[0], r);
      StepKeeps(w, events[0]);
      StepChecks(w, events[0], r);
      hide Inv, Step, ChecksOf;
      RunChecks(Step(w, events[0]), events[1..], r);
      Assoc(ChecksOf(w, r), Added([events[0]], r), Added(events[1..], r));
    }
  }

  /** Over all runs the validations of a request are those added to it, in order. */
  lemma ChecksInOrder(config: Config, events: seq<Event>, r: nat)
    requires Legal(Start(config), events) && r < |Exec(Start(config), events).reqs|
    ensures Exec(Start(config), events).reqs[r].checks == Added(events, r)
  {
    RunChecks(Start(config), events, r);
    assert ChecksOf(Start(config), r) + Added(events, r) == Added(events, r);
    hide Exec, Legal, Added;
  }

  // ---------------------------------------------------------------------------------------------
  // First error wins
  // ---------------------------------------------------------------------------------------------

  /** The first error of a completed task: what the first failing one of the request's validations finds in the data of
      this task, else the transport error. A run's request has no earlier error while its task runs. */
  lemma CompletedHasNoError(w: World, id: TaskId, transport: Option<Error>, response: Option<Response>)
    requires Inv(w) && ErrorsExact(w) && id in w.running
    ensures id in w.registry && w.registry[id] < |w.reqs|
    ensures var x := w.reqs[w.registry[id]];
            x.error.None? && x.task == Some(id) && FirstError(x, transport, response, FinalError(x, transport, response))
  {
    FirstErrorWins(w.reqs[w.registry[id]], transport, response, FinalError(w.reqs[w.registry[id]], transport, response));
    hide FirstError, FinalError, Attended, PendingExact, PendingUnique, FinishesExact, Counted;
  }

  lemma StartIsExact(config: Config)
    ensures Inv(Start(config)) && ErrorsExact(Start(config)) && Start(config).config == config
  {
  }

  lemma {:induction false} RunConfig(w: World, events: seq<Event>)
    requires Legal(w, events)
    ensures Exec(w, events).config == w.config
    decreases |events|
  {
    if events != [] {
      hide Step;
      ConfigStays(w, events[0]);
      RunConfig(Step(w, events[0]), events[1..]);
    }
  }

  /** First error wins, over all runs. Task `id` completes somewhere in a run. If the retrier is not asked, then from
      there on its request is over, unregistered and released, and reports the first error of that completion. If the
      retrier is asked, it is asked about that error; until it answers nothing else is recorded, and when it declines,
      whatever has happened meanwhile and whatever happens later, the request reports that same error. Only an
      accepted retry whose task cannot be made puts its failure in its place. */
  lemma FirstErrorIsReported(config: Config, before: seq<Event>, id: TaskId, transport: Option<Error>,
                             response: Option<Response>, after: seq<Event>)
    requires Legal(Start(config), before)
    requires var w := Exec(Start(config), before);
             id in w.running && Legal(Step(w, Complete(id, transport, response)), after)
    ensures var w := Exec(Start(config), before);
            id in w.registry && w.registry[id] < |w.reqs|
    ensures var w := Exec(Start(config), before);
            var w' := Exec(Step(w, Complete(id, transport, response)), after);
            var r := w.registry[id];
            var x := w.reqs[r];
            var final := FinalError(x, transport, response);
            && x.error.None? && FirstError(x, transport, response, final)
            && x.data == Delivered(before, id) && x.checks == Added(before, r)
            && if config.retrier && final.Some? then
                 EndsAs(w', w.nextTicket, Consultation(r, Some(id), final.value, false), x.convertible,
                        FirstEnd(after, w.nextTicket))
               else Reported(w', r, Some(id), final)
  {
    hide *;
    StartIsExact(config);
    RunsKeepErrors(Start(config), before);
    RunConfig(Start(config), before);
    var w := Exec(Start(config), before);
    CompletedHasNoError(w, id, transport, response);
    DataOfLastAttempt(config, before, w.registry[id]);
    ChecksInOrder(config, before, w.registry[id]);
    CompletionReports(w, id, transport, response, after);
  }

  lemma CompletionReports(w: World, id: TaskId, transport: Option<Error>, response: Option<Response>, after: seq<Event>)
    requires Inv(w) && ErrorsExact(w) && id in w.running && Legal(Step(w, Complete(id, transport, response)), after)
    ensures id in w.registry && w.registry[id] < |w.reqs|
    ensures var w' := Exec(Step(w, Complete(id, transport, response)), after);
            var r := w.registry[id];
            var final := FinalError(w.reqs[r], transport, response);
            if w.config.retrier && final.Some? then
              EndsAs(w', w.nextTicket, Consultation(r, Some(id), final.value, false), w.reqs[r].convertible,
                     FirstEnd(after, w.nextTicket))
            else Reported(w', r, Some(id), final)
  {
    CompletedHasNoError(w, id, transport, response);
    var e := Complete(id, transport, response);
    var r, w1 := w.registry[id], Step(w, e);
    var final := FinalError(w.reqs[r], transport, response);
    CompletionOutcome(w, id, transport, response);
    StepKeeps(w, e);
    StepErrors(w, e);
    SettingsStay(w, e, r);
    TaskUnchanged(w, e, r);
    hide FinalError, Inv, ErrorsExact, Step, EndsAs, Reported;
    if w.config.retrier && final.Some? {
      ConsultationEnds(w1, w.nextTicket, after);
    } else {
      OverIsReported(w1, r);
      ReportedForGood(w1, after, r, Some(id), final);
    }
  }

  /** A request that fails before it has a task shows the cause for good when the retrier is not asked; else that is
      what the retrier is asked about. */
  lemma FailedRequestReports(w: World, convertible: bool, cause: Error, adapting: bool, after: seq<Event>)
    requires Inv(w) && ErrorsExact(w) && Legal(Step(w, RequestFailed(convertible, cause, adapting)), after)
    ensures var w' := Exec(Step(w, RequestFailed(convertible, cause, adapting)), after);
            if w.config.retrier && adapting then
              EndsAs(w', w.nextTicket, Consultation(|w.reqs|, None, cause, false), convertible,
                     FirstEnd(after, w.nextTicket))
            else Reported(w', |w.reqs|, None, Some(cause))
  {
    var e := RequestFailed(convertible, cause, adapting);
    StepKeeps(w, e);
    StepErrors(w, e);
    FailedNow(w, convertible, cause, adapting);
    hide Inv, ErrorsExact, Step, EndsAs, Reported;
    if w.config.retrier && adapting {
      ConsultationEnds(Step(w, e), w.nextTicket, after);
    } else {
      ReportedForGood(Step(w, e), after, |w.reqs|, None, Some(cause));
    }
  }

  lemma FailedNow(w: World, convertible: bool, cause: Error, adapting: bool)
    requires Inv(w)
    ensures var w1 := Step(w, RequestFailed(convertible, cause, adapting));
            && |w1.reqs| == |w.reqs| + 1 && w1.reqs[|w.reqs|].convertible == convertible
            && if w.config.retrier && adapting then
                 w.nextTicket in w1.pending && w1.pending[w.nextTicket] == Consultation(|w.reqs|, None, cause, false)
               else Reported(w1, |w.reqs|, None, Some(cause))
  {
    AddTasklessKeeps(w, NewRequest(convertible, None, Some(cause)));
    hide Attended, Core;
  }
}
