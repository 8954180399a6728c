/** How attempts end, which error a request reports, whose data it holds, and when its queue is released. */
module SessionOutcomes {
  import opened Common
  import opened SessionSpec
  import opened SessionSafety

  // ---------------------------------------------------------------------------------------------
  // The error that is reported
  // ---------------------------------------------------------------------------------------------

  /** What check `i` of `x` finds before any error is recorded. */
  function Finding(x: Req, i: nat, response: Response): Option<Error>
    requires i < |x.checks|
  {
    x.checks[i](response, x.data)
  }

  /** `e` is the earlier error of `x`, else the finding of the first failing check, else the transport error. */
  ghost predicate FirstError(x: Req, transport: Option<Error>, response: Option<Response>, e: Option<Error>) {
    if x.error.Some? then e == x.error
    else if response.Some? && exists i: nat :: i < |x.checks| && Finding(x, i, response.value).Some? then
      exists i: nat :: i < |x.checks| && Finding(x, i, response.value).Some? && e == Finding(x, i, response.value)
                       && forall j: nat :: j < i ==> Finding(x, j, response.value).None?
    else e == transport
  }

  /** Running the first `n` checks records the finding of the first of them that fails. */
  lemma {:induction false} ChecksRecordFirst(x: Req, n: nat, response: Response)
    requires n <= |x.checks| && x.error.None?
    ensures var e := ApplyChecks(x, n, Some(response)).error;
            && (e.None? ==> forall i: nat :: i < n ==> Finding(x, i, response).None?)
            && (e.Some? ==> exists i: nat :: i < n && e == Finding(x, i, response)
                              && forall j: nat :: j < i ==> Finding(x, j, response).None?)
  {
    if n > 0 {
      ChecksRecordFirst(x, n - 1, response);
      var before := ApplyChecks(x, n - 1, Some(response));
      if before.error.None? {
        assert ApplyChecks(x, n, Some(response)).error == Finding(x, n - 1, response);
      }
    }
  }

  lemma {:induction false} ChecksNeedResponse(x: Req, n: nat, response: Option<Response>)
    requires n <= |x.checks| && (response.None? || x.error.Some?)
    ensures ApplyChecks(x, n, response) == x
  {
    if n > 0 {
      ChecksNeedResponse(x, n - 1, response);
    }
  }

  /** The error with which a completed task goes on, to the retrier or to the response handlers. */
  function FinalError(x: Req, transport: Option<Error>, response: Option<Response>): Option<Error> {
    var checked := ApplyChecks(x, |x.checks|, response);
    if checked.error.Some? then checked.error else transport
  }

  /** First error wins: nothing else is ever the error of a completed attempt. */
  lemma FirstErrorWins(x: Req, transport: Option<Error>, response: Option<Response>, e: Option<Error>)
    ensures FirstError(x, transport, response, e) <==> e == FinalError(x, transport, response)
  {
    if x.error.Some? || response.None? {
      ChecksNeedResponse(x, |x.checks|, response);
    } else {
      ChecksRecordFirst(x, |x.checks|, response.value);
      var found := ApplyChecks(x, |x.checks|, response).error;
      if found.Some? {
        var i: nat :| i < |x.checks| && found == Finding(x, i, response.value)
                      && forall j: nat :: j < i ==> Finding(x, j, response.value).None?;
        forall k: nat | k < |x.checks| && Finding(x, k, response.value).Some?
                        && forall j: nat :: j < k ==> Finding(x, j, response.value).None?
          ensures k == i
        {
          assert !(i < k) && !(k < i);
        }
      }
    }
  }

  // ---------------------------------------------------------------------------------------------
  // How an attempt ends
  // ---------------------------------------------------------------------------------------------

  /** The world at the end of a task, when its request's checks have run. */
  function Checked(w: World, id: TaskId, response: Option<Response>): World
    requires id in w.registry && w.registry[id] < |w.reqs|
  {
    var x := w.reqs[w.registry[id]];
    Update(w.(running := w.running - {id}), w.registry[id], ApplyChecks(x, |x.checks|, response))
  }

  lemma CheckedKeeps(w: World, id: TaskId, response: Option<Response>)
    requires Inv(w) && id in w.running
    ensures id in w.registry && w.registry[id] < |w.reqs|
    ensures var r, w1 := w.registry[id], Checked(w, id, response);
            && Core(w1) && Dangling(w1, id)
            && w1.reqs[r] == w.reqs[r].(error := w1.reqs[r].error) && w1.reqs[r].finishes == 0 && Registered(w1, r)
  {
    StopRunning(w, id);
    var r := w.registry[id];
    ErrorChangeKeeps(w.(running := w.running - {id}), r, ApplyChecks(w.reqs[r], |w.reqs[r].checks|, response).error);
    hide ApplyChecks, PendingExact, PendingUnique, Counted, Waits;
  }

  lemma CompletionIs(w: World, id: TaskId, error: Option<Error>, response: Option<Response>)
    requires id in w.registry && w.registry[id] < |w.reqs|
    ensures var r, w1 := w.registry[id], Checked(w, id, response);
            DidComplete(w, id, error, response) == Conclude(w1, r, id, FinalError(w.reqs[r], error, response))
  {
    hide ApplyChecks, Conclude;
  }

  /** When a task completes, either its request finishes with the first error, or the retrier is consulted once
      about it, the entry stays, and the response handlers keep waiting. */
  lemma CompletionOutcome(w: World, id: TaskId, error: Option<Error>, response: Option<Response>)
    requires Inv(w) && id in w.running
    ensures var w' := Step(w, Complete(id, error, response));
            var r := w.registry[id];
            var final := FinalError(w.reqs[r], error, response);
            && |w'.reqs| == |w.reqs| && id !in w'.running
            && if w.config.retrier && final.Some? then
                 && Registered(w', r) && w'.registry == w.registry
                 && w'.pending == w.pending[w.nextTicket := Consultation(r, Some(id), final.value, false)]
                 && w'.reqs[r].suspended == w.reqs[r].suspended && w'.reqs[r].finishes == 0
               else
                 && !Live(w', r) && w'.registry == w.registry - {id} && w'.pending == w.pending
                 && !w'.reqs[r].suspended && w'.reqs[r].finishes == 1 && w'.reqs[r].error == final
  {
    CheckedKeeps(w, id, response);
    CompletionIs(w, id, error, response);
    var r, w1 := w.registry[id], Checked(w, id, response);
    var final := FinalError(w.reqs[r], error, response);
    assert Step(w, Complete(id, error, response)) == Conclude(w1, r, id, final);
    if !(w.config.retrier && final.Some?) {
      FinishKeeps(w1, id, final);
    }
    hide DidComplete, Step, ApplyChecks, Inv, Waits, About, Core;
  }

  lemma RetryGoesOn(w: World, k: nat, id: TaskId)
    requires Inv(w) && Enabled(w, Retry(k, Success(id))) && w.reqs[w.pending[k].req].convertible
    ensures var w' := Step(w, Retry(k, Success(id)));
            var c := w.pending[k];
            && !Consulted(w', c.req) && Live(w', c.req) && id in w'.running
            && (forall i :: i in w'.registry && w'.registry[i] == c.req <==> i == id)
            && w'.reqs[c.req] == SetTask(w.reqs[c.req], id).(retryCount := w.reqs[c.req].retryCount + 1)
            && w'.reqs[c.req].finishes == 0
  {
    var w0, c := w.(pending := w.pending - {k}), w.pending[k];
    TakeOffReady(w, k);
    assert Step(w, Retry(k, Success(id))) == RetryRequest(w0, c, Success(id));
    RetryKeeps(w0, c, id);
    EnteredOnce(RetryRequest(w0, c, Success(id)), c.req, id);
    hide Inv, RetryRequest, Step, TakenOff, About;
  }

  /** A registered request is registered under its task alone, and not finished. */
  lemma EnteredOnce(w: World, r: nat, id: TaskId)
    requires Inv(w) && Registered(w, r) && w.reqs[r].task == Some(id)
    ensures (forall i :: i in w.registry && w.registry[i] == r <==> i == id) && w.reqs[r].finishes == 0
  {
    hide Attended, PendingExact, PendingUnique, Counted;
    assert w.owner[id] == w.registry[id];
  }

  lemma RetryEnds(w: World, k: nat, made: Result<TaskId, Error>)
    requires Inv(w) && Enabled(w, Retry(k, made)) && !(w.reqs[w.pending[k].req].convertible && made.Success?)
    ensures var w' := Step(w, Retry(k, made));
            var c := w.pending[k];
            var x, x' := w.reqs[c.req], w'.reqs[c.req];
            && !Live(w', c.req)
            && (c.task.Some? ==>
                  && x'.finishes == 1 && !x'.suspended && x'.retryCount == x.retryCount
                  && x'.error == if x.convertible then Some(made.error) else if x.error.Some? then x.error else Some(c.error))
            && (c.task.None? ==> x'.suspended == (x.suspended && !w.config.startImmediately))
  {
    var w0, c := w.(pending := w.pending - {k}), w.pending[k];
    TakeOffReady(w, k);
    var w1 := if w.reqs[c.req].convertible then Update(w0, c.req, w0.reqs[c.req].(error := Some(made.error))) else w0;
    assert Step(w, Retry(k, made)) == GiveUp(w1, c);
    if w.reqs[c.req].convertible { ErrorChangeReady(w0, c, made.error); }
    TaskNotFinished(w, k);
    hide Inv, GiveUp, RetryRequest, Step, TakenOff, Live;
    GiveUpKeeps(w1, c);
  }

  lemma ErrorChangeReady(w: World, c: Consultation, error: Error)
    requires TakenOff(w, c)
    ensures TakenOff(Update(w, c.req, w.reqs[c.req].(error := Some(error))), c)
  {
    ErrorChangeKeeps(w, c.req, Some(error));
    hide Core, Waits, About;
  }

  lemma TaskNotFinished(w: World, k: nat)
    requires Inv(w) && k in w.pending
    ensures w.pending[k].req < |w.reqs| && w.reqs[w.pending[k].req].finishes == 0
  {
    hide Attended, Waits, PendingUnique, Counted;
  }

  /** An accepted retry makes exactly one attempt more, under its new task alone, if the request can be made again
      and the new task can be created; otherwise the request is over. A request that had a task then reports the
      failure to make the new one, else what it recorded before, else the error the retrier was asked about. */
  lemma RetryOutcome(w: World, k: nat, made: Result<TaskId, Error>)
    requires Inv(w) && Enabled(w, Retry(k, made))
    ensures var w' := Step(w, Retry(k, made));
            var c := w.pending[k];
            var x, x' := w.reqs[c.req], w'.reqs[c.req];
            && !Consulted(w', c.req)
            && (Live(w', c.req) <==> x.convertible && made.Success?)
            && (Live(w', c.req) ==>
                  && (forall id :: id in w'.registry && w'.registry[id] == c.req <==> id == made.value)
                  && made.value in w'.running && x'.retryCount == x.retryCount + 1
                  && x'.error.None? && x'.data == [] && x'.finishes == 0)
            && (!Live(w', c.req) && c.task.Some? ==>
                  && x'.finishes == 1 && !x'.suspended && x'.retryCount == x.retryCount
                  && x'.error == if x.convertible then Some(made.error) else if x.error.Some? then x.error else Some(c.error))
            && (!Live(w', c.req) && c.task.None? ==> x'.suspended == (x.suspended && !w.config.startImmediately))
  {
    hide Step, Inv, Live, About;
    if w.reqs[w.pending[k].req].convertible && made.Success? {
      RetryGoesOn(w, k, made.value);
    } else {
      RetryEnds(w, k, made);
      OverIsNotAsked(Step(w, Retry(k, made)), w.pending[k].req);
    }
  }

  lemma OverIsNotAsked(w: World, r: nat)
    requires !Live(w, r)
    ensures !Consulted(w, r)
  {
  }

  // ---------------------------------------------------------------------------------------------
  // What one event changes
  // ---------------------------------------------------------------------------------------------

  /** The request that an event is about; the new one, if it is about none that exists. */
  function Subject(w: World, e: Event): nat
    requires Enabled(w, e)
  {
    match e
    case Request(_) | RequestFailed(_, _, _) => |w.reqs|
    case Validate(r, _) => r
    case Resume(r) => r
    case Chunk(id, _) => if id in w.registry then w.registry[id] else |w.reqs|
    case Complete(id, _, _) => if id in w.registry then w.registry[id] else |w.reqs|
    case Answer(k, _) => w.pending[k].req
    case Retry(k, _) => w.pending[k].req
  }

  /** A new attempt is made. */
  predicate Renews(w: World, e: Event)
    requires Enabled(w, e)
  {
    e.Retry? && e.made.Success? && w.reqs[w.pending[e.ticket].req].convertible
  }

  /** The event brings no data or validation, and begins no attempt. */
  predicate LetsBe(w: World, e: Event)
    requires Enabled(w, e)
  {
    !e.Request? && !e.RequestFailed? && !e.Validate? && !e.Chunk? && !Renews(w, e)
  }

  /** Still the same attempt, with the same data and validations; a released queue stays released. */
  ghost predicate Continues(x: Req, x': Req) {
    && x'.task == x.task && x'.data == x.data && (x'.suspended ==> x.suspended)
    && x'.convertible == x.convertible && x'.checks == x.checks && x'.retryCount == x.retryCount
  }

  /** Only request `r` changes, and goes on with its attempt or ends it. */
  ghost predicate SameAttempts(w: World, w': World, r: nat) {
    && |w'.reqs| == |w.reqs| && w'.owner == w.owner
    && (forall s :: 0 <= s < |w.reqs| && s != r ==> w'.reqs[s] == w.reqs[s])
    && (r < |w.reqs| ==> Continues(w.reqs[r], w'.reqs[r]))
    && w'.registry.Keys <= w.registry.Keys
  }

  lemma CompleteTaskSame(w: World, id: TaskId, error: Option<Error>, r: nat)
    requires id in w.registry && w.registry[id] < |w.reqs| ==> w.registry[id] == r
    ensures SameAttempts(w, CompleteTask(w, id, error), r)
  {
  }

  lemma GiveUpSame(w: World, c: Consultation)
    requires c.req < |w.reqs|
    requires c.task.Some? && c.task.value in w.registry ==> w.registry[c.task.value] == c.req
    ensures SameAttempts(w, GiveUp(w, c), c.req)
  {
    hide CompleteTask;
    if c.task.Some? {
      CompleteTaskSame(w, c.task.value, Some(c.error), c.req);
    }
  }

  lemma DidCompleteSame(w: World, id: TaskId, error: Option<Error>, response: Option<Response>)
    requires id in w.registry && w.registry[id] < |w.reqs|
    ensures SameAttempts(w, DidComplete(w, id, error, response), w.registry[id])
  {
    var r := w.registry[id];
    var x := ApplyChecks(w.reqs[r], |w.reqs[r].checks|, response);
    var w1 := Update(w.(running := w.running - {id}), r, x);
    assert SameAttempts(w, w1, r) by { hide CompleteTask, ApplyChecks; }
    ConcludeSame(w1, r, id, if x.error.Some? then x.error else error);
    hide Conclude, ApplyChecks;
  }

  lemma ConcludeSame(w: World, r: nat, id: TaskId, final: Option<Error>)
    requires id in w.registry && w.registry[id] == r
    ensures SameAttempts(w, Conclude(w, r, id, final), r)
  {
    CompleteTaskSame(w, id, final, r);
    hide CompleteTask;
  }

  lemma RetryFailsSame(w: World, c: Consultation, made: Result<TaskId, Error>)
    requires c.req < |w.reqs| && !(w.reqs[c.req].convertible && made.Success?)
    requires c.task.Some? && c.task.value in w.registry ==> w.registry[c.task.value] == c.req
    ensures SameAttempts(w, RetryRequest(w, c, made), c.req)
  {
    hide GiveUp;
    if !w.reqs[c.req].convertible {
      GiveUpSame(w, c);
    } else {
      GiveUpSame(Update(w, c.req, w.reqs[c.req].(error := Some(made.error))), c);
    }
  }

  /** The task that a consultation is about is registered for the request that the consultation is about. */
  lemma ConsultedEntry(w: World, k: nat)
    requires RegistryExact(w) && OwnersExact(w) && PendingExact(w) && k in w.pending
    ensures var c := w.pending[k];
            c.task.Some? && c.task.value in w.registry ==> w.registry[c.task.value] == c.req
  {
    if w.pending[k].task.Some? {
      var id := w.pending[k].task.value;
      assert id in w.owner && w.owner[id] == w.pending[k].req;
      if id in w.registry {
        assert w.owner[id] == w.registry[id];
      }
    }
  }

  lemma AnswerSame(w: World, k: nat, retry: bool)
    requires RegistryExact(w) && OwnersExact(w) && PendingExact(w) && Enabled(w, Answer(k, retry))
    ensures SameAttempts(w, Step(w, Answer(k, retry)), w.pending[k].req)
  {
    ConsultedEntry(w, k);
    GiveUpSame(w.(pending := w.pending - {k}), w.pending[k]);
    hide GiveUp, RegistryExact, OwnersExact, PendingExact;
  }

  lemma FailedRetrySame(w: World, k: nat, made: Result<TaskId, Error>)
    requires RegistryExact(w) && OwnersExact(w) && PendingExact(w)
    requires Enabled(w, Retry(k, made)) && !Renews(w, Retry(k, made))
    ensures SameAttempts(w, Step(w, Retry(k, made)), w.pending[k].req)
  {
    ConsultedEntry(w, k);
    RetryFailsSame(w.(pending := w.pending - {k}), w.pending[k], made);
    hide RetryRequest, RegistryExact, OwnersExact, PendingExact;
  }

  /** Unless it brings data or a validation, or begins an attempt, an event lets all attempts be. */
  lemma StepSame(w: World, e: Event)
    requires RegistryExact(w) && OwnersExact(w) && PendingExact(w) && Enabled(w, e) && LetsBe(w, e)
    ensures SameAttempts(w, Step(w, e), Subject(w, e))
  {
    match e
    case Complete(id, error, response) =>
      assert id in w.registry && w.registry[id] < |w.reqs|;
      DidCompleteSame(w, id, error, response);
      hide DidComplete;
      assert SameAttempts(w, Step(w, e), w.registry[id]);
    case Answer(k, retry) =>
      hide Step;
      AnswerSame(w, k, retry);
    case Retry(k, made) =>
      hide Step;
      FailedRetrySame(w, k, made);
    case Resume(r) =>
      assert SameAttempts(w, Step(w, e), r);
  }

  /** No request but the one that it is about is changed by an event. */
  lemma OthersUntouched(w: World, e: Event, r: nat)
    requires RegistryExact(w) && OwnersExact(w) && PendingExact(w) && Enabled(w, e)
    requires r < |w.reqs| && r != Subject(w, e)
    ensures Step(w, e).reqs[r] == w.reqs[r]
  {
    if e.Request? || e.RequestFailed? {
      hide DidComplete, GiveUp, RetryRequest;
      assert Step(w, e).reqs[r] == w.reqs[r];
    } else if !LetsBe(w, e) {
      hide DidComplete, GiveUp;
    } else {
      StepSame(w, e);
      hide Step;
    }
  }

  /** Only its answer or its retry ends a consultation. */
  predicate Ends(e: Event, k: nat) {
    (e == Answer(k, false)) || (e.Retry? && e.ticket == k)
  }

  /** The same question to the retrier, answered or not. */
  predicate SameQuestion(c: Consultation, c': Consultation) {
    c'.req == c.req && c'.task == c.task && c'.error == c.error
  }

  /** The question that an event puts to the retrier: about the new request, or about the final error of the one whose
      task completed. */
  function Asked(w: World, e: Event): Option<Consultation> {
    match e
    case RequestFailed(_, cause, adapting) =>
      if w.config.retrier && adapting then Some(Consultation(|w.reqs|, None, cause, false)) else None
    case Complete(id, error, response) =>
      if id in w.registry && w.registry[id] < |w.reqs| then
        var final := FinalError(w.reqs[w.registry[id]], error, response);
        if w.config.retrier && final.Some? then Some(Consultation(w.registry[id], Some(id), final.value, false)) else None
      else None
    case _ => None
  }

  lemma CompletionPending(w: World, id: TaskId, error: Option<Error>, response: Option<Response>)
    ensures var asked := Asked(w, Complete(id, error, response));
            DidComplete(w, id, error, response).pending
            == if asked.Some? then w.pending[w.nextTicket := asked.value] else w.pending
  {
    if id in w.registry && w.registry[id] < |w.reqs| {
      CompletionIs(w, id, error, response);
    }
    hide CompleteTask, FinalError, ApplyChecks;
  }

  /** A consultation goes on until its end, and only what is asked becomes one. */
  lemma PendingStep(w: World, e: Event, k: nat)
    requires Enabled(w, e)
    ensures k in Step(w, e).pending ==>
              var c := Step(w, e).pending[k];
              || (k in w.pending && SameQuestion(w.pending[k], c) && !Ends(e, k))
              || (k == w.nextTicket && Asked(w, e) == Some(c))
    ensures k in w.pending && k < w.nextTicket && !Ends(e, k) ==>
              k in Step(w, e).pending && SameQuestion(w.pending[k], Step(w, e).pending[k])
  {
    if e.Complete? {
      CompletionPending(w, e.task, e.error, e.response);
    }
    hide GiveUp, RetryRequest, DidComplete, DidReceive, ResumeRequest, FinalError;
  }

  // ---------------------------------------------------------------------------------------------
  // Whose data a request holds
  // ---------------------------------------------------------------------------------------------

  ghost predicate Current(w: World, id: TaskId) {
    id in w.owner && w.owner[id] < |w.reqs| && w.reqs[w.owner[id]].task == Some(id)
  }

  ghost function DataOf(w: World, id: TaskId): Bytes {
    if Current(w, id) then w.reqs[w.owner[id]].data else []
  }

  /** All that task `id` delivers in a run. */
  function Delivered(events: seq<Event>, id: TaskId): Bytes {
    if events == [] then []
    else (if events[0].Chunk? && events[0].task == id then events[0].data else []) + Delivered(events[1..], id)
  }

  /** Data of a superseded task change nothing, whenever they come. */
  lemma SupersededNeverReaches(w: World, id: TaskId, data: Bytes)
    requires Inv(w) && !Current(w, id)
    ensures DidReceive(w, id, data) == w
  {
  }

  lemma SameData(w: World, w': World, r: nat, id: TaskId)
    requires SameAttempts(w, w', r)
    ensures Current(w', id) == Current(w, id) && DataOf(w', id) == DataOf(w, id)
  {
  }

  lemma ChunkData(w: World, task: TaskId, data: Bytes, id: TaskId)
    requires RegistryExact(w) && OwnersExact(w) && Attended(w) && task in w.running
    ensures var w' := DidReceive(w, task, data);
            && Current(w', id) == Current(w, id)
            && (Current(w, id) ==> DataOf(w', id) == DataOf(w, id) + if task == id then data else [])
  {
    hide Attended;
  }

  /** A request that begins has no data yet, and the others keep theirs. */
  lemma NewData(w: World, e: Event, id: TaskId)
    requires OwnersExact(w) && Enabled(w, e) && !LetsBe(w, e) && !e.Chunk?
    requires Current(Step(w, e), id)
    ensures (Current(w, id) || id !in w.owner) && DataOf(Step(w, e), id) == DataOf(w, id)
  {
    hide GiveUp;
  }

  /** In one step, a current task was current or unheard of before, and its data grow by what it delivers. */
  lemma StepData(w: World, e: Event, id: TaskId)
    requires Inv(w) && Enabled(w, e) && Current(Step(w, e), id)
    ensures Current(w, id) || id !in w.owner
    ensures DataOf(Step(w, e), id) == DataOf(w, id) + Delivered([e], id)
  {
    DeliveredOne(e, id);
    if e.Chunk? {
      ChunkData(w, e.task, e.data, id);
      assert Step(w, e) == DidReceive(w, e.task, e.data);
      hide *;
    } else if !LetsBe(w, e) {
      hide Step, Current, DataOf, Delivered, Inv;
      NewData(w, e, id);
    } else {
      hide Step, Current, DataOf, Delivered;
      StepSame(w, e);
      SameData(w, Step(w, e), Subject(w, e), id);
    }
  }

  lemma DeliveredOne(e: Event, id: TaskId)
    ensures Delivered([e], id) == if e.Chunk? && e.task == id then e.data else []
  {
    assert Delivered([], id) == [];
  }

  lemma {:induction false} RunData(w: World, events: seq<Event>, id: TaskId)
    requires Inv(w) && Legal(w, events) && Current(Exec(w, events), id)
    ensures Current(w, id) || id !in w.owner
    ensures DataOf(Exec(w, events), id) == DataOf(w, id) + Delivered(events, id)
    decreases |events|
  {
    if events != [] {
      var w1 := Step(w, events[0]);
      StepKeeps(w, events[0]);
      DeliveredOne(events[0], id);
      assert Delivered([events[0]], id) + Delivered(events[1..], id) == Delivered(events, id);
      hide Inv, Current, DataOf, Delivered, Step;
      RunData(w1, events[1..], id);
      StepDataOrLater(w, events[0], id);
      Assoc(DataOf(w, id), Delivered([events[0]], id), Delivered(events[1..], id));
    }
  }

  /** A step that leaves a task unheard of delivers nothing of it. */
  lemma StepDataOrLater(w: World, e: Event, id: TaskId)
    requires Inv(w) && Enabled(w, e)
    requires Current(Step(w, e), id) || id !in Step(w, e).owner
    ensures Current(w, id) || id !in w.owner
    ensures DataOf(Step(w, e), id) == DataOf(w, id) + Delivered([e], id)
  {
    if Current(Step(w, e), id) {
      StepData(w, e, id);
    } else {
      DeliveredToOwner(w, e, id);
    }
  }

  /** Data come from tasks that have an owner. */
  lemma DeliveredToOwner(w: World, e: Event, id: TaskId)
    requires RegistryExact(w) && OwnersExact(w) && Enabled(w, e) && id !in w.owner
    ensures Delivered([e], id) == []
  {
    DeliveredOne(e, id);
  }

  /** Data belong to the last attempt only: over every run, the data of a request are what its current task has
      delivered, in order; the byte count and the progress are their size. */
  lemma DataOfLastAttempt(config: Config, events: seq<Event>, r: nat)
    requires Legal(Start(config), events) && r < |Exec(Start(config), events).reqs|
    ensures var x := Exec(Start(config), events).reqs[r];
            && (x.task.Some? ==> x.data == Delivered(events, x.task.value))
            && x.received == x.completed == |x.data|
  {
    var w := Exec(Start(config), events);
    RunsKeep(Start(config), events);
    var x := w.reqs[r];
    if x.task.Some? {
      RunData(Start(config), events, x.task.value);
    }
  }

  // ---------------------------------------------------------------------------------------------
  // When the queue of response handlers is released
  // ---------------------------------------------------------------------------------------------

  /** No response handler can run while an attempt is under way or may still be made. */
  ghost predicate NoneEarly(w: World) {
    forall r: nat :: r < |w.reqs| && Live(w, r) ==> w.reqs[r].suspended
  }

  /** `resume()` on a request without task about which the retrier is being consulted. */
  ghost predicate EarlyResume(w: World, e: Event) {
    e.Resume? && e.req < |w.reqs| && w.reqs[e.req].task.None? && Consulted(w, e.req)
  }

  lemma RegisteredBefore(w: World, e: Event, r: nat)
    requires RegistryExact(w) && OwnersExact(w) && PendingExact(w) && Enabled(w, e)
    requires r < |w.reqs| && Registered(Step(w, e), r)
    ensures Live(w, r)
  {
    if Renews(w, e) && w.pending[e.ticket].req == r {
      assert Consulted(w, r);
    } else if !LetsBe(w, e) {
      RegisteredByOther(w, e, r);
    } else {
      StepSame(w, e);
      hide Step;
    }
  }

  /** An event that begins an attempt or brings data enters no other request that exists. */
  lemma RegisteredByOther(w: World, e: Event, r: nat)
    requires OwnersExact(w) && Enabled(w, e)
    requires !LetsBe(w, e) && (Renews(w, e) ==> w.pending[e.ticket].req != r)
    requires r < |w.reqs| && Registered(Step(w, e), r)
    ensures Registered(w, r)
  {
    hide DidComplete, GiveUp;
  }

  lemma ConsultedBefore(w: World, e: Event, r: nat)
    requires RegistryExact(w) && Enabled(w, e) && r < |w.reqs| && Consulted(Step(w, e), r)
    ensures Live(w, r)
  {
    var k :| k in Step(w, e).pending && Step(w, e).pending[k].req == r;
    PendingStep(w, e, k);
    hide Step;
    assert k in w.pending && w.pending[k].req == r ==> Consulted(w, r);
  }

  /** What a step makes live was live before, or is new and suspended. */
  lemma LiveBefore(w: World, e: Event, r: nat)
    requires Inv(w) && Enabled(w, e) && r < |Step(w, e).reqs| && Live(Step(w, e), r)
    ensures r < |w.reqs| ==> Live(w, r)
  {
    hide Step;
    if r < |w.reqs| {
      if Registered(Step(w, e), r) {
        RegisteredBefore(w, e, r);
      } else {
        ConsultedBefore(w, e, r);
      }
    }
  }

  /** A new request that is live is suspended. */
  lemma NewIsHeld(w: World, e: Event, r: nat)
    requires PendingExact(w) && Enabled(w, e) && |w.reqs| <= r < |Step(w, e).reqs| && Live(Step(w, e), r)
    ensures Step(w, e).reqs[r].suspended
  {
    hide DidComplete, GiveUp, RetryRequest, DidReceive;
  }

  lemma OverAfterGivingUp(w: World, e: Event)
    requires Inv(w) && Enabled(w, e)
    requires e.Answer? || e.Retry?
    ensures var w' := Step(w, e);
            var c := w.pending[e.ticket];
            Live(w', c.req) ==> w'.reqs[c.req].suspended == w.reqs[c.req].suspended
  {
    match e
    case Answer(k, retry) =>
      if !retry {
        TakeOff(w, k);
        GiveUpKeeps(w.(pending := w.pending - {k}), w.pending[k]);
      }
    case Retry(k, made) =>
      RetryOutcome(w, k, made);
  }

  /** A step releases the queue of a live request exactly when it is such a `resume()`. */
  lemma StepHeld(w: World, e: Event)
    requires Inv(w) && Enabled(w, e) && NoneEarly(w)
    ensures NoneEarly(Step(w, e)) <==> !EarlyResume(w, e)
  {
    var w' := Step(w, e);
    if EarlyResume(w, e) {
      assert Consulted(w', e.req) && !w'.reqs[e.req].suspended;
    } else {
      forall r: nat | r < |w'.reqs| && Live(w', r) ensures w'.reqs[r].suspended {
        if r < |w.reqs| {
          LiveBefore(w, e, r);
          StepHeldOne(w, e, r);
        } else {
          NewIsHeld(w, e, r);
        }
      }
    }
  }

  /** Nothing but completions, the retrier's answers and `resume()` releases a queue. */
  lemma QuietStep(w: World, e: Event, r: nat)
    requires Enabled(w, e) && !EarlyResume(w, e) && !e.Complete? && !e.Answer? && !e.Retry?
    requires r < |w.reqs| && Live(w, r)
    ensures Step(w, e).reqs[r].suspended == w.reqs[r].suspended
  {
    hide DidComplete, GiveUp, RetryRequest, About;
  }

  lemma StepHeldOne(w: World, e: Event, r: nat)
    requires Inv(w) && Enabled(w, e) && !EarlyResume(w, e)
    requires r < |w.reqs| && Live(w, r) && Live(Step(w, e), r) && w.reqs[r].suspended
    ensures Step(w, e).reqs[r].suspended
  {
    if r != Subject(w, e) {
      OthersUntouched(w, e, r);
    } else {
      match e
      case Complete(id, error, response) => CompletionOutcome(w, id, error, response);
      case Answer(k, retry) => hide Step; OverAfterGivingUp(w, e);
      case Retry(k, made) => hide Step; OverAfterGivingUp(w, e);
      case _ => hide Step; QuietStep(w, e, r);
    }
  }

  ghost predicate AlwaysHeld(w: World, events: seq<Event>)
    requires Legal(w, events)
    decreases |events|
  {
    NoneEarly(w) && (events != [] ==> AlwaysHeld(Step(w, events[0]), events[1..]))
  }

  ghost predicate SomeEarlyResume(w: World, events: seq<Event>)
    requires Legal(w, events)
    decreases |events|
  {
    events != [] && (EarlyResume(w, events[0]) || SomeEarlyResume(Step(w, events[0]), events[1..]))
  }

  /** Over every run, response handlers wait for the end of the last attempt if and only if nobody calls
      `resume()` on a request without task while the retrier is being consulted about it. */
  lemma {:induction false} HeldUntilTheEnd(w: World, events: seq<Event>)
    requires Inv(w) && NoneEarly(w) && Legal(w, events)
    ensures AlwaysHeld(w, events) <==> !SomeEarlyResume(w, events)
    decreases |events|
  {
    if events != [] {
      StepKeeps(w, events[0]);
      StepHeld(w, events[0]);
      if NoneEarly(Step(w, events[0])) {
        HeldUntilTheEnd(Step(w, events[0]), events[1..]);
      }
    }
  }

  /** With requests started immediately, no request that is over keeps its response handlers waiting. */
  ghost predicate OverReleased(w: World) {
    forall r: nat :: r < |w.reqs| && !Live(w, r) ==> !w.reqs[r].suspended
  }

  lemma ConsultationStays(w: World, e: Event, k: nat)
    requires PendingExact(w) && Enabled(w, e) && k in w.pending
    ensures Ends(e, k) || Consulted(Step(w, e), w.pending[k].req)
  {
    PendingStep(w, e, k);
    hide Step;
  }

  lemma TasklessStep(w: World, e: Event, r: nat)
    requires Inv(w) && Enabled(w, e) && w.config.startImmediately && r < |w.reqs| && w.reqs[r].task.None?
    requires Consulted(w, r) && !Consulted(Step(w, e), r)
    ensures Step(w, e).reqs[r].task.Some? || !Step(w, e).reqs[r].suspended
  {
    var k :| k in w.pending && w.pending[k].req == r;
    ConsultationStays(w, e, k);
    if e.Answer? {
      TakeOff(w, k);
      GiveUpKeeps(w.(pending := w.pending - {k}), w.pending[k]);
    } else {
      RetryOutcome(w, k, e.made);
    }
  }

  /** A new request without task is released unless the retrier is consulted about it. */
  lemma NewIsReleased(w: World, e: Event, r: nat)
    requires Enabled(w, e) && w.config.startImmediately && |w.reqs| <= r < |Step(w, e).reqs|
    requires Step(w, e).reqs[r].task.None? && !Consulted(Step(w, e), r)
    ensures !Step(w, e).reqs[r].suspended
  {
    hide DidComplete, GiveUp, RetryRequest, DidReceive;
    if w.nextTicket in Step(w, e).pending {
      assert Step(w, e).pending[w.nextTicket].req != r;
    }
  }

  /** A request that never had a task is released at once, by a `resume()`, or at the end of its consultation. */
  lemma TasklessReleased(w: World, e: Event, r: nat)
    requires Inv(w) && Enabled(w, e) && w.config.startImmediately
    requires r < |Step(w, e).reqs| && Step(w, e).reqs[r].task.None? && !Consulted(Step(w, e), r)
    requires r < |w.reqs| && !Consulted(w, r) ==> !w.reqs[r].suspended
    ensures !Step(w, e).reqs[r].suspended
  {
    hide Step, About;
    if r >= |w.reqs| {
      NewIsReleased(w, e, r);
    } else {
      Stays(w, e, r);
      if Consulted(w, r) {
        TasklessStep(w, e, r);
      }
    }
  }

  /** A request that has had a task keeps one, and a queue that is released stays released. */
  lemma Stays(w: World, e: Event, r: nat)
    requires RegistryExact(w) && OwnersExact(w) && PendingExact(w) && Enabled(w, e) && r < |w.reqs|
    ensures w.reqs[r].task.Some? ==> Step(w, e).reqs[r].task.Some?
    ensures !w.reqs[r].suspended ==> !Step(w, e).reqs[r].suspended
  {
    if r != Subject(w, e) {
      hide Step;
      OthersUntouched(w, e, r);
    } else if !LetsBe(w, e) {
      hide DidComplete, GiveUp;
    } else {
      StepSame(w, e);
      hide Step;
    }
  }

  lemma OverIsReleasedStep(w: World, e: Event)
    requires Inv(w) && OverReleased(w) && w.config.startImmediately && Enabled(w, e)
    ensures OverReleased(Step(w, e))
  {
    var w' := Step(w, e);
    StepKeeps(w, e);
    hide Step;
    forall r: nat | r < |w'.reqs| && !Live(w', r) ensures !w'.reqs[r].suspended {
      if w'.reqs[r].task.None? {
        if r < |w.reqs| {
          Stays(w, e, r);
        }
        TasklessReleased(w, e, r);
      }
    }
  }

  lemma ConfigStays(w: World, e: Event)
    requires Enabled(w, e)
    ensures Step(w, e).config == w.config
  {
    hide ApplyChecks;
  }

  lemma {:induction false} OverIsReleased(w: World, events: seq<Event>)
    requires Inv(w) && OverReleased(w) && w.config.startImmediately && Legal(w, events)
    ensures OverReleased(Exec(w, events))
    decreases |events|
  {
    if events != [] {
      StepKeeps(w, events[0]);
      ConfigStays(w, events[0]);
      OverIsReleasedStep(w, events[0]);
      hide Step, OverReleased, Inv;
      OverIsReleased(Step(w, events[0]), events[1..]);
    }
  }

  /** An error can be replaced: the attempt fails with `cause`, the retry is accepted, and its task cannot be made. */
  lemma ReplacedErrorHappens(id: TaskId, cause: Error, failure: Error)
    ensures var w := Start(Config(true, true));
            var events := [Request(id), Complete(id, Some(cause), None), Answer(0, true), Retry(0, Failure(failure))];
            && Legal(w, events) && |Exec(w, events).reqs| == 1
            && Exec(w, events).reqs[0].error == Some(failure) && Exec(w, events).reqs[0].finishes == 1
  {
    var w := Start(Config(true, true));
    var w1 := Step(w, Request(id));
    var w2 := Step(w1, Complete(id, Some(cause), None));
    assert w2.pending[0] == Consultation(0, Some(id), cause, false);
    var w3 := Step(w2, Answer(0, true));
    var w4 := Step(w3, Retry(0, Failure(failure)));
    ExecOne(w3, Retry(0, Failure(failure)), []);
    ExecOne(w2, Answer(0, true), [Retry(0, Failure(failure))]);
    ExecOne(w1, Complete(id, Some(cause), None), [Answer(0, true), Retry(0, Failure(failure))]);
    ExecOne(w, Request(id), [Complete(id, Some(cause), None), Answer(0, true), Retry(0, Failure(failure))]);
    assert Exec(w4, []) == w4;
  }

  lemma ExecOne(w: World, e: Event, rest: seq<Event>)
    requires Enabled(w, e) && Legal(Step(w, e), rest)
    ensures Legal(w, [e] + rest) && Exec(w, [e] + rest) == Exec(Step(w, e), rest)
  {
    assert ([e] + rest)[1..] == rest;
  }

  /** Such a run exists: adapting the request fails, and the caller resumes it before the retrier has answered. */
  lemma EarlyReleaseHappens(cause: Error)
    ensures var w := Start(Config(true, true));
            var events := [RequestFailed(true, cause, true), Resume(0)];
            Inv(w) && NoneEarly(w) && Legal(w, events) && !AlwaysHeld(w, events)
  {
    var w := Start(Config(true, true));
    var events := [RequestFailed(true, cause, true), Resume(0)];
    var w1 := Step(w, events[0]);
    assert w1.pending[0].req == 0;
    assert events[1..] == [Resume(0)];
    assert Legal(w1, events[1..]) by { assert events[1..][1..] == []; }
    HeldUntilTheEnd(w, events);
    assert EarlyResume(w1, events[1]);
    assert SomeEarlyResume(w1, events[1..]);
  }
}
