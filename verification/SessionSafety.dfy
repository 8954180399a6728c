/** What every run of a session keeps. */
module SessionSafety {
  import opened Common
  import opened SessionSpec

  /** Each entry leads from a task to the request whose current task it is. */
  ghost predicate RegistryExact(w: World) {
    forall id :: id in w.registry ==>
      w.registry[id] < |w.reqs| && w.reqs[w.registry[id]].task == Some(id)
  }

  ghost predicate OwnersExact(w: World) {
    && (forall id :: id in w.owner ==> w.owner[id] < |w.reqs|)
    && (forall r: nat :: r < |w.reqs| && w.reqs[r].task.Some? ==>
          w.reqs[r].task.value in w.owner && w.owner[w.reqs[r].task.value] == r)
    && (forall id :: id in w.running ==> id in w.registry)
  }

  /** A consultation is about the current task of its request, which is registered and no longer runs. */
  ghost predicate PendingExact(w: World) {
    forall k :: k in w.pending ==>
      var c := w.pending[k];
      && k < w.nextTicket
      && c.req < |w.reqs|
      && c.task == w.reqs[c.req].task
      && (c.task.Some? ==> c.task.value in w.registry && c.task.value !in w.running)
  }

  /** No request is consulted about twice at a time. */
  ghost predicate PendingUnique(w: World) {
    forall k, k' :: k in w.pending && k' in w.pending && w.pending[k].req == w.pending[k'].req ==> k == k'
  }

  /** Some consultation is about task `id`. */
  ghost predicate Waits(pending: map<nat, Consultation>, id: TaskId) {
    exists k :: k in pending && pending[k].task == Some(id)
  }

  /** Some consultation is about request `r`. */
  ghost predicate About(pending: map<nat, Consultation>, r: nat) {
    exists k :: k in pending && pending[k].req == r
  }

  /** A registered task runs or is waiting for the retrier. */
  ghost predicate Attended(w: World) {
    forall id :: id in w.registry ==> id in w.running || Waits(w.pending, id)
  }

  ghost predicate Entered(registry: map<TaskId, nat>, x: Req) {
    x.task.Some? && x.task.value in registry
  }

  ghost predicate Registered(w: World, r: nat) {
    r < |w.reqs| && Entered(w.registry, w.reqs[r])
  }

  ghost predicate Consulted(w: World, r: nat) {
    About(w.pending, r)
  }

  /** An attempt is under way or may still be made. */
  ghost predicate Live(w: World, r: nat) {
    Registered(w, r) || Consulted(w, r)
  }

  /** A delegate finishes at most once, not before its request is over, and then its queue is released. */
  ghost predicate FinishesExact(w: World) {
    forall r: nat :: r < |w.reqs| ==>
      var x := w.reqs[r];
      && (x.task.None? || Entered(w.registry, x) ==> x.finishes == 0)
      && (x.task.Some? && !Entered(w.registry, x) ==> x.finishes == 1 && !x.suspended)
  }

  /** The counters are the size of the data. */
  ghost predicate Counted(w: World) {
    forall r: nat :: r < |w.reqs| ==> |w.reqs[r].data| == w.reqs[r].received == w.reqs[r].completed
  }

  ghost predicate Core(w: World) {
    && RegistryExact(w) && OwnersExact(w) && PendingExact(w) && PendingUnique(w)
    && FinishesExact(w) && Counted(w)
  }

  ghost predicate Inv(w: World) {
    Core(w) && Attended(w)
  }

  /** Task `id` is registered, but nothing attends to it any more. */
  ghost predicate Dangling(w: World, id: TaskId) {
    && id in w.registry && id !in w.running
    && !Waits(w.pending, id)
    && (forall i :: i in w.registry && i != id ==> i in w.running || Waits(w.pending, i))
  }

  /** A new consultation makes its task wait, and no other. */
  lemma PendingAdded(pending: map<nat, Consultation>, k: nat, c: Consultation)
    requires k !in pending
    ensures forall id :: Waits(pending[k := c], id) <==> Waits(pending, id) || c.task == Some(id)
    ensures forall r :: About(pending[k := c], r) <==> About(pending, r) || c.req == r
  {
    var pending' := pending[k := c];
    assert pending'[k] == c;
    forall id ensures Waits(pending', id) <==> Waits(pending, id) || c.task == Some(id) {
      if Waits(pending, id) {
        var j :| j in pending && pending[j].task == Some(id);
        assert pending'[j].task == Some(id);
      }
    }
    forall r ensures About(pending', r) <==> About(pending, r) || c.req == r {
      if About(pending, r) {
        var j :| j in pending && pending[j].req == r;
        assert pending'[j].req == r;
      }
    }
  }

  /** An end of a consultation leaves the others waiting. */
  lemma PendingRemoved(pending: map<nat, Consultation>, k: nat)
    requires k in pending
    ensures forall id :: Waits(pending - {k}, id) ==> Waits(pending, id)
    ensures forall id :: Waits(pending, id) && pending[k].task != Some(id) ==> Waits(pending - {k}, id)
    ensures forall r :: About(pending - {k}, r) ==> About(pending, r)
    ensures forall r :: About(pending, r) && pending[k].req != r ==> About(pending - {k}, r)
  {
    forall id | Waits(pending, id) && pending[k].task != Some(id) ensures Waits(pending - {k}, id) {
      var j :| j in pending && pending[j].task == Some(id);
      assert j in pending - {k};
    }
    forall r | About(pending, r) && pending[k].req != r ensures About(pending - {k}, r) {
      var j :| j in pending && pending[j].req == r;
      assert j in pending - {k};
    }
  }

  /** An answer changes neither the task nor the request of a consultation. */
  lemma PendingAnswered(pending: map<nat, Consultation>, k: nat)
    requires k in pending
    ensures var pending' := pending[k := pending[k].(answered := true)];
            && (forall id :: Waits(pending', id) <==> Waits(pending, id))
            && (forall r :: About(pending', r) <==> About(pending, r))
  {
    var pending' := pending[k := pending[k].(answered := true)];
    forall id ensures Waits(pending', id) <==> Waits(pending, id) {
      if Waits(pending, id) {
        var j :| j in pending && pending[j].task == Some(id);
        assert pending'[j].task == Some(id);
      }
    }
    forall r ensures About(pending', r) <==> About(pending, r) {
      if About(pending, r) {
        var j :| j in pending && pending[j].req == r;
        assert pending'[j].req == r;
      }
    }
  }

  /** Finishing a dangling task restores the invariant: its request is over, released and told its error. */
  lemma FinishKeeps(w: World, id: TaskId, error: Option<Error>)
    requires Core(w) && Dangling(w, id)
    ensures var w' := CompleteTask(w, id, error);
            var r := w.registry[id];
            && Inv(w') && !Live(w', r) && id !in w'.registry
            && |w'.reqs| == |w.reqs| && w'.reqs[r] == Finish(w.reqs[r], error)
  {
    var w' := CompleteTask(w, id, error);
    var r := w.registry[id];
    assert !Consulted(w', r);
  }

  /** Consulting the retrier about a dangling task restores the invariant and keeps the entry. */
  lemma ConsultKeeps(w: World, id: TaskId, error: Error)
    requires Core(w) && Dangling(w, id)
    ensures Inv(Consult(w, Consultation(w.registry[id], Some(id), error, false)))
  {
    var c := Consultation(w.registry[id], Some(id), error, false);
    PendingAdded(w.pending, w.nextTicket, c);
    hide Waits;
    assert Core(Consult(w, c));
  }

  /** Changing only the error or the checks of a request does not matter to the invariant. */
  lemma ErrorChangeKeeps(w: World, r: nat, error: Option<Error>)
    requires Core(w) && r < |w.reqs|
    ensures Core(Update(w, r, w.reqs[r].(error := error)))
  {
  }

  lemma StopRunning(w: World, id: TaskId)
    requires Inv(w) && id in w.running
    ensures var w' := w.(running := w.running - {id});
            Core(w') && Dangling(w', id)
  {
  }

  /** A completed task either waits for the retrier or finishes its request. */
  lemma DidCompleteKeeps(w: World, id: TaskId, error: Option<Error>, response: Option<Response>)
    requires Inv(w) && id in w.running
    ensures Inv(DidComplete(w, id, error, response))
  {
    StopRunning(w, id);
    var w0 := w.(running := w.running - {id});
    var r := w.registry[id];
    var x := ApplyChecks(w.reqs[r], |w.reqs[r].checks|, response);
    ErrorChangeKeeps(w0, r, x.error);
    var w1 := Update(w0, r, x);
    assert Dangling(w1, id);
    var final := if x.error.Some? then x.error else error;
    if w.config.retrier && final.Some? {
      ConsultKeeps(w1, id, final.value);
    } else {
      FinishKeeps(w1, id, final);
    }
  }

  /** Once its consultation is taken off the list, a task is dangling; a request without task leaves nothing. */
  lemma TakeOff(w: World, k: nat)
    requires Inv(w) && k in w.pending
    ensures var w' := w.(pending := w.pending - {k});
            var c := w.pending[k];
            && Core(w') && !Consulted(w', c.req)
            && (c.task.Some? ==> Dangling(w', c.task.value) && w.registry[c.task.value] == c.req)
            && (c.task.None? ==> Attended(w') && w.reqs[c.req].task.None?)
  {
    PendingRemoved(w.pending, k);
    TakenOffAlone(w, k);
    hide Waits, About;
    assert Core(w.(pending := w.pending - {k}));
  }

  /** No other consultation is about the same request or task. */
  lemma TakenOffAlone(w: World, k: nat)
    requires OwnersExact(w) && PendingExact(w) && PendingUnique(w) && k in w.pending
    ensures var c := w.pending[k];
            && !About(w.pending - {k}, c.req)
            && (c.task.Some? ==> !Waits(w.pending - {k}, c.task.value))
  {
  }

  /** Nothing dangles for a consultation that has been taken off, apart from its own task. */
  ghost predicate TakenOff(w: World, c: Consultation) {
    && Core(w) && c.req < |w.reqs| && !Consulted(w, c.req)
    && c.task == w.reqs[c.req].task
    && (c.task.Some? ==> Dangling(w, c.task.value) && w.registry[c.task.value] == c.req)
    && (c.task.None? ==> Attended(w))
  }

  lemma TakeOffReady(w: World, k: nat)
    requires Inv(w) && k in w.pending
    ensures var w', c := w.(pending := w.pending - {k}), w.pending[k];
            TakenOff(w', c) && c.req < |w.reqs| && c.task == w.reqs[c.req].task
  {
    TakeOff(w, k);
    hide Attended, Core, Dangling, Consulted;
    assert w.pending[k].req < |w.reqs| && w.pending[k].task == w.reqs[w.pending[k].req].task by { PendingAbout(w, k); }
  }

  lemma PendingAbout(w: World, k: nat)
    requires Inv(w) && k in w.pending
    ensures var c := w.pending[k]; c.req < |w.reqs| && c.task == w.reqs[c.req].task
  {
  }

  /** Giving up ends the request: it is not live any more, and a request that had a task is finished. */
  lemma GiveUpKeeps(w: World, c: Consultation)
    requires TakenOff(w, c)
    ensures var w' := GiveUp(w, c);
            && Inv(w') && !Live(w', c.req) && |w'.reqs| == |w.reqs|
            && (c.task.Some? ==> w'.reqs[c.req] == Finish(w.reqs[c.req], Some(c.error)))
            && (c.task.None? ==>
                  w'.reqs[c.req] == if w.config.startImmediately then w.reqs[c.req].(suspended := false) else w.reqs[c.req])
  {
    if c.task.Some? {
      FinishKeeps(w, c.task.value, Some(c.error));
    } else {
      hide Waits, About;
    }
  }

  lemma ReattemptCore(w: World, r: nat, id: TaskId)
    requires Core(w) && r < |w.reqs| && !Consulted(w, r) && id !in w.owner
    requires w.reqs[r].task.Some? ==> w.reqs[r].task.value in w.registry && w.reqs[r].task.value !in w.running
    ensures Core(Reattempt(w, r, id))
  {
    ReattemptRegistry(w, r, id);
    ReattemptPending(w, r, id);
    hide RegistryExact, OwnersExact, PendingExact, PendingUnique, About;
  }

  lemma ReattemptRegistry(w: World, r: nat, id: TaskId)
    requires RegistryExact(w) && OwnersExact(w) && r < |w.reqs| && id !in w.owner
    requires w.reqs[r].task.Some? ==> w.reqs[r].task.value in w.registry && w.reqs[r].task.value !in w.running
    ensures RegistryExact(Reattempt(w, r, id)) && OwnersExact(Reattempt(w, r, id))
  {
  }

  /** No pending consultation is about the request. */
  lemma ReattemptPending(w: World, r: nat, id: TaskId)
    requires OwnersExact(w) && PendingExact(w) && PendingUnique(w) && r < |w.reqs| && !Consulted(w, r) && id !in w.owner
    ensures PendingExact(Reattempt(w, r, id)) && PendingUnique(Reattempt(w, r, id))
  {
  }

  /** A retry registers the request under its new task only. */
  lemma RetryKeeps(w: World, c: Consultation, id: TaskId)
    requires TakenOff(w, c) && w.reqs[c.req].convertible && id !in w.owner
    ensures var w' := RetryRequest(w, c, Success(id));
            && Inv(w') && Registered(w', c.req) && !Consulted(w', c.req) && |w'.reqs| == |w.reqs|
            && w'.reqs[c.req] == SetTask(w.reqs[c.req], id).(retryCount := w.reqs[c.req].retryCount + 1)
            && (c.task.Some? ==> c.task.value !in w'.registry)
  {
    ReattemptCore(w, c.req, id);
    hide PendingExact, PendingUnique, FinishesExact, Counted, Waits;
  }

  lemma EndOfConsultationKeeps(w: World, k: nat, made: Result<TaskId, Error>)
    requires Inv(w) && Enabled(w, Retry(k, made))
    ensures Inv(Step(w, Retry(k, made)))
  {
    TakeOff(w, k);
    var w0, c := w.(pending := w.pending - {k}), w.pending[k];
    if !w.reqs[c.req].convertible {
      GiveUpKeeps(w0, c);
    } else {
      match made
      case Success(id) => RetryKeeps(w0, c, id);
      case Failure(e) =>
        ErrorChangeKeeps(w0, c.req, Some(e));
        GiveUpKeeps(Update(w0, c.req, w0.reqs[c.req].(error := Some(e))), c);
    }
  }

  /** Updating a request without touching its task, its completion count or its counters' agreement. */
  lemma UpdateKeeps(w: World, r: nat, x: Req)
    requires Inv(w) && r < |w.reqs|
    requires x.task == w.reqs[r].task && x.finishes == w.reqs[r].finishes && (x.suspended ==> w.reqs[r].suspended)
    requires |x.data| == x.received == x.completed
    ensures Inv(Update(w, r, x))
  {
    hide Waits, About;
  }

  lemma NewRequestKeeps(w: World, id: TaskId)
    requires Inv(w) && id !in w.owner
    ensures Inv(Step(w, Request(id)))
  {
    NewRequestCore(w, id);
    hide PendingExact, PendingUnique, FinishesExact, Counted, Waits, About;
  }

  lemma NewRequestCore(w: World, id: TaskId)
    requires Core(w) && id !in w.owner
    ensures Core(Step(w, Request(id)))
  {
    NewRequestRegistry(w, id);
    hide RegistryExact, OwnersExact, Waits, About;
  }

  lemma NewRequestRegistry(w: World, id: TaskId)
    requires RegistryExact(w) && OwnersExact(w) && id !in w.owner
    ensures RegistryExact(Step(w, Request(id))) && OwnersExact(Step(w, Request(id)))
    ensures id !in w.registry && forall r: nat :: r < |w.reqs| ==> w.reqs[r].task != Some(id)
  {
  }

  /** A request that failed before it got a task is unregistered and not waiting for the retrier. */
  lemma AddTasklessKeeps(w: World, x: Req)
    requires Inv(w) && x.task.None? && x.finishes == 0 && |x.data| == x.received == x.completed
    ensures var w' := w.(reqs := w.reqs + [x]);
            Inv(w') && !Live(w', |w.reqs|)
  {
  }

  /** The retrier may be consulted about a request without task. */
  lemma ConsultTasklessKeeps(w: World, r: nat, error: Error)
    requires Inv(w) && r < |w.reqs| && w.reqs[r].task.None? && !Consulted(w, r)
    ensures Inv(Consult(w, Consultation(r, None, error, false)))
  {
    PendingAdded(w.pending, w.nextTicket, Consultation(r, None, error, false));
    hide Waits;
  }

  lemma FailedRequestKeeps(w: World, convertible: bool, cause: Error, adapting: bool)
    requires Inv(w)
    ensures Inv(Step(w, RequestFailed(convertible, cause, adapting)))
  {
    var x := NewRequest(convertible, None, Some(cause));
    AddTasklessKeeps(w, x);
    var w1 := w.(reqs := w.reqs + [x]);
    if w.config.retrier && adapting {
      ConsultTasklessKeeps(w1, |w.reqs|, cause);
    } else if w.config.startImmediately {
      UpdateKeeps(w1, |w.reqs|, x.(suspended := false));
    }
  }

  lemma AcceptanceKeeps(w: World, k: nat)
    requires Inv(w) && k in w.pending
    ensures Inv(w.(pending := w.pending[k := w.pending[k].(answered := true)]))
  {
    PendingAnswered(w.pending, k);
    hide Waits, About;
  }

  lemma AnswerKeeps(w: World, k: nat, retry: bool)
    requires Inv(w) && Enabled(w, Answer(k, retry))
    ensures Inv(Step(w, Answer(k, retry)))
  {
    var c := w.pending[k];
    if retry {
      AcceptanceKeeps(w, k);
    } else {
      TakeOff(w, k);
      GiveUpKeeps(w.(pending := w.pending - {k}), c);
    }
  }

  /** Every event keeps the invariant. */
  lemma StepKeeps(w: World, e: Event)
    requires Inv(w) && Enabled(w, e)
    ensures Inv(Step(w, e))
  {
    match e
    case Request(id) => NewRequestKeeps(w, id);
    case RequestFailed(convertible, cause, adapting) => FailedRequestKeeps(w, convertible, cause, adapting);
    case Validate(r, check) => UpdateKeeps(w, r, w.reqs[r].(checks := w.reqs[r].checks + [check]));
    case Resume(r) => UpdateKeeps(w, r, w.reqs[r].(suspended := false));
    case Chunk(id, data) => UpdateKeeps(w, w.registry[id], Receive(w.reqs[w.registry[id]], data));
    case Complete(id, error, response) => DidCompleteKeeps(w, id, error, response);
    case Answer(k, retry) => AnswerKeeps(w, k, retry);
    case Retry(k, made) => EndOfConsultationKeeps(w, k, made);
  }

  lemma {:induction false} RunsKeep(w: World, events: seq<Event>)
    requires Inv(w) && Legal(w, events)
    ensures Inv(Exec(w, events))
    decreases |events|
  {
    if events != [] {
      StepKeeps(w, events[0]);
      RunsKeep(Step(w, events[0]), events[1..]);
    }
  }

  /** Over all runs: no request is registered under two tasks, a registered task is the current one and runs or
      waits for the retrier, a delegate finishes at most once, and a request whose task is no longer
      registered is finished, released and not waiting for the retrier. */
  lemma EveryRunIsSafe(config: Config, events: seq<Event>, r: nat)
    requires Legal(Start(config), events) && r < |Exec(Start(config), events).reqs|
    ensures var w := Exec(Start(config), events);
            var x := w.reqs[r];
            && (forall i, j :: i in w.registry && j in w.registry && w.registry[i] == r && w.registry[j] == r ==> i == j)
            && (forall i :: i in w.registry && w.registry[i] == r ==>
                  x.task == Some(i) && (i in w.running || Consulted(w, r)))
            && x.finishes <= 1
            && (x.task.Some? && !Registered(w, r) ==> x.finishes == 1 && !x.suspended && !Consulted(w, r))
  {
    RunsKeep(Start(config), events);
    var w := Exec(Start(config), events);
    forall i | i in w.registry && w.registry[i] == r ensures i in w.running || Consulted(w, r) {
      if i !in w.running {
        var k :| k in w.pending && w.pending[k].task == Some(i);
        assert w.owner[i] == w.pending[k].req;
      }
    }
  }
}
