/** The life of requests in a session: tasks, validations, the asynchronous retrier, and completion. */
module SessionSpec {
  import opened Common

  type TaskId = int
  type Error = int

  datatype Response = Response(statusCode: int, mimeType: Option<Bytes>)

  /** A validation: the error it finds in a response and the data received with it, if any. */
  type Check = (Response, Bytes) -> Option<Error>

  /** A request with its delegate. `convertible`: it kept what new tasks can be made of. `suspended`: its
      queue of response handlers has not been released. `finishes` counts the completions of its delegate. */
  datatype Req = Req(
    convertible: bool,
    task: Option<TaskId>,
    error: Option<Error>,
    data: Bytes,
    received: nat,
    completed: nat,
    retryCount: nat,
    suspended: bool,
    checks: seq<Check>,
    finishes: nat)

  /** A pending consultation of the retrier about request `req`: first its answer is awaited, then the delay.
      `task` is the task that completed; none when the request never had one. */
  datatype Consultation = Consultation(req: nat, task: Option<TaskId>, error: Error, answered: bool)

  datatype Config = Config(retrier: bool, startImmediately: bool)

  /** `running` are the tasks that the URL session has not completed, `owner` remembers who got each task. */
  datatype World = World(
    config: Config,
    reqs: seq<Req>,
    registry: map<TaskId, nat>,
    running: set<TaskId>,
    owner: map<TaskId, nat>,
    pending: map<nat, Consultation>,
    nextTicket: nat)

  function Start(config: Config): World {
    World(config, [], map[], {}, map[], map[], 0)
  }

  datatype Event =
    | Request(task: TaskId)
    | RequestFailed(convertible: bool, cause: Error, adapting: bool)
    | Validate(req: nat, check: Check)
    | Resume(req: nat)
    | Chunk(task: TaskId, data: Bytes)
    | Complete(task: TaskId, error: Option<Error>, response: Option<Response>)
    | Answer(ticket: nat, retry: bool)
    | Retry(ticket: nat, made: Result<TaskId, Error>)

  /** Task identifiers are fresh; a task calls back until it completes, and completes once; the retrier answers
      each consultation once, and an accepted retry takes place once. */
  predicate Enabled(w: World, e: Event) {
    match e
    case Request(id) => id !in w.owner
    case RequestFailed(_, _, _) => true
    case Validate(r, _) => r < |w.reqs|
    case Resume(r) => r < |w.reqs|
    case Chunk(id, _) => id in w.running
    case Complete(id, _, _) => id in w.running
    case Answer(k, _) => k in w.pending && !w.pending[k].answered && w.pending[k].req < |w.reqs|
    case Retry(k, made) =>
      && k in w.pending && w.pending[k].answered && w.pending[k].req < |w.reqs|
      && (made.Success? ==> made.value !in w.owner)
  }

  function Update(w: World, r: nat, x: Req): World
    requires r < |w.reqs|
  {
    w.(reqs := w.reqs[r := x])
  }

  // ---------------------------------------------------------------------------------------------
  // Delegate and request operations
  // ---------------------------------------------------------------------------------------------

  /** Assigning the task resets everything that belongs to the attempt. */
  function SetTask(x: Req, id: TaskId): Req {
    x.(task := Some(id), error := None, data := [], received := 0, completed := 0)
  }

  function Receive(x: Req, data: Bytes): Req {
    x.(data := x.data + data, received := x.received + |data|, completed := x.received + |data|)
  }

  /** The delegate's completion: an earlier error is kept, and the queue is released. */
  function Finish(x: Req, error: Option<Error>): Req {
    x.(error := if x.error.Some? then x.error else error, suspended := false, finishes := x.finishes + 1)
  }

  function ApplyCheck(x: Req, check: Check, response: Option<Response>): Req {
    if response.Some? && x.error.None? then x.(error := check(response.value, x.data)) else x
  }

  function ApplyChecks(x: Req, n: nat, response: Option<Response>): Req
    requires n <= |x.checks|
    ensures ApplyChecks(x, n, response) == x.(error := ApplyChecks(x, n, response).error)
  {
    if n == 0 then x else ApplyCheck(ApplyChecks(x, n - 1, response), x.checks[n - 1], response)
  }

  /** `resume()`: a request without task just releases its queue. */
  function ResumeRequest(w: World, r: nat): (w': World)
    requires r < |w.reqs|
    ensures w' == w.(reqs := w'.reqs) && |w'.reqs| == |w.reqs|
  {
    if w.reqs[r].task.None? then Update(w, r, w.reqs[r].(suspended := false)) else w
  }

  // ---------------------------------------------------------------------------------------------
  // Session callbacks
  // ---------------------------------------------------------------------------------------------

  /** Data reach the request that is registered for their task, if any. */
  function DidReceive(w: World, id: TaskId, data: Bytes): (w': World)
    ensures w' == w.(reqs := w'.reqs) && |w'.reqs| == |w.reqs|
  {
    if id in w.registry && w.registry[id] < |w.reqs| then
      Update(w, w.registry[id], Receive(w.reqs[w.registry[id]], data))
    else w
  }

  /** `completeTask`: finishes the request that is registered for the task, and removes the entry. */
  function CompleteTask(w: World, id: TaskId, error: Option<Error>): (w': World)
    ensures w' == w.(reqs := w'.reqs, registry := w'.registry) && |w'.reqs| == |w.reqs|
  {
    if id in w.registry && w.registry[id] < |w.reqs| then
      var r := w.registry[id];
      Update(w, r, Finish(w.reqs[r], error)).(registry := w.registry - {id})
    else w
  }

  function Consult(w: World, c: Consultation): World {
    w.(pending := w.pending[w.nextTicket := c], nextTicket := w.nextTicket + 1)
  }

  /** Once the final error is known: consult the retrier about it, or complete. */
  function Conclude(w: World, r: nat, id: TaskId, final: Option<Error>): (w': World)
    ensures |w'.reqs| == |w.reqs| && w'.owner == w.owner && w'.running == w.running
  {
    if w.config.retrier && final.Some? then Consult(w, Consultation(r, Some(id), final.value, false))
    else CompleteTask(w, id, final)
  }

  /** Runs every validation, and then goes on with the error recorded so far, else the transport's. */
  function Settle(w: World, r: nat, id: TaskId, error: Option<Error>, response: Option<Response>): (w': World)
    requires r < |w.reqs|
    ensures |w'.reqs| == |w.reqs| && w'.owner == w.owner && w'.running == w.running
  {
    var x := ApplyChecks(w.reqs[r], |w.reqs[r].checks|, response);
    Conclude(Update(w, r, x), r, id, if x.error.Some? then x.error else error)
  }

  function DidComplete(w: World, id: TaskId, error: Option<Error>, response: Option<Response>): (w': World)
    ensures |w'.reqs| == |w.reqs| && w'.owner == w.owner && w'.running == w.running - {id}
  {
    var w0 := w.(running := w.running - {id});
    if id in w.registry && w.registry[id] < |w.reqs| then Settle(w0, w.registry[id], id, error, response) else w0
  }

  /** The end of a consultation without a retry. */
  function GiveUp(w: World, c: Consultation): (w': World)
    requires c.req < |w.reqs|
    ensures w' == w.(reqs := w'.reqs, registry := w'.registry) && |w'.reqs| == |w.reqs|
  {
    if c.task.Some? then CompleteTask(w, c.task.value, Some(c.error))
    else if w.config.startImmediately then ResumeRequest(w, c.req)
    else w
  }

  /** Request `r` goes on under task `id` alone. */
  function Reattempt(w: World, r: nat, id: TaskId): World
    requires r < |w.reqs|
  {
    var x := w.reqs[r];
    var registry := if x.task.Some? then w.registry - {x.task.value} else w.registry;
    Update(w, r, SetTask(x, id).(retryCount := x.retryCount + 1))
      .(registry := registry[id := r], running := w.running + {id}, owner := w.owner[id := r])
  }

  /** `retry` and the registration of the new task, as one step. */
  function RetryRequest(w: World, c: Consultation, made: Result<TaskId, Error>): (w': World)
    requires c.req < |w.reqs|
    ensures |w'.reqs| == |w.reqs| && w'.pending == w.pending && w.owner.Keys <= w'.owner.Keys
  {
    var x := w.reqs[c.req];
    if !x.convertible then GiveUp(w, c)
    else
      match made
      case Failure(e) => GiveUp(Update(w, c.req, x.(error := Some(e))), c)
      case Success(id) => Reattempt(w, c.req, id)
  }

  function NewRequest(convertible: bool, task: Option<TaskId>, error: Option<Error>): Req {
    Req(convertible, task, error, [], 0, 0, 0, true, [], 0)
  }

  /** No request and no owner is forgotten. */
  function Step(w: World, e: Event): (w': World)
    requires Enabled(w, e)
    ensures |w'.reqs| >= |w.reqs| && w.owner.Keys <= w'.owner.Keys
  {
    var n := |w.reqs|;
    match e
    case Request(id) =>
      w.(reqs := w.reqs + [NewRequest(true, Some(id), None)], registry := w.registry[id := n],
         running := w.running + {id}, owner := w.owner[id := n])
    case RequestFailed(convertible, cause, adapting) =>
      var w1 := w.(reqs := w.reqs + [NewRequest(convertible, None, Some(cause))]);
      if w.config.retrier && adapting then Consult(w1, Consultation(n, None, cause, false))
      else if w.config.startImmediately then ResumeRequest(w1, n)
      else w1
    case Validate(r, check) => Update(w, r, w.reqs[r].(checks := w.reqs[r].checks + [check]))
    case Resume(r) => ResumeRequest(w, r)
    case Chunk(id, data) => DidReceive(w, id, data)
    case Complete(id, error, response) => DidComplete(w, id, error, response)
    case Answer(k, retry) =>
      var c := w.pending[k];
      if retry then w.(pending := w.pending[k := c.(answered := true)])
      else GiveUp(w.(pending := w.pending - {k}), c)
    case Retry(k, made) => RetryRequest(w.(pending := w.pending - {k}), w.pending[k], made)
  }

  ghost predicate Legal(w: World, events: seq<Event>)
    decreases |events|
  {
    events == [] || (Enabled(w, events[0]) && Legal(Step(w, events[0]), events[1..]))
  }

  ghost function Exec(w: World, events: seq<Event>): World
    requires Legal(w, events)
    decreases |events|
  {
    if events == [] then w else Exec(Step(w, events[0]), events[1..])
  }
}
