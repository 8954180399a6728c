/** The session, its requests and their delegates as objects, proved against the state machine. What that adds: requests
    and delegates have identities that the registry and the retrier's closures share, each method changes no other
    object than its own request and delegate, and the loop over the validations is the state machine's recursion. */
module Session {
  import opened Common
  import Spec = SessionSpec

  /** What belongs to one attempt, and the queue of response handlers. */
  class DataTaskDelegate {
    ghost const serial: nat
    var task: Option<Spec.TaskId>
    var error: Option<Spec.Error>
    var mutableData: Bytes
    var totalBytesReceived: nat
    var completedUnitCount: nat
    var isSuspended: bool
    ghost var finishes: nat

    constructor (task: Option<Spec.TaskId>, error: Option<Spec.Error>, ghost serial: nat)
      ensures this.serial == serial && this.task == task && this.error == error
      ensures mutableData == [] && totalBytesReceived == 0 && completedUnitCount == 0 && isSuspended && finishes == 0
    {
      this.task, this.error, this.serial := task, error, serial;
      mutableData, totalBytesReceived, completedUnitCount, isSuspended, finishes := [], 0, 0, true, 0;
    }

    method Reset()
      modifies `error, `mutableData, `totalBytesReceived, `completedUnitCount
      ensures error == None && mutableData == [] && totalBytesReceived == 0 && completedUnitCount == 0
    {
      error := None;
      completedUnitCount := 0;
      totalBytesReceived := 0;
      mutableData := [];
    }

    /** The setter of `task`: nothing of an earlier attempt is left. */
    method SetTask(id: Spec.TaskId)
      modifies `task, `error, `mutableData, `totalBytesReceived, `completedUnitCount
      ensures task == Some(id)
      ensures error == None && mutableData == [] && totalBytesReceived == 0 && completedUnitCount == 0
    {
      task := Some(id);
      Reset();
    }

    method DidReceive(data: Bytes)
      modifies `mutableData, `totalBytesReceived, `completedUnitCount
      ensures mutableData == old(mutableData) + data
      ensures totalBytesReceived == completedUnitCount == old(totalBytesReceived) + |data|
    {
      mutableData := mutableData + data;
      totalBytesReceived := totalBytesReceived + |data|;
      completedUnitCount := totalBytesReceived;
    }

    method DidComplete(failure: Option<Spec.Error>)
      modifies `error, `isSuspended, `finishes
      ensures error == if old(error).Some? then old(error) else failure
      ensures !isSuspended && finishes == old(finishes) + 1
    {
      if failure.Some? && error.None? {
        error := failure;
      }
      isSuspended := false;
      finishes := finishes + 1;
    }
  }

  class Request {
    const convertible: bool
    const delegate: DataTaskDelegate
    ghost const serial: nat
    var validations: seq<Spec.Check>
    var retryCount: nat

    constructor (convertible: bool, task: Option<Spec.TaskId>, error: Option<Spec.Error>, ghost serial: nat)
      ensures fresh(delegate) && this.serial == serial && delegate.serial == serial
      ensures State() == Spec.NewRequest(convertible, task, error)
    {
      this.convertible, this.serial := convertible, serial;
      delegate := new DataTaskDelegate(task, error, serial);
      validations, retryCount := [], 0;
    }

    ghost function State(): Spec.Req
      reads this, delegate
    {
      Spec.Req(convertible, delegate.task, delegate.error, delegate.mutableData, delegate.totalBytesReceived,
               delegate.completedUnitCount, retryCount, delegate.isSuspended, validations, delegate.finishes)
    }

    method Validate(check: Spec.Check)
      modifies `validations
      ensures State() == old(State()).(checks := old(validations) + [check])
    {
      validations := validations + [check];
    }

    method Resume()
      modifies delegate`isSuspended
      ensures State() == if old(delegate.task).None? then old(State()).(suspended := false) else old(State())
    {
      if delegate.task.None? {
        delegate.isSuspended := false;
      }
    }

    /** Runs every validation in the order in which they were added. */
    method RunValidations(response: Option<Spec.Response>)
      modifies delegate`error
      ensures State() == Spec.ApplyChecks(old(State()), |old(validations)|, response)
    {
      var n := 0;
      while n < |validations|
        invariant 0 <= n <= |validations|
        invariant State() == Spec.ApplyChecks(old(State()), n, response)
      {
        if response.Some? && delegate.error.None? {
          delegate.error := validations[n](response.value, delegate.mutableData);
        }
        n := n + 1;
      }
    }
  }

  ghost function States(all: seq<Request>, objects: set<Request>, delegates: set<DataTaskDelegate>): (reqs: seq<Spec.Req>)
    requires forall i :: 0 <= i < |all| ==> all[i] in objects && all[i].delegate in delegates
    reads objects, delegates
    ensures |reqs| == |all| && forall i :: 0 <= i < |all| ==> reqs[i] == all[i].State()
  {
    seq(|all|, i requires 0 <= i < |all| && all[i] in objects && all[i].delegate in delegates reads objects, delegates
               => all[i].State())
  }

  /** What the completion closure given to the retrier has captured. */
  datatype Closure = Closure(request: Request, task: Option<Spec.TaskId>, error: Spec.Error, answered: bool)

  ghost function Consultation(c: Closure): Spec.Consultation {
    Spec.Consultation(c.request.serial, c.task, c.error, c.answered)
  }

  ghost function Registry(requests: map<Spec.TaskId, Request>): map<Spec.TaskId, nat> {
    map id | id in requests :: requests[id].serial
  }

  ghost function Pending(pending: map<nat, Closure>): map<nat, Spec.Consultation> {
    map k | k in pending :: Consultation(pending[k])
  }

  lemma RegistrySet(requests: map<Spec.TaskId, Request>, id: Spec.TaskId, x: Request)
    ensures Registry(requests[id := x]) == Registry(requests)[id := x.serial]
  {
  }

  lemma RegistryWithout(requests: map<Spec.TaskId, Request>, id: Spec.TaskId)
    ensures Registry(requests - {id}) == Registry(requests) - {id}
  {
  }

  lemma PendingSet(pending: map<nat, Closure>, k: nat, c: Closure)
    ensures Pending(pending[k := c]) == Pending(pending)[k := Consultation(c)]
  {
  }

  lemma PendingWithout(pending: map<nat, Closure>, k: nat)
    ensures Pending(pending - {k}) == Pending(pending) - {k}
  {
  }

  /** The session manager with its delegate. */
  class SessionManager {
    const config: Spec.Config
    var requests: map<Spec.TaskId, Request>
    var pending: map<nat, Closure>
    var nextTicket: nat
    ghost var all: seq<Request>
    ghost var objects: set<Request>
    ghost var delegates: set<DataTaskDelegate>
    ghost var running: set<Spec.TaskId>
    ghost var owner: map<Spec.TaskId, nat>

    constructor (config: Spec.Config)
      ensures Valid() && World() == Spec.Start(config) && fresh(objects) && fresh(delegates)
    {
      this.config := config;
      requests, pending, nextTicket := map[], map[], 0;
      all, objects, delegates, running, owner := [], {}, {}, {}, map[];
    }

    ghost predicate Has(x: Request)
      reads `all
    {
      x.serial < |all| && all[x.serial] == x
    }

    /** Every request of the session has its own serial number and delegate. */
    ghost predicate Apart()
      reads `all, `objects, `delegates, objects
    {
      forall i :: 0 <= i < |all| ==>
        all[i] in objects && all[i].serial == i && all[i].delegate in delegates && all[i].delegate.serial == i
    }

    ghost predicate Valid()
      reads this, objects
    {
      && Apart()
      && (forall id :: id in requests ==> Has(requests[id]))
      && (forall k :: k in pending ==> Has(pending[k].request))
    }

    ghost function World(): Spec.World
      requires Valid()
      reads this, objects, delegates
    {
      Spec.World(config, States(all, objects, delegates), Registry(requests), running, owner, Pending(pending), nextTicket)
    }

    // -------------------------------------------------------------------------------------------
    // Parts of the operations
    // -------------------------------------------------------------------------------------------

    method Add(convertible: bool, task: Option<Spec.TaskId>, error: Option<Spec.Error>) returns (x: Request)
      requires Valid()
      modifies `all, `objects, `delegates
      ensures Valid() && Has(x) && x.serial == |old(all)| && fresh(x) && fresh(x.delegate)
      ensures World() == old(World()).(reqs := old(World()).reqs + [Spec.NewRequest(convertible, task, error)])
      ensures fresh(objects - old(objects)) && fresh(delegates - old(delegates))
    {
      hide Registry, Pending;
      ghost var reqs := States(all, objects, delegates);
      x := new Request(convertible, task, error, |all|);
      all, objects, delegates := all + [x], objects + {x}, delegates + {x.delegate};
      assert Apart();
      assert States(all, objects, delegates) == reqs + [x.State()];
      hide Apart, States;
    }

    ghost method Issue(id: Spec.TaskId, x: Request)
      requires Valid() && Has(x)
      modifies `running, `owner
      ensures Valid()
      ensures World() == old(World()).(running := old(World()).running + {id}, owner := old(World()).owner[id := x.serial])
    {
      running, owner := running + {id}, owner[id := x.serial];
      assert World().reqs == old(World()).reqs;
    }

    /** The subscript's setter. */
    method Register(id: Spec.TaskId, x: Request)
      requires Valid() && Has(x)
      modifies `requests
      ensures Valid() && World() == old(World()).(registry := old(World()).registry[id := x.serial])
    {
      RegistrySet(requests, id, x);
      hide Registry, Pending, States;
      requests := requests[id := x];
    }

    method Unregister(id: Spec.TaskId)
      requires Valid()
      modifies `requests
      ensures Valid() && World() == old(World()).(registry := old(World()).registry - {id})
    {
      RegistryWithout(requests, id);
      hide Registry, Pending, States;
      requests := requests - {id};
    }

    method Resume(x: Request)
      requires Valid() && Has(x)
      modifies x.delegate
      ensures Valid() && World() == Spec.Step(old(World()), Spec.Resume(x.serial))
    {
      ghost var w := World();
      x.Resume();
      assert forall i :: 0 <= i < |all| && i != x.serial ==> World().reqs[i] == w.reqs[i];
      assert World().reqs == w.reqs[x.serial := x.State()];
      assert w.reqs[x.serial := w.reqs[x.serial]] == w.reqs;
    }

    method Validate(x: Request, check: Spec.Check)
      requires Valid() && Has(x)
      modifies x
      ensures Valid() && World() == Spec.Step(old(World()), Spec.Validate(x.serial, check))
    {
      ghost var w := World();
      x.Validate(check);
      assert forall i :: 0 <= i < |all| && i != x.serial ==> World().reqs[i] == w.reqs[i];
      assert World().reqs == w.reqs[x.serial := x.State()];
    }

    method RunValidations(x: Request, response: Option<Spec.Response>)
      requires Valid() && Has(x)
      modifies x.delegate
      ensures Valid() && World() == Spec.Update(old(World()), x.serial,
        Spec.ApplyChecks(old(x.State()), |old(x.validations)|, response))
    {
      ghost var w := World();
      x.RunValidations(response);
      assert forall i :: 0 <= i < |all| && i != x.serial ==> World().reqs[i] == w.reqs[i];
      assert World().reqs == w.reqs[x.serial := x.State()];
    }

    method SetError(x: Request, error: Spec.Error)
      requires Valid() && Has(x)
      modifies x.delegate
      ensures Valid() && World() == Spec.Update(old(World()), x.serial, old(x.State()).(error := Some(error)))
    {
      ghost var w := World();
      x.delegate.error := Some(error);
      assert forall i :: 0 <= i < |all| && i != x.serial ==> World().reqs[i] == w.reqs[i];
      assert World().reqs == w.reqs[x.serial := x.State()];
    }

    /** Gives a request its new task. */
    method Renew(x: Request, id: Spec.TaskId)
      requires Valid() && Has(x)
      modifies x, x.delegate
      ensures Valid() && World() == Spec.Update(old(World()), x.serial,
        Spec.SetTask(old(World()).reqs[x.serial], id).(retryCount := old(World()).reqs[x.serial].retryCount + 1))
    {
      hide Registry, Pending;
      ghost var w := World();
      x.delegate.SetTask(id);
      x.retryCount := x.retryCount + 1;
      assert forall i :: 0 <= i < |all| && i != x.serial ==> World().reqs[i] == w.reqs[i];
      assert World().reqs == w.reqs[x.serial := x.State()];
    }

    method FinishRequest(x: Request, error: Option<Spec.Error>)
      requires Valid() && Has(x)
      modifies x.delegate
      ensures Valid() && World() == Spec.Update(old(World()), x.serial, Spec.Finish(old(x.State()), error))
    {
      hide Registry, Pending;
      ghost var w := World();
      x.delegate.DidComplete(error);
      assert forall i :: 0 <= i < |all| && i != x.serial ==> World().reqs[i] == w.reqs[i];
      assert World().reqs == w.reqs[x.serial := x.State()];
    }

    method CompleteTask(id: Spec.TaskId, error: Option<Spec.Error>)
      requires Valid()
      modifies `requests, delegates
      ensures Valid() && World() == Spec.CompleteTask(old(World()), id, error)
    {
      ghost var w := World();
      assert id in Registry(requests) <==> id in requests;
      assert id in requests ==> Registry(requests)[id] == requests[id].serial && w.reqs[requests[id].serial] == requests[id].State();
      hide Registry, Pending, States;
      if id in requests {
        FinishRequest(requests[id], error);
      }
      Unregister(id);
      assert id !in w.registry ==> w.registry - {id} == w.registry;
    }

    method Consult(c: Closure)
      requires Valid() && Has(c.request)
      modifies `pending, `nextTicket
      ensures Valid() && World() == Spec.Consult(old(World()), Consultation(c))
    {
      PendingSet(pending, nextTicket, c);
      hide Registry, Pending, States;
      pending, nextTicket := pending[nextTicket := c], nextTicket + 1;
    }

    method TakeOff(k: nat) returns (c: Closure)
      requires Valid() && k in pending
      modifies `pending
      ensures Valid() && Has(c.request) && c == old(pending[k])
      ensures World() == old(World()).(pending := old(World()).pending - {k})
    {
      PendingWithout(pending, k);
      hide Registry, Pending, States;
      c := pending[k];
      pending := pending - {k};
    }

    method GiveUp(c: Closure)
      requires Valid() && Has(c.request)
      modifies `requests, delegates
      ensures Valid() && World() == Spec.GiveUp(old(World()), Consultation(c))
    {
      if c.task.Some? {
        CompleteTask(c.task.value, Some(c.error));
      } else if config.startImmediately {
        Resume(c.request);
      }
    }

    method Conclude(x: Request, id: Spec.TaskId, final: Option<Spec.Error>)
      requires Valid() && Has(x)
      modifies `requests, `pending, `nextTicket, delegates
      ensures Valid() && World() == Spec.Conclude(old(World()), x.serial, id, final)
    {
      if config.retrier && final.Some? {
        Consult(Closure(x, Some(id), final.value, false));
      } else {
        CompleteTask(id, final);
      }
    }

    method Settle(x: Request, id: Spec.TaskId, error: Option<Spec.Error>, response: Option<Spec.Response>)
      requires Valid() && Has(x)
      modifies `requests, `pending, `nextTicket, delegates
      ensures Valid() && World() == Spec.Settle(old(World()), x.serial, id, error, response)
    {
      ghost var w := World();
      ghost var checked := Spec.ApplyChecks(w.reqs[x.serial], |w.reqs[x.serial].checks|, response);
      assert w.reqs[x.serial] == x.State();
      RunValidations(x, response);
      assert World() == Spec.Update(w, x.serial, checked);
      assert World().reqs[x.serial] == x.State();
      var final := if x.delegate.error.Some? then x.delegate.error else error;
      Conclude(x, id, final);
    }

    method Reattempt(x: Request, id: Spec.TaskId)
      requires Valid() && Has(x)
      modifies `requests, `running, `owner, x, x.delegate
      ensures Valid() && World() == Spec.Reattempt(old(World()), x.serial, id)
    {
      assert World().reqs[x.serial] == x.State();
      hide Registry, Pending, States, World, Valid, Apart, Request.State;
      if x.delegate.task.Some? {
        Unregister(x.delegate.task.value);
      }
      Renew(x, id);
      Register(id, x);
      Issue(id, x);
    }

    // -------------------------------------------------------------------------------------------
    // Operations and callbacks
    // -------------------------------------------------------------------------------------------

    /** `request`, when the task could be made. */
    method Begin(id: Spec.TaskId) returns (x: Request)
      requires Valid() && Spec.Enabled(World(), Spec.Request(id))
      modifies this
      ensures Valid() && Has(x) && World() == Spec.Step(old(World()), Spec.Request(id))
      ensures fresh(objects - old(objects)) && fresh(delegates - old(delegates))
    {
      x := Add(true, Some(id), None);
      Register(id, x);
      Issue(id, x);
    }

    /** `request(_:failedWith:)`. `adapting`: the adapter threw the error. */
    method BeginFailed(convertible: bool, cause: Spec.Error, adapting: bool) returns (x: Request)
      requires Valid()
      modifies this
      ensures Valid() && Has(x)
      ensures World() == Spec.Step(old(World()), Spec.RequestFailed(convertible, cause, adapting))
      ensures fresh(objects - old(objects)) && fresh(delegates - old(delegates))
    {
      hide Registry, Pending, States;
      x := Add(convertible, None, Some(cause));
      if config.retrier && adapting {
        Consult(Closure(x, None, cause, false));
      } else if config.startImmediately {
        Resume(x);
      }
    }

    method DidReceive(id: Spec.TaskId, data: Bytes)
      requires Valid()
      modifies delegates
      ensures Valid() && World() == Spec.DidReceive(old(World()), id, data)
    {
      assert id in Registry(requests) <==> id in requests;
      assert id in requests ==> Registry(requests)[id] == requests[id].serial;
      hide Registry, Pending;
      if id in requests {
        ghost var w := World();
        var x := requests[id];
        x.delegate.DidReceive(data);
        assert forall i :: 0 <= i < |all| && i != x.serial ==> World().reqs[i] == w.reqs[i];
        assert World().reqs == w.reqs[x.serial := x.State()];
      }
    }

    ghost method Stop(id: Spec.TaskId)
      requires Valid()
      modifies `running
      ensures Valid() && World() == old(World()).(running := old(World()).running - {id})
    {
      running := running - {id};
      assert World().reqs == old(World()).reqs;
    }

    method DidComplete(id: Spec.TaskId, error: Option<Spec.Error>, response: Option<Spec.Response>)
      requires Valid()
      modifies `requests, `pending, `nextTicket, `running, delegates
      ensures Valid() && World() == Spec.DidComplete(old(World()), id, error, response)
    {
      Stop(id);
      if id !in requests {
        CompleteTask(id, error);
      } else {
        Settle(requests[id], id, error, response);
      }
    }

    method Accept(k: nat)
      requires Valid() && k in pending
      modifies `pending
      ensures Valid()
      ensures World() == old(World()).(pending := old(World()).pending[k := old(World()).pending[k].(answered := true)])
    {
      PendingSet(pending, k, pending[k].(answered := true));
      hide Registry, States;
      pending := pending[k := pending[k].(answered := true)];
    }

    method Answer(k: nat, retry: bool)
      requires Valid() && Spec.Enabled(World(), Spec.Answer(k, retry))
      modifies `requests, `pending, delegates
      ensures Valid() && World() == Spec.Step(old(World()), Spec.Answer(k, retry))
      ensures retry ==>
        World() == old(World()).(pending := old(World()).pending[k := old(World()).pending[k].(answered := true)])
    {
      if retry {
        Accept(k);
      } else {
        var c := TakeOff(k);
        GiveUp(c);
      }
    }

    /** `retry` together with the registration of the new task, if one could be made. */
    method RetryRequest(c: Closure, made: Result<Spec.TaskId, Spec.Error>)
      requires Valid() && Has(c.request)
      modifies `requests, `running, `owner, objects, delegates
      ensures Valid() && World() == Spec.RetryRequest(old(World()), Consultation(c), made)
    {
      var x := c.request;
      assert World().reqs[x.serial] == x.State();
      hide Registry, Pending, States;
      if !x.convertible {
        GiveUp(c);
        return;
      }
      match made
      case Failure(e) =>
        SetError(x, e);
        GiveUp(c);
      case Success(id) => Reattempt(x, id);
    }

    method Retry(k: nat, made: Result<Spec.TaskId, Spec.Error>)
      requires Valid() && Spec.Enabled(World(), Spec.Retry(k, made))
      modifies `requests, `pending, `running, `owner, objects, delegates
      ensures Valid() && World() == Spec.Step(old(World()), Spec.Retry(k, made))
    {
      hide Registry, States, Spec.RetryRequest;
      var c := TakeOff(k);
      RetryRequest(c, made);
    }
  }
}
