/** TCP sockets over the lwIP callbacks as a state machine whose delegate may call back into any socket. */
module TcpSocketSpec {
  import opened Common

  // ---------------------------------------------------------------------------------------------
  // pbuf chains
  // ---------------------------------------------------------------------------------------------

  /** A chain of buffers; `totLen` of each is its own length plus that of the rest. */
  datatype Pbuf = Pbuf(payload: Bytes, totLen: nat, next: Option<Pbuf>)

  predicate ChainValid(p: Pbuf) {
    && p.totLen == |p.payload| + (if p.next.Some? then p.next.value.totLen else 0)
    && (p.next.Some? ==> ChainValid(p.next.value))
  }

  function ChainBytes(p: Pbuf): Bytes {
    p.payload + if p.next.Some? then ChainBytes(p.next.value) else []
  }

  /** `pbuf_copy_partial` from offset 0: at most `length` bytes of the chain. */
  function CopyPartial(p: Pbuf, length: nat): Bytes {
    if length <= |p.payload| then p.payload[..length]
    else p.payload + if p.next.Some? then CopyPartial(p.next.value, length - |p.payload|) else []
  }

  lemma {:induction false} CopyTotalIsChain(p: Pbuf)
    requires ChainValid(p)
    ensures CopyPartial(p, p.totLen) == ChainBytes(p)
    ensures |ChainBytes(p)| == p.totLen
  {
    if p.next.Some? {
      CopyTotalIsChain(p.next.value);
    }
  }

  // ---------------------------------------------------------------------------------------------
  // The state
  // ---------------------------------------------------------------------------------------------

  datatype End = DidReset | DidAbort | DidClose

  /** What happened to socket `s`: a delegate call, or the release of its resources. */
  datatype Note =
    | LocalDidClose(s: nat)
    | DidReadData(s: nat, data: Bytes)
    | DidWriteData(s: nat, length: nat)
    | Ended(s: nat, end: End)
    | Released(s: nat)

  /** `held` is the size of the chain whose delivery is under way, or during whose delivery the socket ended. */
  datatype Socket = Socket(identity: int, valid: bool, aborted: bool, delivered: Bytes, credit: nat, held: nat)

  /** Sockets are numbered in the order of their creation. `dict` is the identity table. */
  datatype World = World(sockets: seq<Socket>, dict: map<int, nat>, log: seq<Note>)

  const Start := World([], map[], [])

  /** What a delegate does inside a callback: calls on any socket, each with what the delegate does inside the
      `socketDidClose` that the call may cause. `accepted` is lwIP's answer to the write. */
  datatype Action =
    | Close(s: nat, inside: seq<Action>)
    | Reset(s: nat, inside: seq<Action>)
    | Write(s: nat, length: nat, accepted: bool, inside: seq<Action>)

  predicate IsValid(w: World, s: nat) {
    s < |w.sockets| && w.sockets[s].valid
  }

  function Update(w: World, s: nat, x: Socket): World
    requires s < |w.sockets|
  {
    w.(sockets := w.sockets[s := x])
  }

  function Log(w: World, note: Note): World {
    w.(log := w.log + [note])
  }

  /** Gives up the pcb and the identity. */
  function Release(w: World, s: nat): World
    requires s < |w.sockets|
  {
    var x := w.sockets[s];
    Log(Update(w, s, x.(valid := false)).(dict := w.dict - {x.identity}), Released(s))
  }

  /** `close()` and `reset()` up to the delegate call; the second also aborts the pcb. */
  function Shut(w: World, s: nat, abort: bool): World
    requires s < |w.sockets|
  {
    var x := w.sockets[s];
    Log(Release(Update(w, s, x.(aborted := x.aborted || abort)), s), Ended(s, DidClose))
  }

  function Act(w: World, a: Action): World
    decreases a, 1
  {
    if !IsValid(w, a.s) then w
    else
      match a
      case Close(s, inside) => Run(Shut(w, s, false), inside)
      case Reset(s, inside) => Run(Shut(w, s, true), inside)
      case Write(s, _, accepted, inside) => if accepted then w else Run(Shut(w, s, false), inside)
  }

  function Run(w: World, script: seq<Action>): World
    decreases script, 0
  {
    if script == [] then w else Run(Act(w, script[0]), script[1..])
  }

  // ---------------------------------------------------------------------------------------------
  // lwIP events
  // ---------------------------------------------------------------------------------------------

  const ERR_ABRT: int := -10
  const ERR_RST: int := -11

  /** `Accept` makes a socket with a key that the table does not hold; the callbacks come for a pcb whose
      callbacks are still set; `Call` is a call from outside every callback. */
  datatype Event =
    | Accept(key: int)
    | Recv(s: nat, buf: Option<Pbuf>, script: seq<Action>)
    | Sent(s: nat, length: nat, script: seq<Action>)
    | Err(s: nat, code: int, script: seq<Action>)
    | Call(script: seq<Action>)

  /** What lwIP promises: callbacks only while the pcb lives and they are set, and well-formed chains. */
  predicate Enabled(w: World, e: Event) {
    match e
    case Accept(key) => key !in w.dict
    case Recv(s, buf, _) => IsValid(w, s) && (buf.Some? ==> ChainValid(buf.value))
    case Sent(s, _, _) => IsValid(w, s)
    case Err(s, _, _) => IsValid(w, s)
    case Call(_) => true
  }

  /** The socket that a callback argument leads to. */
  function Lookup(w: World, s: nat): Option<nat>
    requires s < |w.sockets|
  {
    var id := w.sockets[s].identity;
    if id in w.dict && w.dict[id] < |w.sockets| then Some(w.dict[id]) else None
  }

  function Deliver(w: World, t: nat, data: Bytes, length: nat): World
    requires t < |w.sockets|
  {
    var x := w.sockets[t];
    Log(Update(w, t, x.(delivered := x.delivered + data, held := length)), DidReadData(t, data))
  }

  function Acknowledge(w: World, t: nat): World {
    if !IsValid(w, t) then w
    else
      var x := w.sockets[t];
      Update(w, t, x.(credit := x.credit + x.held, held := 0))
  }

  function Recved(w: World, t: nat, buf: Option<Pbuf>, script: seq<Action>): World
    requires t < |w.sockets|
  {
    match buf
    case None => Run(Log(w, LocalDidClose(t)), script)
    case Some(p) => Acknowledge(Run(Deliver(w, t, CopyPartial(p, p.totLen), p.totLen), script), t)
  }

  function Errored(w: World, t: nat, code: int, script: seq<Action>): World
    requires t < |w.sockets|
  {
    var w' := Release(w, t);
    if code == ERR_RST then Run(Log(w', Ended(t, DidReset)), script)
    else if code == ERR_ABRT then Run(Log(w', Ended(t, DidAbort)), script)
    else w'
  }

  function Step(w: World, e: Event): World
    requires Enabled(w, e)
  {
    match e
    case Accept(key) =>
      World(w.sockets + [Socket(key, true, false, [], 0, 0)], w.dict[key := |w.sockets|], w.log)
    case Recv(s, buf, script) =>
      (match Lookup(w, s) case Some(t) => Recved(w, t, buf, script) case None => w)
    case Sent(s, length, script) =>
      (match Lookup(w, s) case Some(t) => Run(Log(w, DidWriteData(t, length)), script) case None => w)
    case Err(s, code, script) =>
      (match Lookup(w, s) case Some(t) => Errored(w, t, code, script) case None => w)
    case Call(script) => Run(w, script)
  }

  ghost predicate Legal(w: World, events: seq<Event>)
    decreases |events|
  {
    events == [] || (Enabled(w, events[0]) && Legal(Step(w, events[0]), events[1..]))
  }

  ghost function Exec(w: World, events: seq<Event>): World
    requires Legal(w, events)
    decreases |events|
  {
    if events == [] then w else Exec(Step(w, events[0]), events[1..])
  }
}
