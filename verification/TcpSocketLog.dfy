/** What the delegate of one socket is told, call by call: the part of the log that is about this socket. */
module TcpSocketLog {
  import opened Common
  import opened TcpSocketSpec
  import opened TcpSocketSafety

  /** The notes about socket `s`, in order. */
  function LogOf(log: seq<Note>, s: nat): seq<Note> {
    if log == [] then []
    else LogOf(log[..|log| - 1], s) + if log[|log| - 1].s == s then [log[|log| - 1]] else []
  }

  lemma LogOfNext(log: seq<Note>, note: Note, s: nat)
    ensures LogOf(log + [note], s) == LogOf(log, s) + if note.s == s then [note] else []
  {
    assert (log + [note])[..|log|] == log;
  }

  lemma {:induction false} LogOfMembers(log: seq<Note>, s: nat, note: Note)
    ensures note in LogOf(log, s) <==> note in log && note.s == s
  {
    if log != [] {
      var init, last := log[..|log| - 1], log[|log| - 1];
      LogOfMembers(init, s, note);
      assert log == init + [last];
    }
  }

  /** The delegate call by which a callback begins: the data of the chain, the end of the data, or what was sent. */
  function Told(e: Event, s: nat): seq<Note> {
    match e
    case Recv(t, Some(p), _) => if t == s then [DidReadData(s, ChainBytes(p))] else []
    case Recv(t, None, _) => if t == s then [LocalDidClose(s)] else []
    case Sent(t, length, _) => if t == s then [DidWriteData(s, length)] else []
    case _ => []
  }

  /** How the delegate is told the end of socket `s`, if event `e` ends it: by the reset or the abort that the event
      reports (lwIP's codes -11 and -10), not at all for any other error, and as closed when a call of a delegate ends
      it. */
  function EndOf(e: Event, s: nat): Option<End> {
    if e.Err? && e.s == s then
      if e.code == -11 then Some(DidReset) else if e.code == -10 then Some(DidAbort) else None
    else Some(DidClose)
  }

  /** The last notes of a socket: its release, and how its end is told, if it is. */
  function LastNotes(s: nat, end: Option<End>): seq<Note> {
    [Released(s)] + if end.Some? then [Ended(s, end.value)] else []
  }

  /** What is logged about `s` from `w` to `w'`, when `s` may end in between. */
  ghost predicate Logs(w: World, w': World, s: nat, first: seq<Note>, end: Option<End>) {
    && (IsValid(w', s) ==> IsValid(w, s))
    && LogOf(w'.log, s) == LogOf(w.log, s) + first + if IsValid(w, s) && !IsValid(w', s) then LastNotes(s, end) else []
  }

  lemma LogsTwice(w: World, w1: World, w2: World, s: nat, first: seq<Note>, end: Option<End>)
    requires Logs(w, w1, s, first, end) && Logs(w1, w2, s, [], end)
    ensures Logs(w, w2, s, first, end)
  {
    var a, b := LogOf(w.log, s) + first, if IsValid(w, s) && !IsValid(w1, s) then LastNotes(s, end) else [];
    var c := if IsValid(w1, s) && !IsValid(w2, s) then LastNotes(s, end) else [];
    assert LogOf(w2.log, s) == a + b + [] + c;
    assert a + [] == a && a + b + [] == a + b && a + b + c == a + (b + c);
  }

  lemma NoteLogs(w: World, note: Note, s: nat, end: Option<End>)
    ensures Logs(w, Log(w, note), s, if note.s == s then [note] else [], end)
  {
    LogOfNext(w.log, note, s);
  }

  /** Two notes at the end of a socket. */
  lemma EndLogs(w: World, t: nat, end: End, s: nat)
    requires IsValid(w, t)
    ensures Logs(w, Log(Release(w, t), Ended(t, end)), s, [], Some(end))
  {
    LogOfNext(w.log, Released(t), s);
    LogOfNext(w.log + [Released(t)], Ended(t, end), s);
    if s == t {
      Assoc(LogOf(w.log, s), [Released(s)], [Ended(s, end)]);
    }
  }

  lemma ReleaseLogs(w: World, t: nat, s: nat)
    requires IsValid(w, t)
    ensures Logs(w, Release(w, t), s, [], None)
  {
    LogOfNext(w.log, Released(t), s);
  }

  lemma ShutLogs(w: World, t: nat, abort: bool, s: nat)
    requires IsValid(w, t)
    ensures Logs(w, Shut(w, t, abort), s, [], Some(DidClose))
  {
    ShutIs(w, t, abort);
    EndLogs(w, t, DidClose, s);
  }

  lemma {:induction false} ActLogs(w: World, a: Action, s: nat)
    ensures Logs(w, Act(w, a), s, [], Some(DidClose))
    decreases a, 1
  {
    if IsValid(w, a.s) && !(a.Write? && a.accepted) {
      hide Logs, Shut;
      var w1 := Shut(w, a.s, a.Reset?);
      ShutLogs(w, a.s, a.Reset?, s);
      ScriptLogs(w1, a.inside, s);
      LogsTwice(w, w1, Run(w1, a.inside), s, [], Some(DidClose));
    }
  }

  /** Whatever the delegate does inside a callback, it is told of nothing but the sockets that end as closed. */
  lemma {:induction false} ScriptLogs(w: World, script: seq<Action>, s: nat)
    ensures Logs(w, Run(w, script), s, [], Some(DidClose))
    decreases script, 0
  {
    if script != [] {
      hide Logs, Act;
      ActLogs(w, script[0], s);
      ScriptLogs(Act(w, script[0]), script[1..], s);
      LogsTwice(w, Act(w, script[0]), Run(w, script), s, [], Some(DidClose));
    }
  }

  /** A delegate call and what the delegate does inside it. */
  lemma NotifyLogs(w: World, note: Note, script: seq<Action>, s: nat)
    ensures Logs(w, Run(Log(w, note), script), s, if note.s == s then [note] else [], Some(DidClose))
  {
    NoteLogs(w, note, s, Some(DidClose));
    ScriptLogs(Log(w, note), script, s);
    LogsTwice(w, Log(w, note), Run(Log(w, note), script), s, if note.s == s then [note] else [], Some(DidClose));
  }

  lemma DeliverLogs(w: World, t: nat, p: Pbuf, s: nat)
    requires t < |w.sockets| && ChainValid(p)
    ensures Logs(w, Deliver(w, t, CopyPartial(p, p.totLen), p.totLen), s,
                 if t == s then [DidReadData(s, ChainBytes(p))] else [], Some(DidClose))
  {
    CopyTotalIsChain(p);
    LogOfNext(w.log, DidReadData(t, ChainBytes(p)), s);
  }

  lemma RecvLogs(w: World, t: nat, p: Pbuf, script: seq<Action>, s: nat)
    requires t < |w.sockets| && ChainValid(p)
    ensures Logs(w, Recved(w, t, Some(p), script), s,
                 if t == s then [DidReadData(s, ChainBytes(p))] else [], Some(DidClose))
  {
    var w1 := Deliver(w, t, CopyPartial(p, p.totLen), p.totLen);
    DeliverLogs(w, t, p, s);
    ScriptLogs(w1, script, s);
    LogsTwice(w, w1, Run(w1, script), s, if t == s then [DidReadData(s, ChainBytes(p))] else [], Some(DidClose));
    assert Recved(w, t, Some(p), script) == Acknowledge(Run(w1, script), t);
    hide Run, Deliver, LogOf, CopyPartial, ChainBytes, Recved;
  }

  /** The socket of an error event ends as the error says, and any other one by a call of the delegate. */
  lemma ErrLogs(w: World, t: nat, code: int, script: seq<Action>, s: nat)
    requires IsValid(w, t)
    ensures Logs(w, Errored(w, t, code, script), s, [], EndOf(Err(t, code, script), s))
  {
    if code == ERR_RST || code == ERR_ABRT {
      var end := if code == ERR_RST then DidReset else DidAbort;
      var w1 := Log(Release(w, t), Ended(t, end));
      EndLogs(w, t, end, s);
      ScriptLogs(w1, script, s);
      ErrParts(w, w1, Run(w1, script), t, s, end);
    } else {
      ReleaseLogs(w, t, s);
      assert t != s ==> Logs(w, Release(w, t), s, [], Some(DidClose));
    }
  }

  lemma ErrParts(w: World, w1: World, w2: World, t: nat, s: nat, end: End)
    requires Logs(w, w1, s, [], Some(end)) && Logs(w1, w2, s, [], Some(DidClose))
    requires if t == s then !IsValid(w1, s) else IsValid(w1, s) == IsValid(w, s)
    ensures Logs(w, w2, s, [], Some(if t == s then end else DidClose))
  {
    var a := LogOf(w.log, s);
    assert a + [] == a;
    LogsTwice(w, w1, w2, s, [], Some(if t == s then end else DidClose));
  }

  /** Over one event: the socket's own delegate call, and then, if the socket ends, its last notes. */
  lemma StepLogs(w: World, e: Event, s: nat)
    requires Inv(w) && Enabled(w, e) && (s < |w.sockets| || !e.Accept?)
    ensures Logs(w, Step(w, e), s, Told(e, s), EndOf(e, s))
  {
    match e
    case Accept(key) =>
    case Recv(t, buf, script) =>
      LookupFindsItself(w, t);
      hide Logs, Inv, Run;
      if buf.Some? {
        RecvLogs(w, t, buf.value, script, s);
        hide Recved;
      } else {
        RecvNone(w, t, script);
        NotifyLogs(w, LocalDidClose(t), script, s);
        hide Recved;
      }
    case Sent(t, length, script) =>
      LookupFindsItself(w, t);
      hide Logs, Inv, Run;
      NotifyLogs(w, DidWriteData(t, length), script, s);
    case Err(t, code, script) =>
      LookupFindsItself(w, t);
      hide Logs, Inv, Errored;
      ErrLogs(w, t, code, script, s);
    case Call(script) =>
      hide Logs;
      ScriptLogs(w, script, s);
  }
}
