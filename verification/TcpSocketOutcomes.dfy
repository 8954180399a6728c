/** What becomes of a socket over whole runs: everything its delegate is told, its window credit, and what its callbacks
    return to lwIP. */
module TcpSocketOutcomes {
  import opened Common
  import opened TcpSocketSpec
  import opened TcpSocketSafety
  import opened TcpSocketLog

  // ---------------------------------------------------------------------------------------------
  // A socket that has ended
  // ---------------------------------------------------------------------------------------------

  /** `w'` is `w` as far as an ended socket `s` is concerned: its state, and what its delegate has been told. */
  ghost predicate Untouched(w: World, w': World, s: nat) {
    && s < |w.sockets| <= |w'.sockets| && w'.sockets[s] == w.sockets[s]
    && w.log <= w'.log && forall i :: |w.log| <= i < |w'.log| ==> w'.log[i].s != s
  }

  lemma UntouchedTwice(w: World, w1: World, w2: World, s: nat)
    requires Untouched(w, w1, s) && Untouched(w1, w2, s)
    ensures Untouched(w, w2, s)
  {
    assert forall i :: |w.log| <= i < |w1.log| ==> w2.log[i] == w1.log[i];
  }

  lemma QuietLeaves(w: World, w': World, s: nat)
    requires Quiet(w, w') && s < |w.sockets| && !IsValid(w, s)
    ensures Untouched(w, w', s)
  {
  }

  lemma NoteLeaves(w: World, note: Note, s: nat)
    requires s < |w.sockets| && note.s != s
    ensures Untouched(w, Log(w, note), s)
  {
  }

  lemma DeliverLeaves(w: World, t: nat, data: Bytes, length: nat, s: nat)
    requires s < |w.sockets| && t < |w.sockets| && t != s
    ensures Untouched(w, Deliver(w, t, data, length), s)
  {
  }

  lemma ReleaseLeaves(w: World, t: nat, s: nat)
    requires s < |w.sockets| && t < |w.sockets| && t != s
    ensures Untouched(w, Release(w, t), s)
  {
  }

  /** A notification about another socket, with what the delegate does inside it. */
  lemma NotifyLeaves(w: World, note: Note, script: seq<Action>, s: nat)
    requires Inv(Log(w, note)) && s < |w.sockets| && !IsValid(w, s) && note.s != s
    ensures Untouched(w, Run(Log(w, note), script), s)
  {
    NoteLeaves(w, note, s);
    RunKeeps(Log(w, note), script);
    QuietLeaves(Log(w, note), Run(Log(w, note), script), s);
    UntouchedTwice(w, Log(w, note), Run(Log(w, note), script), s);
  }

  lemma RecvLeaves(w: World, t: nat, p: Pbuf, script: seq<Action>, s: nat)
    requires Inv(w) && Settled(w) && IsValid(w, t) && ChainValid(p) && s < |w.sockets| && !IsValid(w, s)
    ensures Untouched(w, Recved(w, t, Some(p), script), s)
  {
    var w1 := Deliver(w, t, CopyPartial(p, p.totLen), p.totLen);
    DeliverKeeps(w, t, p);
    DeliverLeaves(w, t, CopyPartial(p, p.totLen), p.totLen, s);
    RunKeeps(w1, script);
    QuietLeaves(w1, Run(w1, script), s);
    UntouchedTwice(w, w1, Run(w1, script), s);
  }

  lemma ErrLeaves(w: World, t: nat, code: int, script: seq<Action>, s: nat)
    requires Inv(w) && Settled(w) && IsValid(w, t) && s < |w.sockets| && !IsValid(w, s)
    ensures Untouched(w, Errored(w, t, code, script), s)
  {
    var w1 := Release(w, t);
    ReleaseLeaves(w, t, s);
    ReleaseKeeps(w, t);
    if code == ERR_RST || code == ERR_ABRT {
      var end := if code == ERR_RST then DidReset else DidAbort;
      EndKeeps(w, t, end);
      NotifyLeaves(w1, Ended(t, end), script, s);
      UntouchedTwice(w, w1, Errored(w, t, code, script), s);
    }
  }

  /** No event changes an ended socket, or tells its delegate anything. */
  lemma StepLeaves(w: World, e: Event, s: nat)
    requires Inv(w) && Settled(w) && Enabled(w, e) && s < |w.sockets| && !IsValid(w, s)
    ensures Untouched(w, Step(w, e), s)
  {
    match e
    case Accept(key) =>
    case Recv(t, buf, script) =>
      LookupFindsItself(w, t);
      if buf.Some? {
        RecvLeaves(w, t, buf.value, script, s);
      } else {
        NoteKeeps(w, LocalDidClose(t));
        NotifyLeaves(w, LocalDidClose(t), script, s);
      }
    case Sent(t, length, script) =>
      LookupFindsItself(w, t);
      NoteKeeps(w, DidWriteData(t, length));
      NotifyLeaves(w, DidWriteData(t, length), script, s);
    case Err(t, code, script) =>
      LookupFindsItself(w, t);
      ErrLeaves(w, t, code, script, s);
    case Call(script) =>
      RunKeeps(w, script);
      QuietLeaves(w, Run(w, script), s);
  }

  /** The delegate calls by which the callbacks of socket `s` begin. */
  function Calls(events: seq<Event>, s: nat): seq<Note> {
    if events == [] then [] else Told(events[0], s) + Calls(events[1..], s)
  }

  /** An ended socket stays as it is through every run; lwIP hands nothing over for it any more. */
  lemma {:induction false} EndedStays(w: World, events: seq<Event>, s: nat)
    requires Inv(w) && Settled(w) && Legal(w, events) && s < |w.sockets| && !IsValid(w, s)
    ensures Untouched(w, Exec(w, events), s) && Handed(events, s) == [] && Calls(events, s) == []
    decreases |events|
  {
    if events != [] {
      var w1 := Step(w, events[0]);
      StepLeaves(w, events[0], s);
      StepKeeps(w, events[0]);
      EndedStays(w1, events[1..], s);
      UntouchedTwice(w, w1, Exec(w, events), s);
    }
  }

  // ---------------------------------------------------------------------------------------------
  // Window credit
  // ---------------------------------------------------------------------------------------------

  /** The size of the chain during whose delivery socket `s` ended; zero if it did not end during a delivery. */
  ghost function Withheld(w: World, events: seq<Event>, s: nat): nat
    requires Legal(w, events)
    decreases |events|
  {
    if events == [] then 0
    else if IsValid(w, s) && !IsValid(Step(w, events[0]), s) then |Own(events[0], s)|
    else Withheld(Step(w, events[0]), events[1..], s)
  }

  /** What the event adds to the credit of socket `s`: its own chain, if the socket outlives the event. */
  ghost predicate Credits(w: World, w': World, e: Event, s: nat) {
    && s < |w.sockets| <= |w'.sockets|
    && w'.sockets[s].credit == w.sockets[s].credit + if w'.sockets[s].valid then |Own(e, s)| else 0
  }

  lemma QuietCredits(w: World, w': World, e: Event, s: nat)
    requires Quiet(w, w') && Own(e, s) == [] && s < |w.sockets|
    ensures Credits(w, w', e, s)
  {
  }

  lemma RecvCredits(w: World, t: nat, buf: Option<Pbuf>, script: seq<Action>, s: nat)
    requires Inv(w) && Settled(w) && Enabled(w, Recv(t, buf, script)) && s < |w.sockets|
    ensures Credits(w, Step(w, Recv(t, buf, script)), Recv(t, buf, script), s)
  {
    LookupFindsItself(w, t);
    hide Inv, Settled, Announced, Quiet, Run, Lookup, Recved, ChainBytes;
    if buf.Some? {
      RecvKeeps(w, t, buf.value, script);
      CopyTotalIsChain(buf.value);
    } else {
      RecvNone(w, t, script);
      NotifyKeeps(w, LocalDidClose(t), script);
      QuietCredits(w, Run(Log(w, LocalDidClose(t)), script), Recv(t, buf, script), s);
    }
  }

  /** One event credits its own chain to its own socket if that outlives the event, and nothing else. */
  lemma StepCredits(w: World, e: Event, s: nat)
    requires Inv(w) && Settled(w) && Enabled(w, e) && s < |w.sockets|
    ensures Credits(w, Step(w, e), e, s)
  {
    match e
    case Accept(key) =>
    case Recv(t, buf, script) =>
      hide *;
      RecvCredits(w, t, buf, script, s);
    case Sent(t, length, script) =>
      LookupFindsItself(w, t);
      hide Inv, Settled, Announced, Quiet, Run, Lookup;
      NotifyKeeps(w, DidWriteData(t, length), script);
      QuietCredits(w, Run(Log(w, DidWriteData(t, length)), script), e, s);
    case Err(t, code, script) =>
      LookupFindsItself(w, t);
      hide Inv, Settled, Announced, Run, Errored, Lookup;
      ErrKeeps(w, t, code, script);
    case Call(script) =>
      hide Inv, Settled, Announced, Quiet, Run;
      RunKeeps(w, script);
      QuietCredits(w, Run(w, script), e, s);
  }

  function CreditOf(w: World, s: nat): nat {
    if s < |w.sockets| then w.sockets[s].credit else 0
  }

  lemma NewSocketHasNoCredit(w: World, e: Event, s: nat)
    requires Inv(w) && Settled(w) && Enabled(w, e) && |w.sockets| <= s
    ensures CreditOf(Step(w, e), s) == 0 && Own(e, s) == []
    ensures s < |Step(w, e).sockets| ==> IsValid(Step(w, e), s)
  {
    StepKeeps(w, e);
  }

  /** Over every run the credit grows by what is handed over, less what is withheld. */
  lemma {:induction false} RunCredits(w: World, events: seq<Event>, s: nat)
    requires Inv(w) && Settled(w) && Legal(w, events) && (s < |w.sockets| ==> IsValid(w, s))
    ensures CreditOf(Exec(w, events), s) + Withheld(w, events, s) == CreditOf(w, s) + |Handed(events, s)|
    decreases |events|
  {
    if events != [] {
      var e, rest := events[0], events[1..];
      var w1 := Step(w, e);
      StepKeeps(w, e);
      if s < |w.sockets| {
        StepCredits(w, e, s);
        if IsValid(w1, s) {
          RunCredits(w1, rest, s);
        } else {
          EndedStays(w1, rest, s);
        }
      } else {
        NewSocketHasNoCredit(w, e, s);
        RunCredits(w1, rest, s);
      }
    }
  }

  // ---------------------------------------------------------------------------------------------
  // Everything the delegate is told
  // ---------------------------------------------------------------------------------------------

  /** How the end of socket `s` is told: as the event that ends it says. None while it has not ended. */
  ghost function EndTold(w: World, events: seq<Event>, s: nat): Option<End>
    requires Legal(w, events)
    decreases |events|
  {
    if events == [] then None
    else if IsValid(w, s) && !IsValid(Step(w, events[0]), s) then EndOf(events[0], s)
    else EndTold(Step(w, events[0]), events[1..], s)
  }

  lemma {:induction false} UntouchedLog(log: seq<Note>, log': seq<Note>, s: nat)
    requires log <= log' && forall i :: |log| <= i < |log'| ==> log'[i].s != s
    ensures LogOf(log', s) == LogOf(log, s)
    decreases |log'|
  {
    if log == log' {
    } else {
      var init := log'[..|log'| - 1];
      assert log <= init;
      UntouchedLog(log, init, s);
    }
  }

  lemma UnbornLogs(w: World, e: Event, s: nat)
    requires Inv(w) && Settled(w) && Enabled(w, e) && |w.sockets| <= s
    ensures LogOf(Step(w, e).log, s) == LogOf(w.log, s) && Told(e, s) == [] && !IsValid(w, s)
  {
    if !e.Accept? {
      StepLogs(w, e, s);
    }
  }

  /** The whole log of a socket over a run: the calls by which its callbacks begin, in order, and, once it has ended, its
      release and how its end is told. */
  lemma {:induction false} RunLogs(w: World, events: seq<Event>, s: nat)
    requires Inv(w) && Settled(w) && Legal(w, events) && (s < |w.sockets| ==> IsValid(w, s))
    ensures var w' := Exec(w, events);
            LogOf(w'.log, s) == LogOf(w.log, s) + Calls(events, s)
              + if s < |w'.sockets| && !IsValid(w', s) then LastNotes(s, EndTold(w, events, s)) else []
    decreases |events|
  {
    var w' := Exec(w, events);
    if events == [] {
      assert LogOf(w.log, s) + [] + [] == LogOf(w.log, s);
    } else {
      var e, rest := events[0], events[1..];
      var w1 := Step(w, e);
      StepKeeps(w, e);
      if s < |w.sockets| && !IsValid(w1, s) {
        StepLogs(w, e, s);
        EndedStays(w1, rest, s);
        UntouchedLog(w1.log, w'.log, s);
        assert Told(e, s) + [] == Told(e, s);
      } else {
        if s < |w.sockets| {
          StepLogs(w, e, s);
        } else {
          UnbornLogs(w, e, s);
          NewSocketHasNoCredit(w, e, s);
        }
        RunLogs(w1, rest, s);
        LogSplits(LogOf(w.log, s), Told(e, s), Calls(rest, s), LogOf(w1.log, s));
      }
    }
  }

  lemma LogSplits<T>(before: seq<T>, first: seq<T>, rest: seq<T>, middle: seq<T>)
    requires middle == before + first + [] || (middle == before && first == [])
    ensures middle + rest == before + (first + rest)
  {
  }

  /** The bytes that the delegate has read in these calls. */
  function ReadBytes(notes: seq<Note>): Bytes {
    if notes == [] then []
    else (if notes[0].DidReadData? then notes[0].data else []) + ReadBytes(notes[1..])
  }

  /** What the first call of a callback reads, if it reads, comes first. */
  lemma ToldReads(e: Event, s: nat, rest: seq<Note>)
    ensures ReadBytes(Told(e, s) + rest) == Own(e, s) + ReadBytes(rest)
  {
    hide ChainBytes;
    if Told(e, s) == [] {
      assert Told(e, s) + rest == rest && Own(e, s) + ReadBytes(rest) == ReadBytes(rest);
    } else {
      assert (Told(e, s) + rest)[1..] == rest;
    }
  }

  /** What the delegate reads in these calls is what lwIP hands over. */
  lemma {:induction false} CallsRead(events: seq<Event>, s: nat)
    ensures ReadBytes(Calls(events, s)) == Handed(events, s)
  {
    if events != [] {
      CallsRead(events[1..], s);
      ToldReads(events[0], s, Calls(events[1..], s));
    }
  }

  lemma {:induction false} LastNotesRead(notes: seq<Note>, s: nat, end: Option<End>)
    ensures ReadBytes(notes + LastNotes(s, end)) == ReadBytes(notes)
  {
    if notes == [] {
      var last := LastNotes(s, end);
      assert notes + last == last && last[1..] == if end.Some? then [Ended(s, end.value)] else [];
      assert end.Some? ==> last[1..][1..] == [];
      assert ReadBytes(last[1..]) == [];
    } else {
      LastNotesRead(notes[1..], s, end);
      assert (notes + LastNotes(s, end))[1..] == notes[1..] + LastNotes(s, end);
    }
  }

  lemma {:induction false} CallsDoNotEnd(events: seq<Event>, s: nat, note: Note)
    requires note in Calls(events, s)
    ensures !note.Released? && !note.Ended?
  {
    if note !in Told(events[0], s) {
      CallsDoNotEnd(events[1..], s, note);
    }
  }

  lemma NotYetEnded(w: World, s: nat, note: Note)
    requires Inv(w) && (s < |w.sockets| ==> IsValid(w, s)) && note in LogOf(w.log, s)
    ensures !note.Released? && !note.Ended?
  {
    LogOfMembers(w.log, s, note);
    var i :| 0 <= i < |w.log| && w.log[i] == note;
  }

  /** A socket is released in a run if and only if it ends. Then it is told how: by a reset or an abort when an error
      event says so, not at all by any other error, and as closed when a delegate's call ended it. */
  lemma RunAnnounces(w: World, events: seq<Event>, s: nat)
    requires Inv(w) && Settled(w) && Legal(w, events) && (s < |w.sockets| ==> IsValid(w, s))
    requires s < |Exec(w, events).sockets|
    ensures var w' := Exec(w, events);
            && (Released(s) in w'.log <==> !IsValid(w', s))
            && forall end :: Ended(s, end) in w'.log <==> !IsValid(w', s) && EndTold(w, events, s) == Some(end)
  {
    var w' := Exec(w, events);
    RunLogs(w, events, s);
    var last := if IsValid(w', s) then [] else LastNotes(s, EndTold(w, events, s));
    assert LogOf(w'.log, s) == LogOf(w.log, s) + Calls(events, s) + last;
    forall note: Note | note.s == s && (note.Released? || note.Ended?) ensures note in w'.log <==> note in last {
      LogOfMembers(w'.log, s, note);
      if note in LogOf(w.log, s) { NotYetEnded(w, s, note); }
      if note in Calls(events, s) { CallsDoNotEnd(events, s, note); }
    }
    hide LogOf, Calls, Inv, Settled, Exec, Legal, EndTold;
  }

  lemma AnnouncedAs(log: seq<Note>, s: nat)
    ensures Announced(log, s) <==> exists end :: Ended(s, end) in log
  {
    if Announced(log, s) {
      var i :| 0 <= i < |log| && log[i].s == s && log[i].Ended?;
      assert Ended(s, log[i].end) in log;
    }
  }

  // ---------------------------------------------------------------------------------------------
  // Everything about one socket after a run
  // ---------------------------------------------------------------------------------------------

  /** Over all runs: the table is exact; the log of a socket is the calls of its own callbacks in order, and behind them,
      exactly when it has ended, its one release and how its end is told, at most once; the delegate reads exactly the
      bytes lwIP handed over, and the window credit is their number less the chain during whose delivery the socket
      ended. */
  lemma EveryRunIsSafe(events: seq<Event>, s: nat)
    requires Legal(Start, events) && s < |Exec(Start, events).sockets|
    ensures var w := Exec(Start, events);
            var x := w.sockets[s];
            var end := EndTold(Start, events, s);
            && (x.valid <==> x.identity in w.dict && w.dict[x.identity] == s)
            && LogOf(w.log, s) == Calls(events, s) + (if x.valid then [] else LastNotes(s, end))
            && Releases(w.log, s) == (if x.valid then 0 else 1)
            && Ends(w.log, s) == (if x.valid || end.None? then 0 else 1)
            && (forall i, j :: 0 <= i < j < |w.log| && w.log[i].s == w.log[j].s == s ==>
                  !w.log[i].Ended? && (w.log[i].Released? ==> w.log[j].Ended?))
            && x.delivered == ReadBytes(LogOf(w.log, s)) == Handed(events, s)
            && x.credit == |Handed(events, s)| - Withheld(Start, events, s)
  {
    StartIsSafe(s);
    hide Inv, Settled, Announced, Releases, Ends, Handed, Withheld, Exec, Legal, EndTold, CreditOf, Start, LogOf, Calls,
      LastNotes, ReadBytes;
    RunsKeep(Start, events);
    var w := Exec(Start, events);
    SocketIsSafe(w, s);
    RunCredits(Start, events, s);
    assert CreditOf(w, s) == w.sockets[s].credit by { CreditIs(w, s); }
    assert [] + Handed(events, s) == Handed(events, s);
    RunLogs(Start, events, s);
    assert [] + Calls(events, s) == Calls(events, s) && Calls(events, s) + [] == Calls(events, s);
    CallsRead(events, s);
    LastNotesRead(Calls(events, s), s, EndTold(Start, events, s));
    RunAnnounces(Start, events, s);
    AnnouncedAs(w.log, s);
  }

  lemma StartIsSafe(s: nat)
    ensures Inv(Start) && Settled(Start) && |Start.sockets| == 0 && CreditOf(Start, s) == 0 && LogOf(Start.log, s) == []
  {
  }

  lemma CreditIs(w: World, s: nat)
    requires s < |w.sockets|
    ensures CreditOf(w, s) == w.sockets[s].credit
  {
  }

  /** What the invariant says about one socket. */
  lemma SocketIsSafe(w: World, s: nat)
    requires Inv(w) && s < |w.sockets|
    ensures var x := w.sockets[s];
            && (x.valid <==> x.identity in w.dict && w.dict[x.identity] == s)
            && Releases(w.log, s) == (if Released(s) in w.log then 1 else 0)
            && Ends(w.log, s) == (if Announced(w.log, s) then 1 else 0)
            && (forall i, j :: 0 <= i < j < |w.log| && w.log[i].s == w.log[j].s == s ==>
                  !w.log[i].Ended? && (w.log[i].Released? ==> w.log[j].Ended?))
  {
    AtMostOnce(w.log, s);
  }

  // ---------------------------------------------------------------------------------------------
  // The value that a callback returns
  // ---------------------------------------------------------------------------------------------

  const ERR_OK: int := 0

  /** `tcp_recv_func` and `tcp_sent_func`: they abort only an unknown socket themselves, and answer OK for every
      known one. */
  function CallbackReturn(w: World, s: nat): int
    requires s < |w.sockets|
  {
    if Lookup(w, s).Some? then ERR_OK else ERR_ABRT
  }

  /** The sockets that a delegate's calls can still end. */
  function OpenSockets(w: World): set<nat> {
    set s | 0 <= s < |w.sockets| && w.sockets[s].valid
  }

  /** Which of the `open` sockets are left after a delegate's call, with what it does inside. */
  function OpenAfter(open: set<nat>, a: Action): set<nat>
    decreases a, 1
  {
    if a.s !in open || (a.Write? && a.accepted) then open else OpenAfterAll(open - {a.s}, a.inside)
  }

  function OpenAfterAll(open: set<nat>, script: seq<Action>): set<nat>
    decreases script, 0
  {
    if script == [] then open else OpenAfterAll(OpenAfter(open, script[0]), script[1..])
  }

  /** The call, or one that the delegate makes inside it, is a `reset()` of socket `s` while that is open. */
  predicate Resets(open: set<nat>, a: Action, s: nat)
    decreases a, 1
  {
    && a.s in open && !(a.Write? && a.accepted)
    && ((a.Reset? && a.s == s) || ResetsAmong(open - {a.s}, a.inside, s))
  }

  predicate ResetsAmong(open: set<nat>, script: seq<Action>, s: nat)
    decreases script, 0
  {
    script != [] && (Resets(open, script[0], s) || ResetsAmong(OpenAfter(open, script[0]), script[1..], s))
  }

  lemma ShutReplays(w: World, t: nat, abort: bool)
    requires IsValid(w, t)
    ensures var w' := Shut(w, t, abort);
            && OpenSockets(w') == OpenSockets(w) - {t} && |w'.sockets| == |w.sockets|
            && forall s: nat :: s < |w.sockets| ==>
                 (w'.sockets[s].aborted <==> w.sockets[s].aborted || (abort && s == t))
  {
  }

  /** The open sockets are all that is needed to tell what a delegate's call aborts. */
  lemma {:induction false} ActReplays(w: World, a: Action, s: nat)
    requires s < |w.sockets|
    ensures OpenSockets(Act(w, a)) == OpenAfter(OpenSockets(w), a) && |Act(w, a).sockets| == |w.sockets|
    ensures Act(w, a).sockets[s].aborted <==> w.sockets[s].aborted || Resets(OpenSockets(w), a, s)
    decreases a, 1
  {
    if IsValid(w, a.s) && !(a.Write? && a.accepted) {
      ShutReplays(w, a.s, a.Reset?);
      RunReplays(Shut(w, a.s, a.Reset?), a.inside, s);
    }
  }

  lemma {:induction false} RunReplays(w: World, script: seq<Action>, s: nat)
    requires s < |w.sockets|
    ensures OpenSockets(Run(w, script)) == OpenAfterAll(OpenSockets(w), script)
    ensures |Run(w, script).sockets| == |w.sockets|
    ensures Run(w, script).sockets[s].aborted <==> w.sockets[s].aborted || ResetsAmong(OpenSockets(w), script, s)
    decreases script, 0
  {
    if script != [] {
      ActReplays(w, script[0], s);
      RunReplays(Act(w, script[0]), script[1..], s);
    }
  }

  /** What a callback does before and after the delegate's calls aborts nothing. */
  lemma CallbackAborts(w: World, e: Event)
    requires Inv(w) && Enabled(w, e) && (e.Recv? || e.Sent?)
    ensures |Step(w, e).sockets| == |w.sockets|
    ensures Step(w, e).sockets[e.s].aborted <==> ResetsAmong(OpenSockets(w), e.script, e.s)
  {
    LookupFindsItself(w, e.s);
    match e
    case Recv(s, buf, script) =>
      var w1 := if buf.Some? then Deliver(w, s, CopyPartial(buf.value, buf.value.totLen), buf.value.totLen)
                else Log(w, LocalDidClose(s));
      assert OpenSockets(w1) == OpenSockets(w) && w1.sockets[s].aborted == w.sockets[s].aborted;
      RunReplays(w1, script, s);
    case Sent(s, length, script) =>
      var w1 := Log(w, DidWriteData(s, length));
      assert OpenSockets(w1) == OpenSockets(w);
      RunReplays(w1, script, s);
  }

  /** lwIP demands ERR_ABRT from a callback exactly when its pcb was aborted in it. With data, with the end of the
      data or with an acknowledgement, this holds if and only if the delegate's calls, at any depth and on any
      sockets, do not come to a `reset()` of the callback's socket while that is open. */
  lemma CallbackReturnContract(w: World, e: Event)
    requires Inv(w) && Enabled(w, e) && (e.Recv? || e.Sent?)
    ensures |Step(w, e).sockets| == |w.sockets|
    ensures (CallbackReturn(w, e.s) == ERR_ABRT <==> Step(w, e).sockets[e.s].aborted)
       <==> !ResetsAmong(OpenSockets(w), e.script, e.s)
  {
    LookupFindsItself(w, e.s);
    CallbackAborts(w, e);
  }

  /** The reset may come from inside a call on another socket: with two sockets, closing the second one, whose
      delegate then resets the first. */
  lemma ResetThroughAnother(key: int, key': int, buf: Option<Pbuf>)
    requires key != key' && (buf.Some? ==> ChainValid(buf.value))
    ensures var e := Recv(0, buf, [Close(1, [Reset(0, [])])]);
            var events := [Accept(key), Accept(key')];
            && Legal(Start, events) && Enabled(Exec(Start, events), e)
            && CallbackReturn(Exec(Start, events), 0) == ERR_OK
            && |Step(Exec(Start, events), e).sockets| == 2 && Step(Exec(Start, events), e).sockets[0].aborted
  {
    var script := [Close(1, [Reset(0, [])])];
    TwoSockets(key, key');
    var w := Exec(Start, [Accept(key), Accept(key')]);
    var e := Recv(0, buf, script);
    CallbackAborts(w, e);
    LookupFindsItself(w, 0);
    ResetInside();
    hide *;
  }

  /** Two sockets that have just been accepted. */
  lemma TwoSockets(key: int, key': int)
    requires key != key'
    ensures var events := [Accept(key), Accept(key')];
            && Legal(Start, events) && Inv(Exec(Start, events)) && |Exec(Start, events).sockets| == 2
            && IsValid(Exec(Start, events), 0) && !Exec(Start, events).sockets[0].aborted
            && OpenSockets(Exec(Start, events)) == {0, 1}
  {
    StartIsSafe(0);
    AcceptKeeps(Start, key);
    var w1 := Step(Start, Accept(key));
    assert w1 == World([Socket(key, true, false, [], 0, 0)], map[key := 0], []);
    hide Inv, Settled, Delivers, Tells, Exec, Legal;
    AcceptKeeps(w1, key');
    var w := Step(w1, Accept(key'));
    assert w.sockets == w1.sockets + [Socket(key', true, false, [], 0, 0)];
    ExecTwo(Start, Accept(key), Accept(key'));
  }

  lemma ExecTwo(w: World, e: Event, e': Event)
    requires Enabled(w, e) && Enabled(Step(w, e), e')
    ensures Legal(w, [e, e']) && Exec(w, [e, e']) == Step(Step(w, e), e')
  {
    hide Step, Enabled;
    assert [e, e'][1..] == [e'] && [e'][1..] == [];
    var w' := Step(Step(w, e), e');
    assert Legal(w', []) && Exec(w', []) == w';
  }

  lemma ResetInside()
    ensures ResetsAmong({0, 1}, [Close(1, [Reset(0, [])])], 0)
  {
    var inside := [Reset(0, [])];
    assert Resets({0, 1} - {1}, inside[0], 0);
    assert ResetsAmong({0, 1} - {1}, inside, 0);
    assert Resets({0, 1}, Close(1, inside), 0);
  }
}
