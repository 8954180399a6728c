/** What every run of the TCP sockets keeps, with calls from inside any callback. */
module TcpSocketSafety {
  import opened Common
  import opened TcpSocketSpec

  /** A socket is valid exactly when the table maps its identity to it. */
  ghost predicate TableExact(w: World) {
    && (forall k :: k in w.dict ==> w.dict[k] < |w.sockets| && w.sockets[w.dict[k]].identity == k)
    && (forall s: nat :: s < |w.sockets| ==>
          (w.sockets[s].valid <==> w.sockets[s].identity in w.dict && w.dict[w.sockets[s].identity] == s))
  }

  /** After its release a socket gets at most one more note, the note that it ended. */
  ghost predicate LogOrdered(log: seq<Note>) {
    forall i, j :: 0 <= i < j < |log| && log[i].s == log[j].s ==>
      && (log[i].Released? ==> log[j].Ended?)
      && !log[i].Ended?
  }

  /** No valid socket was released, notes are about existing sockets. */
  ghost predicate LogMatches(w: World) {
    forall i :: 0 <= i < |w.log| ==>
      && w.log[i].s < |w.sockets|
      && (w.sockets[w.log[i].s].valid ==> !w.log[i].Released? && !w.log[i].Ended?)
  }

  /** Every delivered byte has been credited or belongs to the chain that is held. */
  ghost predicate Credited(w: World) {
    forall s: nat :: s < |w.sockets| ==> |w.sockets[s].delivered| == w.sockets[s].credit + w.sockets[s].held
  }

  ghost predicate NoneAborted(w: World) {
    forall s: nat :: IsValid(w, s) ==> !w.sockets[s].aborted
  }

  ghost predicate Inv(w: World) {
    TableExact(w) && LogOrdered(w.log) && LogMatches(w) && Credited(w) && NoneAborted(w)
  }

  /** Between events no valid socket holds an uncredited chain. */
  ghost predicate Settled(w: World) {
    forall s: nat :: IsValid(w, s) ==> w.sockets[s].held == 0
  }

  ghost predicate Announced(log: seq<Note>, s: nat) {
    exists i :: 0 <= i < |log| && log[i].s == s && log[i].Ended?
  }

  /** `x'` is `x` after calls of the delegate: nothing is delivered or credited, and what has ended stays as it is. */
  predicate MayEnd(x: Socket, x': Socket) {
    && x'.identity == x.identity && x'.delivered == x.delivered && x'.credit == x.credit && x'.held == x.held
    && (x'.valid ==> x.valid) && (x.aborted ==> x'.aborted) && (!x.valid ==> x' == x)
  }

  /** What the delegate's calls leave alone: existing sockets stay, ended ones stay ended and hear nothing more, and
      nothing is delivered or credited. A socket that ends is told so. */
  ghost predicate Quiet(w: World, w': World) {
    && |w'.sockets| == |w.sockets|
    && w.log <= w'.log
    && (forall i :: |w.log| <= i < |w'.log| ==> IsValid(w, w'.log[i].s))
    && (forall s: nat :: IsValid(w, s) && !IsValid(w', s) ==> Announced(w'.log, s))
    && (forall s: nat :: s < |w.sockets| ==> MayEnd(w.sockets[s], w'.sockets[s]))
  }

  lemma AnnouncedStays(log: seq<Note>, log': seq<Note>, s: nat)
    requires log <= log' && Announced(log, s)
    ensures Announced(log', s)
  {
    var i :| 0 <= i < |log| && log[i].s == s && log[i].Ended?;
    assert log'[i] == log[i];
  }

  lemma QuietTwice(w: World, w1: World, w2: World)
    requires Quiet(w, w1) && Quiet(w1, w2)
    ensures Quiet(w, w2)
  {
    forall s: nat | IsValid(w, s) && !IsValid(w2, s) ensures Announced(w2.log, s) {
      if !IsValid(w1, s) {
        AnnouncedStays(w1.log, w2.log, s);
      }
    }
    hide Announced;
    forall i | |w.log| <= i < |w2.log| ensures IsValid(w, w2.log[i].s) {
      if i < |w1.log| {
        assert w2.log[i] == w1.log[i];
      }
    }
  }

  lemma ReleaseKeeps(w: World, s: nat)
    requires Inv(w) && IsValid(w, s)
    ensures Inv(Release(w, s))
  {
  }

  lemma EndKeeps(w: World, s: nat, end: End)
    requires Inv(w) && IsValid(w, s)
    ensures Inv(Log(Release(w, s), Ended(s, end)))
  {
    ReleaseKeeps(w, s);
  }

  /** Whether the pcb of an ended socket is aborted does not matter to the invariant. */
  lemma AbortedKeeps(w: World, s: nat, aborted: bool)
    requires Inv(w) && s < |w.sockets| && !IsValid(w, s)
    ensures Inv(Update(w, s, w.sockets[s].(aborted := aborted)))
  {
  }

  lemma ShutIs(w: World, s: nat, abort: bool)
    requires s < |w.sockets|
    ensures var w1 := Log(Release(w, s), Ended(s, DidClose));
            Shut(w, s, abort) == Update(w1, s, w1.sockets[s].(aborted := w.sockets[s].aborted || abort))
  {
  }

  lemma ShutIsQuiet(w: World, s: nat, abort: bool)
    requires IsValid(w, s)
    ensures Quiet(w, Shut(w, s, abort)) && !IsValid(Shut(w, s, abort), s)
  {
    var log := Shut(w, s, abort).log;
    assert log[|log| - 1] == Ended(s, DidClose);
  }

  lemma ShutKeeps(w: World, s: nat, abort: bool)
    requires Inv(w) && IsValid(w, s)
    ensures Inv(Shut(w, s, abort)) && Quiet(w, Shut(w, s, abort))
    ensures !IsValid(Shut(w, s, abort), s)
  {
    var w1 := Log(Release(w, s), Ended(s, DidClose));
    assert s < |w1.sockets| && !IsValid(w1, s);
    ShutIs(w, s, abort);
    EndKeeps(w, s, DidClose);
    ShutIsQuiet(w, s, abort);
    AbortedKeeps(w1, s, w.sockets[s].aborted || abort);
    hide *;
  }

  lemma {:induction false} ActKeeps(w: World, a: Action)
    requires Inv(w)
    ensures Inv(Act(w, a)) && Quiet(w, Act(w, a))
    decreases a, 1
  {
    if !IsValid(w, a.s) || (a.Write? && a.accepted) {
      QuietItself(w);
      hide Inv, Quiet;
    } else {
      hide Inv, Quiet, Shut;
      var w1 := Shut(w, a.s, a.Reset?);
      ShutKeeps(w, a.s, a.Reset?);
      RunKeeps(w1, a.inside);
      QuietTwice(w, w1, Run(w1, a.inside));
    }
  }

  lemma QuietItself(w: World)
    ensures Quiet(w, w)
  {
  }

  /** Whatever the delegate does inside a callback, at any depth, keeps the invariant. */
  lemma {:induction false} RunKeeps(w: World, script: seq<Action>)
    requires Inv(w)
    ensures Inv(Run(w, script)) && Quiet(w, Run(w, script))
    decreases script, 0
  {
    QuietItself(w);
    hide Inv, Quiet, Act;
    if script != [] {
      ActKeeps(w, script[0]);
      RunKeeps(Act(w, script[0]), script[1..]);
      QuietTwice(w, Act(w, script[0]), Run(w, script));
    }
  }

  lemma LookupFindsItself(w: World, s: nat)
    requires Inv(w) && IsValid(w, s)
    ensures Lookup(w, s) == Some(s)
  {
  }

  lemma NoteKeeps(w: World, note: Note)
    requires Inv(w) && IsValid(w, note.s) && !note.Released? && !note.Ended?
    ensures Inv(Log(w, note))
  {
  }

  lemma DeliverKeeps(w: World, s: nat, p: Pbuf)
    requires Inv(w) && IsValid(w, s) && w.sockets[s].held == 0 && ChainValid(p)
    ensures Inv(Deliver(w, s, CopyPartial(p, p.totLen), p.totLen))
  {
    CopyTotalIsChain(p);
    var x := w.sockets[s];
    var data := CopyPartial(p, p.totLen);
    var w1 := Update(w, s, x.(delivered := x.delivered + data, held := p.totLen));
    assert |w1.sockets[s].delivered| == w1.sockets[s].credit + w1.sockets[s].held;
    assert Inv(w1);
    NoteKeeps(w1, DidReadData(s, data));
  }

  lemma RecvKeeps(w: World, s: nat, p: Pbuf, script: seq<Action>)
    requires Inv(w) && Settled(w) && IsValid(w, s) && ChainValid(p)
    ensures var w' := Recved(w, s, Some(p), script);
            && Inv(w') && Settled(w')
            && |w'.sockets| == |w.sockets|
            && (forall t: nat :: t < |w.sockets| && t != s ==>
                  w'.sockets[t].delivered == w.sockets[t].delivered && w'.sockets[t].credit == w.sockets[t].credit)
            && w'.sockets[s].delivered == w.sockets[s].delivered + ChainBytes(p)
            && w'.sockets[s].held == (if IsValid(w', s) then 0 else p.totLen)
            && w'.sockets[s].credit == w.sockets[s].credit + (if IsValid(w', s) then p.totLen else 0)
            && (forall t: nat :: IsValid(w, t) && !IsValid(w', t) ==> Announced(w'.log, t))
  {
    var w1 := Deliver(w, s, CopyPartial(p, p.totLen), p.totLen);
    var w2 := Run(w1, script);
    DeliverKeeps(w, s, p);
    CopyTotalIsChain(p);
    RunKeeps(w1, script);
    AcknowledgeKeeps(w2, s);
    hide Inv, CopyPartial, ChainBytes, ChainValid, Announced, Run;
    forall t: nat | IsValid(w, t) && !IsValid(w2, t) ensures Announced(w2.log, t) {
      assert IsValid(w1, t);
    }
    assert Settled(Acknowledge(w2, s));
  }

  lemma AcknowledgeKeeps(w: World, s: nat)
    requires Inv(w)
    ensures Inv(Acknowledge(w, s))
  {
  }

  /** A delegate call that delivers no data, and what the delegate does inside it. */
  lemma NotifyKeeps(w: World, note: Note, script: seq<Action>)
    requires Inv(w) && Settled(w) && IsValid(w, note.s) && !note.Released? && !note.Ended?
    ensures var w' := Run(Log(w, note), script);
            Inv(w') && Settled(w') && Quiet(w, w')
  {
    NoteKeeps(w, note);
    RunKeeps(Log(w, note), script);
    QuietSettles(Log(w, note), Run(Log(w, note), script));
  }

  lemma QuietSettles(w: World, w': World)
    requires Quiet(w, w') && Settled(w)
    ensures Settled(w')
  {
    forall t: nat | IsValid(w', t) ensures w'.sockets[t].held == 0 {
      assert IsValid(w, t);
    }
  }

  /** The end of a socket by an error: what happens before the delegate is told. */
  lemma ReleaseSettles(w: World, s: nat)
    requires Settled(w) && IsValid(w, s)
    ensures Settled(Release(w, s)) && !IsValid(Release(w, s), s)
  {
  }

  lemma ErrKeeps(w: World, s: nat, code: int, script: seq<Action>)
    requires Inv(w) && Settled(w) && IsValid(w, s)
    ensures var w' := Errored(w, s, code, script);
            && Inv(w') && Settled(w') && |w'.sockets| == |w.sockets| && !IsValid(w', s)
            && (forall t: nat :: t < |w.sockets| ==>
                  w'.sockets[t].delivered == w.sockets[t].delivered && w'.sockets[t].credit == w.sockets[t].credit)
            && (forall t: nat :: IsValid(w, t) && !IsValid(w', t) && t != s ==> Announced(w'.log, t))
            && (Announced(w'.log, s) <==> code == ERR_RST || code == ERR_ABRT)
  {
    ReleaseKeeps(w, s);
    ReleaseSettles(w, s);
    if code == ERR_RST || code == ERR_ABRT {
      var end := if code == ERR_RST then DidReset else DidAbort;
      var w2 := Log(Release(w, s), Ended(s, end));
      EndKeeps(w, s, end);
      ToldKeeps(w, s, end, script);
      hide Inv, Settled, Announced, Run;
    } else {
      NotTold(w, s);
      hide Inv, Settled, Announced;
    }
  }

  /** A release alone tells nobody. */
  lemma NotTold(w: World, s: nat)
    requires Inv(w) && IsValid(w, s)
    ensures !Announced(Release(w, s).log, s)
  {
  }

  lemma ToldKeeps(w: World, s: nat, end: End, script: seq<Action>)
    requires Inv(w) && Settled(w) && IsValid(w, s)
    ensures var w2 := Log(Release(w, s), Ended(s, end));
            var w' := Run(w2, script);
            Inv(w') && Settled(w') && Quiet(w2, w') && Announced(w'.log, s)
  {
    var w2 := Log(Release(w, s), Ended(s, end));
    EndKeeps(w, s, end);
    ReleaseSettles(w, s);
    assert Announced(w2.log, s) by {
      assert w2.log[|w2.log| - 1] == Ended(s, end);
    }
    assert Settled(w2);
    hide Inv, Release;
    RunKeeps(w2, script);
    QuietSettles(w2, Run(w2, script));
    AnnouncedStays(w2.log, Run(w2, script).log, s);
  }

  /** An error event for socket `s` that is neither a reset nor an abort. */
  predicate SilentError(e: Event, s: nat) {
    e.Err? && e.s == s && e.code != ERR_RST && e.code != ERR_ABRT
  }

  /** The bytes that event `e` hands over for socket `s`. */
  function Own(e: Event, s: nat): Bytes {
    if e.Recv? && e.s == s && e.buf.Some? then ChainBytes(e.buf.value) else []
  }

  /** The event delivers exactly its own chain to its own socket; a new socket has got nothing. */
  ghost predicate Delivers(w: World, w': World, e: Event) {
    && |w'.sockets| == |w.sockets| + (if e.Accept? then 1 else 0)
    && (forall s: nat :: s < |w.sockets| ==> w'.sockets[s].delivered == w.sockets[s].delivered + Own(e, s))
    && (forall s: nat :: |w.sockets| <= s < |w'.sockets| ==> w'.sockets[s].delivered == [])
  }

  /** Every socket that the event ends is told, except by an error that is neither a reset nor an abort. */
  ghost predicate Tells(w: World, w': World, e: Event) {
    forall s: nat :: IsValid(w, s) && !IsValid(w', s) ==> (Announced(w'.log, s) <==> !SilentError(e, s))
  }

  lemma QuietDelivers(w: World, w': World, e: Event)
    requires Quiet(w, w') && !e.Accept? && !e.Err? && (e.Recv? ==> e.buf.None?)
    ensures Delivers(w, w', e) && Tells(w, w', e)
  {
    hide Announced;
    forall s: nat | s < |w.sockets| ensures w'.sockets[s].delivered == w.sockets[s].delivered + Own(e, s) {
      assert MayEnd(w.sockets[s], w'.sockets[s]);
    }
  }

  lemma AcceptKeeps(w: World, key: int)
    requires Inv(w) && Settled(w) && Enabled(w, Accept(key))
    ensures var w' := Step(w, Accept(key));
            Inv(w') && Settled(w') && Delivers(w, w', Accept(key)) && Tells(w, w', Accept(key))
  {
  }

  lemma RecvStepKeeps(w: World, s: nat, buf: Option<Pbuf>, script: seq<Action>)
    requires Inv(w) && Settled(w) && Enabled(w, Recv(s, buf, script))
    ensures var e := Recv(s, buf, script);
            var w' := Step(w, e);
            Inv(w') && Settled(w') && Delivers(w, w', e) && Tells(w, w', e)
  {
    LookupFindsItself(w, s);
    hide Inv, Settled, Quiet, Announced, Run, ChainBytes, Recved;
    if buf.Some? {
      RecvKeeps(w, s, buf.value, script);
    } else {
      assert Recved(w, s, buf, script) == Run(Log(w, LocalDidClose(s)), script) by { RecvNone(w, s, script); }
      NotifyKeeps(w, LocalDidClose(s), script);
      QuietDelivers(w, Run(Log(w, LocalDidClose(s)), script), Recv(s, buf, script));
    }
  }

  lemma RecvNone(w: World, s: nat, script: seq<Action>)
    requires s < |w.sockets|
    ensures Recved(w, s, None, script) == Run(Log(w, LocalDidClose(s)), script)
  {
  }

  lemma ErrStepKeeps(w: World, s: nat, code: int, script: seq<Action>)
    requires Inv(w) && Settled(w) && Enabled(w, Err(s, code, script))
    ensures var e := Err(s, code, script);
            var w' := Step(w, e);
            Inv(w') && Settled(w') && Delivers(w, w', e) && Tells(w, w', e)
  {
    LookupFindsItself(w, s);
    hide Inv, Settled, Announced, Errored;
    ErrKeeps(w, s, code, script);
  }

  /** Every event keeps the invariant, delivers exactly its own chain to its own socket, and every socket that
      it ends is told, except by an error that is neither a reset nor an abort. */
  lemma StepKeeps(w: World, e: Event)
    requires Inv(w) && Settled(w) && Enabled(w, e)
    ensures Inv(Step(w, e)) && Settled(Step(w, e)) && Delivers(w, Step(w, e), e) && Tells(w, Step(w, e), e)
  {
    match e
    case Accept(key) =>
      hide *;
      AcceptKeeps(w, key);
    case Recv(s, buf, script) =>
      hide *;
      RecvStepKeeps(w, s, buf, script);
    case Sent(s, length, script) =>
      LookupFindsItself(w, s);
      NotifyKeeps(w, DidWriteData(s, length), script);
      QuietDelivers(w, Run(Log(w, DidWriteData(s, length)), script), e);
      hide Inv, Settled, Quiet, Delivers, Tells, Run;
    case Err(s, code, script) =>
      hide *;
      ErrStepKeeps(w, s, code, script);
    case Call(script) =>
      RunKeeps(w, script);
      QuietSettles(w, Run(w, script));
      QuietDelivers(w, Run(w, script), e);
      hide Inv, Settled, Quiet, Delivers, Tells, Run;
  }

  // ---------------------------------------------------------------------------------------------
  // Whole runs
  // ---------------------------------------------------------------------------------------------

  /** The bytes that lwIP handed over for socket `s`. */
  function Handed(events: seq<Event>, s: nat): Bytes {
    if events == [] then []
    else Own(events[0], s) + Handed(events[1..], s)
  }

  lemma {:induction false} RunsKeep(w: World, events: seq<Event>)
    requires Inv(w) && Settled(w) && Legal(w, events)
    ensures var w' := Exec(w, events);
            && Inv(w') && Settled(w') && |w.sockets| <= |w'.sockets|
            && forall s: nat :: s < |w'.sockets| ==>
                 w'.sockets[s].delivered
                 == (if s < |w.sockets| then w.sockets[s].delivered else []) + Handed(events, s)
    decreases |events|
  {
    var w' := Exec(w, events);
    if events == [] {
      assert forall s: nat :: s < |w.sockets| ==> w.sockets[s].delivered + [] == w.sockets[s].delivered;
    } else {
      var e, rest := events[0], events[1..];
      var w1 := Step(w, e);
      StepKeeps(w, e);
      RunsKeep(w1, rest);
      forall s: nat | s < |w'.sockets|
        ensures w'.sockets[s].delivered
                == (if s < |w.sockets| then w.sockets[s].delivered else []) + Handed(events, s)
      {
        var before := if s < |w.sockets| then w.sockets[s].delivered else [];
        Assoc(before, Own(e, s), Handed(rest, s));
        if s >= |w.sockets| { assert Own(e, s) == []; }
        assert [] + Handed(rest, s) == Handed(rest, s);
      }
    }
  }

  function Releases(log: seq<Note>, s: nat): nat {
    if log == [] then 0
    else Releases(log[..|log| - 1], s) + if log[|log| - 1] == Released(s) then 1 else 0
  }

  function Ends(log: seq<Note>, s: nat): nat {
    if log == [] then 0
    else Ends(log[..|log| - 1], s) + if log[|log| - 1].s == s && log[|log| - 1].Ended? then 1 else 0
  }

  lemma {:induction false} AtMostOnce(log: seq<Note>, s: nat)
    requires LogOrdered(log)
    ensures Releases(log, s) <= 1 && Ends(log, s) <= 1
    ensures Releases(log, s) == 0 <==> forall i :: 0 <= i < |log| ==> log[i] != Released(s)
    ensures Ends(log, s) == 0 <==> !Announced(log, s)
    decreases |log|
  {
    if log != [] {
      var init, last := log[..|log| - 1], log[|log| - 1];
      AtMostOnce(init, s);
      if Announced(init, s) {
        var i :| 0 <= i < |init| && init[i].s == s && init[i].Ended?;
        assert log[i].Ended?;
      }
      if Announced(log, s) && !(last.s == s && last.Ended?) {
        var i :| 0 <= i < |log| && log[i].s == s && log[i].Ended?;
        assert init[i].Ended?;
      }
      assert forall i :: 0 <= i < |init| ==> init[i] == log[i];
    }
  }
}
