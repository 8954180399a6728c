/** Address lookups in flight: the registry by which replies find their resolver, and how each lookup ends. */
module ResolverSpec {
  import opened Common

  const ERR_TIMEOUT := -65568

  datatype Family = V4 | V6 | OtherFamily

  datatype Report = Resolved(ipv4: seq<string>, ipv6: seq<string>) | Failed(code: int)

  /** `ref`: the lookup has not been deallocated. `reports`: what the completion handler has been told. */
  datatype Lookup = Lookup(
    firstResult: bool, id: Option<nat>, ref: bool, cancelled: bool,
    ipv4: seq<string>, ipv6: seq<string>, reports: seq<Report>)

  /** `dict` leads from identifiers to lookups; `started` remembers which lookups the system has accepted. */
  datatype World = World(lookups: seq<Lookup>, dict: map<nat, nat>, curr: nat, started: seq<bool>)

  const Nothing := World([], map[], 0, [])

  datatype Event =
    | Begin(firstResult: bool, accepted: bool)
    | Reply(context: nat, error: int, family: Family, address: string, more: bool)
    | Timeout(r: nat)

  /** Replies carry identifiers that were given out, to accepted lookups as long as these are registered; the timer
      of an accepted lookup may fire at any time, even when it has just been cancelled. */
  predicate Enabled(w: World, e: Event) {
    match e
    case Begin(_, _) => true
    case Reply(k, _, _, _, _) =>
      k < w.curr && (k in w.dict ==> w.dict[k] < |w.lookups| && w.lookups[w.dict[k]].ref)
    case Timeout(r) => r < |w.lookups| && r < |w.started| && w.started[r]
  }

  function Update(w: World, r: nat, x: Lookup): World
    requires r < |w.lookups|
  {
    w.(lookups := w.lookups[r := x])
  }

  /** `release`: the identifier is given back only if it is still held. */
  function Release(w: World, r: nat): World
    requires r < |w.lookups|
  {
    var x := w.lookups[r];
    Update(w, r, x.(cancelled := true, ref := false, id := None))
      .(dict := if x.id.Some? then w.dict - {x.id.value} else w.dict)
  }

  /** Releases the lookup, and tells its completion handler. */
  function Complete(w: World, r: nat, report: Report): World
    requires r < |w.lookups|
  {
    var w1 := Release(w, r);
    Update(w1, r, w1.lookups[r].(reports := w1.lookups[r].reports + [report]))
  }

  function Append(x: Lookup, family: Family, address: string): Lookup {
    match family
    case V4 => x.(ipv4 := x.ipv4 + [address])
    case V6 => x.(ipv6 := x.ipv6 + [address])
    case OtherFamily => x
  }

  function Replied(w: World, r: nat, error: int, family: Family, address: string, more: bool): World
    requires r < |w.lookups|
  {
    var x := w.lookups[r];
    if x.cancelled then w
    else if error != 0 then Complete(w, r, Failed(error))
    else
      var y := Append(x, family, address);
      if y.firstResult || !more then Complete(Update(w, r, y), r, Resolved(y.ipv4, y.ipv6))
      else Update(w, r, y)
  }

  function Step(w: World, e: Event): World
    requires Enabled(w, e)
  {
    match e
    case Begin(firstResult, accepted) =>
      World(w.lookups + [Lookup(firstResult, Some(w.curr), accepted, false, [], [], [])],
            w.dict[w.curr := |w.lookups|], w.curr + 1, w.started + [accepted])
    case Reply(k, error, family, address, more) =>
      if k in w.dict then Replied(w, w.dict[k], error, family, address, more) else w
    case Timeout(r) =>
      if w.lookups[r].cancelled then w else Complete(w, r, Failed(ERR_TIMEOUT))
  }

  ghost predicate Legal(w: World, events: seq<Event>)
    decreases |events|
  {
    events == [] || (Enabled(w, events[0]) && Legal(Step(w, events[0]), events[1..]))
  }

  ghost function Exec(w: World, events: seq<Event>): World
    requires Legal(w, events)
    decreases |events|
  {
    if events == [] then w else Exec(Step(w, events[0]), events[1..])
  }

  // ---------------------------------------------------------------------------------------------
  // What every run keeps
  // ---------------------------------------------------------------------------------------------

  /** The registry holds exactly the lookups that are not released, each under the number of its insertion; a
      released lookup has reported once, any other one not at all. */
  ghost predicate Inv(w: World) {
    && w.curr == |w.lookups| == |w.started|
    && (forall k :: k in w.dict ==> k < |w.lookups| && w.dict[k] == k && !w.lookups[k].cancelled)
    && (forall r: nat :: r < |w.lookups| ==> Sound(w, r))
  }

  ghost predicate Sound(w: World, r: nat)
    requires r < |w.lookups| == |w.started|
  {
    var x := w.lookups[r];
    && (!x.cancelled ==> x.id == Some(r) && r in w.dict && x.reports == [] && x.ref == w.started[r])
    && (x.cancelled ==> x.id.None? && |x.reports| == 1 && !x.ref && w.started[r])
    && (x.reports != [] && x.reports[0].Resolved? ==> x.reports[0] == Resolved(x.ipv4, x.ipv6))
  }

  lemma CompleteKeeps(w: World, r: nat, report: Report)
    requires Inv(w) && r < |w.lookups| && !w.lookups[r].cancelled && w.started[r]
    requires report.Resolved? ==> report == Resolved(w.lookups[r].ipv4, w.lookups[r].ipv6)
    ensures Inv(Complete(w, r, report))
  {
    var w' := Complete(w, r, report);
    assert Sound(w, r);
    forall s: nat | s < |w.lookups| ensures Sound(w', s) {
      assert Sound(w, s);
    }
  }

  lemma AppendKeeps(w: World, r: nat, family: Family, address: string)
    requires Inv(w) && r < |w.lookups| && !w.lookups[r].cancelled
    ensures Inv(Update(w, r, Append(w.lookups[r], family, address)))
  {
    var w' := Update(w, r, Append(w.lookups[r], family, address));
    forall s: nat | s < |w.lookups| ensures Sound(w', s) {
      assert Sound(w, s);
    }
  }

  lemma StepKeeps(w: World, e: Event)
    requires Inv(w) && Enabled(w, e)
    ensures Inv(Step(w, e))
  {
    match e
    case Begin(firstResult, accepted) =>
      var w' := Step(w, e);
      forall s: nat | s < |w'.lookups| ensures Sound(w', s) {
        if s < |w.lookups| { assert Sound(w, s); }
      }
    case Reply(k, error, family, address, more) =>
      if k in w.dict {
        assert Sound(w, k);
        if error != 0 {
          CompleteKeeps(w, k, Failed(error));
        } else {
          var y := Append(w.lookups[k], family, address);
          AppendKeeps(w, k, family, address);
          if y.firstResult || !more {
            CompleteKeeps(Update(w, k, y), k, Resolved(y.ipv4, y.ipv6));
          }
        }
      }
    case Timeout(r) =>
      if !w.lookups[r].cancelled {
        CompleteKeeps(w, r, Failed(ERR_TIMEOUT));
      }
  }

  lemma {:induction false} RunsKeep(w: World, events: seq<Event>)
    requires Inv(w) && Legal(w, events)
    ensures Inv(Exec(w, events))
    decreases |events|
  {
    if events != [] {
      StepKeeps(w, events[0]);
      RunsKeep(Step(w, events[0]), events[1..]);
    }
  }

  /** Over all runs, a completion handler is called at most once, and exactly for the lookups that are released; the
      registry holds exactly the others; and the system's refusal to start a lookup leaves it registered for good. */
  lemma EveryRunIsSafe(events: seq<Event>, r: nat)
    requires Legal(Nothing, events) && r < |Exec(Nothing, events).lookups|
    ensures var w := Exec(Nothing, events);
            var x := w.lookups[r];
            && |w.started| == |w.lookups|
            && |x.reports| == (if x.cancelled then 1 else 0)
            && (x.cancelled <==> forall k :: k in w.dict ==> w.dict[k] != r)
            && (!w.started[r] ==> !x.cancelled && r in w.dict)
  {
    RunsKeep(Nothing, events);
    var w := Exec(Nothing, events);
    assert Sound(w, r);
    assert !w.lookups[r].cancelled ==> r in w.dict && w.dict[r] == r;
  }

  /** Such a lookup exists: the system refuses the only one. */
  lemma RefusalHappens(firstResult: bool)
    ensures var events := [Begin(firstResult, false)];
            && Legal(Nothing, events)
            && Exec(Nothing, events).started == [false] && Exec(Nothing, events).dict == map[0 := 0]
  {
    var events := [Begin(firstResult, false)];
    assert events[1..] == [];
  }

  /** `release` again changes nothing. */
  lemma ReleaseTwice(w: World, r: nat)
    requires r < |w.lookups|
    ensures Release(Release(w, r), r) == Release(w, r)
  {
    var w1 := Release(w, r);
    assert w1.lookups[r := w1.lookups[r]] == w1.lookups;
  }

  // ---------------------------------------------------------------------------------------------
  // How many lookups are active
  // ---------------------------------------------------------------------------------------------

  function Unreleased(lookups: seq<Lookup>): nat {
    if lookups == [] then 0
    else Unreleased(lookups[..|lookups| - 1]) + if lookups[|lookups| - 1].cancelled then 0 else 1
  }

  lemma {:induction false} UnreleasedUpdate(lookups: seq<Lookup>, r: nat, x: Lookup)
    requires r < |lookups|
    ensures Unreleased(lookups[r := x])
            == Unreleased(lookups) - (if lookups[r].cancelled then 0 else 1) + (if x.cancelled then 0 else 1)
  {
    var last := |lookups| - 1;
    if r < last {
      UnreleasedUpdate(lookups[..last], r, x);
      assert lookups[r := x][..last] == lookups[..last][r := x];
    } else {
      assert lookups[r := x][..last] == lookups[..last];
    }
  }

  lemma CompleteCount(w: World, r: nat, report: Report)
    requires r < |w.lookups| && !w.lookups[r].cancelled && w.lookups[r].id == Some(r) && r in w.dict
    ensures var w' := Complete(w, r, report);
            |w'.dict| == |w.dict| - 1 && Unreleased(w'.lookups) == Unreleased(w.lookups) - 1
  {
    var w' := Complete(w, r, report);
    assert w'.lookups == w.lookups[r := w'.lookups[r]];
    UnreleasedUpdate(w.lookups, r, w'.lookups[r]);
    assert w.dict.Keys == (w.dict - {r}).Keys + {r};
  }

  lemma BeginCount(w: World, firstResult: bool, accepted: bool)
    requires w.curr !in w.dict
    ensures var w' := Step(w, Begin(firstResult, accepted));
            |w'.dict| == |w.dict| + 1 && Unreleased(w'.lookups) == Unreleased(w.lookups) + 1
  {
    var w' := Step(w, Begin(firstResult, accepted));
    assert w'.lookups[..|w.lookups|] == w.lookups;
    assert w'.dict.Keys == w.dict.Keys + {w.curr};
  }

  lemma ReplyCount(w: World, k: nat, error: int, family: Family, address: string, more: bool)
    requires k < |w.lookups| && !w.lookups[k].cancelled && w.lookups[k].id == Some(k) && k in w.dict
    ensures var w' := Replied(w, k, error, family, address, more);
            |w'.dict| - |w.dict| == Unreleased(w'.lookups) - Unreleased(w.lookups)
  {
    if error != 0 {
      CompleteCount(w, k, Failed(error));
    } else {
      var y := Append(w.lookups[k], family, address);
      UnreleasedUpdate(w.lookups, k, y);
      if y.firstResult || !more {
        CompleteCount(Update(w, k, y), k, Resolved(y.ipv4, y.ipv6));
      }
    }
  }

  lemma ActiveCountStep(w: World, e: Event)
    requires Inv(w) && Enabled(w, e) && |w.dict| == Unreleased(w.lookups)
    ensures |Step(w, e).dict| == Unreleased(Step(w, e).lookups)
  {
    match e
    case Begin(firstResult, accepted) =>
      BeginCount(w, firstResult, accepted);
    case Reply(k, error, family, address, more) =>
      if k in w.dict {
        assert Sound(w, k);
        ReplyCount(w, k, error, family, address, more);
      }
    case Timeout(r) =>
      if !w.lookups[r].cancelled {
        assert Sound(w, r);
        CompleteCount(w, r, Failed(ERR_TIMEOUT));
      }
  }

  /** `activeCount` is the number of lookups that have been begun and not released. */
  lemma {:induction false} ActiveCount(w: World, events: seq<Event>)
    requires Inv(w) && Legal(w, events) && |w.dict| == Unreleased(w.lookups)
    ensures |Exec(w, events).dict| == Unreleased(Exec(w, events).lookups)
    decreases |events|
  {
    if events != [] {
      StepKeeps(w, events[0]);
      ActiveCountStep(w, events[0]);
      ActiveCount(Step(w, events[0]), events[1..]);
    }
  }

  // ---------------------------------------------------------------------------------------------
  // Each lookup sees its own replies only
  // ---------------------------------------------------------------------------------------------

  /** How one lookup goes on, as if there were no others and no registry. */
  function Own(x: Lookup, r: nat, e: Event): Lookup {
    if x.cancelled then x
    else
      match e
      case Reply(k, error, family, address, more) =>
        if k != r then x
        else if error != 0 then Ended(x, Failed(error))
        else
          var y := Append(x, family, address);
          if y.firstResult || !more then Ended(y, Resolved(y.ipv4, y.ipv6)) else y
      case Timeout(s) => if s == r then Ended(x, Failed(ERR_TIMEOUT)) else x
      case Begin(_, _) => x
  }

  function Ended(x: Lookup, report: Report): Lookup {
    x.(cancelled := true, ref := false, id := None, reports := x.reports + [report])
  }

  function OwnAll(x: Lookup, r: nat, events: seq<Event>): Lookup
    decreases |events|
  {
    if events == [] then x else OwnAll(Own(x, r, events[0]), r, events[1..])
  }

  lemma StepIsolated(w: World, e: Event, r: nat)
    requires Inv(w) && Enabled(w, e) && r < |w.lookups|
    ensures r < |Step(w, e).lookups| && Step(w, e).lookups[r] == Own(w.lookups[r], r, e)
  {
    assert Sound(w, r);
  }

  /** Whatever else goes on, a lookup ends as its own replies and its own timer decide: the registry never delivers a
      reply to another lookup, nor one that comes after the end. */
  lemma {:induction false} Isolated(w: World, events: seq<Event>, r: nat)
    requires Inv(w) && Legal(w, events) && r < |w.lookups|
    ensures r < |Exec(w, events).lookups| && Exec(w, events).lookups[r] == OwnAll(w.lookups[r], r, events)
    decreases |events|
  {
    if events != [] {
      StepKeeps(w, events[0]);
      StepIsolated(w, events[0], r);
      Isolated(Step(w, events[0]), events[1..], r);
    }
  }

  /** The addresses of one family among the good replies to lookup `r`, in order of arrival. */
  function Arrived(events: seq<Event>, r: nat, family: Family): seq<string> {
    if events == [] then [] else ArrivedBy(events[0], r, family) + Arrived(events[1..], r, family)
  }

  function ArrivedBy(e: Event, r: nat, family: Family): seq<string> {
    if e.Reply? && e.context == r && e.error == 0 && e.family == family then [e.address] else []
  }

  lemma ArrivedStep(s: seq<Event>, r: nat, family: Family)
    requires s != []
    ensures Arrived(s, r, family) == ArrivedBy(s[0], r, family) + Arrived(s[1..], r, family)
  {
  }

  /** Nothing among `events` ends lookup `r`. */
  ghost predicate Undecided(firstResult: bool, r: nat, events: seq<Event>) {
    forall i :: 0 <= i < |events| ==>
      && events[i] != Timeout(r)
      && (events[i].Reply? && events[i].context == r ==>
            events[i].error == 0 && !firstResult && events[i].more)
  }

  lemma CollectsOne(x: Lookup, r: nat, e: Event)
    requires !x.cancelled && Undecided(x.firstResult, r, [e])
    ensures Own(x, r, e) == x.(ipv4 := x.ipv4 + Arrived([e], r, V4), ipv6 := x.ipv6 + Arrived([e], r, V6))
  {
    assert [e][0] == e && [e][1..] == [];
  }

  lemma {:induction false} Collects(x: Lookup, r: nat, events: seq<Event>)
    requires !x.cancelled && Undecided(x.firstResult, r, events)
    ensures OwnAll(x, r, events)
            == x.(ipv4 := x.ipv4 + Arrived(events, r, V4), ipv6 := x.ipv6 + Arrived(events, r, V6))
    decreases |events|
  {
    if events != [] {
      var e, rest := events[0], events[1..];
      assert Undecided(x.firstResult, r, [e]) && Undecided(x.firstResult, r, rest) by {
        assert forall i :: 0 <= i < |rest| ==> rest[i] == events[i + 1];
      }
      CollectsOne(x, r, e);
      Collects(Own(x, r, e), r, rest);
      assert [e] + rest == events;
      ArrivedConcat([e], rest, r, V4);
      ArrivedConcat([e], rest, r, V6);
      Assoc(x.ipv4, Arrived([e], r, V4), Arrived(rest, r, V4));
      Assoc(x.ipv6, Arrived([e], r, V6), Arrived(rest, r, V6));
    }
  }

  lemma {:induction false} EndedStays(x: Lookup, r: nat, events: seq<Event>)
    requires x.cancelled
    ensures OwnAll(x, r, events) == x
    decreases |events|
  {
    if events != [] {
      EndedStays(x, r, events[1..]);
    }
  }

  /** A lookup that the system accepted resolves with all addresses that have arrived, split by family in order of
      arrival, once the first reply that is to be the last comes before any error and the timeout; nothing that
      comes `after` changes the outcome. */
  lemma ReportsAllArrived(w: World, before: seq<Event>, last: Event, after: seq<Event>, r: nat)
    requires Inv(w) && r < |w.lookups| && !w.lookups[r].cancelled && w.lookups[r].ipv4 == w.lookups[r].ipv6 == []
    requires Legal(w, before + [last] + after) && Undecided(w.lookups[r].firstResult, r, before)
    requires last.Reply? && last.context == r && last.error == 0 && (w.lookups[r].firstResult || !last.more)
    ensures var x := Exec(w, before + [last] + after);
            r < |x.lookups|
            && x.lookups[r].reports == [Resolved(Arrived(before + [last], r, V4), Arrived(before + [last], r, V6))]
  {
    var x := w.lookups[r];
    assert Sound(w, r);
    Isolated(w, before + [last] + after, r);
    OwnConcat(x, r, before, [last] + after);
    assert before + [last] + after == before + ([last] + after);
    Collects(x, r, before);
    var y := OwnAll(x, r, before);
    ArrivedConcat(before, [last], r, V4);
    ArrivedConcat(before, [last], r, V6);
    assert y.ipv4 == Arrived(before, r, V4) && y.ipv6 == Arrived(before, r, V6);
    LastDecides(y, r, last, after);
  }

  /** A lookup fails with the first error, or with the timeout, when that comes before the reply that is to be the
      last; the addresses that have arrived are not reported. */
  lemma ReportsFailure(w: World, before: seq<Event>, last: Event, after: seq<Event>, r: nat)
    requires Inv(w) && r < |w.lookups| && !w.lookups[r].cancelled
    requires Legal(w, before + [last] + after) && Undecided(w.lookups[r].firstResult, r, before)
    requires last == Timeout(r) || (last.Reply? && last.context == r && last.error != 0)
    ensures var x := Exec(w, before + [last] + after);
            r < |x.lookups| && x.lookups[r].reports == [Failed(if last.Timeout? then ERR_TIMEOUT else last.error)]
  {
    var x := w.lookups[r];
    assert Sound(w, r);
    Isolated(w, before + [last] + after, r);
    assert before + [last] + after == before + ([last] + after);
    OwnConcat(x, r, before, [last] + after);
    Collects(x, r, before);
    var y := OwnAll(x, r, before);
    assert ([last] + after)[0] == last && ([last] + after)[1..] == after;
    EndedStays(Own(y, r, last), r, after);
  }

  lemma LastDecides(y: Lookup, r: nat, last: Event, after: seq<Event>)
    requires !y.cancelled && y.reports == []
    requires last.Reply? && last.context == r && last.error == 0 && (y.firstResult || !last.more)
    ensures OwnAll(y, r, [last] + after).reports
            == [Resolved(y.ipv4 + Arrived([last], r, V4), y.ipv6 + Arrived([last], r, V6))]
  {
    assert ([last] + after)[0] == last && ([last] + after)[1..] == after && [last][1..] == [];
    var z := Own(y, r, last);
    EndedStays(z, r, after);
    assert z.ipv4 == y.ipv4 + Arrived([last], r, V4) && z.ipv6 == y.ipv6 + Arrived([last], r, V6);
  }

  lemma {:induction false} OwnConcat(x: Lookup, r: nat, s: seq<Event>, t: seq<Event>)
    ensures OwnAll(x, r, s + t) == OwnAll(OwnAll(x, r, s), r, t)
    decreases |s|
  {
    if s == [] {
      assert s + t == t;
    } else {
      OwnConcat(Own(x, r, s[0]), r, s[1..], t);
      assert (s + t)[1..] == s[1..] + t;
    }
  }

  lemma ArrivedConcatStep(s: seq<Event>, t: seq<Event>, r: nat, family: Family)
    requires s != [] && (s + t)[1..] == s[1..] + t
    requires Arrived(s[1..] + t, r, family) == Arrived(s[1..], r, family) + Arrived(t, r, family)
    ensures Arrived(s + t, r, family) == Arrived(s, r, family) + Arrived(t, r, family)
  {
    ArrivedStep(s, r, family);
    ArrivedStep(s + t, r, family);
    hide *;
    Assoc(ArrivedBy(s[0], r, family), Arrived(s[1..], r, family), Arrived(t, r, family));
  }

  lemma {:induction false} ArrivedConcat(s: seq<Event>, t: seq<Event>, r: nat, family: Family)
    ensures Arrived(s + t, r, family) == Arrived(s, r, family) + Arrived(t, r, family)
  {
    if s == [] {
      assert s + t == t;
    } else {
      ArrivedConcat(s[1..], t, r, family);
      assert (s + t)[1..] == s[1..] + t;
      ArrivedConcatStep(s, t, r, family);
    }
  }

  // ---------------------------------------------------------------------------------------------
  // As it was begun
  // ---------------------------------------------------------------------------------------------

  /** The number of lookups that a run begins. */
  function Begins(events: seq<Event>): nat {
    if events == [] then 0 else (if events[0].Begin? then 1 else 0) + Begins(events[1..])
  }

  lemma StepBegins(w: World, e: Event)
    requires Enabled(w, e)
    ensures |Step(w, e).lookups| == |w.lookups| + if e.Begin? then 1 else 0
  {
  }

  /** Lookups are numbered as they are begun. */
  lemma {:induction false} RunBegins(w: World, events: seq<Event>)
    requires Legal(w, events)
    ensures |Exec(w, events).lookups| == |w.lookups| + Begins(events)
    decreases |events|
  {
    if events != [] {
      StepBegins(w, events[0]);
      hide Step;
      RunBegins(Step(w, events[0]), events[1..]);
    }
  }

  lemma {:induction false} ExecConcat(w: World, s: seq<Event>, t: seq<Event>)
    requires Legal(w, s + t)
    ensures Legal(w, s) && Legal(Exec(w, s), t) && Exec(w, s + t) == Exec(Exec(w, s), t)
    decreases |s|
  {
    if s == [] {
      assert s + t == t;
    } else {
      assert (s + t)[0] == s[0] && (s + t)[1..] == s[1..] + t;
      hide Step, Enabled;
      ExecConcat(Step(w, s[0]), s[1..], t);
    }
  }

  /** A lookup that the system has accepted: as it was asked for, with nothing arrived. */
  lemma Begun(w: World, firstResult: bool, rest: seq<Event>)
    requires Inv(w) && Legal(w, [Begin(firstResult, true)] + rest)
    ensures var w1 := Step(w, Begin(firstResult, true));
            && Inv(w1) && |w1.lookups| == |w.lookups| + 1 && w1.started[|w.lookups|]
            && w1.lookups[|w.lookups|].firstResult == firstResult && !w1.lookups[|w.lookups|].cancelled
            && w1.lookups[|w.lookups|].ipv4 == w1.lookups[|w.lookups|].ipv6 == []
            && Legal(w1, rest) && Exec(w, [Begin(firstResult, true)] + rest) == Exec(w1, rest)
  {
    StepKeeps(w, Begin(firstResult, true));
    assert ([Begin(firstResult, true)] + rest)[1..] == rest;
    hide Inv;
  }

  /** The lookup begun in a run after `earlier`, and what comes then. */
  lemma BegunIn(earlier: seq<Event>, firstResult: bool, rest: seq<Event>) returns (w: World)
    requires Legal(Nothing, earlier + ([Begin(firstResult, true)] + rest))
    ensures Inv(w) && |w.lookups| == Begins(earlier) + 1
    ensures var x := w.lookups[Begins(earlier)];
            x.firstResult == firstResult && !x.cancelled && x.ipv4 == x.ipv6 == []
    ensures Legal(w, rest) && Exec(Nothing, earlier + ([Begin(firstResult, true)] + rest)) == Exec(w, rest)
  {
    ExecConcat(Nothing, earlier, [Begin(firstResult, true)] + rest);
    RunsKeep(Nothing, earlier);
    RunBegins(Nothing, earlier);
    var w0 := Exec(Nothing, earlier);
    w := Step(w0, Begin(firstResult, true));
    Begun(w0, firstResult, rest);
    hide Inv, Legal, Exec, Begins;
  }

  /** Nothing has arrived for a lookup that ends at its first reply. */
  lemma {:induction false} NoneArrived(events: seq<Event>, r: nat, family: Family)
    requires Undecided(true, r, events)
    ensures Arrived(events, r, family) == []
  {
    if events != [] {
      assert forall i :: 0 <= i < |events| - 1 ==> events[1..][i] == events[i + 1];
      assert Undecided(true, r, events[1..]);
      NoneArrived(events[1..], r, family);
    }
  }

  /** Over all runs, a lookup resolves as it was asked for when it was begun: for the first result, at its first good
      reply, with the address of that reply alone; for all of them, at its first good reply with nothing more coming,
      with all addresses that have arrived until then. */
  lemma BegunResolves(earlier: seq<Event>, firstResult: bool, before: seq<Event>, last: Event, after: seq<Event>)
    requires Legal(Nothing, earlier + ([Begin(firstResult, true)] + (before + [last] + after)))
    requires Undecided(firstResult, Begins(earlier), before)
    requires last.Reply? && last.context == Begins(earlier) && last.error == 0 && (firstResult || !last.more)
    ensures var w := Exec(Nothing, earlier + ([Begin(firstResult, true)] + (before + [last] + after)));
            var r := Begins(earlier);
            && r < |w.lookups|
            && w.lookups[r].reports == [Resolved(Arrived(before + [last], r, V4), Arrived(before + [last], r, V6))]
            && (firstResult ==>
                  w.lookups[r].reports == [Resolved(if last.family == V4 then [last.address] else [],
                                                    if last.family == V6 then [last.address] else [])])
  {
    var r := Begins(earlier);
    var w := BegunIn(earlier, firstResult, before + [last] + after);
    ReportsAllArrived(w, before, last, after, r);
    if firstResult {
      ArrivedLast(before, last, r, V4);
      ArrivedLast(before, last, r, V6);
    }
    hide Inv, Legal, Exec, Begins, Arrived;
  }

  lemma ArrivedLast(before: seq<Event>, last: Event, r: nat, family: Family)
    requires Undecided(true, r, before) && last.Reply? && last.context == r && last.error == 0
    ensures Arrived(before + [last], r, family) == if last.family == family then [last.address] else []
  {
    ArrivedConcat(before, [last], r, family);
    NoneArrived(before, r, family);
    assert [last][1..] == [] && Arrived([], r, family) == [];
  }

  /** Over all runs, a lookup fails with its first error, or with the timeout (dnssd's error -65568), when that comes
      before the reply that would have been its last. */
  lemma BegunFails(earlier: seq<Event>, firstResult: bool, before: seq<Event>, last: Event, after: seq<Event>)
    requires Legal(Nothing, earlier + ([Begin(firstResult, true)] + (before + [last] + after)))
    requires Undecided(firstResult, Begins(earlier), before)
    requires last == Timeout(Begins(earlier)) || (last.Reply? && last.context == Begins(earlier) && last.error != 0)
    ensures var w := Exec(Nothing, earlier + ([Begin(firstResult, true)] + (before + [last] + after)));
            var r := Begins(earlier);
            r < |w.lookups| && w.lookups[r].reports == [Failed(if last.Timeout? then -65568 else last.error)]
  {
    var w := BegunIn(earlier, firstResult, before + [last] + after);
    ReportsFailure(w, before, last, after, Begins(earlier));
  }
}
