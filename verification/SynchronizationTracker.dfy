/** Detection of overlapping calls: how many registrations each thread has open. */
module SynchronizationTracker {
  type Thread = int

  datatype Event = Register(thread: Thread) | Unregister(thread: Thread)

  /** The registrations that `t` has open after `events`; closing one that is not open has no effect. */
  function Open(events: seq<Event>, t: Thread): (n: nat) {
    if events == [] then 0
    else
      var before := Open(events[..|events| - 1], t);
      match events[|events| - 1]
      case Register(u) => if u == t then before + 1 else before
      case Unregister(u) => if u == t && before > 0 then before - 1 else before
  }

  /** The map holds the threads that have registrations open, with their numbers, and no other entries. */
  ghost predicate Exact(threads: map<Thread, int>, events: seq<Event>) {
    forall t: Thread :: (t in threads <==> Open(events, t) > 0) && (t in threads ==> threads[t] == Open(events, t))
  }

  /** Some other thread than `t` has a registration open. */
  ghost predicate OthersOpen(events: seq<Event>, t: Thread) {
    exists u :: u != t && Open(events, u) > 0
  }

  /** More than one entry means an entry of another thread. */
  lemma TwoEntries(threads: map<Thread, int>, t: Thread)
    requires t in threads
    ensures |threads| > 1 <==> exists u :: u in threads && u != t
  {
    var rest := threads.Keys - {t};
    assert threads.Keys == rest + {t};
    assert |threads.Keys| == |rest| + 1;
    if u :| u in threads && u != t {
      assert u in rest;
    }
    if |rest| > 0 {
      var u := SomeMember(rest);
      assert u in threads && u != t;
    }
  }

  lemma SomeMember<T>(s: set<T>) returns (u: T)
    requires |s| > 0
    ensures u in s
  {
    u :| u in s;
  }

  lemma OpenNext(events: seq<Event>, e: Event, t: Thread)
    ensures Open(events + [e], t)
            == match e
               case Register(u) => Open(events, t) + (if u == t then 1 else 0)
               case Unregister(u) => if u == t && Open(events, t) > 0 then Open(events, t) - 1 else Open(events, t)
  {
    assert (events + [e])[..|events|] == events;
  }

  class SynchronizationTracker {
    var threads: map<Thread, int>
    /** All calls so far. */
    ghost var events: seq<Event>

    ghost predicate Valid()
      reads this
    {
      Exact(threads, events)
    }

    constructor ()
      ensures Valid() && events == []
    {
      threads, events := map[], [];
    }

    /** Reports re-entrancy iff the thread has a registration open already, and lack of synchronization iff another
        thread has. */
    method Register(thread: Thread) returns (reentrancy: bool, unsynchronized: bool)
      requires Valid()
      modifies this
      ensures Valid() && events == old(events) + [Event.Register(thread)]
      ensures reentrancy <==> Open(old(events), thread) > 0
      ensures unsynchronized <==> OthersOpen(old(events), thread)
    {
      ghost var before := events;
      events := events + [Event.Register(thread)];
      forall t ensures Open(events, t) == Open(before, t) + (if thread == t then 1 else 0) {
        OpenNext(before, Event.Register(thread), t);
      }
      var count := (if thread in threads then threads[thread] else 0) + 1;
      reentrancy := count > 1;
      ghost var was := threads;
      threads := threads[thread := count];
      unsynchronized := |threads| > 1;
      TwoEntries(threads, thread);
      assert forall u :: u != thread ==> (u in threads <==> Open(before, u) > 0);
    }

    method Unregister(thread: Thread)
      requires Valid()
      modifies this
      ensures Valid() && events == old(events) + [Event.Unregister(thread)]
    {
      ghost var before := events;
      events := events + [Event.Unregister(thread)];
      forall t ensures Open(events, t) == if thread == t && Open(before, t) > 0 then Open(before, t) - 1 else Open(before, t) {
        OpenNext(before, Event.Unregister(thread), t);
      }
      threads := threads[thread := (if thread in threads then threads[thread] else 1) - 1];
      if threads[thread] == 0 {
        threads := threads - {thread};
      }
    }
  }

  // ---------------------------------------------------------------------------------------------
  // Well-bracketed use
  // ---------------------------------------------------------------------------------------------

  function Registrations(events: seq<Event>, t: Thread): nat {
    if events == [] then 0
    else Registrations(events[..|events| - 1], t) + if events[|events| - 1] == Register(t) then 1 else 0
  }

  function Unregistrations(events: seq<Event>, t: Thread): nat {
    if events == [] then 0
    else Unregistrations(events[..|events| - 1], t) + if events[|events| - 1] == Unregister(t) then 1 else 0
  }

  /** No thread closes more than it has opened. */
  ghost predicate Bracketed(events: seq<Event>) {
    forall n, t :: 0 <= n <= |events| ==> Unregistrations(events[..n], t) <= Registrations(events[..n], t)
  }

  /** In well-bracketed use, the open registrations are those that have not been closed. */
  lemma {:induction false} OpenIsDifference(events: seq<Event>, t: Thread)
    requires Bracketed(events)
    ensures Open(events, t) == Registrations(events, t) - Unregistrations(events, t)
  {
    if events != [] {
      var rest := events[..|events| - 1];
      assert forall n :: 0 <= n <= |rest| ==> rest[..n] == events[..n];
      OpenIsDifference(rest, t);
      assert events[..|events|] == events;
      assert Unregistrations(events[..|events|], t) <= Registrations(events[..|events|], t);
    }
  }

  /** The map is empty after a well-bracketed run if and only if every registration has been closed. */
  lemma BalancedIsEmpty(threads: map<Thread, int>, events: seq<Event>)
    requires Bracketed(events) && Exact(threads, events)
    ensures threads == map[] <==> forall t :: Registrations(events, t) == Unregistrations(events, t)
  {
    forall t ensures t in threads <==> Registrations(events, t) != Unregistrations(events, t) {
      OpenIsDifference(events, t);
    }
    if |threads.Keys| > 0 {
      var t := SomeMember(threads.Keys);
      assert Registrations(events, t) != Unregistrations(events, t);
    } else {
      assert threads == map[];
    }
  }
}
