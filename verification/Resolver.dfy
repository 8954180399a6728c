/** The resolver class and its table of contexts, proved against the state machine. What that adds: the table holds the
    resolver objects themselves, its generic class keeps its own counter, and a callback changes no other resolver. */
module Resolver {
  import opened Common
  import Spec = ResolverSpec

  /** A table whose keys count insertions. */
  class SafeDict<T> {
    var dict: map<nat, T>
    var curr: nat

    constructor ()
      ensures dict == map[] && curr == 0
    {
      dict, curr := map[], 0;
    }

    method Insert(value: T) returns (id: nat)
      modifies this
      ensures id == old(curr) && dict == old(dict)[id := value] && curr == old(curr) + 1
    {
      id := curr;
      dict := dict[curr := value];
      curr := curr + 1;
    }

    function Get(id: nat): (r: Option<T>)
      reads this
      ensures r.Some? <==> id in dict
      ensures r.Some? ==> r.value == dict[id]
    {
      if id in dict then Some(dict[id]) else None
    }

    method Remove(id: nat)
      modifies `dict
      ensures dict == old(dict) - {id}
    {
      dict := dict - {id};
    }
  }

  ghost function States(all: seq<Resolver>, objects: set<Resolver>): (lookups: seq<Spec.Lookup>)
    requires forall i :: 0 <= i < |all| ==> all[i] in objects
    reads objects
    ensures |lookups| == |all| && forall i :: 0 <= i < |all| ==> lookups[i] == all[i].State()
  {
    seq(|all|, i requires 0 <= i < |all| && all[i] in objects reads objects => all[i].State())
  }

  ghost function Contexts(dict: map<nat, Resolver>): map<nat, nat> {
    map k | k in dict :: dict[k].serial
  }

  lemma ContextsSet(dict: map<nat, Resolver>, id: nat, x: Resolver)
    ensures Contexts(dict[id := x]) == Contexts(dict)[id := x.serial]
  {
  }

  lemma ContextsWithout(dict: map<nat, Resolver>, id: nat)
    ensures Contexts(dict - {id}) == Contexts(dict) - {id}
  {
  }

  /** The static state, and all resolvers in the order of their creation. */
  class Resolvers {
    const dict: SafeDict<Resolver>
    ghost var all: seq<Resolver>
    ghost var objects: set<Resolver>
    ghost var started: seq<bool>

    constructor ()
      ensures Valid() && World() == Spec.Nothing && fresh(dict) && fresh(objects)
    {
      dict := new SafeDict();
      all, objects, started := [], {}, [];
    }

    ghost predicate Has(x: Resolver)
      reads this
    {
      x.serial < |all| && all[x.serial] == x
    }

    ghost predicate Valid()
      reads this, dict, objects
    {
      && (forall i :: 0 <= i < |all| ==> all[i] in objects && all[i].serial == i)
      && (forall k :: k in dict.dict ==> Has(dict.dict[k]))
    }

    ghost function World(): Spec.World
      requires Valid()
      reads this, dict, objects
    {
      Spec.World(States(all, objects), Contexts(dict.dict), dict.curr, started)
    }

    /** Makes a new resolver known. */
    ghost method Track(x: Resolver, accepted: bool)
      requires Valid() && x.serial == |all|
      modifies `all, `objects, `started
      ensures Valid() && Has(x) && objects == old(objects) + {x}
      ensures World() == old(World()).(lookups := old(World()).lookups + [x.State()], started := old(started) + [accepted])
    {
      ghost var w := World();
      all, objects, started := all + [x], objects + {x}, started + [accepted];
      assert World().lookups == w.lookups + [x.State()];
    }

    method Register(x: Resolver) returns (id: nat)
      requires Valid() && Has(x)
      modifies dict
      ensures Valid() && id == old(dict.curr)
      ensures World() == old(World()).(dict := old(World()).dict[id := x.serial], curr := id + 1)
    {
      ContextsSet(dict.dict, dict.curr, x);
      hide Contexts, States;
      id := dict.Insert(x);
    }

    /** `resolve`: the context is registered before the system is asked, and stays so when the system refuses. */
    method Resolve(firstResult: bool, accepted: bool) returns (x: Resolver, ok: bool)
      requires Valid()
      modifies this, dict
      ensures Valid() && Has(x) && fresh(x) && ok == accepted && objects == old(objects) + {x}
      ensures x.firstResult == firstResult
      ensures World() == Spec.Step(old(World()), Spec.Begin(firstResult, accepted))
    {
      ghost var w := World();
      x := new Resolver(firstResult, |all|);
      Track(x, accepted);
      var id := Register(x);
      x.Start(this, id, accepted);
      assert World().lookups == w.lookups + [x.State()];
      ok := accepted;
    }

    /** The callback of the system. */
    method Reply(context: nat, error: int, family: Spec.Family, address: string, more: bool)
      requires Valid() && Spec.Enabled(World(), Spec.Reply(context, error, family, address, more))
      modifies dict, objects
      ensures Valid() && World() == Spec.Step(old(World()), Spec.Reply(context, error, family, address, more))
    {
      var x := dict.Get(context);
      if x.Some? {
        x.value.Replied(this, error, family, address, more);
      }
    }
  }

  class Resolver {
    const firstResult: bool
    ghost const serial: nat
    var id: Option<nat>
    var ref: bool
    var cancelled: bool
    var ipv4Result: seq<string>
    var ipv6Result: seq<string>
    var reports: seq<Spec.Report>

    constructor (firstResult: bool, ghost serial: nat)
      ensures this.serial == serial
      ensures State() == Spec.Lookup(firstResult, None, false, false, [], [], [])
    {
      this.firstResult, this.serial := firstResult, serial;
      id, ref, cancelled, ipv4Result, ipv6Result, reports := None, false, false, [], [], [];
    }

    ghost function State(): Spec.Lookup
      reads this
    {
      Spec.Lookup(firstResult, id, ref, cancelled, ipv4Result, ipv6Result, reports)
    }

    method Start(q: Resolvers, id: nat, accepted: bool)
      requires q.Valid() && q.Has(this)
      modifies `id, `ref
      ensures State() == old(State()).(id := Some(id), ref := accepted)
      ensures q.Valid() && q.World() == Spec.Update(old(q.World()), serial, State())
    {
      ghost var w := q.World();
      this.id, ref := Some(id), accepted;
      assert forall i :: 0 <= i < |q.all| && i != serial ==> q.World().lookups[i] == w.lookups[i];
      assert q.World().lookups == w.lookups[serial := State()];
    }

    method Release(q: Resolvers)
      requires q.Valid() && q.Has(this)
      modifies `id, `ref, `cancelled, q.dict
      ensures q.Valid() && q.World() == Spec.Release(old(q.World()), serial)
    {
      ghost var w := q.World();
      if id.Some? { ContextsWithout(q.dict.dict, id.value); }
      hide Contexts;
      cancelled := true;
      ref := false;
      if id.Some? {
        q.dict.Remove(id.value);
        id := None;
      }
      assert forall i :: 0 <= i < |q.all| && i != serial ==> q.World().lookups[i] == w.lookups[i];
      assert q.World().lookups == w.lookups[serial := State()];
    }

    /** Calls the completion handler. */
    method Report(q: Resolvers, report: Spec.Report)
      requires q.Valid() && q.Has(this)
      modifies `reports
      ensures q.Valid() && q.World() == Spec.Update(old(q.World()), serial, old(State()).(reports := old(reports) + [report]))
    {
      ghost var w := q.World();
      reports := reports + [report];
      assert forall i :: 0 <= i < |q.all| && i != serial ==> q.World().lookups[i] == w.lookups[i];
      assert q.World().lookups == w.lookups[serial := State()];
    }

    method Append(q: Resolvers, family: Spec.Family, address: string)
      requires q.Valid() && q.Has(this)
      modifies `ipv4Result, `ipv6Result
      ensures q.Valid() && q.World() == Spec.Update(old(q.World()), serial, Spec.Append(old(State()), family, address))
      ensures State() == Spec.Append(old(State()), family, address)
    {
      ghost var w := q.World();
      match family {
        case V4 => ipv4Result := ipv4Result + [address];
        case V6 => ipv6Result := ipv6Result + [address];
        case OtherFamily =>
      }
      assert forall i :: 0 <= i < |q.all| && i != serial ==> q.World().lookups[i] == w.lookups[i];
      assert q.World().lookups == w.lookups[serial := State()];
    }

    method Complete(q: Resolvers, report: Spec.Report)
      requires q.Valid() && q.Has(this)
      modifies this, q.dict
      ensures q.Valid() && q.World() == Spec.Complete(old(q.World()), serial, report)
    {
      Release(q);
      assert q.World().lookups[serial] == State();
      Report(q, report);
    }

    method Replied(q: Resolvers, error: int, family: Spec.Family, address: string, more: bool)
      requires q.Valid() && q.Has(this)
      modifies this, q.dict
      ensures q.Valid() && q.World() == Spec.Replied(old(q.World()), serial, error, family, address, more)
    {
      assert q.World().lookups[serial] == State();
      if cancelled { return; }
      if error != 0 {
        Complete(q, Spec.Failed(error));
        return;
      }
      Append(q, family, address);
      if firstResult || !more {
        Complete(q, Spec.Resolved(ipv4Result, ipv6Result));
      }
    }

    method TimeoutHandler(q: Resolvers)
      requires q.Valid() && q.Has(this) && Spec.Enabled(q.World(), Spec.Timeout(serial))
      modifies this, q.dict
      ensures q.Valid() && q.World() == Spec.Step(old(q.World()), Spec.Timeout(serial))
    {
      assert q.World().lookups[serial] == State();
      if !cancelled {
        Complete(q, Spec.Failed(Spec.ERR_TIMEOUT));
      }
    }
  }
}
