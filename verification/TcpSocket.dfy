/** The socket class and its static identity table, proved against the state machine. What that adds: the table holds
    the socket objects themselves, the identity cell of a socket is freed once and never read after that, and a call
    made by the delegate from inside a callback acts on the same objects. */
module TcpSocket {
  import opened Common
  import Spec = TcpSocketSpec
  import Safety = TcpSocketSafety
  import Outcomes = TcpSocketOutcomes

  ghost function States(all: seq<TSTCPSocket>, objects: set<TSTCPSocket>): (sockets: seq<Spec.Socket>)
    requires forall i :: 0 <= i < |all| ==> all[i] in objects
    reads objects
    ensures |sockets| == |all| && forall i :: 0 <= i < |all| ==> sockets[i] == all[i].State()
  {
    seq(|all|, i requires 0 <= i < |all| && all[i] in objects reads objects => all[i].State())
  }

  ghost function Dict(socketDict: map<int, TSTCPSocket>): map<int, nat> {
    map k | k in socketDict :: socketDict[k].serial
  }

  lemma DictSet(socketDict: map<int, TSTCPSocket>, key: int, x: TSTCPSocket)
    ensures Dict(socketDict[key := x]) == Dict(socketDict)[key := x.serial]
  {
  }

  lemma DictWithout(socketDict: map<int, TSTCPSocket>, key: int)
    ensures Dict(socketDict - {key}) == Dict(socketDict) - {key}
  {
  }

  /** The static state: the identity table, and the sockets in the order of their creation, which is how a
      delegate's calls name them. */
  class Stack {
    var socketDict: map<int, TSTCPSocket>
    var all: seq<TSTCPSocket>
    ghost var objects: set<TSTCPSocket>
    ghost var log: seq<Spec.Note>

    constructor ()
      ensures Valid() && World() == Spec.Start && fresh(objects)
    {
      socketDict, all, objects, log := map[], [], {}, [];
    }

    ghost predicate Has(x: TSTCPSocket)
      reads this
    {
      x.serial < |all| && all[x.serial] == x
    }

    /** Every socket knows its number, the table only holds existing sockets, and an identity cell is allocated
        exactly as long as its socket is valid. */
    ghost predicate Valid()
      reads this, objects
    {
      && (forall i :: 0 <= i < |all| ==> all[i] in objects && all[i].serial == i && all[i].argAllocated == all[i].pcb)
      && (forall k :: k in socketDict ==> Has(socketDict[k]))
    }

    ghost function World(): Spec.World
      requires Valid()
      reads this, objects
    {
      Spec.World(States(all, objects), Dict(socketDict), log)
    }

    method Lookup(id: int) returns (x: TSTCPSocket?)
      ensures x == if id in socketDict then socketDict[id] else null
    {
      x := if id in socketDict then socketDict[id] else null;
    }

    /** Records a delegate call or a release. */
    ghost method Notify(note: Spec.Note)
      requires Valid()
      modifies this`log
      ensures Valid() && World() == Spec.Log(old(World()), note)
    {
      hide States, Dict;
      log := log + [note];
    }

    /** A new socket under a key that `newKey` found free. */
    method Accept(key: int) returns (x: TSTCPSocket)
      requires Valid() && key !in socketDict
      modifies this
      ensures Valid() && Has(x) && fresh(x) && objects == old(objects) + {x}
      ensures World() == Spec.Step(old(World()), Spec.Accept(key))
    {
      x := new TSTCPSocket(key, |all|);
      DictSet(socketDict, key, x);
      hide Dict;
      socketDict := socketDict[key := x];
      all, objects := all + [x], objects + {x};
      assert World().sockets == old(World().sockets) + [x.State()];
    }

    /** Carries out the delegate's calls in order. */
    method RunScript(script: seq<Spec.Action>)
      requires Valid()
      modifies this, objects
      ensures Valid() && objects == old(objects) && all == old(all)
      ensures World() == Spec.Run(old(World()), script)
      decreases script, 0
    {
      if script == [] { return; }
      var a := script[0];
      if a.s < |all| {
        var x := all[a.s];
        match a
        case Close(_, inside) => x.Close(this, inside);
        case Reset(_, inside) => x.Reset(this, inside);
        case Write(_, length, accepted, inside) => x.WriteData(this, length, accepted, inside);
      }
      assert World() == Spec.Act(old(World()), a);
      RunScript(script[1..]);
    }

    /** `tcp_recv_func`. The argument points to the identity cell of `x`. */
    method TcpRecv(x: TSTCPSocket, buf: Option<Spec.Pbuf>, script: seq<Spec.Action>) returns (code: int)
      requires Valid() && Has(x) && x.argAllocated
      requires Spec.Enabled(World(), Spec.Recv(x.serial, buf, script))
      modifies this, objects
      ensures Valid() && objects == old(objects) && all == old(all)
      ensures World() == Spec.Step(old(World()), Spec.Recv(x.serial, buf, script))
      ensures code == Outcomes.CallbackReturn(old(World()), x.serial)
    {
      ghost var w := World();
      var socket := Lookup(x.identity);
      assert Spec.Lookup(w, x.serial) == if socket == null then None else Some(socket.serial);
      if socket == null { return Spec.ERR_ABRT; }
      assert Spec.Step(w, Spec.Recv(x.serial, buf, script)) == Spec.Recved(w, socket.serial, buf, script);
      socket.Recved(this, buf, script);
      return Outcomes.ERR_OK;
    }

    method TcpSent(x: TSTCPSocket, length: nat, script: seq<Spec.Action>) returns (code: int)
      requires Valid() && Has(x) && x.argAllocated && Spec.Enabled(World(), Spec.Sent(x.serial, length, script))
      modifies this, objects
      ensures Valid() && objects == old(objects) && all == old(all)
      ensures World() == Spec.Step(old(World()), Spec.Sent(x.serial, length, script))
      ensures code == Outcomes.CallbackReturn(old(World()), x.serial)
    {
      var socket := Lookup(x.identity);
      if socket == null { return Spec.ERR_ABRT; }
      Notify(Spec.DidWriteData(socket.serial, length));
      RunScript(script);
      return Outcomes.ERR_OK;
    }

    method TcpErr(x: TSTCPSocket, code: int, script: seq<Spec.Action>)
      requires Valid() && Has(x) && x.argAllocated && Spec.Enabled(World(), Spec.Err(x.serial, code, script))
      requires Safety.Inv(World())
      modifies this, objects
      ensures Valid() && objects == old(objects) && all == old(all)
      ensures World() == Spec.Step(old(World()), Spec.Err(x.serial, code, script))
    {
      Safety.LookupFindsItself(World(), x.serial);
      var socket := Lookup(x.identity);
      if socket != null { socket.Errored(this, code, script); }
    }
  }

  class TSTCPSocket {
    const identity: int
    ghost const serial: nat
    var pcb: bool
    var argAllocated: bool
    ghost var aborted: bool
    ghost var delivered: Bytes
    ghost var credit: nat
    ghost var held: nat

    constructor (identity: int, ghost serial: nat)
      ensures this.identity == identity && this.serial == serial && argAllocated
      ensures State() == Spec.Socket(identity, true, false, [], 0, 0)
    {
      this.identity, this.serial := identity, serial;
      pcb, argAllocated := true, true;
      aborted, delivered, credit, held := false, [], 0, 0;
    }

    ghost function State(): Spec.Socket
      reads this
    {
      Spec.Socket(identity, pcb, aborted, delivered, credit, held)
    }

    /** Frees the identity cell, which must not have been freed before. */
    method Release(stack: Stack)
      requires stack.Valid() && stack.Has(this) && argAllocated
      modifies this`pcb, this`argAllocated, stack`socketDict, stack`log
      ensures stack.Valid() && stack.World() == Spec.Release(old(stack.World()), serial)
    {
      ghost var w := stack.World();
      DictWithout(stack.socketDict, identity);
      hide Dict;
      pcb := false;
      argAllocated := false;
      stack.socketDict := stack.socketDict - {identity};
      stack.Notify(Spec.Released(serial));
      assert forall i :: 0 <= i < |stack.all| && i != serial ==> stack.World().sockets[i] == w.sockets[i];
      assert stack.World().sockets == w.sockets[serial := State()];
    }

    method Close(stack: Stack, inside: seq<Spec.Action>)
      requires stack.Valid() && stack.Has(this)
      modifies stack, stack.objects
      ensures stack.Valid() && stack.objects == old(stack.objects) && stack.all == old(stack.all)
      ensures stack.World() == Spec.Act(old(stack.World()), Spec.Action.Close(serial, inside))
      decreases inside, 1
    {
      if !pcb { return; }
      ghost var w := stack.World();
      assert w.sockets[serial := w.sockets[serial]] == w.sockets;
      Release(stack);
      stack.Notify(Spec.Ended(serial, Spec.DidClose));
      assert stack.World() == Spec.Shut(old(stack.World()), serial, false);
      stack.RunScript(inside);
    }

    method Reset(stack: Stack, inside: seq<Spec.Action>)
      requires stack.Valid() && stack.Has(this)
      modifies stack, stack.objects
      ensures stack.Valid() && stack.objects == old(stack.objects) && stack.all == old(stack.all)
      ensures stack.World() == Spec.Act(old(stack.World()), Spec.Action.Reset(serial, inside))
      decreases inside, 1
    {
      if !pcb { return; }
      aborted := true;
      assert stack.World().sockets == old(stack.World().sockets)[serial := State()];
      Release(stack);
      stack.Notify(Spec.Ended(serial, Spec.DidClose));
      assert stack.World() == Spec.Shut(old(stack.World()), serial, true);
      stack.RunScript(inside);
    }

    /** Hands data to lwIP, which may refuse it; a refusal closes the socket. */
    method WriteData(stack: Stack, length: nat, accepted: bool, inside: seq<Spec.Action>)
      requires stack.Valid() && stack.Has(this)
      modifies stack, stack.objects
      ensures stack.Valid() && stack.objects == old(stack.objects) && stack.all == old(stack.all)
      ensures stack.World() == Spec.Act(old(stack.World()), Spec.Action.Write(serial, length, accepted, inside))
      decreases inside, 2
    {
      if !pcb { return; }
      if !accepted {
        Close(stack, inside);
      }
    }

    /** Hands the copied chain to the delegate. */
    method Deliver(stack: Stack, data: Bytes, length: nat)
      requires stack.Valid() && stack.Has(this)
      modifies this`delivered, this`held, stack`log
      ensures stack.Valid() && stack.World() == Spec.Deliver(old(stack.World()), serial, data, length)
    {
      ghost var w := stack.World();
      delivered, held := delivered + data, length;
      stack.Notify(Spec.DidReadData(serial, data));
      assert forall i :: 0 <= i < |stack.all| && i != serial ==> stack.World().sockets[i] == w.sockets[i];
      assert stack.World().sockets == w.sockets[serial := State()];
    }

    /** `tcp_recved`: opens the window again by what was delivered. */
    method Acknowledge(stack: Stack)
      requires stack.Valid() && stack.Has(this)
      modifies this`credit, this`held
      ensures stack.Valid() && stack.World() == Spec.Acknowledge(old(stack.World()), serial)
    {
      if pcb {
        ghost var w := stack.World();
        credit, held := credit + held, 0;
        assert forall i :: 0 <= i < |stack.all| && i != serial ==> stack.World().sockets[i] == w.sockets[i];
        assert stack.World().sockets == w.sockets[serial := State()];
      }
    }

    method Recved(stack: Stack, buf: Option<Spec.Pbuf>, script: seq<Spec.Action>)
      requires stack.Valid() && stack.Has(this)
      modifies stack, stack.objects
      ensures stack.Valid() && stack.objects == old(stack.objects) && stack.all == old(stack.all)
      ensures stack.World() == Spec.Recved(old(stack.World()), serial, buf, script)
    {
      if buf.None? {
        stack.Notify(Spec.LocalDidClose(serial));
        stack.RunScript(script);
      } else {
        var length := buf.value.totLen;
        Deliver(stack, Spec.CopyPartial(buf.value, length), length);
        stack.RunScript(script);
        Acknowledge(stack);
      }
    }

    /** lwIP has freed the pcb. Only a reset and an abort are told to the delegate. */
    method Errored(stack: Stack, code: int, script: seq<Spec.Action>)
      requires stack.Valid() && stack.Has(this) && argAllocated
      modifies stack, stack.objects
      ensures stack.Valid() && stack.objects == old(stack.objects) && stack.all == old(stack.all)
      ensures stack.World() == Spec.Errored(old(stack.World()), serial, code, script)
    {
      Release(stack);
      if code == Spec.ERR_RST {
        stack.Notify(Spec.Ended(serial, Spec.DidReset));
        stack.RunScript(script);
      } else if code == Spec.ERR_ABRT {
        stack.Notify(Spec.Ended(serial, Spec.DidAbort));
        stack.RunScript(script);
      }
    }
  }
}
