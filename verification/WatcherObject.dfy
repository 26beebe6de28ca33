/** The watcher as it keeps its VMs: records it changes in place, visited in turn by the monitor. */
module WatcherObject {
  import opened Watcher

  const MAX: nat := 10

  /** What the outside decides during one visit. */
  datatype Outside = Outside(alive: bool, up: bool, created: bool, initialised: bool, ok: bool)

  /** What one visit of the monitor does, the callback included. */
  function Visited(v: Vm, o: Outside): Vm {
    var p := Polled(v, o.alive, o.up, o.created);
    if p.pending then CallReturned(p, o.initialised, o.ok) else p
  }

  /** A visit is one step of the machine, or two when the callback is called, and passes the turn on. */
  lemma VisitIsMoves(w: World, o: Outside)
    requires w.turn < |w.vms| && !w.vms[w.turn].pending && (o.ok ==> o.initialised)
    ensures var v := w.vms[w.turn];
            var poll, call := Monitor(Poll(o.alive, o.up, o.created)), Monitor(Call(o.initialised, o.ok));
            Run(w, if Polled(v, o.alive, o.up, o.created).pending then [poll, call] else [poll])
            == World(w.vms[w.turn := Visited(v, o)],
                     if w.turn + 1 == |w.vms| then 0 else w.turn + 1)
  {
    hide Polled, CallReturned;
    var t := w.turn;
    var v := w.vms[t];
    var poll, call := Monitor(Poll(o.alive, o.up, o.created)), Monitor(Call(o.initialised, o.ok));
    var u := Moved(w, poll);
    RunOne(w, poll);
    if u.vms[t].pending {
      RunTwo(w, poll, call);
      var c := CallReturned(u.vms[t], o.initialised, o.ok);
      assert u.vms[t := c] == w.vms[t := c];
      NoLonger(u.vms[t], o.initialised, o.ok);
    }
  }

  lemma NoLonger(v: Vm, initialised: bool, ok: bool)
    ensures !CallReturned(v, initialised, ok).pending
  {
  }

  lemma RunOne(w: World, m: Move)
    requires Allowed(w, m)
    ensures Run(w, [m]) == Moved(w, m)
  {
  }

  lemma RunTwo(w: World, m: Move, n: Move)
    requires Allowed(w, m) && Allowed(Moved(w, m), n)
    ensures Run(w, [m, n]) == Moved(Moved(w, m), n)
  {
    RunOne(w, m);
    assert [m, n][..1] == [m];
  }

  class VmHandler {
    const vmi: int
    const restartCb: bool
    var state: Phase
    var bootDone: bool
    var okay: bool
    ghost var live: bool
    ghost var threads: seq<Stage>
    ghost var pending: bool
    ghost var log: seq<Act>

    constructor (vmi: int, restartCb: bool)
      ensures this.vmi == vmi && View() == Added(restartCb)
    {
      this.vmi, this.restartCb := vmi, restartCb;
      state, bootDone, okay := Running, false, true;
      live, threads, pending, log := true, [], false, [];
    }

    ghost function View(): Vm
      reads this
    {
      Vm(state, okay, bootDone, restartCb, live, threads, pending, log)
    }

    /** Looks after one VM and returns the state it is in then. */
    method GetVmState(alive: bool, up: bool, created: bool) returns (s: Phase)
      modifies this
      ensures View() == Polled(old(View()), alive, up, created)
      ensures s == state
    {
      match state {
        case Shutdown =>
          if up {
            bootDone := false;
            if created {
              threads := threads + [Starting];
            }
            state, log := Booting, log + [Probed(true)];
          } else {
            log := log + [Probed(false)];
          }
        case Booting =>
          if bootDone {
            state, log, pending := Phase.Restarted, log + [Restarting], restartCb;
          }
        case Running =>
          if okay {
            log := log + [Pinged(alive)];
            if !alive {
              okay := false;
              state := Destroying;
            }
          }
        case Destroying =>
          live, log := false, log + [Destroyed];
          state := Shutdown;
        case Restarted =>
          state := Running;
      }
      s := state;
    }

    /** Calls the restart callback, whose outcome is given. */
    method Restart(initialised: bool, ok: bool)
      modifies this
      ensures View() == CallReturned(old(View()), initialised, ok)
    {
      live, pending, log := live || initialised, false, log + [Called(initialised, ok)];
      if ok {
        okay := true;
      }
    }

    /** A boot thread ends its wait and reports. */
    method ReportBoot()
      requires threads != [] && threads[0] == Leaving
      modifies this
      ensures View() == ThreadMoved(old(View()), 0, true)
    {
      threads, log := threads[1..], log + [Reported];
      bootDone := true;
    }
  }

  class VmWatcher {
    const hdlr: array<VmHandler?>
    var size: nat

    constructor ()
      ensures Valid() && size == 0 && fresh(hdlr)
    {
      hdlr := new VmHandler?[MAX](_ => null);
      size := 0;
    }

    ghost predicate Valid()
      reads this, hdlr
    {
      && size <= hdlr.Length == MAX
      && (forall i | 0 <= i < size :: hdlr[i] != null)
      && (forall i, j | 0 <= i < j < size :: hdlr[i] != hdlr[j])
    }

    ghost function Vms(): seq<Vm>
      requires Valid()
      reads this, hdlr, hdlr[..]
    {
      seq(size, i requires 0 <= i < size <= hdlr.Length && hdlr[i] != null reads this, hdlr, hdlr[..] => hdlr[i].View())
    }

    method AddVm(vmi: int, restartCb: bool)
      requires Valid() && size < MAX
      modifies this, hdlr
      ensures Valid() && Vms() == old(Vms()) + [Added(restartCb)]
      ensures hdlr[old(size)] != null && hdlr[old(size)].vmi == vmi
    {
      hdlr[size] := new VmHandler(vmi, restartCb);
      size := size + 1;
    }

    /** What the listener of the given VM is told: the first VM's flag when the VM is watched at all. */
    method VmiOkay(vmi: int) returns (r: bool)
      requires Valid()
      ensures r <==> (exists i :: 0 <= i < size && hdlr[i].vmi == vmi) && hdlr[0].okay
    {
      var i := 0;
      while i < size
        invariant 0 <= i <= size
        invariant forall j | 0 <= j < i :: hdlr[j].vmi != vmi
      {
        if hdlr[i].vmi == vmi {
          return hdlr[0].okay;
        }
        i := i + 1;
      }
      return false;
    }

    method Visit(h: VmHandler, o: Outside)
      requires !h.pending
      modifies h
      ensures h.View() == Visited(old(h.View()), o)
    {
      var state := h.GetVmState(o.alive, o.up, o.created);
      if state == Phase.Restarted {
        if h.restartCb {
          h.Restart(o.initialised, o.ok);
        }
      }
    }

    /** One round of the monitor: every VM is visited once, in order. */
    method Round(outside: seq<Outside>)
      requires Valid() && |outside| == size
      requires forall i | 0 <= i < size :: !hdlr[i].pending
      modifies hdlr[..]
      ensures Valid()
      ensures forall i | 0 <= i < size :: hdlr[i].View() == Visited(old(hdlr[i].View()), outside[i])
    {
      hide Visited;
      var i := 0;
      while i < size
        invariant 0 <= i <= size && Valid()
        invariant forall j | 0 <= j < i :: hdlr[j].View() == Visited(old(hdlr[j].View()), outside[j])
        invariant forall j | i <= j < size :: hdlr[j].View() == old(hdlr[j].View())
      {
        Visit(hdlr[i], outside[i]);
        i := i + 1;
      }
    }
  }
}
