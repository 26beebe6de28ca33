/** Which traps come and go: the return traps one int3 event puts in, and that a system call's trap
    stays. */
module ReturnTraps {
  import opened GuestMemory
  import opened TrapManager
  import opened Engine
  import opened EngineInvariants
  import opened Dispatching
  import opened GuestMachine
  import opened Transparency
  import opened EngineLimits

  // ----- injection

  /** A trap in the guest's own memory can always be put in. */
  lemma InjectWorks(exact: bool, w: World, s: State, trap: Trap)
    requires EngineInv(exact, s) && EnvironmentOk(w, s.ram) && Gfn(trap.pa) in s.ram
    ensures InjectTrap(w, s, trap).1
  {
    hide IndexAgrees, ShadowOk, DoubleOk, TrapsConserved, Register, SetDoubletrap;
    var frame := Gfn(trap.pa);
    assert w.alloc(s.mem.Keys + {frame}) != 0 && frame in s.mem;
    ShadowIsThere(w, s, frame);
  }

  lemma ShadowIsThere(w: World, s: State, frame: nat)
    requires MapsOk(s) && frame in s.mem && w.alloc(s.mem.Keys + {frame}) != 0
    ensures var (s1, r) := ShadowFor(w, s, frame);
            r in s1.mem && frame in s1.mem
  {
  }

  // ----- one callback

  /** Exactly when a callback leads to a return trap, and exactly which: one that runs once, at the
      address returned to, with the data the callback returned. Nothing else in the tables changes. */
  lemma CallbackAdds(exact: bool, w: World, s: State, t: Trap)
    requires EngineInv(exact, s) && EnvironmentOk(w, s.ram)
    ensures var s', o := RunCallback(w, s, t), w.outcome(t, |s.fired|);
            var ret := Trap(s.nextId, o.retPa, true, false, true, o.extra);
            if t.hasCb && t.hasRet && o.extra != 0 then
              && s'.nextId == s.nextId + 1 && s'.injected == s.injected + {ret}
              && (forall pa: nat :: TrapsAt(s'.tables, pa) ==
                                    TrapsAt(s.tables, pa) + if pa == o.retPa then [ret] else [])
            else
              s'.nextId == s.nextId && s'.injected == s.injected && s'.tables == s.tables
    ensures RunCallback(w, s, t).fired == s.fired + if t.hasCb then [t] else []
  {
    hide IndexAgrees, MapsOk, ShadowOk, DoubleOk, TrapsConserved, InjectTrap, TrapsAt, EnvironmentOk;
    var o := w.outcome(t, |s.fired|);
    if t.hasCb && t.hasRet && o.extra != 0 {
      var ret := Trap(s.nextId, o.retPa, true, false, true, o.extra);
      var s0 := s.(fired := s.fired + [t], nextId := s.nextId + 1);
      BookkeepingKeepsInv(exact, s, s.fired + [t], s.nextId + 1);
      ReturnsInside(w, s, t);
      InjectWorks(exact, w, s0, ret);
      InjectLists(w, s0, ret);
    }
  }

  lemma ReturnsInside(w: World, s: State, t: Trap)
    requires EnvironmentOk(w, s.ram)
    ensures Gfn(w.outcome(t, |s.fired|).retPa) in s.ram
  {
  }

  // ----- one event

  /** The return traps the callbacks of these traps lead to, run in this order as the n-th callback and
      those after it, numbered from id on: one for each that returned data and has a return callback. */
  function ReturnsOf(w: World, n: nat, id: nat, fired: seq<Trap>): seq<Trap>
    decreases |fired|
  {
    if fired == [] then []
    else
      var t, o := fired[0], w.outcome(fired[0], n);
      if t.hasRet && o.extra != 0
      then [Trap(id, o.retPa, true, false, true, o.extra)] + ReturnsOf(w, n + 1, id + 1, fired[1..])
      else ReturnsOf(w, n + 1, id, fired[1..])
  }

  /** What a walk adds: `added` are the return traps of all callbacks run, each at the end of its own
      list; those put at the address being walked are run in turn. */
  ghost predicate Added(w: World, s: State, s': State, pa: nat, todo: seq<Trap>, added: seq<Trap>) {
    && s'.fired == s.fired + (WithCallback(todo) + AtPa(added, pa))
    && added == ReturnsOf(w, |s.fired|, s.nextId, WithCallback(todo) + AtPa(added, pa))
    && s'.nextId == s.nextId + |added|
    && s'.injected == s.injected + (set r | r in added)
    && forall q: nat | q != pa :: TrapsAt(s'.tables, q) == TrapsAt(s.tables, q) + AtPa(added, q)
  }

  /** The return trap of one visit. */
  function OneReturn(w: World, s: State, t: Trap): seq<Trap> {
    var o := w.outcome(t, |s.fired|);
    if t.hasCb && t.hasRet && o.extra != 0 then [Trap(s.nextId, o.retPa, true, false, true, o.extra)] else []
  }

  lemma VisitAdds(exact: bool, w: World, s: State, t: Trap)
    requires EngineInv(exact, s) && EnvironmentOk(w, s.ram) && TrapsAt(s.tables, t.pa) != []
    ensures var s', one := Visit(w, s, t), OneReturn(w, s, t);
            && s'.fired == s.fired + (if t.hasCb then [t] else [])
            && s'.nextId == s.nextId + |one| && s'.injected == s.injected + (set r | r in one)
            && (forall q: nat | q != t.pa :: TrapsAt(s'.tables, q) == TrapsAt(s.tables, q) + AtPa(one, q))
            && Appended(w, s, t) == AtPa(one, t.pa)
  {
    hide EngineInv, EnvironmentOk, RunCallback, DestroyTrap, TrapsAt;
    StillListed(w, s, t);
    CallbackAdds(exact, w, s, t);
    CallbackLists(w, s, t);
    AtPaOne(OneReturn(w, s, t));
    DestroyLists(RunCallback(w, s, t), t);
  }

  lemma StillListed(w: World, s: State, t: Trap)
    requires TrapsAt(s.tables, t.pa) != []
    ensures t.pa in s.tables.breakpoint && t.pa in RunCallback(w, s, t).tables.breakpoint
  {
    hide RunCallback;
    CallbackLists(w, s, t);
    assert TrapsAt(s.tables, t.pa) <= TrapsAt(RunCallback(w, s, t).tables, t.pa);
  }

  lemma AtPaOne(one: seq<Trap>)
    requires |one| <= 1
    ensures forall q: nat :: AtPa(one, q) == if one != [] && one[0].pa == q then one else []
  {
  }

  lemma {:induction false} AtPaConcat(a: seq<Trap>, b: seq<Trap>, pa: nat)
    ensures AtPa(a + b, pa) == AtPa(a, pa) + AtPa(b, pa)
  {
    if a == [] {
      assert a + b == b;
    } else {
      hide AtPa;
      var x, rest := a[0], a[1..];
      AtPaConcat(rest, b, pa);
      AtPaCons(x, rest, pa);
      AtPaCons(x, rest + b, pa);
      assert a == [x] + rest && a + b == [x] + (rest + b);
    }
  }

  lemma ReturnsStep(w: World, n: nat, id: nat, t: Trap, rest: seq<Trap>)
    ensures var o := w.outcome(t, n);
            var one := if t.hasRet && o.extra != 0 then [Trap(id, o.retPa, true, false, true, o.extra)] else [];
            ReturnsOf(w, n, id, [t] + rest) == one + ReturnsOf(w, n + 1, id + |one|, rest)
  {
    assert ([t] + rest)[1..] == rest;
  }

  /** One event's walk adds exactly the return traps of the callbacks it runs. */
  lemma {:induction false} DispatchAdds(exact: bool, w: World, s: State, pa: nat, kept: seq<Trap>, todo: seq<Trap>)
    returns (added: seq<Trap>)
    requires EngineInv(exact, s) && FiredOk(s) && EnvironmentOk(w, s.ram)
    requires TrapsAt(s.tables, pa) == kept + todo
    ensures Added(w, s, Dispatch(w, s, todo), pa, todo, added)
    decreases Weight(todo)
  {
    hide EngineInv, FiredOk, EnvironmentOk, Visit, Remaining, Lasting, WithCallback, Appended, Added;
    if todo == [] {
      added := [];
      NothingAdded(w, s, pa);
    } else {
      var t := todo[0];
      var s1 := Visit(w, s, t);
      HeadOfList(exact, s, pa, kept, todo);
      VisitKeepsInv(exact, w, s, t);
      VisitLists(w, s, kept, t, todo[1..]);
      VisitAdds(exact, w, s, t);
      VisitRam(w, s, t);
      var kept' := kept + if t.selfDestroy then [] else [t];
      assert kept' + todo[1..] + Appended(w, s, t) == kept' + Remaining(w, s, todo) by {
        RemainingParts(w, s, todo);
      }
      var later := DispatchAdds(exact, w, s1, pa, kept', Remaining(w, s, todo));
      added := OneReturn(w, s, t) + later;
      AddedStep(w, s, s1, Dispatch(w, s1, Remaining(w, s, todo)), pa, todo, later);
    }
  }

  lemma VisitRam(w: World, s: State, t: Trap)
    ensures Visit(w, s, t).ram == s.ram
  {
  }

  lemma NothingAdded(w: World, s: State, pa: nat)
    ensures Added(w, s, s, pa, [], [])
  {
    assert WithCallback([]) + AtPa([], pa) == [];
  }

  lemma AddedStep(w: World, s: State, s1: State, s': State, pa: nat, todo: seq<Trap>, later: seq<Trap>)
    requires todo != [] && todo[0].pa == pa
    requires s1.fired == s.fired + (if todo[0].hasCb then [todo[0]] else [])
    requires s1.nextId == s.nextId + |OneReturn(w, s, todo[0])|
    requires s1.injected == s.injected + (set r | r in OneReturn(w, s, todo[0]))
    requires forall q: nat | q != pa ::
               TrapsAt(s1.tables, q) == TrapsAt(s.tables, q) + AtPa(OneReturn(w, s, todo[0]), q)
    requires Appended(w, s, todo[0]) == AtPa(OneReturn(w, s, todo[0]), pa)
    requires Added(w, s1, s', pa, Remaining(w, s, todo), later)
    ensures Added(w, s, s', pa, todo, OneReturn(w, s, todo[0]) + later)
  {
    hide WithCallback, TrapsAt, Remaining, Appended, AtPa, ReturnsOf, OneReturn;
    var one := OneReturn(w, s, todo[0]);
    AddedRuns(w, s, pa, todo, later);
    AddedReturns(w, s, todo[0], WithCallback(Remaining(w, s, todo)) + AtPa(later, pa));
    var cb := if todo[0].hasCb then [todo[0]] else [];
    Regroup(s.fired, cb, WithCallback(Remaining(w, s, todo)) + AtPa(later, pa), []);
    forall q: nat | q != pa
      ensures TrapsAt(s'.tables, q) == TrapsAt(s.tables, q) + AtPa(one + later, q)
    {
      AtPaConcat(one, later, q);
      Regroup(TrapsAt(s.tables, q), AtPa(one, q), AtPa(later, q), []);
    }
  }

  lemma AddedRuns(w: World, s: State, pa: nat, todo: seq<Trap>, later: seq<Trap>)
    requires todo != [] && todo[0].pa == pa && Appended(w, s, todo[0]) == AtPa(OneReturn(w, s, todo[0]), pa)
    ensures WithCallback(todo) + AtPa(OneReturn(w, s, todo[0]) + later, pa) ==
            (if todo[0].hasCb then [todo[0]] else []) + (WithCallback(Remaining(w, s, todo)) + AtPa(later, pa))
  {
    hide WithCallback, Remaining, Appended, AtPa, OneReturn;
    var one, cb := OneReturn(w, s, todo[0]), if todo[0].hasCb then [todo[0]] else [];
    RemainingParts(w, s, todo);
    FirstParts(todo);
    AtPaConcat(one, later, pa);
    Regroup(cb, WithCallback(todo[1..]), AtPa(one, pa), AtPa(later, pa));
    Regroup(WithCallback(todo[1..]), AtPa(one, pa), AtPa(later, pa), []);
    Regroup(cb, WithCallback(todo[1..]), AtPa(one, pa) + AtPa(later, pa), []);
  }

  lemma AddedReturns(w: World, s: State, t: Trap, ran: seq<Trap>)
    ensures var one, cb := OneReturn(w, s, t), if t.hasCb then [t] else [];
            ReturnsOf(w, |s.fired|, s.nextId, cb + ran) ==
            one + ReturnsOf(w, |s.fired + cb|, s.nextId + |one|, ran)
  {
    hide ReturnsOf;
    if t.hasCb {
      ReturnsStep(w, |s.fired|, s.nextId, t, ran);
    } else {
      assert [] + ran == ran && [] + ReturnsOf(w, |s.fired|, s.nextId, ran) == ReturnsOf(w, |s.fired|, s.nextId, ran);
    }
  }

  /** The traps one int3 event adds are exactly those of the callbacks that returned data: the callbacks
      run are those of the traps registered at the address, then those of the return traps put at this very
      address; every other list grows by the return traps for it, in the order the callbacks ran. */
  lemma Int3Adds(exact: bool, w: World, s: State, v: nat, pa: nat) returns (added: seq<Trap>)
    requires EngineInv(exact, s) && FiredOk(s) && EnvironmentOk(w, s.ram) && v < |s.vcpus|
    requires TrapsAt(s.tables, pa) != []
    ensures Added(w, s, Int3Cb(w, s, v, pa).0, pa, TrapsAt(s.tables, pa), added)
  {
    hide EngineInv, FiredOk, EnvironmentOk, Dispatch, TrapsAt, Added;
    var todo := TrapsAt(s.tables, pa);
    assert [] + todo == todo;
    added := DispatchAdds(exact, w, s, pa, [], todo);
    AddedOnlyVcpus(w, s, Dispatch(w, s, todo), Int3Cb(w, s, v, pa).0, pa, todo, added);
  }

  lemma AddedOnlyVcpus(w: World, s: State, a: State, b: State, pa: nat, todo: seq<Trap>, added: seq<Trap>)
    requires Added(w, s, a, pa, todo, added)
    requires b.fired == a.fired && b.nextId == a.nextId && b.injected == a.injected && b.tables == a.tables
    ensures Added(w, s, b, pa, todo, added)
  {
  }

  // ----- system call traps

  /** Trapping a system call puts exactly one trap behind those at its address: one with a callback, with
      a return callback if there is one, that stays. */
  lemma SyscallAdds(exact: bool, w: World, s: State, pa: nat, hasRet: bool)
    requires EngineInv(exact, s) && EnvironmentOk(w, s.ram) && Gfn(pa) in s.ram
    ensures var s', t := Next(w, s, Syscall(pa, hasRet)), Trap(s.nextId, pa, true, hasRet, false, 0);
            && t !in s.injected && s'.injected == s.injected + {t} && s'.nextId == s.nextId + 1
            && forall q: nat :: TrapsAt(s'.tables, q) == TrapsAt(s.tables, q) + if q == pa then [t] else []
  {
    hide IndexAgrees, MapsOk, ShadowOk, DoubleOk, EnvironmentOk, InjectTrap, TrapsAt;
    var s0, t := s.(nextId := s.nextId + 1), Trap(s.nextId, pa, true, hasRet, false, 0);
    BookkeepingKeepsInv(exact, s, s.fired, s.nextId + 1);
    assert s0 == s.(fired := s.fired, nextId := s.nextId + 1);
    FreshIdentity(s, t);
    InjectWorks(exact, w, s0, t);
    InjectLists(w, s0, t);
  }

  lemma {:induction false} InLasting(traps: seq<Trap>, t: Trap)
    ensures t in Lasting(traps) <==> t in traps && !t.selfDestroy
  {
    if traps != [] {
      InLasting(traps[1..], t);
    }
  }

  lemma {:induction false} ReapplyLists(s: State, r: nat, traps: seq<Trap>)
    requires forall t | t in traps :: t.pa in s.tables.breakpoint
    ensures forall q: nat :: TrapsAt(ReapplyAll(s, r, traps).0.tables, q) == TrapsAt(s.tables, q)
    decreases |traps|
  {
    if traps != [] {
      match ReadByte(s.mem, traps[0].pa)
      case None =>
      case Some(b) => ReapplyLists(Reapply(s, r, traps[0].pa, b), r, traps[1..]);
    }
  }

  lemma StepEventLists(s: State, v: nat)
    requires v < |s.vcpus|
    ensures forall q: nat :: TrapsAt(StepEvent(s, v).tables, q) == TrapsAt(s.tables, q)
  {
    hide ReapplyAll, TrapsAt;
    var cb := s.vcpus[v].callback;
    if cb.PostMemCallback? && cb.pass.traps != [] && cb.pass.o in s.mem && cb.pass.r in s.mem
       && forall t | t in cb.pass.traps :: t.pa in s.tables.breakpoint {
      ReapplyLists(s.(mem := s.mem[cb.pass.r := s.mem[cb.pass.o]]), cb.pass.r, cb.pass.traps);
    }
  }

  lemma OriginLists(w: World, s: State, v: nat)
    requires v < |s.vcpus|
    ensures forall q: nat :: TrapsAt(OriginExec(w, s, v).tables, q) == TrapsAt(s.tables, q)
  {
    hide StepEvent, CpuStep, TrapsAt;
    var (mem, o) := CpuStep(w, v, s.mem, s.vcpus[v].hist);
    StepEventLists(Observe(s.(mem := mem), v, o), v);
  }

  lemma AltTables(w: World, s: State, v: nat)
    requires v < |s.vcpus|
    ensures AltExec(w, s, v).tables == s.tables
  {
    hide AltBytes, WriteByte, Through, AltByte;
  }

  lemma HandleKeepsTrap(w: World, s: State, v: nat, t: Trap)
    requires RunInv(false, w, s) && EnvironmentOk(w, s.ram) && v < |s.vcpus|
    requires t in TrapsAt(s.tables, t.pa) && !t.selfDestroy
    ensures t in TrapsAt(HandleEvent(w, s, v).tables, t.pa)
  {
    hide EngineInv, FiredOk, PassesConserved, VcpusOk, EnvironmentOk, Dispatch, TrapsAt, Lasting, WithCallback;
    var e := s.vcpus[v].pending;
    if e.Int3Event? && TrapsAt(s.tables, e.pa) != [] {
      var extra := Int3RunsEachOnce(false, w, s, v, e.pa);
      InLasting(TrapsAt(s.tables, e.pa), t);
      if t.pa != e.pa {
        assert TrapsAt(s.tables, t.pa) <= TrapsAt(Int3Cb(w, s, v, e.pa).0.tables, t.pa);
      }
    }
  }

  lemma StepKeepsTrap(w: World, s: State, l: Label, t: Trap)
    requires RunInv(false, w, s) && EnvironmentOk(w, s.ram)
    requires t in TrapsAt(s.tables, t.pa) && !t.selfDestroy
    ensures t in TrapsAt(Next(w, s, l).tables, t.pa)
  {
    hide RunInv, EnvironmentOk, TrapsAt, AltExec, OriginExec, HandleEvent, InjectTrap;
    match l {
      case Exec(v) =>
        if v < |s.vcpus| {
          AltTables(w, s, v);
          OriginLists(w, s, v);
        }
      case Handle(v) =>
        if v < |s.vcpus| {
          HandleKeepsTrap(w, s, v, t);
        }
      case Syscall(pa, hasRet) =>
        InjectLists(w, s.(nextId := s.nextId + 1), SyscallTrap(s, pa, hasRet));
    }
  }

  /** A trap that is not one-shot, as every system call's, stays registered through every run. */
  lemma {:induction false} TrapLasts(w: World, s: State, ls: seq<Label>, t: Trap)
    requires RunInv(false, w, s) && GuestConfined(w, s.ram) && EnvironmentOk(w, s.ram) && AllSensible(w, s, ls)
    requires t in TrapsAt(s.tables, t.pa) && !t.selfDestroy
    ensures t in TrapsAt(Run(w, s, ls).tables, t.pa)
    decreases |ls|
  {
    if ls != [] {
      hide RunInv, GuestConfined, EnvironmentOk, Next, Sensible, TrapsAt;
      StepSimulates(false, w, s, ls[0]);
      StepKeepsTrap(w, s, ls[0], t);
      TrapLasts(w, Next(w, s, ls[0]), ls[1..], t);
    }
  }
}
