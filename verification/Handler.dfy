/** The engine's callbacks as the methods of the VM handler, each tied to the function that says what
    it does to the engine's state. */
module HandlerObject {
  import opened Wrappers
  import opened GuestMemory
  import opened TrapManager
  import opened Engine
  import opened EngineInvariants
  import opened Dispatching
  import opened Transparency
  import opened EngineLimits

  class Handler {
    var ram: set<nat>
    const tm: Manager
    var mem: Memory
    var alt: map<nat, nat>
    var armed: set<nat>
    var vcpus: seq<Vcpu>
    var nextId: nat
    var nextPass: nat
    var interrupted: bool
    ghost var injected: set<Trap>
    ghost var freed: multiset<Trap>
    var fired: seq<Trap>
    ghost var freedPasses: multiset<nat>

    ghost function Now(): State
      reads this, tm
    {
      State(ram, mem, tm.View(), alt, armed, vcpus, nextId, injected, freed, fired, nextPass, freedPasses, interrupted)
    }

    constructor (memory: Memory, n: nat)
      ensures fresh(tm) && Now() == Initial(memory, n)
      ensures EngineInv(true, Now()) && FiredOk(Now())
    {
      ram := memory.Keys;
      tm := new Manager();
      mem, alt, armed := memory, map[], {};
      vcpus := FreshVcpus(n);
      nextId, nextPass, interrupted := 0, 0, false;
      injected, freed, fired, freedPasses := {}, multiset{}, [], multiset{};
      new;
      InitialEngine(memory, n);
    }

    method CreateShadowPage(w: World, frame: nat) returns (r: nat)
      modifies this
      ensures (Now(), r) == Engine.CreateShadowPage(w, old(Now()), frame)
    {
      r := w.alloc(mem.Keys + {frame});
      if r == 0 {
        return;
      }
      var original := if frame in mem then Some(mem[frame]) else None;
      mem := mem[r := ZERO_PAGE];
      alt := alt[frame := r];
      if original == None {
        return 0;
      }
      mem := mem[r := original.value];
    }

    method EnsureShadow(w: World, frame: nat) returns (r: nat)
      modifies this, tm
      ensures r == ShadowFor(w, old(Now()), frame).1
      ensures Now() == Arm(ShadowFor(w, old(Now()), frame).0, frame)
    {
      if frame in tm.remapped {
        r := tm.remapped[frame];
      } else {
        r := CreateShadowPage(w, frame);
        if r != 0 {
          tm.AddRemapped(frame, r);
        }
      }
      tm.AddMemtrap(frame);
      armed := armed + {frame};
    }

    method PlaceTrap(trap: Trap, r: nat) returns (ok: bool)
      modifies this, tm
      ensures (Now(), ok) == Engine.PlaceTrap(old(Now()), trap, r)
    {
      var pa := trap.pa;
      var test := ReadByte(mem, pa);
      if test == None {
        return false;
      }
      var doubletrap := test.value == INT3;
      if !doubletrap {
        if r !in mem {
          return false;
        }
        mem := WriteByte(mem, Pa(r, Off(pa)), INT3);
      }
      tm.AddInt3Trap(trap);
      injected := injected + {trap};
      tm.MarkDoubletrap(pa, doubletrap);
      ok := true;
    }

    method InjectTrap(w: World, trap: Trap) returns (ok: bool)
      modifies this, tm
      ensures (Now(), ok) == Engine.InjectTrap(w, old(Now()), trap)
    {
      hide Engine.PlaceTrap, ShadowFor;
      if trap.pa in tm.breakpoint {
        tm.AddInt3Trap(trap);
        injected := injected + {trap};
        return true;
      }
      var r := EnsureShadow(w, Gfn(trap.pa));
      ok := PlaceTrap(trap, r);
    }

    /** The source dereferences the remapping without a test. */
    method RemoveInt3(pa: nat)
      requires Gfn(pa) in tm.remapped
      modifies this
      ensures Now() == Engine.RemoveInt3(old(Now()), pa)
    {
      var backup := ReadByte(mem, pa);
      if backup == None {
        interrupted := true;
      } else {
        mem := WriteByte(mem, Pa(tm.remapped[Gfn(pa)], Off(pa)), backup.value);
      }
    }

    method RunCallback(w: World, t: Trap)
      modifies this, tm
      ensures Now() == Engine.RunCallback(w, old(Now()), t)
    {
      hide Engine.InjectTrap;
      if t.hasCb {
        var o := w.outcome(t, |fired|);
        fired := fired + [t];
        if o.extra != 0 && t.hasRet {
          nextId := nextId + 1;
          assert Now() == AfterCallback(old(Now()), t);
          var _ := InjectTrap(w, ReturnTrap(nextId - 1, o));
        }
      }
    }

    /** Removes a one-shot trap from the tables, and its breakpoint if it was the last one there. */
    method DestroyTrap(t: Trap)
      requires t.pa in tm.breakpoint && Gfn(t.pa) in tm.remapped
      modifies this, tm
      ensures Now() == Engine.DestroyTrap(old(Now()), t)
    {
      var remains := tm.RemoveInt3Trap(t);
      freed := freed + multiset{t};
      if remains == 0 {
        RemoveInt3(t.pa);
      }
    }

    method Int3Cb(w: World, v: nat, pa: nat) returns (rsp: Response)
      requires EngineInv(false, Now()) && FiredOk(Now()) && EnvironmentOk(w, ram) && v < |vcpus|
      modifies this, tm
      ensures (Now(), rsp) == Engine.Int3Cb(w, old(Now()), v, pa)
    {
      if pa !in tm.breakpoint || tm.breakpoint[pa].traps == [] {
        var test := ReadByte(mem, pa);
        if test == None {
          interrupted := true;
          return Response(false, false, None);
        }
        return Response(test.value == INT3, false, None);
      }
      var doubletrap := tm.CheckDoubletrap(pa);
      WalkTraps(w, pa);
      vcpus := vcpus[v := vcpus[v].(callback := SinglestepCallback)];
      return Response(doubletrap, true, Some(Origin));
    }

    /** The loop over the traps of one address. The successor is read from the live list before the
        trap at hand is removed, so traps appended meanwhile are visited too. */
    method WalkTraps(w: World, pa: nat)
      requires EngineInv(false, Now()) && FiredOk(Now()) && EnvironmentOk(w, ram)
      requires pa in tm.breakpoint
      modifies this, tm
      ensures Now() == Dispatch(w, old(Now()), TrapsAt(old(Now()).tables, pa))
    {
      var loop := tm.breakpoint[pa].traps;
      ghost var kept: seq<Trap> := [];
      assert [] + loop == loop;
      while loop != []
        invariant EngineInv(false, Now()) && FiredOk(Now()) && EnvironmentOk(w, ram)
        invariant TrapsAt(Now().tables, pa) == kept + loop
        invariant Dispatch(w, Now(), loop) == Dispatch(w, old(Now()), TrapsAt(old(Now()).tables, pa))
        decreases Weight(loop)
      {
        loop, kept := VisitTrap(w, pa, kept, loop);
      }
    }

    /** One turn of the loop; `kept` is the part of the list behind it. */
    method VisitTrap(w: World, pa: nat, ghost kept: seq<Trap>, loop: seq<Trap>)
      returns (next: seq<Trap>, ghost kept': seq<Trap>)
      requires EngineInv(false, Now()) && FiredOk(Now()) && EnvironmentOk(w, ram)
      requires loop != [] && TrapsAt(Now().tables, pa) == kept + loop
      modifies this, tm
      ensures Now() == Visit(w, old(Now()), loop[0]) && next == Remaining(w, old(Now()), loop)
      ensures EngineInv(false, Now()) && FiredOk(Now())
      ensures TrapsAt(Now().tables, pa) == kept' + next
    {
      hide EngineInv, FiredOk, Visit, Remaining, Appended, EnvironmentOk, GuestRam;
      hide Engine.RunCallback, Engine.DestroyTrap;
      ghost var s := Now();
      var t := loop[0];
      HeadOfList(false, s, pa, kept, loop);
      VisitKeepsInv(false, w, s, t);
      VisitLists(w, s, kept, t, loop[1..]);
      VisitFired(false, w, s, t);
      CallbackKeepsInv(false, w, s, t);
      CallbackLists(w, s, t);
      RemainingParts(w, s, loop);
      kept' := kept + if t.selfDestroy then [] else [t];
      assert kept' + loop[1..] + Appended(w, s, t) == kept' + Remaining(w, s, loop);

      RunCallback(w, t);
      assert kept + loop + Appended(w, s, t) == kept + ([t] + Remaining(w, s, loop));
      var live := if pa in tm.breakpoint then tm.breakpoint[pa].traps else [];
      next := Successors(live, t, kept, Remaining(w, s, loop));
      if t.selfDestroy {
        Mapped(Now(), t.pa);
        DestroyTrap(t);
      }
      VisitIs(w, s, t);
    }

    method PreMemCb(w: World, v: nat, gfn: nat, write: bool) returns (rsp: Response)
      requires v < |vcpus|
      modifies this
      ensures (Now(), rsp) == Engine.PreMemCb(w, old(Now()), v, gfn, write)
    {
      if gfn !in tm.memaccess {
        return Response(false, false, None);
      }
      var traps, r := [], 0;
      if write {
        if w.fillTraps && gfn in tm.byGfn {
          traps := tm.byGfn[gfn];
        }
        if traps != [] && gfn in tm.remapped {
          r := tm.remapped[gfn];
        }
      }
      vcpus := vcpus[v := vcpus[v].(callback := PostMemCallback(MemPass(nextPass, gfn, r, traps)))];
      nextPass := nextPass + 1;
      rsp := Response(false, true, Some(Origin));
    }

    /** Copies the page again and re-applies the pass's traps. The source looks each trap's wrapper up
        and dereferences it. */
    method Recopy(pass: MemPass) returns (ok: bool)
      requires forall t | t in pass.traps :: t.pa in tm.breakpoint
      modifies this, tm
      ensures (Now(), ok) == Engine.Recopy(old(Now()), pass)
    {
      if pass.traps == [] {
        return true;
      }
      if pass.o !in mem || pass.r !in mem {
        return false;
      }
      mem := mem[pass.r := mem[pass.o]];
      ghost var s := Now();
      var loop := pass.traps;
      while loop != []
        invariant forall t | t in loop :: t.pa in tm.breakpoint
        invariant ReapplyAll(Now(), pass.r, loop) == ReapplyAll(s, pass.r, pass.traps)
        decreases |loop|
      {
        var pa := loop[0].pa;
        var test := ReadByte(mem, pa);
        if test == None {
          return false;
        }
        if test.value == INT3 {
          tm.MarkDoubletrap(pa, true);
        } else {
          tm.MarkDoubletrap(pa, false);
          mem := WriteByte(mem, Pa(pass.r, Off(pa)), INT3);
        }
        loop := loop[1..];
      }
      ok := true;
    }

    method PostMemCb(v: nat, pass: MemPass) returns (rsp: Response)
      requires v < |vcpus|
      requires forall t | t in pass.traps :: t.pa in tm.breakpoint
      modifies this, tm
      ensures (Now(), rsp) == Engine.PostMemCb(old(Now()), v, pass)
    {
      hide Engine.Recopy;
      var ok := Recopy(pass);
      if !ok {
        interrupted := true;
        return Response(false, false, None);
      }
      freedPasses := freedPasses + multiset{pass.id};
      vcpus := vcpus[v := vcpus[v].(callback := SinglestepCallback)];
      rsp := Response(false, true, Some(Alt));
    }

    method SinglestepCb() returns (rsp: Response)
      ensures (Now(), rsp) == Engine.SinglestepCb(old(Now()))
    {
      rsp := Response(false, true, Some(Alt));
    }

    /** Puts the ALT view back and returns the shadow frames. */
    method ReturnShadows()
      modifies this
      ensures Now() == old(Now()).(mem := old(mem) - tm.remapped.Values, alt := old(alt) - tm.remapped.Keys)
    {
      var os := tm.remapped.Keys;
      while os != {}
        invariant os <= tm.remapped.Keys
        invariant Now() == old(Now()).(mem := mem, alt := alt)
        invariant alt == old(alt) - (tm.remapped.Keys - os)
        invariant mem == old(mem) - Returned(tm.remapped, tm.remapped.Keys - os)
        decreases os
      {
        var o :| o in os;
        ghost var gone := tm.remapped.Keys - os;
        assert tm.remapped.Keys - (os - {o}) == gone + {o};
        assert Returned(tm.remapped, gone + {o}) == Returned(tm.remapped, gone) + {tm.remapped[o]};
        alt := alt - {o};
        mem := mem - {tm.remapped[o]};
        os := os - {o};
      }
      assert Returned(tm.remapped, tm.remapped.Keys) == tm.remapped.Values;
      assert tm.remapped.Keys - os == tm.remapped.Keys;
    }

    /** Frees every trap of every list of the address table. */
    method FreeTraps()
      requires PaTableOk(Now().tables)
      modifies this
      ensures Now() == old(Now()).(freed := freed)
      ensures forall t: Trap :: freed[t] == old(freed)[t] + multiset(TrapsAt(Now().tables, t.pa))[t]
    {
      var pas := tm.breakpoint.Keys;
      while pas != {}
        invariant pas <= tm.breakpoint.Keys
        invariant Now() == old(Now()).(freed := freed)
        invariant forall t: Trap :: freed[t] ==
                                    old(freed)[t] + if t.pa in pas then 0 else multiset(TrapsAt(Now().tables, t.pa))[t]
        decreases pas
      {
        var pa :| pa in pas;
        assert forall t: Trap | t.pa != pa :: t !in tm.breakpoint[pa].traps;
        freed := freed + multiset(tm.breakpoint[pa].traps);
        pas := pas - {pa};
      }
    }

    /** Disarms every frame, puts the ALT view back, returns the shadow frames and frees every trap. */
    method DestroyTraps()
      requires PaTableOk(Now().tables)
      modifies this, tm
      ensures Destroyed(old(Now()), Now())
    {
      armed := armed - tm.memaccess;
      ReturnShadows();
      FreeTraps();
      tm.Clear();
    }

    /** Rebuilds the engine for the rebooted guest: every old trap is freed, the tables are new and
        empty, and the vCPUs' step callbacks are set up afresh. */
    method RestartVmi(memory: Memory, n: nat)
      requires PaTableOk(Now().tables)
      modifies this, tm
      ensures Restarted(old(Now()), Now(), memory, n)
    {
      hide PaTableOk, FreshVcpus, TrapsAt;
      FreeTraps();
      tm.Clear();
      ram, mem, alt, armed := memory.Keys, memory, map[], {};
      vcpus := FreshVcpus(n);
    }
  }

  lemma InitialEngine(memory: Memory, n: nat)
    ensures EngineInv(true, Initial(memory, n)) && FiredOk(Initial(memory, n))
  {
    var w := World((_, _) => [], (_, _, _) => NoAccess, (_, _) => CbOutcome(0, 0), _ => 0, false);
    InitialOk(true, w, memory, n);
  }

  /** The shadow frames of some of the remapped frames. */
  ghost function Returned(remapped: map<nat, nat>, os: set<nat>): set<nat> {
    set o | o in os && o in remapped :: remapped[o]
  }

  /** The part of a list after a trap that occurs in it once. */
  method Successors(live: seq<Trap>, t: Trap, ghost kept: seq<Trap>, ghost rest: seq<Trap>) returns (next: seq<Trap>)
    requires live == kept + ([t] + rest) && t !in kept
    ensures next == rest
  {
    var i := 0;
    assert 0 < |kept| ==> live[0] == kept[0];
    while live[i] != t
      invariant i <= |kept|
      invariant live[i] in kept || i == |kept|
      decreases |kept| - i
    {
      i := i + 1;
      assert i < |kept| ==> live[i] == kept[i];
    }
    next := live[i + 1..];
  }

  lemma Mapped(s: State, pa: nat)
    requires EngineInv(false, s) && pa in s.tables.breakpoint
    ensures Gfn(pa) in s.tables.remapped
  {
  }

  lemma VisitIs(w: World, s: State, t: Trap)
    ensures Visit(w, s, t) == if t.selfDestroy then Engine.DestroyTrap(Engine.RunCallback(w, s, t), t)
                              else Engine.RunCallback(w, s, t)
  {
  }
}
