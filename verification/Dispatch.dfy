/** Removing traps and walking the traps of one address: each is run once, in order, and the
    engine's invariant survives. */
module Dispatching {
  import opened GuestMemory
  import opened TrapManager
  import opened Engine
  import opened EngineInvariants

  // ----- one-shot removal

  lemma DropCounts(t: Tables, trap: Trap)
    requires PaTableOk(t) && Count(t, trap) == 1
    ensures trap.pa in t.breakpoint
    ensures forall x: Trap :: Count(DropTrap(t, trap), x) == Count(t, x) - (if x == trap then 1 else 0)
  {
    DropLists(t, trap);
    RemoveFirstCounts(TrapsAt(t, trap.pa), trap);
  }

  lemma ConservedDrop(s: State, trap: Trap, s': State)
    requires TrapsConserved(s) && Count(s.tables, trap) == 1
    requires s'.injected == s.injected && s'.freed == s.freed + multiset{trap} && s'.nextId == s.nextId
    requires forall x: Trap :: Count(s'.tables, x) == Count(s.tables, x) - (if x == trap then 1 else 0)
    ensures TrapsConserved(s')
  {
  }

  lemma DestroyConserves(s: State, trap: Trap)
    requires PaTableOk(s.tables) && TrapsConserved(s) && Count(s.tables, trap) == 1
    ensures TrapsConserved(DestroyTrap(s, trap))
  {
    DropCounts(s.tables, trap);
    hide Count, DropTrap, TrapsConserved, PaTableOk;
    ConservedDrop(s, trap, DestroyTrap(s, trap));
  }

  /** Other traps remain at the address: neither flags nor bytes change. */
  lemma DestroySharedMaps(s: State, trap: Trap)
    requires MapsOk(s) && trap.pa in s.tables.breakpoint
    requires TrapsAt(DropTrap(s.tables, trap), trap.pa) != []
    ensures MapsOk(DestroyTrap(s, trap)) && GuestUntouched(s, DestroyTrap(s, trap))
    ensures ShadowOk(s) ==> ShadowOk(DestroyTrap(s, trap))
    ensures DoubleOk(s) ==> DoubleOk(DestroyTrap(s, trap))
  {
    assert DestroyTrap(s, trap).tables.breakpoint.Keys == s.tables.breakpoint.Keys;
  }

  lemma DestroyLastMemory(s: State, trap: Trap)
    requires MapsOk(s) && trap.pa in s.tables.breakpoint
    requires TrapsAt(DropTrap(s.tables, trap), trap.pa) == []
    ensures var s' := DestroyTrap(s, trap);
            var f, off := Gfn(trap.pa), Off(trap.pa);
            var r := s.tables.remapped[f];
            && s'.mem == s.mem[r := s.mem[r][off := s.mem[f][off]]]
            && s'.tables.breakpoint == s.tables.breakpoint - {trap.pa}
            && s'.tables.remapped == s.tables.remapped && s'.tables.memaccess == s.tables.memaccess
            && s'.ram == s.ram && s'.alt == s.alt && s'.armed == s.armed
            && s'.nextPass == s.nextPass && s'.freedPasses == s.freedPasses
  {
    PaParts(s.tables.remapped[Gfn(trap.pa)], Off(trap.pa));
  }

  lemma DestroyLastMaps(s: State, trap: Trap)
    requires MapsOk(s) && trap.pa in s.tables.breakpoint
    requires TrapsAt(DropTrap(s.tables, trap), trap.pa) == []
    ensures MapsOk(DestroyTrap(s, trap)) && GuestUntouched(s, DestroyTrap(s, trap))
  {
    DestroyLastMemory(s, trap);
    assert GuestRam(DestroyTrap(s, trap)) == GuestRam(s);
  }

  lemma DestroyLastBytes(s: State, trap: Trap)
    requires MapsOk(s) && ShadowOk(s) && DoubleOk(s) && trap.pa in s.tables.breakpoint
    requires TrapsAt(DropTrap(s.tables, trap), trap.pa) == []
    requires MapsOk(DestroyTrap(s, trap))
    ensures ShadowOk(DestroyTrap(s, trap)) && DoubleOk(DestroyTrap(s, trap))
  {
    var s' := DestroyTrap(s, trap);
    DestroyLastMemory(s, trap);
    assert s'.tables.breakpoint.Keys == s.tables.breakpoint.Keys - {trap.pa};
    forall g | g in s'.tables.remapped
      ensures s'.mem[s'.tables.remapped[g]] == Shadowed(s'.mem[g], s'.tables.breakpoint.Keys, g)
    {
      ShadowedRemove(s.mem[g], s.tables.breakpoint.Keys, g, trap.pa);
    }
  }

  lemma DestroyTables(s: State, trap: Trap)
    ensures DestroyTrap(s, trap).tables == DropTrap(s.tables, trap)
  {
  }

  /** Removing a live trap keeps the invariant; with the last trap at an address the original byte
      is put back in the shadow page. */
  lemma DestroyKeepsInv(exact: bool, s: State, trap: Trap)
    requires EngineInv(exact, s) && Count(s.tables, trap) == 1
    ensures EngineInv(exact, DestroyTrap(s, trap)) && GuestUntouched(s, DestroyTrap(s, trap))
  {
    hide DestroyTrap, DropTrap, Count, TrapsConserved, MapsOk, ShadowOk, DoubleOk, GuestUntouched;
    hide TrapsAt, TrapsIn, AtPa, PaTableOk, GfnTableOk;
    DestroyTables(s, trap);
    DropKeepsIndex(s.tables, trap);
    DestroyConserves(s, trap);
    DropCounts(s.tables, trap);
    if TrapsAt(DropTrap(s.tables, trap), trap.pa) != [] {
      DestroySharedMaps(s, trap);
    } else {
      DestroyLastMaps(s, trap);
      if exact {
        DestroyLastBytes(s, trap);
      }
    }
  }

  // ----- the environment's good behaviour

  /** Return addresses lie in the guest's memory and a shadow frame can be had whenever one is needed. */
  ghost predicate EnvironmentOk(w: World, ram: set<nat>) {
    && (forall used: set<nat> :: w.alloc(used) != 0 && w.alloc(used) !in used)
    && (forall t: Trap, n: nat :: Gfn(w.outcome(t, n).retPa) in ram)
  }

  // ----- one callback

  lemma BookkeepingKeepsInv(exact: bool, s: State, fired: seq<Trap>, nextId: nat)
    requires EngineInv(exact, s) && nextId >= s.nextId
    ensures EngineInv(exact, s.(fired := fired, nextId := nextId))
    ensures GuestUntouched(s, s.(fired := fired, nextId := nextId))
  {
  }

  lemma CallbackKeepsInv(exact: bool, w: World, s: State, t: Trap)
    requires EngineInv(exact, s) && EnvironmentOk(w, s.ram)
    ensures EngineInv(exact, RunCallback(w, s, t)) && GuestUntouched(s, RunCallback(w, s, t))
  {
    if Returns(w, s, t) {
      var ret := ReturnTrap(s.nextId, w.outcome(t, |s.fired|));
      BookkeepingKeepsInv(exact, s, s.fired + [t], s.nextId + 1);
      FreshIdentity(s, ret);
      InjectSucceeds(exact, w, AfterCallback(s, t), ret);
    } else {
      BookkeepingKeepsInv(exact, s, s.fired + [t], s.nextId);
    }
  }

  lemma InjectSucceeds(exact: bool, w: World, s: State, trap: Trap)
    requires EngineInv(exact, s) && EnvironmentOk(w, s.ram)
    requires trap !in s.injected && trap.id < s.nextId && Gfn(trap.pa) in s.ram
    ensures EngineInv(exact, InjectTrap(w, s, trap).0) && GuestUntouched(s, InjectTrap(w, s, trap).0)
  {
    assert w.alloc(s.mem.Keys + {Gfn(trap.pa)}) != 0;
    InjectInRam(exact, w, s, trap);
  }

  lemma FreshIdentity(s: State, t: Trap)
    requires TrapsConserved(s) && t.id >= s.nextId
    ensures t !in s.injected && Count(s.tables, t) == 0 && s.freed[t] == 0
  {
  }

  lemma ShadowForLists(w: World, s: State, frame: nat)
    ensures var s2 := Arm(ShadowFor(w, s, frame).0, frame);
            && s2.tables.breakpoint == s.tables.breakpoint
            && s2.fired == s.fired && s2.freed == s.freed && s2.nextId == s.nextId && s2.injected == s.injected
  {
  }

  lemma AddLists(t: Tables, trap: Trap, flag: bool)
    ensures forall pa: nat :: TrapsAt(SetDoubletrap(AddTrap(t, trap), trap.pa, flag), pa) ==
                              TrapsAt(t, pa) + if pa == trap.pa then [trap] else []
    ensures forall pa: nat :: TrapsAt(AddTrap(t, trap), pa) == TrapsAt(t, pa) + if pa == trap.pa then [trap] else []
  {
  }

  /** Injection adds its trap at the end of its address's list and touches no other list. */
  lemma InjectLists(w: World, s: State, trap: Trap)
    ensures var (s', ok) := InjectTrap(w, s, trap);
            && s'.fired == s.fired && s'.freed == s.freed && s'.nextId == s.nextId
            && s'.injected == s.injected + (if ok then {trap} else {})
            && forall pa: nat :: TrapsAt(s'.tables, pa) ==
                                 TrapsAt(s.tables, pa) + if pa == trap.pa && ok then [trap] else []
  {
    var (s', ok) := InjectTrap(w, s, trap);
    if trap.pa in s.tables.breakpoint {
      AddLists(s.tables, trap, true);
    } else {
      ShadowForLists(w, s, Gfn(trap.pa));
      var s2 := Arm(ShadowFor(w, s, Gfn(trap.pa)).0, Gfn(trap.pa));
      AddLists(s2.tables, trap, true);
      AddLists(s2.tables, trap, false);
      assert forall pa: nat :: TrapsAt(s2.tables, pa) == TrapsAt(s.tables, pa);
    }
  }

  // ----- walking the list

  /** The traps of a list that stay in the tables, and those that have a callback, in list order. */
  function Lasting(traps: seq<Trap>): seq<Trap> {
    if traps == [] then [] else (if traps[0].selfDestroy then [] else [traps[0]]) + Lasting(traps[1..])
  }

  function WithCallback(traps: seq<Trap>): seq<Trap> {
    if traps == [] then [] else (if traps[0].hasCb then [traps[0]] else []) + WithCallback(traps[1..])
  }

  lemma LastingFirst(x: Trap, rest: seq<Trap>)
    ensures Lasting([x] + rest) == (if x.selfDestroy then [] else [x]) + Lasting(rest)
    ensures WithCallback([x] + rest) == (if x.hasCb then [x] else []) + WithCallback(rest)
  {
    assert ([x] + rest)[1..] == rest;
  }

  lemma {:induction false} LastingAppend(traps: seq<Trap>, t: Trap)
    ensures Lasting(traps + [t]) == Lasting(traps) + (if t.selfDestroy then [] else [t])
    ensures WithCallback(traps + [t]) == WithCallback(traps) + (if t.hasCb then [t] else [])
  {
    assert Lasting([]) == [] && WithCallback([]) == [];
    hide Lasting, WithCallback;
    if traps == [] {
      LastingFirst(t, []);
      assert [] + [t] == [t] + [];
    } else {
      var x, rest := traps[0], traps[1..];
      LastingAppend(rest, t);
      LastingFirst(x, rest);
      LastingFirst(x, rest + [t]);
      assert traps == [x] + rest && traps + [t] == [x] + (rest + [t]);
    }
  }

  lemma {:induction false} RemoveAfter(kept: seq<Trap>, t: Trap, rest: seq<Trap>)
    requires t !in kept
    ensures RemoveFirst(kept + [t] + rest, t) == kept + rest
  {
    if kept == [] {
      assert [] + [t] + rest == [t] + rest;
      assert ([t] + rest)[1..] == rest;
    } else {
      assert (kept + [t] + rest)[1..] == kept[1..] + [t] + rest;
      RemoveAfter(kept[1..], t, rest);
    }
  }

  /** Removing one trap of a list leaves the other lists alone. */
  lemma DestroyLists(s: State, trap: Trap)
    requires trap.pa in s.tables.breakpoint
    ensures var s' := DestroyTrap(s, trap);
            && s'.fired == s.fired && s'.freed == s.freed + multiset{trap} && s'.nextId == s.nextId
            && s'.injected == s.injected
            && forall pa: nat :: TrapsAt(s'.tables, pa) ==
                                 if pa == trap.pa then RemoveFirst(TrapsAt(s.tables, pa), trap)
                                  else TrapsAt(s.tables, pa)
  {
  }

  /** What a callback does to the lists: it appends `Appended` to the one being walked. */
  lemma CallbackLists(w: World, s: State, t: Trap)
    requires t.pa in s.tables.breakpoint
    ensures var s' := RunCallback(w, s, t);
            && s'.fired == s.fired + (if t.hasCb then [t] else [])
            && s'.freed == s.freed && s'.nextId >= s.nextId
            && TrapsAt(s'.tables, t.pa) == TrapsAt(s.tables, t.pa) + Appended(w, s, t)
            && forall pa: nat :: TrapsAt(s.tables, pa) <= TrapsAt(s'.tables, pa)
  {
    if Returns(w, s, t) {
      InjectLists(w, AfterCallback(s, t), ReturnTrap(s.nextId, w.outcome(t, |s.fired|)));
    }
  }

  lemma OnceInList(s: State, traps: seq<Trap>, t: Trap, kept: seq<Trap>, rest: seq<Trap>)
    requires TrapsConserved(s) && traps == TrapsAt(s.tables, t.pa) && traps == kept + [t] + rest
    ensures Count(s.tables, t) == 1 && t !in kept
  {
  }

  lemma FiredAfter(s: State, s': State, t: Trap)
    requires FiredOk(s) && TrapsConserved(s) && Count(s.tables, t) == 1
    requires s'.fired == s.fired || s'.fired == s.fired + [t]
    requires s'.freed == s.freed + if t.selfDestroy then multiset{t} else multiset{}
    ensures FiredOk(s')
  {
  }

  /** One visit: the callback runs if there is one, and the trap stays at its place in the list or,
      being one-shot, leaves it. `kept` is the part of the list already walked. */
  lemma VisitLists(w: World, s: State, kept: seq<Trap>, t: Trap, rest: seq<Trap>)
    requires t.pa in s.tables.breakpoint && TrapsAt(s.tables, t.pa) == kept + [t] + rest && t !in kept
    ensures var s' := Visit(w, s, t);
            && s'.nextId >= s.nextId
            && s'.fired == s.fired + (if t.hasCb then [t] else [])
            && s'.freed == s.freed + (if t.selfDestroy then multiset{t} else multiset{})
            && TrapsAt(s'.tables, t.pa) == kept + (if t.selfDestroy then [] else [t]) + rest + Appended(w, s, t)
            && forall pa: nat | pa != t.pa :: TrapsAt(s.tables, pa) <= TrapsAt(s'.tables, pa)
  {
    hide RunCallback, DestroyTrap, Appended, RemoveFirst;
    var s1 := RunCallback(w, s, t);
    var more := Appended(w, s, t);
    CallbackLists(w, s, t);
    assert kept + [t] + rest + more == kept + [t] + (rest + more);
    if t.selfDestroy {
      assert t in TrapsAt(s1.tables, t.pa);
      DestroyLists(s1, t);
      RemoveAfter(kept, t, rest + more);
      assert kept + [] + rest + more == kept + (rest + more);
    }
  }

  lemma VisitKeepsInv(exact: bool, w: World, s: State, t: Trap)
    requires EngineInv(exact, s) && EnvironmentOk(w, s.ram) && Count(s.tables, t) == 1
    ensures EngineInv(exact, Visit(w, s, t)) && GuestUntouched(s, Visit(w, s, t))
    ensures FiredOk(s) ==> FiredOk(Visit(w, s, t))
  {
    hide EngineInv, FiredOk, GuestUntouched, RunCallback, DestroyTrap, Count, EnvironmentOk;
    if FiredOk(s) {
      VisitFired(exact, w, s, t);
    }
    CallbackKeepsInv(exact, w, s, t);
    EngineConserves(exact, RunCallback(w, s, t));
    if t.selfDestroy {
      var s1 := RunCallback(w, s, t);
      StillOnce(w, s, t);
      DestroyKeepsInv(exact, s1, t);
      UntouchedTwice(s, s1, Visit(w, s, t));
    }
  }

  lemma EngineConserves(exact: bool, s: State)
    requires EngineInv(exact, s)
    ensures TrapsConserved(s)
  {
  }

  lemma StillOnce(w: World, s: State, t: Trap)
    requires TrapsConserved(RunCallback(w, s, t)) && Count(s.tables, t) == 1
    ensures Count(RunCallback(w, s, t).tables, t) == 1
  {
    CallbackLists(w, s, t);
    var now := TrapsAt(RunCallback(w, s, t).tables, t.pa);
    var before := TrapsAt(s.tables, t.pa);
    assert now == before + now[|before|..];
    var s' := RunCallback(w, s, t);
    assert Count(s'.tables, t) + s'.freed[t] == if t in s'.injected then 1 else 0;
  }

  lemma RemainingParts(w: World, s: State, todo: seq<Trap>)
    requires todo != []
    ensures Remaining(w, s, todo) == todo[1..] + Appended(w, s, todo[0])
    ensures forall x | x in Appended(w, s, todo[0]) ::
              x.selfDestroy && x.hasCb && x.pa == todo[0].pa && x.id >= s.nextId
    ensures Lasting(Remaining(w, s, todo)) == Lasting(todo[1..])
    ensures WithCallback(Remaining(w, s, todo)) == WithCallback(todo[1..]) + Appended(w, s, todo[0])
  {
    var more := Appended(w, s, todo[0]);
    if more != [] {
      LastingAppend(todo[1..], more[0]);
    } else {
      assert todo[1..] + [] == todo[1..];
    }
  }

  /** Walking what is left of one address's list runs the callback of each trap in it once, in order,
      then those of one-shot traps the callbacks themselves put at that address; the one-shot traps
      are gone afterwards and the others are still there, in order. */
  ghost predicate Walked(s: State, s': State, pa: nat, kept: seq<Trap>, todo: seq<Trap>, extra: seq<Trap>) {
    && s'.nextId >= s.nextId
    && s'.fired == s.fired + WithCallback(todo) + extra
    && TrapsAt(s'.tables, pa) == kept + Lasting(todo)
    && (forall q: nat | q != pa :: TrapsAt(s.tables, q) <= TrapsAt(s'.tables, q))
    && (forall x | x in extra :: x.selfDestroy && x.pa == pa && x.id >= s.nextId)
  }

  lemma WalkedStep(w: World, s: State, s1: State, s': State, pa: nat,
                   kept: seq<Trap>, todo: seq<Trap>, later: seq<Trap>)
    requires todo != [] && todo[0].pa == pa && s1.nextId >= s.nextId
    requires s1.fired == s.fired + if todo[0].hasCb then [todo[0]] else []
    requires forall q: nat | q != pa :: TrapsAt(s.tables, q) <= TrapsAt(s1.tables, q)
    requires Walked(s1, s', pa, kept + (if todo[0].selfDestroy then [] else [todo[0]]), Remaining(w, s, todo), later)
    ensures Walked(s, s', pa, kept, todo, Appended(w, s, todo[0]) + later)
  {
    hide Remaining, Appended, TrapsAt, Lasting, WithCallback;
    RemainingParts(w, s, todo);
    var more := Appended(w, s, todo[0]);
    var cb := if todo[0].hasCb then [todo[0]] else [];
    var stays := if todo[0].selfDestroy then [] else [todo[0]];
    FirstParts(todo);
    Regroup(kept, stays, Lasting(todo[1..]), []);
    Regroup(s.fired + cb, WithCallback(todo[1..]), more, later);
    Regroup(s.fired, cb, WithCallback(todo[1..]), more + later);
    forall q: nat | q != pa
      ensures TrapsAt(s.tables, q) <= TrapsAt(s'.tables, q)
    {
      assert TrapsAt(s.tables, q) <= TrapsAt(s1.tables, q) <= TrapsAt(s'.tables, q);
    }
  }

  lemma FirstParts(todo: seq<Trap>)
    requires todo != []
    ensures Lasting(todo) == (if todo[0].selfDestroy then [] else [todo[0]]) + Lasting(todo[1..])
    ensures WithCallback(todo) == (if todo[0].hasCb then [todo[0]] else []) + WithCallback(todo[1..])
  {
  }

  lemma Regroup(a: seq<Trap>, b: seq<Trap>, c: seq<Trap>, d: seq<Trap>)
    ensures a + (b + c) + d == a + b + (c + d)
    ensures a + b + c == a + (b + c)
  {
  }

  lemma UntouchedTwice(s: State, s1: State, s2: State)
    requires GuestUntouched(s, s1) && GuestUntouched(s1, s2)
    ensures GuestUntouched(s, s2)
  {
  }

  lemma {:induction false} DispatchAll(exact: bool, w: World, s: State, pa: nat, kept: seq<Trap>, todo: seq<Trap>)
    returns (extra: seq<Trap>)
    requires EngineInv(exact, s) && FiredOk(s) && EnvironmentOk(w, s.ram)
    requires TrapsAt(s.tables, pa) == kept + todo
    ensures EngineInv(exact, Dispatch(w, s, todo)) && FiredOk(Dispatch(w, s, todo))
    ensures GuestUntouched(s, Dispatch(w, s, todo))
    ensures Walked(s, Dispatch(w, s, todo), pa, kept, todo, extra)
    decreases Weight(todo)
  {
    hide EngineInv, GuestRam, Visit, Remaining, Appended, Lasting, WithCallback, EnvironmentOk, FiredOk;
    extra := [];
    if todo == [] {
      assert kept + Lasting(todo) == kept by {
        EmptyParts();
      }
      EmptyParts();
    } else {
      var t := todo[0];
      var s1 := Visit(w, s, t);
      HeadOfList(exact, s, pa, kept, todo);
      VisitKeepsInv(exact, w, s, t);
      VisitLists(w, s, kept, t, todo[1..]);
      VisitFired(exact, w, s, t);
      var kept' := kept + if t.selfDestroy then [] else [t];
      assert kept' + todo[1..] + Appended(w, s, t) == kept' + Remaining(w, s, todo) by {
        RemainingParts(w, s, todo);
      }
      var later := DispatchAll(exact, w, s1, pa, kept', Remaining(w, s, todo));
      WalkedStep(w, s, s1, Dispatch(w, s, todo), pa, kept, todo, later);
      UntouchedTwice(s, s1, Dispatch(w, s, todo));
      extra := Appended(w, s, t) + later;
    }
  }

  lemma EmptyParts()
    ensures Lasting([]) == [] && WithCallback([]) == []
  {
  }

  lemma VisitFired(exact: bool, w: World, s: State, t: Trap)
    requires EngineInv(exact, s) && FiredOk(s) && Count(s.tables, t) == 1
    ensures FiredOk(Visit(w, s, t))
  {
    assert t.pa in s.tables.breakpoint;
    CallbackLists(w, s, t);
    if t.selfDestroy {
      assert t in TrapsAt(RunCallback(w, s, t).tables, t.pa);
      DestroyLists(RunCallback(w, s, t), t);
    }
    FiredAfter(s, Visit(w, s, t), t);
  }

  lemma HeadOfList(exact: bool, s: State, pa: nat, kept: seq<Trap>, todo: seq<Trap>)
    requires EngineInv(exact, s)
    requires todo != [] && TrapsAt(s.tables, pa) == kept + todo
    ensures todo[0].pa == pa && pa in s.tables.breakpoint
    ensures TrapsAt(s.tables, pa) == kept + [todo[0]] + todo[1..]
    ensures Count(s.tables, todo[0]) == 1 && todo[0] !in kept
  {
    hide MapsOk, ShadowOk, DoubleOk, AtPa, GfnTableOk;
    assert kept + todo == kept + [todo[0]] + todo[1..];
    assert todo[0] in TrapsAt(s.tables, pa);
    OnceInList(s, TrapsAt(s.tables, pa), todo[0], kept, todo[1..]);
  }
}
