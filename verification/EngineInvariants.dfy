/** What holds of the engine in every reachable state, and that each operation keeps it. */
module EngineInvariants {
  import opened Wrappers
  import opened GuestMemory
  import opened TrapManager
  import opened Engine

  // ----- the invariant

  /** Shadow frames are distinct, outside the guest's own memory, mapped by the ALT view exactly
      where they are recorded, and protected from data accesses; each breakpoint has one. */
  ghost predicate MapsOk(s: State) {
    var t := s.tables;
    && s.ram <= s.mem.Keys
    && (forall f | f in t.remapped :: f in s.ram && f in t.memaccess)
    && (forall f | f in t.remapped :: t.remapped[f] in s.mem && t.remapped[f] !in s.ram)
    && (forall f, g | f in t.remapped && g in t.remapped && f != g :: t.remapped[f] != t.remapped[g])
    && (forall f | f in s.ram :: f in s.alt <==> f in t.remapped)
    && (forall f | f in t.remapped :: f in s.alt && s.alt[f] == t.remapped[f])
    && s.armed == t.memaccess
    && (forall pa | pa in t.breakpoint :: Gfn(pa) in t.remapped)
  }

  /** Each shadow page holds INT3 exactly at the registered addresses and the original elsewhere. */
  ghost predicate ShadowOk(s: State)
    requires MapsOk(s)
  {
    forall f | f in s.tables.remapped ::
      s.mem[s.tables.remapped[f]] == Shadowed(s.mem[f], s.tables.breakpoint.Keys, f)
  }

  /** The doubletrap flag says whether the original byte is INT3. */
  ghost predicate DoubleOk(s: State)
    requires MapsOk(s)
  {
    forall pa | pa in s.tables.breakpoint ::
      s.tables.breakpoint[pa].doubletrap <==> s.mem[Gfn(pa)][Off(pa)] == INT3
  }

  function Count(t: Tables, x: Trap): nat {
    multiset(TrapsAt(t, x.pa))[x]
  }

  /** Every injected trap is either in the tables or was freed, once in all; identities are not reused. */
  ghost predicate TrapsConserved(s: State) {
    && (forall x: Trap {:trigger s.freed[x]} {:trigger Count(s.tables, x)} ::
          Count(s.tables, x) + s.freed[x] == if x in s.injected then 1 else 0)
    && (forall x | x in s.injected :: x.id < s.nextId)
  }

  /** A one-shot trap's callback has run at most once, and only if the trap was freed. */
  ghost predicate FiredOk(s: State) {
    forall x: Trap {:trigger multiset(s.fired)[x]} | x.selfDestroy :: multiset(s.fired)[x] <= s.freed[x]
  }

  /** The engine's invariant. With `exact` it includes the bytes and flags that guest writes to a
      trapped frame can put out of date. */
  ghost predicate EngineInv(exact: bool, s: State) {
    && IndexAgrees(s.tables)
    && MapsOk(s)
    && TrapsConserved(s)
    && (exact ==> ShadowOk(s) && DoubleOk(s))
  }

  /** Guest memory as the guest owns it. */
  function GuestRam(s: State): Memory {
    map f | f in s.ram && f in s.mem :: s.mem[f]
  }

  /** What a successful engine operation leaves alone: the guest's bytes, its vCPUs and the mappings
      already made. */
  ghost predicate GuestUntouched(s: State, s': State) {
    && s'.ram == s.ram
    && s'.vcpus == s.vcpus
    && s'.nextPass == s.nextPass && s'.freedPasses == s.freedPasses
    && GuestRam(s') == GuestRam(s)
    && s.tables.memaccess <= s'.tables.memaccess
    && forall f | f in s.tables.remapped :: f in s'.tables.remapped && s'.tables.remapped[f] == s.tables.remapped[f]
  }

  /** The allocator never hands out a frame in use. */
  ghost predicate AllocSound(w: World) {
    forall used: set<nat> :: w.alloc(used) == 0 || w.alloc(used) !in used
  }

  // ----- injection

  lemma CountAdd(t: Tables, trap: Trap, x: Trap)
    ensures Count(AddTrap(t, trap), x) == Count(t, x) + (if x == trap then 1 else 0)
  {
  }

  lemma SameCounts(t: Tables, t': Tables)
    requires forall pa | pa in t.breakpoint :: pa in t'.breakpoint && t'.breakpoint[pa].traps == t.breakpoint[pa].traps
    requires t'.breakpoint.Keys == t.breakpoint.Keys
    ensures forall x: Trap :: Count(t', x) == Count(t, x)
  {
  }

  lemma ConservedAdd(s: State, trap: Trap, s': State)
    requires TrapsConserved(s) && trap !in s.injected && trap.id < s.nextId
    requires s'.injected == s.injected + {trap} && s'.freed == s.freed && s'.nextId == s.nextId
    requires forall x: Trap :: Count(s'.tables, x) == Count(s.tables, x) + (if x == trap then 1 else 0)
    ensures TrapsConserved(s')
  {
  }

  lemma RegisterCounts(s: State, trap: Trap)
    ensures forall x: Trap :: Count(Register(s, trap).tables, x) == Count(s.tables, x) + (if x == trap then 1 else 0)
  {
  }

  /** Registering under an address that has a trap already changes neither flags nor shadow bytes. */
  lemma RegisterKeepsMaps(s: State, trap: Trap)
    requires MapsOk(s) && trap.pa in s.tables.breakpoint
    ensures MapsOk(Register(s, trap))
    ensures ShadowOk(s) ==> ShadowOk(Register(s, trap))
    ensures DoubleOk(s) ==> DoubleOk(Register(s, trap))
  {
    assert Register(s, trap).tables.breakpoint.Keys == s.tables.breakpoint.Keys;
  }

  lemma RegisterKeepsInv(exact: bool, s: State, trap: Trap)
    requires EngineInv(exact, s) && trap !in s.injected && trap.id < s.nextId
    requires trap.pa in s.tables.breakpoint
    ensures EngineInv(exact, Register(s, trap))
  {
    AddKeepsIndex(s.tables, trap);
    RegisterKeepsMaps(s, trap);
    RegisterCounts(s, trap);
    ConservedAdd(s, trap, Register(s, trap));
  }

  /** The state after the first trap at an address whose original byte is `b`. */
  function RegisterFirst(s: State, trap: Trap, b: Byte): State
    requires Gfn(trap.pa) in s.tables.remapped
  {
    var s1 := if b == INT3 then s
              else s.(mem := WriteByte(s.mem, Pa(s.tables.remapped[Gfn(trap.pa)], Off(trap.pa)), INT3));
    Register(s1, trap).(tables := SetDoubletrap(AddTrap(s.tables, trap), trap.pa, b == INT3))
  }

  lemma RegisterFirstMemory(s: State, trap: Trap, b: Byte)
    requires MapsOk(s) && Gfn(trap.pa) in s.tables.remapped
    ensures var s' := RegisterFirst(s, trap, b);
            var r := s.tables.remapped[Gfn(trap.pa)];
            && s'.mem == (if b == INT3 then s.mem else s.mem[r := s.mem[r][Off(trap.pa) := INT3]])
            && s'.tables.breakpoint.Keys == s.tables.breakpoint.Keys + {trap.pa}
            && s'.tables.remapped == s.tables.remapped && s'.ram == s.ram
  {
  }

  lemma RegisterFirstMaps(s: State, trap: Trap, b: Byte)
    requires MapsOk(s) && Gfn(trap.pa) in s.tables.remapped
    ensures MapsOk(RegisterFirst(s, trap, b)) && GuestUntouched(s, RegisterFirst(s, trap, b))
  {
    RegisterFirstMemory(s, trap, b);
    assert GuestRam(RegisterFirst(s, trap, b)) == GuestRam(s);
  }

  lemma RegisterFirstShadow(s: State, trap: Trap, b: Byte)
    requires MapsOk(s) && ShadowOk(s) && Gfn(trap.pa) in s.tables.remapped
    requires ReadByte(s.mem, trap.pa) == Some(b)
    requires MapsOk(RegisterFirst(s, trap, b))
    ensures ShadowOk(RegisterFirst(s, trap, b))
  {
    hide RegisterFirst, Shadowed;
    var s' := RegisterFirst(s, trap, b);
    var f := Gfn(trap.pa);
    var r := s.tables.remapped[f];
    RegisterFirstMemory(s, trap, b);
    forall g | g in s'.tables.remapped
      ensures s'.mem[s'.tables.remapped[g]] == Shadowed(s'.mem[g], s'.tables.breakpoint.Keys, g)
    {
      ShadowedAdd(s.mem[g], s.tables.breakpoint.Keys, g, trap.pa);
      if g == f && b == INT3 {
        PaWhole(trap.pa);
        assert s.mem[r][Off(trap.pa)] == INT3;
        assert s.mem[r][Off(trap.pa) := INT3] == s.mem[r];
      }
    }
  }

  lemma RegisterFirstDouble(s: State, trap: Trap, b: Byte)
    requires MapsOk(s) && DoubleOk(s) && Gfn(trap.pa) in s.tables.remapped
    requires ReadByte(s.mem, trap.pa) == Some(b)
    requires MapsOk(RegisterFirst(s, trap, b))
    ensures DoubleOk(RegisterFirst(s, trap, b))
  {
    var s' := RegisterFirst(s, trap, b);
    RegisterFirstMemory(s, trap, b);
    forall pa | pa in s'.tables.breakpoint
      ensures s'.tables.breakpoint[pa].doubletrap <==> s'.mem[Gfn(pa)][Off(pa)] == INT3
    {
      assert s'.mem[Gfn(pa)] == s.mem[Gfn(pa)];
    }
  }

  lemma RegisterFirstKeepsInv(exact: bool, s: State, trap: Trap, b: Byte)
    requires EngineInv(exact, s) && trap !in s.injected && trap.id < s.nextId
    requires trap.pa !in s.tables.breakpoint && Gfn(trap.pa) in s.tables.remapped
    requires ReadByte(s.mem, trap.pa) == Some(b)
    ensures EngineInv(exact, RegisterFirst(s, trap, b)) && GuestUntouched(s, RegisterFirst(s, trap, b))
  {
    var s' := RegisterFirst(s, trap, b);
    assert IndexAgrees(s'.tables) by {
      AddKeepsIndex(s.tables, trap);
      SetDoubletrapKeepsIndex(AddTrap(s.tables, trap), trap.pa, b == INT3);
    }
    RegisterFirstMaps(s, trap, b);
    if exact {
      RegisterFirstShadow(s, trap, b);
      RegisterFirstDouble(s, trap, b);
    }
    RegisterFirstConserved(s, trap, b);
  }

  lemma RegisterFirstConserved(s: State, trap: Trap, b: Byte)
    requires TrapsConserved(s) && trap !in s.injected && trap.id < s.nextId
    requires Gfn(trap.pa) in s.tables.remapped
    ensures TrapsConserved(RegisterFirst(s, trap, b))
  {
    var s' := RegisterFirst(s, trap, b);
    forall x: Trap
      ensures Count(s'.tables, x) == Count(s.tables, x) + (if x == trap then 1 else 0)
    {
      CountAdd(s.tables, trap, x);
      assert TrapsAt(s'.tables, x.pa) == TrapsAt(AddTrap(s.tables, trap), x.pa);
    }
    ConservedAdd(s, trap, s');
  }

  lemma ArmKeepsInv(exact: bool, s: State, frame: nat)
    requires EngineInv(exact, s)
    ensures EngineInv(exact, Arm(s, frame)) && GuestUntouched(s, Arm(s, frame))
  {
    SameIndex(s.tables, Arm(s, frame).tables);
    assert MapsOk(Arm(s, frame));
    ConservedSame(s, Arm(s, frame));
  }

  lemma ConservedSame(s: State, s': State)
    requires TrapsConserved(s) && s'.tables.breakpoint == s.tables.breakpoint
    requires s'.injected == s.injected && s'.freed == s.freed && s'.nextId >= s.nextId
    ensures TrapsConserved(s')
  {
  }

  function NewShadow(s: State, frame: nat, r: nat): State
    requires frame in s.mem
  {
    s.(mem := s.mem[r := s.mem[frame]], alt := s.alt[frame := r],
       tables := s.tables.(remapped := s.tables.remapped[frame := r]))
  }

  lemma NewShadowMaps(s: State, frame: nat, r: nat)
    requires MapsOk(s) && frame in s.ram && frame !in s.tables.remapped && r !in s.mem
    ensures MapsOk(Arm(NewShadow(s, frame, r), frame))
    ensures GuestUntouched(s, Arm(NewShadow(s, frame, r), frame))
  {
    assert GuestRam(Arm(NewShadow(s, frame, r), frame)) == GuestRam(s);
  }

  lemma NewShadowBytes(s: State, frame: nat, r: nat)
    requires MapsOk(s) && ShadowOk(s) && DoubleOk(s)
    requires frame in s.ram && frame !in s.tables.remapped && r !in s.mem
    requires MapsOk(Arm(NewShadow(s, frame, r), frame))
    ensures ShadowOk(Arm(NewShadow(s, frame, r), frame))
    ensures DoubleOk(Arm(NewShadow(s, frame, r), frame))
  {
    var s' := Arm(NewShadow(s, frame, r), frame);
    ShadowedCopy(s.mem[frame], s.tables.breakpoint.Keys, frame);
    assert forall f | f in s.mem :: s'.mem[f] == s.mem[f];
  }

  lemma NewShadowKeepsInv(exact: bool, s: State, frame: nat, r: nat)
    requires EngineInv(exact, s) && frame in s.ram && frame !in s.tables.remapped && r !in s.mem
    ensures EngineInv(exact, Arm(NewShadow(s, frame, r), frame))
  {
    var s' := Arm(NewShadow(s, frame, r), frame);
    assert IndexAgrees(s'.tables) by {
      SameIndex(s.tables, s'.tables);
    }
    assert TrapsConserved(s') by {
      ConservedSame(s, s');
    }
    NewShadowMaps(s, frame, r);
    if exact {
      NewShadowBytes(s, frame, r);
    }
  }

  lemma ShadowForNew(w: World, s: State, frame: nat)
    requires frame in s.mem && frame !in s.tables.remapped && w.alloc(s.mem.Keys + {frame}) !in {0, frame}
    ensures var r := w.alloc(s.mem.Keys + {frame});
            ShadowFor(w, s, frame) == (NewShadow(s, frame, r), r)
  {
    var r := w.alloc(s.mem.Keys + {frame});
    assert s.mem[r := ZERO_PAGE][r := s.mem[frame]] == s.mem[r := s.mem[frame]];
  }

  /** A new shadow frame starts as a copy, recorded and mapped in the ALT view. */
  lemma ShadowForKeepsInv(exact: bool, w: World, s: State, frame: nat)
    requires EngineInv(exact, s) && AllocSound(w) && frame in s.ram
    requires frame in s.tables.remapped || w.alloc(s.mem.Keys + {frame}) != 0
    ensures var (s1, r) := ShadowFor(w, s, frame);
            && EngineInv(exact, Arm(s1, frame))
            && GuestUntouched(s, Arm(s1, frame))
            && Arm(s1, frame).injected == s.injected && Arm(s1, frame).nextId == s.nextId
            && s1.tables.breakpoint == s.tables.breakpoint
            && frame in s1.tables.remapped && s1.tables.remapped[frame] == r
  {
    if frame in s.tables.remapped {
      ArmKeepsInv(exact, s, frame);
    } else {
      var r := w.alloc(s.mem.Keys + {frame});
      assert r !in s.mem.Keys + {frame};
      assert frame in s.mem by {
        assert MapsOk(s);
      }
      ShadowForNew(w, s, frame);
      NewShadowMaps(s, frame, r);
      NewShadowKeepsInv(exact, s, frame, r);
    }
  }

  /** The one case in which injection goes wrong: a new shadow frame is needed, none can be had, and
      the code goes on with frame number 0 in its place. */
  predicate ShadowMissing(w: World, s: State, trap: Trap) {
    && trap.pa !in s.tables.breakpoint
    && Gfn(trap.pa) in s.mem
    && Gfn(trap.pa) !in s.tables.remapped
    && w.alloc(s.mem.Keys + {Gfn(trap.pa)}) == 0
    && (ReadByte(s.mem, trap.pa) == Some(INT3) || 0 in s.mem)
  }

  lemma InjectMissing(w: World, s: State, trap: Trap)
    requires MapsOk(s) && Gfn(trap.pa) in s.ram && ShadowMissing(w, s, trap)
    ensures !MapsOk(InjectTrap(w, s, trap).0)
  {
    var s' := InjectTrap(w, s, trap).0;
    assert trap.pa in s'.tables.breakpoint && Gfn(trap.pa) !in s'.tables.remapped;
  }

  /** Injection at a new address, once a shadow page is there, writes one byte and registers. */
  lemma InjectFirst(w: World, s: State, trap: Trap)
    requires trap.pa !in s.tables.breakpoint
    requires var (s1, r) := ShadowFor(w, s, Gfn(trap.pa));
             && Gfn(trap.pa) in s1.mem && r in s1.mem
             && Gfn(trap.pa) in s1.tables.remapped && s1.tables.remapped[Gfn(trap.pa)] == r
    ensures var s2 := Arm(ShadowFor(w, s, Gfn(trap.pa)).0, Gfn(trap.pa));
            InjectTrap(w, s, trap).0 == RegisterFirst(s2, trap, s2.mem[Gfn(trap.pa)][Off(trap.pa)])
  {
  }

  /** With frame 0 absent too, the write of INT3 fails and only the access trap stays behind. */
  lemma InjectStopped(w: World, s: State, trap: Trap)
    requires trap.pa !in s.tables.breakpoint && Gfn(trap.pa) !in s.tables.remapped && Gfn(trap.pa) in s.mem
    requires w.alloc(s.mem.Keys + {Gfn(trap.pa)}) == 0 && !ShadowMissing(w, s, trap)
    ensures InjectTrap(w, s, trap).0 == Arm(s, Gfn(trap.pa))
  {
  }

  lemma InjectShadowed(exact: bool, w: World, s: State, trap: Trap)
    requires EngineInv(exact, s) && AllocSound(w) && trap !in s.injected && trap.id < s.nextId
    requires Gfn(trap.pa) in s.ram && trap.pa !in s.tables.breakpoint
    requires Gfn(trap.pa) in s.tables.remapped || w.alloc(s.mem.Keys + {Gfn(trap.pa)}) != 0
    ensures EngineInv(exact, InjectTrap(w, s, trap).0)
    ensures GuestUntouched(s, InjectTrap(w, s, trap).0)
  {
    var frame := Gfn(trap.pa);
    var (s1, r) := ShadowFor(w, s, frame);
    var s2 := Arm(s1, frame);
    ShadowForKeepsInv(exact, w, s, frame);
    assert frame in s2.mem && r in s2.mem by {
      assert MapsOk(s2);
    }
    InjectFirst(w, s, trap);
    RegisterFirstKeepsInv(exact, s2, trap, s2.mem[frame][Off(trap.pa)]);
  }

  lemma InjectInRam(exact: bool, w: World, s: State, trap: Trap)
    requires EngineInv(exact, s) && AllocSound(w) && trap !in s.injected && trap.id < s.nextId
    requires Gfn(trap.pa) in s.ram && !ShadowMissing(w, s, trap)
    ensures EngineInv(exact, InjectTrap(w, s, trap).0)
    ensures GuestUntouched(s, InjectTrap(w, s, trap).0)
  {
    hide IndexAgrees, TrapsConserved, ShadowOk, DoubleOk;
    var frame := Gfn(trap.pa);
    if trap.pa in s.tables.breakpoint {
      RegisterKeepsInv(exact, s, trap);
      assert InjectTrap(w, s, trap).0 == Register(s, trap);
    } else if frame in s.tables.remapped || w.alloc(s.mem.Keys + {frame}) != 0 {
      InjectShadowed(exact, w, s, trap);
    } else {
      assert frame in s.mem by {
        assert MapsOk(s);
      }
      InjectStopped(w, s, trap);
      ArmKeepsInv(exact, s, frame);
    }
  }

  lemma FailedShadowMaps(s: State, s': State, frame: nat, r: nat)
    requires MapsOk(s) && frame !in s.mem && r !in s.mem
    requires s' == s.(mem := s.mem[r := ZERO_PAGE], alt := s.alt[frame := r])
    ensures MapsOk(s') && GuestUntouched(s, s')
    ensures ShadowOk(s) ==> ShadowOk(s')
    ensures DoubleOk(s) ==> DoubleOk(s')
  {
  }

  /** An address outside all memory: the ALT view and the access traps may change, but only for a
      frame the guest does not have. */
  lemma InjectOutside(exact: bool, w: World, s: State, trap: Trap)
    requires EngineInv(exact, s) && AllocSound(w) && Gfn(trap.pa) !in s.mem
    ensures EngineInv(exact, InjectTrap(w, s, trap).0)
    ensures GuestUntouched(s, InjectTrap(w, s, trap).0)
  {
    var frame := Gfn(trap.pa);
    assert trap.pa !in s.tables.breakpoint;
    var r := w.alloc(s.mem.Keys + {frame});
    var s1 := CreateShadowPage(w, s, frame).0;
    if r != 0 {
      assert r !in s.mem.Keys + {frame};
      FailedShadowMaps(s, s1, frame, r);
      ConservedSame(s, s1);
    }
    ArmKeepsInv(exact, s1, frame);
    assert InjectTrap(w, s, trap).0 == Arm(s1, frame);
  }

  /** Injection keeps the invariant exactly when it does not go on without a shadow frame. */
  lemma InjectKeepsInv(exact: bool, w: World, s: State, trap: Trap)
    requires EngineInv(exact, s) && AllocSound(w) && trap !in s.injected && trap.id < s.nextId
    requires Gfn(trap.pa) in s.ram || Gfn(trap.pa) !in s.mem
    ensures EngineInv(exact, InjectTrap(w, s, trap).0) <==> !ShadowMissing(w, s, trap)
    ensures !ShadowMissing(w, s, trap) ==> GuestUntouched(s, InjectTrap(w, s, trap).0)
  {
    if Gfn(trap.pa) !in s.mem {
      InjectOutside(exact, w, s, trap);
    } else if ShadowMissing(w, s, trap) {
      InjectMissing(w, s, trap);
    } else {
      InjectInRam(exact, w, s, trap);
    }
  }
}
