/** The recopy with `pass->traps` filled: when an instruction in ORIGIN leaves the shadow pages right,
    that a pass filled for a written frame makes it so, and the written frame for which it does not. */
module RestoredRecopy {
  import opened Wrappers
  import opened GuestMemory
  import opened TrapManager
  import opened Engine
  import opened EngineInvariants
  import opened Dispatching
  import opened Recopying
  import opened GuestMachine
  import opened Transparency
  import opened EngineLimits

  // ----- one instruction in ORIGIN: exactly when it is safe

  /** The recopy of one frame does not mend another that was changed. */
  lemma OtherFrameSpoiled(s0: State, pass: MemPass, f: nat, page: Page)
    requires EngineInv(true, s0) && PassReady(s0, pass) && pass.traps != []
    requires f in s0.tables.remapped && f != pass.o && !Neutral(s0, f, page)
    ensures var (s', ok) := Recopy(Overwritten(s0, f, page), pass);
            ok && !EngineInv(true, s')
  {
    hide Shadowed, Recopy, IndexAgrees, TrapsConserved, Neutral;
    var s := Overwritten(s0, f, page);
    OverwrittenMaps(s0, f, page);
    RecopyEffect(s, pass);
    var s' := Recopy(s, pass).0;
    if EngineInv(true, s') {
      UntouchedFrame(s, s', pass, f);
      SpoiledParts(s0, s', f, page);
    }
  }

  lemma UntouchedFrame(s: State, s': State, pass: MemPass, f: nat)
    requires MapsOk(s) && pass.o in s.tables.remapped && pass.r == s.tables.remapped[pass.o]
    requires f in s.tables.remapped && f != pass.o
    requires forall t | t in pass.traps :: Gfn(t.pa) == pass.o
    requires Reapplied(s, s', pass.o, pass.r, PasOf(pass.traps), {})
    ensures f in s.mem && s'.mem[f] == s.mem[f] && s'.tables.remapped == s.tables.remapped
    ensures s'.mem[s.tables.remapped[f]] == s.mem[s.tables.remapped[f]]
    ensures s'.tables.breakpoint.Keys == s.tables.breakpoint.Keys
    ensures forall pa | pa in s.tables.breakpoint && Gfn(pa) == f ::
              s'.tables.breakpoint[pa] == s.tables.breakpoint[pa]
  {
  }

  lemma SpoiledParts(s0: State, s': State, f: nat, page: Page)
    requires MapsOk(s0) && ShadowOk(s0) && DoubleOk(s0) && MapsOk(s') && ShadowOk(s') && DoubleOk(s')
    requires f in s0.tables.remapped && s'.tables.remapped == s0.tables.remapped
    requires s'.tables.breakpoint.Keys == s0.tables.breakpoint.Keys && s'.mem[f] == page
    requires s'.mem[s0.tables.remapped[f]] == s0.mem[s0.tables.remapped[f]]
    requires forall pa | pa in s0.tables.breakpoint && Gfn(pa) == f ::
               s'.tables.breakpoint[pa] == s0.tables.breakpoint[pa]
    ensures Neutral(s0, f, page)
  {
    hide Shadowed;
    SameShadow(s0, f, page);
    forall off: nat | off < PAGESIZE && Pa(f, off) in s0.tables.breakpoint
      ensures page[off] == INT3 <==> s0.mem[f][off] == INT3
    {
      PaParts(f, off);
      assert s'.tables.breakpoint[Pa(f, off)].doubletrap == s0.tables.breakpoint[Pa(f, off)].doubletrap;
    }
  }

  /** The recopy after the instruction, in a state that kept the invariant apart from the pass's frame. */
  lemma RecopiedIff(base: State, pass: MemPass, page: Page, v: nat)
    requires EngineInv(true, base) && PassReady(base, pass) && pass.traps != [] && v < |base.vcpus|
    requires base.vcpus[v].singleStep && base.vcpus[v].callback == PostMemCallback(pass)
    ensures EngineInv(true, StepEvent(Overwritten(base, pass.o, page), v)) <==>
            Covers(base, pass.o, page, PasOf(pass.traps))
  {
    hide EngineInv, Recopy, Covers, StepEvent;
    var s := Overwritten(base, pass.o, page);
    RecopyIff(base, pass, page);
    StepEventRecopies(s, v, pass);
    ResumeIff(Recopy(s, pass).0, v);
  }

  lemma RecopyStoreIff(w: World, s: State, v: nat, pass: MemPass)
    requires RunInv(true, w, s) && GuestConfined(w, s.ram) && v < |s.vcpus| && s.vcpus[v].view == Origin
    requires s.vcpus[v].callback == PostMemCallback(pass) && pass.traps != [] && PassReady(s, pass)
    ensures EngineInv(true, OriginExec(w, s, v)) <==> StoreSafe(w, s, v)
  {
    hide EngineInv, FiredOk, PassesConserved, CpuStep, StepEvent, Stored, Recopy, Covers, Neutral;
    var (mem, o) := CpuStep(w, v, s.mem, s.vcpus[v].hist);
    var base, st := Observe(s, v, o), Stored(w, s, v);
    assert VcpuOk(w, s, v);
    ObserveOk(true, w, s, v, o);
    ObserveFirst(s, v, o, mem);
    CpuStepStored(w, s, v);
    RemappedInMemory(true, s, pass.o);
    CoversSame(s, base, pass.o, PageAfter(s, st, pass.o), PasOf(pass.traps));
    assert OriginExec(w, s, v) == StepEvent(base.(mem := mem), v);
    if st.None? {
      assert base.mem[pass.o := base.mem[pass.o]] == base.mem;
      RecopiedIff(base, pass, s.mem[pass.o], v);
    } else if st.value.0 == pass.o {
      RecopiedIff(base, pass, st.value.1, v);
    } else {
      StoredInRam(w, s, v);
      RamInMemory(true, s);
      ElsewhereIff(s, base, v, pass, st.value.0, st.value.1);
    }
  }

  lemma CoversSame(s: State, base: State, o: nat, page: Page, pas: set<nat>)
    requires base.tables == s.tables
    ensures Covers(base, o, page, pas) <==> Covers(s, o, page, pas)
  {
  }

  /** A store to another frame than the pass's. */
  lemma ElsewhereIff(s: State, base: State, v: nat, pass: MemPass, f: nat, page: Page)
    requires EngineInv(true, base) && PassReady(base, pass) && pass.traps != [] && v < |base.vcpus|
    requires base.vcpus[v].singleStep && base.vcpus[v].callback == PostMemCallback(pass)
    requires base.mem == s.mem && base.tables == s.tables && f in base.ram && f in s.mem && f != pass.o
    requires pass.o in s.mem
    ensures EngineInv(true, StepEvent(Overwritten(base, f, page), v)) <==>
            && Covers(s, pass.o, s.mem[pass.o], PasOf(pass.traps))
            && (f in s.tables.remapped ==> Neutral(s, f, page))
  {
    hide EngineInv, StepEvent, Recopy, Covers, Neutral;
    var base2 := Overwritten(base, f, page);
    NeutralVcpus(s, base, f, page);
    if f in s.tables.remapped && !Neutral(s, f, page) {
      OtherFrameSpoiled(base, pass, f, page);
      StepEventRecopies(base2, v, pass);
      ResumeIff(Recopy(base2, pass).0, v);
    } else {
      if f in s.tables.remapped {
        OverwriteIff(base, f, page);
      } else {
        OverwriteFree(true, base, f, page);
      }
      assert base2.mem[pass.o := base2.mem[pass.o]] == base2.mem;
      RecopiedIff(base2, pass, s.mem[pass.o], v);
      CoversSame(s, base2, pass.o, s.mem[pass.o], PasOf(pass.traps));
    }
  }

  /** Unless its pass holds a trap that has left the tables, an instruction in ORIGIN leaves the shadow
      pages right exactly when it is `StoreSafe`: the condition of the transparency theorem on stores cannot
      be weakened, with the recopy as without it. */
  lemma StoreSafeIff(w: World, s: State, v: nat)
    requires RunInv(true, w, s) && GuestConfined(w, s.ram)
    requires v < |s.vcpus| && s.vcpus[v].view == Origin && !StalePass(s, v)
    ensures EngineInv(true, OriginExec(w, s, v)) <==> StoreSafe(w, s, v)
  {
    hide EngineInv, FiredOk, PassesConserved, OriginExec, StoreSafe;
    var cb := s.vcpus[v].callback;
    assert VcpuOk(w, s, v);
    if cb.PostMemCallback? && cb.pass.traps != [] {
      RecopyStoreIff(w, s, v, cb.pass);
    } else {
      PlainStoreIff(w, s, v);
    }
  }

  // ----- what a filled pass covers

  /** The frame's list holds a trap for every breakpoint in the frame. */
  lemma FrameCovered(exact: bool, s: State, gfn: nat)
    requires EngineInv(exact, s)
    ensures forall pa | pa in s.tables.breakpoint && Gfn(pa) == gfn :: pa in PasOf(TrapsIn(s.tables, gfn))
  {
    hide MapsOk, ShadowOk, DoubleOk, TrapsConserved;
    forall pa | pa in s.tables.breakpoint && Gfn(pa) == gfn
      ensures pa in PasOf(TrapsIn(s.tables, gfn))
    {
      assert AtPa(TrapsIn(s.tables, Gfn(pa)), pa) == TrapsAt(s.tables, pa);
      var t := TrapsAt(s.tables, pa)[0];
      assert t in TrapsAt(s.tables, pa);
      FromAtPa(TrapsIn(s.tables, gfn), pa, t);
    }
  }

  lemma {:induction false} FromAtPa(traps: seq<Trap>, pa: nat, t: Trap)
    requires t in AtPa(traps, pa)
    ensures t in traps && t.pa == pa
  {
    if traps != [] && !(traps[0].pa == pa && traps[0] == t) {
      FromAtPa(traps[1..], pa, t);
    }
  }

  /** The instruction stores to no remapped frame but the one its pass was filled for, except
      neutrally. */
  ghost predicate StoresInPass(w: World, s: State, v: nat)
    requires v < |s.vcpus|
  {
    var st, cb := Stored(w, s, v), s.vcpus[v].callback;
    st.Some? && st.value.0 in s.tables.remapped ==>
      || (cb.PostMemCallback? && cb.pass.traps != [] && cb.pass.o == st.value.0)
      || (st.value.0 in s.mem && Neutral(s, st.value.0, st.value.1))
  }

  /** No trap of the written frame came or went since the event: the pass still holds the frame's list. */
  ghost predicate PassCurrent(s: State, v: nat)
    requires v < |s.vcpus|
  {
    var cb := s.vcpus[v].callback;
    cb.PostMemCallback? && cb.pass.traps != [] ==> cb.pass.traps == TrapsIn(s.tables, cb.pass.o)
  }

  /** A pass that still holds its frame's list makes any store to the frame safe. */
  lemma CurrentIsSafe(w: World, s: State, v: nat)
    requires RunInv(true, w, s) && v < |s.vcpus| && PassCurrent(s, v) && StoresInPass(w, s, v)
    ensures StoreSafe(w, s, v)
  {
    hide FiredOk, PassesConserved, Stored, Neutral, ShadowOk, DoubleOk, TrapsConserved, IndexAgrees, PasOf;
    var cb := s.vcpus[v].callback;
    assert VcpuOk(w, s, v);
    if cb.PostMemCallback? && cb.pass.traps != [] {
      var f := cb.pass.o;
      CapturedTraps(true, s, f);
      FrameCovered(true, s, f);
      RemappedInMemory(true, s, f);
      forall off: nat | off < PAGESIZE && Pa(f, off) in s.tables.breakpoint
        ensures Pa(f, off) in PasOf(cb.pass.traps)
      {
        PaParts(f, off);
      }
    }
  }

  /** The pass handed out for a write event on a frame with traps holds the frame's list, so the
      instruction is safe if it stores nowhere else. */
  lemma FilledPassIsSafe(w: World, s: State, v: nat)
    requires RunInv(true, w, s) && w.fillTraps && v < |s.vcpus| && s.vcpus[v].pending.MemEvent?
    requires s.vcpus[v].pending.write && TrapsIn(s.tables, s.vcpus[v].pending.gfn) != []
    ensures var s' := HandleEvent(w, s, v);
            && v < |s'.vcpus| && PassCurrent(s', v)
            && (StoresInPass(w, s', v) ==> StoreSafe(w, s', v))
            && ((Stored(w, s', v).Some? ==> Stored(w, s', v).value.0 == s.vcpus[v].pending.gfn) ==>
                StoreSafe(w, s', v))
  {
    hide RunInv, StoreSafe, StoresInPass, Stored;
    FilledPass(w, s, v);
    HandleMemOk(true, w, s, v);
    var s' := HandleEvent(w, s, v);
    if StoresInPass(w, s', v) {
      CurrentIsSafe(w, s', v);
    }
  }

  lemma FilledPass(w: World, s: State, v: nat)
    requires RunInv(true, w, s) && w.fillTraps && v < |s.vcpus| && s.vcpus[v].pending.MemEvent?
    requires s.vcpus[v].pending.write && TrapsIn(s.tables, s.vcpus[v].pending.gfn) != []
    ensures var s', gfn := HandleEvent(w, s, v), s.vcpus[v].pending.gfn;
            && v < |s'.vcpus| && s'.tables == s.tables && s'.vcpus[v].callback.PostMemCallback?
            && s'.vcpus[v].callback.pass.o == gfn && s'.vcpus[v].callback.pass.traps == TrapsIn(s.tables, gfn)
            && ((Stored(w, s', v).Some? ==> Stored(w, s', v).value.0 == gfn) ==> StoresInPass(w, s', v))
  {
    hide EngineInv, FiredOk, PassesConserved, Stored;
    assert VcpuOk(w, s, v);
  }

  // ----- the frame whose traps are gone

  /** A one-shot trap alone in its frame leaves the shadow page and the access trap behind. */
  lemma LastTrapLeaves(exact: bool, s: State, t: Trap)
    requires EngineInv(exact, s) && TrapsIn(s.tables, Gfn(t.pa)) == [t] && Count(s.tables, t) == 1
    ensures var s', gfn := DestroyTrap(s, t), Gfn(t.pa);
            TrapsIn(s'.tables, gfn) == [] && gfn in s'.tables.remapped && gfn in s'.armed && gfn in s'.tables.memaccess
  {
    hide ShadowOk, DoubleOk, TrapsConserved, DestroyTrap, DropTrap, Count, AtPa, GfnTableOk;
    DestroyTables(s, t);
    DestroyArmed(s, t);
    DropCounts(s.tables, t);
    DropOnly(s.tables, t);
  }

  lemma DestroyArmed(s: State, t: Trap)
    ensures DestroyTrap(s, t).armed == s.armed
  {
  }

  lemma DropOnly(t: Tables, trap: Trap)
    requires trap.pa in t.breakpoint && TrapsIn(t, Gfn(trap.pa)) == [trap]
    ensures TrapsIn(DropTrap(t, trap), Gfn(trap.pa)) == []
    ensures DropTrap(t, trap).remapped == t.remapped && DropTrap(t, trap).memaccess == t.memaccess
  {
  }

  /** A write there raises an event that hands out an empty pass: nothing is copied again, and the shadow
      page stays right exactly when the write changes nothing. The restored recopy has no answer to this. */
  lemma AbandonedFrame(w: World, s: State, v: nat)
    requires RunInv(true, w, s) && GuestConfined(w, s.ram) && v < |s.vcpus| && s.vcpus[v].pending.MemEvent?
    requires s.vcpus[v].pending.gfn in s.tables.remapped && TrapsIn(s.tables, s.vcpus[v].pending.gfn) == []
    ensures var s', gfn := HandleEvent(w, s, v), s.vcpus[v].pending.gfn;
            && v < |s'.vcpus| && s'.vcpus[v].view == Origin && gfn in s.mem
            && s'.vcpus[v].callback.PostMemCallback? && s'.vcpus[v].callback.pass.traps == []
            && (EngineInv(true, OriginExec(w, s', v)) <==> StoreSafe(w, s', v))
            && (Stored(w, s', v).Some? && Stored(w, s', v).value.0 == gfn ==>
                (EngineInv(true, OriginExec(w, s', v)) <==> Stored(w, s', v).value.1 == s.mem[gfn]))
  {
    hide RunInv, GuestConfined, EngineInv, Stored, Neutral, OriginExec;
    EmptyPass(w, s, v);
    HandleMemOk(true, w, s, v);
    PlainStoreIff(w, HandleEvent(w, s, v), v);
    var s' := HandleEvent(w, s, v);
    RunHasEngine(w, s');
    if Stored(w, s', v).Some? && Stored(w, s', v).value.0 == s.vcpus[v].pending.gfn {
      NoTrapsNeutral(s', s.vcpus[v].pending.gfn, Stored(w, s', v).value.1);
    }
  }

  lemma RunHasEngine(w: World, s: State)
    requires RunInv(true, w, s)
    ensures EngineInv(true, s)
  {
  }

  lemma EmptyPass(w: World, s: State, v: nat)
    requires RunInv(true, w, s) && v < |s.vcpus| && s.vcpus[v].pending.MemEvent?
    requires s.vcpus[v].pending.gfn in s.tables.remapped && TrapsIn(s.tables, s.vcpus[v].pending.gfn) == []
    ensures var s', gfn := HandleEvent(w, s, v), s.vcpus[v].pending.gfn;
            && v < |s'.vcpus| && s'.tables == s.tables && s'.mem == s.mem && s'.ram == s.ram && gfn in s.mem
            && s'.vcpus[v].callback.PostMemCallback? && s'.vcpus[v].callback.pass.traps == []
            && EngineInv(true, s)
  {
    hide FiredOk, PassesConserved, ShadowOk, DoubleOk, TrapsConserved, IndexAgrees;
    assert VcpuOk(w, s, v);
  }

  lemma NoTrapsNeutral(s: State, gfn: nat, page: Page)
    requires EngineInv(true, s) && gfn in s.mem && TrapsIn(s.tables, gfn) == []
    ensures Neutral(s, gfn, page) <==> page == s.mem[gfn]
  {
    hide EngineInv;
    FrameCovered(true, s, gfn);
    forall off: nat | off < PAGESIZE
      ensures Pa(gfn, off) !in s.tables.breakpoint
    {
      PaParts(gfn, off);
    }
  }

  // ----- whole runs

  /** In every vCPU the pass pending still holds its frame's list. */
  ghost predicate PassesCurrent(s: State) {
    forall v: nat | v < |s.vcpus| :: PassCurrent(s, v)
  }

  /** No trap comes or goes in a frame while a pass for it is pending. */
  ghost predicate FramesKept(s: State, s': State) {
    forall v: nat | v < |s.vcpus| && s.vcpus[v].callback.PostMemCallback? && s.vcpus[v].callback.pass.traps != [] ::
      TrapsIn(s'.tables, s.vcpus[v].callback.pass.o) == TrapsIn(s.tables, s.vcpus[v].callback.pass.o)
  }

  /** What a step may do to a vCPU's pass: leave it, free it, or hand out one that holds a frame's list. */
  ghost predicate PassAfter(s: State, s': State, u: nat)
    requires u < |s.vcpus| == |s'.vcpus|
  {
    var c, c' := s.vcpus[u].callback, s'.vcpus[u].callback;
    || c' == c
    || c' == SinglestepCallback
    || (c'.PostMemCallback? && s'.tables == s.tables &&
        (c'.pass.traps == [] || c'.pass.traps == TrapsIn(s.tables, c'.pass.o)))
  }

  lemma AltKeepsPass(w: World, s: State, v: nat)
    requires v < |s.vcpus|
    ensures var s' := AltExec(w, s, v);
            |s'.vcpus| == |s.vcpus| && forall u: nat | u < |s.vcpus| :: s'.vcpus[u].callback == s.vcpus[u].callback
  {
    hide AltBytes, WriteByte, Through, AltByte, Raise, Observe;
    var hist := s.vcpus[v].hist;
    var pas := w.fetch(v, hist);
    var bytes := AltBytes(s, pas);
    if bytes != [] && bytes[0] == INT3 {
      RaiseKeepsPass(s, v, Int3Event(pas[0]));
    } else {
      match w.access(v, hist, bytes) {
        case NoAccess => ObserveKeepsPass(s, s.mem, v, Executed(bytes, None));
        case Load(pa) =>
          RaiseKeepsPass(s, v, MemEvent(Gfn(pa), false));
          ObserveKeepsPass(s, s.mem, v, Executed(bytes, Some(AltByte(s, pa))));
        case Store(pa, b) =>
          RaiseKeepsPass(s, v, MemEvent(Gfn(pa), true));
          ObserveKeepsPass(s, WriteByte(s.mem, Through(s.alt, pa), b), v, Executed(bytes, None));
      }
    }
  }

  lemma RaiseKeepsPass(s: State, v: nat, e: Event)
    requires v < |s.vcpus|
    ensures |Raise(s, v, e).vcpus| == |s.vcpus|
    ensures forall u: nat | u < |s.vcpus| :: Raise(s, v, e).vcpus[u].callback == s.vcpus[u].callback
  {
  }

  lemma ObserveKeepsPass(s: State, mem: Memory, v: nat, o: Observation)
    requires v < |s.vcpus|
    ensures var s' := Observe(s.(mem := mem), v, o);
            |s'.vcpus| == |s.vcpus| && forall u: nat | u < |s.vcpus| :: s'.vcpus[u].callback == s.vcpus[u].callback
    ensures s.(mem := s.mem) == s
  {
  }

  lemma StepEventPass(s: State, v: nat)
    requires v < |s.vcpus|
    ensures var s' := StepEvent(s, v);
            |s'.vcpus| == |s.vcpus| && forall u: nat | u < |s.vcpus| ::
              s'.vcpus[u].callback == s.vcpus[u].callback || s'.vcpus[u].callback == SinglestepCallback
  {
    hide Recopy;
  }

  lemma OriginKeepsPass(w: World, s: State, v: nat)
    requires v < |s.vcpus|
    ensures var s' := OriginExec(w, s, v);
            |s'.vcpus| == |s.vcpus| && forall u: nat | u < |s.vcpus| ::
              s'.vcpus[u].callback == s.vcpus[u].callback || s'.vcpus[u].callback == SinglestepCallback
  {
    hide CpuStep, StepEvent;
    var (mem, o) := CpuStep(w, v, s.mem, s.vcpus[v].hist);
    var s1 := Observe(s.(mem := mem), v, o);
    StepEventPass(s1, v);
  }

  lemma HandleKeepsPass(w: World, s: State, v: nat)
    requires v < |s.vcpus|
    ensures var s' := HandleEvent(w, s, v);
            |s'.vcpus| == |s.vcpus| && forall u: nat | u < |s.vcpus| :: PassAfter(s, s', u)
  {
    hide Dispatch;
  }

  lemma StepKeepsPass(w: World, s: State, l: Label)
    ensures var s' := Next(w, s, l);
            |s'.vcpus| == |s.vcpus| && forall u: nat | u < |s.vcpus| :: PassAfter(s, s', u)
  {
    hide AltExec, OriginExec, HandleEvent, InjectTrap;
    match l {
      case Exec(v) =>
        if v < |s.vcpus| {
          AltKeepsPass(w, s, v);
          OriginKeepsPass(w, s, v);
        }
      case Handle(v) =>
        if v < |s.vcpus| {
          HandleKeepsPass(w, s, v);
        }
      case Syscall(pa, hasRet) =>
    }
  }

  lemma StaysCurrent(w: World, s: State, l: Label)
    requires PassesCurrent(s) && FramesKept(s, Next(w, s, l))
    ensures PassesCurrent(Next(w, s, l))
  {
    hide Next;
    StepKeepsPass(w, s, l);
    var s' := Next(w, s, l);
    forall u: nat | u < |s'.vcpus|
      ensures PassCurrent(s', u)
    {
      assert PassCurrent(s, u) && PassAfter(s, s', u);
    }
  }

  /** What a run may do, told by the instructions and the frames' traps: nothing is fetched through a
      breakpoint, an instruction in ORIGIN stores to no remapped frame but its pass's except neutrally, and no
      trap comes or goes in a frame between its write event and the step behind it. */
  ghost predicate Undisturbed(w: World, s: State, l: Label) {
    && FramesKept(s, Next(w, s, l))
    && match l
       case Exec(v) =>
         && v < |s.vcpus| && s.vcpus[v].pending == NoEvent
         && (s.vcpus[v].view == Alt ==> FetchSafe(s, w.fetch(v, s.vcpus[v].hist)))
         && (s.vcpus[v].view == Origin ==> StoresInPass(w, s, v))
       case Handle(v) => v < |s.vcpus| && s.vcpus[v].pending != NoEvent
       case Syscall(pa, _) => Gfn(pa) in s.ram || Gfn(pa) !in s.mem
  }

  ghost predicate AllUndisturbed(w: World, s: State, ls: seq<Label>)
    decreases |ls|
  {
    ls != [] ==> Undisturbed(w, s, ls[0]) && AllUndisturbed(w, Next(w, s, ls[0]), ls[1..])
  }

  lemma UndisturbedEnabled(w: World, s: State, l: Label)
    requires RunInv(true, w, s) && PassesCurrent(s) && Undisturbed(w, s, l)
    ensures Enabled(w, s, l)
  {
    hide RunInv, Next, FetchSafe, StoresInPass, StoreSafe, PassCurrent, FramesKept;
    if l.Exec? && s.vcpus[l.v].view == Origin {
      CurrentIsSafe(w, s, l.v);
    }
  }

  lemma {:induction false} UndisturbedRuns(w: World, s: State, ls: seq<Label>)
    requires RunInv(true, w, s) && GuestConfined(w, s.ram) && EnvironmentOk(w, s.ram)
    requires PassesCurrent(s) && AllUndisturbed(w, s, ls)
    ensures AllEnabled(w, s, ls)
    decreases |ls|
  {
    if ls != [] {
      hide RunInv, GuestConfined, EnvironmentOk, Next, Enabled, PassesCurrent, FramesKept;
      UndisturbedEnabled(w, s, ls[0]);
      EnabledIsSensible(w, s, ls[0]);
      StepSimulates(true, w, s, ls[0]);
      StaysCurrent(w, s, ls[0]);
      UndisturbedRuns(w, Next(w, s, ls[0]), ls[1..]);
    }
  }

  /** Transparency with the recopy restored, from the first instruction: the guest may write anything to
      frames that hold traps when the write event is handled. */
  lemma RestoredIsTransparent(w: World, mem: Memory, n: nat, ls: seq<Label>)
    requires GuestConfined(w, mem.Keys) && EnvironmentOk(w, mem.Keys) && AllUndisturbed(w, Initial(mem, n), ls)
    ensures GuestView(Run(w, Initial(mem, n), ls)) ==
            NativeRun(w, Native(mem, seq(n, _ => [])), NativeSchedule(w, Initial(mem, n), ls))
  {
    InitialOk(true, w, mem, n);
    UndisturbedRuns(w, Initial(mem, n), ls);
    TransparentFromStart(w, mem, n, ls);
  }
}
