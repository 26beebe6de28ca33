/** The guest sees what it would have seen unmonitored: every monitored run is, for the guest, a run
    on its original memory. */
module Transparency {
  import opened Wrappers
  import opened GuestMemory
  import opened TrapManager
  import opened Engine
  import opened EngineInvariants
  import opened Dispatching
  import opened Recopying
  import opened GuestMachine

  // ----- the view automaton

  /** Being in ORIGIN and single-stepping are the same thing; a pass is pending only there; events are
      raised only in ALT, an int3 event by the instruction the vCPU is about to execute. */
  ghost predicate VcpuOk(w: World, s: State, v: nat)
    requires v < |s.vcpus|
  {
    var c := s.vcpus[v];
    && (c.view == Origin <==> c.singleStep)
    && (c.pending != NoEvent ==> c.view == Alt)
    && (c.callback.PostMemCallback? ==> c.view == Origin)
    && (c.callback.PostMemCallback? && !w.fillTraps ==> c.callback.pass.traps == [])
    && (c.callback.PostMemCallback? && c.callback.pass.traps != [] ==> PassKept(s, c.callback.pass))
    && (c.pending.Int3Event? ==> w.fetch(v, c.hist) != [] && c.pending.pa == w.fetch(v, c.hist)[0])
    && (c.pending.MemEvent? ==> c.pending.gfn in s.tables.memaccess)
  }

  /** What stays true of a pass while it is pending, whatever happens to its traps meanwhile. */
  ghost predicate PassKept(s: State, pass: MemPass) {
    && pass.o in s.tables.remapped && pass.r == s.tables.remapped[pass.o]
    && forall t | t in pass.traps :: Gfn(t.pa) == pass.o
  }

  ghost predicate VcpusOk(w: World, s: State) {
    forall v: nat | v < |s.vcpus| :: VcpuOk(w, s, v)
  }

  /** The passes handed out so far, and those pending in some vCPU. */
  function Issued(n: nat): multiset<nat> {
    if n == 0 then multiset{} else Issued(n - 1) + multiset{n - 1}
  }

  function PassOf(c: Vcpu): multiset<nat> {
    if c.callback.PostMemCallback? then multiset{c.callback.pass.id} else multiset{}
  }

  function Outstanding(cs: seq<Vcpu>): multiset<nat> {
    if cs == [] then multiset{} else PassOf(cs[0]) + Outstanding(cs[1..])
  }

  /** Every pass allocated is either pending in one vCPU or was freed, once. */
  ghost predicate PassesConserved(s: State) {
    Outstanding(s.vcpus) + s.freedPasses == Issued(s.nextPass)
  }

  ghost predicate RunInv(exact: bool, w: World, s: State) {
    && EngineInv(exact, s)
    && FiredOk(s)
    && VcpusOk(w, s)
    && PassesConserved(s)
  }

  lemma {:induction false} OutstandingAt(cs: seq<Vcpu>, v: nat, c: Vcpu, x: nat)
    requires v < |cs|
    ensures Outstanding(cs[v := c])[x] + PassOf(cs[v])[x] == Outstanding(cs)[x] + PassOf(c)[x]
  {
    if v == 0 {
      assert cs[0 := c][1..] == cs[1..];
    } else {
      OutstandingAt(cs[1..], v - 1, c, x);
      assert cs[v := c][1..] == cs[1..][v - 1 := c];
    }
  }

  lemma OutstandingUpdate(cs: seq<Vcpu>, v: nat, c: Vcpu)
    requires v < |cs|
    ensures Outstanding(cs[v := c]) + PassOf(cs[v]) == Outstanding(cs) + PassOf(c)
  {
    forall x: nat
      ensures (Outstanding(cs[v := c]) + PassOf(cs[v]))[x] == (Outstanding(cs) + PassOf(c))[x]
    {
      OutstandingAt(cs, v, c, x);
    }
  }

  lemma Cancel(a: multiset<nat>, b: multiset<nat>, p: multiset<nat>)
    requires a + p == b + p
    ensures a == b
  {
    forall x: nat
      ensures a[x] == b[x]
    {
      assert (a + p)[x] == (b + p)[x];
    }
  }

  // ----- what the ALT view shows

  /** An instruction byte fetched through the ALT view is INT3 under a breakpoint and the original
      byte elsewhere. */
  lemma AltByteIs(s: State, pa: nat)
    requires MapsOk(s) && ShadowOk(s) && Gfn(pa) in s.ram
    ensures AltByte(s, pa) == if pa in s.tables.breakpoint then INT3 else ByteAt(s.mem, pa)
  {
  }

  /** The bytes fetched through ALT are the original bytes exactly when no breakpoint hides one. */
  lemma AltBytesIff(s: State, pas: seq<nat>)
    requires MapsOk(s) && ShadowOk(s) && forall pa | pa in pas :: Gfn(pa) in s.ram
    ensures AltBytes(s, pas) == BytesAt(s.mem, pas) <==>
            forall k | 0 <= k < |pas| :: pas[k] in s.tables.breakpoint ==> ByteAt(s.mem, pas[k]) == INT3
  {
    forall k | 0 <= k < |pas|
      ensures AltBytes(s, pas)[k] == BytesAt(s.mem, pas)[k] <==>
              (pas[k] in s.tables.breakpoint ==> ByteAt(s.mem, pas[k]) == INT3)
    {
      assert pas[k] in pas;
      AltByteIs(s, pas[k]);
    }
  }

  /** An instruction that raises no event from ALT, and has no breakpoint in its middle, is fetched as
      the original instruction. */
  lemma AltFetch(s: State, pas: seq<nat>)
    requires MapsOk(s) && ShadowOk(s) && forall pa | pa in pas :: Gfn(pa) in s.ram
    requires FetchSafe(s, pas) && AltByte(s, pas[0]) != INT3
    ensures AltBytes(s, pas) == BytesAt(s.mem, pas)
  {
    assert pas[0] in pas;
    AltByteIs(s, pas[0]);
    AltBytesIff(s, pas);
  }

  // ----- guest memory under the native step

  lemma RamByte(s: State, pa: nat)
    requires s.ram <= s.mem.Keys && Gfn(pa) in s.ram
    ensures ByteAt(GuestRam(s), pa) == ByteAt(s.mem, pa)
  {
  }

  lemma RamBytes(s: State, pas: seq<nat>)
    requires s.ram <= s.mem.Keys && forall pa | pa in pas :: Gfn(pa) in s.ram
    ensures BytesAt(GuestRam(s), pas) == BytesAt(s.mem, pas)
  {
  }

  lemma RamWrite(s: State, pa: nat, b: Byte)
    requires s.ram <= s.mem.Keys && Gfn(pa) in s.ram
    ensures GuestRam(s.(mem := WriteByte(s.mem, pa, b))) == WriteByte(GuestRam(s), pa, b)
    ensures s.(mem := WriteByte(s.mem, pa, b)) == Overwritten(s, Gfn(pa), s.mem[Gfn(pa)][Off(pa) := b])
  {
  }

  /** The native step on all of memory and on the guest's part of it are the same step. */
  lemma CpuStepLocal(w: World, s: State, v: nat, hist: History)
    requires s.ram <= s.mem.Keys && GuestConfined(w, s.ram)
    ensures var (mem, o) := CpuStep(w, v, s.mem, hist);
            CpuStep(w, v, GuestRam(s), hist) == (GuestRam(s.(mem := mem)), o)
  {
    var pas := w.fetch(v, hist);
    RamBytes(s, pas);
    var bytes := BytesAt(s.mem, pas);
    match w.access(v, hist, bytes) {
      case NoAccess =>
      case Load(pa) => RamByte(s, pa);
      case Store(pa, b) => RamWrite(s, pa, b);
    }
  }

  // ----- changing one vCPU

  lemma VcpusOnly(exact: bool, s: State, cs: seq<Vcpu>)
    ensures EngineInv(exact, s) ==> EngineInv(exact, s.(vcpus := cs))
    ensures FiredOk(s) ==> FiredOk(s.(vcpus := cs))
    ensures GuestRam(s.(vcpus := cs)) == GuestRam(s)
  {
  }

  /** Replacing one vCPU by one with the same pending pass. */
  lemma SetVcpuInv(exact: bool, w: World, s: State, v: nat, c: Vcpu)
    requires RunInv(exact, w, s) && v < |s.vcpus|
    requires PassOf(c) == PassOf(s.vcpus[v]) && VcpuOk(w, SetVcpu(s, v, c), v)
    ensures RunInv(exact, w, SetVcpu(s, v, c))
  {
    hide EngineInv, FiredOk, GuestRam;
    VcpusOnly(exact, s, s.vcpus[v := c]);
    OutstandingUpdate(s.vcpus, v, c);
    Cancel(Outstanding(s.vcpus[v := c]), Outstanding(s.vcpus), PassOf(c));
    var s' := SetVcpu(s, v, c);
    forall u: nat | u < |s'.vcpus|
      ensures VcpuOk(w, s', u)
    {
      assert VcpuOk(w, s, u);
    }
  }

  lemma ViewObserve(s: State, v: nat, o: Observation)
    requires v < |s.vcpus|
    ensures GuestView(Observe(s, v, o)) ==
            Native(GuestRam(s), GuestView(s).hists[v := GuestView(s).hists[v] + [o]])
  {
  }

  lemma ViewSame(s: State, v: nat, c: Vcpu)
    requires v < |s.vcpus| && c.hist == s.vcpus[v].hist
    ensures GuestView(SetVcpu(s, v, c)) == GuestView(s)
  {
  }

  lemma RunOne(w: World, n: Native, v: nat)
    ensures NativeRun(w, n, [v]) == NativeStep(w, n, v)
    ensures NativeRun(w, n, []) == n
  {
  }

  /** A native step of the guest's view of a state, in terms of the state. */
  lemma ViewStep(w: World, s: State, v: nat)
    requires s.ram <= s.mem.Keys && GuestConfined(w, s.ram) && v < |s.vcpus|
    ensures var (mem, o) := CpuStep(w, v, s.mem, s.vcpus[v].hist);
            NativeStep(w, GuestView(s), v) == GuestView(Observe(s.(mem := mem), v, o))
  {
    hide GuestRam, CpuStep;
    var (mem, o) := CpuStep(w, v, s.mem, s.vcpus[v].hist);
    CpuStepLocal(w, s, v, s.vcpus[v].hist);
    ViewObserve(s.(mem := mem), v, o);
  }

  // ----- an instruction in the ALT view

  lemma RaiseOk(exact: bool, w: World, s: State, v: nat, e: Event)
    requires RunInv(exact, w, s) && v < |s.vcpus| && s.vcpus[v].view == Alt
    requires e.Int3Event? ==> w.fetch(v, s.vcpus[v].hist) != [] && e.pa == w.fetch(v, s.vcpus[v].hist)[0]
    requires e.MemEvent? ==> e.gfn in s.tables.memaccess
    ensures RunInv(exact, w, Raise(s, v, e)) && GuestView(Raise(s, v, e)) == GuestView(s)
  {
    hide EngineInv, FiredOk, GuestRam, GuestView, PassesConserved;
    var c := s.vcpus[v].(pending := e);
    assert VcpuOk(w, s, v);
    SetVcpuInv(exact, w, s, v, c);
    ViewSame(s, v, c);
  }

  lemma ObserveOk(exact: bool, w: World, s: State, v: nat, o: Observation)
    requires RunInv(exact, w, s) && v < |s.vcpus| && s.vcpus[v].pending == NoEvent
    ensures RunInv(exact, w, Observe(s, v, o))
  {
    hide EngineInv, FiredOk, PassesConserved;
    assert VcpuOk(w, s, v);
    SetVcpuInv(exact, w, s, v, s.vcpus[v].(hist := s.vcpus[v].hist + [o]));
  }

  /** An instruction that raises no event reads and writes memory as the native one does. */
  lemma ExecutesDirectly(w: World, s: State, v: nat) returns (s1: State, o: Observation)
    requires MapsOk(s) && GuestConfined(w, s.ram) && v < |s.vcpus| && Executes(w, s, v)
    ensures s1.vcpus == s.vcpus && AltExec(w, s, v) == Observe(s1, v, o)
    ensures s1 == s || exists f, page :: f in s.ram && f !in s.tables.remapped && s1 == Overwritten(s, f, page)
    ensures AltBytes(s, w.fetch(v, s.vcpus[v].hist)) == BytesAt(s.mem, w.fetch(v, s.vcpus[v].hist)) ==>
              (s1.mem, o) == CpuStep(w, v, s.mem, s.vcpus[v].hist) && s1 == s.(mem := s1.mem)
  {
    var hist := s.vcpus[v].hist;
    var bytes := AltBytes(s, w.fetch(v, hist));
    s1 := s;
    match w.access(v, hist, bytes) {
      case NoAccess => o := Executed(bytes, None);
      case Load(pa) => o := Executed(bytes, Some(AltByte(s, pa)));
      case Store(pa, b) =>
        o := Executed(bytes, None);
        s1 := s.(mem := WriteByte(s.mem, pa, b));
        RamWrite(s, pa, b);
    }
  }

  lemma OverwriteRun(exact: bool, w: World, s: State, f: nat, page: Page)
    requires RunInv(exact, w, s) && EngineInv(exact, Overwritten(s, f, page))
    ensures RunInv(exact, w, Overwritten(s, f, page))
  {
    hide EngineInv;
    var s' := Overwritten(s, f, page);
    forall u: nat | u < |s'.vcpus|
      ensures VcpuOk(w, s', u)
    {
      assert VcpuOk(w, s, u);
    }
  }

  lemma AltExecOk(exact: bool, w: World, s: State, v: nat)
    requires RunInv(exact, w, s) && GuestConfined(w, s.ram) && v < |s.vcpus|
    requires s.vcpus[v].view == Alt && s.vcpus[v].pending == NoEvent
    requires exact ==> FetchSafe(s, w.fetch(v, s.vcpus[v].hist))
    ensures RunInv(exact, w, AltExec(w, s, v))
    ensures exact ==>
              GuestView(AltExec(w, s, v)) == NativeRun(w, GuestView(s), if Executes(w, s, v) then [v] else [])
  {
    hide IndexAgrees, DoubleOk, TrapsConserved, ShadowOk, GuestRam, GuestView, FiredOk, PassesConserved, AltExec;
    RunOne(w, GuestView(s), v);
    if Executes(w, s, v) {
      var s1, o := ExecutesDirectly(w, s, v);
      if s1 != s {
        var f, page :| f in s.ram && f !in s.tables.remapped && s1 == Overwritten(s, f, page);
        OverwriteFree(exact, s, f, page);
        OverwriteRun(exact, w, s, f, page);
      }
      ObserveOk(exact, w, s1, v, o);
      if exact {
        AltFetch(s, w.fetch(v, s.vcpus[v].hist));
        ViewStep(w, s, v);
      }
    } else {
      RaisesOk(exact, w, s, v);
    }
  }

  lemma RaisesOk(exact: bool, w: World, s: State, v: nat)
    requires RunInv(exact, w, s) && v < |s.vcpus| && s.vcpus[v].view == Alt && !Executes(w, s, v)
    ensures RunInv(exact, w, AltExec(w, s, v)) && GuestView(AltExec(w, s, v)) == GuestView(s)
  {
    hide IndexAgrees, DoubleOk, TrapsConserved, ShadowOk, GuestRam, GuestView, FiredOk, PassesConserved;
    var hist := s.vcpus[v].hist;
    var pas := w.fetch(v, hist);
    var bytes := AltBytes(s, pas);
    if bytes != [] && bytes[0] == INT3 {
      RaiseOk(exact, w, s, v, Int3Event(pas[0]));
    } else {
      match w.access(v, hist, bytes) {
        case NoAccess =>
        case Load(pa) => RaiseOk(exact, w, s, v, MemEvent(Gfn(pa), false));
        case Store(pa, b) => RaiseOk(exact, w, s, v, MemEvent(Gfn(pa), true));
      }
    }
  }

  // ----- an instruction in the ORIGIN view

  /** The vCPU goes back to ALT, no longer stepping, and its pass, if any, is freed. */
  function Resume(s: State, v: nat): State
    requires v < |s.vcpus|
  {
    var c := s.vcpus[v];
    SetVcpu(s, v, c.(callback := SinglestepCallback, view := Alt, singleStep := false, pending := NoEvent))
      .(freedPasses := s.freedPasses + PassOf(c))
  }

  lemma Regain(a: multiset<nat>, p: multiset<nat>, f: multiset<nat>)
    ensures a + (f + p) == a + p + f && a + p == a + p + multiset{}
  {
  }

  lemma ResumeOk(exact: bool, w: World, s: State, v: nat)
    requires RunInv(exact, w, s) && v < |s.vcpus|
    ensures RunInv(exact, w, Resume(s, v)) && GuestView(Resume(s, v)) == GuestView(s)
  {
    hide EngineInv, FiredOk, GuestRam, Outstanding, Issued;
    var s' := Resume(s, v);
    var c := s.vcpus[v];
    VcpusOnly(exact, s, s'.vcpus);
    FreedOnly(exact, s.(vcpus := s'.vcpus), s'.freedPasses);
    OutstandingUpdate(s.vcpus, v, s'.vcpus[v]);
    Regain(Outstanding(s'.vcpus), PassOf(c), s.freedPasses);
    forall u: nat | u < |s'.vcpus|
      ensures VcpuOk(w, s', u)
    {
      assert VcpuOk(w, s, u);
    }
    ViewSame(s, v, s'.vcpus[v]);
    assert GuestView(s') == GuestView(SetVcpu(s, v, s'.vcpus[v]));
  }

  lemma FreedOnly(exact: bool, s: State, freed: multiset<nat>)
    ensures EngineInv(exact, s) ==> EngineInv(exact, s.(freedPasses := freed))
    ensures FiredOk(s) ==> FiredOk(s.(freedPasses := freed))
    ensures GuestRam(s.(freedPasses := freed)) == GuestRam(s)
  {
  }

  lemma StepEventPlain(s: State, v: nat)
    requires v < |s.vcpus| && s.vcpus[v].singleStep
    requires s.vcpus[v].callback.PostMemCallback? ==> s.vcpus[v].callback.pass.traps == []
    ensures StepEvent(s, v) == Resume(s, v)
  {
  }

  lemma StepEventRecopies(s: State, v: nat, pass: MemPass)
    requires v < |s.vcpus| && s.vcpus[v].singleStep && s.vcpus[v].callback == PostMemCallback(pass)
    requires PassReady(s, pass) && Recopy(s, pass).1
    ensures StepEvent(s, v) == Resume(Recopy(s, pass).0, v)
  {
  }

  lemma CpuStepStored(w: World, s: State, v: nat)
    requires v < |s.vcpus|
    ensures s.(mem := CpuStep(w, v, s.mem, s.vcpus[v].hist).0) ==
            match Stored(w, s, v) case None => s case Some((f, page)) => Overwritten(s, f, page)
  {
  }

  lemma StoredInRam(w: World, s: State, v: nat)
    requires v < |s.vcpus| && GuestConfined(w, s.ram) && Stored(w, s, v).Some?
    ensures Stored(w, s, v).value.0 in s.ram
  {
  }

  /** Recopying keeps the run's invariant when the pass covers its frame. */
  lemma RecopyRun(exact: bool, w: World, s0: State, pass: MemPass, page: Page)
    requires RunInv(exact, w, s0) && PassReady(s0, pass) && pass.traps != [] && pass.o in s0.mem
    requires exact ==> Covers(s0, pass.o, page, PasOf(pass.traps))
    ensures PassReady(Overwritten(s0, pass.o, page), pass)
    ensures var (s', ok) := Recopy(Overwritten(s0, pass.o, page), pass);
            ok && RunInv(exact, w, s') && GuestView(s') == GuestView(Overwritten(s0, pass.o, page))
  {
    hide IndexAgrees, DoubleOk, TrapsConserved, ShadowOk, Shadowed, Recopy, GuestRam, Covers;
    var s := Overwritten(s0, pass.o, page);
    OverwrittenMaps(s0, pass.o, page);
    if exact {
      RecopyIff(s0, pass, page);
    } else {
      OverwriteAny(s0, pass.o, page);
      RecopyAny(s, pass);
    }
    RecopyEffect(s, pass);
    var s' := Recopy(s, pass).0;
    assert s'.vcpus == s.vcpus;
    forall u: nat | u < |s'.vcpus|
      ensures VcpuOk(w, s', u)
    {
      assert VcpuOk(w, s0, u);
    }
    ReappliedRam(s, s', pass.o, pass.r, PasOf(pass.traps));
  }

  lemma ReappliedRam(s: State, s': State, o: nat, r: nat, pas: set<nat>)
    requires MapsOk(s) && o in s.tables.remapped && r == s.tables.remapped[o] && Reapplied(s, s', o, r, pas, {})
    ensures GuestRam(s') == GuestRam(s)
  {
  }

  /** Overwrites of a state and observations in one of its vCPUs do not interfere. */
  lemma ObserveFirst(s: State, v: nat, o: Observation, mem: Memory)
    requires v < |s.vcpus|
    ensures Observe(s.(mem := mem), v, o) == Observe(s, v, o).(mem := mem)
  {
  }

  /** A store the recopy need not cover: another frame than the pass's. */
  lemma StoreElsewhere(exact: bool, w: World, s: State, f: nat, page: Page)
    requires RunInv(exact, w, s) && f in s.ram
    requires exact && f in s.tables.remapped ==> Neutral(s, f, page)
    ensures RunInv(exact, w, Overwritten(s, f, page))
  {
    if !exact {
      OverwriteAny(s, f, page);
    } else if f in s.tables.remapped {
      OverwriteIff(s, f, page);
    } else {
      OverwriteFree(exact, s, f, page);
    }
    OverwriteRun(exact, w, s, f, page);
  }


  lemma OriginPlain(exact: bool, w: World, s: State, v: nat)
    requires RunInv(exact, w, s) && GuestConfined(w, s.ram) && v < |s.vcpus| && s.vcpus[v].view == Origin
    requires s.vcpus[v].callback.PostMemCallback? ==> s.vcpus[v].callback.pass.traps == []
    requires exact ==> StoreSafe(w, s, v)
    ensures RunInv(exact, w, OriginExec(w, s, v))
    ensures GuestView(OriginExec(w, s, v)) == NativeStep(w, GuestView(s), v)
    ensures OriginExec(w, s, v).vcpus[v].view == Alt && !OriginExec(w, s, v).vcpus[v].singleStep
  {
    hide EngineInv, FiredOk, GuestRam, PassesConserved, GuestView, CpuStep, StepEvent, Stored;
    var (mem, o) := CpuStep(w, v, s.mem, s.vcpus[v].hist);
    var s2 := Observe(s.(mem := mem), v, o);
    assert VcpuOk(w, s, v);
    ObserveOk(exact, w, s, v, o);
    ObserveFirst(s, v, o, mem);
    CpuStepStored(w, s, v);
    RamInMemory(exact, s);
    ViewStep(w, s, v);
    if Stored(w, s, v).Some? {
      var (f, page) := Stored(w, s, v).value;
      StoredInRam(w, s, v);
      StoreElsewhere(exact, w, Observe(s, v, o), f, page);
    }
    StepEventPlain(s2, v);
    ResumeOk(exact, w, s2, v);
  }

  lemma RemappedInMemory(exact: bool, s: State, f: nat)
    requires EngineInv(exact, s) && f in s.tables.remapped
    ensures f in s.mem
  {
  }

  lemma RamInMemory(exact: bool, s: State)
    requires EngineInv(exact, s)
    ensures s.ram <= s.mem.Keys
  {
  }

  /** The state before recopying is an overwrite of the pass's frame in a state that keeps the invariant. */
  lemma BeforeRecopy(exact: bool, w: World, s: State, v: nat, o: Observation, pass: MemPass) returns (base: State)
    requires RunInv(exact, w, s) && GuestConfined(w, s.ram) && v < |s.vcpus| && s.vcpus[v].pending == NoEvent
    requires s.vcpus[v].callback == PostMemCallback(pass) && pass.traps != []
    requires PassReady(s, pass) && (exact ==> StoreSafe(w, s, v))
    ensures RunInv(exact, w, base) && base.tables == s.tables && pass.o in base.mem && pass.o in s.mem
    ensures var mem := CpuStep(w, v, s.mem, s.vcpus[v].hist).0;
            Overwritten(base, pass.o, PageAfter(s, Stored(w, s, v), pass.o)) == Observe(s.(mem := mem), v, o)
  {
    hide EngineInv, FiredOk, GuestRam, PassesConserved, GuestView, CpuStep, Stored, Covers, VcpusOk;
    var mem := CpuStep(w, v, s.mem, s.vcpus[v].hist).0;
    var st := Stored(w, s, v);
    base := Observe(s, v, o);
    RemappedInMemory(exact, s, pass.o);
    ObserveOk(exact, w, s, v, o);
    ObserveFirst(s, v, o, mem);
    CpuStepStored(w, s, v);
    if st.Some? && st.value.0 != pass.o {
      StoredInRam(w, s, v);
      StoreElsewhere(exact, w, base, st.value.0, st.value.1);
      base := Overwritten(base, st.value.0, st.value.1);
    }
    assert st == None || st.value.0 != pass.o ==> base.mem[pass.o := base.mem[pass.o]] == base.mem;
  }

  lemma OriginRecopy(exact: bool, w: World, s: State, v: nat, pass: MemPass)
    requires RunInv(exact, w, s) && GuestConfined(w, s.ram) && v < |s.vcpus| && s.vcpus[v].view == Origin
    requires s.vcpus[v].callback == PostMemCallback(pass) && pass.traps != []
    requires PassReady(s, pass) && (exact ==> StoreSafe(w, s, v))
    ensures RunInv(exact, w, OriginExec(w, s, v))
    ensures GuestView(OriginExec(w, s, v)) == NativeStep(w, GuestView(s), v)
    ensures OriginExec(w, s, v).vcpus[v].view == Alt && !OriginExec(w, s, v).vcpus[v].singleStep
  {
    hide EngineInv, FiredOk, GuestRam, PassesConserved, GuestView, CpuStep, StepEvent, Stored, Recopy, PageAfter;
    var (mem, o) := CpuStep(w, v, s.mem, s.vcpus[v].hist);
    var s2 := Observe(s.(mem := mem), v, o);
    assert VcpuOk(w, s, v);
    RamInMemory(exact, s);
    ViewStep(w, s, v);
    var base := BeforeRecopy(exact, w, s, v, o, pass);
    var page := PageAfter(s, Stored(w, s, v), pass.o);
    RecopyRun(exact, w, base, pass, page);
    StepEventRecopies(s2, v, pass);
    ResumeOk(exact, w, Recopy(s2, pass).0, v);
  }

  lemma InterruptedOnly(s: State)
    ensures EngineInv(false, s) ==> EngineInv(false, s.(interrupted := true))
    ensures FiredOk(s) ==> FiredOk(s.(interrupted := true))
    ensures GuestRam(s.(interrupted := true)) == GuestRam(s)
  {
  }

  /** A pass one of whose traps is no longer registered stops the engine. */
  lemma OriginStops(w: World, s: State, v: nat, pass: MemPass)
    requires RunInv(false, w, s) && GuestConfined(w, s.ram) && v < |s.vcpus| && s.vcpus[v].view == Origin
    requires s.vcpus[v].callback == PostMemCallback(pass)
    requires !forall t | t in pass.traps :: t.pa in s.tables.breakpoint
    ensures RunInv(false, w, OriginExec(w, s, v))
    ensures GuestView(OriginExec(w, s, v)) == NativeStep(w, GuestView(s), v)
  {
    hide EngineInv, FiredOk, GuestRam, PassesConserved, CpuStep, Stored;
    var (mem, o) := CpuStep(w, v, s.mem, s.vcpus[v].hist);
    var s2 := Observe(s.(mem := mem), v, o);
    assert VcpuOk(w, s, v);
    ObserveOk(false, w, s, v, o);
    ObserveFirst(s, v, o, mem);
    CpuStepStored(w, s, v);
    RamInMemory(false, s);
    ViewStep(w, s, v);
    if Stored(w, s, v).Some? {
      var (f, page) := Stored(w, s, v).value;
      StoredInRam(w, s, v);
      StoreElsewhere(false, w, Observe(s, v, o), f, page);
    }
    var s' := OriginExec(w, s, v);
    assert s' == s2.(interrupted := true);
    InterruptedRun(w, s2);
  }

  lemma InterruptedRun(w: World, s: State)
    requires RunInv(false, w, s)
    ensures RunInv(false, w, s.(interrupted := true)) && GuestView(s.(interrupted := true)) == GuestView(s)
  {
    hide EngineInv, FiredOk, GuestRam;
    var s' := s.(interrupted := true);
    InterruptedOnly(s);
    forall u: nat | u < |s'.vcpus|
      ensures VcpuOk(w, s', u)
    {
      assert VcpuOk(w, s, u);
    }
  }

  /** The pass the vCPU is stepping with holds a trap that has left the tables meanwhile. */
  ghost predicate StalePass(s: State, v: nat)
    requires v < |s.vcpus|
  {
    var cb := s.vcpus[v].callback;
    cb.PostMemCallback? && exists t | t in cb.pass.traps :: t.pa !in s.tables.breakpoint
  }

  /** In ORIGIN the guest always takes the native step, and the vCPU is back in ALT after one exactly
      when its pass holds no trap that has left the tables; otherwise the engine stops. */
  lemma OriginExecOk(exact: bool, w: World, s: State, v: nat)
    requires RunInv(exact, w, s) && GuestConfined(w, s.ram) && v < |s.vcpus| && s.vcpus[v].view == Origin
    requires exact ==> StoreSafe(w, s, v)
    ensures RunInv(exact, w, OriginExec(w, s, v))
    ensures GuestView(OriginExec(w, s, v)) == NativeStep(w, GuestView(s), v)
    ensures OriginExec(w, s, v).vcpus[v].view == Alt <==> !StalePass(s, v)
    ensures StalePass(s, v) ==> OriginExec(w, s, v).interrupted
  {
    hide EngineInv, FiredOk, GuestRam, PassesConserved, GuestView, NativeStep, OriginExec;
    var cb := s.vcpus[v].callback;
    assert VcpuOk(w, s, v);
    if cb.PostMemCallback? && cb.pass.traps != [] {
      if forall t | t in cb.pass.traps :: t.pa in s.tables.breakpoint {
        OriginRecopy(exact, w, s, v, cb.pass);
      } else {
        OriginStops(w, s, v, cb.pass);
        StoppedFlag(w, s, v);
      }
    } else {
      OriginPlain(exact, w, s, v);
    }
  }

  lemma StoppedFlag(w: World, s: State, v: nat)
    requires v < |s.vcpus| && s.vcpus[v].singleStep && s.vcpus[v].callback.PostMemCallback?
    requires !forall t | t in s.vcpus[v].callback.pass.traps :: t.pa in s.tables.breakpoint
    ensures OriginExec(w, s, v).interrupted && OriginExec(w, s, v).vcpus[v].view == s.vcpus[v].view
  {
  }

  // ----- handling events

  lemma UntouchedRun(exact: bool, w: World, s: State, s1: State)
    requires RunInv(exact, w, s) && EngineInv(exact, s1) && FiredOk(s1) && GuestUntouched(s, s1)
    ensures RunInv(exact, w, s1) && GuestView(s1) == GuestView(s)
  {
    hide EngineInv, FiredOk, GuestRam;
    forall u: nat | u < |s1.vcpus|
      ensures VcpuOk(w, s1, u)
    {
      assert VcpuOk(w, s, u);
    }
  }

  lemma ViewHists(s: State, v: nat, c: Vcpu, d: Vcpu)
    requires v < |s.vcpus| && c.hist == d.hist
    ensures GuestView(SetVcpu(s, v, c)) == GuestView(SetVcpu(s, v, d))
  {
  }

  /** A breakpoint exception is what an unmonitored guest gets where the original byte is INT3. */
  lemma NativeBreakpoint(w: World, s: State, v: nat)
    requires s.ram <= s.mem.Keys && GuestConfined(w, s.ram) && v < |s.vcpus|
    requires ByteAt(s.mem, w.fetch(v, s.vcpus[v].hist)[0]) == INT3
    ensures NativeStep(w, GuestView(s), v) == GuestView(Observe(s, v, Breakpoint))
  {
  }

  /** An int3 event that finds no trap, because none was there or the last one was removed meanwhile:
      the exception is delivered exactly when the original byte is INT3, else the guest tries again. */
  lemma LateInt3(exact: bool, w: World, s: State, v: nat)
    requires RunInv(exact, w, s) && GuestConfined(w, s.ram) && v < |s.vcpus| && s.vcpus[v].pending.Int3Event?
    requires TrapsAt(s.tables, s.vcpus[v].pending.pa) == []
    ensures RunInv(exact, w, HandleEvent(w, s, v))
    ensures GuestView(HandleEvent(w, s, v)) == NativeRun(w, GuestView(s), NativeOf(w, s, Handle(v)))
    ensures NativeOf(w, s, Handle(v)) == if ByteAt(s.mem, s.vcpus[v].pending.pa) == INT3 then [v] else []
  {
    hide EngineInv, FiredOk, GuestRam, GuestView, PassesConserved, NativeStep;
    var c := s.vcpus[v];
    assert VcpuOk(w, s, v);
    var b := ByteAt(s.mem, c.pending.pa);
    RamInMemory(exact, s);
    var c' := Respond(c, Response(b == INT3, false, None));
    assert HandleEvent(w, s, v) == SetVcpu(s, v, c');
    SetVcpuInv(exact, w, s, v, c');
    RunOne(w, GuestView(s), v);
    if b == INT3 {
      NativeBreakpoint(w, s, v);
      ViewHists(s, v, c', c.(hist := c.hist + [Breakpoint]));
    } else {
      ViewSame(s, v, c');
    }
  }

  /** The doubletrap flag decides reinjection as the original byte would. */
  lemma FlagIsByte(s: State, pa: nat)
    requires MapsOk(s) && DoubleOk(s) && TrapsAt(s.tables, pa) != []
    ensures s.tables.breakpoint[pa].doubletrap <==> ByteAt(s.mem, pa) == INT3
  {
  }

  lemma TrappedInt3(exact: bool, w: World, s: State, v: nat)
    requires RunInv(exact, w, s) && GuestConfined(w, s.ram) && EnvironmentOk(w, s.ram)
    requires v < |s.vcpus| && s.vcpus[v].pending.Int3Event?
    requires TrapsAt(s.tables, s.vcpus[v].pending.pa) != []
    ensures RunInv(exact, w, HandleEvent(w, s, v))
    ensures exact ==> GuestView(HandleEvent(w, s, v)) == NativeRun(w, GuestView(s), NativeOf(w, s, Handle(v)))
    ensures exact ==> NativeOf(w, s, Handle(v)) == if ByteAt(s.mem, s.vcpus[v].pending.pa) == INT3 then [v] else []
    ensures HandleEvent(w, s, v).vcpus[v].view == Origin && HandleEvent(w, s, v).vcpus[v].pending == NoEvent
    ensures HandleEvent(w, s, v).ram == s.ram
  {
    hide RunInv, GuestConfined, EnvironmentOk, GuestView, GuestRam, NativeRun, HandleEvent, NativeOf, Dispatch, ByteAt;
    var c, pa := s.vcpus[v], s.vcpus[v].pending.pa;
    var s1 := Dispatch(w, s, TrapsAt(s.tables, pa));
    var double := s.tables.breakpoint[pa].doubletrap;
    var c' := Respond(c.(callback := SinglestepCallback), Response(double, true, Some(Origin)));
    TrappedDispatch(exact, w, s, v);
    TrappedEvent(w, s, v);
    TrappedVcpu(exact, w, s1, v, c');
    TrappedView(exact, w, s, s1, v, c');
  }

  lemma TrappedVcpu(exact: bool, w: World, s: State, v: nat, c: Vcpu)
    requires RunInv(exact, w, s) && v < |s.vcpus| && s.vcpus[v].pending.Int3Event?
    requires c.singleStep == !s.vcpus[v].singleStep && c.view == Origin && c.pending == NoEvent
    requires c.callback == SinglestepCallback
    ensures RunInv(exact, w, SetVcpu(s, v, c))
  {
    hide EngineInv, FiredOk, PassesConserved;
    assert VcpuOk(w, s, v);
    SetVcpuInv(exact, w, s, v, c);
  }

  /** Dispatching keeps the invariant and all the guest sees, and the flag says what its own byte is. */
  lemma TrappedDispatch(exact: bool, w: World, s: State, v: nat)
    requires RunInv(exact, w, s) && EnvironmentOk(w, s.ram)
    requires v < |s.vcpus| && s.vcpus[v].pending.Int3Event?
    requires TrapsAt(s.tables, s.vcpus[v].pending.pa) != []
    ensures var pa := s.vcpus[v].pending.pa;
            var s1 := Dispatch(w, s, TrapsAt(s.tables, pa));
            && RunInv(exact, w, s1) && GuestView(s1) == GuestView(s) && GuestRam(s1) == GuestRam(s)
            && s1.vcpus == s.vcpus && s1.ram == s.ram
            && (exact ==> (s.tables.breakpoint[pa].doubletrap <==> ByteAt(s.mem, pa) == INT3))
  {
    hide EngineInv, FiredOk, GuestRam, GuestView, PassesConserved, VcpusOk, Dispatch, EnvironmentOk, ByteAt;
    var pa := s.vcpus[v].pending.pa;
    var todo := TrapsAt(s.tables, pa);
    assert [] + todo == todo;
    var extra := DispatchAll(exact, w, s, pa, [], todo);
    UntouchedRun(exact, w, s, Dispatch(w, s, todo));
    if exact {
      EngineParts(s);
      FlagIsByte(s, pa);
    }
  }

  /** The handling of an int3 event that finds a trap, and when it is a native step. */
  lemma TrappedEvent(w: World, s: State, v: nat)
    requires v < |s.vcpus| && s.vcpus[v].pending.Int3Event? && TrapsAt(s.tables, s.vcpus[v].pending.pa) != []
    ensures var c, pa := s.vcpus[v], s.vcpus[v].pending.pa;
            var double := s.tables.breakpoint[pa].doubletrap;
            && HandleEvent(w, s, v) ==
               SetVcpu(Dispatch(w, s, TrapsAt(s.tables, pa)), v,
                       Respond(c.(callback := SinglestepCallback), Response(double, true, Some(Origin))))
            && NativeOf(w, s, Handle(v)) == if double then [v] else []
  {
    hide Dispatch;
    var c, pa := s.vcpus[v], s.vcpus[v].pending.pa;
    var d := c.(callback := SinglestepCallback);
    var c' := Respond(d, Response(s.tables.breakpoint[pa].doubletrap, true, Some(Origin)));
    assert s.vcpus[v := d][v := c'] == s.vcpus[v := c'];
  }

  /** What the guest sees of an int3 event that found a trap. */
  lemma TrappedView(exact: bool, w: World, s: State, s1: State, v: nat, c: Vcpu)
    requires RunInv(exact, w, s) && GuestConfined(w, s.ram) && v < |s.vcpus| && s.vcpus[v].pending.Int3Event?
    requires s1.vcpus == s.vcpus && GuestRam(s1) == GuestRam(s) && GuestView(s1) == GuestView(s)
    requires var b := ByteAt(s.mem, s.vcpus[v].pending.pa) == INT3;
             exact ==> c.hist == s.vcpus[v].hist + if b then [Breakpoint] else []
    ensures var b := ByteAt(s.mem, s.vcpus[v].pending.pa) == INT3;
            exact ==> GuestView(SetVcpu(s1, v, c)) == NativeRun(w, GuestView(s), if b then [v] else [])
  {
    hide EngineInv, FiredOk, GuestRam, GuestView, PassesConserved, NativeStep;
    RunOne(w, GuestView(s), v);
    RamInMemory(exact, s);
    assert VcpuOk(w, s, v);
    if exact {
      if ByteAt(s.mem, s.vcpus[v].pending.pa) == INT3 {
        NativeBreakpoint(w, s, v);
        SameViews(s, s1, v, c, s.vcpus[v].(hist := s.vcpus[v].hist + [Breakpoint]));
      } else {
        ViewSame(s1, v, c);
      }
    }
  }

  lemma EngineParts(s: State)
    requires EngineInv(true, s)
    ensures MapsOk(s) && ShadowOk(s) && DoubleOk(s)
  {
  }

  lemma SameViews(s: State, s1: State, v: nat, c: Vcpu, d: Vcpu)
    requires v < |s.vcpus| && s1.vcpus == s.vcpus && GuestRam(s1) == GuestRam(s) && c.hist == d.hist
    ensures GuestView(SetVcpu(s1, v, c)) == GuestView(SetVcpu(s, v, d))
  {
  }

  /** A memory event allocates one pass and steps the vCPU in the ORIGIN view. */
  lemma HandleMemOk(exact: bool, w: World, s: State, v: nat)
    requires RunInv(exact, w, s) && v < |s.vcpus| && s.vcpus[v].pending.MemEvent?
    ensures RunInv(exact, w, HandleEvent(w, s, v)) && GuestView(HandleEvent(w, s, v)) == GuestView(s)
    ensures HandleEvent(w, s, v).vcpus[v].view == Origin && HandleEvent(w, s, v).vcpus[v].pending == NoEvent
    ensures HandleEvent(w, s, v).ram == s.ram
  {
    hide EngineInv, FiredOk, GuestRam, Outstanding, Issued, VcpusOk;
    var s' := HandleEvent(w, s, v);
    HandleMemVcpus(exact, w, s, v);
    VcpusOnly(exact, s, s'.vcpus);
    NextPassOnly(exact, s.(vcpus := s'.vcpus), s'.nextPass);
    OutstandingUpdate(s.vcpus, v, s'.vcpus[v]);
    assert s'.vcpus == s.vcpus[v := s'.vcpus[v]];
    IssueOne(Outstanding(s'.vcpus), Outstanding(s.vcpus), s.freedPasses, s.nextPass);
    ViewSame(s, v, s'.vcpus[v]);
    assert GuestView(s') == GuestView(SetVcpu(s, v, s'.vcpus[v]));
  }

  lemma HandleMemVcpus(exact: bool, w: World, s: State, v: nat)
    requires EngineInv(exact, s) && VcpusOk(w, s) && v < |s.vcpus| && s.vcpus[v].pending.MemEvent?
    ensures VcpusOk(w, HandleEvent(w, s, v)) && VcpuOk(w, s, v)
  {
    hide EngineInv;
    var c := s.vcpus[v];
    var s' := HandleEvent(w, s, v);
    assert VcpuOk(w, s, v);
    if TrapsIn(s.tables, c.pending.gfn) != [] {
      CapturedTraps(exact, s, c.pending.gfn);
    }
    forall u: nat | u < |s'.vcpus|
      ensures VcpuOk(w, s', u)
    {
      assert VcpuOk(w, s, u);
    }
  }

  lemma IssueOne(a: multiset<nat>, b: multiset<nat>, f: multiset<nat>, id: nat)
    requires a + multiset{} == b + multiset{id}
    ensures a + f == b + f + multiset{id}
    ensures Issued(id + 1) == Issued(id) + multiset{id}
  {
    assert a + multiset{} == a;
  }

  lemma NextPassOnly(exact: bool, s: State, n: nat)
    ensures EngineInv(exact, s) ==> EngineInv(exact, s.(nextPass := n))
    ensures FiredOk(s) ==> FiredOk(s.(nextPass := n))
    ensures GuestRam(s.(nextPass := n)) == GuestRam(s)
  {
  }

  /** The frame index lists only registered traps of remapped frames. */
  lemma CapturedTraps(exact: bool, s: State, gfn: nat)
    requires EngineInv(exact, s) && TrapsIn(s.tables, gfn) != []
    ensures gfn in s.tables.remapped
    ensures forall t | t in TrapsIn(s.tables, gfn) :: Gfn(t.pa) == gfn && t.pa in s.tables.breakpoint
  {
    hide ShadowOk, DoubleOk, TrapsConserved;
    forall t | t in TrapsIn(s.tables, gfn)
      ensures Gfn(t.pa) == gfn && t.pa in s.tables.breakpoint
    {
      InAtPa(TrapsIn(s.tables, gfn), t);
      assert AtPa(TrapsIn(s.tables, Gfn(t.pa)), t.pa) == TrapsAt(s.tables, t.pa);
    }
    var t := TrapsIn(s.tables, gfn)[0];
    assert t in TrapsIn(s.tables, gfn);
  }

  lemma {:induction false} InAtPa(traps: seq<Trap>, t: Trap)
    requires t in traps
    ensures t in AtPa(traps, t.pa)
  {
    if traps[0] != t {
      InAtPa(traps[1..], t);
    }
  }

  // ----- trapping a system call

  lemma SyscallOk(exact: bool, w: World, s: State, pa: nat, hasRet: bool)
    requires RunInv(exact, w, s) && EnvironmentOk(w, s.ram) && (Gfn(pa) in s.ram || Gfn(pa) !in s.mem)
    ensures var s' := Next(w, s, Syscall(pa, hasRet));
            RunInv(exact, w, s') && GuestView(s') == GuestView(s) && s'.ram == s.ram
  {
    hide EngineInv, InjectTrap, GuestRam, PassesConserved, VcpusOk, GuestView, FiredOk, EnvironmentOk;
    var s0 := s.(nextId := s.nextId + 1);
    BookkeepingKeepsInv(exact, s, s.fired, s.nextId + 1);
    assert s0 == s.(fired := s.fired, nextId := s.nextId + 1);
    SyscallInject(exact, w, s, pa, hasRet);
    var s' := InjectTrap(w, s0, SyscallTrap(s, pa, hasRet)).0;
    UntouchedTwice(s, s0, s');
    UntouchedRun(exact, w, s, s');
  }

  lemma SyscallInject(exact: bool, w: World, s: State, pa: nat, hasRet: bool)
    requires EngineInv(exact, s) && EngineInv(exact, s.(nextId := s.nextId + 1)) && FiredOk(s)
    requires EnvironmentOk(w, s.ram) && (Gfn(pa) in s.ram || Gfn(pa) !in s.mem)
    ensures var s' := InjectTrap(w, s.(nextId := s.nextId + 1), SyscallTrap(s, pa, hasRet)).0;
            EngineInv(exact, s') && FiredOk(s') && GuestUntouched(s.(nextId := s.nextId + 1), s')
  {
    hide IndexAgrees, MapsOk, ShadowOk, DoubleOk, InjectTrap, GuestRam;
    var s0 := s.(nextId := s.nextId + 1);
    var trap := SyscallTrap(s, pa, hasRet);
    FreshIdentity(s, trap);
    assert w.alloc(s0.mem.Keys + {Gfn(pa)}) != 0;
    InjectKeepsInv(exact, w, s0, trap);
    InjectLists(w, s0, trap);
  }

  // ----- whole runs

  /** A system call trap is put in the guest's memory, or at an address that cannot be read. */
  ghost predicate Sensible(s: State, l: Label) {
    l.Syscall? ==> Gfn(l.pa) in s.ram || Gfn(l.pa) !in s.mem
  }

  /** One step: the invariant is kept, and under the two conditions of `Enabled` the step is, for the
      guest, the native steps it stands for. */
  lemma StepSimulates(exact: bool, w: World, s: State, l: Label)
    requires RunInv(exact, w, s) && GuestConfined(w, s.ram) && EnvironmentOk(w, s.ram)
    requires Sensible(s, l) && (exact ==> Enabled(w, s, l))
    ensures RunInv(exact, w, Next(w, s, l)) && Next(w, s, l).ram == s.ram
    ensures exact ==> GuestView(Next(w, s, l)) == NativeRun(w, GuestView(s), NativeOf(w, s, l))
  {
    hide EngineInv, FiredOk, GuestRam, GuestView, PassesConserved, NativeStep, EnvironmentOk;
    hide StoreSafe, FetchSafe, AltExec, OriginExec, HandleEvent;
    RunOne(w, GuestView(s), if l.Syscall? then 0 else l.v);
    match l {
      case Exec(v) =>
        if v < |s.vcpus| && s.vcpus[v].pending == NoEvent {
          KeepsRam(w, s, v);
          if s.vcpus[v].view == Alt {
            AltExecOk(exact, w, s, v);
          } else {
            OriginExecOk(exact, w, s, v);
          }
        }
      case Handle(v) =>
        if v < |s.vcpus| {
          KeepsRam(w, s, v);
          if s.vcpus[v].pending == NoEvent {
            IdleHandle(w, s, v);
          } else if s.vcpus[v].pending.MemEvent? {
            HandleMemOk(exact, w, s, v);
          } else if TrapsAt(s.tables, s.vcpus[v].pending.pa) == [] {
            LateInt3(exact, w, s, v);
          } else {
            TrappedInt3(exact, w, s, v);
          }
        }
      case Syscall(pa, hasRet) =>
        SyscallOk(exact, w, s, pa, hasRet);
    }
  }

  lemma IdleHandle(w: World, s: State, v: nat)
    requires v < |s.vcpus| && s.vcpus[v].pending == NoEvent
    ensures HandleEvent(w, s, v) == s
  {
  }

  lemma KeepsRam(w: World, s: State, v: nat)
    requires v < |s.vcpus|
    ensures AltExec(w, s, v).ram == s.ram && OriginExec(w, s, v).ram == s.ram && HandleEvent(w, s, v).ram == s.ram
  {
  }

  lemma {:induction false} NativeRunAppend(w: World, n: Native, a: seq<nat>, b: seq<nat>)
    ensures NativeRun(w, n, a + b) == NativeRun(w, NativeRun(w, n, a), b)
    decreases |a|
  {
    if a == [] {
      assert a + b == b;
    } else {
      assert (a + b)[1..] == a[1..] + b;
      NativeRunAppend(w, NativeStep(w, n, a[0]), a[1..], b);
    }
  }

  /** Transparency: over any interleaving of vCPU instructions, event handling, trap injections and
      removals, the guest's memory and everything its vCPUs have experienced are those of a run of the
      same guest on its original memory. */
  lemma {:induction false} Transparent(w: World, s: State, ls: seq<Label>)
    requires RunInv(true, w, s) && GuestConfined(w, s.ram) && EnvironmentOk(w, s.ram) && AllEnabled(w, s, ls)
    ensures RunInv(true, w, Run(w, s, ls))
    ensures GuestView(Run(w, s, ls)) == NativeRun(w, GuestView(s), NativeSchedule(w, s, ls))
    decreases |ls|
  {
    hide RunInv, GuestConfined, EnvironmentOk, GuestView, NativeStep, Next, NativeOf, Enabled;
    if ls != [] {
      var s1 := Next(w, s, ls[0]);
      EnabledIsSensible(w, s, ls[0]);
      StepSimulates(true, w, s, ls[0]);
      Transparent(w, s1, ls[1..]);
      NativeRunAppend(w, GuestView(s), NativeOf(w, s, ls[0]), NativeSchedule(w, s1, ls[1..]));
    } else {
      RunOne(w, GuestView(s), 0);
    }
  }

  lemma EnabledIsSensible(w: World, s: State, l: Label)
    requires Enabled(w, s, l)
    ensures Sensible(s, l)
  {
  }

  ghost predicate AllSensible(w: World, s: State, ls: seq<Label>)
    decreases |ls|
  {
    ls != [] ==> Sensible(s, ls[0]) && AllSensible(w, Next(w, s, ls[0]), ls[1..])
  }

  /** What every run keeps, with no condition on what the guest executes or writes: the two trap
      indexes agree, mappings and access traps match, traps and passes are conserved, one-shot traps
      fire at most once, and every vCPU follows the view automaton. */
  lemma {:induction false} EveryRun(w: World, s: State, ls: seq<Label>)
    requires RunInv(false, w, s) && GuestConfined(w, s.ram) && EnvironmentOk(w, s.ram) && AllSensible(w, s, ls)
    ensures RunInv(false, w, Run(w, s, ls))
    decreases |ls|
  {
    hide RunInv, GuestConfined, EnvironmentOk, Next, Sensible;
    if ls != [] {
      StepSimulates(false, w, s, ls[0]);
      EveryRun(w, Next(w, s, ls[0]), ls[1..]);
    }
  }

  /** vCPUs in the ALT view whose step callbacks have just been set up. */
  function FreshVcpus(n: nat): seq<Vcpu> {
    seq(n, _ => Vcpu(Alt, false, SinglestepCallback, NoEvent, []))
  }

  /** The engine right after the ALT view was set up: no traps, every vCPU in ALT. */
  function Initial(mem: Memory, n: nat): State {
    State(mem.Keys, mem, EMPTY, map[], {}, FreshVcpus(n),
          0, {}, multiset{}, [], 0, multiset{}, false)
  }

  lemma {:induction false} NothingOutstanding(cs: seq<Vcpu>)
    requires forall c | c in cs :: c.callback == SinglestepCallback
    ensures Outstanding(cs) == multiset{}
  {
    if cs != [] {
      NothingOutstanding(cs[1..]);
    }
  }

  lemma InitialOk(exact: bool, w: World, mem: Memory, n: nat)
    ensures RunInv(exact, w, Initial(mem, n))
    ensures GuestView(Initial(mem, n)) == Native(mem, seq(n, _ => []))
  {
    var s := Initial(mem, n);
    NothingOutstanding(s.vcpus);
    assert MapsOk(s);
    assert GuestRam(s) == mem;
    EmptyAgrees();
  }

  /** The whole life of a monitored machine from its first instruction. */
  lemma TransparentFromStart(w: World, mem: Memory, n: nat, ls: seq<Label>)
    requires GuestConfined(w, mem.Keys) && EnvironmentOk(w, mem.Keys) && AllEnabled(w, Initial(mem, n), ls)
    ensures GuestView(Run(w, Initial(mem, n), ls)) ==
            NativeRun(w, Native(mem, seq(n, _ => [])), NativeSchedule(w, Initial(mem, n), ls))
    ensures RunInv(true, w, Run(w, Initial(mem, n), ls))
  {
    InitialOk(true, w, mem, n);
    Transparent(w, Initial(mem, n), ls);
  }
}
