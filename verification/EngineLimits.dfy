/** Progress, dispatch and shutdown; and exactly where the engine stops being transparent. */
module EngineLimits {
  import opened Wrappers
  import opened GuestMemory
  import opened TrapManager
  import opened Engine
  import opened EngineInvariants
  import opened Dispatching
  import opened Recopying
  import opened GuestMachine
  import opened Transparency

  // ----- progress

  /** An event never makes the guest retry for ever: trying an instruction, having its event handled
      and trying again takes at least one native step. */
  lemma Progress(w: World, s: State, v: nat)
    requires RunInv(true, w, s) && GuestConfined(w, s.ram) && EnvironmentOk(w, s.ram)
    requires v < |s.vcpus| && s.vcpus[v].view == Alt && s.vcpus[v].pending == NoEvent
    ensures v in NativeSchedule(w, s, [Exec(v), Handle(v), Exec(v)])
  {
    hide RunInv, GuestConfined, EnvironmentOk, NativeOf, Next;
    var s1 := Next(w, s, Exec(v));
    var s2 := Next(w, s1, Handle(v));
    var ls := [Exec(v), Handle(v), Exec(v)];
    assert ls[1..] == [Handle(v), Exec(v)] && [Handle(v), Exec(v)][1..] == [Exec(v)] && [Exec(v)][1..] == [];
    assert NativeSchedule(w, s, ls) == NativeOf(w, s, Exec(v)) + NativeSchedule(w, s1, ls[1..]);
    assert NativeSchedule(w, s1, ls[1..]) == NativeOf(w, s1, Handle(v)) + NativeSchedule(w, s2, [Exec(v)]);
    assert NativeSchedule(w, s2, [Exec(v)]) == NativeOf(w, s2, Exec(v)) + NativeSchedule(w, Next(w, s2, Exec(v)), []);
    if v !in NativeOf(w, s, Exec(v)) {
      EventProgress(w, s, v);
    }
  }

  lemma EventProgress(w: World, s: State, v: nat)
    requires RunInv(true, w, s) && GuestConfined(w, s.ram) && EnvironmentOk(w, s.ram)
    requires v < |s.vcpus| && s.vcpus[v].view == Alt && s.vcpus[v].pending == NoEvent
    requires v !in NativeOf(w, s, Exec(v))
    ensures var s1 := Next(w, s, Exec(v));
            v in NativeOf(w, s1, Handle(v)) || v in NativeOf(w, Next(w, s1, Handle(v)), Exec(v))
  {
    hide EngineInv, FiredOk, GuestRam, GuestView, PassesConserved, NativeStep, EnvironmentOk, HandleEvent, Int3Cb;
    var s1 := AltExec(w, s, v);
    RaisesOk(true, w, s, v);
    RaisedEvent(w, s, v);
    if s1.vcpus[v].pending.MemEvent? {
      HandleMemOk(true, w, s1, v);
    } else if TrapsAt(s1.tables, s1.vcpus[v].pending.pa) != [] {
      TrappedInt3(true, w, s1, v);
    } else {
      LateInt3(true, w, s1, v);
      var pa := s1.vcpus[v].pending.pa;
      assert Gfn(pa) in s.ram;
      Int3Cause(s, pa);
    }
  }

  lemma RaisedEvent(w: World, s: State, v: nat)
    requires v < |s.vcpus| && !Executes(w, s, v)
    ensures var s1 := AltExec(w, s, v);
            var pas := w.fetch(v, s.vcpus[v].hist);
            && s1 == Raise(s, v, s1.vcpus[v].pending) && s1.vcpus[v].pending != NoEvent
            && (s1.vcpus[v].pending.Int3Event? ==>
                  pas != [] && s1.vcpus[v].pending.pa == pas[0] && AltByte(s, pas[0]) == INT3)
  {
  }

  lemma Int3Cause(s: State, pa: nat)
    requires EngineInv(true, s) && Gfn(pa) in s.ram && AltByte(s, pa) == INT3
    ensures TrapsAt(s.tables, pa) != [] || ByteAt(s.mem, pa) == INT3
  {
    AltByteIs(s, pa);
  }

  // ----- dispatch

  /** Handling an int3 event at a trapped address runs the callback of each trap registered there once,
      in registration order, and leaves the traps that are not one-shot registered in the same order;
      `extra` are one-shot traps the callbacks put at the very address being handled. */
  lemma Int3RunsEachOnce(exact: bool, w: World, s: State, v: nat, pa: nat) returns (extra: seq<Trap>)
    requires EngineInv(exact, s) && FiredOk(s) && EnvironmentOk(w, s.ram) && v < |s.vcpus|
    requires TrapsAt(s.tables, pa) != []
    ensures var s' := Int3Cb(w, s, v, pa).0;
            && s'.fired == s.fired + WithCallback(TrapsAt(s.tables, pa)) + extra
            && TrapsAt(s'.tables, pa) == Lasting(TrapsAt(s.tables, pa))
            && (forall q: nat | q != pa :: TrapsAt(s.tables, q) <= TrapsAt(s'.tables, q))
            && (forall x | x in extra :: x.selfDestroy && x.pa == pa && x !in s.injected)
    ensures forall i, j | 0 <= i < j < |TrapsAt(s.tables, pa)| :: TrapsAt(s.tables, pa)[i] != TrapsAt(s.tables, pa)[j]
  {
    hide EngineInv, FiredOk, GuestRam, Dispatch, EnvironmentOk, Lasting, WithCallback;
    var todo := TrapsAt(s.tables, pa);
    assert [] + todo == todo;
    extra := DispatchAll(exact, w, s, pa, [], todo);
    assert [] + Lasting(todo) == Lasting(todo);
    OldIdentities(exact, s);
    forall i, j | 0 <= i < j < |todo|
      ensures todo[i] != todo[j]
    {
      Distinct(exact, s, pa, i, j);
    }
  }

  lemma OldIdentities(exact: bool, s: State)
    requires EngineInv(exact, s)
    ensures forall x | x in s.injected :: x.id < s.nextId
  {
  }

  lemma Distinct(exact: bool, s: State, pa: nat, i: nat, j: nat)
    requires EngineInv(exact, s) && i < j < |TrapsAt(s.tables, pa)|
    ensures TrapsAt(s.tables, pa)[i] != TrapsAt(s.tables, pa)[j]
  {
    hide MapsOk, ShadowOk, DoubleOk, AtPa, GfnTableOk;
    var todo := TrapsAt(s.tables, pa);
    var t := todo[j];
    assert todo == todo[..j] + [t] + todo[j + 1..];
    assert t in todo && t.pa == pa;
    OnceInList(s, todo, t, todo[..j], todo[j + 1..]);
    assert todo[i] in todo[..j];
  }

  // ----- shutdown and restart

  /** After shutdown the ALT view shows the guest's own frames, nothing traps, the guest's memory is
      intact, and every trap ever injected was freed exactly once. */
  lemma ShutdownClean(exact: bool, s: State, s': State)
    requires EngineInv(exact, s) && Destroyed(s, s')
    ensures forall f | f in s.ram :: f !in s'.alt && f !in s'.armed
    ensures GuestRam(s') == GuestRam(s)
    ensures forall x: Trap :: s'.freed[x] == if x in s.injected then 1 else 0
    ensures EngineInv(true, s')
  {
    hide IndexAgrees, ShadowOk, DoubleOk;
    forall x: Trap
      ensures s'.freed[x] == if x in s.injected then 1 else 0
    {
      assert Count(s.tables, x) + s.freed[x] == if x in s.injected then 1 else 0;
    }
    assert GuestRam(s') == GuestRam(s) by {
      assert forall f | f in s.ram :: f !in s.tables.remapped.Values;
    }
    EmptyOk(s');
  }

  lemma EmptyOk(s: State)
    requires s.tables == EMPTY && s.ram <= s.mem.Keys && s.armed == {}
    requires forall f | f in s.ram :: f !in s.alt
    requires forall x: Trap :: s.freed[x] == if x in s.injected then 1 else 0
    requires forall x | x in s.injected :: x.id < s.nextId
    ensures EngineInv(true, s)
  {
  }

  /** A restarted machine: new memory, a new ALT view and empty tables, the old traps freed. */
  ghost predicate Restarted(s: State, s': State, mem: Memory, n: nat) {
    && s' == Initial(mem, n).(nextId := s.nextId, injected := s.injected, fired := s.fired, freed := s'.freed,
                              nextPass := s.nextPass, freedPasses := s.freedPasses, interrupted := s.interrupted)
    && forall t: Trap :: s'.freed[t] == s.freed[t] + multiset(TrapsAt(s.tables, t.pa))[t]
  }

  lemma RestartClean(exact: bool, s: State, s': State, mem: Memory, n: nat)
    requires EngineInv(exact, s) && Restarted(s, s', mem, n)
    ensures EngineInv(true, s') && GuestRam(s') == mem
    ensures forall x | x in s.injected :: s'.freed[x] == 1
  {
    forall x: Trap
      ensures s'.freed[x] == if x in s.injected then 1 else 0
    {
      assert Count(s.tables, x) + s.freed[x] == if x in s.injected then 1 else 0;
    }
    EmptyOk(s');
  }

  /** After a restart the whole run invariant holds again, so that the new guest is transparent to
      monitor, exactly when no pass was pending as the old guest died: a pending pass is never freed. */
  lemma RestartedRun(w: World, s: State, s': State, mem: Memory, n: nat)
    requires RunInv(false, w, s) && Restarted(s, s', mem, n)
    ensures RunInv(true, w, s') <==> Outstanding(s.vcpus) == multiset{}
    ensures GuestView(s') == Native(mem, seq(n, _ => []))
  {
    hide EngineInv, FiredOk, VcpusOk, PassesConserved, GuestRam;
    RestartClean(false, s, s', mem, n);
    RestartedVcpus(w, s, s', mem, n);
    RestartedFired(s, s', mem, n);
    RestartedPasses(s, s', mem, n);
  }

  lemma RestartedVcpus(w: World, s: State, s': State, mem: Memory, n: nat)
    requires Restarted(s, s', mem, n)
    ensures VcpusOk(w, s') && s'.vcpus == Initial(mem, n).vcpus
  {
  }

  lemma RestartedFired(s: State, s': State, mem: Memory, n: nat)
    requires Restarted(s, s', mem, n) && FiredOk(s)
    ensures FiredOk(s')
  {
    hide TrapsAt;
    assert forall x: Trap :: s.freed[x] <= s'.freed[x];
  }

  lemma RestartedPasses(s: State, s': State, mem: Memory, n: nat)
    requires Restarted(s, s', mem, n) && PassesConserved(s)
    ensures PassesConserved(s') <==> Outstanding(s.vcpus) == multiset{}
  {
    hide TrapsAt, Issued;
    NothingOutstanding(s'.vcpus);
    hide Outstanding;
    if s.freedPasses == Issued(s.nextPass) {
      assert Outstanding(s.vcpus) + s.freedPasses == multiset{} + s.freedPasses;
      Cancel(Outstanding(s.vcpus), multiset{}, s.freedPasses);
    }
  }

  // ----- where the code as written is not transparent

  /** When the pass pending, if any, has no traps, as it never has in the code as written, an instruction
      in ORIGIN leaves the shadow pages right exactly when it does not change what a shadow page copies. */
  lemma PlainStoreIff(w: World, s: State, v: nat)
    requires RunInv(true, w, s) && GuestConfined(w, s.ram)
    requires v < |s.vcpus| && s.vcpus[v].view == Origin
    requires s.vcpus[v].callback.PostMemCallback? ==> s.vcpus[v].callback.pass.traps == []
    ensures EngineInv(true, OriginExec(w, s, v)) <==> StoreSafe(w, s, v)
  {
    hide IndexAgrees, MapsOk, ShadowOk, DoubleOk, TrapsConserved, FiredOk, GuestRam, PassesConserved;
    hide CpuStep, StepEvent, Stored, Neutral;
    var (mem, o) := CpuStep(w, v, s.mem, s.vcpus[v].hist);
    var s0 := Observe(s, v, o);
    var s2 := Observe(s.(mem := mem), v, o);
    assert VcpuOk(w, s, v);
    ObserveOk(true, w, s, v, o);
    ObserveFirst(s, v, o, mem);
    CpuStepStored(w, s, v);
    StepEventPlain(s2, v);
    var s' := OriginExec(w, s, v);
    assert s' == Resume(s2, v);
    ResumeIff(s2, v);
    if Stored(w, s, v).Some? {
      var (f, page) := Stored(w, s, v).value;
      StoredInRam(w, s, v);
      RamInMemory(true, s);
      if f in s.tables.remapped {
        OverwriteIff(s0, f, page);
        NeutralVcpus(s, s0, f, page);
      } else {
        OverwriteFree(true, s0, f, page);
      }
    }
  }

  lemma NeutralVcpus(s: State, s0: State, f: nat, page: Page)
    requires s0.mem == s.mem && s0.tables == s.tables && f in s.mem
    ensures Neutral(s0, f, page) <==> Neutral(s, f, page)
  {
  }

  lemma ResumeIff(s: State, v: nat)
    requires v < |s.vcpus|
    ensures EngineInv(true, Resume(s, v)) <==> EngineInv(true, s)
  {
    hide EngineInv;
    var s' := Resume(s, v);
    var mid := s.(vcpus := s'.vcpus);
    VcpusOnly(true, s, s'.vcpus);
    VcpusOnly(true, mid, s.vcpus);
    FreedOnly(true, mid, s'.freedPasses);
    FreedOnly(true, s', s.freedPasses);
    assert mid.(vcpus := s.vcpus) == s && s'.(freedPasses := s.freedPasses) == mid;
  }

  /** Going on without a shadow frame writes INT3 into the guest's own frame 0. */
  lemma MissingShadowWritesFrameZero(w: World, s: State, trap: Trap)
    requires MapsOk(s) && Gfn(trap.pa) in s.ram && 0 in s.ram && ShadowMissing(w, s, trap)
    requires ReadByte(s.mem, trap.pa) != Some(INT3)
    ensures GuestRam(InjectTrap(w, s, trap).0)[0] == GuestRam(s)[0][Off(trap.pa) := INT3]
  {
  }

  // ----- a run the code as written lets the guest tell apart

  lemma SomeFrame(used: set<nat>)
    ensures exists r: nat :: r != 0 && r !in used
  {
    var r := 1 + Sum(used);
    if r in used {
      InSum(used, r);
    }
  }

  ghost function Sum(used: set<nat>): nat {
    if used == {} then 0 else
      var x :| x in used;
      x + Sum(used - {x})
  }

  lemma InSum(used: set<nat>, r: nat)
    requires r in used
    ensures r <= Sum(used)
  {
  }

  ghost function FreshFrame(used: set<nat>): (r: nat)
    ensures r != 0 && r !in used
  {
    SomeFrame(used);
    var r: nat :| r != 0 && r !in used;
    r
  }

  /** A guest that stores 7 at address 2 with the instruction at 1, then executes the instruction at 2. */
  ghost function StoringGuest(): World {
    World((v: nat, h: History) => if h == [] then [1] else [2],
          (v: nat, h: History, b: seq<Byte>) => if h == [] then Store(2, 7) else NoAccess,
          (t: Trap, n: nat) => CbOutcome(0, 0),
          FreshFrame,
          false)
  }

  const STORING_RUN := [Syscall(0, false), Exec(0), Handle(0), Exec(0), Exec(0)]

  /** A page whose first three bytes are not INT3 and whose third is not the one to be stored. */
  predicate Ordinary(page: Page) {
    page[0] != INT3 && page[1] != INT3 && page[2] != INT3 && page[2] != 7
  }

  lemma StoringGuestOk()
    ensures GuestConfined(StoringGuest(), {0}) && EnvironmentOk(StoringGuest(), {0})
  {
  }

  /** Frame 0 holds `now`, and is trapped at address 0 and shadowed by frame r, a copy of `then0`. */
  ghost predicate Stage(s: State, r: nat, then0: Page, now: Page, c: Vcpu) {
    && s.ram == {0} && s.alt.Keys == {0} && s.alt[0] == r && s.armed == {0} && s.tables.memaccess == {0}
    && r != 0 && 0 in s.mem && r in s.mem
    && s.mem[0] == now && s.mem[r] == then0[0 := INT3]
    && s.vcpus == [c]
  }

  lemma StageTrap(mem: Memory, page: Page) returns (r: nat)
    requires mem.Keys == {0} && mem[0] == page && Ordinary(page)
    ensures Stage(Next(StoringGuest(), Initial(mem, 1), Syscall(0, false)), r, page, page,
                  Vcpu(Alt, false, SinglestepCallback, NoEvent, []))
  {
    var w, s := StoringGuest(), Initial(mem, 1);
    r := FreshFrame(s.mem.Keys + {0});
    var s0 := s.(nextId := s.nextId + 1);
    ShadowForNew(w, s0, 0);
    InjectFirst(w, s0, SyscallTrap(s, 0, false));
    PaParts(r, 0);
  }

  lemma StageFetch(s: State, r: nat, then0: Page, now: Page, pa: nat)
    requires s.vcpus != [] && Stage(s, r, then0, now, s.vcpus[0]) && 0 < pa < PAGESIZE
    ensures AltBytes(s, [pa]) == [then0[pa]] && BytesAt(s.mem, [pa]) == [now[pa]]
  {
  }

  lemma StageStore(s: State, r: nat, page: Page)
    requires Ordinary(page) && Stage(s, r, page, page, Vcpu(Alt, false, SinglestepCallback, NoEvent, []))
    ensures Stage(Next(StoringGuest(), s, Exec(0)), r, page, page,
                  Vcpu(Alt, false, SinglestepCallback, MemEvent(0, true), []))
    ensures NativeOf(StoringGuest(), s, Exec(0)) == []
  {
    StageFetch(s, r, page, page, 1);
  }

  lemma StageHandle(s: State, r: nat, page: Page)
    requires Stage(s, r, page, page, Vcpu(Alt, false, SinglestepCallback, MemEvent(0, true), []))
    ensures Stage(Next(StoringGuest(), s, Handle(0)), r, page, page,
                  Vcpu(Origin, true, PostMemCallback(MemPass(s.nextPass, 0, 0, [])), NoEvent, []))
    ensures NativeOf(StoringGuest(), s, Handle(0)) == []
  {
  }

  lemma StageStep(s: State, r: nat, page: Page, pass: MemPass)
    requires Ordinary(page) && pass.traps == []
    requires Stage(s, r, page, page, Vcpu(Origin, true, PostMemCallback(pass), NoEvent, []))
    ensures Stage(Next(StoringGuest(), s, Exec(0)), r, page, page[2 := 7],
                  Vcpu(Alt, false, SinglestepCallback, NoEvent, [Executed([page[1]], None)]))
    ensures NativeOf(StoringGuest(), s, Exec(0)) == [0]
  {
    StageFetch(s, r, page, page, 1);
    assert Gfn(2) == 0 && Off(2) == 2;
    var s2 := Observe(s.(mem := s.mem[0 := page[2 := 7]]), 0, Executed([page[1]], None));
    assert [] + [Executed([page[1]], None)] == [Executed([page[1]], None)];
    StepEventPlain(s2, 0);
  }

  lemma StageStale(s: State, r: nat, page: Page)
    requires Ordinary(page)
    requires Stage(s, r, page, page[2 := 7],
                   Vcpu(Alt, false, SinglestepCallback, NoEvent, [Executed([page[1]], None)]))
    ensures GuestView(Next(StoringGuest(), s, Exec(0))).hists ==
            [[Executed([page[1]], None), Executed([page[2]], None)]]
    ensures NativeOf(StoringGuest(), s, Exec(0)) == [0]
  {
    StageFetch(s, r, page, page[2 := 7], 2);
    var first, second := Executed([page[1]], None), Executed([page[2]], None);
    assert [first] + [second] == [first, second];
  }

  lemma StoringNatively(mem: Memory, page: Page)
    requires mem.Keys == {0} && mem[0] == page && Ordinary(page)
    ensures NativeRun(StoringGuest(), GuestView(Initial(mem, 1)), [0, 0]).hists ==
            [[Executed([page[1]], None), Executed([7], None)]]
  {
    var w := StoringGuest();
    InitialOk(true, w, mem, 1);
    var n := Native(mem, [[]]);
    assert GuestView(Initial(mem, 1)) == n;
    assert Gfn(1) == 0 && Off(1) == 1 && Gfn(2) == 0 && Off(2) == 2;
    assert BytesAt(n.mem, [1]) == [page[1]];
    var n1 := NativeStep(w, n, 0);
    var first, second := Executed([page[1]], None), Executed([7], None);
    assert [] + [first] == [first] && [first] + [second] == [first, second];
    assert n1.mem[0] == page[2 := 7] && n1.hists == [[Executed([page[1]], None)]];
    assert BytesAt(n1.mem, [2]) == [7];
    assert [0, 0][1..] == [0];
    RunOne(w, n1, 0);
  }

  /** With a trap at address 0, the store to its frame leaves the shadow page stale: the guest then
      executes the old byte at 2, where unmonitored it would execute the 7 it has just stored. */
  lemma StaleByteExecuted(mem: Memory, page: Page)
    requires mem.Keys == {0} && mem[0] == page && Ordinary(page)
    ensures GuestConfined(StoringGuest(), {0}) && EnvironmentOk(StoringGuest(), {0}) && !StoringGuest().fillTraps
    ensures AllSensible(StoringGuest(), Initial(mem, 1), STORING_RUN)
    ensures NativeSchedule(StoringGuest(), Initial(mem, 1), STORING_RUN) == [0, 0]
    ensures GuestView(Run(StoringGuest(), Initial(mem, 1), STORING_RUN)).hists ==
            [[Executed([page[1]], None), Executed([page[2]], None)]]
    ensures NativeRun(StoringGuest(), GuestView(Initial(mem, 1)), [0, 0]).hists ==
            [[Executed([page[1]], None), Executed([7], None)]]
  {
    hide Stage, Next, GuestView, NativeStep, GuestConfined, EnvironmentOk, Ordinary;
    var w, s := StoringGuest(), Initial(mem, 1);
    StoringGuestOk();
    var r := StageTrap(mem, page);
    var s1 := Next(w, s, Syscall(0, false));
    StageStore(s1, r, page);
    var s2 := Next(w, s1, Exec(0));
    StageHandle(s2, r, page);
    var s3 := Next(w, s2, Handle(0));
    StageStep(s3, r, page, MemPass(s2.nextPass, 0, 0, []));
    var s4 := Next(w, s3, Exec(0));
    StageStale(s4, r, page);
    StoringNatively(mem, page);
    UnrollRun(w, s, s1, s2, s3, s4);
  }

  lemma UnrollRun(w: World, s: State, s1: State, s2: State, s3: State, s4: State)
    requires s1 == Next(w, s, Syscall(0, false)) && s2 == Next(w, s1, Exec(0))
    requires s3 == Next(w, s2, Handle(0)) && s4 == Next(w, s3, Exec(0))
    ensures Run(w, s, STORING_RUN) == Next(w, s4, Exec(0))
    ensures NativeSchedule(w, s, STORING_RUN) ==
            NativeOf(w, s1, Exec(0)) + NativeOf(w, s2, Handle(0)) + NativeOf(w, s3, Exec(0)) + NativeOf(w, s4, Exec(0))
    ensures Sensible(s, Syscall(0, false)) ==> AllSensible(w, s, STORING_RUN)
  {
    hide Next, NativeOf, Run, NativeSchedule, AllSensible;
    var s5 := Next(w, s4, Exec(0));
    var l4 := [Exec(0)] + [];
    var l3 := [Exec(0)] + l4;
    var l2 := [Handle(0)] + l3;
    var l1 := [Exec(0)] + l2;
    assert STORING_RUN == [Syscall(0, false)] + l1;
    Unroll(w, s, Syscall(0, false), l1);
    Unroll(w, s1, Exec(0), l2);
    Unroll(w, s2, Handle(0), l3);
    Unroll(w, s3, Exec(0), l4);
    Unroll(w, s4, Exec(0), []);
    UnrollNone(w, s5);
    var n1, n2 := NativeOf(w, s1, Exec(0)), NativeOf(w, s2, Handle(0));
    var n3, n4 := NativeOf(w, s3, Exec(0)), NativeOf(w, s4, Exec(0));
    assert NativeOf(w, s, Syscall(0, false)) == [] by {
      UnrollNone(w, s);
    }
    assert [] + (n1 + (n2 + (n3 + (n4 + [])))) == n1 + n2 + n3 + n4;
  }

  lemma UnrollNone(w: World, s: State)
    ensures Run(w, s, []) == s && NativeSchedule(w, s, []) == [] && AllSensible(w, s, [])
    ensures NativeOf(w, s, Syscall(0, false)) == []
  {
  }

  lemma Unroll(w: World, s: State, l: Label, ls: seq<Label>)
    ensures Run(w, s, [l] + ls) == Run(w, Next(w, s, l), ls)
    ensures NativeSchedule(w, s, [l] + ls) == NativeOf(w, s, l) + NativeSchedule(w, Next(w, s, l), ls)
    ensures AllSensible(w, s, [l] + ls) <==> Sensible(s, l) && AllSensible(w, Next(w, s, l), ls)
  {
  }
}
