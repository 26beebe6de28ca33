/** How often a vCPU tries an instruction in vain because its trap went away between the breakpoint and
    the handling of its event. */
module Retries {
  import opened Wrappers
  import opened GuestMemory
  import opened TrapManager
  import opened Engine
  import opened EngineInvariants
  import opened Dispatching
  import opened GuestMachine
  import opened Transparency
  import opened EngineLimits

  /** The vCPU's event will find no trap and no INT3 of the guest's own: it will be told to try again. */
  predicate InVain(s: State, v: nat) {
    v < |s.vcpus| && s.vcpus[v].pending.Int3Event?
    && TrapsAt(s.tables, s.vcpus[v].pending.pa) == [] && ByteAt(s.mem, s.vcpus[v].pending.pa) != INT3
  }

  function Owed(s: State, v: nat): nat {
    if InVain(s, v) then 1 else 0
  }

  function Tries(s: State, l: Label, v: nat): nat {
    if l == Handle(v) && InVain(s, v) then 1 else 0
  }

  /** How often in a run the vCPU is told to try again. */
  function RetriesOf(w: World, s: State, ls: seq<Label>, v: nat): nat
    decreases |ls|
  {
    if ls == [] then 0 else Tries(s, ls[0], v) + RetriesOf(w, Next(w, s, ls[0]), ls[1..], v)
  }

  /** The native steps of other vCPUs. */
  function Others(vs: seq<nat>, v: nat): nat {
    if vs == [] then 0 else (if vs[0] == v then 0 else 1) + Others(vs[1..], v)
  }

  lemma {:induction false} OthersConcat(a: seq<nat>, b: seq<nat>, v: nat)
    ensures Others(a + b, v) == Others(a, v) + Others(b, v)
  {
    if a == [] {
      assert a + b == b;
    } else {
      assert (a + b)[1..] == a[1..] + b;
      OthersConcat(a[1..], b, v);
    }
  }

  // ----- freeing only grows

  lemma VisitFrees(w: World, s: State, t: Trap)
    ensures s.freed <= Visit(w, s, t).freed && s.injected <= Visit(w, s, t).injected
  {
    hide InjectTrap, DropTrap, RemoveInt3, DestroyTrap, TrapsAt;
    if Returns(w, s, t) {
      InjectLists(w, AfterCallback(s, t), ReturnTrap(s.nextId, w.outcome(t, |s.fired|)));
    }
    DestroyFrees(RunCallback(w, s, t), t);
  }

  lemma DestroyFrees(s: State, t: Trap)
    ensures s.freed <= DestroyTrap(s, t).freed && DestroyTrap(s, t).injected == s.injected
  {
  }

  lemma {:induction false} DispatchFrees(w: World, s: State, todo: seq<Trap>)
    ensures s.freed <= Dispatch(w, s, todo).freed && s.injected <= Dispatch(w, s, todo).injected
    decreases Weight(todo)
  {
    hide Visit, Remaining;
    if todo != [] {
      VisitFrees(w, s, todo[0]);
      DispatchFrees(w, Visit(w, s, todo[0]), Remaining(w, s, todo));
    }
  }

  lemma MoreFreed(a: multiset<Trap>, b: multiset<Trap>)
    requires a <= b
    ensures |a| <= |b|
    ensures a != b ==> |a| < |b|
  {
    assert b == a + (b - a);
  }

  /** An address that loses all its traps has one of them freed. */
  lemma LastFreed(s: State, s': State, pa: nat)
    requires IndexAgrees(s.tables) && TrapsConserved(s) && TrapsConserved(s')
    requires s.freed <= s'.freed && s.injected <= s'.injected
    requires TrapsAt(s.tables, pa) != [] && TrapsAt(s'.tables, pa) == []
    ensures |s.freed| < |s'.freed|
  {
    var t := TrapsAt(s.tables, pa)[0];
    assert t in TrapsAt(s.tables, pa) && t.pa == pa;
    assert t in multiset(TrapsAt(s.tables, pa));
    assert Count(s.tables, t) >= 1 && Count(s'.tables, t) == 0;
    assert Count(s.tables, t) + s.freed[t] == if t in s.injected then 1 else 0;
    assert Count(s'.tables, t) + s'.freed[t] == if t in s'.injected then 1 else 0;
    MoreFreed(s.freed, s'.freed);
  }

  // ----- one step

  ghost predicate StepBounded(w: World, s: State, l: Label, v: nat) {
    var s' := Next(w, s, l);
    Tries(s, l, v) + Owed(s', v) + |s.freed| <= Owed(s, v) + |s'.freed| + Others(NativeOf(w, s, l), v)
  }

  /** All that a bound needs to know of a step by which no other vCPU's event changes. */
  ghost predicate OnlyEvent(s: State, s': State, u: nat) {
    && |s'.vcpus| == |s.vcpus| && u < |s.vcpus|
    && forall x: nat | x < |s.vcpus| && x != u :: s'.vcpus[x] == s.vcpus[x]
  }

  lemma {:induction false} ReapplyFreesNone(s: State, r: nat, traps: seq<Trap>)
    requires forall t | t in traps :: t.pa in s.tables.breakpoint
    ensures ReapplyAll(s, r, traps).0.freed == s.freed
    decreases |traps|
  {
    if traps != [] {
      match ReadByte(s.mem, traps[0].pa)
      case None =>
      case Some(b) => ReapplyFreesNone(Reapply(s, r, traps[0].pa, b), r, traps[1..]);
    }
  }

  lemma StepEventFreesNone(s: State, v: nat)
    requires v < |s.vcpus|
    ensures StepEvent(s, v).freed == s.freed
    ensures s.vcpus[v].pending == NoEvent ==> StepEvent(s, v).vcpus[v].pending == NoEvent
    ensures OnlyEvent(s, StepEvent(s, v), v)
  {
    hide ReapplyAll;
    var cb := s.vcpus[v].callback;
    if cb.PostMemCallback? && cb.pass.traps != [] && cb.pass.o in s.mem && cb.pass.r in s.mem
       && forall t | t in cb.pass.traps :: t.pa in s.tables.breakpoint {
      ReapplyFreesNone(s.(mem := s.mem[cb.pass.r := s.mem[cb.pass.o]]), cb.pass.r, cb.pass.traps);
    }
  }

  lemma OriginFreesNone(w: World, s: State, v: nat)
    requires v < |s.vcpus| && s.vcpus[v].pending == NoEvent
    ensures OriginExec(w, s, v).freed == s.freed && OriginExec(w, s, v).vcpus[v].pending == NoEvent
  {
    hide StepEvent, CpuStep;
    var (mem, o) := CpuStep(w, v, s.mem, s.vcpus[v].hist);
    StepEventFreesNone(Observe(s.(mem := mem), v, o), v);
  }

  lemma AltFreesNone(w: World, s: State, v: nat)
    requires v < |s.vcpus| && s.vcpus[v].pending == NoEvent
    ensures AltExec(w, s, v).freed == s.freed
    ensures Executes(w, s, v) ==> AltExec(w, s, v).vcpus[v].pending == NoEvent
  {
    hide AltBytes, WriteByte, Through, AltByte;
  }

  lemma ExecBounded(w: World, s: State, u: nat, v: nat)
    requires RunInv(true, w, s) && GuestConfined(w, s.ram)
    requires u < |s.vcpus| && s.vcpus[u].pending == NoEvent
    ensures StepBounded(w, s, Exec(u), v)
  {
    hide EngineInv, FiredOk, PassesConserved, AltExec, OriginExec, Executes;
    if s.vcpus[u].view == Origin {
      OriginFreesNone(w, s, u);
    } else {
      AltFreesNone(w, s, u);
      if !Executes(w, s, u) {
        RaisedEvent(w, s, u);
        var e := AltExec(w, s, u).vcpus[u].pending;
        if u == v && e.Int3Event? {
          Int3Cause(s, e.pa);
        }
      }
    }
  }

  /** An event that finds no trap, or is a memory event, changes no trap and no byte. */
  lemma UntrappedHandled(w: World, s: State, u: nat)
    requires u < |s.vcpus|
    requires s.vcpus[u].pending.Int3Event? ==> TrapsAt(s.tables, s.vcpus[u].pending.pa) == []
    ensures var s' := HandleEvent(w, s, u);
            && s'.tables == s.tables && s'.mem == s.mem && s'.freed == s.freed
            && OnlyEvent(s, s', u) && s'.vcpus[u].pending == NoEvent
  {
  }

  lemma TrappedHandled(w: World, s: State, u: nat)
    requires u < |s.vcpus| && s.vcpus[u].pending.Int3Event?
    requires TrapsAt(s.tables, s.vcpus[u].pending.pa) != []
    ensures var s1, s' := Dispatch(w, s, TrapsAt(s.tables, s.vcpus[u].pending.pa)), HandleEvent(w, s, u);
            && s'.tables == s1.tables && s'.mem == s1.mem && s'.freed == s1.freed
            && OnlyEvent(s, s', u) && s'.vcpus[u].pending == NoEvent
  {
    hide Dispatch;
  }

  lemma HandleBounded(w: World, s: State, u: nat, v: nat)
    requires RunInv(true, w, s) && GuestConfined(w, s.ram) && EnvironmentOk(w, s.ram) && u < |s.vcpus|
    ensures StepBounded(w, s, Handle(u), v)
  {
    hide RunInv, GuestConfined, EnvironmentOk, HandleEvent, TrapsAt, ByteAt;
    if s.vcpus[u].pending.Int3Event? && TrapsAt(s.tables, s.vcpus[u].pending.pa) != [] {
      TrappedHandled(w, s, u);
      TrappedKeeps(w, s, u, v);
    } else {
      UntrappedHandled(w, s, u);
    }
  }

  /** Dispatching for one vCPU lets another's event go in vain only by freeing the traps at its
      address. */
  lemma TrappedKeeps(w: World, s: State, u: nat, v: nat)
    requires RunInv(true, w, s) && GuestConfined(w, s.ram) && EnvironmentOk(w, s.ram) && u < |s.vcpus|
    requires s.vcpus[u].pending.Int3Event? && TrapsAt(s.tables, s.vcpus[u].pending.pa) != []
    ensures var s1 := Dispatch(w, s, TrapsAt(s.tables, s.vcpus[u].pending.pa));
            && |s.freed| <= |s1.freed|
            && (v < |s.vcpus| && s.vcpus[v].pending.Int3Event? ==>
                  var pa := s.vcpus[v].pending.pa;
                  && ByteAt(s1.mem, pa) == ByteAt(s.mem, pa)
                  && (TrapsAt(s.tables, pa) != [] && TrapsAt(s1.tables, pa) == [] ==> |s.freed| < |s1.freed|))
  {
    hide FiredOk, PassesConserved, Dispatch, EnvironmentOk, MapsOk, ShadowOk, DoubleOk, IndexAgrees, TrapsAt;
    hide TrapsConserved;
    var todo := TrapsAt(s.tables, s.vcpus[u].pending.pa);
    var s1 := Dispatch(w, s, todo);
    assert [] + todo == todo;
    var extra := DispatchAll(true, w, s, s.vcpus[u].pending.pa, [], todo);
    DispatchFrees(w, s, todo);
    MoreFreed(s.freed, s1.freed);
    if v < |s.vcpus| && s.vcpus[v].pending.Int3Event? {
      var pa := s.vcpus[v].pending.pa;
      assert VcpuOk(w, s, v);
      SameByte(s, s1, pa);
      if TrapsAt(s.tables, pa) != [] && TrapsAt(s1.tables, pa) == [] {
        LastFreed(s, s1, pa);
      }
    }
  }

  /** The guest's own bytes are those of its memory. */
  lemma SameByte(s: State, s': State, pa: nat)
    requires GuestUntouched(s, s') && EngineInv(true, s) && EngineInv(true, s') && Gfn(pa) in s.ram
    ensures ByteAt(s'.mem, pa) == ByteAt(s.mem, pa)
  {
    hide ShadowOk, DoubleOk, IndexAgrees, TrapsConserved;
    assert GuestRam(s)[Gfn(pa)] == GuestRam(s')[Gfn(pa)];
  }

  lemma SyscallBounded(w: World, s: State, pa: nat, hasRet: bool, v: nat)
    requires RunInv(true, w, s) && GuestConfined(w, s.ram) && EnvironmentOk(w, s.ram)
    requires Gfn(pa) in s.ram || Gfn(pa) !in s.mem
    ensures StepBounded(w, s, Syscall(pa, hasRet), v)
  {
    hide EngineInv, FiredOk, PassesConserved, InjectTrap, EnvironmentOk, TrapsAt, GuestRam;
    var s0 := s.(nextId := s.nextId + 1);
    var trap := SyscallTrap(s, pa, hasRet);
    BookkeepingKeepsInv(true, s, s.fired, s.nextId + 1);
    assert s0 == s.(fired := s.fired, nextId := s.nextId + 1);
    SyscallInject(true, w, s, pa, hasRet);
    InjectLists(w, s0, trap);
    var s' := InjectTrap(w, s0, trap).0;
    if v < |s.vcpus| && s.vcpus[v].pending.Int3Event? {
      assert VcpuOk(w, s, v);
      SameByte(s0, s', s.vcpus[v].pending.pa);
    }
  }

  // ----- whole runs

  /** A vCPU is told to try again at most once for each trap freed meanwhile and each native step other
      vCPUs take: it retries only while the rest of the machine gets on. */
  lemma {:induction false} RetriesBounded(w: World, s: State, ls: seq<Label>, v: nat)
    requires RunInv(true, w, s) && GuestConfined(w, s.ram) && EnvironmentOk(w, s.ram) && AllEnabled(w, s, ls)
    ensures RetriesOf(w, s, ls, v) + |s.freed| <=
            Owed(s, v) + |Run(w, s, ls).freed| + Others(NativeSchedule(w, s, ls), v)
    decreases |ls|
  {
    if ls != [] {
      hide RunInv, GuestConfined, EnvironmentOk, Next, NativeOf, Owed, Tries;
      var l, s1 := ls[0], Next(w, s, ls[0]);
      StepIsBounded(w, s, l, v);
      EnabledIsSensible(w, s, l);
      StepSimulates(true, w, s, l);
      RetriesBounded(w, s1, ls[1..], v);
      OthersConcat(NativeOf(w, s, l), NativeSchedule(w, s1, ls[1..]), v);
    }
  }

  lemma StepIsBounded(w: World, s: State, l: Label, v: nat)
    requires RunInv(true, w, s) && GuestConfined(w, s.ram) && EnvironmentOk(w, s.ram) && Enabled(w, s, l)
    ensures StepBounded(w, s, l, v)
  {
    hide RunInv, GuestConfined, EnvironmentOk, StepBounded, FetchSafe, StoreSafe;
    match l {
      case Exec(u) => ExecBounded(w, s, u, v);
      case Handle(u) => HandleBounded(w, s, u, v);
      case Syscall(pa, hasRet) => SyscallBounded(w, s, pa, hasRet, v);
    }
  }

  /** Only the machine's own vCPUs take native steps. */
  lemma {:induction false} NativeInside(w: World, s: State, ls: seq<Label>)
    ensures forall u | u in NativeSchedule(w, s, ls) :: u < |s.vcpus|
    decreases |ls|
  {
    if ls != [] {
      NextVcpus(w, s, ls[0]);
      hide Next, NativeOf;
      NativeInside(w, Next(w, s, ls[0]), ls[1..]);
    }
  }

  lemma NextVcpus(w: World, s: State, l: Label)
    ensures |Next(w, s, l).vcpus| == |s.vcpus| && forall u | u in NativeOf(w, s, l) :: u < |s.vcpus|
  {
    hide CpuStep, Executes, AltBytes, InjectTrap, Int3Cb, PreMemCb, StepEvent;
    match l
    case Exec(v) => if v < |s.vcpus| && s.vcpus[v].pending == NoEvent && s.vcpus[v].view == Origin {
      var (mem, o) := CpuStep(w, v, s.mem, s.vcpus[v].hist);
      StepEventFreesNone(Observe(s.(mem := mem), v, o), v);
    }
    case Handle(v) =>
    case Syscall(pa, hasRet) =>
  }

  lemma {:induction false} AloneNone(vs: seq<nat>)
    requires forall u | u in vs :: u < 1
    ensures Others(vs, 0) == 0
  {
    if vs != [] {
      assert vs[0] in vs && forall u | u in vs[1..] :: u in vs;
      AloneNone(vs[1..]);
    }
  }

  /** From the start of monitoring; on a machine with one vCPU, it retries at most once for each trap
      freed. */
  lemma RetriesFromStart(w: World, mem: Memory, n: nat, ls: seq<Label>, v: nat)
    requires GuestConfined(w, mem.Keys) && EnvironmentOk(w, mem.Keys) && AllEnabled(w, Initial(mem, n), ls)
    ensures RetriesOf(w, Initial(mem, n), ls, v) <=
            |Run(w, Initial(mem, n), ls).freed| + Others(NativeSchedule(w, Initial(mem, n), ls), v)
    ensures n == 1 && v == 0 ==> RetriesOf(w, Initial(mem, n), ls, v) <= |Run(w, Initial(mem, n), ls).freed|
  {
    hide RunInv, AllEnabled, NativeSchedule, Run, RetriesOf, Others, GuestConfined, EnvironmentOk;
    InitialOk(true, w, mem, n);
    NativeInside(w, Initial(mem, n), ls);
    if n == 1 {
      AloneNone(NativeSchedule(w, Initial(mem, n), ls));
    }
    hide RunInv, AllEnabled, NativeSchedule, Run, RetriesOf, Others;
    RetriesBounded(w, Initial(mem, n), ls, v);
  }
}
