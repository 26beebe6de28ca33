/** A guest running on plain memory, and the same guest running under the engine. */
module GuestMachine {
  import opened Wrappers
  import opened GuestMemory
  import opened TrapManager
  import opened Engine
  import opened EngineInvariants
  import opened Recopying

  function ByteAt(mem: Memory, pa: nat): Byte {
    if Gfn(pa) in mem then mem[Gfn(pa)][Off(pa)] else 0
  }

  function BytesAt(mem: Memory, pas: seq<nat>): (bytes: seq<Byte>)
    ensures |bytes| == |pas| && forall k | 0 <= k < |pas| :: bytes[k] == ByteAt(mem, pas[k])
  {
    seq(|pas|, k requires 0 <= k < |pas| => ByteAt(mem, pas[k]))
  }

  // ----- the unmonitored guest

  datatype Native = Native(mem: Memory, hists: seq<History>)

  /** One instruction on plain memory: INT3 raises the breakpoint exception, anything else makes at
      most one data access. */
  function CpuStep(w: World, v: nat, mem: Memory, hist: History): (Memory, Observation) {
    var bytes := BytesAt(mem, w.fetch(v, hist));
    if bytes != [] && bytes[0] == INT3 then (mem, Breakpoint)
    else
      match w.access(v, hist, bytes)
      case NoAccess => (mem, Executed(bytes, None))
      case Load(pa) => (mem, Executed(bytes, Some(ByteAt(mem, pa))))
      case Store(pa, b) => (WriteByte(mem, pa, b), Executed(bytes, None))
  }

  function NativeStep(w: World, n: Native, v: nat): (n': Native)
    ensures |n'.hists| == |n.hists|
  {
    if v >= |n.hists| then n
    else
      var (mem, o) := CpuStep(w, v, n.mem, n.hists[v]);
      Native(mem, n.hists[v := n.hists[v] + [o]])
  }

  function NativeRun(w: World, n: Native, vs: seq<nat>): Native
    decreases |vs|
  {
    if vs == [] then n else NativeRun(w, NativeStep(w, n, vs[0]), vs[1..])
  }

  // ----- the monitored guest

  /** An address as the ALT view translates it. */
  function Through(alt: map<nat, nat>, pa: nat): nat {
    if Gfn(pa) in alt then Pa(alt[Gfn(pa)], Off(pa)) else pa
  }

  function AltByte(s: State, pa: nat): Byte {
    ByteAt(s.mem, Through(s.alt, pa))
  }

  function AltBytes(s: State, pas: seq<nat>): (bytes: seq<Byte>)
    ensures |bytes| == |pas| && forall k | 0 <= k < |pas| :: bytes[k] == AltByte(s, pas[k])
  {
    seq(|pas|, k requires 0 <= k < |pas| => AltByte(s, pas[k]))
  }

  function SetVcpu(s: State, v: nat, c: Vcpu): State
    requires v < |s.vcpus|
  {
    s.(vcpus := s.vcpus[v := c])
  }

  function Observe(s: State, v: nat, o: Observation): State
    requires v < |s.vcpus|
  {
    SetVcpu(s, v, s.vcpus[v].(hist := s.vcpus[v].hist + [o]))
  }

  function Raise(s: State, v: nat, e: Event): State
    requires v < |s.vcpus|
  {
    SetVcpu(s, v, s.vcpus[v].(pending := e))
  }

  /** In the ALT view an INT3 byte raises an event instead of the exception, and so does a data
      access to an armed frame, before it has any effect. */
  function AltExec(w: World, s: State, v: nat): State
    requires v < |s.vcpus|
  {
    var hist := s.vcpus[v].hist;
    var pas := w.fetch(v, hist);
    var bytes := AltBytes(s, pas);
    if bytes != [] && bytes[0] == INT3 then Raise(s, v, Int3Event(pas[0]))
    else
      match w.access(v, hist, bytes)
      case NoAccess => Observe(s, v, Executed(bytes, None))
      case Load(pa) =>
        if Gfn(pa) in s.armed then Raise(s, v, MemEvent(Gfn(pa), false))
        else Observe(s, v, Executed(bytes, Some(AltByte(s, pa))))
      case Store(pa, b) =>
        if Gfn(pa) in s.armed then Raise(s, v, MemEvent(Gfn(pa), true))
        else Observe(s.(mem := WriteByte(s.mem, Through(s.alt, pa), b)), v, Executed(bytes, None))
  }

  /** The single-step event after an instruction in the ORIGIN view. */
  function StepEvent(s: State, v: nat): State
    requires v < |s.vcpus|
  {
    match s.vcpus[v].callback
    case SinglestepCallback =>
      var (s1, rsp) := SinglestepCb(s);
      SetVcpu(s1, v, Respond(s1.vcpus[v], rsp))
    case PostMemCallback(pass) =>
      if forall t | t in pass.traps :: t.pa in s.tables.breakpoint then
        var (s1, rsp) := PostMemCb(s, v, pass);
        SetVcpu(s1, v, Respond(s1.vcpus[v], rsp))
      else s.(interrupted := true)
  }

  function OriginExec(w: World, s: State, v: nat): State
    requires v < |s.vcpus|
  {
    var (mem, o) := CpuStep(w, v, s.mem, s.vcpus[v].hist);
    var s1 := Observe(s.(mem := mem), v, o);
    if s1.vcpus[v].singleStep then StepEvent(s1, v) else s1
  }

  /** Scheduling choices: a vCPU tries its next instruction, one of its events is handled, or a
      system call is trapped. */
  datatype Label = Exec(v: nat) | Handle(v: nat) | Syscall(pa: nat, hasRet: bool)

  function HandleEvent(w: World, s: State, v: nat): (r: State)
    requires v < |s.vcpus|
    ensures |r.vcpus| == |s.vcpus|
  {
    match s.vcpus[v].pending
    case NoEvent => s
    case Int3Event(pa) =>
      var (s1, rsp) := Int3Cb(w, s, v, pa);
      SetVcpu(s1, v, Respond(s1.vcpus[v], rsp))
    case MemEvent(gfn, write) =>
      var (s1, rsp) := PreMemCb(w, s, v, gfn, write);
      SetVcpu(s1, v, Respond(s1.vcpus[v], rsp))
  }

  function SyscallTrap(s: State, pa: nat, hasRet: bool): Trap {
    Trap(s.nextId, pa, true, hasRet, false, 0)
  }

  function Next(w: World, s: State, l: Label): State {
    match l
    case Exec(v) =>
      if v >= |s.vcpus| || s.vcpus[v].pending != NoEvent then s
      else if s.vcpus[v].view == Alt then AltExec(w, s, v)
      else OriginExec(w, s, v)
    case Handle(v) => if v < |s.vcpus| then HandleEvent(w, s, v) else s
    case Syscall(pa, hasRet) => InjectTrap(w, s.(nextId := s.nextId + 1), SyscallTrap(s, pa, hasRet)).0
  }

  function Run(w: World, s: State, ls: seq<Label>): State
    decreases |ls|
  {
    if ls == [] then s else Run(w, Next(w, s, ls[0]), ls[1..])
  }

  // ----- which native step a monitored step is, if any

  predicate Executes(w: World, s: State, v: nat)
    requires v < |s.vcpus|
  {
    var hist := s.vcpus[v].hist;
    var bytes := AltBytes(s, w.fetch(v, hist));
    !(bytes != [] && bytes[0] == INT3) &&
    match w.access(v, hist, bytes)
    case NoAccess => true
    case Load(pa) => Gfn(pa) !in s.armed
    case Store(pa, _) => Gfn(pa) !in s.armed
  }

  /** The vCPUs that take a native step: an instruction carried out, or an exception reinjected. */
  function NativeOf(w: World, s: State, l: Label): seq<nat> {
    match l
    case Exec(v) =>
      if v >= |s.vcpus| || s.vcpus[v].pending != NoEvent then []
      else if s.vcpus[v].view == Origin || Executes(w, s, v) then [v] else []
    case Handle(v) =>
      if v < |s.vcpus| && s.vcpus[v].pending.Int3Event? && Int3Cb(w, s, v, s.vcpus[v].pending.pa).1.reinject
      then [v] else []
    case Syscall(_, _) => []
  }

  function NativeSchedule(w: World, s: State, ls: seq<Label>): seq<nat>
    decreases |ls|
  {
    if ls == [] then [] else NativeOf(w, s, ls[0]) + NativeSchedule(w, Next(w, s, ls[0]), ls[1..])
  }

  /** What the guest can tell of a monitored state: its own memory and what its vCPUs experienced. */
  function GuestView(s: State): Native {
    Native(GuestRam(s), seq(|s.vcpus|, i requires 0 <= i < |s.vcpus| => s.vcpus[i].hist))
  }

  // ----- conditions

  /** The guest fetches at least one byte and touches only its own frames. */
  ghost predicate GuestConfined(w: World, ram: set<nat>) {
    && (forall v: nat, h: History :: w.fetch(v, h) != [] && forall pa | pa in w.fetch(v, h) :: Gfn(pa) in ram)
    && (forall v: nat, h: History, b: seq<Byte> ::
          match w.access(v, h, b)
          case NoAccess => true
          case Load(pa) => Gfn(pa) in ram
          case Store(pa, _) => Gfn(pa) in ram)
  }

  /** No byte after the first of the instruction is under a breakpoint that hides another byte. */
  ghost predicate CleanFetch(s: State, pas: seq<nat>) {
    forall k | 1 <= k < |pas| :: pas[k] in s.tables.breakpoint ==> ByteAt(s.mem, pas[k]) == INT3
  }

  ghost predicate FetchSafe(s: State, pas: seq<nat>) {
    pas != [] && (AltByte(s, pas[0]) == INT3 || CleanFetch(s, pas))
  }

  /** The frame the instruction stores to and the page it leaves there, if it stores. */
  function Stored(w: World, s: State, v: nat): Option<(nat, Page)>
    requires v < |s.vcpus|
  {
    var hist := s.vcpus[v].hist;
    var bytes := BytesAt(s.mem, w.fetch(v, hist));
    if bytes != [] && bytes[0] == INT3 then None
    else
      match w.access(v, hist, bytes)
      case Store(pa, b) => if Gfn(pa) in s.mem then Some((Gfn(pa), s.mem[Gfn(pa)][Off(pa) := b])) else None
      case _ => None
  }

  function PageAfter(s: State, st: Option<(nat, Page)>, f: nat): Page
    requires f in s.mem
  {
    if st.Some? && st.value.0 == f then st.value.1 else s.mem[f]
  }

  /** An instruction in the ORIGIN view leaves the shadow pages right: a store to a remapped frame is
      neutral, or the pass that is pending re-applies traps that cover the frame. */
  ghost predicate StoreSafe(w: World, s: State, v: nat)
    requires v < |s.vcpus|
  {
    var st := Stored(w, s, v);
    var pass := s.vcpus[v].callback;
    if pass.PostMemCallback? && pass.pass.traps != [] then
      && PassReady(s, pass.pass)
      && pass.pass.o in s.mem
      && Covers(s, pass.pass.o, PageAfter(s, st, pass.pass.o), PasOf(pass.pass.traps))
      && (st.Some? && st.value.0 in s.tables.remapped && st.value.0 != pass.pass.o ==>
            st.value.0 in s.mem && Neutral(s, st.value.0, st.value.1))
    else
      st.Some? && st.value.0 in s.tables.remapped ==> st.value.0 in s.mem && Neutral(s, st.value.0, st.value.1)
  }

  /** The two things a run must not do: execute through a breakpoint in the middle of an
      instruction, and change what a shadow page copies without the recopy covering it. */
  ghost predicate Enabled(w: World, s: State, l: Label) {
    match l
    case Exec(v) =>
      && v < |s.vcpus| && s.vcpus[v].pending == NoEvent
      && (s.vcpus[v].view == Alt ==> FetchSafe(s, w.fetch(v, s.vcpus[v].hist)))
      && (s.vcpus[v].view == Origin ==> StoreSafe(w, s, v))
    case Handle(v) => v < |s.vcpus| && s.vcpus[v].pending != NoEvent
    case Syscall(pa, _) => Gfn(pa) in s.ram || Gfn(pa) !in s.mem
  }

  ghost predicate AllEnabled(w: World, s: State, ls: seq<Label>)
    decreases |ls|
  {
    ls != [] ==> Enabled(w, s, ls[0]) && AllEnabled(w, Next(w, s, ls[0]), ls[1..])
  }
}
