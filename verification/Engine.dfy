/** The hidden-breakpoint engine as a state and the functions that say what each callback does to it. */
module Engine {
  import opened Wrappers
  import opened GuestMemory
  import opened TrapManager

  // ----- guest and environment

  /** What a vCPU has experienced: a breakpoint exception, or one executed instruction with the
      bytes fetched and the byte loaded, if any. */
  datatype Observation = Breakpoint | Executed(bytes: seq<Byte>, loaded: Option<Byte>)

  type History = seq<Observation>

  datatype Access = NoAccess | Load(pa: nat) | Store(pa: nat, b: Byte)

  /** What a monitor callback returns (`extra` 0 is a null pointer) and where the function it
      trapped will return to. */
  datatype CbOutcome = CbOutcome(extra: nat, retPa: nat)

  /** Everything the engine does not decide. A vCPU's next instruction is any function of what it
      has experienced; a callback's outcome is any function of the trap and of the number of
      callbacks run so far; the shadow allocator is any function of the frames in use, 0 meaning
      failure. `fillTraps` is true when the assignment of `pass->traps` in `_pre_mem_cb`, which the
      code has commented out, is made. */
  datatype World = World(
    fetch: (nat, History) -> seq<nat>,
    access: (nat, History, seq<Byte>) -> Access,
    outcome: (Trap, nat) -> CbOutcome,
    alloc: set<nat> -> nat,
    fillTraps: bool)

  // ----- engine state

  datatype View = Origin | Alt

  /** The data handed from `_pre_mem_cb` to `_post_mem_cb`; `o` and `r` are the remapped pair. */
  datatype MemPass = MemPass(id: nat, o: nat, r: nat, traps: seq<Trap>)

  datatype StepCallback = SinglestepCallback | PostMemCallback(pass: MemPass)

  /** An event the hardware has raised and the engine has not handled yet. */
  datatype Event = NoEvent | Int3Event(pa: nat) | MemEvent(gfn: nat, write: bool)

  datatype Vcpu = Vcpu(view: View, singleStep: bool, callback: StepCallback, pending: Event, hist: History)

  /** `ram` is the guest's own frames; `mem` also holds the shadow frames. `alt` is the ALT view's
      map, identity where absent, and `armed` the frames whose data accesses trap in ALT.
      `injected`, `freed` and `fired` record trap life cycles, `freedPasses` those of passes. */
  datatype State = State(
    ram: set<nat>,
    mem: Memory,
    tables: Tables,
    alt: map<nat, nat>,
    armed: set<nat>,
    vcpus: seq<Vcpu>,
    nextId: nat,
    injected: set<Trap>,
    freed: multiset<Trap>,
    fired: seq<Trap>,
    nextPass: nat,
    freedPasses: multiset<nat>,
    interrupted: bool)

  /** An event response: whether the exception is reinjected, whether single-stepping is toggled,
      and the view to switch to, if any. */
  datatype Response = Response(reinject: bool, toggle: bool, view: Option<View>)

  function Respond(c: Vcpu, rsp: Response): Vcpu {
    c.(view := match rsp.view case Some(v) => v case None => c.view,
       singleStep := if rsp.toggle then !c.singleStep else c.singleStep,
       pending := NoEvent,
       hist := if rsp.reinject then c.hist + [Breakpoint] else c.hist)
  }

  // ----- injecting and removing traps

  /** Allocates a frame, points the ALT view at it, then copies the original page. A failure after
      the view change leaves the change in place and returns 0. */
  function CreateShadowPage(w: World, s: State, frame: nat): (State, nat) {
    var r := w.alloc(s.mem.Keys + {frame});
    if r == 0 then (s, 0)
    else
      var s1 := s.(mem := s.mem[r := ZERO_PAGE], alt := s.alt[frame := r]);
      if frame !in s.mem then (s1, 0) else (s1.(mem := s1.mem[r := s.mem[frame]]), r)
  }

  function Register(s: State, trap: Trap): State {
    s.(tables := AddTrap(s.tables, trap), injected := s.injected + {trap})
  }

  /** The frame's shadow frame: the one on record, or a new one that is recorded unless creating it
      failed, in which case the result is 0 and is used all the same. */
  function ShadowFor(w: World, s: State, frame: nat): (State, nat) {
    if frame in s.tables.remapped then (s, s.tables.remapped[frame])
    else
      var (s1, r) := CreateShadowPage(w, s, frame);
      (if r == 0 then s1 else s1.(tables := s1.tables.(remapped := s1.tables.remapped[frame := r])), r)
  }

  function Arm(s: State, frame: nat): State {
    s.(tables := s.tables.(memaccess := s.tables.memaccess + {frame}), armed := s.armed + {frame})
  }

  /** Writes INT3 over the shadow byte, unless the original is INT3 already, and registers the trap. */
  function PlaceTrap(s: State, trap: Trap, r: nat): (res: (State, bool))
    ensures res.0.vcpus == s.vcpus && res.0.ram == s.ram
  {
    match ReadByte(s.mem, trap.pa)
    case None => (s, false)
    case Some(b) =>
      if b == INT3 then
        var s1 := Register(s, trap);
        (s1.(tables := SetDoubletrap(s1.tables, trap.pa, true)), true)
      else if r !in s.mem then (s, false)
      else
        var s1 := Register(s.(mem := WriteByte(s.mem, Pa(r, Off(trap.pa)), INT3)), trap);
        (s1.(tables := SetDoubletrap(s1.tables, trap.pa, false)), true)
  }

  /** The second result is whether injection succeeded. */
  function InjectTrap(w: World, s: State, trap: Trap): (res: (State, bool))
    ensures res.0.vcpus == s.vcpus && res.0.ram == s.ram
  {
    if trap.pa in s.tables.breakpoint then (Register(s, trap), true)
    else
      var (s1, r) := ShadowFor(w, s, Gfn(trap.pa));
      PlaceTrap(Arm(s1, Gfn(trap.pa)), trap, r)
  }

  /** Puts the original byte back in the shadow page. The source dereferences the remapping. */
  function RemoveInt3(s: State, pa: nat): (r: State)
    requires Gfn(pa) in s.tables.remapped
    ensures r.vcpus == s.vcpus && r.ram == s.ram
  {
    match ReadByte(s.mem, pa)
    case None => s.(interrupted := true)
    case Some(b) => s.(mem := WriteByte(s.mem, Pa(s.tables.remapped[Gfn(pa)], Off(pa)), b))
  }

  /** A one-shot trap leaves the tables, its breakpoint goes with the last trap there, and it is freed. */
  function DestroyTrap(s: State, t: Trap): State {
    var s1 := s.(tables := DropTrap(s.tables, t), freed := s.freed + multiset{t});
    if TrapsAt(s1.tables, t.pa) == [] && Gfn(t.pa) in s.tables.remapped then RemoveInt3(s1, t.pa) else s1
  }

  // ----- int3 events

  function ReturnTrap(id: nat, o: CbOutcome): Trap {
    Trap(id, o.retPa, true, false, true, o.extra)
  }

  /** The state in which a callback's return trap is injected. */
  function AfterCallback(s: State, t: Trap): State {
    s.(fired := s.fired + [t], nextId := s.nextId + 1)
  }

  predicate Returns(w: World, s: State, t: Trap) {
    t.hasCb && t.hasRet && w.outcome(t, |s.fired|).extra != 0
  }

  /** Runs one trap's callback; a non-null result injects a one-shot trap at the return address. */
  function RunCallback(w: World, s: State, t: Trap): State {
    if Returns(w, s, t)
    then InjectTrap(w, AfterCallback(s, t), ReturnTrap(s.nextId, w.outcome(t, |s.fired|))).0
    else if t.hasCb then s.(fired := s.fired + [t])
    else s
  }

  /** The traps that running t's callback appends to the list being walked. */
  function Appended(w: World, s: State, t: Trap): seq<Trap> {
    if Returns(w, s, t) && w.outcome(t, |s.fired|).retPa == t.pa && t.pa in s.tables.breakpoint
    then [ReturnTrap(s.nextId, w.outcome(t, |s.fired|))] else []
  }

  function Visit(w: World, s: State, t: Trap): (r: State)
    ensures r.vcpus == s.vcpus && r.ram == s.ram
  {
    var s1 := RunCallback(w, s, t);
    if t.selfDestroy then DestroyTrap(s1, t) else s1
  }

  function Weight(todo: seq<Trap>): nat {
    if todo == [] then 0 else (if todo[0].hasRet then 2 else 1) + Weight(todo[1..])
  }

  lemma {:induction false} WeightAppend(todo: seq<Trap>, t: Trap)
    ensures Weight(todo + [t]) == Weight(todo) + (if t.hasRet then 2 else 1)
  {
    if todo == [] {
      assert [] + [t] == [t];
    } else {
      assert (todo + [t])[1..] == todo[1..] + [t];
      WeightAppend(todo[1..], t);
    }
  }

  function Remaining(w: World, s: State, todo: seq<Trap>): (rest: seq<Trap>)
    requires todo != []
    ensures Weight(rest) < Weight(todo)
  {
    var extra := Appended(w, s, todo[0]);
    if extra == [] then todo[1..]
    else
      WeightAppend(todo[1..], extra[0]);
      todo[1..] + [extra[0]]
  }

  /** Walks the list: `todo` is what is left of it. */
  function Dispatch(w: World, s: State, todo: seq<Trap>): (r: State)
    ensures r.vcpus == s.vcpus && r.ram == s.ram
    decreases Weight(todo)
  {
    if todo == [] then s else Dispatch(w, Visit(w, s, todo[0]), Remaining(w, s, todo))
  }

  function SetCallback(s: State, v: nat, cb: StepCallback): State
    requires v < |s.vcpus|
  {
    s.(vcpus := s.vcpus[v := s.vcpus[v].(callback := cb)])
  }

  function Int3Cb(w: World, s: State, v: nat, pa: nat): (State, Response)
    requires v < |s.vcpus|
  {
    if TrapsAt(s.tables, pa) == [] then
      match ReadByte(s.mem, pa)
      case None => (s.(interrupted := true), Response(false, false, None))
      case Some(b) => (s, Response(b == INT3, false, None))
    else
      var doubletrap := s.tables.breakpoint[pa].doubletrap;
      var s1 := Dispatch(w, s, TrapsAt(s.tables, pa));
      (SetCallback(s1, v, SinglestepCallback), Response(doubletrap, true, Some(Origin)))
  }

  // ----- memory events and single steps

  function PreMemCb(w: World, s: State, v: nat, gfn: nat, write: bool): (State, Response)
    requires v < |s.vcpus|
  {
    if gfn !in s.tables.memaccess then (s, Response(false, false, None))
    else
      var traps := if write && w.fillTraps then TrapsIn(s.tables, gfn) else [];
      var r := if traps != [] && gfn in s.tables.remapped then s.tables.remapped[gfn] else 0;
      (SetCallback(s, v, PostMemCallback(MemPass(s.nextPass, gfn, r, traps))).(nextPass := s.nextPass + 1),
       Response(false, true, Some(Origin)))
  }

  /** Re-applies one breakpoint after the shadow page was copied again. */
  function Reapply(s: State, r: nat, pa: nat, b: Byte): State
    requires pa in s.tables.breakpoint
  {
    if b == INT3 then s.(tables := SetDoubletrap(s.tables, pa, true))
    else s.(tables := SetDoubletrap(s.tables, pa, false), mem := WriteByte(s.mem, Pa(r, Off(pa)), INT3))
  }

  /** The second result is false when a byte could not be read; what was done before stays done. */
  function ReapplyAll(s: State, r: nat, traps: seq<Trap>): (res: (State, bool))
    requires forall t | t in traps :: t.pa in s.tables.breakpoint
    ensures res.0.vcpus == s.vcpus && res.0.ram == s.ram
    decreases |traps|
  {
    if traps == [] then (s, true)
    else
      match ReadByte(s.mem, traps[0].pa)
      case None => (s, false)
      case Some(b) => ReapplyAll(Reapply(s, r, traps[0].pa, b), r, traps[1..])
  }

  function Recopy(s: State, pass: MemPass): (res: (State, bool))
    requires forall t | t in pass.traps :: t.pa in s.tables.breakpoint
    ensures res.0.vcpus == s.vcpus && res.0.ram == s.ram
  {
    if pass.traps == [] then (s, true)
    else if pass.o !in s.mem || pass.r !in s.mem then (s, false)
    else ReapplyAll(s.(mem := s.mem[pass.r := s.mem[pass.o]]), pass.r, pass.traps)
  }

  /** A failure marks the handler and leaves the vCPU stepping with its pass unfreed. */
  function PostMemCb(s: State, v: nat, pass: MemPass): (State, Response)
    requires v < |s.vcpus|
    requires forall t | t in pass.traps :: t.pa in s.tables.breakpoint
  {
    var (s1, ok) := Recopy(s, pass);
    if !ok then (s1.(interrupted := true), Response(false, false, None))
    else
      (SetCallback(s1, v, SinglestepCallback).(freedPasses := s1.freedPasses + multiset{pass.id}),
       Response(false, true, Some(Alt)))
  }

  function SinglestepCb(s: State): (State, Response) {
    (s, Response(false, true, Some(Alt)))
  }

  // ----- tearing down and rebuilding

  /** How `_destroy_traps` leaves the engine: the ALT view back to the identity, nothing armed, the
      shadow frames returned and every trap in the tables freed once. */
  ghost predicate Destroyed(s: State, s': State) {
    && s' == s.(mem := s.mem - s.tables.remapped.Values, tables := EMPTY,
                alt := s.alt - s.tables.remapped.Keys, armed := s.armed - s.tables.memaccess,
                freed := s'.freed)
    && forall t: Trap :: s'.freed[t] == s.freed[t] + multiset(TrapsAt(s.tables, t.pa))[t]
  }
}
