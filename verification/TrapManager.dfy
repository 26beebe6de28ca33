/** The trap manager's four tables, with the address index and the frame index kept in step. */
module TrapManager {
  import opened GuestMemory

  /** `id` is the identity of the allocated trap; `extra` is 0 for a null pointer. */
  datatype Trap = Trap(id: nat, pa: nat, hasCb: bool, hasRet: bool, selfDestroy: bool, extra: nat)

  datatype Wrapper = Wrapper(doubletrap: bool, traps: seq<Trap>)

  datatype Tables = Tables(
    remapped: map<nat, nat>,
    breakpoint: map<nat, Wrapper>,
    byGfn: map<nat, seq<Trap>>,
    memaccess: set<nat>)

  const EMPTY := Tables(map[], map[], map[], {})

  function TrapsAt(t: Tables, pa: nat): seq<Trap> {
    if pa in t.breakpoint then t.breakpoint[pa].traps else []
  }

  function TrapsIn(t: Tables, gfn: nat): seq<Trap> {
    if gfn in t.byGfn then t.byGfn[gfn] else []
  }

  /** Removal by identity takes out the first occurrence only. */
  function RemoveFirst(traps: seq<Trap>, trap: Trap): seq<Trap> {
    if traps == [] then []
    else if traps[0] == trap then traps[1..]
    else [traps[0]] + RemoveFirst(traps[1..], trap)
  }

  lemma {:induction false} RemoveFirstCounts(traps: seq<Trap>, trap: Trap)
    ensures multiset(RemoveFirst(traps, trap)) == multiset(traps) - multiset{trap}
  {
    if traps != [] {
      assert traps == [traps[0]] + traps[1..];
      RemoveFirstCounts(traps[1..], trap);
    }
  }

  /** The traps of a list that sit at one address, in list order. */
  function AtPa(traps: seq<Trap>, pa: nat): seq<Trap> {
    if traps == [] then []
    else (if traps[0].pa == pa then [traps[0]] else []) + AtPa(traps[1..], pa)
  }

  function AddTrap(t: Tables, trap: Trap): Tables {
    var dt := trap.pa in t.breakpoint && t.breakpoint[trap.pa].doubletrap;
    t.(breakpoint := t.breakpoint[trap.pa := Wrapper(dt, TrapsAt(t, trap.pa) + [trap])],
       byGfn := t.byGfn[Gfn(trap.pa) := TrapsIn(t, Gfn(trap.pa)) + [trap]])
  }

  function DropTrap(t: Tables, trap: Trap): Tables {
    if trap.pa !in t.breakpoint then t
    else
      var left := RemoveFirst(TrapsAt(t, trap.pa), trap);
      var inGfn := RemoveFirst(TrapsIn(t, Gfn(trap.pa)), trap);
      t.(breakpoint := if left == [] then t.breakpoint - {trap.pa}
                       else t.breakpoint[trap.pa := t.breakpoint[trap.pa].(traps := left)],
         byGfn := if inGfn == [] then t.byGfn - {Gfn(trap.pa)} else t.byGfn[Gfn(trap.pa) := inGfn])
  }

  function SetDoubletrap(t: Tables, pa: nat, flag: bool): Tables
    requires pa in t.breakpoint
  {
    t.(breakpoint := t.breakpoint[pa := t.breakpoint[pa].(doubletrap := flag)])
  }

  // ----- index agreement

  ghost predicate PaTableOk(t: Tables) {
    forall pa | pa in t.breakpoint ::
      t.breakpoint[pa].traps != [] && forall x | x in t.breakpoint[pa].traps :: x.pa == pa
  }

  ghost predicate GfnTableOk(t: Tables) {
    forall gfn | gfn in t.byGfn ::
      t.byGfn[gfn] != [] && forall x | x in t.byGfn[gfn] :: Gfn(x.pa) == gfn
  }

  /** No entry is empty, every trap sits under its own address and frame, and the frame's list
      filtered to one address is, in order, the address's list. */
  ghost predicate IndexAgrees(t: Tables) {
    && PaTableOk(t)
    && GfnTableOk(t)
    && forall pa: nat :: AtPa(TrapsIn(t, Gfn(pa)), pa) == TrapsAt(t, pa)
  }

  lemma {:induction false} AtPaAppend(traps: seq<Trap>, trap: Trap, pa: nat)
    ensures AtPa(traps + [trap], pa) == AtPa(traps, pa) + (if trap.pa == pa then [trap] else [])
  {
    if traps == [] {
      assert [] + [trap] == [trap];
    } else {
      hide AtPa;
      var x, rest := traps[0], traps[1..];
      AtPaAppend(rest, trap, pa);
      AtPaCons(x, rest, pa);
      AtPaCons(x, rest + [trap], pa);
      assert traps == [x] + rest && traps + [trap] == [x] + (rest + [trap]);
    }
  }

  lemma AtPaCons(x: Trap, traps: seq<Trap>, pa: nat)
    ensures AtPa([x] + traps, pa) == (if x.pa == pa then [x] else []) + AtPa(traps, pa)
  {
  }

  lemma RemoveFirstSkips(x: Trap, traps: seq<Trap>, trap: Trap)
    requires x != trap
    ensures RemoveFirst([x] + traps, trap) == [x] + RemoveFirst(traps, trap)
    ensures RemoveFirst([] + traps, trap) == [] + RemoveFirst(traps, trap)
  {
    assert ([x] + traps)[1..] == traps;
    assert [] + traps == traps;
  }

  lemma {:induction false} AtPaRemove(traps: seq<Trap>, trap: Trap, pa: nat)
    ensures AtPa(RemoveFirst(traps, trap), pa) ==
            if trap.pa == pa then RemoveFirst(AtPa(traps, pa), trap) else AtPa(traps, pa)
  {
    if traps == [] {
    } else if traps[0] == trap {
      if trap.pa == pa {
        assert AtPa(traps, pa)[1..] == AtPa(traps[1..], pa);
      }
    } else {
      AtPaRemove(traps[1..], trap, pa);
      AtPaCons(traps[0], RemoveFirst(traps[1..], trap), pa);
      RemoveFirstSkips(traps[0], AtPa(traps[1..], pa), trap);
    }
  }

  lemma InRemoveFirst(traps: seq<Trap>, trap: Trap, x: Trap)
    requires x in RemoveFirst(traps, trap)
    ensures x in traps
  {
  }

  lemma AddKeepsIndex(t: Tables, trap: Trap)
    requires IndexAgrees(t)
    ensures IndexAgrees(AddTrap(t, trap))
  {
    var t' := AddTrap(t, trap);
    forall pa: nat
      ensures AtPa(TrapsIn(t', Gfn(pa)), pa) == TrapsAt(t', pa)
    {
      if Gfn(pa) == Gfn(trap.pa) {
        AtPaAppend(TrapsIn(t, Gfn(pa)), trap, pa);
      }
      assert AtPa(TrapsIn(t, Gfn(pa)), pa) == TrapsAt(t, pa);
    }
  }

  lemma DropKeepsPaTable(t: Tables, trap: Trap)
    requires PaTableOk(t)
    ensures PaTableOk(DropTrap(t, trap))
  {
    var left := RemoveFirst(TrapsAt(t, trap.pa), trap);
    forall x | x in left
      ensures x in TrapsAt(t, trap.pa)
    {
      InRemoveFirst(TrapsAt(t, trap.pa), trap, x);
    }
  }

  lemma DropKeepsGfnTable(t: Tables, trap: Trap)
    requires GfnTableOk(t)
    ensures GfnTableOk(DropTrap(t, trap))
  {
    var left := RemoveFirst(TrapsIn(t, Gfn(trap.pa)), trap);
    forall x | x in left
      ensures x in TrapsIn(t, Gfn(trap.pa))
    {
      InRemoveFirst(TrapsIn(t, Gfn(trap.pa)), trap, x);
    }
  }

  lemma DropLists(t: Tables, trap: Trap)
    requires trap.pa in t.breakpoint
    ensures forall pa: nat :: TrapsAt(DropTrap(t, trap), pa) ==
                              if pa == trap.pa then RemoveFirst(TrapsAt(t, pa), trap) else TrapsAt(t, pa)
    ensures forall gfn: nat :: TrapsIn(DropTrap(t, trap), gfn) ==
                               if gfn == Gfn(trap.pa) then RemoveFirst(TrapsIn(t, gfn), trap) else TrapsIn(t, gfn)
  {
  }

  lemma DropKeepsIndex(t: Tables, trap: Trap)
    requires IndexAgrees(t)
    ensures IndexAgrees(DropTrap(t, trap))
  {
    var t' := DropTrap(t, trap);
    if trap.pa in t.breakpoint {
      DropKeepsPaTable(t, trap);
      DropKeepsGfnTable(t, trap);
      DropLists(t, trap);
      forall pa: nat
        ensures AtPa(TrapsIn(t', Gfn(pa)), pa) == TrapsAt(t', pa)
      {
        AtPaRemove(TrapsIn(t, Gfn(pa)), trap, pa);
      }
    }
  }

  lemma SetDoubletrapKeepsIndex(t: Tables, pa: nat, flag: bool)
    requires IndexAgrees(t) && pa in t.breakpoint
    ensures IndexAgrees(SetDoubletrap(t, pa, flag))
  {
  }

  // ----- any sequence of table operations

  datatype Op = Add(trap: Trap) | Drop(trap: Trap) | Flag(pa: nat, flag: bool) | Remap(o: nat, r: nat) | Mem(gfn: nat)

  function Perform(t: Tables, op: Op): Tables {
    match op
    case Add(trap) => AddTrap(t, trap)
    case Drop(trap) => DropTrap(t, trap)
    case Flag(pa, flag) => if pa in t.breakpoint then SetDoubletrap(t, pa, flag) else t
    case Remap(o, r) => t.(remapped := t.remapped[o := r])
    case Mem(gfn) => t.(memaccess := t.memaccess + {gfn})
  }

  function PerformAll(t: Tables, ops: seq<Op>): Tables
    decreases |ops|
  {
    if ops == [] then t else PerformAll(Perform(t, ops[0]), ops[1..])
  }

  /** The two indexes agree after any sequence of operations on agreeing tables. */
  lemma {:induction false} IndexAgreesAlways(t: Tables, ops: seq<Op>)
    requires IndexAgrees(t)
    ensures IndexAgrees(PerformAll(t, ops))
    decreases |ops|
  {
    if ops != [] {
      match ops[0] {
        case Add(trap) => AddKeepsIndex(t, trap);
        case Drop(trap) => DropKeepsIndex(t, trap);
        case Flag(pa, flag) =>
          if pa in t.breakpoint {
            SetDoubletrapKeepsIndex(t, pa, flag);
          }
        case Remap(o, r) => SameIndex(t, Perform(t, ops[0]));
        case Mem(gfn) => SameIndex(t, Perform(t, ops[0]));
      }
      IndexAgreesAlways(Perform(t, ops[0]), ops[1..]);
    }
  }

  lemma SameIndex(t: Tables, t': Tables)
    requires IndexAgrees(t) && t'.breakpoint == t.breakpoint && t'.byGfn == t.byGfn
    ensures IndexAgrees(t')
  {
  }

  lemma EmptyAgrees()
    ensures IndexAgrees(EMPTY)
  {
  }

  /** Deleting a key before writing it again is the same as writing it. */
  lemma DropStep(t: Tables, trap: Trap, t': Tables)
    requires trap.pa in t.breakpoint
    requires t'.remapped == t.remapped && t'.memaccess == t.memaccess
    requires var left := RemoveFirst(TrapsAt(t, trap.pa), trap);
             var bp := t.breakpoint[trap.pa := t.breakpoint[trap.pa].(traps := left)];
             t'.breakpoint == if |left| == 0 then bp - {trap.pa} else bp
    requires var left := RemoveFirst(TrapsIn(t, Gfn(trap.pa)), trap);
             var rest := t.byGfn - {Gfn(trap.pa)};
             t'.byGfn == if left != [] then rest[Gfn(trap.pa) := left] else rest
    ensures t' == DropTrap(t, trap)
  {
  }

  /** The manager object. Each method is tied to the function above that says what it does. */
  class Manager {
    var remapped: map<nat, nat>
    var breakpoint: map<nat, Wrapper>
    var byGfn: map<nat, seq<Trap>>
    var memaccess: set<nat>

    ghost function View(): Tables
      reads this
    {
      Tables(remapped, breakpoint, byGfn, memaccess)
    }

    constructor ()
      ensures View() == EMPTY
    {
      remapped, breakpoint, byGfn, memaccess := map[], map[], map[], {};
    }

    /** What is left after `tm_destroy` and `tm_init`. */
    method Clear()
      modifies this
      ensures View() == EMPTY
    {
      remapped, breakpoint, byGfn, memaccess := map[], map[], map[], {};
    }

    method AddRemapped(o: nat, r: nat)
      modifies this
      ensures View() == old(View()).(remapped := old(remapped)[o := r])
    {
      remapped := remapped[o := r];
    }

    method AddMemtrap(gfn: nat)
      modifies this
      ensures View() == old(View()).(memaccess := old(memaccess) + {gfn})
    {
      memaccess := memaccess + {gfn};
    }

    method AddInt3Trap(trap: Trap)
      modifies this
      ensures View() == AddTrap(old(View()), trap)
    {
      var pa := trap.pa;
      var w := if pa in breakpoint then breakpoint[pa] else Wrapper(false, []);
      breakpoint := breakpoint[pa := w.(traps := w.traps + [trap])];

      var gfn := Gfn(pa);
      if gfn !in byGfn {
        byGfn := byGfn[gfn := [] + [trap]];
      } else {
        byGfn := byGfn[gfn := byGfn[gfn] + [trap]];
      }
    }

    /** Returns how many traps remain at the trap's address. */
    method RemoveInt3Trap(trap: Trap) returns (trapno: nat)
      modifies this
      ensures View() == DropTrap(old(View()), trap)
      ensures trapno == |TrapsAt(View(), trap.pa)|
    {
      var pa := trap.pa;
      trapno := 0;
      if pa !in breakpoint {
        return;
      }
      var w := breakpoint[pa];
      w := w.(traps := RemoveFirst(w.traps, trap));
      breakpoint := breakpoint[pa := w];
      trapno := |w.traps|;
      if trapno == 0 {
        breakpoint := breakpoint - {pa};
      }

      var gfn := Gfn(pa);
      var inGfn := if gfn in byGfn then byGfn[gfn] else [];
      byGfn := byGfn - {gfn};
      inGfn := RemoveFirst(inGfn, trap);
      if inGfn != [] {
        byGfn := byGfn[gfn := inGfn];
      }
      DropStep(old(View()), trap, View());
    }

    /** The source dereferences the looked-up wrapper, so the address must be registered. */
    method MarkDoubletrap(pa: nat, flag: bool)
      requires pa in breakpoint
      modifies this
      ensures View() == SetDoubletrap(old(View()), pa, flag)
    {
      breakpoint := breakpoint[pa := breakpoint[pa].(doubletrap := flag)];
    }

    method CheckDoubletrap(pa: nat) returns (flag: bool)
      requires pa in breakpoint
      ensures flag == View().breakpoint[pa].doubletrap
    {
      flag := breakpoint[pa].doubletrap;
    }
  }
}
