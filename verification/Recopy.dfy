/** Guest writes to trapped frames: when the shadow page survives one, and when copying the page
    again and re-applying the traps makes it right. */
module Recopying {
  import opened GuestMemory
  import opened TrapManager
  import opened Engine
  import opened EngineInvariants

  function PasOf(traps: seq<Trap>): set<nat> {
    set t | t in traps :: t.pa
  }

  /** The state after the guest replaced the page of one of its frames. */
  function Overwritten(s: State, f: nat, page: Page): State {
    s.(mem := s.mem[f := page])
  }

  /** The new page differs from the old one only under breakpoints, and there only between bytes
      other than INT3. */
  ghost predicate Neutral(s: State, f: nat, page: Page)
    requires f in s.mem
  {
    forall off: nat | off < PAGESIZE ::
      if Pa(f, off) in s.tables.breakpoint then (page[off] == INT3 <==> s.mem[f][off] == INT3)
      else page[off] == s.mem[f][off]
  }

  /** Every registered address of the frame that is not re-applied holds INT3 now and was flagged. */
  ghost predicate Covers(s: State, f: nat, page: Page, pas: set<nat>) {
    forall off: nat | off < PAGESIZE && Pa(f, off) in s.tables.breakpoint && Pa(f, off) !in pas ::
      page[off] == INT3 && s.tables.breakpoint[Pa(f, off)].doubletrap
  }

  /** A pass whose remapped pair is on record and whose traps are all registered in its frame. The
      source looks the traps' wrappers up and dereferences them. */
  ghost predicate PassReady(s: State, pass: MemPass) {
    && pass.o in s.tables.remapped && pass.r == s.tables.remapped[pass.o]
    && forall t | t in pass.traps :: Gfn(t.pa) == pass.o && t.pa in s.tables.breakpoint
  }

  lemma OverwrittenMaps(s: State, f: nat, page: Page)
    requires MapsOk(s) && f in s.ram
    ensures MapsOk(Overwritten(s, f, page))
  {
  }

  /** Flags follow the original bytes after an overwrite exactly when INT3 bytes stay INT3 bytes
      under the frame's breakpoints. */
  lemma OverwrittenDouble(s: State, f: nat, page: Page)
    requires MapsOk(s) && DoubleOk(s) && f in s.ram && MapsOk(Overwritten(s, f, page))
    ensures DoubleOk(Overwritten(s, f, page)) <==>
            forall off: nat | off < PAGESIZE && Pa(f, off) in s.tables.breakpoint ::
              page[off] == INT3 <==> s.mem[f][off] == INT3
  {
    var s' := Overwritten(s, f, page);
    if forall off: nat | off < PAGESIZE && Pa(f, off) in s.tables.breakpoint ::
         page[off] == INT3 <==> s.mem[f][off] == INT3 {
      forall pa | pa in s'.tables.breakpoint
        ensures s'.tables.breakpoint[pa].doubletrap <==> s'.mem[Gfn(pa)][Off(pa)] == INT3
      {
        PaWhole(pa);
        if Gfn(pa) == f {
          assert Pa(f, Off(pa)) in s.tables.breakpoint;
        }
      }
    }
    if DoubleOk(s') {
      forall off: nat | off < PAGESIZE && Pa(f, off) in s.tables.breakpoint
        ensures page[off] == INT3 <==> s.mem[f][off] == INT3
      {
        PaParts(f, off);
        assert s'.mem[Gfn(Pa(f, off))][Off(Pa(f, off))] == page[off];
      }
    }
  }

  lemma OverwrittenShadow(s: State, f: nat, page: Page)
    requires MapsOk(s) && ShadowOk(s) && f in s.tables.remapped && MapsOk(Overwritten(s, f, page))
    ensures ShadowOk(Overwritten(s, f, page)) <==>
            Shadowed(page, s.tables.breakpoint.Keys, f) == Shadowed(s.mem[f], s.tables.breakpoint.Keys, f)
  {
  }

  lemma SameShadow(s: State, f: nat, page: Page)
    requires f in s.mem
    ensures Shadowed(page, s.tables.breakpoint.Keys, f) == Shadowed(s.mem[f], s.tables.breakpoint.Keys, f) <==>
            forall off: nat | off < PAGESIZE && Pa(f, off) !in s.tables.breakpoint :: page[off] == s.mem[f][off]
  {
  }

  /** Without recopying, an overwrite of a remapped frame keeps the invariant exactly when it is neutral. */
  lemma OverwriteIff(s: State, f: nat, page: Page)
    requires EngineInv(true, s) && f in s.tables.remapped
    ensures EngineInv(true, Overwritten(s, f, page)) <==> Neutral(s, f, page)
  {
    hide Shadowed;
    OverwrittenMaps(s, f, page);
    OverwrittenDouble(s, f, page);
    OverwrittenShadow(s, f, page);
    SameShadow(s, f, page);
    ConservedSame(s, Overwritten(s, f, page));
  }

  /** Bytes and flags aside, any overwrite keeps the invariant. */
  lemma OverwriteAny(s: State, f: nat, page: Page)
    requires EngineInv(false, s) && f in s.ram
    ensures EngineInv(false, Overwritten(s, f, page))
  {
  }

  /** A frame without a shadow page may be overwritten at will. */
  lemma OverwriteFree(exact: bool, s: State, f: nat, page: Page)
    requires EngineInv(exact, s) && f in s.ram && f !in s.tables.remapped
    ensures EngineInv(exact, Overwritten(s, f, page))
  {
    OverwrittenMaps(s, f, page);
    if exact {
      OverwrittenDouble(s, f, page);
    }
    assert forall off: nat | off < PAGESIZE :: Pa(f, off) !in s.tables.breakpoint by {
      forall off: nat | off < PAGESIZE
        ensures Pa(f, off) !in s.tables.breakpoint
      {
        PaParts(f, off);
      }
    }
    ConservedSame(s, Overwritten(s, f, page));
  }

  // ----- the recopy loop

  /** What the loop does: the shadow page is the original with INT3 at the re-applied addresses, and
      their flags follow the original bytes. */
  ghost predicate Reapplied(s: State, s': State, o: nat, r: nat, pas: set<nat>, done: set<nat>)
    requires o in s.mem
  {
    && s' == s.(mem := s.mem[r := Shadowed(s.mem[o], done + pas, o)], tables := s'.tables)
    && s'.tables == s.tables.(breakpoint := s'.tables.breakpoint)
    && s'.tables.breakpoint.Keys == s.tables.breakpoint.Keys
    && forall pa | pa in s.tables.breakpoint ::
         s'.tables.breakpoint[pa] == if pa in pas
                                     then s.tables.breakpoint[pa].(doubletrap := s.mem[o][Off(pa)] == INT3)
                                     else s.tables.breakpoint[pa]
  }

  lemma ReapplyOne(s: State, o: nat, r: nat, pa: nat, done: set<nat>)
    requires o in s.mem && r in s.mem && o != r && Gfn(pa) == o && pa in s.tables.breakpoint
    requires s.mem[r] == Shadowed(s.mem[o], done, o)
    ensures Reapplied(s, Reapply(s, r, pa, s.mem[o][Off(pa)]), o, r, {pa}, done)
    ensures var s' := Reapply(s, r, pa, s.mem[o][Off(pa)]);
            && s'.mem[r] == Shadowed(s.mem[o], done + {pa}, o) && s'.mem[o] == s.mem[o]
  {
    var b := s.mem[o][Off(pa)];
    var s' := Reapply(s, r, pa, b);
    PaWhole(pa);
    PaParts(r, Off(pa));
    ShadowedAdd(s.mem[o], done, o, pa);
    if b == INT3 {
      assert s.mem[r][Off(pa)] == INT3;
      assert s.mem[r][Off(pa) := INT3] == s.mem[r];
      assert s'.mem == s.mem[r := Shadowed(s.mem[o], done + {pa}, o)];
    }
  }

  lemma ReapplyTwice(s: State, s1: State, s2: State, o: nat, r: nat, pa: nat, pas: set<nat>, done: set<nat>)
    requires o in s.mem && o != r
    requires Reapplied(s, s1, o, r, {pa}, done)
    requires o in s1.mem && Reapplied(s1, s2, o, r, pas, done + {pa})
    ensures Reapplied(s, s2, o, r, {pa} + pas, done)
  {
    assert done + {pa} + pas == done + ({pa} + pas);
    assert s1.mem[o] == s.mem[o];
  }

  lemma {:induction false} ReapplyLoop(s: State, o: nat, r: nat, traps: seq<Trap>, done: set<nat>)
    requires o in s.mem && r in s.mem && o != r
    requires forall t | t in traps :: Gfn(t.pa) == o && t.pa in s.tables.breakpoint
    requires s.mem[r] == Shadowed(s.mem[o], done, o)
    ensures ReapplyAll(s, r, traps).1
    ensures Reapplied(s, ReapplyAll(s, r, traps).0, o, r, PasOf(traps), done)
    decreases |traps|
  {
    hide Reapplied, Shadowed;
    if traps == [] {
      ReapplyNone(s, o, r, done);
    } else {
      var pa := traps[0].pa;
      var s1 := Reapply(s, r, pa, s.mem[o][Off(pa)]);
      ReapplyOne(s, o, r, pa, done);
      ReapplyLoop(s1, o, r, traps[1..], done + {pa});
      ReapplyTwice(s, s1, ReapplyAll(s, r, traps).0, o, r, pa, PasOf(traps[1..]), done);
      assert PasOf(traps) == {pa} + PasOf(traps[1..]);
    }
  }

  lemma ReapplyNone(s: State, o: nat, r: nat, done: set<nat>)
    requires o in s.mem && r in s.mem && s.mem[r] == Shadowed(s.mem[o], done, o)
    ensures Reapplied(s, s, o, r, PasOf([]), done)
  {
    assert done + PasOf([]) == done;
  }

  // ----- the recopy as a whole

  /** The state `Recopy` ends in when it succeeds. */
  lemma RecopyEffect(s: State, pass: MemPass)
    requires MapsOk(s) && PassReady(s, pass) && pass.traps != []
    ensures Recopy(s, pass).1
    ensures Reapplied(s, Recopy(s, pass).0, pass.o, pass.r, PasOf(pass.traps), {})
  {
    var s1 := s.(mem := s.mem[pass.r := s.mem[pass.o]]);
    ShadowedCopy(s.mem[pass.o], {}, pass.o);
    ReapplyLoop(s1, pass.o, pass.r, pass.traps, {});
    var s2 := Recopy(s, pass).0;
    assert s1.mem[pass.o] == s.mem[pass.o];
    assert s1.mem[pass.r := s2.mem[pass.r]] == s.mem[pass.r := s2.mem[pass.r]];
  }

  lemma FlagsKeepIndex(t: Tables, t': Tables)
    requires IndexAgrees(t) && t'.byGfn == t.byGfn && t'.breakpoint.Keys == t.breakpoint.Keys
    requires forall pa | pa in t.breakpoint :: t'.breakpoint[pa].traps == t.breakpoint[pa].traps
    ensures IndexAgrees(t')
  {
  }

  lemma ReappliedMaps(s: State, s': State, o: nat, pas: set<nat>)
    requires MapsOk(s) && o in s.tables.remapped && Reapplied(s, s', o, s.tables.remapped[o], pas, {})
    ensures MapsOk(s')
  {
  }

  lemma ReappliedRest(s: State, s': State, o: nat, pas: set<nat>)
    requires IndexAgrees(s.tables) && TrapsConserved(s)
    requires o in s.mem && o in s.tables.remapped && Reapplied(s, s', o, s.tables.remapped[o], pas, {})
    ensures IndexAgrees(s'.tables) && TrapsConserved(s')
  {
    hide Shadowed;
    FlagsKeepIndex(s.tables, s'.tables);
    SameCounts(s.tables, s'.tables);
  }

  lemma ReappliedShadow(s0: State, page: Page, s': State, o: nat, pas: set<nat>)
    requires MapsOk(s0) && ShadowOk(s0) && o in s0.tables.remapped && MapsOk(s')
    requires Reapplied(Overwritten(s0, o, page), s', o, s0.tables.remapped[o], pas, {})
    ensures ShadowOk(s') <==> Shadowed(page, pas, o) == Shadowed(page, s0.tables.breakpoint.Keys, o)
  {
    hide Shadowed;
    assert {} + pas == pas;
    forall g | g in s'.tables.remapped && g != o
      ensures s'.mem[s'.tables.remapped[g]] == Shadowed(s'.mem[g], s'.tables.breakpoint.Keys, g)
    {
      assert s'.mem[g] == s0.mem[g];
    }
  }

  lemma ReappliedDouble(s0: State, page: Page, s': State, o: nat, pas: set<nat>)
    requires MapsOk(s0) && DoubleOk(s0) && o in s0.tables.remapped && MapsOk(s')
    requires forall pa | pa in pas :: Gfn(pa) == o
    requires Reapplied(Overwritten(s0, o, page), s', o, s0.tables.remapped[o], pas, {})
    ensures DoubleOk(s') <==>
            forall off: nat | off < PAGESIZE && Pa(o, off) in s0.tables.breakpoint && Pa(o, off) !in pas ::
              page[off] == INT3 <==> s0.tables.breakpoint[Pa(o, off)].doubletrap
  {
    hide Shadowed;
    forall pa | pa in s0.tables.breakpoint
      ensures Off(pa) < PAGESIZE && Pa(Gfn(pa), Off(pa)) == pa
      ensures Gfn(pa) != o ==>
                && s'.mem[Gfn(pa)] == s0.mem[Gfn(pa)]
                && s'.tables.breakpoint[pa] == s0.tables.breakpoint[pa]
    {
      PaWhole(pa);
    }
    forall off: nat | off < PAGESIZE
      ensures Gfn(Pa(o, off)) == o && Off(Pa(o, off)) == off
    {
      PaParts(o, off);
    }
    assert s'.mem[o] == page;
  }

  lemma SameMarks(page: Page, pas: set<nat>, all: set<nat>, o: nat)
    requires pas <= all
    ensures Shadowed(page, pas, o) == Shadowed(page, all, o) <==>
            forall off: nat | off < PAGESIZE && Pa(o, off) in all && Pa(o, off) !in pas :: page[off] == INT3
  {
  }

  /** After the guest wrote anything at all to the frame, recopying and re-applying the pass's traps
      restores the invariant exactly when those traps cover the frame. */
  lemma RecopyIff(s0: State, pass: MemPass, page: Page)
    requires EngineInv(true, s0) && PassReady(s0, pass) && pass.traps != []
    ensures PassReady(Overwritten(s0, pass.o, page), pass)
    ensures var (s', ok) := Recopy(Overwritten(s0, pass.o, page), pass);
            ok && (EngineInv(true, s') <==> Covers(s0, pass.o, page, PasOf(pass.traps)))
  {
    hide Shadowed, Recopy, IndexAgrees, TrapsConserved, Reapplied;
    var s := Overwritten(s0, pass.o, page);
    var pas := PasOf(pass.traps);
    OverwrittenMaps(s0, pass.o, page);
    ConservedSame(s0, s);
    RecopyEffect(s, pass);
    var s' := Recopy(s, pass).0;
    ReappliedMaps(s, s', pass.o, pas);
    ReappliedRest(s, s', pass.o, pas);
    ReappliedShadow(s0, page, s', pass.o, pas);
    ReappliedDouble(s0, page, s', pass.o, pas);
    SameMarks(page, pas, s0.tables.breakpoint.Keys, pass.o);
  }

  /** Bytes and flags aside, recopying from a ready pass keeps the invariant. */
  lemma RecopyAny(s: State, pass: MemPass)
    requires EngineInv(false, s) && PassReady(s, pass) && pass.traps != []
    ensures Recopy(s, pass).1 && EngineInv(false, Recopy(s, pass).0)
  {
    hide Shadowed, Recopy, IndexAgrees, TrapsConserved, Reapplied;
    RecopyEffect(s, pass);
    ReappliedMaps(s, Recopy(s, pass).0, pass.o, PasOf(pass.traps));
    ReappliedRest(s, Recopy(s, pass).0, pass.o, PasOf(pass.traps));
  }
}
