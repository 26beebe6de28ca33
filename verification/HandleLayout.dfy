/** Handle tables as the kernel lays them out in memory: whatever they hold, the list is the objects of
    their non-zero entries in order, and the lookup of an index finds the entry with that index. */
module HandleLayout {
  import opened HandleTables

  // ----- entries and objects

  /** A 64-bit entry of Windows 8 or 10 keeps the bits 4 to 47 of its object's address in its bits 20 to
      63; whatever the bits below hold, it is listed as that object. */
  lemma LongEntry(v: Version, obj: bv64, flags: bv64)
    requires v == Eight || v == Ten
    requires obj & 0xF == 0 && obj & 0xFFFF_0000_0000_0000 == 0xFFFF_0000_0000_0000
    requires flags & 0xFFFF_FFFF_FFF0_0000 == 0
    ensures AdjustObjAddr(v, IA32E, ((obj >> 4) << 20) | flags) == obj
  {
    hide From20;
    PackedLong(obj, flags);
  }

  lemma PackedLong(obj: bv64, flags: bv64)
    requires obj & 0xF == 0 && obj & 0xFFFF_0000_0000_0000 == 0xFFFF_0000_0000_0000
    requires flags & 0xFFFF_FFFF_FFF0_0000 == 0
    ensures From20(((obj >> 4) << 20) | flags) == obj
  {
  }

  /** A 32-bit entry of Windows 8 or 10 is its object's address with two flags, one of XP, Vista or 7 its
      object's address with three. */
  lemma ShortEntry(v: Version, pm: PageMode, obj: bv64, flags: bv64)
    ensures (v == Eight || v == Ten) && pm != IA32E
            && obj & 0xFFFF_FFFF_0000_0003 == 0 && flags & 0xFFFF_FFFF_FFFF_FFFC == 0 ==>
              AdjustObjAddr(v, pm, obj | flags) == obj
    ensures (v == XP || v == Vista || v == Seven)
            && obj & 7 == 0 && flags & 0xFFFF_FFFF_FFFF_FFF8 == 0 ==>
              AdjustObjAddr(v, pm, obj | flags) == obj
  {
    if obj & 0xFFFF_FFFF_0000_0003 == 0 && flags & 0xFFFF_FFFF_FFFF_FFFC == 0 {
      FlaggedTwo(obj, flags);
    }
    if obj & 7 == 0 && flags & 0xFFFF_FFFF_FFFF_FFF8 == 0 {
      FlaggedThree(obj, flags);
    }
    hide Unflagged, Bits2To31, From20;
  }

  lemma FlaggedTwo(obj: bv64, flags: bv64)
    requires obj & 0xFFFF_FFFF_0000_0003 == 0 && flags & 0xFFFF_FFFF_FFFF_FFFC == 0
    ensures Bits2To31(obj | flags) == obj
  {
  }

  lemma FlaggedThree(obj: bv64, flags: bv64)
    requires obj & 7 == 0 && flags & 0xFFFF_FFFF_FFFF_FFF8 == 0
    ensures Unflagged(obj | flags) == obj
  {
  }

  // ----- the layout, told by addresses

  /** As many entries as fit into 4096 bytes, one behind the other. */
  ghost predicate EntriesAt(mem: Memory, entry: nat, at: nat, es: seq<Word>) {
    && |es| * entry <= 4096 < (|es| + 1) * entry
    && forall i: nat | i < |es| :: EntryIs(mem, entry, at, i, es[i])
  }

  ghost predicate EntryIs(mem: Memory, entry: nat, at: nat, i: nat, e: Word) {
    at + i * entry < 0x1_0000_0000_0000_0000 && mem(at + i * entry) == e
  }

  /** 4096 bytes of pointers to tables of entries; the pointer to a table that is absent is 0. */
  ghost predicate TablesAt(mem: Memory, entry: nat, psize: nat, at: nat, ts: seq<seq<Word>>) {
    && |ts| * psize == 4096
    && forall j: nat | j < |ts| :: TableIs(mem, entry, psize, at, j, ts[j])
  }

  ghost predicate TableIs(mem: Memory, entry: nat, psize: nat, at: nat, j: nat, t: seq<Word>) {
    && at + j * psize < 0x1_0000_0000_0000_0000
    && if t == [] then mem(at + j * psize) == 0
       else mem(at + j * psize) != 0 && EntriesAt(mem, entry, mem(at + j * psize), t)
  }

  /** 4096 bytes of pointers to such tables of pointers. */
  ghost predicate TopAt(mem: Memory, entry: nat, psize: nat, at: nat, ts: seq<seq<seq<Word>>>) {
    && |ts| * psize == 4096
    && forall j: nat | j < |ts| :: SubtablesAre(mem, entry, psize, at, j, ts[j])
  }

  ghost predicate SubtablesAre(mem: Memory, entry: nat, psize: nat, at: nat, j: nat, t: seq<seq<Word>>) {
    && at + j * psize < 0x1_0000_0000_0000_0000
    && if t == [] then mem(at + j * psize) == 0
       else mem(at + j * psize) != 0 && TablesAt(mem, entry, psize, mem(at + j * psize), t)
  }

  // ----- what they hold

  /** The objects of the non-zero entries, in order. */
  function Objects(es: seq<Word>, v: Version, pm: PageMode): seq<bv64> {
    if es == [] then []
    else Objects(es[..|es| - 1], v, pm)
         + if es[|es| - 1] != 0 then [AdjustObjAddr(v, pm, es[|es| - 1] as bv64)] else []
  }

  function ObjectsOfTables(ts: seq<seq<Word>>, v: Version, pm: PageMode): seq<bv64> {
    if ts == [] then [] else ObjectsOfTables(ts[..|ts| - 1], v, pm) + Objects(ts[|ts| - 1], v, pm)
  }

  function ObjectsOfTop(ts: seq<seq<seq<Word>>>, v: Version, pm: PageMode): seq<bv64> {
    if ts == [] then [] else ObjectsOfTop(ts[..|ts| - 1], v, pm) + ObjectsOfTables(ts[|ts| - 1], v, pm)
  }

  // ----- counting

  lemma LowIs(g: Geometry, n: nat)
    requires Usable(g) && n * g.entry <= 4096 < (n + 1) * g.entry
    ensures Low(g) == n && n > 0
  {
    Quotients(4096, g.entry, n);
  }

  lemma Quotients(x: nat, d: nat, n: nat)
    requires d > 0 && n * d <= x < (n + 1) * d
    ensures x / d == n
  {
    var r := x - n * d;
    assert x == n * d + r && r < d;
    DivMod(n, d, r);
    assert Nth(n, d, r) == x;
  }

  lemma MidIs(g: Geometry, n: nat)
    requires Usable(g) && n * g.psize == 4096
    ensures Mid(g) == n
  {
  }

  lemma ItemIs(mem: Memory, at: nat, i: nat, size: nat)
    requires at + i * size < 0x1_0000_0000_0000_0000
    ensures Item(mem, at, i, size) == mem(at + i * size)
  {
  }

  // ----- groups of entries

  lemma ObjectsNext(es: seq<Word>, i: nat, v: Version, pm: PageMode)
    requires i < |es|
    ensures Objects(es[..i + 1], v, pm) == Objects(es[..i], v, pm)
            + if es[i] != 0 then [Adjusted(v, pm, es[i])] else []
  {
    hide AdjustObjAddr;
    assert es[..i + 1][..i] == es[..i];
  }

  /** A group of indices with these entries lists their objects. */
  lemma {:induction false} GroupListed(mem: Memory, g: Geometry, levels: nat, base: nat, a: nat, es: seq<Word>, i: nat,
                                       v: Version, pm: PageMode)
    requires Usable(g) && i <= |es|
    requires forall x: nat | x < |es| :: RawEntry(mem, g, levels, base, Nth(a, |es|, x)) == es[x]
    ensures ListedBelow(mem, g, levels, base, Nth(a, |es|, i), v, pm)
         == ListedBelow(mem, g, levels, base, Nth(a, |es|, 0), v, pm) + Objects(es[..i], v, pm)
  {
    hide RawEntry, Nth, Adjusted, ListedBelow, Objects;
    NoObjects(v, pm);
    if i == 0 {
      assert es[..0] == [];
    } else {
      var c, at := i - 1, Nth(a, |es|, i - 1);
      GroupListed(mem, g, levels, base, a, es, c, v, pm);
      NthSteps(a, |es|, c);
      NthSteps(a, |es|, i);
      assert RawEntry(mem, g, levels, base, at) == es[c];
      NextListed(mem, g, levels, base, at, v, pm);
      ObjectsNext(es, c, v, pm);
      Behind(ListedBelow(mem, g, levels, base, Nth(a, |es|, 0), v, pm), Objects(es[..c], v, pm),
             if es[c] != 0 then [Adjusted(v, pm, es[c])] else []);
    }
  }

  lemma Behind(a: seq<bv64>, b: seq<bv64>, c: seq<bv64>)
    ensures a + b + c == a + (b + c)
    ensures a + [] == a
  {
  }

  lemma NoObjects(v: Version, pm: PageMode)
    ensures Objects([], v, pm) == [] && ObjectsOfTables([], v, pm) == [] && ObjectsOfTop([], v, pm) == []
  {
  }

  lemma WholeGroup(mem: Memory, g: Geometry, levels: nat, base: nat, a: nat, es: seq<Word>, v: Version, pm: PageMode)
    requires Usable(g)
    requires forall x: nat | x < |es| :: RawEntry(mem, g, levels, base, Nth(a, |es|, x)) == es[x]
    ensures ListedBelow(mem, g, levels, base, Nth(a + 1, |es|, 0), v, pm)
         == ListedBelow(mem, g, levels, base, Nth(a, |es|, 0), v, pm) + Objects(es, v, pm)
  {
    hide RawEntry, Nth, ListedBelow, Objects;
    GroupListed(mem, g, levels, base, a, es, |es|, v, pm);
    NthSteps(a, |es|, 0);
    assert es[..|es|] == es;
  }

  // ----- no level

  /** A table without levels: the lookup of an index finds the entry there, and all objects are listed. */
  lemma FlatTable(mem: Memory, g: Geometry, base: nat, es: seq<Word>, v: Version, pm: PageMode)
    requires Usable(g) && EntriesAt(mem, g.entry, base, es)
    ensures |es| == Indices(g, 0)
    ensures forall i: nat | i < |es| :: LookedUp(mem, g, 0, base, i, v, pm) == DecodedByLookup(v, pm, es[i] as bv64)
    ensures ListedBelow(mem, g, 0, base, Indices(g, 0), v, pm) == Objects(es, v, pm)
  {
    hide DecodedByLookup, AdjustObjAddr, ListedBelow, Objects, Low;
    LowIs(g, |es|);
    NthSteps(0, |es|, 0);
    NthSteps(0, |es|, |es|);
    forall x: nat | x < |es|
      ensures RawEntry(mem, g, 0, base, x) == es[x] && Nth(0, |es|, x) == x
    {
      assert EntryIs(mem, g.entry, base, x, es[x]);
      ItemIs(mem, base, x, g.entry);
    }
    hide RawEntry, Nth;
    WholeGroup(mem, g, 0, base, 0, es, v, pm);
    EmptyList(mem, g, 0, base, v, pm);
  }

  lemma EmptyList(mem: Memory, g: Geometry, levels: nat, base: nat, v: Version, pm: PageMode)
    requires Usable(g)
    ensures ListedBelow(mem, g, levels, base, 0, v, pm) == []
  {
  }

  // ----- one level

  /** What is read through one pointer. */
  lemma TableItems(mem: Memory, g: Geometry, at: nat, j: nat, t: seq<Word>, i: nat)
    requires Usable(g) && TableIs(mem, g.entry, g.psize, at, j, t) && i < Low(g)
    ensures t == [] || |t| == Low(g)
    ensures Items(mem, Item(mem, at, j, g.psize), g.entry)(i) == if t == [] then 0 else t[i]
  {
    hide Low, Item;
    ItemIs(mem, at, j, g.psize);
    if t != [] {
      LowIs(g, |t|);
      var p := mem(at + j * g.psize);
      assert EntryIs(mem, g.entry, p, i, t[i]);
      ItemIs(mem, p, i, g.entry);
    }
  }

  lemma ObjectsOfTablesNext(ts: seq<seq<Word>>, j: nat, v: Version, pm: PageMode)
    requires j < |ts|
    ensures ObjectsOfTables(ts[..j + 1], v, pm) == ObjectsOfTables(ts[..j], v, pm) + Objects(ts[j], v, pm)
  {
    hide Objects;
    assert ts[..j + 1][..j] == ts[..j];
  }

  /** The next group of a table of tables. */
  lemma TableListed(mem: Memory, g: Geometry, levels: nat, base: nat, a: nat, t: seq<Word>, v: Version, pm: PageMode)
    requires Usable(g) && (t == [] || |t| == Low(g))
    requires forall i: nat | i < Low(g) ::
               RawEntry(mem, g, levels, base, Nth(a, Low(g), i)) == if t == [] then 0 else t[i]
    ensures ListedBelow(mem, g, levels, base, Nth(a + 1, Low(g), 0), v, pm)
         == ListedBelow(mem, g, levels, base, Nth(a, Low(g), 0), v, pm) + Objects(t, v, pm)
  {
    hide RawEntry, Nth, ListedBelow, Objects, Low;
    if t == [] {
      NoObjects(v, pm);
      SkipGroup(mem, g, levels, base, a, Low(g), v, pm);
    } else {
      WholeGroup(mem, g, levels, base, a, t, v, pm);
    }
  }

  lemma OneLevelEntry(mem: Memory, g: Geometry, base: nat, ts: seq<seq<Word>>, j: nat, i: nat)
    requires Usable(g) && TablesAt(mem, g.entry, g.psize, base, ts) && j < |ts| && i < Low(g)
    ensures ts[j] == [] || |ts[j]| == Low(g)
    ensures RawEntry(mem, g, 1, base, Nth(j, Low(g), i)) == if ts[j] == [] then 0 else ts[j][i]
  {
    hide RawEntry, Nth, Low, Mid, Items, Item;
    MidIs(g, |ts|);
    assert TableIs(mem, g.entry, g.psize, base, j, ts[j]);
    TableItems(mem, g, base, j, ts[j], i);
    RawOne(mem, g, base, j, i);
  }

  lemma {:induction false} OneLevelListed(mem: Memory, g: Geometry, base: nat, ts: seq<seq<Word>>, j: nat,
                                          v: Version, pm: PageMode)
    requires Usable(g) && TablesAt(mem, g.entry, g.psize, base, ts) && j <= |ts|
    ensures ListedBelow(mem, g, 1, base, Nth(j, Low(g), 0), v, pm) == ObjectsOfTables(ts[..j], v, pm)
  {
    hide RawEntry, Nth, ListedBelow, Objects, ObjectsOfTables, Low, TablesAt;
    if j == 0 {
      NthSteps(0, Low(g), 0);
      EmptyList(mem, g, 1, base, v, pm);
      NoObjects(v, pm);
      assert ts[..0] == [];
    } else {
      var c := j - 1;
      OneLevelListed(mem, g, base, ts, c, v, pm);
      OneLevelEntry(mem, g, base, ts, c, 0);
      forall i: nat | i < Low(g)
        ensures RawEntry(mem, g, 1, base, Nth(c, Low(g), i)) == if ts[c] == [] then 0 else ts[c][i]
      {
        OneLevelEntry(mem, g, base, ts, c, i);
      }
      TableListed(mem, g, 1, base, c, ts[c], v, pm);
      ObjectsOfTablesNext(ts, c, v, pm);
    }
  }

  /** A table with one level, `low` entries to each of its tables: entry i of table j has the index
      j * low + i. */
  lemma OneLevelLookup(mem: Memory, g: Geometry, base: nat, ts: seq<seq<Word>>, low: nat, j: nat, i: nat,
                       v: Version, pm: PageMode)
    requires Usable(g) && TablesAt(mem, g.entry, g.psize, base, ts)
    requires low * g.entry <= 4096 < (low + 1) * g.entry && j < |ts| && i < |ts[j]|
    ensures LookedUp(mem, g, 1, base, j * low + i, v, pm) == DecodedByLookup(v, pm, ts[j][i] as bv64)
  {
    hide RawEntry, DecodedByLookup, Low, Mid, TablesAt, Nth;
    LowIs(g, low);
    OneLevelEntry(mem, g, base, ts, j, 0);
    OneLevelEntry(mem, g, base, ts, j, i);
    NthIs(j, low, i);
  }

  /** All objects of such a table are listed, in the order of their indices. */
  lemma OneLevelTable(mem: Memory, g: Geometry, base: nat, ts: seq<seq<Word>>, v: Version, pm: PageMode)
    requires Usable(g) && TablesAt(mem, g.entry, g.psize, base, ts)
    ensures ListedBelow(mem, g, 1, base, Indices(g, 1), v, pm) == ObjectsOfTables(ts, v, pm)
  {
    hide ListedBelow, ObjectsOfTables, Low, Mid, TablesAt, Nth;
    SizeOfTables(mem, g, base, ts);
    OneLevelListed(mem, g, base, ts, |ts|, v, pm);
    assert ts[..|ts|] == ts;
  }

  lemma NthIs(a: nat, n: nat, r: nat)
    ensures Nth(a, n, r) == a * n + r
  {
  }

  lemma SizeOfTables(mem: Memory, g: Geometry, base: nat, ts: seq<seq<Word>>)
    requires Usable(g) && TablesAt(mem, g.entry, g.psize, base, ts)
    ensures Mid(g) == |ts|
  {
    MidIs(g, |ts|);
  }

  // ----- two levels

  lemma TwoLevelEntry(mem: Memory, g: Geometry, base: nat, ts: seq<seq<seq<Word>>>, j: nat, k: nat, i: nat)
    requires Usable(g) && TopAt(mem, g.entry, g.psize, base, ts) && j < |ts| && k < |ts[j]| && i < Low(g)
    ensures |ts[j]| == |ts| == Mid(g) && (ts[j][k] == [] || |ts[j][k]| == Low(g))
    ensures RawEntry(mem, g, 2, base, Nth(Nth(j, Mid(g), k), Low(g), i))
         == if ts[j][k] == [] then 0 else ts[j][k][i]
  {
    hide RawEntry, Nth, Low, Mid, Item;
    MidIs(g, |ts|);
    assert SubtablesAre(mem, g.entry, g.psize, base, j, ts[j]);
    ItemIs(mem, base, j, g.psize);
    var p := mem(base + j * g.psize);
    SizeOfTables(mem, g, p, ts[j]);
    assert TableIs(mem, g.entry, g.psize, p, k, ts[j][k]);
    TableItems(mem, g, p, k, ts[j][k], i);
    RawTwo(mem, g, base, j, k, i);
  }

  lemma ObjectsOfTopNext(ts: seq<seq<seq<Word>>>, j: nat, v: Version, pm: PageMode)
    requires j < |ts|
    ensures ObjectsOfTop(ts[..j + 1], v, pm) == ObjectsOfTop(ts[..j], v, pm) + ObjectsOfTables(ts[j], v, pm)
  {
    hide ObjectsOfTables;
    assert ts[..j + 1][..j] == ts[..j];
  }

  lemma {:induction false} SubtablesListed(mem: Memory, g: Geometry, base: nat, ts: seq<seq<seq<Word>>>, j: nat, k: nat,
                                           v: Version, pm: PageMode)
    requires Usable(g) && TopAt(mem, g.entry, g.psize, base, ts) && j < |ts| && k <= |ts[j]|
    ensures ListedBelow(mem, g, 2, base, Nth(Nth(j, Mid(g), k), Low(g), 0), v, pm)
         == ListedBelow(mem, g, 2, base, Nth(Nth(j, Mid(g), 0), Low(g), 0), v, pm)
            + ObjectsOfTables(ts[j][..k], v, pm)
    decreases k
  {
    hide RawEntry, Nth, ListedBelow, Objects, ObjectsOfTables, Low, Mid, TopAt;
    if k == 0 {
      NoObjects(v, pm);
      assert ts[j][..0] == [];
    } else {
      var c := k - 1;
      SubtablesListed(mem, g, base, ts, j, c, v, pm);
      TwoLevelEntry(mem, g, base, ts, j, c, 0);
      forall i: nat | i < Low(g)
        ensures RawEntry(mem, g, 2, base, Nth(Nth(j, Mid(g), c), Low(g), i))
             == if ts[j][c] == [] then 0 else ts[j][c][i]
      {
        TwoLevelEntry(mem, g, base, ts, j, c, i);
      }
      TableListed(mem, g, 2, base, Nth(j, Mid(g), c), ts[j][c], v, pm);
      NthSteps(j, Mid(g), c);
      NthSteps(j, Mid(g), k);
      ObjectsOfTablesNext(ts[j], c, v, pm);
    }
  }

  lemma AbsentTables(mem: Memory, g: Geometry, base: nat, ts: seq<seq<seq<Word>>>, j: nat)
    requires Usable(g) && TopAt(mem, g.entry, g.psize, base, ts) && j < |ts|
    ensures |ts| == Mid(g)
    ensures if ts[j] == [] then Item(mem, base, j, g.psize) == 0 else |ts[j]| == Mid(g)
  {
    hide Item, Mid;
    MidIs(g, |ts|);
    assert SubtablesAre(mem, g.entry, g.psize, base, j, ts[j]);
    ItemIs(mem, base, j, g.psize);
    if ts[j] != [] {
      SizeOfTables(mem, g, mem(base + j * g.psize), ts[j]);
    }
  }

  lemma {:induction false} TwoLevelListed(mem: Memory, g: Geometry, base: nat, ts: seq<seq<seq<Word>>>, j: nat,
                                          v: Version, pm: PageMode)
    requires Usable(g) && TopAt(mem, g.entry, g.psize, base, ts) && j <= |ts|
    ensures ListedBelow(mem, g, 2, base, Nth(Nth(j, Mid(g), 0), Low(g), 0), v, pm) == ObjectsOfTop(ts[..j], v, pm)
    decreases j
  {
    hide RawEntry, Nth, ListedBelow, ObjectsOfTables, ObjectsOfTop, Low, Mid, TopAt, Item;
    if j == 0 {
      NthSteps(0, Mid(g), 0);
      NthSteps(0, Low(g), 0);
      EmptyList(mem, g, 2, base, v, pm);
      NoObjects(v, pm);
      assert ts[..0] == [];
    } else {
      var c := j - 1;
      TwoLevelListed(mem, g, base, ts, c, v, pm);
      AbsentTables(mem, g, base, ts, c);
      NthSteps(c, Mid(g), 0);
      ObjectsOfTopNext(ts, c, v, pm);
      if ts[c] == [] {
        SkipMid(mem, g, base, c, Mid(g), v, pm);
        NoObjects(v, pm);
      } else {
        SubtablesListed(mem, g, base, ts, c, Mid(g), v, pm);
        assert ts[c][..|ts[c]|] == ts[c];
      }
    }
  }

  /** A table with two levels, `low` entries to each lowest table and `mid` pointers to each other one:
      entry i of table k of table j has the index (j * mid + k) * low + i. */
  lemma TwoLevelLookup(mem: Memory, g: Geometry, base: nat, ts: seq<seq<seq<Word>>>, low: nat, mid: nat,
                       j: nat, k: nat, i: nat, v: Version, pm: PageMode)
    requires Usable(g) && TopAt(mem, g.entry, g.psize, base, ts)
    requires low * g.entry <= 4096 < (low + 1) * g.entry && mid * g.psize == 4096
    requires j < |ts| && k < |ts[j]| && i < |ts[j][k]|
    ensures LookedUp(mem, g, 2, base, (j * mid + k) * low + i, v, pm)
         == DecodedByLookup(v, pm, ts[j][k][i] as bv64)
  {
    hide TopAt, DecodedByLookup, LookedUp, Low, Mid, Nth;
    LowIs(g, low);
    MidIs(g, mid);
    NthIs(j, mid, k);
    NthIs(j * mid + k, low, i);
    TwoLevelLooked(mem, g, base, ts, j, k, i, v, pm);
  }

  /** All objects of such a table are listed, in the order of their indices. */
  lemma TwoLevelTable(mem: Memory, g: Geometry, base: nat, ts: seq<seq<seq<Word>>>, v: Version, pm: PageMode)
    requires Usable(g) && TopAt(mem, g.entry, g.psize, base, ts)
    ensures ListedBelow(mem, g, 2, base, Indices(g, 2), v, pm) == ObjectsOfTop(ts, v, pm)
  {
    hide ListedBelow, ObjectsOfTop, Low, Mid, Nth;
    MidIs(g, |ts|);
    hide TopAt;
    TwoLevelListed(mem, g, base, ts, |ts|, v, pm);
    assert ts[..|ts|] == ts;
  }

  lemma TwoLevelLooked(mem: Memory, g: Geometry, base: nat, ts: seq<seq<seq<Word>>>, j: nat, k: nat, i: nat,
                       v: Version, pm: PageMode)
    requires Usable(g) && TopAt(mem, g.entry, g.psize, base, ts)
    requires j < |ts| && k < |ts[j]| && i < |ts[j][k]|
    ensures LookedUp(mem, g, 2, base, Nth(Nth(j, Mid(g), k), Low(g), i), v, pm)
         == DecodedByLookup(v, pm, ts[j][k][i] as bv64)
  {
    hide RawEntry, DecodedByLookup, Low, Mid, Nth, TopAt;
    TwoLevelEntry(mem, g, base, ts, j, k, 0);
    TwoLevelEntry(mem, g, base, ts, j, k, i);
  }
}
