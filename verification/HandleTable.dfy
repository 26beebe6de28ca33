/** A process's handle table in guest memory: looking up one handle, listing every object, and the two
    ways a table entry is turned into an object's address. */
module HandleTables {

  datatype Version = XP | Vista | Seven | Eight | Ten | Other

  datatype PageMode = IA32E | PAE | Legacy

  // ----- from an entry to an object's address

  const FAST_REF: bv64 := 7
  const KERNEL: bv64 := 0xFFFF_0000_0000_0000

  /** The bits from..to, the rest cleared. */
  function Bits19To63(x: bv64): bv64 {
    x & 0xFFFF_FFFF_FFF8_0000
  }

  function Bits2To31(x: bv64): bv64 {
    x & 0xFFFF_FFFC
  }

  function Unflagged(x: bv64): bv64 {
    x & !FAST_REF
  }

  /** The bits from 20 on, put into the bits 4 to 47 of a kernel address. */
  function From20(x: bv64): bv64 {
    ((Bits19To63(x) >> 20) << 4) | KERNEL
  }

  /** The bits from 19 on, put into the bits 3 to 47. */
  function From19(x: bv64): bv64 {
    (Bits19To63(x) >> 16) | KERNEL
  }

  /** As the lookup of one handle decodes it. It has no case for XP. */
  function DecodedByLookup(v: Version, pm: PageMode, obj: bv64): bv64 {
    match v
    case Vista | Seven => Unflagged(obj)
    case Eight => if pm == IA32E then From20(obj) else Bits2To31(obj)
    case _ => if pm == IA32E then From19(obj) else Bits2To31(obj)
  }

  /** As the lister decodes it. */
  function AdjustObjAddr(v: Version, pm: PageMode, obj: bv64): bv64 {
    match v
    case XP | Vista | Seven => Unflagged(obj)
    case _ => if pm == IA32E then From20(obj) else Bits2To31(obj)
  }

  predicate Bit19Clear(x: bv64) {
    x & 0x8_0000 == 0
  }

  predicate AllSetFrom3(x: bv64) {
    x | FAST_REF == 0xFFFF_FFFF_FFFF_FFFF
  }

  predicate ShortAndAligned(x: bv64) {
    x & 0xFFFF_FFFF_0000_0004 == 0
  }

  /** The entries both decode to the same address. Vista, 7 and 8 are decoded alike, and so is Windows
      10 with 32 bits. With 64 bits bit 19 must be clear on Windows 10, since the lookup moves it into the
      address. On XP, which the lookup takes for Windows 10, entries with 64 bits must have all bits from 3
      on set, and with 32 bits none above 31 nor bit 2. */
  predicate DecodedAlike(v: Version, pm: PageMode, obj: bv64) {
    match v
    case Vista | Seven | Eight => true
    case Ten | Other => pm == IA32E ==> Bit19Clear(obj)
    case XP => if pm == IA32E then AllSetFrom3(obj) else ShortAndAligned(obj)
  }

  /** For every version, page mode and entry, whether the two decoders agree. */
  lemma DecodersAgree(v: Version, pm: PageMode, obj: bv64)
    ensures DecodedByLookup(v, pm, obj) == AdjustObjAddr(v, pm, obj) <==> DecodedAlike(v, pm, obj)
  {
    hide Unflagged, From19, From20, Bits2To31, Bit19Clear, AllSetFrom3, ShortAndAligned;
    XpLong(obj);
    XpShort(obj);
    TenLong(obj);
  }

  lemma XpLong(obj: bv64)
    ensures From19(obj) == Unflagged(obj) <==> AllSetFrom3(obj)
  {
  }

  lemma XpShort(obj: bv64)
    ensures Bits2To31(obj) == Unflagged(obj) <==> ShortAndAligned(obj)
  {
  }

  lemma TenLong(obj: bv64)
    ensures From19(obj) == From20(obj) <==> Bit19Clear(obj)
  {
  }

  /** An 8 or 10 entry with 64 bits is listed as an address aligned to 16 bytes whose top 16 bits are
      set. */
  lemma KernelAddress(v: Version, obj: bv64)
    requires v == Eight || v == Ten
    ensures AdjustObjAddr(v, IA32E, obj) & 0xF == 0
    ensures AdjustObjAddr(v, IA32E, obj) & KERNEL == KERNEL
  {
  }

  // ----- the table in memory

  const WORD: nat := 0x1_0000_0000_0000_0000
  const PAGE: nat := 4096

  type Word = w: nat | w < WORD

  /** What a read of a word at an address gives; a failing read gives 0. */
  type Memory = nat -> Word

  /** The size of an entry and of a pointer. */
  datatype Geometry = Geometry(entry: nat, psize: nat)

  ghost predicate Usable(g: Geometry) {
    0 < g.entry <= PAGE && (g.psize == 4 || g.psize == 8)
  }

  /** Entries in a lowest table. */
  function Low(g: Geometry): (n: nat)
    requires Usable(g)
    ensures 0 < n <= 4096
  {
    PAGE / g.entry
  }

  /** Pointers in a table of tables. */
  function Mid(g: Geometry): (n: nat)
    requires Usable(g)
    ensures 0 < n <= 1024
  {
    PAGE / g.psize
  }

  /** Reads the i-th item of a table; addresses wrap round at 64 bits. */
  function Item(mem: Memory, table: nat, i: nat, size: nat): Word {
    mem((table + i * size) % WORD)
  }

  function U32(x: nat): nat {
    x % 0x1_0000_0000
  }

  /** The raw entry the lookup reads for an index, 0 when a table on the way is absent. */
  function RawEntry(mem: Memory, g: Geometry, levels: nat, base: nat, idx: nat): Word
    requires Usable(g)
  {
    if levels == 0 then
      Item(mem, base, idx, g.entry)
    else if levels == 1 then
      var i, j := idx % Low(g), U32(idx / Low(g));
      var table := Item(mem, base, j, g.psize);
      if table == 0 then 0 else Item(mem, table, i, g.entry)
    else if levels == 2 then
      var i, jk := idx % Low(g), U32(idx / Low(g));
      var k, j := jk % Mid(g), jk / Mid(g);
      var table := Item(mem, base, j, g.psize);
      var table2 := if table == 0 then 0 else Item(mem, table, k, g.psize);
      if table2 == 0 then 0 else Item(mem, table2, i, g.entry)
    else 0
  }

  /** The number r in the a-th group of n. */
  function Nth(a: nat, n: nat, r: nat): nat {
    a * n + r
  }

  /** How many indices a table of so many levels has. */
  function Indices(g: Geometry, levels: nat): nat
    requires Usable(g)
  {
    if levels == 0 then Low(g)
    else if levels == 1 then Nth(Mid(g), Low(g), 0)
    else if levels == 2 then Nth(Nth(Mid(g), Mid(g), 0), Low(g), 0)
    else 0
  }

  lemma {:induction false} DivMod(q: nat, n: nat, r: nat)
    requires r < n
    ensures Nth(q, n, r) / n == q && Nth(q, n, r) % n == r
    decreases q
  {
    var x := Nth(q, n, r);
    var d, m := x / n, x % n;
    assert x == n * d + m;
    assert n * (q - d) == m - r;
    Multiples(n, q - d);
  }

  lemma Multiples(n: nat, k: int)
    ensures k >= 1 ==> n * k >= n
    ensures k <= -1 ==> n * k + n <= 0
  {
  }

  lemma MulOrder(x: int, y: int, n: nat)
    requires x <= y
    ensures x * n <= y * n
  {
  }

  lemma NthSteps(a: nat, n: nat, r: nat)
    ensures Nth(a, n, 0) + r == Nth(a, n, r)
    ensures Nth(a, n, n) == Nth(a + 1, n, 0)
    ensures Nth(0, n, 0) == 0
  {
  }

  lemma NthBelow(a: nat, m: nat, r: nat, n: nat)
    requires a < m && r < n
    ensures Nth(a, n, r) < Nth(m, n, 0)
  {
    MulOrder(a + 1, m, n);
    NthSteps(a, n, n);
  }

  /** The index of a place in the tables is in range and leads back to that place. */
  lemma PlaceOfIndex(g: Geometry, j: nat, k: nat, i: nat)
    requires Usable(g) && j < Mid(g) && k < Mid(g) && i < Low(g)
    ensures var jk := Nth(j, Mid(g), k);
            var idx := Nth(jk, Low(g), i);
            && idx < Indices(g, 2)
            && idx % Low(g) == i && U32(idx / Low(g)) == jk
            && jk % Mid(g) == k && jk / Mid(g) == j
  {
    hide Low, Mid, Nth;
    var jk := Nth(j, Mid(g), k);
    DivMod(jk, Low(g), i);
    DivMod(j, Mid(g), k);
    NthBelow(j, Mid(g), k, Mid(g));
    NthBelow(jk, Nth(Mid(g), Mid(g), 0), i, Low(g));
    Small(Mid(g));
  }

  /** Every index in range is the index of a place in the tables: with `PlaceOfIndex`, which recovers
      the place, indices and places determine each other. */
  lemma IndexOfPlace(g: Geometry, idx: nat) returns (j: nat, k: nat, i: nat)
    requires Usable(g) && idx < Indices(g, 2)
    ensures j < Mid(g) && k < Mid(g) && i < Low(g)
    ensures idx == Nth(Nth(j, Mid(g), k), Low(g), i)
  {
    hide Nth;
    var low, mid := Low(g), Mid(g);
    assert idx < Nth(Nth(mid, mid, 0), low, 0);
    hide Low, Mid;
    Quotient(idx, Nth(mid, mid, 0), low);
    Quotient(idx / low, mid, mid);
    j, k, i := idx / low / mid, idx / low % mid, idx % low;
  }

  lemma Quotient(x: nat, m: nat, n: nat)
    requires n > 0 && x < Nth(m, n, 0)
    ensures x / n < m && x == Nth(x / n, n, x % n)
  {
    if x / n >= m {
      MulOrder(m, x / n, n);
    }
  }

  lemma Small(m: nat)
    requires m <= 1024
    ensures Nth(m, m, 0) <= 1024 * 1024
  {
    MulOrder(m, 1024, m);
  }

  // ----- what is listed

  ghost predicate InUse(mem: Memory, g: Geometry, levels: nat, base: nat, idx: nat)
    requires Usable(g)
  {
    RawEntry(mem, g, levels, base, idx) != 0
  }

  /** An entry's bits. */
  function Bits(raw: Word): bv64 {
    raw as bv64
  }

  function Adjusted(v: Version, pm: PageMode, raw: Word): bv64 {
    AdjustObjAddr(v, pm, Bits(raw))
  }

  /** The indices below n of the non-zero entries, in increasing order. */
  ghost function UsedBelow(mem: Memory, g: Geometry, levels: nat, base: nat, n: nat): seq<nat>
    requires Usable(g)
  {
    if n == 0 then []
    else if InUse(mem, g, levels, base, n - 1) then UsedBelow(mem, g, levels, base, n - 1) + [n - 1]
    else UsedBelow(mem, g, levels, base, n - 1)
  }

  /** Their entries, decoded. */
  ghost function ListedBelow(mem: Memory, g: Geometry, levels: nat, base: nat, n: nat, v: Version, pm: PageMode)
    : seq<bv64>
    requires Usable(g)
  {
    if n == 0 then []
    else
      var os := ListedBelow(mem, g, levels, base, n - 1, v, pm);
      if InUse(mem, g, levels, base, n - 1) then os + [Adjusted(v, pm, RawEntry(mem, g, levels, base, n - 1))] else os
  }

  lemma {:induction false} UsedBelowIs(mem: Memory, g: Geometry, levels: nat, base: nat, n: nat,
                                       v: Version, pm: PageMode)
    requires Usable(g)
    ensures var xs, os := UsedBelow(mem, g, levels, base, n), ListedBelow(mem, g, levels, base, n, v, pm);
            && (forall x: nat :: x in xs <==> x < n && InUse(mem, g, levels, base, x))
            && (forall a, b | 0 <= a < b < |xs| :: xs[a] < xs[b])
            && |os| == |xs|
            && (forall a | 0 <= a < |xs| :: os[a] == Adjusted(v, pm, RawEntry(mem, g, levels, base, xs[a])))
  {
    hide Adjusted, RawEntry;
    if n > 0 {
      UsedBelowIs(mem, g, levels, base, n - 1, v, pm);
      var ws := UsedBelow(mem, g, levels, base, n - 1);
      assert forall a | 0 <= a < |ws| :: ws[a] in ws;
    }
  }

  /** A stretch without entries in use adds nothing. */
  lemma {:induction false} NothingListed(mem: Memory, g: Geometry, levels: nat, base: nat, m: nat, n: nat,
                                         v: Version, pm: PageMode)
    requires Usable(g) && m <= n
    requires forall x: nat | m <= x < n :: !InUse(mem, g, levels, base, x)
    ensures ListedBelow(mem, g, levels, base, n, v, pm) == ListedBelow(mem, g, levels, base, m, v, pm)
  {
    hide Adjusted, RawEntry, InUse;
    if m < n {
      NothingListed(mem, g, levels, base, m, n - 1, v, pm);
    }
  }

  lemma NextListed(mem: Memory, g: Geometry, levels: nat, base: nat, n: nat, v: Version, pm: PageMode)
    requires Usable(g)
    ensures var os, raw := ListedBelow(mem, g, levels, base, n, v, pm), RawEntry(mem, g, levels, base, n);
            ListedBelow(mem, g, levels, base, n + 1, v, pm) == if raw != 0 then os + [Adjusted(v, pm, raw)] else os
  {
  }

  /** What is read from a table that may be absent. */
  function Items(mem: Memory, table: nat, size: nat): nat -> Word {
    i => if table == 0 then 0 else Item(mem, table, i, size)
  }

  lemma SkipGroup(mem: Memory, g: Geometry, levels: nat, base: nat, a: nat, n: nat, v: Version, pm: PageMode)
    requires Usable(g) && forall i: nat | i < n :: RawEntry(mem, g, levels, base, Nth(a, n, i)) == 0
    ensures ListedBelow(mem, g, levels, base, Nth(a + 1, n, 0), v, pm)
         == ListedBelow(mem, g, levels, base, Nth(a, n, 0), v, pm)
  {
    hide RawEntry, Nth;
    var from := Nth(a, n, 0);
    NthSteps(a, n, n);
    forall x: nat | from <= x < from + n
      ensures !InUse(mem, g, levels, base, x)
    {
      NthSteps(a, n, x - from);
    }
    NothingListed(mem, g, levels, base, from, from + n, v, pm);
  }

  /** The loop over a lowest table, the a-th group of entries. */
  method ListLow(mem: Memory, g: Geometry, ghost levels: nat, ghost base: nat, ghost a: nat, table: nat,
                 was: seq<bv64>, v: Version, pm: PageMode) returns (objs: seq<bv64>)
    requires Usable(g) && was == ListedBelow(mem, g, levels, base, Nth(a, Low(g), 0), v, pm)
    requires forall i: nat | i < Low(g) ::
               RawEntry(mem, g, levels, base, Nth(a, Low(g), i)) == Item(mem, table, i, g.entry)
    ensures objs == ListedBelow(mem, g, levels, base, Nth(a + 1, Low(g), 0), v, pm)
  {
    hide Adjusted, RawEntry, Item, Nth, ListedBelow, Low;
    objs := was;
    var i: nat := 0;
    while i < Low(g)
      invariant i <= Low(g) && objs == ListedBelow(mem, g, levels, base, Nth(a, Low(g), i), v, pm)
    {
      var obj := Item(mem, table, i, g.entry);
      NthSteps(a, Low(g), i);
      NthSteps(a, Low(g), i + 1);
      NextListed(mem, g, levels, base, Nth(a, Low(g), i), v, pm);
      if obj != 0 {
        objs := objs + [Adjusted(v, pm, obj)];
      }
      i := i + 1;
    }
    NthSteps(a, Low(g), 0);
  }

  lemma RawOne(mem: Memory, g: Geometry, base: nat, j: nat, i: nat)
    requires Usable(g) && j < Mid(g) && i < Low(g)
    ensures RawEntry(mem, g, 1, base, Nth(j, Low(g), i)) == Items(mem, Item(mem, base, j, g.psize), g.entry)(i)
  {
    hide Nth, Item, Low, Mid;
    DivMod(j, Low(g), i);
  }

  lemma RawTwo(mem: Memory, g: Geometry, base: nat, j: nat, k: nat, i: nat)
    requires Usable(g) && j < Mid(g) && k < Mid(g) && i < Low(g)
    ensures var table2 := Items(mem, Item(mem, base, j, g.psize), g.psize)(k);
            RawEntry(mem, g, 2, base, Nth(Nth(j, Mid(g), k), Low(g), i)) == Items(mem, table2, g.entry)(i)
  {
    hide Nth, Item, Low, Mid;
    PlaceOfIndex(g, j, k, i);
  }

  /** The loops over the j-th table of tables. */
  method ListMid(mem: Memory, g: Geometry, ghost base: nat, ghost j: nat, table: nat,
                 was: seq<bv64>, v: Version, pm: PageMode) returns (objs: seq<bv64>)
    requires Usable(g) && j < Mid(g) && table == Item(mem, base, j, g.psize) && table != 0
    requires was == ListedBelow(mem, g, 2, base, Nth(Nth(j, Mid(g), 0), Low(g), 0), v, pm)
    ensures objs == ListedBelow(mem, g, 2, base, Nth(Nth(j + 1, Mid(g), 0), Low(g), 0), v, pm)
  {
    hide Adjusted, RawEntry, Item, Nth, ListedBelow, Low, Mid;
    objs := was;
    var k: nat := 0;
    while k < Mid(g)
      invariant k <= Mid(g) && objs == ListedBelow(mem, g, 2, base, Nth(Nth(j, Mid(g), k), Low(g), 0), v, pm)
    {
      var table2 := Item(mem, table, k, g.psize);
      ghost var a := Nth(j, Mid(g), k);
      NthSteps(j, Mid(g), k);
      NthSteps(j, Mid(g), k + 1);
      forall i: nat | i < Low(g)
        ensures RawEntry(mem, g, 2, base, Nth(a, Low(g), i)) == Items(mem, table2, g.entry)(i)
      {
        RawTwo(mem, g, base, j, k, i);
      }
      if table2 != 0 {
        objs := ListLow(mem, g, 2, base, a, table2, objs, v, pm);
      } else {
        SkipGroup(mem, g, 2, base, a, Low(g), v, pm);
      }
      k := k + 1;
    }
    NthSteps(j, Mid(g), 0);
  }

  lemma {:induction false} SkipMid(mem: Memory, g: Geometry, base: nat, j: nat, k: nat, v: Version, pm: PageMode)
    requires Usable(g) && j < Mid(g) && k <= Mid(g) && Item(mem, base, j, g.psize) == 0
    ensures ListedBelow(mem, g, 2, base, Nth(Nth(j, Mid(g), k), Low(g), 0), v, pm)
         == ListedBelow(mem, g, 2, base, Nth(Nth(j, Mid(g), 0), Low(g), 0), v, pm)
    decreases k
  {
    hide Adjusted, RawEntry, Item, Nth, ListedBelow, Low, Mid;
    if k > 0 {
      var c := k - 1;
      SkipMid(mem, g, base, j, c, v, pm);
      var a := Nth(j, Mid(g), c);
      NthSteps(j, Mid(g), c);
      NthSteps(j, Mid(g), k);
      forall i: nat | i < Low(g)
        ensures RawEntry(mem, g, 2, base, Nth(a, Low(g), i)) == 0
      {
        RawTwo(mem, g, base, j, c, i);
      }
      SkipGroup(mem, g, 2, base, a, Low(g), v, pm);
    }
  }

  /** Lists the objects of a table of so many levels: those of all non-zero entries, each once, in the
      order of their indices. */
  method ListObjects(mem: Memory, g: Geometry, levels: nat, base: nat, v: Version, pm: PageMode)
    returns (objs: seq<bv64>)
    requires Usable(g)
    ensures objs == ListedBelow(mem, g, levels, base, Indices(g, levels), v, pm)
  {
    hide Adjusted, Item, Nth, Low, Mid;
    objs := [];
    NthSteps(0, Low(g), 0);
    NthSteps(0, Mid(g), 0);
    if levels == 0 {
      objs := ListFlat(mem, g, base, v, pm);
    } else if levels == 1 {
      objs := ListOne(mem, g, base, v, pm);
    } else if levels == 2 {
      hide RawEntry, ListedBelow;
      var j: nat := 0;
      assert objs == ListedBelow(mem, g, 2, base, Nth(Nth(j, Mid(g), 0), Low(g), 0), v, pm);
      while j < Mid(g)
        invariant j <= Mid(g) && objs == ListedBelow(mem, g, 2, base, Nth(Nth(j, Mid(g), 0), Low(g), 0), v, pm)
      {
        var table := Item(mem, base, j, g.psize);
        if table != 0 {
          objs := ListMid(mem, g, base, j, table, objs, v, pm);
        } else {
          SkipMid(mem, g, base, j, Mid(g), v, pm);
          NthSteps(j, Mid(g), 0);
        }
        j := j + 1;
      }
    }
  }

  method ListFlat(mem: Memory, g: Geometry, base: nat, v: Version, pm: PageMode) returns (objs: seq<bv64>)
    requires Usable(g)
    ensures objs == ListedBelow(mem, g, 0, base, Indices(g, 0), v, pm)
  {
    hide Adjusted, Item, Nth, Low;
    var n := Low(g);
    NthSteps(0, n, 0);
    NthSteps(0, n, n);
    forall i: nat | i < n
      ensures RawEntry(mem, g, 0, base, Nth(0, n, i)) == Item(mem, base, i, g.entry)
    {
      NthSteps(0, n, i);
    }
    hide RawEntry;
    objs := ListLow(mem, g, 0, base, 0, base, [], v, pm);
  }

  method ListOne(mem: Memory, g: Geometry, base: nat, v: Version, pm: PageMode) returns (objs: seq<bv64>)
    requires Usable(g)
    ensures objs == ListedBelow(mem, g, 1, base, Indices(g, 1), v, pm)
  {
    hide Adjusted, RawEntry, Item, Nth, Low, Mid;
    objs := [];
    NthSteps(0, Low(g), 0);
    var j: nat := 0;
    while j < Mid(g)
      invariant j <= Mid(g) && objs == ListedBelow(mem, g, 1, base, Nth(j, Low(g), 0), v, pm)
    {
      hide ListedBelow;
      var table := Item(mem, base, j, g.psize);
      forall i: nat | i < Low(g)
        ensures RawEntry(mem, g, 1, base, Nth(j, Low(g), i)) == Items(mem, table, g.entry)(i)
      {
        RawOne(mem, g, base, j, i);
      }
      if table != 0 {
        objs := ListLow(mem, g, 1, base, j, table, objs, v, pm);
      } else {
        SkipGroup(mem, g, 1, base, j, Low(g), v, pm);
      }
      j := j + 1;
    }
  }

  // ----- looking up against listing

  /** The object's address the lookup forms for an index. */
  function LookedUp(mem: Memory, g: Geometry, levels: nat, base: nat, idx: nat, v: Version, pm: PageMode): bv64
    requires Usable(g)
  {
    DecodedByLookup(v, pm, Bits(RawEntry(mem, g, levels, base, idx)))
  }

  /** The entry at an index is one that lookup and listing decode alike. */
  predicate EntryAlike(mem: Memory, g: Geometry, levels: nat, base: nat, idx: nat, v: Version, pm: PageMode)
    requires Usable(g)
  {
    DecodedAlike(v, pm, Bits(RawEntry(mem, g, levels, base, idx)))
  }

  lemma EntryDecoded(mem: Memory, g: Geometry, levels: nat, base: nat, idx: nat, v: Version, pm: PageMode)
    requires Usable(g)
    ensures Adjusted(v, pm, RawEntry(mem, g, levels, base, idx)) == LookedUp(mem, g, levels, base, idx, v, pm) <==>
            EntryAlike(mem, g, levels, base, idx, v, pm)
  {
    hide RawEntry, AdjustObjAddr, DecodedByLookup, DecodedAlike, Bits;
    DecodersAgree(v, pm, Bits(RawEntry(mem, g, levels, base, idx)));
  }

  /** For every version and tables of every number of levels: what is listed are the entries at the indices
      in use, each once and in the order of these indices, and each is listed as the object the lookup finds
      there exactly when its entry is one that both decode alike. */
  lemma LookupAgreesWithList(mem: Memory, g: Geometry, levels: nat, base: nat, v: Version, pm: PageMode)
    requires Usable(g)
    ensures var xs, os := UsedBelow(mem, g, levels, base, Indices(g, levels)),
                          ListedBelow(mem, g, levels, base, Indices(g, levels), v, pm);
            && |os| == |xs|
            && (forall x: nat :: x in xs <==> x < Indices(g, levels) && RawEntry(mem, g, levels, base, x) != 0)
            && (forall a | 0 <= a < |xs| ::
                  os[a] == LookedUp(mem, g, levels, base, xs[a], v, pm) <==>
                  EntryAlike(mem, g, levels, base, xs[a], v, pm))
            && (forall a, b | 0 <= a < b < |xs| :: xs[a] < xs[b])
  {
    hide RawEntry, Adjusted, LookedUp, EntryAlike, UsedBelow, ListedBelow, Indices;
    var n := Indices(g, levels);
    var xs := UsedBelow(mem, g, levels, base, n);
    UsedBelowIs(mem, g, levels, base, n, v, pm);
    forall x: nat
      ensures x in xs <==> x < n && RawEntry(mem, g, levels, base, x) != 0
    {
      assert InUse(mem, g, levels, base, x) <==> RawEntry(mem, g, levels, base, x) != 0;
    }
    forall a | 0 <= a < |xs|
      ensures Adjusted(v, pm, RawEntry(mem, g, levels, base, xs[a])) == LookedUp(mem, g, levels, base, xs[a], v, pm)
         <==> EntryAlike(mem, g, levels, base, xs[a], v, pm)
    {
      EntryDecoded(mem, g, levels, base, xs[a], v, pm);
    }
  }
}
