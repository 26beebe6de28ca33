/** Guest physical memory as pages of bytes, and the page a shadow frame is meant to hold.

    A frame that is absent from the map cannot be read or written: this is how the failures of
    `vmi_read_8_pa`, `vmi_write_8_pa` and `vmi_read_pa` are modelled. */
module GuestMemory {
  import opened Wrappers

  const PAGESIZE: nat := 4096

  const INT3: Byte := 0xCC

  type Page = p: seq<Byte> | |p| == PAGESIZE witness seq(PAGESIZE, _ => 0)

  type Memory = map<nat, Page>

  const ZERO_PAGE: Page := seq(PAGESIZE, _ => 0)

  function Gfn(pa: nat): nat {
    pa / PAGESIZE
  }

  function Off(pa: nat): nat {
    pa % PAGESIZE
  }

  function Pa(gfn: nat, off: nat): nat {
    gfn * PAGESIZE + off
  }

  lemma PaParts(gfn: nat, off: nat)
    requires off < PAGESIZE
    ensures Gfn(Pa(gfn, off)) == gfn && Off(Pa(gfn, off)) == off
  {
  }

  lemma PaWhole(pa: nat)
    ensures Off(pa) < PAGESIZE && Pa(Gfn(pa), Off(pa)) == pa
  {
  }

  function ReadByte(mem: Memory, pa: nat): Option<Byte> {
    if Gfn(pa) in mem then Some(mem[Gfn(pa)][Off(pa)]) else None
  }

  /** Writing to an absent frame fails and changes nothing. */
  function WriteByte(mem: Memory, pa: nat, b: Byte): Memory {
    if Gfn(pa) in mem then mem[Gfn(pa) := mem[Gfn(pa)][Off(pa) := b]] else mem
  }

  /** What a shadow page must hold: a breakpoint at every address of `pas`, the original elsewhere. */
  function Shadowed(page: Page, pas: set<nat>, gfn: nat): (shadow: Page)
    ensures forall off: nat | off < PAGESIZE ::
              shadow[off] == if Pa(gfn, off) in pas then INT3 else page[off]
  {
    seq(PAGESIZE, off requires 0 <= off < PAGESIZE => if Pa(gfn, off) in pas then INT3 else page[off])
  }

  /** With no breakpoint in the frame the shadow page is a plain copy. */
  lemma ShadowedCopy(page: Page, pas: set<nat>, gfn: nat)
    requires forall pa | pa in pas :: Gfn(pa) != gfn
    ensures Shadowed(page, pas, gfn) == page
  {
  }

  /** Adding one breakpoint writes INT3 at its offset and touches no other frame. */
  lemma ShadowedAdd(page: Page, pas: set<nat>, gfn: nat, pa: nat)
    ensures Shadowed(page, pas + {pa}, gfn) ==
            if Gfn(pa) == gfn then Shadowed(page, pas, gfn)[Off(pa) := INT3] else Shadowed(page, pas, gfn)
  {
  }

  /** Dropping one breakpoint puts the original byte back at its offset and touches no other frame. */
  lemma ShadowedRemove(page: Page, pas: set<nat>, gfn: nat, pa: nat)
    ensures Shadowed(page, pas - {pa}, gfn) ==
            if Gfn(pa) == gfn then Shadowed(page, pas, gfn)[Off(pa) := page[Off(pa)]] else Shadowed(page, pas, gfn)
  {
  }
}
