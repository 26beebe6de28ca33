/** Putting a file together from the page tables of its control area: the chain of subsections, their
    page-table entries, and the pages written where they belong. */
module FileExtract {
  import opened Wrappers
  import opened GuestMemory

  const SECTOR: nat := 0x200

  /** A subsection as it is read from guest memory; a failing read gives 0. */
  datatype Subsection = Subsection(controlArea: nat, base: nat, ptes: nat, start: nat, next: nat)

  /** What guest memory gives: subsections by address, page-table entries by address, which entries are
      present, and pages by physical address. Reading an entry or a page may fail. */
  datatype Guest = Guest(subsection: nat -> Subsection, pteSize: nat, pte: nat -> Option<nat>,
                         present: nat -> bool, page: nat -> Option<Page>)

  /** What the control area's segment says. */
  datatype Segment = Segment(controlArea: nat, size: nat, ptes: nat)

  /** One page and its place in the file. */
  datatype Write = Write(off: nat, page: Page)

  function EndOf(w: Write): nat {
    w.off + PAGESIZE
  }

  // ----- what is written

  /** Bits 12 to 48 of an entry. */
  function FrameAddress(pte: nat): nat {
    pte / PAGESIZE % 0x20_0000_0000 * PAGESIZE
  }

  /** The write for the n-th entry of a subsection, if it makes one. */
  function PageOf(g: Guest, s: Subsection, n: nat): (ws: seq<Write>)
    ensures |ws| <= 1
  {
    match g.pte(s.base + g.pteSize * n)
    case None => []
    case Some(pte) =>
      if !g.present(pte) then []
      else match g.page(FrameAddress(pte))
        case None => []
        case Some(page) => [Write(s.start * SECTOR + n * PAGESIZE, page)]
  }

  function PagesOf(g: Guest, s: Subsection, n: nat): seq<Write> {
    if n == 0 then [] else PagesOf(g, s, n - 1) + PageOf(g, s, n - 1)
  }

  /** How many entries are read from the k-th on: a failing read ends the subsection. */
  function EntriesRead(g: Guest, s: Subsection, k: nat): (n: nat)
    requires k <= s.ptes
    ensures k <= n <= s.ptes
    decreases s.ptes - k
  {
    if k == s.ptes || g.pte(s.base + g.pteSize * k) == None then k else EntriesRead(g, s, k + 1)
  }

  /** The walk ends at address 0, at a subsection of another control area, at one whose entries start on
      a page boundary and at one without entries. */
  predicate Stops(g: Guest, ca: nat, s: nat) {
    s == 0 || g.subsection(s).controlArea != ca || g.subsection(s).base % PAGESIZE == 0 || g.subsection(s).ptes == 0
  }

  /** The subsections the walk visits from s on, up to where it ends. */
  ghost predicate Chain(g: Guest, ca: nat, s: nat, chain: seq<nat>)
    decreases |chain|
  {
    if Stops(g, ca, s) then chain == []
    else chain != [] && chain[0] == s && Chain(g, ca, g.subsection(s).next, chain[1..])
  }

  function AllPages(g: Guest, chain: seq<nat>): seq<Write> {
    if chain == [] then []
    else
      var s := g.subsection(chain[|chain| - 1]);
      AllPages(g, chain[..|chain| - 1]) + PagesOf(g, s, EntriesRead(g, s, 0))
  }

  /** Writing at an offset; a gap in front is filled with zeros. */
  function Written(bytes: seq<Byte>, w: Write): (r: seq<Byte>)
    ensures |r| == if EndOf(w) > |bytes| then EndOf(w) else |bytes|
    ensures forall o | 0 <= o < |r| ::
              r[o] == if w.off <= o < EndOf(w) then w.page[o - w.off] else if o < |bytes| then bytes[o] else 0
  {
    var zeros := seq(if w.off > |bytes| then w.off - |bytes| else 0, _ => 0);
    var padded := bytes + zeros;
    padded[..w.off] + w.page + if EndOf(w) < |bytes| then bytes[EndOf(w)..] else []
  }

  function AllWritten(ws: seq<Write>): seq<Byte> {
    if ws == [] then [] else Written(AllWritten(ws[..|ws| - 1]), ws[|ws| - 1])
  }

  // ----- the extraction

  class File {
    var bytes: seq<Byte>

    constructor ()
      ensures bytes == []
    {
      bytes := [];
    }

    method WriteAt(off: nat, page: Page)
      modifies this
      ensures bytes == Written(old(bytes), Write(off, page))
    {
      bytes := Written(bytes, Write(off, page));
    }
  }

  /** Checks the control area against its segment and writes every page its subsections hold. The walk
      ends when the chain of subsections does. */
  method ExtractCaFile(g: Guest, ca: nat, segment: Segment, first: nat, fp: File, ghost chain: seq<nat>)
    returns (r: int)
    requires fp.bytes == [] && Chain(g, ca, first, chain)
    modifies fp
    ensures r == if segment.controlArea != ca || segment.size != segment.ptes * 4096 then -1 else 0
    ensures fp.bytes == if r == 0 then AllWritten(AllPages(g, chain)) else []
  {
    if segment.controlArea != ca || segment.size != segment.ptes * 4096 {
      return -1;
    }
    var s := first;
    ghost var i := 0;
    while s != 0
      invariant 0 <= i <= |chain| && Chain(g, ca, s, chain[i..])
      invariant fp.bytes == AllWritten(AllPages(g, chain[..i]))
      decreases |chain| - i
    {
      hide Written, AllWritten, PageOf;
      var sub := g.subsection(s);
      if sub.controlArea != ca || sub.base % PAGESIZE == 0 || sub.ptes == 0 {
        break;
      }
      assert chain[i] == s && chain[i..][1..] == chain[i + 1..];
      ExtractSubsection(g, sub, fp, AllPages(g, chain[..i]));
      assert chain[..i + 1][..i] == chain[..i];
      s := sub.next;
      i := i + 1;
    }
    assert chain[..i] == chain;
    return 0;
  }

  /** Writes the pages of one subsection. */
  method ExtractSubsection(g: Guest, s: Subsection, fp: File, ghost before: seq<Write>)
    requires fp.bytes == AllWritten(before)
    modifies fp
    ensures fp.bytes == AllWritten(before + PagesOf(g, s, EntriesRead(g, s, 0)))
  {
    hide Written, AllWritten, PagesOf, EntriesRead, FrameAddress;
    var n: nat := 0;
    NoPages(before, g, s);
    while n < s.ptes
      invariant n <= s.ptes && EntriesRead(g, s, n) == EntriesRead(g, s, 0)
      invariant fp.bytes == AllWritten(before + PagesOf(g, s, n))
    {
      ghost var ws := before + PagesOf(g, s, n);
      NextPages(before, g, s, n);
      assert ws + [] == ws;
      match g.pte(s.base + g.pteSize * n) {
        case None =>
          return;
        case Some(pte) =>
          if g.present(pte) {
            match g.page(FrameAddress(pte)) {
              case None =>
              case Some(page) =>
                var off := s.start * SECTOR + n * PAGESIZE;
                fp.WriteAt(off, page);
                OneMoreWrite(ws, Write(off, page));
            }
          }
      }
      n := n + 1;
    }
  }

  lemma NoPages(before: seq<Write>, g: Guest, s: Subsection)
    ensures before + PagesOf(g, s, 0) == before
    ensures EntriesRead(g, s, s.ptes) == s.ptes
  {
  }

  lemma NextPages(before: seq<Write>, g: Guest, s: Subsection, n: nat)
    requires n < s.ptes
    ensures before + PagesOf(g, s, n + 1) == before + PagesOf(g, s, n) + PageOf(g, s, n)
    ensures EntriesRead(g, s, n) == if g.pte(s.base + g.pteSize * n) == None then n else EntriesRead(g, s, n + 1)
  {
  }

  lemma OneMoreWrite(ws: seq<Write>, w: Write)
    ensures AllWritten(ws + [w]) == Written(AllWritten(ws), w)
  {
  }

  // ----- what the file holds

  predicate Covers(w: Write, o: nat) {
    w.off <= o < EndOf(w)
  }

  ghost predicate Apart(a: Write, b: Write) {
    EndOf(a) <= b.off || EndOf(b) <= a.off
  }

  ghost predicate AllApart(ws: seq<Write>) {
    forall i, j | 0 <= i < j < |ws| :: Apart(ws[i], ws[j])
  }

  /** Writes that do not overlap leave each page at its place and zeros between; the file ends with the
      last of them. */
  lemma {:induction false} WrittenHolds(ws: seq<Write>)
    requires AllApart(ws)
    ensures var f := AllWritten(ws);
            && (forall i | 0 <= i < |ws| :: EndOf(ws[i]) <= |f| && f[ws[i].off..EndOf(ws[i])] == ws[i].page)
            && (forall o | 0 <= o < |f| && (forall i | 0 <= i < |ws| :: !Covers(ws[i], o)) :: f[o] == 0)
            && (ws == [] ==> f == [])
            && (ws != [] ==> exists i :: 0 <= i < |ws| && EndOf(ws[i]) == |f|)
  {
    hide AllWritten;
    WrittenPages(ws);
    WrittenEnd(ws);
    forall o | 0 <= o < |AllWritten(ws)| && (forall i | 0 <= i < |ws| :: !Covers(ws[i], o))
      ensures AllWritten(ws)[o] == 0
    {
      WrittenZero(ws, o);
    }
  }

  lemma {:induction false} WrittenPages(ws: seq<Write>)
    requires AllApart(ws)
    ensures var f := AllWritten(ws);
            forall i | 0 <= i < |ws| :: EndOf(ws[i]) <= |f| && f[ws[i].off..EndOf(ws[i])] == ws[i].page
  {
    if ws != [] {
      var n: nat := |ws| - 1;
      var before, w := ws[..n], ws[n];
      WrittenPages(before);
      var f, h := AllWritten(before), AllWritten(ws);
      assert h == Written(f, w);
      hide AllWritten, Written;
      forall i | 0 <= i < |ws|
        ensures EndOf(ws[i]) <= |h| && h[ws[i].off..EndOf(ws[i])] == ws[i].page
      {
        if i < n {
          assert before[i] == ws[i] && Apart(ws[i], w);
          assert f[ws[i].off..EndOf(ws[i])] == ws[i].page;
        }
      }
    }
  }

  lemma {:induction false} WrittenZero(ws: seq<Write>, o: nat)
    requires o < |AllWritten(ws)| && forall i | 0 <= i < |ws| :: !Covers(ws[i], o)
    ensures AllWritten(ws)[o] == 0
  {
    if ws != [] {
      var n: nat := |ws| - 1;
      var f := AllWritten(ws[..n]);
      assert AllWritten(ws) == Written(f, ws[n]);
      assert !Covers(ws[n], o);
      hide Written, AllWritten;
      if o < |f| {
        WrittenZero(ws[..n], o);
      }
    }
  }

  lemma {:induction false} WrittenEnd(ws: seq<Write>)
    ensures ws == [] ==> AllWritten(ws) == []
    ensures ws != [] ==> exists i :: 0 <= i < |ws| && EndOf(ws[i]) == |AllWritten(ws)|
  {
    if ws != [] {
      var before := ws[..|ws| - 1];
      WrittenEnd(before);
      assert forall i | 0 <= i < |before| :: before[i] == ws[i];
      EndsWithOne(ws, AllWritten(before), AllWritten(ws));
    }
  }

  lemma EndsWithOne(ws: seq<Write>, f: seq<Byte>, h: seq<Byte>)
    requires ws != [] && h == Written(f, ws[|ws| - 1])
    requires ws[..|ws| - 1] == [] ==> f == []
    requires ws[..|ws| - 1] != [] ==> exists i :: 0 <= i < |ws| - 1 && EndOf(ws[i]) == |f|
    ensures exists i :: 0 <= i < |ws| && EndOf(ws[i]) == |h|
  {
  }

  // ----- which pages are written

  /** The n-th entry of a subsection is present and can be read, as can its page. */
  predicate Present(g: Guest, s: Subsection, n: nat) {
    var pte := g.pte(s.base + g.pteSize * n);
    pte != None && g.present(pte.value) && g.page(FrameAddress(pte.value)) != None
  }

  function PresentPage(g: Guest, s: Subsection, n: nat): Write
    requires Present(g, s, n)
  {
    Write(s.start * SECTOR + n * PAGESIZE, g.page(FrameAddress(g.pte(s.base + g.pteSize * n).value)).value)
  }

  /** No page-table entry of the subsection fails to be read. */
  ghost predicate EntriesReadable(g: Guest, s: Subsection) {
    forall n: nat | n < s.ptes :: g.pte(s.base + g.pteSize * n) != None
  }

  /** The part of the file a subsection is for. */
  function SectorsEnd(s: Subsection): nat {
    s.start * SECTOR + s.ptes * PAGESIZE
  }

  ghost predicate SectorsApart(a: Subsection, b: Subsection) {
    SectorsEnd(a) <= b.start * SECTOR || SectorsEnd(b) <= a.start * SECTOR
  }

  /** A chain whose entries can all be read and whose subsections are for different parts of the file. */
  ghost predicate WellFormed(g: Guest, chain: seq<nat>) {
    && (forall i | 0 <= i < |chain| :: EntriesReadable(g, g.subsection(chain[i])))
    && (forall i, j | 0 <= i < j < |chain| :: SectorsApart(g.subsection(chain[i]), g.subsection(chain[j])))
  }

  lemma {:induction false} AllEntriesRead(g: Guest, s: Subsection, k: nat)
    requires EntriesReadable(g, s) && k <= s.ptes
    ensures EntriesRead(g, s, k) == s.ptes
    decreases s.ptes - k
  {
    if k < s.ptes {
      AllEntriesRead(g, s, k + 1);
    }
  }

  /** The pages of the first n entries: the present ones, apart, inside the part they are for. */
  lemma {:induction false} PagesOfAre(g: Guest, s: Subsection, n: nat)
    ensures var ws := PagesOf(g, s, n);
            && (forall m: nat | m < n && Present(g, s, m) :: PresentPage(g, s, m) in ws)
            && (forall w | w in ws :: exists m: nat :: m < n && Present(g, s, m) && w == PresentPage(g, s, m))
            && (forall w | w in ws :: s.start * SECTOR <= w.off && EndOf(w) <= s.start * SECTOR + n * PAGESIZE)
            && AllApart(ws)
  {
    if n > 0 {
      PagesOfAre(g, s, n - 1);
      var before, one := PagesOf(g, s, n - 1), PageOf(g, s, n - 1);
      hide PagesOf;
      assert one == if Present(g, s, n - 1) then [PresentPage(g, s, n - 1)] else [];
      hide PageOf, Present, PresentPage;
      ApartAppend(before, one);
      forall w | w in before + one
        ensures exists m: nat :: m < n && Present(g, s, m) && w == PresentPage(g, s, m)
      {
        if w in before {
          var m: nat :| m < n - 1 && Present(g, s, m) && w == PresentPage(g, s, m);
        } else {
          var m: nat := n - 1;
          assert Present(g, s, m) && w == PresentPage(g, s, m);
        }
      }
    }
  }

  lemma ApartAppend(a: seq<Write>, b: seq<Write>)
    requires AllApart(a) && AllApart(b)
    requires forall v, w | v in a && w in b :: Apart(v, w)
    ensures AllApart(a + b)
  {
  }

  /** The pages written are exactly the present pages of the chain's subsections, no two overlapping. */
  lemma {:induction false} AllPagesAre(g: Guest, chain: seq<nat>)
    requires WellFormed(g, chain)
    ensures var ws := AllPages(g, chain);
            && (forall i: nat, n: nat | i < |chain| && n < g.subsection(chain[i]).ptes
                                        && Present(g, g.subsection(chain[i]), n) ::
                  PresentPage(g, g.subsection(chain[i]), n) in ws)
            && (forall w | w in ws :: Wanted(g, chain, w))
            && AllApart(ws)
  {
    hide PagesOf, Present, PresentPage, EntriesRead;
    if chain != [] {
      var k: nat := |chain| - 1;
      var before, s := chain[..k], g.subsection(chain[k]);
      assert forall i | 0 <= i < k :: before[i] == chain[i];
      AllPagesAre(g, before);
      AllEntriesRead(g, s, 0);
      PagesOfAre(g, s, s.ptes);
      var a, b := AllPages(g, before), PagesOf(g, s, s.ptes);
      forall w | w in b
        ensures Wanted(g, chain, w)
      {
        var m: nat :| m < s.ptes && Present(g, s, m) && w == PresentPage(g, s, m);
        assert Holds(g, chain, k, m, w);
      }
      forall w | w in a
        ensures Wanted(g, chain, w)
        ensures forall v | v in b :: Apart(w, v)
      {
        var i: nat, m: nat :| Holds(g, before, i, m, w);
        assert Holds(g, chain, i, m, w);
        assert SectorsApart(g.subsection(chain[i]), s);
        InsideSectors(g, g.subsection(chain[i]), m);
      }
      ApartAppend(a, b);
    }
  }

  ghost predicate Holds(g: Guest, chain: seq<nat>, i: nat, n: nat, w: Write) {
    i < |chain| && var s := g.subsection(chain[i]); n < s.ptes && Present(g, s, n) && w == PresentPage(g, s, n)
  }

  /** The page is that of a present entry of the chain. */
  ghost predicate Wanted(g: Guest, chain: seq<nat>, w: Write) {
    exists i: nat, n: nat :: Holds(g, chain, i, n, w)
  }

  lemma InsideSectors(g: Guest, s: Subsection, n: nat)
    requires Present(g, s, n) && n < s.ptes
    ensures s.start * SECTOR <= PresentPage(g, s, n).off && EndOf(PresentPage(g, s, n)) <= SectorsEnd(s)
  {
  }

  /** The extracted file: every present page at its place, zeros wherever no present page belongs, and
      the end of some present page as its end. */
  lemma ExtractedFile(g: Guest, chain: seq<nat>)
    requires WellFormed(g, chain)
    ensures var f := AllWritten(AllPages(g, chain));
            && (forall w | Wanted(g, chain, w) :: EndOf(w) <= |f| && f[w.off..EndOf(w)] == w.page)
            && (forall o | 0 <= o < |f| && (forall w | Wanted(g, chain, w) :: !Covers(w, o)) :: f[o] == 0)
            && (f != [] ==> exists w :: Wanted(g, chain, w) && EndOf(w) == |f|)
  {
    hide AllWritten, AllPages, Present, PresentPage;
    var ws := AllPages(g, chain);
    AllPagesAre(g, chain);
    WrittenHolds(ws);
    forall w | Wanted(g, chain, w)
      ensures w in ws
    {
      var i: nat, n: nat :| Holds(g, chain, i, n, w);
    }
    if ws != [] {
      var i :| 0 <= i < |ws| && EndOf(ws[i]) == |AllWritten(ws)|;
      assert Wanted(g, chain, ws[i]);
    }
  }

  /** The content is laid out in the subsections' pages: a present page holds the content's bytes at its
      place, bytes of no present page are zero, and the content ends with a present page. */
  ghost predicate LaidOut(g: Guest, chain: seq<nat>, content: seq<Byte>) {
    && (forall w | Wanted(g, chain, w) :: EndOf(w) <= |content| && w.page == content[w.off..EndOf(w)])
    && (forall o | 0 <= o < |content| && (forall w | Wanted(g, chain, w) :: !Covers(w, o)) :: content[o] == 0)
    && (content != [] ==> exists w :: Wanted(g, chain, w) && EndOf(w) == |content|)
  }

  /** Extracting a file that is laid out in memory gives the file. */
  lemma RoundTrip(g: Guest, chain: seq<nat>, content: seq<Byte>)
    requires WellFormed(g, chain) && LaidOut(g, chain, content)
    ensures AllWritten(AllPages(g, chain)) == content
  {
    hide AllWritten, AllPages, Wanted;
    var f := AllWritten(AllPages(g, chain));
    ExtractedFile(g, chain);
    assert |f| == |content|;
    forall o | 0 <= o < |f|
      ensures f[o] == content[o]
    {
      if w :| Wanted(g, chain, w) && Covers(w, o) {
        assert f[w.off..EndOf(w)][o - w.off] == content[w.off..EndOf(w)][o - w.off];
      }
    }
  }

  // ----- the chain

  lemma {:induction false} ChainIsOne(g: Guest, ca: nat, s: nat, c: seq<nat>, d: seq<nat>)
    requires Chain(g, ca, s, c) && Chain(g, ca, s, d)
    ensures c == d
    decreases |c|
  {
    if !Stops(g, ca, s) {
      ChainIsOne(g, ca, g.subsection(s).next, c[1..], d[1..]);
      assert c == [s] + c[1..] && d == [s] + d[1..];
    }
  }

  lemma {:induction false} ChainFrom(g: Guest, ca: nat, s: nat, c: seq<nat>, i: nat)
    requires Chain(g, ca, s, c) && i < |c|
    ensures Chain(g, ca, c[i], c[i..])
    decreases i
  {
    if i > 0 {
      ChainFrom(g, ca, g.subsection(s).next, c[1..], i - 1);
      assert c[1..][i - 1..] == c[i..];
    }
  }

  /** A chain the walk gets to the end of visits no subsection twice. */
  lemma NoSubsectionTwice(g: Guest, ca: nat, s: nat, c: seq<nat>, i: nat, j: nat)
    requires Chain(g, ca, s, c) && i < j < |c|
    ensures c[i] != c[j]
  {
    ChainFrom(g, ca, s, c, i);
    ChainFrom(g, ca, s, c, j);
    if c[i] == c[j] {
      ChainIsOne(g, ca, c[i], c[i..], c[j..]);
    }
  }

  // ----- told by bits and addresses

  /** Of an entry's bits, 12 to 48 are the frame's number; the flags below and the bits above play no
      part. */
  lemma FrameBits(high: nat, frame: nat, flags: nat)
    requires frame < 0x20_0000_0000 && flags < 0x1000
    ensures FrameAddress(high * 0x2_0000_0000_0000 + frame * 0x1000 + flags) == frame * 0x1000
  {
    var pte := high * 0x2_0000_0000_0000 + frame * 0x1000 + flags;
    assert pte == (high * 0x20_0000_0000 + frame) * 0x1000 + flags;
    assert pte / 0x1000 == high * 0x20_0000_0000 + frame;
  }

  /** The page of a present entry stands in the extracted file at 512 times the subsection's starting
      sector plus 4096 times the entry's place. */
  lemma PageStands(g: Guest, chain: seq<nat>, i: nat, n: nat, high: nat, frame: nat, flags: nat, page: Page)
    requires WellFormed(g, chain) && i < |chain| && n < g.subsection(chain[i]).ptes
    requires frame < 0x20_0000_0000 && flags < 0x1000
    requires var pte := high * 0x2_0000_0000_0000 + frame * 0x1000 + flags;
             g.pte(g.subsection(chain[i]).base + g.pteSize * n) == Some(pte) && g.present(pte)
    requires g.page(frame * 0x1000) == Some(page)
    ensures var f, at := AllWritten(AllPages(g, chain)), g.subsection(chain[i]).start * 0x200 + n * 0x1000;
            at + 0x1000 <= |f| && f[at..at + 0x1000] == page
  {
    hide AllWritten, AllPages, WellFormed, FrameAddress;
    var s := g.subsection(chain[i]);
    FrameBits(high, frame, flags);
    assert Holds(g, chain, i, n, PresentPage(g, s, n));
    ExtractedFile(g, chain);
  }

  /** A chain of subsections as they are linked in memory, and where the walk ends: at address 0, at a
      subsection of another control area, at one whose entries start at a multiple of 4096, or at one
      without entries. */
  ghost predicate Linked(g: Guest, ca: nat, first: nat, chain: seq<nat>, end: nat) {
    && first == (if chain == [] then end else chain[0])
    && (forall i: nat | i < |chain| :: LinkIs(g, ca, chain, i, end))
    && (|| end == 0 || g.subsection(end).controlArea != ca || g.subsection(end).base % 4096 == 0
        || g.subsection(end).ptes == 0)
  }

  ghost predicate LinkIs(g: Guest, ca: nat, chain: seq<nat>, i: nat, end: nat)
    requires i < |chain|
  {
    var s := g.subsection(chain[i]);
    && chain[i] != 0 && s.controlArea == ca && s.base % 4096 != 0 && s.ptes != 0
    && s.next == if i + 1 < |chain| then chain[i + 1] else end
  }

  lemma {:induction false} LinkedIsChain(g: Guest, ca: nat, first: nat, chain: seq<nat>, end: nat)
    requires Linked(g, ca, first, chain, end)
    ensures Chain(g, ca, first, chain)
    decreases |chain|
  {
    if chain != [] {
      var rest := chain[1..];
      assert LinkIs(g, ca, chain, 0, end);
      forall i: nat | i < |rest|
        ensures LinkIs(g, ca, rest, i, end)
      {
        assert LinkIs(g, ca, chain, i + 1, end);
      }
      LinkedIsChain(g, ca, g.subsection(first).next, rest, end);
    }
  }

  /** The subsections walked are exactly those linked from the first one on, up to the first that ends
      the walk. */
  lemma {:induction false} ChainIsLinked(g: Guest, ca: nat, first: nat, chain: seq<nat>) returns (end: nat)
    requires Chain(g, ca, first, chain)
    ensures Linked(g, ca, first, chain, end)
    decreases |chain|
  {
    if chain == [] {
      end := first;
    } else {
      var rest := chain[1..];
      end := ChainIsLinked(g, ca, g.subsection(first).next, rest);
      forall i: nat | i < |chain|
        ensures LinkIs(g, ca, chain, i, end)
      {
        if i > 0 {
          assert LinkIs(g, ca, rest, i - 1, end);
        }
      }
    }
  }
}
