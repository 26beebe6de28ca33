/** Where the matcher's answers are the declared meaning of a pattern, and where they are not. */
module PatternMeaning {
  import opened PathNodes
  import opened NodeMatch
  import opened CursorMachine
  import opened Matcher

  ghost predicate IsDouble(q: string) {
    TypeOf(q) == DoubleStar
  }

  ghost predicate NoDoubles(ps: seq<string>) {
    forall i | 0 <= i < |ps| :: !IsDouble(ps[i])
  }

  ghost predicate AllSupported(ps: seq<string>) {
    forall i | 0 <= i < |ps| :: Supported(ps[i])
  }

  /** Each node has room in the component at its own place. */
  ghost predicate LongInPlace(ps: seq<string>, cs: seq<string>, n: nat) {
    n <= |ps| && n <= |cs| && forall i | 0 <= i < n :: LongEnough(ps[i], cs[i])
  }

  /** The first n components are in the languages of the first n nodes. */
  ghost predicate InPlace(ps: seq<string>, cs: seq<string>, n: nat) {
    n <= |ps| && n <= |cs| && forall i | 0 <= i < n :: InLanguage(ps[i], cs[i])
  }

  lemma Agree(ps: seq<string>, cs: seq<string>, p: nat, e: nat)
    requires p < |ps| && e < |cs| && Supported(ps[p]) && !IsDouble(ps[p])
    ensures Meant(ps, cs).hit(p, e) <==> Compared(ps, cs).hit(p, e) && LongEnough(ps[p], cs[e])
  {
    hide Hit, InLanguage, LongEnough, Flat;
    HitIsLanguage(ps[p], cs, e);
  }

  /** A pattern without `**` means exactly the paths with as many components, each in its node's
      language. The matcher accepts all of those, and nothing else whose components have room for
      their nodes' text. */
  lemma PlainPattern(ps: seq<string>, cs: seq<string>)
    requires NoDoubles(ps) && AllSupported(ps)
    ensures Denotes(ps, cs) <==> |ps| == |cs| && InPlace(ps, cs, |ps|)
    ensures Denotes(ps, cs) <==> Accepts(ps, cs) && LongInPlace(ps, cs, |ps|)
  {
    hide Run, Glob, InLanguage, Hit, LongEnough;
    var c, m := Compared(ps, cs), Meant(ps, cs);
    assert forall i | 0 <= i < c.m :: IsDouble(ps[i]) == c.dbl(i) == m.dbl(i);
    PlainIsGlob(c);
    PlainIsGlob(m);
    if |ps| == |cs| {
      forall i: nat | i < |ps|
        ensures m.hit(i, i) <==> c.hit(i, i) && LongEnough(ps[i], cs[i])
        ensures m.hit(i, i) <==> InLanguage(ps[i], cs[i])
      {
        Agree(ps, cs, i, i);
      }
    }
  }

  /** A pattern whose only `**` is last means the paths whose first components match the nodes before
      it and that have at least one component more. */
  lemma FinalDouble(ps: seq<string>, cs: seq<string>)
    requires NoDoubles(ps) && AllSupported(ps)
    ensures var all := ps + ["**"];
            && (Denotes(all, cs) <==> |ps| < |cs| && InPlace(ps, cs, |ps|))
            && (Denotes(all, cs) <==> Accepts(all, cs) && LongInPlace(ps, cs, |ps|))
  {
    hide Run, Glob, InLanguage, Hit, LongEnough;
    var all, k := ps + ["**"], |ps|;
    var c, m := Compared(all, cs), Meant(all, cs);
    assert all[k] == "**" && forall i | 0 <= i < k :: all[i] == ps[i];
    assert forall i | 0 <= i < k :: IsDouble(ps[i]) == c.dbl(i) == m.dbl(i);
    assert c.dbl(k) && m.dbl(k);
    FinalDoubleIsGlob(c, k);
    FinalDoubleIsGlob(m, k);
    if k < |cs| {
      forall i: nat | i < k
        ensures m.hit(i, i) <==> c.hit(i, i) && LongEnough(ps[i], cs[i])
        ensures m.hit(i, i) <==> InLanguage(ps[i], cs[i])
      {
        Agree(all, cs, i, i);
      }
    }
  }

  // ----- when the comparisons decide membership

  /** The first `**` is node k; there is none when k is the number of nodes. */
  ghost predicate FirstDouble(ps: seq<string>, k: nat) {
    k <= |ps| && (forall i | 0 <= i < k :: !IsDouble(ps[i])) && (k < |ps| ==> IsDouble(ps[k]))
  }

  /** Each node has room in every component it is ever compared with: before the first `**` the one at
      its own place, behind it any later one. */
  ghost predicate Room(ps: seq<string>, cs: seq<string>, k: nat) {
    && (forall i | 0 <= i < k && i < |ps| && i < |cs| :: LongEnough(ps[i], cs[i]))
    && (forall p, e | k < p < |ps| && k < e < |cs| :: LongEnough(ps[p], cs[e]))
  }

  /** Two problems that agree wherever a pattern whose first `**` is node k is compared. */
  ghost predicate SameFor(a: Problem, b: Problem, k: nat) {
    && a.m == b.m && a.n == b.n && k <= a.m
    && (forall i | 0 <= i < a.m :: a.dbl(i) == b.dbl(i))
    && NoDouble(a, 0, k) && (k < a.m ==> a.dbl(k))
    && (forall i | 0 <= i < k && i < a.n :: a.hit(i, i) == b.hit(i, i))
    && (forall p, e | k < p < a.m && k < e < a.n && !a.dbl(p) :: a.hit(p, e) == b.hit(p, e))
  }

  /** The places a run or a match can get to. */
  ghost predicate Reached(k: nat, p: nat, e: nat) {
    (p == e && p <= k) || (k <= p && k <= e && (p > k ==> e > k))
  }

  lemma {:induction false} RunSame(a: Problem, b: Problem, k: nat, p: nat, e: nat)
    requires SameFor(a, b, k) && p <= a.m && e <= a.n && Reached(k, p, e)
    ensures Run(a, p, e) == Run(b, p, e)
    decreases a.n - e
  {
    hide Run;
    RunStep(a, p, e);
    RunStep(b, p, e);
    if p < a.m && e < a.n {
      RunSame(a, b, k, p + 1, e + 1);
      if a.dbl(p) {
        var o := Run(a, p + 1, e + 1);
        if !o.ok {
          RunSame(a, b, k, o.p - 1, o.e);
        }
      }
    }
  }

  lemma {:induction false} GlobSame(a: Problem, b: Problem, k: nat, p: nat, e: nat)
    requires SameFor(a, b, k) && p <= a.m && e <= a.n && Reached(k, p, e)
    ensures Glob(a, p, e) <==> Glob(b, p, e)
    decreases a.m - p
  {
    if p < a.m {
      var p1 := p + 1;
      if a.dbl(p) {
        forall c: nat | e < c <= a.n
          ensures Glob(a, p1, c) <==> Glob(b, p1, c)
        {
          GlobSame(a, b, k, p1, c);
        }
      } else if e < a.n {
        GlobSame(a, b, k, p1, e + 1);
      }
    }
  }

  lemma Doubles(ps: seq<string>, cs: seq<string>)
    ensures forall i | 0 <= i < |ps| :: Compared(ps, cs).dbl(i) == Meant(ps, cs).dbl(i) == IsDouble(ps[i])
  {
  }

  lemma ComparedAsMeant(ps: seq<string>, cs: seq<string>, k: nat)
    requires AllSupported(ps) && FirstDouble(ps, k) && Room(ps, cs, k)
    ensures SameFor(Compared(ps, cs), Meant(ps, cs), k)
  {
    hide Hit, InLanguage, LongEnough, Supported, TypeOf;
    Doubles(ps, cs);
    var c, m := Compared(ps, cs), Meant(ps, cs);
    forall i | 0 <= i < k && i < |cs|
      ensures c.hit(i, i) == m.hit(i, i)
    {
      Agree(ps, cs, i, i);
    }
    forall p, e | k < p < |ps| && k < e < |cs| && !c.dbl(p)
      ensures c.hit(p, e) == m.hit(p, e)
    {
      Agree(ps, cs, p, e);
    }
  }

  /** With room, the matcher and the meaning are those of the machine on the nodes' languages. */
  lemma AsMeant(ps: seq<string>, cs: seq<string>, k: nat)
    requires AllSupported(ps) && FirstDouble(ps, k) && Room(ps, cs, k)
    ensures Accepts(ps, cs) <==> Run(Meant(ps, cs), 0, 0).ok
    ensures Glob(Compared(ps, cs), 0, 0) <==> Denotes(ps, cs)
  {
    hide Run, Glob, SameFor;
    ComparedAsMeant(ps, cs, k);
    RunSame(Compared(ps, cs), Meant(ps, cs), k, 0, 0);
    GlobSame(Compared(ps, cs), Meant(ps, cs), k, 0, 0);
  }

  // ----- patterns with `**`

  /** The nodes match the last components. */
  ghost predicate AtEnd(xs: seq<string>, cs: seq<string>) {
    |xs| <= |cs| && forall i: nat | i < |xs| :: EndHit(xs, cs, i)
  }

  /** The i-th node matches the i-th of the last components. */
  ghost predicate EndHit(xs: seq<string>, cs: seq<string>, i: nat)
    requires i < |xs| <= |cs|
  {
    InLanguage(xs[i], cs[|cs| - |xs| + i])
  }

  lemma DoubleThenTail(ps: seq<string>, xs: seq<string>, cs: seq<string>)
    requires NoDoubles(ps) && NoDoubles(xs)
    ensures var all, k := ps + ["**"] + xs, |ps|;
            var m := Meant(all, cs);
            && FirstDouble(all, k) && k < m.m && m.dbl(k) && NoDouble(m, 0, k) && NoDouble(m, k + 1, m.m)
            && (PrefixMatches(m, k) <==> InPlace(ps, cs, k))
            && (m.m <= m.n ==> (Straight(m, k + 1, m.n - |xs|) <==> AtEnd(xs, cs)))
  {
    hide InLanguage;
    var all, k := ps + ["**"] + xs, |ps|;
    var m := Meant(all, cs);
    assert all[k] == "**" && IsDouble("**");
    forall i | 0 <= i < k
      ensures all[i] == ps[i] && !IsDouble(all[i])
    {
      assert !IsDouble(ps[i]);
    }
    assert FirstDouble(all, k);
    Doubles(all, cs);
    forall i | k < i < |all|
      ensures !m.dbl(i)
    {
      assert all[i] == xs[i - k - 1] && !IsDouble(xs[i - k - 1]);
    }
    forall i | 0 <= i < k && i < |cs|
      ensures m.hit(i, i) == InLanguage(ps[i], cs[i])
    {
      assert all[i] == ps[i];
    }
    if m.m <= m.n {
      TailMeans(ps, xs, cs);
    }
  }

  lemma TailMeans(ps: seq<string>, xs: seq<string>, cs: seq<string>)
    requires |ps| + 1 + |xs| <= |cs|
    ensures var m := Meant(ps + ["**"] + xs, cs);
            Straight(m, |ps| + 1, m.n - |xs|) <==> AtEnd(xs, cs)
  {
    hide Meant, EndHit, Hits;
    var m, k, from := Meant(ps + ["**"] + xs, cs), |ps| + 1, |cs| - |xs|;
    TailSize(ps, xs, cs);
    forall i: nat | i < |xs|
      ensures Hits(m, k, from, i) <==> EndHit(xs, cs, i)
    {
      TailHit(ps, xs, cs, i);
    }
  }

  lemma TailSize(ps: seq<string>, xs: seq<string>, cs: seq<string>)
    ensures var m := Meant(ps + ["**"] + xs, cs); m.m == |ps| + 1 + |xs| && m.n == |cs|
  {
  }

  lemma TailHit(ps: seq<string>, xs: seq<string>, cs: seq<string>, i: nat)
    requires |ps| + 1 + |xs| <= |cs| && i < |xs|
    ensures Hits(Meant(ps + ["**"] + xs, cs), |ps| + 1, |cs| - |xs|, i) <==> EndHit(xs, cs, i)
  {
    hide InLanguage;
    var all := ps + ["**"] + xs;
    assert all[|ps| + 1 + i] == xs[i];
  }

  /** For every pattern ps/`**`/xs with a single `**`, not last: what it means, exactly which of the
      paths it means the matcher misses, and exactly which others it accepts. `Missed` and `Invented` speak
      only of which components are in which nodes' languages. */
  lemma TailAfterDouble(ps: seq<string>, xs: seq<string>, cs: seq<string>)
    requires NoDoubles(ps) && NoDoubles(xs) && xs != [] && AllSupported(ps + ["**"] + xs)
    ensures var all := ps + ["**"] + xs;
            && (Denotes(all, cs) <==> |all| <= |cs| && InPlace(ps, cs, |ps|) && AtEnd(xs, cs))
            && (Room(all, cs, |ps|) ==>
                && (Denotes(all, cs) && !Accepts(all, cs) <==> Missed(Meant(all, cs), |ps|))
                && (Accepts(all, cs) && !Denotes(all, cs) <==> Invented(Meant(all, cs), |ps|)))
  {
    hide Run, Glob, InLanguage, Straight, PrefixMatches, Missed, Invented, AtEnd, InPlace, FirstDouble;
    hide AllSupported, Room, Accepts;
    var all, k := ps + ["**"] + xs, |ps|;
    DoubleThenTail(ps, xs, cs);
    if Room(all, cs, k) {
      AsMeant(all, cs, k);
    }
    GlobTail(Meant(all, cs), k);
    WhereWrong(Meant(all, cs), k);
  }

  /** With a single node x behind the `**` the matcher accepts nothing else; it misses exactly the paths
      where x also matches a component `**` has to skip other than the next-to-last one. */
  lemma OneNodeAfterDouble(ps: seq<string>, x: string, cs: seq<string>)
    requires NoDoubles(ps) && !IsDouble(x) && AllSupported(ps + ["**"] + [x])
    ensures var all, n := ps + ["**"] + [x], |cs|;
            && (Denotes(all, cs) <==> n >= |ps| + 2 && InPlace(ps, cs, |ps|) && InLanguage(x, cs[n - 1]))
            && (Room(all, cs, |ps|) ==>
                (Accepts(all, cs) <==>
                 Denotes(all, cs) && forall i | |ps| < i < n - 2 :: !InLanguage(x, cs[i])))
  {
    hide Run, Glob, InLanguage, PrefixMatches, InPlace, FirstDouble, AllSupported, Room, Accepts;
    var all, k, n := ps + ["**"] + [x], |ps|, |cs|;
    var m, last := Meant(all, cs), k + 1;
    DoubleThenTail(ps, [x], cs);
    OneAfterDouble(m, k);
    assert all[last] == x && forall e | 0 <= e < n :: m.hit(last, e) == InLanguage(x, cs[e]);
    InPlaceLength(ps, cs);
    if Room(all, cs, k) {
      AsMeant(all, cs, k);
      if Accepts(all, cs) {
        forall i | k < i < n - 2
          ensures !InLanguage(x, cs[i])
        {
          assert !m.hit(last, i);
        }
      }
    }
  }

  lemma InPlaceLength(ps: seq<string>, cs: seq<string>)
    ensures InPlace(ps, cs, |ps|) ==> |ps| <= |cs|
  {
  }

  /** A match under fewer hits is one under more. */
  lemma {:induction false} GlobMore(a: Problem, b: Problem, p: nat, e: nat)
    requires a.m == b.m && a.n == b.n && (forall i | 0 <= i < a.m :: a.dbl(i) == b.dbl(i))
    requires forall i, j | 0 <= i < a.m && 0 <= j < a.n && !a.dbl(i) && a.hit(i, j) :: b.hit(i, j)
    requires p <= a.m && e <= a.n && Glob(a, p, e)
    ensures Glob(b, p, e)
    decreases a.m - p
  {
    if p < a.m {
      if a.dbl(p) {
        var c := GlobSplit(a, p, e);
        GlobMore(a, b, p + 1, c);
      } else {
        GlobMore(a, b, p + 1, e + 1);
      }
    }
  }

  /** What a pattern means is always a match for the comparisons. */
  lemma MeantIsCompared(ps: seq<string>, cs: seq<string>)
    requires AllSupported(ps)
    ensures Denotes(ps, cs) ==> Glob(Compared(ps, cs), 0, 0)
  {
    hide Glob, Hit, InLanguage, LongEnough, Supported, TypeOf;
    Doubles(ps, cs);
    var c, m := Compared(ps, cs), Meant(ps, cs);
    forall i, j | 0 <= i < m.m && 0 <= j < m.n && !m.dbl(i) && m.hit(i, j)
      ensures c.hit(i, j)
    {
      Agree(ps, cs, i, j);
    }
    if Denotes(ps, cs) {
      GlobMore(m, c, 0, 0);
    }
  }

  /** Where the `**` nodes of a pattern are. */
  function DoublesOf(ps: seq<string>): nat -> bool {
    (i: nat) => i < |ps| && ps[i] == "**"
  }

  lemma ShapeOf(ps: seq<string>, cs: seq<string>)
    ensures forall i | 0 <= i < |ps| :: Compared(ps, cs).dbl(i) == Meant(ps, cs).dbl(i) == DoublesOf(ps)(i)
    ensures LooseShape(|ps|, DoublesOf(ps)) ==> LooseShape(|ps|, Compared(ps, cs).dbl)
    ensures var k := FirstDoubleFrom(|ps|, DoublesOf(ps), 0); FirstDouble(ps, k)
  {
    var d, c := DoublesOf(ps), Compared(ps, cs).dbl;
    assert forall i: nat :: c(i) == d(i);
    assert forall i | 0 <= i < |ps| :: IsDouble(ps[i]) == d(i);
    if LooseShape(|ps|, d) {
      forall i: nat | i < |ps| && !c(i) && BehindDouble(c, i)
        ensures NextDouble(|ps|, c, i)
      {
        assert BehindDouble(d, i) && NextDouble(|ps|, d, i);
      }
    }
  }

  /** Each node has room in every component it is ever compared with. */
  ghost predicate RoomEverywhere(ps: seq<string>, cs: seq<string>) {
    Room(ps, cs, FirstDoubleFrom(|ps|, DoublesOf(ps), 0))
  }

  /** When every other node behind a `**` is directly followed by a `**`, the matcher misses nothing the
      pattern means, and accepts nothing else on paths with room. */
  lemma LooseNodes(ps: seq<string>, cs: seq<string>)
    requires AllSupported(ps) && LooseShape(|ps|, DoublesOf(ps))
    ensures Denotes(ps, cs) ==> Accepts(ps, cs)
    ensures RoomEverywhere(ps, cs) ==> (Accepts(ps, cs) <==> Denotes(ps, cs))
  {
    hide Run, Glob, AllSupported, Room, TypeOf, LooseShape, FirstDouble;
    ShapeOf(ps, cs);
    LooseIsRight(Compared(ps, cs));
    MeantIsCompared(ps, cs);
    if RoomEverywhere(ps, cs) {
      AsMeant(ps, cs, FirstDoubleFrom(|ps|, DoublesOf(ps), 0));
    }
  }

  // ----- every other shape is wrong somewhere

  /** A name for each node, all different. */
  function NameOf(i: nat): string {
    seq(i + 1, _ => 'a')
  }

  /** A pattern with `**` where dbl says and different plain names elsewhere. */
  function PlainNodes(m: nat, dbl: nat -> bool): seq<string> {
    seq(m, i requires 0 <= i => if dbl(i) then "**" else NameOf(i))
  }

  /** The path on which such a pattern leads the machine astray. */
  function AstrayPath(m: nat, dbl: nat -> bool, d: nat): seq<string>
    requires d + 1 < m
  {
    var n := Astray(m, dbl, d).n;
    var c := n - (m - d - 1);
    seq(n, e requires 0 <= e =>
      if e < d then NameOf(e)
      else if e >= c >= 0 then NameOf(e - c + d + 1)
      else if (e - d) % 2 == 1 then NameOf(d + 1)
      else "b")
  }

  lemma PlainNodeHits(m: nat, dbl: nat -> bool, cs: seq<string>, p: nat, e: nat)
    requires p < m && !dbl(p) && e < |cs|
    ensures Compared(PlainNodes(m, dbl), cs).hit(p, e) == Meant(PlainNodes(m, dbl), cs).hit(p, e)
         == (NameOf(p) == cs[e])
  {
    hide Hit, InLanguage;
    assert StarFree(NameOf(p));
    PlainHit(NameOf(p), cs, e);
  }

  lemma NamesDiffer(i: nat, j: nat)
    ensures NameOf(i) == NameOf(j) <==> i == j
    ensures NameOf(i) != "b"
  {
    assert |NameOf(i)| == i + 1 && |NameOf(j)| == j + 1;
    assert NameOf(i)[0] == 'a';
  }

  lemma AstrayHit(m: nat, dbl: nat -> bool, d: nat, p: nat, e: nat)
    requires d + 1 < m && dbl(d) && p < m && !dbl(p) && e < Astray(m, dbl, d).n
    ensures Astray(m, dbl, d).hit(p, e) == (NameOf(p) == AstrayPath(m, dbl, d)[e])
  {
    hide NameOf;
    var c := d + 3 + 2 * DoublesBefore(dbl, 0, d);
    if e < d {
      NamesDiffer(p, e);
    } else if e >= c {
      NamesDiffer(p, e - c + d + 1);
    } else {
      NamesDiffer(p, d + 1);
    }
  }

  lemma PlainShape(m: nat, dbl: nat -> bool)
    ensures var ps := PlainNodes(m, dbl);
            |ps| == m && (forall i: nat | i < m :: DoublesOf(ps)(i) == dbl(i)) && AllSupported(ps)
  {
    var ps := PlainNodes(m, dbl);
    forall i: nat | i < m
      ensures DoublesOf(ps)(i) == dbl(i) && Supported(ps[i])
    {
      if !dbl(i) {
        assert NameOf(i)[0] == 'a' && StarFree(NameOf(i));
        assert ps[i] == NameOf(i);
      }
    }
  }

  lemma PlainRoom(ps: seq<string>, cs: seq<string>)
    requires forall i | 0 <= i < |ps| :: TypeOf(ps[i]) != MixedStar
    ensures RoomEverywhere(ps, cs)
  {
  }

  /** A pattern of any other shape, with plain names for its other nodes, and a path on which the matcher
      does not decide its meaning. */
  lemma TightNodes(m: nat, dbl: nat -> bool) returns (ps: seq<string>, cs: seq<string>)
    requires !LooseShape(m, dbl)
    ensures |ps| == m && (forall i: nat | i < m :: DoublesOf(ps)(i) == dbl(i))
    ensures AllSupported(ps) && RoomEverywhere(ps, cs)
    ensures !(Accepts(ps, cs) <==> Denotes(ps, cs))
  {
    hide Run, Glob, AllSupported, TypeOf, Room, NameOf, Hit, InLanguage;
    var d := TightExists(m, dbl);
    ps, cs := PlainNodes(m, dbl), AstrayPath(m, dbl, d);
    var q, c, t := Astray(m, dbl, d), Compared(ps, cs), Meant(ps, cs);
    PlainShape(m, dbl);
    PlainKinds(m, dbl);
    PlainRoom(ps, cs);
    ShapeOf(ps, cs);
    forall p, e | 0 <= p < m && 0 <= e < |cs| && !dbl(p)
      ensures q.hit(p, e) == c.hit(p, e) == t.hit(p, e)
    {
      AstrayHit(m, dbl, d, p, e);
      PlainNodeHits(m, dbl, cs, p, e);
    }
    AstrayIsWrong(m, dbl, d);
    var k := FirstDoubleFrom(m, DoublesOf(ps), 0);
    RunSame(q, c, k, 0, 0);
    GlobSame(q, t, k, 0, 0);
  }

  lemma PlainKinds(m: nat, dbl: nat -> bool)
    ensures forall i | 0 <= i < m :: TypeOf(PlainNodes(m, dbl)[i]) != MixedStar
  {
    forall i: nat | i < m
      ensures TypeOf(PlainNodes(m, dbl)[i]) != MixedStar
    {
      assert !dbl(i) ==> StarFree(NameOf(i));
    }
  }

  ghost predicate HasShape(ps: seq<string>, m: nat, dbl: nat -> bool) {
    |ps| == m && forall i: nat | i < m :: DoublesOf(ps)(i) == dbl(i)
  }

  ghost predicate Decided(ps: seq<string>, cs: seq<string>) {
    AllSupported(ps) && RoomEverywhere(ps, cs) ==> (Accepts(ps, cs) <==> Denotes(ps, cs))
  }

  /** Which positions of the `**` nodes make the matcher right: all patterns of that shape are decided as
      they are meant, on all paths with room, exactly when every other node behind a `**` is directly
      followed by a `**`. */
  lemma RightShapes(m: nat, dbl: nat -> bool)
    ensures LooseShape(m, dbl) <==> forall ps, cs | HasShape(ps, m, dbl) :: Decided(ps, cs)
  {
    hide Accepts, Denotes, RoomEverywhere, AllSupported;
    if LooseShape(m, dbl) {
      forall ps, cs | HasShape(ps, m, dbl)
        ensures Decided(ps, cs)
      {
        SameShape(m, dbl, DoublesOf(ps));
        if AllSupported(ps) {
          LooseNodes(ps, cs);
        }
      }
    } else {
      var ps, cs := TightNodes(m, dbl);
      assert HasShape(ps, m, dbl) && !Decided(ps, cs);
    }
  }

  lemma SameShape(m: nat, a: nat -> bool, b: nat -> bool)
    requires LooseShape(m, a) && forall i: nat | i < m :: b(i) == a(i)
    ensures LooseShape(m, b)
  {
    forall i: nat | i < m && !b(i) && BehindDouble(b, i)
      ensures NextDouble(m, b, i)
    {
      assert BehindDouble(a, i);
      assert NextDouble(m, a, i);
    }
  }

  // ----- all patterns, with restored cursors

  /** Were both cursors restored when it backtracks, the matcher would accept all that a pattern of
      supported nodes means, and nothing else on paths with room. */
  lemma RestoringIsMeant(ps: seq<string>, cs: seq<string>)
    requires AllSupported(ps)
    ensures Denotes(ps, cs) ==> Restoring(Compared(ps, cs), 0, 0)
    ensures RoomEverywhere(ps, cs) ==> (Restoring(Compared(ps, cs), 0, 0) <==> Denotes(ps, cs))
  {
    hide Run, Glob, Restoring, AllSupported, Room, FirstDouble;
    ShapeOf(ps, cs);
    MeantIsCompared(ps, cs);
    RestoringIsGlob(Compared(ps, cs), 0, 0);
    if RoomEverywhere(ps, cs) {
      AsMeant(ps, cs, FirstDoubleFrom(|ps|, DoublesOf(ps), 0));
    }
  }

  // ----- where the answers are wrong

  lemma PlainHit(q: string, cs: seq<string>, e: nat)
    requires e < |cs| && StarFree(q)
    ensures TypeOf(q) == Character && (Hit(q, cs, e) <==> q == cs[e])
    ensures InLanguage(q, cs[e]) <==> q == cs[e]
  {
    assert |q| > 0 ==> q[0] != '*';
    PlainLanguage(q, cs[e]);
  }

  /** `**`/b/c misses a/b/d/b/c. */
  lemma MissedPath()
    ensures var ps, cs := ["**", "b", "c"], ["a", "b", "d", "b", "c"];
            Denotes(ps, cs) && !Accepts(ps, cs)
  {
    hide Hit, InLanguage, Flat, Run, Glob;
    var ps, cs := ["**", "b", "c"], ["a", "b", "d", "b", "c"];
    forall e: nat | e < 5
      ensures Hit("b", cs, e) == InLanguage("b", cs[e]) == (e == 1 || e == 3)
      ensures Hit("c", cs, e) == InLanguage("c", cs[e]) == (e == 4)
    {
      PlainHit("b", cs, e);
      PlainHit("c", cs, e);
    }
    Misses(Compared(ps, cs));
    Misses(Meant(ps, cs));
  }

  /** `**`/x/y accepts a/x/y/y. */
  lemma WrongPath()
    ensures var ps, cs := ["**", "x", "y"], ["a", "x", "y", "y"];
            Accepts(ps, cs) && !Denotes(ps, cs)
  {
    hide Hit, InLanguage, Flat, Run, Glob;
    var ps, cs := ["**", "x", "y"], ["a", "x", "y", "y"];
    forall e: nat | e < 4
      ensures Hit("x", cs, e) == InLanguage("x", cs[e]) == (e == 1)
      ensures Hit("y", cs, e) == InLanguage("y", cs[e]) == (e == 2 || e == 3)
    {
      PlainHit("x", cs, e);
      PlainHit("y", cs, e);
    }
    WronglyAccepts(Compared(ps, cs));
    WronglyAccepts(Meant(ps, cs));
  }

  /** ab`*`/bc accepts a/bc: the text of a short component runs on into the next one. */
  lemma ShortComponent()
    ensures var ps, cs := ["ab*", "bc"], ["a", "bc"];
            Accepts(ps, cs) && !Denotes(ps, cs)
  {
  }
}
