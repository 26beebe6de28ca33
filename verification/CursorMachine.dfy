/** The matcher's two cursors: a machine over any table saying which pattern node matches which
    component, what it accepts, and the variant that restores the cursors when it backtracks. */
module CursorMachine {

  /** `m` pattern nodes against `n` components; `dbl` marks the `**` nodes, and `hit` says whether a
      node other than `**` matches a component. */
  datatype Problem = Problem(m: nat, n: nat, dbl: nat -> bool, hit: (nat, nat) -> bool)

  /** The answer, and where the call leaves the pattern and the expression cursor. */
  datatype Out = Out(ok: bool, p: nat, e: nat)

  /** The matcher from cursors (p, e). After a failed attempt behind a `**` only the pattern cursor
      moves, and only one back from where the attempt left it. The expression cursor never retreats,
      and the pattern cursor ends between its entry value and the end. */
  function Run(q: Problem, p: nat, e: nat): (o: Out)
    requires p <= q.m && e <= q.n
    ensures p <= o.p <= q.m && e <= o.e <= q.n
    ensures o.ok ==> o.p == q.m && o.e == q.n
    decreases q.n - e
  {
    if e == q.n || p == q.m then Out(e == q.n && p == q.m, p, e)
    else if q.dbl(p) then
      var o := Run(q, p + 1, e + 1);
      if o.ok then o else Run(q, o.p - 1, o.e)
    else if q.hit(p, e) then Run(q, p + 1, e + 1)
    else Out(false, p, e)
  }

  /** One step of it. */
  lemma RunStep(q: Problem, p: nat, e: nat)
    requires p <= q.m && e <= q.n
    ensures e == q.n || p == q.m ==> Run(q, p, e) == Out(e == q.n && p == q.m, p, e)
    ensures e < q.n && p < q.m && q.dbl(p) ==>
              var o := Run(q, p + 1, e + 1);
              Run(q, p, e) == if o.ok then o else Run(q, o.p - 1, o.e)
    ensures e < q.n && p < q.m && !q.dbl(p) ==>
              Run(q, p, e) == if q.hit(p, e) then Run(q, p + 1, e + 1) else Out(false, p, e)
  {
  }

  /** How often the expression cursor is advanced in such a call. */
  function Advances(q: Problem, p: nat, e: nat): nat
    requires p <= q.m && e <= q.n
    decreases q.n - e
  {
    if e == q.n || p == q.m then 0
    else if q.dbl(p) then
      var o := Run(q, p + 1, e + 1);
      1 + Advances(q, p + 1, e + 1) + if o.ok then 0 else Advances(q, o.p - 1, o.e)
    else if q.hit(p, e) then 1 + Advances(q, p + 1, e + 1)
    else 0
  }

  /** Whatever the pattern, a call advances the expression cursor exactly as far as it moves: at most
      once per component, however many `**` nodes there are. */
  lemma {:induction false} AdvancesBounded(q: Problem, p: nat, e: nat)
    requires p <= q.m && e <= q.n
    ensures Advances(q, p, e) == Run(q, p, e).e - e <= q.n - e
    decreases q.n - e
  {
    hide Run;
    RunStep(q, p, e);
    if e < q.n && p < q.m {
      if q.dbl(p) {
        AdvancesBounded(q, p + 1, e + 1);
        var o := Run(q, p + 1, e + 1);
        if !o.ok {
          AdvancesBounded(q, o.p - 1, o.e);
        }
      } else if q.hit(p, e) {
        AdvancesBounded(q, p + 1, e + 1);
      }
    }
  }

  // ----- patterns without `**`

  /** The i-th node from p on matches the i-th component from e on. */
  predicate Hits(q: Problem, p: nat, e: nat, i: nat) {
    q.hit(p + i, e + i)
  }

  /** The nodes from p on match the components from e on, one to one. */
  ghost predicate Straight(q: Problem, p: nat, e: nat)
    requires p <= q.m && e <= q.n
  {
    q.m - p == q.n - e && forall i: nat | i < q.m - p :: Hits(q, p, e, i)
  }

  ghost predicate NoDouble(q: Problem, lo: nat, hi: nat) {
    forall i | lo <= i < hi :: !q.dbl(i)
  }

  lemma StraightStep(q: Problem, p: nat, e: nat)
    requires p < q.m && e < q.n
    ensures Straight(q, p, e) <==> q.hit(p, e) && Straight(q, p + 1, e + 1)
  {
    if Straight(q, p, e) {
      assert Hits(q, p, e, 0);
      var p1, e1 := p + 1, e + 1;
      forall i: nat | i < q.m - p1
        ensures Hits(q, p1, e1, i)
      {
        assert Hits(q, p, e, i + 1);
      }
    }
    if q.hit(p, e) && Straight(q, p + 1, e + 1) {
      forall i: nat | i < q.m - p
        ensures Hits(q, p, e, i)
      {
        assert i > 0 ==> Hits(q, p + 1, e + 1, i - 1);
      }
    }
  }

  /** With no `**` ahead the machine accepts exactly the one-to-one matches. */
  lemma {:induction false} RunStraight(q: Problem, p: nat, e: nat)
    requires p <= q.m && e <= q.n && NoDouble(q, p, q.m)
    ensures Run(q, p, e).ok <==> Straight(q, p, e)
    decreases q.n - e
  {
    if e < q.n && p < q.m {
      StraightStep(q, p, e);
      if q.hit(p, e) {
        RunStraight(q, p + 1, e + 1);
      }
    }
  }

  // ----- patterns with one `**`

  /** How many nodes from p on match components from e on before the first failure or the end. */
  function Common(q: Problem, p: nat, e: nat): (j: nat)
    requires p <= q.m && e <= q.n
    ensures p + j <= q.m && e + j <= q.n
    ensures forall i: nat | i < j :: Hits(q, p, e, i)
    ensures p + j < q.m && e + j < q.n ==> !q.hit(p + j, e + j)
    decreases q.m - p
  {
    if p < q.m && e < q.n && q.hit(p, e) then
      var j := Common(q, p + 1, e + 1);
      assert forall i: nat | i < 1 + j :: i > 0 ==> Hits(q, p, e, i) == Hits(q, p + 1, e + 1, i - 1);
      1 + j
    else 0
  }

  /** The first component at or after e that the node matches, or the number of components. */
  function First(q: Problem, p: nat, e: nat): (x: nat)
    requires e <= q.n
    ensures e <= x <= q.n
    ensures forall i | e <= i < x :: !q.hit(p, i)
    ensures x < q.n ==> q.hit(p, x)
    decreases q.n - e
  {
    if e == q.n || q.hit(p, e) then e else First(q, p, e + 1)
  }

  /** With no `**` ahead, the machine stops where the common run ends. */
  lemma {:induction false} RunStops(q: Problem, p: nat, e: nat)
    requires p <= q.m && e <= q.n && NoDouble(q, p, q.m)
    ensures var j := Common(q, p, e);
            Run(q, p, e) == Out(p + j == q.m && e + j == q.n, p + j, e + j)
    decreases q.n - e
  {
    if e < q.n && p < q.m && q.hit(p, e) {
      RunStops(q, p + 1, e + 1);
    }
  }

  /** What happens at the one component where the node after `**` matches first: the rest matches from
      there, or it fails after j nodes and then the last of those is tried again, and everything after
      it must match to the end. */
  ghost predicate TailAccepted(q: Problem, k: nat, x: nat)
    requires k + 1 < q.m && x < q.n
  {
    var j := Common(q, k + 1, x);
    || (k + 1 + j == q.m && x + j == q.n)
    || (j > 0 && Straight(q, k + j, x + j))
  }

  lemma RunAtDouble(q: Problem, k: nat, e: nat)
    requires k < q.m && e < q.n && q.dbl(k)
    ensures var o := Run(q, k + 1, e + 1);
            Run(q, k, e) == if o.ok then o else Run(q, o.p - 1, o.e)
  {
  }

  /** One attempt behind the last `**`. */
  lemma DoubleStep(q: Problem, k: nat, e: nat)
    requires k + 1 < q.m && e < q.n && q.dbl(k) && NoDouble(q, k + 1, q.m)
    ensures var j := Common(q, k + 1, e + 1);
            Run(q, k, e).ok <==>
            if k + 1 + j == q.m && e + 1 + j == q.n then true
            else if j == 0 then Run(q, k, e + 1).ok
            else Straight(q, k + j, e + 1 + j)
  {
    hide Run, Common, Straight;
    var j := Common(q, k + 1, e + 1);
    RunAtDouble(q, k, e);
    RunStops(q, k + 1, e + 1);
    if j > 0 {
      RunStraight(q, k + j, e + 1 + j);
    }
  }

  /** From a `**` that is the last one, the machine skips components until the next node matches and
      then commits to that place. */
  lemma {:induction false} RunDouble(q: Problem, k: nat, e: nat)
    requires k + 1 < q.m && e < q.n && q.dbl(k) && NoDouble(q, k + 1, q.m)
    ensures var x := First(q, k + 1, e + 1);
            Run(q, k, e).ok <==> x < q.n && TailAccepted(q, k, x)
    decreases q.n - e
  {
    hide Straight;
    DoubleStep(q, k, e);
    if e + 1 < q.n && !q.hit(k + 1, e + 1) {
      RunDouble(q, k, e + 1);
    }
  }

  /** A final `**` takes any components, at least one. */
  lemma {:induction false} RunFinalDouble(q: Problem, k: nat, e: nat)
    requires k + 1 == q.m && e <= q.n && q.dbl(k)
    ensures Run(q, k, e).ok <==> e < q.n
    decreases q.n - e
  {
    if e < q.n {
      if e + 1 < q.n {
        RunFinalDouble(q, k, e + 1);
      }
    }
  }

  /** The nodes before k match the components before k. */
  ghost predicate PrefixMatches(q: Problem, k: nat) {
    k <= q.n && forall i | 0 <= i < k :: q.hit(i, i)
  }

  lemma {:induction false} RunPrefix(q: Problem, k: nat, i: nat)
    requires i <= k <= q.m && i <= q.n && NoDouble(q, 0, k)
    requires forall u | 0 <= u < i :: q.hit(u, u)
    requires k < q.m
    ensures PrefixMatches(q, k) ==> Run(q, i, i) == Run(q, k, k)
    ensures !PrefixMatches(q, k) ==> !Run(q, i, i).ok
    decreases k - i
  {
    if i < k && i < q.n && q.hit(i, i) {
      RunPrefix(q, k, i + 1);
    }
  }

  /** Exactly what the machine accepts for any pattern with a single `**`, at node k. */
  lemma OneDouble(q: Problem, k: nat)
    requires k < q.m && q.dbl(k) && NoDouble(q, 0, k) && NoDouble(q, k + 1, q.m)
    ensures Run(q, 0, 0).ok <==>
            && PrefixMatches(q, k) && k < q.n
            && (k + 1 == q.m || (First(q, k + 1, k + 1) < q.n && TailAccepted(q, k, First(q, k + 1, k + 1))))
  {
    RunPrefix(q, k, 0);
    if PrefixMatches(q, k) && k < q.n {
      if k + 1 == q.m {
        RunFinalDouble(q, k, k);
      } else {
        RunDouble(q, k, k);
      }
    }
  }

  // ----- declarative meaning

  /** Each node other than `**` matches one component; `**` stands for one or more. */
  ghost predicate Glob(q: Problem, p: nat, e: nat)
    requires p <= q.m && e <= q.n
    decreases q.m - p
  {
    if p == q.m then e == q.n
    else if q.dbl(p) then var p1 := p + 1; exists c: nat :: e < c <= q.n && Glob(q, p1, c)
    else e < q.n && q.hit(p, e) && Glob(q, p + 1, e + 1)
  }

  lemma GlobSplit(q: Problem, p: nat, e: nat) returns (c: nat)
    requires p < q.m && e <= q.n && q.dbl(p) && Glob(q, p, e)
    ensures e < c <= q.n && Glob(q, p + 1, c)
  {
    var p1 := p + 1;
    c :| e < c <= q.n && Glob(q, p1, c);
  }

  lemma {:induction false} GlobStraight(q: Problem, p: nat, e: nat)
    requires p <= q.m && e <= q.n && NoDouble(q, p, q.m)
    ensures Glob(q, p, e) <==> Straight(q, p, e)
    decreases q.m - p
  {
    if p < q.m && e < q.n {
      StraightStep(q, p, e);
      GlobStraight(q, p + 1, e + 1);
    }
  }

  lemma {:induction false} GlobPrefix(q: Problem, k: nat, i: nat)
    requires i <= k < q.m && i <= q.n && NoDouble(q, 0, k)
    requires forall u | 0 <= u < i :: q.hit(u, u)
    ensures Glob(q, i, i) <==> PrefixMatches(q, k) && Glob(q, k, k)
    decreases k - i
  {
    if i < k && i < q.n && q.hit(i, i) {
      GlobPrefix(q, k, i + 1);
    }
  }

  /** Without `**` the machine is right on every input. */
  lemma PlainIsGlob(q: Problem)
    requires NoDouble(q, 0, q.m)
    ensures Run(q, 0, 0).ok <==> Glob(q, 0, 0)
    ensures Glob(q, 0, 0) <==> q.m == q.n && forall i: nat | i < q.m :: q.hit(i, i)
  {
    RunStraight(q, 0, 0);
    GlobStraight(q, 0, 0);
    if Straight(q, 0, 0) {
      forall i: nat | i < q.m
        ensures q.hit(i, i)
      {
        assert Hits(q, 0, 0, i);
      }
    }
  }

  /** With its only `**` last, the machine is right on every input. */
  lemma FinalDoubleIsGlob(q: Problem, k: nat)
    requires k + 1 == q.m && q.dbl(k) && NoDouble(q, 0, k)
    ensures Run(q, 0, 0).ok <==> Glob(q, 0, 0)
    ensures Glob(q, 0, 0) <==> PrefixMatches(q, k) && k < q.n
  {
    OneDouble(q, k);
    GlobPrefix(q, k, 0);
    if PrefixMatches(q, k) {
      assert k < q.n ==> Glob(q, k + 1, q.n);
    }
  }

  /** With one node X after its only `**`: it is always sound, and it is complete exactly when X
      matches none of the components `**` must skip other than, possibly, the next-to-last. */
  lemma OneAfterDouble(q: Problem, k: nat)
    requires k + 2 == q.m && q.dbl(k) && NoDouble(q, 0, k) && !q.dbl(k + 1)
    ensures Glob(q, 0, 0) <==> PrefixMatches(q, k) && k + 2 <= q.n && q.hit(k + 1, q.n - 1)
    ensures Run(q, 0, 0).ok <==>
            Glob(q, 0, 0) && var x := k + 1; forall i: nat | x <= i < q.n - 2 :: !q.hit(x, i)
    ensures Run(q, 0, 0).ok <==>
            && PrefixMatches(q, k) && k < q.n
            && var f := First(q, k + 1, k + 1);
               f < q.n && (f + 1 == q.n || (f + 2 == q.n && q.hit(k + 1, q.n - 1)))
  {
    OneDouble(q, k);
    GlobPrefix(q, k, 0);
    if PrefixMatches(q, k) {
      GlobOne(q, k);
      if k < q.n {
        OneTail(q, k, First(q, k + 1, k + 1));
      }
    }
  }

  lemma GlobOne(q: Problem, k: nat)
    requires k + 2 == q.m && k <= q.n && q.dbl(k) && !q.dbl(k + 1)
    ensures Glob(q, k, k) <==> k + 2 <= q.n && q.hit(k + 1, q.n - 1)
  {
    if k + 2 <= q.n && q.hit(k + 1, q.n - 1) {
      assert Glob(q, k + 2, q.n);
      assert Glob(q, k + 1, q.n - 1);
    }
    if Glob(q, k, k) {
      var c := GlobSplit(q, k, k);
      assert Glob(q, k + 2, c + 1);
    }
  }

  lemma OneTail(q: Problem, k: nat, x: nat)
    requires k + 2 == q.m && x <= q.n
    ensures x < q.n && q.hit(k + 1, x) ==>
              (TailAccepted(q, k, x) <==> x + 1 == q.n || (x + 2 == q.n && q.hit(k + 1, x + 1)))
  {
    if x < q.n && q.hit(k + 1, x) {
      assert Common(q, k + 1, x) == 1;
      if x + 1 <= q.n {
        if x + 2 == q.n && q.hit(k + 1, x + 1) {
          assert Straight(q, k + 1, x + 1);
        }
        if Straight(q, k + 1, x + 1) {
          assert Hits(q, k + 1, x + 1, 0);
        }
      }
    }
  }

  // ----- one `**` with any tail: exactly where the machine is wrong

  /** How many nodes stand behind the `**` at k. */
  function Tail(q: Problem, k: nat): nat
    requires k < q.m
  {
    q.m - k - 1
  }

  /** From the first component x the node behind `**` matches, the nodes matched until the first
      failure; the last of them is tried again on the component that failed, and the rest must follow to
      the end. */
  ghost predicate Slips(q: Problem, k: nat, x: nat)
    requires k + 1 < q.m && x <= q.n
  {
    var j := Common(q, k + 1, x);
    x + Tail(q, k) + 1 == q.n && j > 0 && Straight(q, k + j, x + j)
  }

  /** What a single `**` means: the nodes behind it match the last components. */
  lemma GlobTail(q: Problem, k: nat)
    requires k < q.m && q.dbl(k) && NoDouble(q, 0, k) && NoDouble(q, k + 1, q.m)
    ensures Glob(q, 0, 0) <==> PrefixMatches(q, k) && q.m <= q.n && Straight(q, k + 1, q.n - Tail(q, k))
  {
    hide Straight, PrefixMatches;
    GlobPrefix(q, k, 0);
    if k <= q.n && Glob(q, k, k) {
      var c := GlobSplit(q, k, k);
      GlobStraight(q, k + 1, c);
      StraightLength(q, k + 1, c);
    }
    if q.m <= q.n {
      GlobStraight(q, k + 1, q.n - Tail(q, k));
    }
    PrefixLength(q, k);
  }

  lemma StraightLength(q: Problem, p: nat, e: nat)
    requires p <= q.m && e <= q.n && Straight(q, p, e)
    ensures q.m - p == q.n - e
  {
  }

  lemma PrefixLength(q: Problem, k: nat)
    ensures PrefixMatches(q, k) ==> k <= q.n
  {
  }

  /** What the machine accepts for a single `**` that is not last: the tail matches from the first
      component its first node matches, and ends the path, or it slips there. */
  lemma RunTail(q: Problem, k: nat)
    requires k + 1 < q.m && q.dbl(k) && NoDouble(q, 0, k) && NoDouble(q, k + 1, q.m)
    ensures Run(q, 0, 0).ok <==>
            && PrefixMatches(q, k) && k < q.n
            && var x := First(q, k + 1, k + 1);
               x < q.n && ((x + Tail(q, k) == q.n && Straight(q, k + 1, x)) || Slips(q, k, x))
  {
    hide Run;
    OneDouble(q, k);
    if k < q.n && First(q, k + 1, k + 1) < q.n {
      TailCases(q, k, First(q, k + 1, k + 1));
    }
  }

  lemma TailCases(q: Problem, k: nat, x: nat)
    requires k + 1 < q.m && x < q.n
    ensures TailAccepted(q, k, x) <==> (x + Tail(q, k) == q.n && Straight(q, k + 1, x)) || Slips(q, k, x)
  {
    var j := Common(q, k + 1, x);
    if x + Tail(q, k) == q.n && Straight(q, k + 1, x) {
      assert k + 1 + j < q.m ==> Hits(q, k + 1, x, j);
    }
  }

  /** A match the machine misses: the tail matches the last components, but its first node also matches
      an earlier component behind `**`, and the machine does not happen to slip from there to the end. */
  ghost predicate Missed(q: Problem, k: nat)
    requires k + 1 < q.m
  {
    && PrefixMatches(q, k) && q.m <= q.n && Straight(q, k + 1, q.n - Tail(q, k))
    && var x := First(q, k + 1, k + 1);
       x < q.n - Tail(q, k) && !Slips(q, k, x)
  }

  /** A mismatch the machine accepts: it slips to the end although the tail does not match the last
      components. */
  ghost predicate Invented(q: Problem, k: nat)
    requires k + 1 < q.m
  {
    && PrefixMatches(q, k) && q.m <= q.n && !Straight(q, k + 1, q.n - Tail(q, k))
    && Slips(q, k, First(q, k + 1, k + 1))
  }

  /** For every pattern with a single `**` and every path: exactly which matches are missed and which
      mismatches are accepted, told by which nodes match which components. */
  lemma WhereWrong(q: Problem, k: nat)
    requires k + 1 < q.m && q.dbl(k) && NoDouble(q, 0, k) && NoDouble(q, k + 1, q.m)
    ensures Glob(q, 0, 0) && !Run(q, 0, 0).ok <==> Missed(q, k)
    ensures Run(q, 0, 0).ok && !Glob(q, 0, 0) <==> Invented(q, k)
    ensures (Run(q, 0, 0).ok <==> Glob(q, 0, 0)) <==> !Missed(q, k) && !Invented(q, k)
  {
    hide Run, Glob, PrefixMatches, Slips;
    RunTail(q, k);
    GlobTail(q, k);
    SlipsLength(q, k);
    PrefixLength(q, k);
    if q.m <= q.n && Straight(q, k + 1, q.n - Tail(q, k)) {
      assert Hits(q, k + 1, q.n - Tail(q, k), 0);
    }
  }

  lemma SlipsLength(q: Problem, k: nat)
    requires k + 1 < q.m
    ensures k < q.n && Slips(q, k, First(q, k + 1, k + 1)) ==>
              First(q, k + 1, k + 1) + Tail(q, k) + 1 == q.n
  {
  }

  // ----- several `**`

  /** From the `**` at k on, every other node is directly followed by a `**`. */
  ghost predicate Loose(q: Problem, k: nat) {
    k < q.m && q.dbl(k) && forall i | k < i < q.m && !q.dbl(i) :: FollowedByDouble(q, i)
  }

  ghost predicate FollowedByDouble(q: Problem, i: nat) {
    i + 1 < q.m && q.dbl(i + 1)
  }

  /** A `**` can take the place of one that starts later. */
  lemma DoubleEarlier(q: Problem, p: nat, c: nat, e: nat)
    requires p < q.m && q.dbl(p) && e <= c <= q.n && Glob(q, p, c)
    ensures Glob(q, p, e)
  {
    var d := GlobSplit(q, p, c);
  }

  /** Behind such a `**` a failure means that the path is used up, so nothing is lost by not going
      back. */
  lemma {:induction false} RunLoose(q: Problem, k: nat, e: nat)
    requires Loose(q, k) && e <= q.n
    ensures Run(q, k, e).ok <==> Glob(q, k, e)
    ensures !Run(q, k, e).ok ==> Run(q, k, e).e == q.n
    decreases q.n - e
  {
    hide Run, Glob;
    RunStep(q, k, e);
    NoRoom(q, k);
    if e < q.n {
      if k + 1 == q.m {
        LooseLast(q, k, e);
      } else if q.dbl(k + 1) {
        RunLoose(q, k + 1, e + 1);
        LooseDouble(q, k, e);
        var o := Run(q, k + 1, e + 1);
        RunStep(q, o.p - 1, o.e);
      } else {
        assert FollowedByDouble(q, k + 1);
        LooseOther(q, k, e);
        RunStep(q, k + 1, e + 1);
        if e + 1 == q.n || !q.hit(k + 1, e + 1) {
          RunLoose(q, k, e + 1);
        } else {
          RunLoose(q, k + 2, e + 2);
          var o := Run(q, k + 2, e + 2);
          RunStep(q, o.p - 1, o.e);
        }
      }
    }
  }

  lemma NoRoom(q: Problem, k: nat)
    requires k < q.m
    ensures !Glob(q, k, q.n)
  {
  }

  lemma LooseLast(q: Problem, k: nat, e: nat)
    requires k + 1 == q.m && q.dbl(k) && e < q.n
    ensures Run(q, k, e).ok && Glob(q, k, e)
  {
    RunFinalDouble(q, k, e);
    assert Glob(q, k + 1, q.n);
  }

  lemma LooseDouble(q: Problem, k: nat, e: nat)
    requires k + 1 < q.m && q.dbl(k) && q.dbl(k + 1) && e < q.n
    ensures Glob(q, k, e) <==> Glob(q, k + 1, e + 1)
  {
    if Glob(q, k, e) {
      var c := GlobSplit(q, k, e);
      hide Glob;
      DoubleEarlier(q, k + 1, c, e + 1);
    }
  }

  lemma LooseOther(q: Problem, k: nat, e: nat)
    requires k + 2 < q.m && q.dbl(k) && !q.dbl(k + 1) && q.dbl(k + 2) && e < q.n
    ensures e + 1 < q.n && q.hit(k + 1, e + 1) ==> (Glob(q, k, e) <==> Glob(q, k + 2, e + 2))
    ensures e + 1 == q.n || !q.hit(k + 1, e + 1) ==> (Glob(q, k, e) <==> Glob(q, k, e + 1))
  {
    if Glob(q, k, e) {
      var c := GlobSplit(q, k, e);
      assert c < q.n && q.hit(k + 1, c) && Glob(q, k + 2, c + 1);
      hide Glob;
      if e + 1 < q.n && q.hit(k + 1, e + 1) {
        DoubleEarlier(q, k + 2, c + 1, e + 2);
      } else {
        DoubleAt(q, k, e + 1, c);
      }
    }
    if e + 1 < q.n && q.hit(k + 1, e + 1) && Glob(q, k + 2, e + 2) {
      assert Glob(q, k + 1, e + 1);
    }
    if Glob(q, k, e + 1) {
      DoubleEarlier(q, k, e + 1, e);
    }
  }

  lemma DoubleAt(q: Problem, k: nat, e: nat, c: nat)
    requires k < q.m && q.dbl(k) && e < c <= q.n && Glob(q, k + 1, c)
    ensures Glob(q, k, e)
  {
  }

  /** With any number of `**`, of which the last ends the pattern, and at most one other node between
      two of them, the machine is right on every input. */
  lemma LooseIsGlob(q: Problem, k: nat)
    requires Loose(q, k) && NoDouble(q, 0, k)
    ensures Run(q, 0, 0).ok <==> Glob(q, 0, 0)
  {
    hide Run, Glob;
    RunPrefix(q, k, 0);
    GlobPrefix(q, k, 0);
    if PrefixMatches(q, k) {
      RunLoose(q, k, k);
    }
  }

  // ----- which patterns are right on every path

  ghost predicate Right(q: Problem) {
    Run(q, 0, 0).ok <==> Glob(q, 0, 0)
  }

  /** Some `**` stands before node i. */
  ghost predicate BehindDouble(dbl: nat -> bool, i: nat) {
    exists j: nat :: j < i && dbl(j)
  }

  ghost predicate NextDouble(m: nat, dbl: nat -> bool, i: nat) {
    i + 1 < m && dbl(i + 1)
  }

  /** Every other node behind a `**` is directly followed by a `**`. */
  ghost predicate LooseShape(m: nat, dbl: nat -> bool) {
    forall i: nat | i < m && !dbl(i) && BehindDouble(dbl, i) :: NextDouble(m, dbl, i)
  }

  /** The first `**`, or the end. */
  function FirstDoubleFrom(m: nat, dbl: nat -> bool, i: nat): (k: nat)
    requires i <= m && forall j | 0 <= j < i :: !dbl(j)
    ensures k <= m && (forall j | 0 <= j < k :: !dbl(j)) && (k < m ==> dbl(k))
    decreases m - i
  {
    if i == m || dbl(i) then i else FirstDoubleFrom(m, dbl, i + 1)
  }

  lemma LooseIsRight(q: Problem)
    requires LooseShape(q.m, q.dbl)
    ensures Right(q)
  {
    hide Run, Glob;
    var k := FirstDoubleFrom(q.m, q.dbl, 0);
    if k == q.m {
      PlainIsGlob(q);
    } else {
      forall i | k < i < q.m && !q.dbl(i)
        ensures FollowedByDouble(q, i)
      {
        assert BehindDouble(q.dbl, i);
        assert NextDouble(q.m, q.dbl, i);
      }
      LooseIsGlob(q, k);
    }
  }

  /** A `**` whose next node is another one that is last or not followed by a `**`. */
  ghost predicate TightAt(m: nat, dbl: nat -> bool, d: nat) {
    d + 1 < m && dbl(d) && !dbl(d + 1) && !NextDouble(m, dbl, d + 1)
  }

  /** The last `**` before i. */
  function LastDouble(dbl: nat -> bool, i: nat): (d: nat)
    requires BehindDouble(dbl, i)
    ensures d < i && dbl(d) && forall j | d < j < i :: !dbl(j)
  {
    if dbl(i - 1) then i - 1
    else
      assert BehindDouble(dbl, i - 1);
      LastDouble(dbl, i - 1)
  }

  lemma TightExists(m: nat, dbl: nat -> bool) returns (d: nat)
    requires !LooseShape(m, dbl)
    ensures TightAt(m, dbl, d)
  {
    var i: nat :| i < m && !dbl(i) && BehindDouble(dbl, i) && !NextDouble(m, dbl, i);
    d := LastDouble(dbl, i);
  }

  /** How many `**` stand from i on before d. */
  function DoublesBefore(dbl: nat -> bool, i: nat, d: nat): nat
    requires i <= d
    decreases d - i
  {
    if i == d then 0 else (if dbl(i) then 1 else 0) + DoublesBefore(dbl, i + 1, d)
  }

  /** A path that leads the machine astray: each node before d matches the component at its place; the
      node behind d matches every second one of more components than there are `**` up to d, and none
      follows suit; the true match of the rest comes last. */
  function Astray(m: nat, dbl: nat -> bool, d: nat): Problem
    requires d + 1 < m
  {
    var c := d + 3 + 2 * DoublesBefore(dbl, 0, d);
    Problem(m, c + m - d - 1, dbl,
            (p: nat, e: nat) => if p < d then e == p
                                else e + d + 1 == c + p || (p == d + 1 && d < e < c && (e - d) % 2 == 1))
  }

  /** From the `**` at d the machine takes a decoy, fails behind it and gives up two components on. */
  lemma DecoyTaken(m: nat, dbl: nat -> bool, d: nat, j: nat)
    requires TightAt(m, dbl, d) && j <= DoublesBefore(dbl, 0, d)
    ensures var q := Astray(m, dbl, d);
            d + 2 * j + 2 < q.n && Run(q, d, d + 2 * j) == Out(false, d + 1, d + 2 * j + 2)
  {
    hide Run, Astray;
    var q := Astray(m, dbl, d);
    var e := d + 2 * j;
    AstrayHits(m, dbl, d, j);
    RunStep(q, d, e);
    RunStep(q, d + 1, e + 1);
    RunStep(q, d + 2, e + 2);
    RunStep(q, d + 1, e + 2);
  }

  lemma AstrayHits(m: nat, dbl: nat -> bool, d: nat, j: nat)
    requires d + 1 < m && j <= DoublesBefore(dbl, 0, d)
    ensures var q, e := Astray(m, dbl, d), d + 2 * j;
            && q.m == m && q.dbl == dbl && e + 2 < q.n
            && q.hit(d + 1, e + 1) && !q.hit(d + 1, e + 2) && !q.hit(d + 2, e + 2)
  {
    assert (d + 2 * j + 1 - d) % 2 == 1 && (d + 2 * j + 2 - d) % 2 == 0;
  }

  /** Every `**` before d takes one more decoy, and there are enough of them. */
  lemma {:induction false} AstrayFails(m: nat, dbl: nat -> bool, d: nat, i: nat)
    requires TightAt(m, dbl, d) && i <= d
    requires DoublesBefore(dbl, i, d) <= DoublesBefore(dbl, 0, d)
    ensures var q := Astray(m, dbl, d);
            d + 2 * DoublesBefore(dbl, i, d) + 2 < q.n &&
            Run(q, i, i) == Out(false, d + 1, d + 2 * DoublesBefore(dbl, i, d) + 2)
    decreases d - i
  {
    hide Run;
    var q := Astray(m, dbl, d);
    if i == d {
      DecoyTaken(m, dbl, d, 0);
    } else {
      AstrayFails(m, dbl, d, i + 1);
      RunStep(q, i, i);
      if dbl(i) {
        DecoyTaken(m, dbl, d, DoublesBefore(dbl, i + 1, d) + 1);
      }
    }
  }

  lemma {:induction false} DoublesFewer(dbl: nat -> bool, i: nat, d: nat)
    requires i <= d
    ensures DoublesBefore(dbl, i, d) <= DoublesBefore(dbl, 0, d)
  {
    if i > 0 {
      DoublesFewer(dbl, i - 1, d);
    }
  }

  /** The path is nevertheless one the pattern means. */
  lemma {:induction false} AstrayEnd(m: nat, dbl: nat -> bool, d: nat, p: nat)
    requires d + 1 < m && d < p <= m
    ensures var q := Astray(m, dbl, d);
            var e := q.n - (m - p);
            e >= 0 && Glob(q, p, e)
    decreases m - p
  {
    if p < m {
      AstrayEnd(m, dbl, d, p + 1);
    }
  }

  lemma {:induction false} AstrayMeant(m: nat, dbl: nat -> bool, d: nat, i: nat)
    requires d + 1 < m && dbl(d) && i <= d
    ensures Glob(Astray(m, dbl, d), i, i)
    decreases d - i
  {
    var q := Astray(m, dbl, d);
    if i == d {
      AstrayEnd(m, dbl, d, d + 1);
    } else {
      AstrayMeant(m, dbl, d, i + 1);
    }
  }

  lemma AstrayIsWrong(m: nat, dbl: nat -> bool, d: nat)
    requires TightAt(m, dbl, d)
    ensures !Right(Astray(m, dbl, d))
  {
    hide Run, Glob, Astray;
    AstrayMeant(m, dbl, d, 0);
    AstrayFails(m, dbl, d, 0);
  }

  /** The patterns on which the machine decides the declared meaning whatever its nodes match and
      whatever the path: exactly those whose every other node behind a `**` is directly followed by a
      `**`. */
  lemma RightPatterns(m: nat, dbl: nat -> bool)
    ensures LooseShape(m, dbl) <==>
            forall n: nat, hit: (nat, nat) -> bool :: Right(Problem(m, n, dbl, hit))
  {
    hide Right;
    if LooseShape(m, dbl) {
      forall n: nat, hit: (nat, nat) -> bool
        ensures Right(Problem(m, n, dbl, hit))
      {
        LooseIsRight(Problem(m, n, dbl, hit));
      }
    } else {
      var d := TightExists(m, dbl);
      AstrayIsWrong(m, dbl, d);
      var q := Astray(m, dbl, d);
      assert q == Problem(m, q.n, dbl, q.hit);
    }
  }

  // ----- restoring both cursors

  /** The same matcher, except that after a failed attempt both cursors are put back to where it
      started before the pattern cursor is moved one back. */
  predicate Restoring(q: Problem, p: nat, e: nat)
    requires p <= q.m && e <= q.n
    decreases q.n - e
  {
    if e == q.n || p == q.m then e == q.n && p == q.m
    else if q.dbl(p) then Restoring(q, p + 1, e + 1) || Restoring(q, p, e + 1)
    else q.hit(p, e) && Restoring(q, p + 1, e + 1)
  }

  /** With the cursors restored the matcher is right for every pattern and every path. */
  lemma {:induction false} RestoringIsGlob(q: Problem, p: nat, e: nat)
    requires p <= q.m && e <= q.n
    ensures Restoring(q, p, e) <==> Glob(q, p, e)
    decreases q.n - e
  {
    if e < q.n && p < q.m {
      RestoringIsGlob(q, p + 1, e + 1);
      if q.dbl(p) {
        RestoringIsGlob(q, p, e + 1);
        if Glob(q, p, e) {
          var c := GlobSplit(q, p, e);
          if c > e + 1 {
            assert Glob(q, p, e + 1);
          }
        }
      }
    }
  }

  // ----- where the machine is wrong

  /** The node after `**` matches components 1 and 3 of five and the last node matches component 4:
      the machine commits to component 1 and misses the match at 3. */
  lemma Misses(q: Problem)
    requires q.m == 3 && q.n == 5 && q.dbl(0) && !q.dbl(1) && !q.dbl(2)
    requires forall e: nat | e < 5 :: (q.hit(1, e) <==> e == 1 || e == 3) && (q.hit(2, e) <==> e == 4)
    ensures Glob(q, 0, 0) && !Run(q, 0, 0).ok
  {
    OneDouble(q, 0);
    assert Glob(q, 3, 5) && Glob(q, 2, 4) && Glob(q, 1, 3);
    assert First(q, 1, 1) == 1;
    assert Common(q, 1, 1) == 1;
  }

  /** Two nodes after `**`, the first matching component 1 and the second both 2 and 3 of four: the
      machine accepts by using the second node twice. */
  lemma WronglyAccepts(q: Problem)
    requires q.m == 3 && q.n == 4 && q.dbl(0) && !q.dbl(1) && !q.dbl(2)
    requires forall e: nat | e < 4 :: (q.hit(1, e) <==> e == 1) && (q.hit(2, e) <==> e == 2 || e == 3)
    ensures Run(q, 0, 0).ok && !Glob(q, 0, 0)
  {
    OneDouble(q, 0);
    assert First(q, 1, 1) == 1;
    assert Common(q, 2, 2) == 1 && Common(q, 1, 1) == 2;
    assert Straight(q, 2, 3);
    assert !Hits(q, 1, 2, 0);
    if Glob(q, 0, 0) {
      var c := GlobSplit(q, 0, 0);
      GlobStraight(q, 1, c);
    }
  }
}
