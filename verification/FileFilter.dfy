/** The file filter: patterns in the order they were added, each with its policy's id, and the id of
    the first one a path matches. */
module FileFilter {
  import opened PathNodes
  import opened Matcher

  const MAX_PATTERNS: nat := 128

  /** A pattern's nodes with the id it was added under. */
  datatype Entry = Entry(nodes: seq<string>, id: int)

  /** A policy as it is configured. */
  datatype Policy = Policy(path: string, id: int)

  // ----- what the filter answers

  /** The earliest entry the components match gives the answer; -1 when there is none. */
  ghost function FirstMatch(es: seq<Entry>, cs: seq<string>): int {
    if es == [] then -1
    else if Accepts(es[0].nodes, cs) then es[0].id
    else FirstMatch(es[1..], cs)
  }

  /** A path that cannot be cut matches nothing. */
  ghost function Answer(es: seq<Entry>, path: string): int {
    if AdjacentSeps(path) then -1 else FirstMatch(es, Components(path))
  }

  /** A pattern that cannot be cut is not added. */
  ghost function Added(es: seq<Entry>, p: Policy): seq<Entry> {
    if AdjacentSeps(p.path) then es else es + [Entry(Components(p.path), p.id)]
  }

  ghost function AddedAll(es: seq<Entry>, ps: seq<Policy>): seq<Entry>
    decreases |ps|
  {
    if ps == [] then es else AddedAll(Added(es, ps[0]), ps[1..])
  }

  /** After n set-ups: the same filter is handed all policies once for every VM, and once more each time
      a VM is restarted. */
  ghost function AfterSetups(ps: seq<Policy>, n: nat): seq<Entry> {
    if n == 0 then [] else AddedAll(AfterSetups(ps, n - 1), ps)
  }

  /** The entry that answers is the earliest that accepts. */
  lemma {:induction false} FirstMatchIsEarliest(es: seq<Entry>, cs: seq<string>, i: nat)
    requires i <= |es|
    requires forall j | 0 <= j < i :: !Accepts(es[j].nodes, cs)
    ensures i < |es| && Accepts(es[i].nodes, cs) ==> FirstMatch(es, cs) == es[i].id
    ensures i == |es| ==> FirstMatch(es, cs) == -1
  {
    hide Accepts;
    if i > 0 {
      FirstMatchIsEarliest(es[1..], cs, i - 1);
    }
  }

  lemma {:induction false} FirstMatchConcat(a: seq<Entry>, b: seq<Entry>, cs: seq<string>)
    ensures FirstMatch(a + b, cs) ==
            if exists i :: 0 <= i < |a| && Accepts(a[i].nodes, cs) then FirstMatch(a, cs) else FirstMatch(b, cs)
  {
    hide Accepts;
    if a == [] {
      assert a + b == b;
    } else {
      assert (a + b)[1..] == a[1..] + b;
      FirstMatchConcat(a[1..], b, cs);
      if Accepts(a[0].nodes, cs) {
      } else if i :| 0 <= i < |a| && Accepts(a[i].nodes, cs) {
        assert Accepts(a[1..][i - 1].nodes, cs);
      }
    }
  }

  lemma {:induction false} NoneAccepts(es: seq<Entry>, cs: seq<string>)
    requires forall i :: 0 <= i < |es| ==> !Accepts(es[i].nodes, cs)
    ensures FirstMatch(es, cs) == -1
  {
    hide Accepts;
    FirstMatchIsEarliest(es, cs, |es|);
  }

  /** Adding goes behind what is there. */
  lemma {:induction false} AddedBehind(es: seq<Entry>, ps: seq<Policy>)
    ensures AddedAll(es, ps) == es + AddedAll([], ps)
    ensures |AddedAll([], ps)| <= |ps|
    decreases |ps|
  {
    hide Components, AdjacentSeps;
    if ps != [] {
      var one := Added([], ps[0]);
      assert Added(es, ps[0]) == es + one;
      AddedBehind(es + one, ps[1..]);
      AddedBehind(one, ps[1..]);
      assert es + one + AddedAll([], ps[1..]) == es + (one + AddedAll([], ps[1..]));
    }
  }

  /** A policy matches a path when both can be cut and the matcher accepts. */
  ghost predicate Matches(p: Policy, path: string) {
    !AdjacentSeps(p.path) && !AdjacentSeps(path) && Accepts(Components(p.path), Components(path))
  }

  /** The policies set up, the answer for a path is the id of the first policy that matches, and -1 when
      none does. */
  lemma {:induction false} FirstPolicyAnswers(ps: seq<Policy>, path: string, i: nat)
    requires i <= |ps| && forall j | 0 <= j < i :: !Matches(ps[j], path)
    ensures i < |ps| && Matches(ps[i], path) ==> Answer(AddedAll([], ps), path) == ps[i].id
    ensures i == |ps| ==> Answer(AddedAll([], ps), path) == -1
    decreases |ps|
  {
    hide Components, AdjacentSeps, Accepts;
    if ps != [] {
      var one, rest := Added([], ps[0]), AddedAll([], ps[1..]);
      AddedBehind(one, ps[1..]);
      assert AddedAll([], ps) == one + rest;
      if i > 0 {
        FirstPolicyAnswers(ps[1..], path, i - 1);
        assert !Matches(ps[0], path);
      }
      if !AdjacentSeps(ps[0].path) {
        assert (one + rest)[1..] == rest;
      } else {
        assert one + rest == rest;
      }
    }
  }

  lemma JoinedMatches(ns: seq<string>, a: string, id: int, cs: seq<string>, c: string)
    requires Names(ns) && Separators(a) && |a| == |ns|
    requires Names(cs) && Separators(c) && |c| == |cs|
    ensures Matches(Policy(Join(ns, a), id), Join(cs, c)) <==> Accepts(ns, cs)
  {
    hide Accepts, Join, Components, AdjacentSeps, CText, Names, Separators;
    JoinRoundTrip(ns, a);
    JoinRoundTrip(cs, c);
    JoinCanBeCut(ns, a);
    JoinCanBeCut(cs, c);
  }

  /** Slashes and backslashes are the same to patterns and paths alike. */
  lemma AnySeparators(ns: seq<string>, a: string, b: string, id: int, cs: seq<string>, c: string, d: string)
    requires Names(ns) && Separators(a) && Separators(b) && |a| == |b| == |ns|
    requires Names(cs) && Separators(c) && Separators(d) && |c| == |d| == |cs|
    ensures Matches(Policy(Join(ns, a), id), Join(cs, c)) <==> Matches(Policy(Join(ns, b), id), Join(cs, d))
  {
    hide Accepts, Join, Matches, Names, Separators;
    JoinedMatches(ns, a, id, cs, c);
    JoinedMatches(ns, b, id, cs, d);
  }

  // ----- how many restarts fit

  /** Each of the policies, added in turn, finds a place in `ids`; one that cannot be cut needs none. */
  ghost predicate AddsFit(es: seq<Entry>, ps: seq<Policy>)
    decreases |ps|
  {
    ps != [] ==> (AdjacentSeps(ps[0].path) || |es| < MAX_PATTERNS) && AddsFit(Added(es, ps[0]), ps[1..])
  }

  /** So they do in each of the first n set-ups. */
  ghost predicate SetupsFit(ps: seq<Policy>, n: nat) {
    n > 0 ==> SetupsFit(ps, n - 1) && AddsFit(AfterSetups(ps, n - 1), ps)
  }

  lemma {:induction false} AddsFitIff(es: seq<Entry>, ps: seq<Policy>)
    requires |es| <= MAX_PATTERNS
    ensures AddsFit(es, ps) <==> |AddedAll(es, ps)| <= MAX_PATTERNS
    ensures |es| <= |AddedAll(es, ps)|
    decreases |ps|
  {
    hide Components, AdjacentSeps;
    if ps != [] {
      AddedBehind(Added(es, ps[0]), ps[1..]);
      if |Added(es, ps[0])| <= MAX_PATTERNS {
        AddsFitIff(Added(es, ps[0]), ps[1..]);
      }
    }
  }

  /** In n set-ups no entry is written past the end of `ids` exactly when n times the number of usable
      policies is at most 128. */
  lemma {:induction false} SetupsFitIff(ps: seq<Policy>, n: nat)
    ensures SetupsFit(ps, n) <==> n * |AddedAll([], ps)| <= MAX_PATTERNS
  {
    hide AddsFit, AddedAll;
    if n > 0 {
      var one, was := |AddedAll([], ps)|, AfterSetups(ps, n - 1);
      SetupsFitIff(ps, n - 1);
      SetupsAnswer(ps, n, "");
      SetupsAnswer(ps, n - 1, "");
      Times(n - 1, one, one);
      if |was| <= MAX_PATTERNS {
        AddsFitIff(was, ps);
      }
    }
  }

  /** With V VMs sharing the filter, the policies last for r restarts of any of them exactly when V + r
      times the number of usable ones is at most 128. As long as they do, every path gets the answer it got
      after the first set-up. */
  lemma RestartsChangeNothing(ps: seq<Policy>, vms: nat, r: nat, path: string)
    requires vms > 0
    ensures SetupsFit(ps, vms + r) <==> (vms + r) * |AddedAll([], ps)| <= MAX_PATTERNS
    ensures SetupsFit(ps, vms + r) ==>
              && |AfterSetups(ps, vms + r)| == (vms + r) * |AddedAll([], ps)|
              && Answer(AfterSetups(ps, vms + r), path) == Answer(AfterSetups(ps, 1), path)
  {
    hide SetupsFit, AfterSetups, Answer;
    SetupsAnswer(ps, vms + r, path);
    SetupsFitIff(ps, vms + r);
  }

  /** Two VMs overrun the filter before any restart as soon as 65 policies are usable; and a single usable
      policy lasts two VMs for 126 restarts, the 127th writing past the end. */
  lemma TwoVmsOverrun(ps: seq<Policy>, p: Policy)
    requires |AddedAll([], ps)| == 65 && !AdjacentSeps(p.path)
    ensures SetupsFit(ps, 1) && !SetupsFit(ps, 2)
    ensures SetupsFit([p], 2 + 126) && !SetupsFit([p], 2 + 127)
  {
    assert AddedAll([], [p]) == AddedAll(Added([], p), [p][1..]) == Added([], p);
    hide SetupsFit, AddedAll;
    SetupsFitIff(ps, 1);
    SetupsFitIff(ps, 2);
    SetupsFitIff([p], 128);
    SetupsFitIff([p], 129);
  }

  /** However often policies are added again, every path gets the same answer, and the number of entries
      grows by the number of usable policies each time. */
  lemma {:induction false} SetupsAnswer(ps: seq<Policy>, n: nat, path: string)
    ensures n > 0 ==> Answer(AfterSetups(ps, n), path) == Answer(AfterSetups(ps, 1), path)
    ensures |AfterSetups(ps, n)| == n * |AddedAll([], ps)| <= n * |ps|
    ensures n > 0 ==> AfterSetups(ps, n) == AfterSetups(ps, n - 1) + AddedAll([], ps)
  {
    hide Accepts, Components, AdjacentSeps, Added, AddedAll;
    AddedBehind([], ps);
    assert AfterSetups(ps, 0) == [] && AfterSetups(ps, 1) == AddedAll(AfterSetups(ps, 0), ps);
    if n > 0 {
      var was, one, cs := AfterSetups(ps, n - 1), AddedAll([], ps), Components(path);
      AddedBehind(was, ps);
      SetupsAnswer(ps, n - 1, path);
      Times(n - 1, |one|, |ps|);
      if n > 1 && !AdjacentSeps(path) {
        FirstMatchConcat(was, one, cs);
        if forall i :: 0 <= i < |was| ==> !Accepts(was[i].nodes, cs) {
          NoneAccepts(was, cs);
        }
      }
    }
  }

  lemma Times(r: nat, a: nat, b: nat)
    requires a <= b
    ensures r * a + a == (r + 1) * a <= (r + 1) * b
  {
  }

  // ----- the filter itself

  class Filter {
    var patterns: seq<NodeList>
    const ids: array<int>

    constructor ()
      ensures Valid() && Entries() == []
      ensures fresh(this) && fresh(ids)
    {
      patterns := [];
      ids := new int[MAX_PATTERNS](_ => 0);
    }

    ghost predicate Valid()
      reads this, ids, patterns, set p | p in patterns :: p.offsets,
            set p | p in patterns :: p.nodetypes, set p | p in patterns :: p.str
    {
      && ids.Length == MAX_PATTERNS && |patterns| <= MAX_PATTERNS
      && forall p | p in patterns :: p.Valid() && p.Typed()
    }

    ghost function Entries(): seq<Entry>
      requires |patterns| <= ids.Length
      reads this, ids, patterns
    {
      seq(|patterns|, i requires 0 <= i < |patterns| reads this, ids, patterns =>
        if i < ids.Length then Entry(patterns[i].parts, ids[i]) else Entry([], 0))
    }

    /** Adds the pattern under the id; 0 when it was added and -1, nothing changed, when it cannot be
        cut. */
    method Add(pattern: string, id: int) returns (r: int)
      requires Valid() && (|patterns| < MAX_PATTERNS || AdjacentSeps(pattern))
      requires CText(pattern) && Fits(pattern)
      modifies this, ids
      ensures Valid()
      ensures r == if AdjacentSeps(pattern) then -1 else 0
      ensures Entries() == Added(old(Entries()), Policy(pattern, id))
    {
      hide Components, AdjacentSeps, NodeList.Holds;
      var nodes := Translate(pattern, true);
      if nodes != null {
        ids[|patterns|] := id;
        patterns := patterns + [nodes];
        return 0;
      }
      return -1;
    }

    /** Adds all policies in their order, as it is done for every VM and again after every restart. */
    method AddAll(policies: seq<Policy>)
      requires Valid() && AddsFit(Entries(), policies)
      requires forall p | p in policies :: CText(p.path) && Fits(p.path)
      modifies this, ids
      ensures Valid() && Entries() == AddedAll(old(Entries()), policies)
      ensures forall n: nat | old(Entries()) == AfterSetups(policies, n) ::
                Entries() == AfterSetups(policies, n + 1)
    {
      hide AdjacentSeps, Components, NodeList.Holds;
      ghost var es := Entries();
      var i := 0;
      while i < |policies|
        invariant 0 <= i <= |policies| && Valid() && AddsFit(Entries(), policies[i..])
        invariant AddedAll(Entries(), policies[i..]) == AddedAll(es, policies)
      {
        assert policies[i..][0] == policies[i] && policies[i..][1..] == policies[i + 1..];
        var r := Add(policies[i].path, policies[i].id);
        i := i + 1;
      }
    }

    /** The answer for the path, wherever earlier calls left the patterns' cursors. */
    method Match(path: string) returns (m: int)
      requires Valid() && CText(path) && Fits(path)
      modifies patterns`curNode
      ensures Valid() && Entries() == old(Entries())
      ensures m == Answer(Entries(), path)
    {
      hide Components, AdjacentSeps, NodeList.Holds, Accepts, FirstMatch;
      m := -1;
      var nodes := Translate(path, false);
      if nodes == null {
        return;
      }
      ghost var es := Entries();
      var i: nat := 0;
      while i < |patterns|
        invariant i <= |patterns| && Valid() && Entries() == es
        invariant nodes.Valid() && fresh(nodes) && nodes.parts == Components(path)
        invariant forall j | 0 <= j < i :: !Accepts(es[j].nodes, Components(path))
      {
        var r := FnMatch(patterns[i], nodes);
        assert es[i] == Entry(patterns[i].parts, ids[i]);
        if r == 0 {
          FirstMatchIsEarliest(es, Components(path), i);
          return ids[i];
        }
        i := i + 1;
      }
      FirstMatchIsEarliest(es, Components(path), i);
    }
  }
}
