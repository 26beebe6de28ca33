/** The matcher over node lists, working on the two shared cursors, and what it answers for whole
    patterns and paths. */
module Matcher {
  import opened Wrappers
  import opened PathNodes
  import opened NodeMatch
  import opened CursorMachine

  /** Pattern nodes ps against path components cs, as the matcher compares them. */
  ghost function Compared(ps: seq<string>, cs: seq<string>): Problem {
    Problem(|ps|, |cs|,
            (i: nat) => i < |ps| && TypeOf(ps[i]) == DoubleStar,
            (p: nat, e: nat) => p < |ps| && e < |cs| && Hit(ps[p], cs, e))
  }

  /** The same with every node meaning its language. */
  ghost function Meant(ps: seq<string>, cs: seq<string>): Problem {
    Problem(|ps|, |cs|,
            (i: nat) => i < |ps| && TypeOf(ps[i]) == DoubleStar,
            (p: nat, e: nat) => p < |ps| && e < |cs| && InLanguage(ps[p], cs[e]))
  }

  /** The matcher's answer, from the first nodes. */
  ghost predicate Accepts(ps: seq<string>, cs: seq<string>) {
    Run(Compared(ps, cs), 0, 0).ok
  }

  /** The declared meaning: every node stands for one component of its language, `**` for one or more
      components. */
  ghost predicate Denotes(ps: seq<string>, cs: seq<string>) {
    Glob(Meant(ps, cs), 0, 0)
  }

  lemma MixedHasStar(q: string)
    ensures TypeOf(q) == MixedStar ==> '*' in q
  {
  }

  // ----- the methods

  /** Whether the current node of the pattern matches the current component. */
  method MatchCurNode(pattern: NodeList, exp: NodeList) returns (ok: bool)
    requires pattern.Valid() && pattern.Typed() && exp.Valid()
    requires pattern.curNode < pattern.nodeCnt && exp.curNode < exp.nodeCnt
    ensures ok == Hit(pattern.parts[pattern.curNode], exp.parts, exp.curNode)
  {
    hide Flat, MixedHit, TypeOf;
    MixedHasStar(pattern.parts[pattern.curNode]);
    pattern.Slices(pattern.curNode);
    exp.Slices(exp.curNode);
    var start, end := pattern.offsets[pattern.curNode], pattern.offsets[pattern.curNode + 1];
    var lo, hi := exp.offsets[exp.curNode], exp.offsets[exp.curNode + 1];
    var kind := pattern.nodetypes[pattern.curNode];
    if kind == Character {
      var plen, flen := end - start, hi - lo;
      if plen == flen {
        return pattern.str[start..end] == exp.str[lo..hi];
      }
      return false;
    } else if kind == Star {
      return true;
    } else if kind == MixedStar {
      ok := MatchMixed(pattern, exp, start, end, lo, hi);
      return;
    }
    return false;
  }

  /** The character the matcher sees at a place of the path's buffer; it never looks past the end. */
  function Peek(exp: NodeList, f: int): (c: char)
    requires exp.Valid() && f < exp.str.Length
    reads exp, exp.offsets, exp.str
    ensures c == At(Flat(exp.parts), f)
  {
    hide Flat;
    assert 0 <= f < |Flat(exp.parts)| ==> exp.str[..|Flat(exp.parts)|][f] == exp.str[f];
    if f < 0 then '\0' else exp.str[f]
  }

  /** pattern.str[start..end] is literal text of the pattern. */
  ghost predicate InPattern(pattern: NodeList, start: nat, end: nat)
    reads pattern, pattern.offsets, pattern.str
  {
    pattern.Valid() && start <= end <= |Flat(pattern.parts)|
  }

  lemma NoNul(pattern: NodeList, start: nat, end: nat)
    requires InPattern(pattern, start, end)
    ensures forall i | start <= i < end :: pattern.str[i] != '\0'
  {
    hide Flat;
    FlatHasNoNul(pattern.parts);
    forall i | start <= i < end
      ensures pattern.str[i] != '\0'
    {
      assert pattern.str[..|Flat(pattern.parts)|][i] == pattern.str[i];
    }
  }

  lemma Bounded(pattern: NodeList, start: nat, end: nat)
    requires InPattern(pattern, start, end)
    ensures end < pattern.str.Length
  {
  }

  /** The three ways a mixed node is compared. */
  method MatchMixed(pattern: NodeList, exp: NodeList, start: Byte, end: Byte, lo: Byte, hi: Byte) returns (ok: bool)
    requires InPattern(pattern, start, end) && start < end && exp.Valid() && lo <= hi <= |Flat(exp.parts)|
    requires '*' in pattern.str[start..end]
    ensures ok == MixedHit(pattern.str[start..end], Flat(exp.parts), lo, hi)
  {
    hide Flat, StandsAt, FirstStar, BehindLastStar, NodeList.Holds;
    Bounded(pattern, start, end);
    ghost var q := pattern.str[start..end];
    assert q[0] == pattern.str[start] && q[|q| - 1] == pattern.str[end - 1];
    if pattern.str[start] == '*' {
      ok := MatchBack(pattern, exp, start, end, hi);
      assert pattern.str[start + 1..end] == q[1..];
    } else if pattern.str[end - 1] == '*' {
      ok := MatchAhead(pattern, exp, start, end, lo);
      assert pattern.str[start..end - 1] == q[..|q| - 1];
    } else {
      ok := MatchBothEnds(pattern, exp, start, end, lo, hi);
    }
  }

  /** `*abc`: backwards from the component's end, down to the star. */
  method MatchBack(pattern: NodeList, exp: NodeList, start: Byte, end: Byte, hi: Byte) returns (ok: bool)
    requires InPattern(pattern, start, end) && start < end && exp.Valid() && hi <= |Flat(exp.parts)|
    ensures ok == StandsAt(pattern.str[start + 1..end], Flat(exp.parts), hi - (end - start) + 1)
  {
    hide Flat;
    ghost var t, text, at := pattern.str[start + 1..end], Flat(exp.parts), hi - (end - start) + 1;
    var f, p: int := hi - 1, end - 1;
    while p > start
      invariant start <= p < end && f - at == p - start - 1
      invariant forall i | p - start <= i < |t| :: t[i] == At(text, at + i)
    {
      ghost var i := p - start - 1;
      assert t[i] == pattern.str[p] && at + i == f;
      if pattern.str[p] != Peek(exp, f) {
        return false;
      }
      p, f := p - 1, f - 1;
    }
    return true;
  }

  /** `abc*`: ahead from the component's start, up to the star. */
  method MatchAhead(pattern: NodeList, exp: NodeList, start: Byte, end: Byte, lo: Byte) returns (ok: bool)
    requires InPattern(pattern, start, end) && start < end && exp.Valid() && lo <= |Flat(exp.parts)|
    ensures ok == StandsAt(pattern.str[start..end - 1], Flat(exp.parts), lo)
  {
    hide Flat;
    NoNul(pattern, start, end);
    ghost var t, text := pattern.str[start..end - 1], Flat(exp.parts);
    var f, p: int := lo, start;
    while p < end - 1
      invariant start <= p < end && f - lo == p - start && f <= |text|
      invariant forall i | 0 <= i < p - start :: t[i] == At(text, lo + i)
    {
      ghost var i := p - start;
      assert t[i] == pattern.str[p] && lo + i == f;
      if pattern.str[p] != Peek(exp, f) {
        return false;
      }
      p, f := p + 1, f + 1;
    }
    return true;
  }

  /** `a*b`: from both sides, each up to the first star met. */
  method MatchBothEnds(pattern: NodeList, exp: NodeList, start: Byte, end: Byte, lo: Byte, hi: Byte) returns (ok: bool)
    requires InPattern(pattern, start, end) && start < end && exp.Valid() && lo <= hi <= |Flat(exp.parts)|
    requires '*' in pattern.str[start..end]
    ensures var q, text := pattern.str[start..end], Flat(exp.parts);
            var b := q[BehindLastStar(q)..];
            ok == (StandsAt(q[..FirstStar(q)], text, lo) && StandsAt(b, text, hi - |b|))
  {
    hide Flat, StandsAt;
    ok := MatchUpToStar(pattern, exp, start, end, lo);
    if ok {
      ok := MatchDownToStar(pattern, exp, start, end, hi);
    }
  }

  method MatchUpToStar(pattern: NodeList, exp: NodeList, start: Byte, end: Byte, lo: Byte) returns (ok: bool)
    requires InPattern(pattern, start, end) && start < end && exp.Valid() && lo <= |Flat(exp.parts)|
    requires '*' in pattern.str[start..end]
    ensures var q := pattern.str[start..end];
            ok == StandsAt(q[..FirstStar(q)], Flat(exp.parts), lo)
  {
    hide Flat, FirstStar;
    NoNul(pattern, start, end);
    ghost var q, text := pattern.str[start..end], Flat(exp.parts);
    ghost var a := q[..FirstStar(q)];
    ghost var s :| 0 <= s < |q| && q[s] == '*';
    assert |a| <= s;
    var f, p: int := lo, start;
    assert q[|a|] == pattern.str[start + |a|];
    while pattern.str[p] != '*'
      invariant start <= p <= start + |a| && f - lo == p - start && f <= |text|
      invariant forall i | 0 <= i < p - start :: a[i] == At(text, lo + i)
      decreases end - p
    {
      ghost var i := p - start;
      assert q[i] == pattern.str[p] && lo + i == f;
      if pattern.str[p] != Peek(exp, f) {
        assert a[i] != At(text, lo + i);
        return false;
      }
      p, f := p + 1, f + 1;
    }
    assert q[p - start] == '*';
    return true;
  }

  method MatchDownToStar(pattern: NodeList, exp: NodeList, start: Byte, end: Byte, hi: Byte) returns (ok: bool)
    requires InPattern(pattern, start, end) && start < end && exp.Valid() && hi <= |Flat(exp.parts)|
    requires '*' in pattern.str[start..end]
    ensures var q := pattern.str[start..end];
            var b := q[BehindLastStar(q)..];
            ok == StandsAt(b, Flat(exp.parts), hi - |b|)
  {
    hide Flat, BehindLastStar;
    ghost var q, text := pattern.str[start..end], Flat(exp.parts);
    ghost var from := BehindLastStar(q);
    ghost var b, at := q[from..], hi - |q| + from;
    ghost var s :| 0 <= s < |q| && q[s] == '*';
    assert s < from;
    var f, p: int := hi - 1, end - 1;
    assert q[from - 1] == pattern.str[start + from - 1];
    while pattern.str[p] != '*'
      invariant start + from - 1 <= p < end && f - at == p - start - from
      invariant forall i | p - start - from < i < |b| :: b[i] == At(text, at + i)
      decreases p
    {
      ghost var i := p - start - from;
      assert q[p - start] == pattern.str[p] && at + i == f;
      if pattern.str[p] != Peek(exp, f) {
        assert b[i] != At(text, at + i);
        return false;
      }
      p, f := p - 1, f - 1;
    }
    assert q[p - start] == '*';
    return true;
  }

  /** The matcher from the lists' current cursors. */
  method Match(pattern: NodeList, exp: NodeList) returns (ok: bool)
    requires pattern.Valid() && pattern.Typed() && exp.Valid() && pattern != exp
    modifies pattern`curNode, exp`curNode
    ensures pattern.Valid() && pattern.Typed() && exp.Valid()
    ensures Run(Compared(pattern.parts, exp.parts), old(pattern.curNode), old(exp.curNode))
            == Out(ok, pattern.curNode, exp.curNode)
    decreases exp.nodeCnt - exp.curNode
  {
    hide Flat, Hit, TypeOf, Run, NodeList.Holds;
    ghost var q := Compared(pattern.parts, exp.parts);
    while true
      invariant pattern.Valid() && pattern.Typed() && exp.Valid()
      invariant exp.curNode >= old(exp.curNode)
      invariant Run(q, pattern.curNode, exp.curNode) == Run(q, old(pattern.curNode), old(exp.curNode))
      decreases exp.nodeCnt - exp.curNode
    {
      RunStep(q, pattern.curNode, exp.curNode);
      if exp.curNode >= exp.nodeCnt && pattern.curNode >= pattern.nodeCnt {
        return true;
      }
      if exp.curNode >= exp.nodeCnt || pattern.curNode >= pattern.nodeCnt {
        return false;
      }
      if pattern.nodetypes[pattern.curNode] == DoubleStar {
        pattern.curNode := pattern.curNode + 1;
        exp.curNode := exp.curNode + 1;
        ok := Match(pattern, exp);
        if ok {
          return;
        }
        pattern.curNode := pattern.curNode - 1;
      } else {
        ok := MatchCurNode(pattern, exp);
        if !ok {
          return;
        }
        pattern.curNode := pattern.curNode + 1;
        exp.curNode := exp.curNode + 1;
      }
    }
  }

  /** 0 when the path matches the pattern and 1 otherwise, wherever the cursors were left before. */
  method FnMatch(pattern: NodeList, exp: NodeList) returns (r: int)
    requires pattern.Valid() && pattern.Typed() && exp.Valid() && pattern != exp
    modifies pattern`curNode, exp`curNode
    ensures pattern.Valid() && pattern.Typed() && exp.Valid()
    ensures r == if Accepts(pattern.parts, exp.parts) then 0 else 1
  {
    hide Run;
    pattern.curNode, exp.curNode := 0, 0;
    var ok := Match(pattern, exp);
    r := if ok then 0 else 1;
  }
}
