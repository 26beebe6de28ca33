/** One pattern node against one path component: what the matcher compares in the shared buffers, and
    the wildcard language the node is meant to stand for. */
module NodeMatch {
  import opened PathNodes

  // ----- the meaning of a pattern node

  /** `*` in the node stands for any characters, every other character for itself. */
  ghost predicate InLanguage(q: string, c: string) {
    if q == "" then c == ""
    else if q[0] == '*' then exists k | 0 <= k <= |c| :: InLanguage(q[1..], c[k..])
    else c != "" && c[0] == q[0] && InLanguage(q[1..], c[1..])
  }

  ghost predicate StarFree(q: string) {
    forall i | 0 <= i < |q| :: q[i] != '*'
  }

  /** Where the first star is, or the length when there is none. */
  function FirstStar(q: string): (k: nat)
    ensures k <= |q| && (forall i | 0 <= i < k :: q[i] != '*')
    ensures k < |q| ==> q[k] == '*'
  {
    if q == "" || q[0] == '*' then 0 else 1 + FirstStar(q[1..])
  }

  /** Where the part behind the last star begins. */
  function BehindLastStar(q: string): (k: nat)
    ensures k <= |q| && (forall i | k <= i < |q| :: q[i] != '*')
    ensures k > 0 ==> q[k - 1] == '*'
  {
    if q == "" || q[|q| - 1] == '*' then |q| else BehindLastStar(q[..|q| - 1])
  }

  /** A plain name means itself alone. */
  lemma {:induction false} PlainLanguage(q: string, c: string)
    requires StarFree(q)
    ensures InLanguage(q, c) <==> q == c
    decreases |q|
  {
    if q != "" && c != "" && q[0] == c[0] {
      PlainLanguage(q[1..], c[1..]);
      assert q == [q[0]] + q[1..] && c == [c[0]] + c[1..];
    }
  }

  /** A lone star means every name. */
  lemma StarLanguage(c: string)
    ensures InLanguage("*", c)
  {
    var q := "*";
    assert q[1..] == "" && c[|c|..] == "";
    assert InLanguage(q[1..], c[|c|..]);
  }

  /** A node with one star means the names with its first part in front and its second part at the
      end, not overlapping. */
  lemma {:induction false} OneStarLanguage(a: string, b: string, c: string)
    requires StarFree(a) && StarFree(b)
    ensures InLanguage(a + "*" + b, c) <==>
            |c| >= |a| + |b| && c[..|a|] == a && c[|c| - |b|..] == b
    decreases |a|
  {
    var q := a + "*" + b;
    if a == "" {
      assert q[0] == '*' && q[1..] == b;
      forall k | 0 <= k <= |c|
        ensures InLanguage(q[1..], c[k..]) <==> b == c[k..]
      {
        PlainLanguage(b, c[k..]);
      }
      if |c| >= |b| && c[|c| - |b|..] == b {
        assert InLanguage(q[1..], c[|c| - |b|..]);
      }
    } else {
      assert q[0] == a[0] && q[1..] == a[1..] + "*" + b;
      if c != "" && c[0] == a[0] {
        OneStarLanguage(a[1..], b, c[1..]);
        if |c| >= |a| + |b| {
          assert c[1..][|c| - 1 - |b|..] == c[|c| - |b|..];
          assert c[..|a|] == [c[0]] + c[1..][..|a| - 1];
          assert a == [a[0]] + a[1..];
        }
      }
    }
  }

  // ----- what the matcher compares

  /** The character at a place of the buffer: NUL behind the text, and in front of it, where the
      byte before the buffer is the unused top byte of the last node type. */
  function At(text: string, i: int): char {
    if 0 <= i < |text| then text[i] else '\0'
  }

  /** t stands in the buffer from lo on. */
  ghost predicate StandsAt(t: string, text: string, lo: int) {
    forall i | 0 <= i < |t| :: t[i] == At(text, lo + i)
  }

  /** The comparison for a node with stars: a node starting with a star is compared backwards from
      the component's end, one ending with a star forwards from its start, any other from both sides
      up to its stars. The component's length plays no part. */
  ghost predicate MixedHit(q: string, text: string, lo: int, hi: int)
    requires q != ""
  {
    if q[0] == '*' then StandsAt(q[1..], text, hi - |q| + 1)
    else if q[|q| - 1] == '*' then StandsAt(q[..|q| - 1], text, lo)
    else
      && StandsAt(q[..FirstStar(q)], text, lo)
      && var b := q[BehindLastStar(q)..];
         StandsAt(b, text, hi - |b|)
  }

  /** Node q, other than `**`, against component e of the path cs. */
  ghost predicate Hit(q: string, cs: seq<string>, e: nat)
    requires e < |cs|
  {
    match TypeOf(q)
    case Character => q == cs[e]
    case Star => true
    case MixedStar => MixedHit(q, Flat(cs), Offset(cs, e), Offset(cs, e + 1))
    case _ => false
  }

  /** A mixed node with exactly one star, the forms the matcher supports; other nodes are as they are. */
  ghost predicate Supported(q: string) {
    TypeOf(q) == MixedStar ==> FirstStar(q) + 1 == BehindLastStar(q)
  }

  /** The component has room for the node's literal text. */
  ghost predicate LongEnough(q: string, c: string) {
    TypeOf(q) == MixedStar ==> |c| >= |q| - 1
  }

  lemma StandsInside(t: string, cs: seq<string>, e: nat, k: nat)
    requires e < |cs| && k + |t| <= |cs[e]|
    ensures StandsAt(t, Flat(cs), Offset(cs, e) + k) <==> cs[e][k..k + |t|] == t
  {
    hide Flat;
    var text, lo := Flat(cs), Offset(cs, e);
    SliceIsName(cs, e);
    var c := cs[e][k..k + |t|];
    forall i | 0 <= i < |t|
      ensures c[i] == At(text, lo + k + i)
    {
      assert text[lo..lo + |cs[e]|][k + i] == text[lo + k + i];
    }
  }

  /** The parts of a supported mixed node. */
  lemma MixedParts(q: string) returns (a: string, b: string)
    requires TypeOf(q) == MixedStar && Supported(q)
    ensures q == a + "*" + b && StarFree(a) && StarFree(b)
    ensures a == q[..FirstStar(q)] && b == q[BehindLastStar(q)..]
  {
    var k := FirstStar(q);
    var i :| 0 <= i < |q| && q[i] == '*';
    assert k <= i;
    a, b := q[..k], q[k + 1..];
  }

  /** For components long enough the comparison decides membership in the node's language; a name too
      short for the node's text is never in the language. */
  lemma HitIsLanguage(q: string, cs: seq<string>, e: nat)
    requires e < |cs| && Supported(q) && TypeOf(q) != DoubleStar
    ensures InLanguage(q, cs[e]) <==> Hit(q, cs, e) && LongEnough(q, cs[e])
  {
    hide Flat, InLanguage, FirstStar, BehindLastStar, MixedHit, StandsAt;
    var c := cs[e];
    if q == "*" {
      StarLanguage(c);
    } else if TypeOf(q) == Character {
      PlainLanguage(q, c);
    } else {
      hide StarFree;
      var a, b := MixedParts(q);
      OneStarLanguage(a, b, c);
      SliceIsName(cs, e);
      if |c| >= |q| - 1 {
        StandsInside(a, cs, e, 0);
        StandsInside(b, cs, e, |c| - |b|);
        MixedHitParts(a, b, Flat(cs), Offset(cs, e), Offset(cs, e + 1));
      }
    }
  }

  lemma MixedHitParts(a: string, b: string, text: string, lo: int, hi: int)
    requires StarFree(a) && StarFree(b)
    ensures MixedHit(a + "*" + b, text, lo, hi) <==> StandsAt(a, text, lo) && StandsAt(b, text, hi - |b|)
  {
    var q := a + "*" + b;
    assert q[|a|] == '*';
    if a == "" {
      assert q[1..] == b;
    } else {
      assert q[0] == a[0];
      if b == "" {
        assert q[..|q| - 1] == a;
      } else {
        assert q[|q| - 1] == b[|b| - 1];
        assert FirstStar(q) == |a| by {
          assert forall i | 0 <= i < |a| :: q[i] == a[i];
        }
        assert BehindLastStar(q) == |a| + 1 by {
          assert forall i | |a| + 1 <= i < |q| :: q[i] == b[i - |a| - 1];
        }
        assert q[..|a|] == a && q[|a| + 1..] == b;
      }
    }
  }
}
