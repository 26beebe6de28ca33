/** Paths and patterns cut into nodes: what the components of a path are, the node list the
    translator fills in one pass, and the four kinds of pattern node. */
module PathNodes {
  import opened Wrappers

  const MAX_DIR_LEVEL: nat := 13
  const MAX_PATH_LEN: nat := 256

  datatype NodeType = Invalid | Character | Star | DoubleStar | MixedStar

  predicate IsSep(c: char) {
    c == '/' || c == '\\'
  }

  ghost predicate AdjacentSeps(s: string) {
    exists i, j | 0 <= i && j == i + 1 && j < |s| ::
      (s[i] == '/' || s[i] == '\\') && (s[j] == '/' || s[j] == '\\')
  }

  /** The text of a C string: it holds no NUL. */
  ghost predicate CText(s: string) {
    forall i | 0 <= i < |s| :: s[i] != '\0'
  }

  /** A name: some characters, none of them a slash, a backslash or NUL. */
  ghost predicate Name(s: string) {
    s != "" && forall i | 0 <= i < |s| :: s[i] != '/' && s[i] != '\\' && s[i] != '\0'
  }

  ghost predicate Names(cs: seq<string>) {
    forall i | 0 <= i < |cs| :: Name(cs[i])
  }

  // ----- the components of a path

  /** The length of the run of non-separators s starts with. */
  function NameLen(s: string): (k: nat)
    ensures k <= |s|
    ensures forall i | 0 <= i < k :: !IsSep(s[i])
    ensures k < |s| ==> IsSep(s[k])
  {
    if s == "" || IsSep(s[0]) then 0 else 1 + NameLen(s[1..])
  }

  /** The maximal runs of non-separators, in order. */
  function Components(s: string): seq<string>
    decreases |s|
  {
    if s == "" then []
    else if IsSep(s[0]) then Components(s[1..])
    else [s[..NameLen(s)]] + Components(s[NameLen(s)..])
  }

  /** All names run together. */
  function Flat(cs: seq<string>): string {
    if cs == [] then "" else Flat(cs[..|cs| - 1]) + cs[|cs| - 1]
  }

  /** Slashes and backslashes, one for each name. */
  ghost predicate Separators(seps: string) {
    forall i | 0 <= i < |seps| :: seps[i] == '/' || seps[i] == '\\'
  }

  /** A path made of the names: each behind its own separator. */
  function Join(cs: seq<string>, seps: string): string
    requires |seps| == |cs|
  {
    if cs == [] then "" else [seps[0]] + cs[0] + Join(cs[1..], seps[1..])
  }

  lemma {:induction false} ComponentsAreNames(s: string)
    requires CText(s)
    ensures Names(Components(s))
    decreases |s|
  {
    if s != "" {
      if IsSep(s[0]) {
        ComponentsAreNames(s[1..]);
      } else {
        ComponentsAreNames(s[NameLen(s)..]);
      }
    }
  }

  lemma {:induction false} NameLenIs(s: string, k: nat)
    requires k <= |s| && (forall i | 0 <= i < k :: !IsSep(s[i])) && (k < |s| ==> IsSep(s[k]))
    ensures NameLen(s) == k
    decreases k
  {
  }

  lemma BehindSep(c: char, s: string)
    requires c == '/' || c == '\\'
    ensures Components([c] + s) == Components(s)
  {
    assert ([c] + s)[1..] == s;
  }

  lemma TakeName(s: string, k: nat)
    requires 0 < k <= |s| && (forall i | 0 <= i < k :: !IsSep(s[i])) && (k < |s| ==> IsSep(s[k]))
    ensures Components(s) == [s[..k]] + Components(s[k..])
  {
  }

  lemma NameThenSep(c: string, t: string)
    requires c != "" && (forall i | 0 <= i < |c| :: !IsSep(c[i])) && (t == "" || IsSep(t[0]))
    ensures Components(c + t) == [c] + Components(t)
  {
    hide Components;
    var s := c + t;
    assert s[..|c|] == c && s[|c|..] == t;
    assert forall i | 0 <= i < |c| :: s[i] == c[i];
    assert t != "" ==> s[|c|] == t[0];
    TakeName(s, |c|);
  }

  /** Cutting a list of names joined by slashes and backslashes in any mixture gives the list back; so does
      cutting it with the first separator left out. */
  lemma {:induction false} JoinRoundTrip(cs: seq<string>, seps: string)
    requires Names(cs) && Separators(seps) && |seps| == |cs|
    ensures Components(Join(cs, seps)) == cs
    ensures cs != [] ==> Components(Join(cs, seps)[1..]) == cs
    decreases |cs|
  {
    if cs == [] {
      assert Components("") == [];
    } else {
      hide Components;
      var c, rest := cs[0], Join(cs[1..], seps[1..]);
      JoinRoundTrip(cs[1..], seps[1..]);
      assert Name(c) && (rest == "" || rest[0] == seps[1..][0]);
      NameThenSep(c, rest);
      BehindSep(seps[0], c + rest);
      assert Join(cs, seps) == [seps[0]] + (c + rest);
    }
  }

  /** One more separator at the end changes nothing. */
  lemma TrailingSep(s: string, c: char)
    requires c == '/' || c == '\\'
    ensures Components(s + [c]) == Components(s)
  {
    OneMore(s, c);
  }

  /** A joined list has no adjacent separators, so it can be cut. */
  lemma {:induction false} JoinCanBeCut(cs: seq<string>, seps: string)
    requires Names(cs) && Separators(seps) && |seps| == |cs|
    ensures !AdjacentSeps(Join(cs, seps)) && CText(Join(cs, seps))
    decreases |cs|
  {
    if cs != [] {
      var c, rest := cs[0], Join(cs[1..], seps[1..]);
      JoinCanBeCut(cs[1..], seps[1..]);
      var s := Join(cs, seps);
      assert s == [seps[0]] + c + rest;
      forall i | 0 <= i < |s|
        ensures s[i] != '\0'
      {
        assert s[i] == if i == 0 then seps[0] else if i <= |c| then c[i - 1] else rest[i - 1 - |c|];
      }
      forall i, j | 0 <= i && j == i + 1 && j < |s|
        ensures !((s[i] == '/' || s[i] == '\\') && (s[j] == '/' || s[j] == '\\'))
      {
        var x, y := i - 1 - |c|, j - 1 - |c|;
        if x >= 0 {
          assert s[i] == rest[x] && s[j] == rest[y];
        } else if i > 0 {
          assert s[i] == c[i - 1];
        } else {
          assert s[j] == c[0];
        }
      }
    }
  }

  /** Between names: at the start or just behind a separator. */
  ghost predicate AtEdge(s: string) {
    s == "" || IsSep(s[|s| - 1])
  }

  /** What one more character does to the components: a separator adds nothing, any other character
      begins a name at an edge and extends the last name elsewhere. */
  ghost function Extend(cs: seq<string>, edge: bool, c: char): seq<string> {
    if IsSep(c) then cs
    else if edge || cs == [] then cs + [[c]]
    else cs[..|cs| - 1] + [cs[|cs| - 1] + [c]]
  }

  lemma {:induction false} OneMore(s: string, c: char)
    ensures Components(s + [c]) == Extend(Components(s), AtEdge(s), c)
    ensures !AtEdge(s) ==> Components(s) != []
    decreases |s|
  {
    if s == "" {
      OneChar(c);
      assert s + [c] == [c];
    } else if IsSep(s[0]) {
      assert (s + [c])[1..] == s[1..] + [c];
      OneMore(s[1..], c);
      assert AtEdge(s) == AtEdge(s[1..]);
    } else {
      var k := NameLen(s);
      if k < |s| {
        OneMore(s[k..], c);
        MoreBehindName(s[..k], s[k..], c);
        assert s == s[..k] + s[k..];
      } else {
        MoreOnName(s, c);
      }
    }
  }

  lemma OneChar(c: char)
    ensures Components([c]) == if IsSep(c) then [] else [[c]]
  {
    if IsSep(c) {
      assert [c][1..] == "";
    } else {
      NameLenIs([c], 1);
      assert [c][..1] == [c] && [c][1..] == "";
    }
  }

  lemma MoreBehindName(name: string, tail: string, c: char)
    requires name != "" && (forall i | 0 <= i < |name| :: !IsSep(name[i]))
    requires tail != "" && IsSep(tail[0])
    requires Components(tail + [c]) == Extend(Components(tail), AtEdge(tail), c)
    requires !AtEdge(tail) ==> Components(tail) != []
    ensures Components(name + tail + [c]) == Extend(Components(name + tail), AtEdge(name + tail), c)
    ensures Components(name + tail) != []
  {
    hide Components, Extend;
    NameThenSep(name, tail);
    NameThenSep(name, tail + [c]);
    assert name + tail + [c] == name + (tail + [c]);
    ExtendBehind(name, Components(tail), AtEdge(tail), c);
  }

  lemma ExtendBehind(name: string, cs: seq<string>, edge: bool, c: char)
    requires !edge ==> cs != []
    ensures [name] + Extend(cs, edge, c) == Extend([name] + cs, edge, c)
  {
  }

  lemma MoreOnName(s: string, c: char)
    requires s != "" && NameLen(s) == |s|
    ensures Components(s) == [s]
    ensures Components(s + [c]) == Extend([s], AtEdge(s), c)
    ensures !AtEdge(s)
  {
    hide Components;
    OnlyName(s);
    if IsSep(c) {
      var t := s + [c];
      assert t[..|s|] == s && t[|s|..] == [c];
      TakeName(t, |s|);
      OneChar(c);
    } else {
      OnlyName(s + [c]);
    }
  }

  lemma OnlyName(s: string)
    requires s != "" && forall i | 0 <= i < |s| :: !IsSep(s[i])
    ensures Components(s) == [s]
  {
    NameThenSep(s, "");
    assert s + "" == s;
  }

  // ----- offsets

  /** Where the k-th name starts when all names are run together. */
  ghost function Offset(cs: seq<string>, k: nat): nat
    requires k <= |cs|
  {
    |Flat(cs[..k])|
  }

  lemma {:induction false} FlatConcat(a: seq<string>, b: seq<string>)
    ensures Flat(a + b) == Flat(a) + Flat(b)
    decreases |b|
  {
    if b == [] {
      assert a + b == a;
    } else {
      var b1 := b[..|b| - 1];
      FlatConcat(a, b1);
      assert (a + b)[..|a + b| - 1] == a + b1;
    }
  }

  /** The slice between successive offsets is the name itself, so offsets strictly increase. */
  lemma SliceIsName(cs: seq<string>, k: nat)
    requires k < |cs|
    ensures Offset(cs, k) + |cs[k]| == Offset(cs, k + 1) <= |Flat(cs)|
    ensures Flat(cs)[Offset(cs, k)..Offset(cs, k + 1)] == cs[k]
  {
    var a, b := cs[..k + 1], cs[k + 1..];
    assert cs == a + b;
    FlatConcat(a, b);
    assert a[..k] == cs[..k] && a[k] == cs[k];
    assert Flat(a) == Flat(cs[..k]) + cs[k];
  }

  lemma OffsetOrder(cs: seq<string>, i: nat, j: nat)
    requires i <= j <= |cs|
    ensures Offset(cs, i) <= Offset(cs, j) <= |Flat(cs)|
  {
    assert cs[..i] + cs[i..j] == cs[..j];
    assert cs == cs[..j] + cs[j..];
    FlatConcat(cs[..i], cs[i..j]);
    FlatConcat(cs[..j], cs[j..]);
  }

  /** Names have no NUL, so neither has the text they make up. */
  lemma {:induction false} FlatHasNoNul(cs: seq<string>)
    requires Names(cs)
    ensures CText(Flat(cs))
  {
    if cs != [] {
      FlatHasNoNul(cs[..|cs| - 1]);
    }
  }

  /** What the fixed-size node list has room for. */
  ghost predicate Fits(s: string) {
    |Components(s)| <= 12 && |Flat(Components(s))| <= 255
  }

  /** One more character adds at most itself to the text, behind it, and leaves where the names
      start alone. */
  lemma ExtendFlat(cs: seq<string>, edge: bool, c: char)
    ensures var ds := Extend(cs, edge, c);
            && |cs| <= |ds| <= |cs| + 1
            && Flat(ds) == (if IsSep(c) then Flat(cs) else Flat(cs) + [c])
            && forall k | 0 <= k < |cs| || k == 0 || (k == |cs| < |ds|) :: Offset(ds, k) == Offset(cs, k)
  {
    var ds := Extend(cs, edge, c);
    if !IsSep(c) {
      assert ds[..|ds| - 1] == if edge || cs == [] then cs else cs[..|cs| - 1];
      forall k | 0 <= k < |cs| || k == 0 || (k == |cs| < |ds|)
        ensures Offset(ds, k) == Offset(cs, k)
      {
        assert ds[..k] == cs[..k];
      }
    }
  }

  lemma {:induction false} PrefixFits(s: string, i: nat)
    requires i <= |s| && Fits(s)
    ensures Fits(s[..i])
    decreases |s| - i
  {
    if i == |s| {
      assert s[..i] == s;
    } else {
      PrefixFits(s, i + 1);
      assert s[..i + 1] == s[..i] + [s[i]];
      OneMore(s[..i], s[i]);
      ExtendFlat(Components(s[..i]), AtEdge(s[..i]), s[i]);
    }
  }

  /** The names are never longer in all than the path: 255 characters always fit. */
  lemma {:induction false} ShortPathsFit(s: string)
    ensures |Flat(Components(s))| <= |s|
    decreases |s|
  {
    if s != "" {
      var t, c := s[..|s| - 1], s[|s| - 1];
      assert s == t + [c];
      OneMore(t, c);
      ShortPathsFit(t);
      ExtendFlat(Components(t), AtEdge(t), c);
    }
  }

  // ----- kinds of pattern node

  /** `*` alone, `**` alone, a name with some star in it, or a plain name. */
  function TypeOf(q: string): NodeType {
    if q == "*" then Star
    else if q == "**" then DoubleStar
    else if '*' in q then MixedStar
    else Character
  }

  // ----- node lists

  class NodeList {
    var nodeCnt: Byte
    var curNode: Byte
    const offsets: array<Byte>
    const nodetypes: array<NodeType>
    const str: array<char>
    ghost var parts: seq<string>

    constructor ()
      ensures fresh(this) && fresh(offsets) && fresh(nodetypes) && fresh(str)
      ensures offsets.Length == nodetypes.Length == MAX_DIR_LEVEL && str.Length == MAX_PATH_LEN
      ensures nodeCnt == 0 && curNode == 0 && parts == []
      ensures forall i | 0 <= i < MAX_PATH_LEN :: str[i] == '\0'
    {
      nodeCnt, curNode, parts := 0, 0, [];
      offsets := new Byte[MAX_DIR_LEVEL](_ => 0);
      nodetypes := new NodeType[MAX_DIR_LEVEL](_ => Invalid);
      str := new char[MAX_PATH_LEN](_ => '\0');
    }

    /** The list holds the names of `parts`: their text at the front of `str` with NULs behind it,
        and where each of the first n starts. */
    ghost predicate Holds(n: nat)
      requires n <= |parts| + 1
      reads this`nodeCnt, this`parts, offsets, str
    {
      && offsets.Length == nodetypes.Length == MAX_DIR_LEVEL && str.Length == MAX_PATH_LEN
      && Names(parts) && nodeCnt == |parts| <= 12 && |Flat(parts)| <= 255
      && str[..|Flat(parts)|] == Flat(parts)
      && (forall i | |Flat(parts)| <= i < str.Length :: str[i] == '\0')
      && (forall k | 0 <= k < n :: offsets[k] == Offset(parts, k))
    }

    ghost predicate Valid()
      reads this, offsets, str
    {
      Holds(|parts| + 1) && curNode <= nodeCnt == |parts|
    }

    /** The nodes are classified, as they are in a pattern. */
    ghost predicate Typed()
      reads this`parts, nodetypes
    {
      nodetypes.Length == MAX_DIR_LEVEL && |parts| <= 12
      && forall k | 0 <= k < |parts| :: nodetypes[k] == TypeOf(parts[k])
    }

    /** Puts ch behind the text, as the first character of a new name or the next of the last one. */
    method Put(ch: char, dest: Byte, begins: bool)
      requires Holds(|parts|) && dest == |Flat(parts)| < 255
      requires !IsSep(ch) && ch != '\0'
      requires if begins then nodeCnt < 12 else parts != []
      modifies this`nodeCnt, this`parts, offsets, str
      ensures parts == Extend(old(parts), begins, ch)
      ensures Holds(|parts|) && |Flat(parts)| == dest + 1
    {
      hide Flat;
      ghost var was := parts;
      ExtendFlat(parts, begins, ch);
      if begins {
        offsets[nodeCnt] := dest;
        nodeCnt := nodeCnt + 1;
      }
      str[dest] := ch;
      parts := Extend(was, begins, ch);
      assert str[..dest + 1] == Flat(was) + [ch];
    }

    /** The k-th name as it stands in the buffer. */
    ghost function Slice(k: nat): string
      requires Valid() && k < nodeCnt
      reads this, offsets, str
    {
      OffsetOrder(parts, k, k + 1);
      str[offsets[k]..offsets[k + 1]]
    }

    lemma Slices(k: nat)
      requires Valid() && k < nodeCnt
      ensures offsets[k] < offsets[k + 1] <= |Flat(parts)| <= 255
      ensures Slice(k) == parts[k]
    {
      SliceIsName(parts, k);
      assert Slice(k) == str[..|Flat(parts)|][offsets[k]..offsets[k + 1]];
    }
  }

  /** The kind of the node in buffer[start..end]. */
  method FindNodeType(str: array<char>, start: Byte, end: Byte) returns (t: NodeType)
    requires start <= end <= str.Length
    ensures t == TypeOf(str[start..end])
  {
    var len := end - start;
    ghost var q := str[start..end];
    if len == 1 && str[start] == '*' {
      return Star;
    } else if len == 2 && str[start] == '*' && str[start + 1] == '*' {
      return DoubleStar;
    } else {
      assert q != "*" by { assert len == 1 ==> q[0] == str[start]; }
      assert q != "**" by { assert len == 2 ==> q[0] == str[start] && q[1] == str[start + 1]; }
      var i: nat := start;
      while i < end
        invariant start <= i <= end
        invariant forall k | 0 <= k < i - start :: q[k] != '*'
      {
        assert q[i - start] == str[i];
        if str[i] == '*' {
          return MixedStar;
        }
        i := i + 1;
      }
    }
    return Character;
  }

  /** Gives every node of the list its kind. */
  method Classify(p: NodeList)
    requires p.Valid()
    modifies p.nodetypes
    ensures p.Valid() && p.Typed()
  {
    var k: nat := 0;
    while k < p.nodeCnt
      invariant k <= p.nodeCnt && p.Valid()
      invariant forall x | 0 <= x < k :: p.nodetypes[x] == TypeOf(p.parts[x])
    {
      hide Flat;
      p.Slices(k);
      p.nodetypes[k] := FindNodeType(p.str, p.offsets[k], p.offsets[k + 1]);
      k := k + 1;
    }
  }

  /** Cuts s into a node list, classifying the nodes of a pattern; there is none exactly when two
      separators are adjacent. Positions are indices into s, with -1 for the place before it. */
  method Translate(s: string, isPattern: bool) returns (r: NodeList?)
    requires CText(s) && Fits(s)
    ensures r == null <==> AdjacentSeps(s)
    ensures r != null ==> fresh(r) && fresh(r.offsets) && fresh(r.nodetypes) && fresh(r.str)
    ensures r != null ==> r.Valid() && r.curNode == 0 && r.parts == Components(s) && (isPattern ==> r.Typed())
  {
    hide Components, Flat, AdjacentSeps;
    var p := new NodeList();
    var i, lastSlash := 0, -1;
    if |s| > 0 && IsSep(s[0]) {
      lastSlash, i := 0, 1;
    }
    var dest: nat := 0;
    ghost var done := s[..i];
    Start(s, i);
    while i < |s|
      invariant 0 <= i <= |s| && done == s[..i]
      invariant -1 <= lastSlash < i && (i - lastSlash == 1 <==> AtEdge(done))
      invariant !AdjacentSeps(done)
      invariant p.parts == Components(done) && p.Holds(|p.parts|) && dest == |Flat(p.parts)|
      invariant p.curNode == 0 && fresh(p) && fresh(p.offsets) && fresh(p.nodetypes) && fresh(p.str)
    {
      var ch := s[i];
      ghost var was := done;
      done := s[..i + 1];
      Progress(s, i);
      ExtendFlat(p.parts, AtEdge(was), ch);
      if IsSep(ch) {
        if i - lastSlash == 1 {
          PrefixSeps(s, i + 1);
          return null;
        }
        lastSlash := i;
      } else {
        p.Put(ch, dest, i - lastSlash == 1);
        dest := dest + 1;
      }
      i := i + 1;
    }
    assert done == s && p.parts[..|p.parts|] == p.parts;
    p.offsets[p.nodeCnt] := dest;
    if isPattern {
      Classify(p);
    }
    r := p;
  }

  lemma PrefixSeps(s: string, k: nat)
    requires k <= |s| && AdjacentSeps(s[..k])
    ensures AdjacentSeps(s)
  {
  }

  /** Before the first step. */
  lemma Start(s: string, i: nat)
    requires i == if |s| > 0 && IsSep(s[0]) then 1 else 0
    ensures Components(s[..i]) == [] && Flat([]) == ""
    ensures AtEdge(s[..i]) && !AdjacentSeps(s[..i])
  {
  }

  /** What the step over s[i] needs. */
  lemma Progress(s: string, i: nat)
    requires i < |s| && CText(s) && Fits(s)
    ensures var was, now := s[..i], s[..i + 1];
            && now == was + [s[i]]
            && Components(now) == Extend(Components(was), AtEdge(was), s[i])
            && (!AtEdge(was) ==> Components(was) != [])
            && Fits(now) && Names(Components(now))
            && (AdjacentSeps(now) <==> AdjacentSeps(was) || (i > 0 && AtEdge(was) && IsSep(s[i])))
  {
    hide Components, Flat, Extend;
    var was, now := s[..i], s[..i + 1];
    assert now == was + [s[i]];
    OneMore(was, s[i]);
    PrefixFits(s, i + 1);
    ComponentsAreNames(now);
    MoreSeps(was, s[i]);
  }

  lemma MoreSeps(s: string, c: char)
    ensures AdjacentSeps(s + [c]) <==> AdjacentSeps(s) || (s != "" && AtEdge(s) && IsSep(c))
  {
    var t, n := s + [c], |s|;
    assert forall i | 0 <= i < n :: t[i] == s[i];
    if s != "" && AtEdge(s) && IsSep(c) {
      var m := n - 1;
      assert IsSep(t[m]) && IsSep(t[n]);
    }
    if AdjacentSeps(s) {
      var x, y :| 0 <= x && y == x + 1 && y < |s| && IsSep(s[x]) && IsSep(s[y]);
      assert IsSep(t[x]) && IsSep(t[y]);
    }
    if AdjacentSeps(t) {
      var x, y :| 0 <= x && y == x + 1 && y < |t| && IsSep(t[x]) && IsSep(t[y]);
      if y < n {
        assert IsSep(s[x]) && IsSep(s[y]);
      }
    }
  }
}
