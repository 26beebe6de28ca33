/** Printing a security identifier from guest memory into a buffer, and reading the text back. */
module SecurityId {
  import opened Wrappers

  type Word32 = w: nat | w < 0x1_0000_0000

  /** A revision, a 48-bit authority and sub-authorities. */
  datatype Sid = Sid(revision: nat, authority: nat, subs: seq<Word32>)

  ghost predicate Printable(s: Sid) {
    s.revision <= 9 && s.authority < 0x1_0000_0000_0000
  }

  // ----- decimal numbers

  function Digit(d: nat): (c: char)
    requires d < 10
    ensures '0' <= c <= '9'
  {
    '0' + d as char
  }

  function Decimal(n: nat): (s: string)
    ensures s != ""
    ensures forall i | 0 <= i < |s| :: '0' <= s[i] <= '9'
  {
    if n < 10 then [Digit(n)] else Decimal(n / 10) + [Digit(n % 10)]
  }

  function ParseDecimal(s: string): Option<nat> {
    if s == "" then Some(0)
    else
      var c := s[|s| - 1];
      var front := ParseDecimal(s[..|s| - 1]);
      if front == None || !('0' <= c <= '9') then None
      else Some(front.value * 10 + (c as int - '0' as int))
  }

  lemma {:induction false} DecimalRoundTrip(n: nat)
    ensures ParseDecimal(Decimal(n)) == Some(n)
  {
    if n < 10 {
      assert Decimal(n)[..0] == "";
      assert ParseDecimal("") == Some(0);
    } else {
      DecimalRoundTrip(n / 10);
      assert Decimal(n)[..|Decimal(n)| - 1] == Decimal(n / 10);
    }
  }

  function Power10(k: nat): nat {
    if k == 0 then 1 else 10 * Power10(k - 1)
  }

  lemma {:induction false} DecimalLength(n: nat, k: nat)
    requires n < Power10(k) && k > 0
    ensures |Decimal(n)| <= k
    decreases k
  {
    if n >= 10 {
      DecimalLength(n / 10, k - 1);
    }
  }

  // ----- the text

  /** The sub-authorities, each behind a dash. */
  function SubText(subs: seq<Word32>): string {
    if subs == [] then "" else SubText(subs[..|subs| - 1]) + "-" + Decimal(subs[|subs| - 1])
  }

  function SidText(s: Sid): string
    requires s.revision <= 9
  {
    "S-" + [Digit(s.revision)] + "-" + Decimal(s.authority) + SubText(s.subs)
  }

  // ----- reading the text back

  /** The parts between dashes. */
  function Split(s: string): (parts: seq<string>)
    ensures parts != []
  {
    if s == "" then [""]
    else
      var parts := Split(s[..|s| - 1]);
      var c := s[|s| - 1];
      if c == '-' then parts + [""] else parts[..|parts| - 1] + [parts[|parts| - 1] + [c]]
  }

  function ParseAll(parts: seq<string>): Option<seq<nat>> {
    if parts == [] then Some([])
    else
      var front, last := ParseAll(parts[..|parts| - 1]), ParseDecimal(parts[|parts| - 1]);
      if front == None || last == None || parts[|parts| - 1] == "" then None else Some(front.value + [last.value])
  }

  /** The sid a text stands for. */
  function ParseSid(text: string): Option<Sid> {
    var parts := Split(text);
    if parts[0] != "S" || |parts| < 3 then None
    else
      var numbers := ParseAll(parts[1..]);
      if numbers == None then None
      else
        var ns := numbers.value;
        if |ns| < 2 || !AreWords(ns[2..]) then None else Some(Sid(ns[0], ns[1], Words(ns[2..])))
  }

  predicate AreWords(ns: seq<nat>) {
    forall i | 0 <= i < |ns| :: ns[i] < 0x1_0000_0000
  }

  function Words(ns: seq<nat>): seq<Word32>
    requires AreWords(ns)
  {
    seq(|ns|, i requires 0 <= i < |ns| => ns[i])
  }

  /** The parts with more text behind the last one. */
  function Grown(parts: seq<string>, t: string): seq<string>
    requires parts != []
  {
    parts[..|parts| - 1] + [parts[|parts| - 1] + t]
  }

  lemma SplitStep(s: string, c: char)
    ensures Split(s + [c]) == if c == '-' then Split(s) + [""] else Grown(Split(s), [c])
  {
  }

  lemma GrownTwice(parts: seq<string>, t: string, c: char)
    requires parts != []
    ensures Grown(Grown(parts, t), [c]) == Grown(parts, t + [c])
    ensures Grown(parts, "") == parts
  {
    var p := parts[|parts| - 1];
    assert p + t + [c] == p + (t + [c]) && p + "" == p;
  }

  lemma {:induction false} SplitMore(s: string, t: string)
    requires forall i | 0 <= i < |t| :: t[i] != '-'
    ensures Split(s + t) == Grown(Split(s), t)
    decreases |t|
  {
    hide Split;
    if t == "" {
      assert s + t == s;
      GrownTwice(Split(s), "", ' ');
    } else {
      var u, c := t[..|t| - 1], t[|t| - 1];
      SplitMore(s, u);
      assert t == u + [c] && s + t == s + u + [c];
      SplitStep(s + u, c);
      GrownTwice(Split(s), u, c);
    }
  }

  /** A dash and a text without one add exactly one part. */
  lemma SplitNext(s: string, t: string)
    requires forall i | 0 <= i < |t| :: t[i] != '-'
    ensures Split(s + "-" + t) == Split(s) + [t]
  {
    hide Split;
    SplitStep(s, '-');
    SplitMore(s + "-", t);
    assert "" + t == t;
    assert Grown(Split(s) + [""], t) == Split(s) + [t];
  }

  function Numbers(s: Sid): seq<nat> {
    [s.revision, s.authority] + seq(|s.subs|, i requires 0 <= i < |s.subs| => s.subs[i] as nat)
  }

  function Decimals(ns: seq<nat>): seq<string> {
    seq(|ns|, i requires 0 <= i < |ns| => Decimal(ns[i]))
  }

  lemma ParseAllStep(parts: seq<string>, p: string)
    ensures ParseAll(parts + [p]) ==
            var front, last := ParseAll(parts), ParseDecimal(p);
            if front == None || last == None || p == "" then None else Some(front.value + [last.value])
  {
  }

  lemma {:induction false} ParseAllDecimals(ns: seq<nat>)
    ensures ParseAll(Decimals(ns)) == Some(ns)
  {
    if ns != [] {
      hide ParseAll, Decimal, ParseDecimal;
      var ms, n := ns[..|ns| - 1], ns[|ns| - 1];
      ParseAllDecimals(ms);
      DecimalRoundTrip(n);
      assert Decimals(ns) == Decimals(ms) + [Decimal(n)];
      ParseAllStep(Decimals(ms), Decimal(n));
      assert ms + [n] == ns;
    }
  }

  lemma {:induction false} SplitText(s: Sid)
    requires s.revision <= 9
    ensures Split(SidText(s)) == ["S"] + Decimals(Numbers(s))
    decreases |s.subs|
  {
    if s.subs == [] {
      HeadParts(s);
    } else {
      hide Split, Decimal, Digit, SidText, Numbers, Decimals;
      var k: nat := |s.subs| - 1;
      var t := s.(subs := s.subs[..k]);
      SplitText(t);
      OneMoreSub(s);
      OneMoreNumber(s);
      SplitNext(SidText(t), Decimal(s.subs[k]));
    }
  }

  lemma OneMoreNumber(s: Sid)
    requires s.subs != []
    ensures var k: nat := |s.subs| - 1;
            Decimals(Numbers(s)) == Decimals(Numbers(s.(subs := s.subs[..k]))) + [Decimal(s.subs[k])]
  {
    hide Decimal;
    var k: nat := |s.subs| - 1;
    assert Numbers(s) == Numbers(s.(subs := s.subs[..k])) + [s.subs[k]];
  }

  lemma OneMoreSub(s: Sid)
    requires s.revision <= 9 && s.subs != []
    ensures var k: nat := |s.subs| - 1;
            SidText(s) == SidText(s.(subs := s.subs[..k])) + "-" + Decimal(s.subs[k])
  {
  }

  lemma SplitHead(r: string, a: string)
    requires forall i | 0 <= i < |r| :: r[i] != '-'
    requires forall i | 0 <= i < |a| :: a[i] != '-'
    ensures Split("S" + "-" + r + "-" + a) == ["S"] + [r] + [a]
  {
    SplitS();
    hide Split;
    SplitNext("S", r);
    SplitNext("S" + "-" + r, a);
  }

  lemma SplitS()
    ensures Split("S") == ["S"]
  {
    assert "S"[..0] == "";
    assert "" + ['S'] == "S";
  }

  lemma HeadParts(s: Sid)
    requires s.revision <= 9 && s.subs == []
    ensures Split(SidText(s)) == ["S"] + Decimals(Numbers(s))
  {
    hide Decimal, Split;
    var r, a := [Digit(s.revision)], Decimal(s.authority);
    SplitHead(r, a);
    OneDigit(s.revision);
    assert SidText(s) == "S" + "-" + r + "-" + a;
    assert Decimals(Numbers(s)) == [r] + [a];
  }

  lemma OneDigit(d: nat)
    requires d < 10
    ensures Decimal(d) == [Digit(d)]
  {
  }

  /** Reading the printed text gives back the revision, the authority and every sub-authority. */
  lemma SidRoundTrip(s: Sid)
    requires s.revision <= 9
    ensures ParseSid(SidText(s)) == Some(s)
  {
    SplitText(s);
    hide Split, Decimal, ParseAll, SidText, ParseDecimal;
    var ns := Numbers(s);
    ParseAllDecimals(ns);
    assert Split(SidText(s))[1..] == Decimals(ns);
    hide Decimals;
    SubsBack(s);
  }

  lemma SubsBack(s: Sid)
    ensures AreWords(Numbers(s)[2..]) && Words(Numbers(s)[2..]) == s.subs
  {
  }

  // ----- how long the text gets

  lemma {:induction false} SubTextLength(subs: seq<Word32>)
    ensures |SubText(subs)| <= 11 * |subs|
  {
    if subs != [] {
      SubTextLength(subs[..|subs| - 1]);
      assert Power10(10) == 10_000_000_000;
      DecimalLength(subs[|subs| - 1], 10);
    }
  }

  /** With the dash behind it and the closing NUL, the text of n sub-authorities needs at most
      21 + 11 n characters. */
  lemma TextLength(s: Sid)
    requires Printable(s)
    ensures |SidText(s)| + 2 <= 21 + 11 * |s.subs|
  {
    SubTextLength(s.subs);
    assert Power10(5) == 100_000;
    assert Power10(10) == 100_000 * Power10(5);
    assert Power10(15) == 100_000 * Power10(10);
    DecimalLength(s.authority, 15);
  }

  // ----- the authority

  function Power256(k: nat): (p: nat)
    ensures p > 0
  {
    if k == 0 then 1 else 256 * Power256(k - 1)
  }

  /** The number the bytes stand for, the first the most significant. */
  function BigEndian(bs: seq<Byte>): nat {
    if bs == [] then 0 else BigEndian(bs[..|bs| - 1]) * 256 + bs[|bs| - 1]
  }

  function BytesOf(n: nat, k: nat): seq<Byte> {
    if k == 0 then [] else BytesOf(n / 256, k - 1) + [n % 256]
  }

  /** No byte of the authority is lost. */
  lemma {:induction false} AuthorityRoundTrip(bs: seq<Byte>)
    ensures BytesOf(BigEndian(bs), |bs|) == bs
    ensures BigEndian(bs) < Power256(|bs|)
  {
    if bs != [] {
      AuthorityRoundTrip(bs[..|bs| - 1]);
    }
  }

  // ----- printing

  function SixBytes(read8: nat -> Byte, addr: nat): seq<Byte> {
    seq(6, i requires 0 <= i < 6 => read8(addr + 2 + i))
  }

  /** The security identifier at an address of guest memory. */
  function SidAt(read8: nat -> Byte, read32: nat -> Word32, addr: nat): Sid {
    Sid(read8(addr), BigEndian(SixBytes(read8, addr)),
        seq(read8(addr + 1), i requires 0 <= i => read32(addr + 8 + 4 * i)))
  }

  /** Prints a text and a NUL at a place in the buffer. */
  method Sprint(sid: array<char>, pos: nat, text: string) returns (n: nat)
    requires pos + |text| < sid.Length
    modifies sid
    ensures n == |text| && sid[..pos + n] == old(sid[..pos]) + text && sid[pos + n] == '\0'
  {
    n := 0;
    while n < |text|
      invariant n <= |text| && sid[..pos] == old(sid[..pos])
      invariant forall k | 0 <= k < n :: sid[pos + k] == text[k]
    {
      sid[pos + n] := text[n];
      n := n + 1;
    }
    sid[pos + n] := '\0';
    assert sid[pos..pos + n] == text;
    assert sid[..pos + n] == sid[..pos] + sid[pos..pos + n];
  }

  lemma Shift(b: nat, c: nat, k: nat)
    requires k < 6
    ensures b * Power256(6 - k) + c * Power256(5 - k) == (b * 256 + c) * Power256(5 - k)
  {
  }

  method ReadAuthority(read8: nat -> Byte, addr: nat) returns (authority: nat)
    ensures authority == BigEndian(SixBytes(read8, addr))
  {
    ghost var bs := SixBytes(read8, addr);
    var bytes := new Byte[6];
    authority := 0;
    var i := 0;
    while i < 6
      invariant 0 <= i <= 6 && authority == BigEndian(bs[..i]) * Power256(6 - i)
    {
      bytes[i] := read8(addr + 2 + i);
      authority := authority + bytes[i] * Power256(5 - i);
      Shift(BigEndian(bs[..i]), bs[i], i);
      assert bs[..i + 1][..i] == bs[..i];
      i := i + 1;
    }
    assert bs[..6] == bs;
  }

  /** Prints the identifier at the address, unless its revision has more than one digit. */
  method ExtractSid(read8: nat -> Byte, read32: nat -> Word32, addr: nat, sid: array<char>) returns (valid: bool)
    requires sid.Length >= 21 + 11 * read8(addr + 1)
    modifies sid
    ensures valid <==> read8(addr) <= 9
    ensures !valid ==> sid[..] == old(sid[..])
    ensures valid ==> var text := SidText(SidAt(read8, read32, addr));
                      |text| < sid.Length && sid[..|text|] == text && sid[|text|] == '\0'
  {
    hide SidText, SixBytes, BigEndian;
    ghost var all := SidAt(read8, read32, addr);
    var first := read8(addr);
    if first > 9 {
      return false;
    }
    AuthorityBelow(read8, addr);
    var authority := ReadAuthority(read8, addr);
    ghost var t := Sid(first, authority, []);
    TextLength(t);
    var pos := PrintHead(sid, first, authority);
    var count := read8(addr + 1);
    var i := 0;
    while i < count
      invariant 0 <= i <= count && t == all.(subs := all.subs[..i])
      invariant pos == |SidText(t)| + 1 < sid.Length && sid[..pos] == SidText(t) + "-"
    {
      var sub := read32(addr + 8 + 4 * i);
      t := all.(subs := all.subs[..i + 1]);
      TextLength(t);
      assert t.subs[..i] == all.subs[..i] && t.subs[i] == sub;
      pos := PrintSub(sid, pos, sub, t);
      i := i + 1;
    }
    assert all.subs[..i] == all.subs;
    sid[pos - 1] := '\0';
    assert sid[..pos - 1] == (SidText(t) + "-")[..pos - 1];
    return true;
  }

  /** The revision, the authority and a dash behind each. */
  method PrintHead(sid: array<char>, first: Byte, authority: nat) returns (pos: nat)
    requires first <= 9 && |SidText(Sid(first, authority, []))| + 1 < sid.Length
    modifies sid
    ensures pos == |SidText(Sid(first, authority, []))| + 1 && sid[..pos] == SidText(Sid(first, authority, [])) + "-"
  {
    hide Decimal, Digit;
    ghost var t := Sid(first, authority, []);
    var head, tail := "S-" + [Digit(first)] + "-", Decimal(authority) + "-";
    assert SidText(t) + "-" == head + tail;
    var m := Sprint(sid, 0, head);
    var n := Sprint(sid, m, tail);
    pos := m + n;
  }

  /** One more sub-authority with its dash, where t is the identifier up to it. */
  method PrintSub(sid: array<char>, pos: nat, sub: Word32, ghost t: Sid) returns (next: nat)
    requires t.revision <= 9 && t.subs != [] && t.subs[|t.subs| - 1] == sub
    requires var was := t.(subs := t.subs[..|t.subs| - 1]);
             pos == |SidText(was)| + 1 <= sid.Length && sid[..pos] == SidText(was) + "-"
    requires |SidText(t)| + 1 < sid.Length
    modifies sid
    ensures next == |SidText(t)| + 1 && sid[..next] == SidText(t) + "-"
  {
    hide Decimal, SidText;
    ghost var was := SidText(t.(subs := t.subs[..|t.subs| - 1]));
    OneMoreSub(t);
    var text := Decimal(sub) + "-";
    assert SidText(t) + "-" == was + "-" + text;
    var n := Sprint(sid, pos, text);
    next := pos + n;
  }

  lemma AuthorityBelow(read8: nat -> Byte, addr: nat)
    ensures BigEndian(SixBytes(read8, addr)) < 0x1_0000_0000_0000
  {
    AuthorityRoundTrip(SixBytes(read8, addr));
    assert Power256(2) == 0x1_0000 && Power256(4) == 0x1_0000 * Power256(2) && Power256(6) == 0x1_0000 * Power256(4);
  }

  // ----- an identifier as it lies in memory

  /** Revision at 0, number of sub-authorities at 1, the authority at 2 to 7 with its most significant
      byte first, sub-authority i at 8 + 4 i. */
  ghost predicate LiesAt(read8: nat -> Byte, read32: nat -> Word32, addr: nat, s: Sid) {
    && read8(addr) == s.revision
    && read8(addr + 1) == |s.subs|
    && read8(addr + 2) == s.authority / 0x100_0000_0000
    && read8(addr + 3) == s.authority / 0x1_0000_0000 % 256
    && read8(addr + 4) == s.authority / 0x100_0000 % 256
    && read8(addr + 5) == s.authority / 0x1_0000 % 256
    && read8(addr + 6) == s.authority / 0x100 % 256
    && read8(addr + 7) == s.authority % 256
    && forall i: nat | i < |s.subs| :: read32(addr + 8 + 4 * i) == s.subs[i]
  }

  function Horner(b0: nat, b1: nat, b2: nat, b3: nat, b4: nat, b5: nat): nat {
    ((((b0 * 256 + b1) * 256 + b2) * 256 + b3) * 256 + b4) * 256 + b5
  }

  /** Six bytes of an authority, each the rest of a division by 256. */
  lemma SixHorner(n: nat, b0: nat, b1: nat, b2: nat, b3: nat, b4: nat, b5: nat)
    requires b0 == n / 0x100_0000_0000 && b1 == n / 0x1_0000_0000 % 256 && b2 == n / 0x100_0000 % 256
    requires b3 == n / 0x1_0000 % 256 && b4 == n / 0x100 % 256 && b5 == n % 256
    ensures Horner(b0, b1, b2, b3, b4, b5) == n
  {
    var n1 := n / 256;
    var n2 := n1 / 256;
    var n3 := n2 / 256;
    var n4 := n3 / 256;
    assert n2 == n / 0x1_0000 && n3 == n / 0x100_0000 && n4 == n / 0x1_0000_0000 && n4 / 256 == n / 0x100_0000_0000;
  }

  lemma BigEndianSix(bs: seq<Byte>)
    requires |bs| == 6
    ensures BigEndian(bs) == Horner(bs[0], bs[1], bs[2], bs[3], bs[4], bs[5])
  {
    BigEndianNone();
    hide BigEndian;
    assert bs[..0] == [];
    BigEndianNext(bs, 0);
    BigEndianNext(bs, 1);
    BigEndianNext(bs, 2);
    BigEndianNext(bs, 3);
    BigEndianNext(bs, 4);
    BigEndianNext(bs, 5);
    assert bs[..6] == bs;
  }

  lemma BigEndianNone()
    ensures BigEndian([]) == 0
  {
  }

  lemma BigEndianNext(bs: seq<Byte>, k: nat)
    requires k < |bs|
    ensures BigEndian(bs[..k + 1]) == BigEndian(bs[..k]) * 256 + bs[k]
  {
    assert bs[..k + 1][..k] == bs[..k];
  }

  /** An identifier that lies at the address is what is read there. */
  lemma SidIsRead(read8: nat -> Byte, read32: nat -> Word32, addr: nat, s: Sid)
    requires LiesAt(read8, read32, addr, s)
    ensures SidAt(read8, read32, addr) == s
  {
    hide BigEndian, Horner;
    var bs := SixBytes(read8, addr);
    assert bs == [read8(addr + 2), read8(addr + 3), read8(addr + 4), read8(addr + 5), read8(addr + 6), read8(addr + 7)];
    BigEndianSix(bs);
    SixHorner(s.authority, bs[0], bs[1], bs[2], bs[3], bs[4], bs[5]);
    assert SidAt(read8, read32, addr).subs == s.subs;
  }

  /** What is printed for an identifier that lies in memory reads back as that identifier. */
  lemma PrintedReadsBack(read8: nat -> Byte, read32: nat -> Word32, addr: nat, s: Sid)
    requires LiesAt(read8, read32, addr, s) && s.revision <= 9
    ensures SidAt(read8, read32, addr).revision <= 9
    ensures ParseSid(SidText(SidAt(read8, read32, addr))) == Some(s)
  {
    hide ParseSid, SidText, LiesAt, SidAt;
    SidIsRead(read8, read32, addr, s);
    SidRoundTrip(s);
  }
}
