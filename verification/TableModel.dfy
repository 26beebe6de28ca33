/** A chained hash table as a value: buckets of entries in chain order and the data pointers freed so
    far; what its operations do to it, and that it behaves as a finite map. */
module TableModel {
  import opened Wrappers

  /** A character of a key, signed as the compiler takes it. */
  type CharCode = c: int | -128 <= c < 128

  type Key = seq<CharCode>

  /** A data pointer; 0 is NULL. */
  type Ptr = nat

  const KEY_LENGTH: nat := 1024
  const WORD: nat := 0x1_0000_0000_0000_0000

  datatype Entry = Entry(key: Key, data: Ptr)

  datatype Table = Table(buckets: seq<seq<Entry>>, freed: multiset<Ptr>)

  // ----- hashing

  /** The hash, each step wrapping round at 64 bits. */
  function Hash(key: Key): (h: nat)
    ensures h < WORD
  {
    if key == [] then 5381 else (Hash(key[..|key| - 1]) * 33 + key[|key| - 1]) % WORD
  }

  /** The same polynomial in 33 over the integers. */
  function Polynomial(key: Key): int {
    if key == [] then 5381 else Polynomial(key[..|key| - 1]) * 33 + key[|key| - 1]
  }

  /** Wrapping at every step or once at the end comes to the same. */
  lemma {:induction false} HashIsPolynomial(key: Key)
    ensures Hash(key) == Polynomial(key) % WORD
  {
    if key != [] {
      var p := Polynomial(key[..|key| - 1]);
      HashIsPolynomial(key[..|key| - 1]);
      assert p == WORD * (p / WORD) + p % WORD;
      SameRest(p % WORD * 33 + key[|key| - 1], p / WORD * 33);
    }
  }

  lemma SameRest(a: int, k: int)
    ensures (a + k * WORD) % WORD == a % WORD
  {
  }

  /** The hash of "a", whose code is 97. */
  lemma HashOfA()
    ensures Hash([97]) == 177670
  {
    var k: Key := [97];
    assert k[..0] == [];
  }

  // ----- chains

  /** The first entry with the key, or the chain's length. */
  function Find(es: seq<Entry>, key: Key): (i: nat)
    ensures i <= |es| && (forall j | 0 <= j < i :: es[j].key != key)
    ensures i < |es| ==> es[i].key == key
  {
    if es == [] || es[0].key == key then 0 else 1 + Find(es[1..], key)
  }

  function Bucket(t: Table, key: Key): (b: nat)
    requires t.buckets != []
    ensures b < |t.buckets|
  {
    Hash(key) % |t.buckets|
  }

  /** The chain the key belongs in. */
  function ChainOf(t: Table, key: Key): seq<Entry>
    requires t.buckets != []
  {
    t.buckets[Bucket(t, key)]
  }

  /** Every entry is in the bucket its key hashes to, and no key is twice in a chain. */
  ghost predicate Placed(t: Table) {
    && t.buckets != []
    && (forall b, i | 0 <= b < |t.buckets| && 0 <= i < |t.buckets[b]| :: Bucket(t, t.buckets[b][i].key) == b)
    && (forall b | 0 <= b < |t.buckets| :: Distinct(t.buckets[b]))
  }

  ghost predicate Distinct(es: seq<Entry>) {
    forall i, j | 0 <= i < j < |es| :: es[i].key != es[j].key
  }

  // ----- operations

  function One(data: Ptr): multiset<Ptr> {
    if data == 0 then multiset{} else multiset{data}
  }

  function Freed(t: Table, data: Ptr): multiset<Ptr> {
    t.freed + One(data)
  }

  /** A key that is there already stays as it is, the new data is freed and the answer is -1. */
  function Put(t: Table, key: Key, data: Ptr): (Table, int)
    requires t.buckets != []
  {
    var b, es := Bucket(t, key), ChainOf(t, key);
    if Find(es, key) < |es| then (t.(freed := Freed(t, data)), -1)
    else (t.(buckets := t.buckets[b := es + [Entry(key, data)]]), 0)
  }

  function Search(t: Table, key: Key): Ptr
    requires t.buckets != []
  {
    var es := ChainOf(t, key);
    if Find(es, key) < |es| then es[Find(es, key)].data else 0
  }

  function Remove(t: Table, key: Key): (Table, int)
    requires t.buckets != []
  {
    var b, es := Bucket(t, key), ChainOf(t, key);
    var i := Find(es, key);
    if i < |es| then (Table(t.buckets[b := es[..i] + es[i + 1..]], Freed(t, es[i].data)), 0)
    else (t, -1)
  }

  /** The old data is freed, or the new data when the key is not there. */
  function Replace(t: Table, key: Key, data: Ptr): (Table, int)
    requires t.buckets != []
  {
    var b, es := Bucket(t, key), ChainOf(t, key);
    var i := Find(es, key);
    if i < |es| then (Table(t.buckets[b := es[i := Entry(key, data)]], Freed(t, es[i].data)), 0)
    else (t.(freed := Freed(t, data)), -1)
  }

  function Empty(size: nat): Table {
    Table(seq(size, _ => []), multiset{})
  }

  datatype Op =
    | DoPut(key: Key, data: Ptr)
    | DoSearch(key: Key)
    | DoRemove(key: Key)
    | DoReplace(key: Key, data: Ptr)

  /** An operation's effect and answer. */
  function Apply(t: Table, op: Op): (Table, int)
    requires t.buckets != []
  {
    match op
    case DoPut(k, d) => Put(t, k, d)
    case DoSearch(k) => (t, Search(t, k))
    case DoRemove(k) => Remove(t, k)
    case DoReplace(k, d) => Replace(t, k, d)
  }

  // ----- the map it stands for

  function Get(es: seq<Entry>, key: Key): Option<Ptr> {
    if Find(es, key) < |es| then Some(es[Find(es, key)].data) else None
  }

  /** The same operation on a finite map. */
  function ApplyToMap(m: map<Key, Ptr>, op: Op): (map<Key, Ptr>, int) {
    match op
    case DoPut(k, d) => if k in m then (m, -1) else (m[k := d], 0)
    case DoSearch(k) => (m, if k in m then m[k] else 0)
    case DoRemove(k) => if k in m then (m - {k}, 0) else (m, -1)
    case DoReplace(k, d) => if k in m then (m[k := d], 0) else (m, -1)
  }

  /** The table holds exactly the map's keys, each with the map's data. */
  ghost predicate Represents(t: Table, m: map<Key, Ptr>) {
    && Placed(t)
    && forall k: Key :: Get(ChainOf(t, k), k) == if k in m then Some(m[k]) else None
  }

  lemma FindIs(es: seq<Entry>, key: Key, i: nat)
    requires i <= |es| && (forall j | 0 <= j < i :: es[j].key != key) && (i < |es| ==> es[i].key == key)
    ensures Find(es, key) == i
  {
  }

  lemma GetAppended(es: seq<Entry>, e: Entry, k: Key)
    requires Find(es, e.key) == |es|
    ensures Get(es + [e], k) == if k == e.key then Some(e.data) else Get(es, k)
  {
    var i := Find(es, k);
    if k == e.key || i < |es| {
      FindIs(es + [e], k, i);
    } else {
      FindIs(es + [e], k, |es| + 1);
    }
  }

  lemma {:induction false} GetConcat(a: seq<Entry>, b: seq<Entry>, k: Key)
    ensures Get(a + b, k) == if Get(a, k) == None then Get(b, k) else Get(a, k)
  {
    if a == [] {
      assert a + b == b;
    } else {
      assert (a + b)[1..] == a[1..] + b;
      GetConcat(a[1..], b, k);
    }
  }

  lemma GetNone(es: seq<Entry>, k: Key)
    requires forall i | 0 <= i < |es| :: es[i].key != k
    ensures Get(es, k) == None
  {
  }

  lemma GetDropped(es: seq<Entry>, key: Key, k: Key)
    requires Distinct(es) && Find(es, key) < |es|
    ensures var i := Find(es, key);
            Get(es[..i] + es[i + 1..], k) == if k == key then None else Get(es, k)
  {
    hide Find, Get;
    var i := Find(es, key);
    var a, e, b := es[..i], es[i], es[i + 1..];
    assert es == a + ([e] + b);
    if k == key {
      GetNone(a, k);
      GetNone(b, k);
    } else {
      GetNone([e], k);
    }
    hide Distinct;
    GetConcat(a, b, k);
    GetConcat(a, [e] + b, k);
    GetConcat([e], b, k);
  }

  lemma GetChanged(es: seq<Entry>, e: Entry, k: Key)
    requires Find(es, e.key) < |es|
    ensures Get(es[Find(es, e.key) := e], k) == if k == e.key then Some(e.data) else Get(es, k)
  {
    FindIs(es[Find(es, e.key) := e], k, Find(es, k));
  }

  /** A change inside one bucket that keeps its entries there keeps the table in order. */
  lemma StillPlaced(t: Table, b: nat, es: seq<Entry>)
    requires Placed(t) && b < |t.buckets| && Distinct(es)
    requires forall i | 0 <= i < |es| :: Bucket(t, es[i].key) == b
    ensures Placed(t.(buckets := t.buckets[b := es]))
  {
  }

  lemma ApplyPlaced(t: Table, op: Op)
    requires Placed(t)
    ensures Placed(Apply(t, op).0) && |Apply(t, op).0.buckets| == |t.buckets|
  {
    hide Hash, Find;
    var b, es := Bucket(t, op.key), ChainOf(t, op.key);
    var i := Find(es, op.key);
    match op {
      case DoPut(k, d) => if i == |es| { StillPlaced(t, b, es + [Entry(k, d)]); }
      case DoSearch(k) =>
      case DoRemove(k) => if i < |es| { StillPlaced(t, b, es[..i] + es[i + 1..]); }
      case DoReplace(k, d) => if i < |es| { StillPlaced(t, b, es[i := Entry(k, d)]); }
    }
  }

  /** What an operation does to what one key finds: nothing for any other key. */
  lemma ApplyGet(t: Table, op: Op, k: Key)
    requires Placed(t)
    ensures var u := Apply(t, op).0;
            && u.buckets != []
            && var was := Get(ChainOf(t, k), k);
               Get(ChainOf(u, k), k) ==
               if k != op.key then was
               else match op
                 case DoPut(_, d) => if was == None then Some(d) else was
                 case DoSearch(_) => was
                 case DoRemove(_) => None
                 case DoReplace(_, d) => if was == None then was else Some(d)
  {
    hide Hash, Find;
    var es := ChainOf(t, op.key);
    match op {
      case DoPut(key, d) => if Find(es, key) == |es| { GetAppended(es, Entry(key, d), k); }
      case DoSearch(key) =>
      case DoRemove(key) => if Find(es, key) < |es| { GetDropped(es, key, k); }
      case DoReplace(key, d) => if Find(es, key) < |es| { GetChanged(es, Entry(key, d), k); }
    }
  }

  /** Every operation answers as on the map and leaves a table that stands for the changed map. */
  lemma ApplyRefines(t: Table, m: map<Key, Ptr>, op: Op)
    requires Represents(t, m)
    ensures Apply(t, op).1 == ApplyToMap(m, op).1
    ensures Represents(Apply(t, op).0, ApplyToMap(m, op).0)
  {
    var u, n := Apply(t, op).0, ApplyToMap(m, op).0;
    ApplyPlaced(t, op);
    assert Get(ChainOf(t, op.key), op.key) == if op.key in m then Some(m[op.key]) else None;
    forall k: Key
      ensures Get(ChainOf(u, k), k) == if k in n then Some(n[k]) else None
    {
      ApplyGet(t, op, k);
      assert Get(ChainOf(t, k), k) == if k in m then Some(m[k]) else None;
    }
  }

  // ----- whole runs

  function Final(t: Table, ops: seq<Op>): (u: Table)
    requires t.buckets != []
    ensures |u.buckets| == |t.buckets|
  {
    if ops == [] then t else Apply(Final(t, ops[..|ops| - 1]), ops[|ops| - 1]).0
  }

  function Answers(t: Table, ops: seq<Op>): seq<int>
    requires t.buckets != []
  {
    if ops == [] then []
    else Answers(t, ops[..|ops| - 1]) + [Apply(Final(t, ops[..|ops| - 1]), ops[|ops| - 1]).1]
  }

  function FinalMap(ops: seq<Op>): map<Key, Ptr> {
    if ops == [] then map[] else ApplyToMap(FinalMap(ops[..|ops| - 1]), ops[|ops| - 1]).0
  }

  function MapAnswers(ops: seq<Op>): seq<int> {
    if ops == [] then []
    else MapAnswers(ops[..|ops| - 1]) + [ApplyToMap(FinalMap(ops[..|ops| - 1]), ops[|ops| - 1]).1]
  }

  /** Whatever the number of buckets, any operations in any order give the answers a finite map gives,
      and leave each key once in its bucket. */
  lemma {:induction false} RunRefines(size: nat, ops: seq<Op>)
    requires size > 0
    ensures Represents(Final(Empty(size), ops), FinalMap(ops))
    ensures Answers(Empty(size), ops) == MapAnswers(ops)
  {
    if ops != [] {
      RunRefines(size, ops[..|ops| - 1]);
      ApplyRefines(Final(Empty(size), ops[..|ops| - 1]), FinalMap(ops[..|ops| - 1]), ops[|ops| - 1]);
    }
  }

  // ----- ownership of the data

  function OwnedIn(es: seq<Entry>): multiset<Ptr> {
    if es == [] then multiset{} else OwnedIn(es[..|es| - 1]) + One(es[|es| - 1].data)
  }

  /** The data pointers in the chains, counted as often as they are there. */
  function Owned(buckets: seq<seq<Entry>>): multiset<Ptr> {
    if buckets == [] then multiset{} else Owned(buckets[..|buckets| - 1]) + OwnedIn(buckets[|buckets| - 1])
  }

  function Given(op: Op): multiset<Ptr> {
    if op.DoPut? || op.DoReplace? then One(op.data) else multiset{}
  }

  function AllGiven(ops: seq<Op>): multiset<Ptr> {
    if ops == [] then multiset{} else AllGiven(ops[..|ops| - 1]) + Given(ops[|ops| - 1])
  }

  lemma OwnedNone()
    ensures OwnedIn([]) == multiset{}
  {
  }

  lemma OwnedLast(es: seq<Entry>, e: Entry)
    ensures OwnedIn(es + [e]) == OwnedIn(es) + One(e.data)
  {
  }

  lemma OwnedLastOf(a: seq<Entry>, b: seq<Entry>, e: Entry)
    ensures OwnedIn(a + (b + [e])) == OwnedIn(a + b) + One(e.data)
  {
    hide OwnedIn;
    assert a + (b + [e]) == a + b + [e];
    OwnedLast(a + b, e);
  }

  lemma {:induction false} OwnedConcat(a: seq<Entry>, b: seq<Entry>)
    ensures OwnedIn(a + b) == OwnedIn(a) + OwnedIn(b)
    decreases |b|
  {
    hide OwnedIn;
    if b == [] {
      OwnedNone();
      assert a + b == a;
    } else {
      var c, e := b[..|b| - 1], b[|b| - 1];
      OwnedConcat(a, c);
      OwnedLast(c, e);
      OwnedLastOf(a, c, e);
      assert b == c + [e];
    }
  }

  lemma OwnedAround(es: seq<Entry>, i: nat)
    requires i < |es|
    ensures OwnedIn(es) == OwnedIn(es[..i]) + One(es[i].data) + OwnedIn(es[i + 1..])
  {
    hide OwnedIn;
    assert es == es[..i] + ([es[i]] + es[i + 1..]);
    OwnedConcat(es[..i], [es[i]] + es[i + 1..]);
    OwnedConcat([es[i]], es[i + 1..]);
    OwnedSingle(es[i]);
  }

  lemma OwnedSingle(e: Entry)
    ensures OwnedIn([e]) == One(e.data)
  {
  }

  lemma Regroup(a: multiset<Ptr>, b: multiset<Ptr>, c: multiset<Ptr>, d: multiset<Ptr>, x: multiset<Ptr>)
    requires a + b == c + d
    ensures a + x + b == c + x + d
  {
    assert a + x + b == a + b + x;
  }

  lemma {:induction false} OwnedUpdate(bs: seq<seq<Entry>>, b: nat, es: seq<Entry>)
    requires b < |bs|
    ensures Owned(bs[b := es]) + OwnedIn(bs[b]) == Owned(bs) + OwnedIn(es)
  {
    hide OwnedIn;
    var n: nat := |bs| - 1;
    if b == n {
      assert bs[b := es][..n] == bs[..n];
    } else {
      OwnedUpdate(bs[..n], b, es);
      var cs := bs[b := es];
      assert cs[..n] == bs[..n][b := es] && cs[n] == bs[n] && bs[..n][b] == bs[b];
      Regroup(Owned(cs[..n]), OwnedIn(bs[b]), Owned(bs[..n]), OwnedIn(es), OwnedIn(bs[n]));
    }
  }

  /** What a change in the key's chain does to what the chain owns. */
  lemma ChainOwned(es: seq<Entry>, key: Key, data: Ptr)
    ensures var i := Find(es, key);
            if i == |es| then OwnedIn(es + [Entry(key, data)]) == OwnedIn(es) + One(data)
            else
              && OwnedIn(es[..i] + es[i + 1..]) + One(es[i].data) == OwnedIn(es)
              && OwnedIn(es[i := Entry(key, data)]) + One(es[i].data) == OwnedIn(es) + One(data)
  {
    hide Find, OwnedIn;
    var i := Find(es, key);
    if i == |es| {
      OwnedConcat(es, [Entry(key, data)]);
      OwnedSingle(Entry(key, data));
    } else {
      OwnedAround(es, i);
      OwnedConcat(es[..i], es[i + 1..]);
      var ds := es[i := Entry(key, data)];
      OwnedAround(ds, i);
      assert ds[..i] == es[..i] && ds[i + 1..] == es[i + 1..];
    }
  }

  /** Trading the part e of x for the part f of y, where f and o make up e and d. */
  lemma Balance(x: multiset<Ptr>, e: multiset<Ptr>, y: multiset<Ptr>, f: multiset<Ptr>,
                o: multiset<Ptr>, d: multiset<Ptr>)
    requires x + e == y + f && f + o == e + d
    ensures x + o == y + d
  {
    forall p
      ensures (x + o)[p] == (y + d)[p]
    {
      assert (x + e)[p] == (y + f)[p] && (f + o)[p] == (e + d)[p];
    }
  }

  /** No operation loses a data pointer: what the table owns and what it has freed together grow by
      exactly the pointer given. */
  lemma ApplyConserves(t: Table, op: Op)
    requires t.buckets != []
    ensures var u := Apply(t, op).0;
            Owned(u.buckets) + u.freed == Owned(t.buckets) + t.freed + Given(op)
  {
    hide Find, Hash, OwnedIn, Owned, One;
    var b, es := Bucket(t, op.key), ChainOf(t, op.key);
    var i := Find(es, op.key);
    match op {
      case DoPut(k, d) =>
        if i == |es| {
          BucketOwned(t, b, es + [Entry(k, d)], multiset{}, One(d)) by { ChainOwned(es, k, d); }
        }
      case DoSearch(k) =>
      case DoRemove(k) =>
        if i < |es| {
          BucketOwned(t, b, es[..i] + es[i + 1..], One(es[i].data), multiset{}) by { ChainOwned(es, k, 0); }
        }
      case DoReplace(k, d) =>
        if i < |es| {
          BucketOwned(t, b, es[i := Entry(k, d)], One(es[i].data), One(d)) by { ChainOwned(es, k, d); }
        }
    }
  }

  lemma BucketOwned(t: Table, b: nat, ds: seq<Entry>, o: multiset<Ptr>, d: multiset<Ptr>)
    requires b < |t.buckets| && OwnedIn(ds) + o == OwnedIn(t.buckets[b]) + d
    ensures Owned(t.buckets[b := ds]) + (t.freed + o) == Owned(t.buckets) + t.freed + d
  {
    hide OwnedIn, Owned;
    OwnedUpdate(t.buckets, b, ds);
    Balance(Owned(t.buckets[b := ds]), OwnedIn(t.buckets[b]), Owned(t.buckets), OwnedIn(ds), o, d);
    assert Owned(t.buckets[b := ds]) + (t.freed + o) == Owned(t.buckets[b := ds]) + o + t.freed;
  }

  /** Frees every entry. */
  function Destroyed(t: Table): Table {
    Table(seq(|t.buckets|, _ => []), t.freed + Owned(t.buckets))
  }

  lemma {:induction false} EmptyOwnsNothing(size: nat)
    ensures Owned(Empty(size).buckets) == multiset{}
  {
    if size > 0 {
      EmptyOwnsNothing(size - 1);
      assert Empty(size).buckets[..size - 1] == Empty(size - 1).buckets;
    }
  }

  /** Over a run every pointer given is owned or freed, as often in all as it was given. A pointer given
      once is therefore in one entry or was freed once, never both and never twice; and destroying the
      table frees the rest. */
  lemma {:induction false} RunConserves(size: nat, ops: seq<Op>)
    requires size > 0
    ensures var t := Final(Empty(size), ops);
            && Owned(t.buckets) + t.freed == AllGiven(ops)
            && (forall d | AllGiven(ops)[d] == 1 :: Owned(t.buckets)[d] + t.freed[d] == 1)
            && Destroyed(t).freed == AllGiven(ops) && Owned(Destroyed(t).buckets) == multiset{}
  {
    hide Owned, Apply;
    EmptyOwnsNothing(size);
    assert Destroyed(Final(Empty(size), ops)).buckets == Empty(size).buckets;
    if ops != [] {
      RunConserves(size, ops[..|ops| - 1]);
      ApplyConserves(Final(Empty(size), ops[..|ops| - 1]), ops[|ops| - 1]);
    }
  }

  // ----- the walk of put as it is written

  datatype Walk = Reject | Append | Crash

  /** The walk from the i-th entry: it compares an entry, steps on, and stops when the entry it stands
      on has no successor; standing behind the last one it reads through NULL. */
  function WalkFrom(es: seq<Entry>, key: Key, i: nat): Walk
    requires i < |es|
    decreases |es| - i
  {
    if es[i].key == key then Reject
    else if i + 1 == |es| then Crash
    else if i + 2 == |es| then Append
    else WalkFrom(es, key, i + 1)
  }

  function WalkAsWritten(es: seq<Entry>, key: Key): Walk {
    if es == [] then Append else WalkFrom(es, key, 0)
  }

  function MeantWalk(es: seq<Entry>, key: Key): Walk {
    if Find(es, key) < |es| then Reject else Append
  }

  /** The chain is empty, is one entry with the key, or is longer and does not end in the key. */
  predicate WalkRight(es: seq<Entry>, key: Key) {
    |es| == 0 || (if |es| == 1 then es[0].key == key else es[|es| - 1].key != key)
  }

  /** The written walk never compares the last of several entries, and reads through NULL behind a
      single one. It does what is meant exactly when the chain is empty, is one entry with the key, or
      is longer and does not end in the key. */
  lemma WalkAgrees(es: seq<Entry>, key: Key)
    requires Distinct(es)
    ensures WalkAsWritten(es, key) == MeantWalk(es, key) <==> WalkRight(es, key)
    ensures WalkAsWritten(es, key) == Crash <==> |es| == 1 && es[0].key != key
  {
    if es != [] {
      WalkFromIs(es, key, 0);
    }
  }

  lemma {:induction false} WalkFromIs(es: seq<Entry>, key: Key, i: nat)
    requires i < |es| && (i > 0 ==> i + 1 < |es|)
    requires forall j | 0 <= j < i :: es[j].key != key
    ensures var f := Find(es, key);
            WalkFrom(es, key, i) ==
            if |es| == 1 then (if f == 0 then Reject else Crash)
            else if f < |es| - 1 then Reject else Append
    decreases |es| - i
  {
    if es[i].key != key && i + 2 < |es| {
      WalkFromIs(es, key, i + 1);
    }
  }

  /** When a longer chain ends in the key, the written walk appends a second entry that no search ever
      reaches: the answer is success, but the old data stays visible. */
  lemma HiddenDuplicate(es: seq<Entry>, key: Key, data: Ptr)
    requires Distinct(es) && |es| > 1 && es[|es| - 1].key == key
    ensures WalkAsWritten(es, key) == Append && MeantWalk(es, key) == Reject
    ensures Get(es + [Entry(key, data)], key) == Some(es[|es| - 1].data)
    ensures !Distinct(es + [Entry(key, data)])
  {
    var n := |es|;
    var ds := es + [Entry(key, data)];
    FindIs(es, key, n - 1);
    FindIs(ds, key, n - 1);
    WalkAgrees(es, key);
    var i := n - 1;
    assert ds[i].key == ds[n].key;
  }

  // ----- runs of the table as it is written

  /** The end of a run: a read through NULL, or a table and the answers given. */
  datatype RunEnd = Crashed | Ended(table: Table, answers: seq<int>)

  /** Put with the walk as it is written. */
  function PutAsWritten(t: Table, key: Key, data: Ptr): (e: RunEnd)
    requires t.buckets != []
    ensures e.Ended? ==> e.table.buckets != [] && |e.answers| == 1
  {
    var b, es := Bucket(t, key), ChainOf(t, key);
    match WalkAsWritten(es, key)
    case Crash => Crashed
    case Reject => Ended(t.(freed := Freed(t, data)), [-1])
    case Append => Ended(t.(buckets := t.buckets[b := es + [Entry(key, data)]]), [0])
  }

  /** One operation, put as it is written. */
  function OneAsWritten(t: Table, op: Op): (e: RunEnd)
    requires t.buckets != []
    ensures e.Ended? ==> e.table.buckets != [] && |e.answers| == 1
  {
    if op.DoPut? then PutAsWritten(t, op.key, op.data) else Ended(Apply(t, op).0, [Apply(t, op).1])
  }

  function RunAsWritten(t: Table, ops: seq<Op>): (e: RunEnd)
    requires t.buckets != []
    ensures e.Ended? ==> e.table.buckets != [] && |e.answers| == |ops|
  {
    if ops == [] then Ended(t, [])
    else
      var e := RunAsWritten(t, ops[..|ops| - 1]);
      if e == Crashed then Crashed
      else
        var p := OneAsWritten(e.table, ops[|ops| - 1]);
        if p == Crashed then Crashed else Ended(p.table, e.answers + p.answers)
  }

  /** Every put of the run meets a chain on which the written walk is right. */
  ghost predicate WalksRight(t: Table, ops: seq<Op>)
    requires t.buckets != []
  {
    ops == [] ||
    (WalksRight(t, ops[..|ops| - 1]) &&
     (ops[|ops| - 1].DoPut? ==>
        WalkRight(ChainOf(Final(t, ops[..|ops| - 1]), ops[|ops| - 1].key), ops[|ops| - 1].key)))
  }

  lemma PutAsWrittenIff(t: Table, key: Key, data: Ptr)
    requires Placed(t)
    ensures var e := PutAsWritten(t, key, data);
            && (WalkRight(ChainOf(t, key), key) <==> e.Ended? && e.answers == [Put(t, key, data).1])
            && (WalkRight(ChainOf(t, key), key) ==> e.table == Put(t, key, data).0)
  {
    hide WalkAsWritten, WalkRight, Find;
    WalkAgrees(ChainOf(t, key), key);
  }

  lemma {:induction false} FinalPlaced(t: Table, ops: seq<Op>)
    requires Placed(t)
    ensures Placed(Final(t, ops))
  {
    if ops != [] {
      FinalPlaced(t, ops[..|ops| - 1]);
      ApplyPlaced(Final(t, ops[..|ops| - 1]), ops[|ops| - 1]);
    }
  }

  /** The table as it is written gives the meant answers, without reading through NULL, exactly in the
      runs whose every put meets a right chain; there it also leaves the meant table. */
  lemma {:induction false} RunAsWrittenIff(t: Table, ops: seq<Op>)
    requires Placed(t)
    ensures WalksRight(t, ops) <==> RunAsWritten(t, ops).Ended? && RunAsWritten(t, ops).answers == Answers(t, ops)
    ensures WalksRight(t, ops) ==> RunAsWritten(t, ops).table == Final(t, ops)
    ensures |Answers(t, ops)| == |ops|
  {
    if ops != [] {
      hide OneAsWritten, WalkRight, Apply, Placed, ChainOf;
      var front, op := ops[..|ops| - 1], ops[|ops| - 1];
      RunAsWrittenIff(t, front);
      FinalPlaced(t, front);
      OneAsWrittenIff(Final(t, front), op);
      var e, w := RunAsWritten(t, front), RunAsWritten(t, ops);
      if w.Ended? {
        SameEnds(e.answers, w.answers[|front|..], Answers(t, front), Apply(Final(t, front), op).1);
      }
    }
  }

  lemma OneAsWrittenIff(t: Table, op: Op)
    requires Placed(t)
    ensures var e, right := OneAsWritten(t, op), op.DoPut? ==> WalkRight(ChainOf(t, op.key), op.key);
            && (right <==> e.Ended? && e.answers == [Apply(t, op).1])
            && (right ==> e.table == Apply(t, op).0)
  {
    hide PutAsWritten, WalkRight, Placed, ChainOf;
    if op.DoPut? {
      PutAsWrittenIff(t, op.key, op.data);
    }
  }

  lemma SameEnds(a: seq<int>, x: seq<int>, b: seq<int>, y: int)
    requires |a| == |b| && |x| == 1
    ensures a + x == b + [y] <==> a == b && x == [y]
  {
    if a + x == b + [y] {
      assert a == (a + x)[..|a|] && b == (b + [y])[..|b|];
      assert x == (a + x)[|a|..] && [y] == (b + [y])[|b|..];
    }
  }

  /** So the table as it is written behaves as a finite map exactly in these runs. */
  lemma WrittenRefines(size: nat, ops: seq<Op>)
    requires size > 0
    ensures RunAsWritten(Empty(size), ops).Ended? && RunAsWritten(Empty(size), ops).answers == MapAnswers(ops) <==>
            WalksRight(Empty(size), ops)
  {
    hide RunAsWritten, WalksRight;
    RunRefines(size, ops);
    RunRefines(size, []);
    RunAsWrittenIff(Empty(size), ops);
  }
}
