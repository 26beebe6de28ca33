/** The chained hash table as it works: an array of heads, nodes linked and unlinked in place. */
module HashTableObject {
  import opened Wrappers
  import opened TableModel

  /** What a key must be: shorter than the node's buffer and free of NULs. */
  ghost predicate CKey(key: Key) {
    |key| < KEY_LENGTH && forall i | 0 <= i < |key| :: key[i] != 0
  }

  method HashOf(str: Key) returns (h: nat)
    ensures h == Hash(str)
  {
    h := 5381;
    var i := 0;
    assert str[..0] == [];
    while i < |str|
      invariant 0 <= i <= |str| && h == Hash(str[..i])
    {
      assert str[..i + 1][..i] == str[..i];
      h := (h * 33 + str[i]) % WORD;
      i := i + 1;
    }
    assert str[..i] == str;
  }

  class Node {
    const key: Key
    var data: Ptr
    var next: Node?

    constructor (key: Key, data: Ptr)
      ensures this.key == key && this.data == data && next == null
    {
      this.key, this.data, next := key, data, null;
    }
  }

  /** The nodes of the chain are linked from the head on, and the last has no successor. */
  ghost predicate Linked(head: Node?, c: seq<Node>)
    reads (set n | n in c)`next
  {
    && head == (if c == [] then null else c[0])
    && forall i {:trigger Successor(c, i)} | 0 <= i < |c| :: c[i].next == Successor(c, i)
  }

  ghost function Successor(c: seq<Node>, i: nat): Node?
    requires i < |c|
  {
    if i + 1 < |c| then c[i + 1] else null
  }

  ghost function Entries(c: seq<Node>): (es: seq<Entry>)
    reads (set n | n in c)`data
    ensures |es| == |c| && forall i | 0 <= i < |c| :: es[i] == Entry(c[i].key, c[i].data)
  {
    if c == [] then [] else Entries(c[..|c| - 1]) + [Entry(c[|c| - 1].key, c[|c| - 1].data)]
  }

  ghost function AllEntries(cs: seq<seq<Node>>, nodes: set<Node>): (r: seq<seq<Entry>>)
    requires forall b, n | 0 <= b < |cs| && n in cs[b] :: n in nodes
    reads nodes
    ensures |r| == |cs| && forall b | 0 <= b < |cs| :: r[b] == Entries(cs[b])
  {
    seq(|cs|, b requires 0 <= b < |cs| && (forall n | n in cs[b] :: n in nodes) reads nodes => Entries(cs[b]))
  }

  /** The chain of bucket b: linked from its head, each key hashing to b and there once. */
  ghost predicate BucketOk(head: Node?, c: seq<Node>, b: nat, size: nat)
    reads set n | n in c
  {
    Linked(head, c) && Distinct(Entries(c)) && KeysIn(c, b, size)
  }

  ghost predicate KeysIn(c: seq<Node>, b: nat, size: nat) {
    size > 0 && forall n | n in c :: Hash(n.key) % size == b
  }

  /** Chains of different buckets share no node. */
  lemma Apart(c: seq<Node>, b: nat, d: seq<Node>, x: nat, size: nat)
    requires KeysIn(c, b, size) && KeysIn(d, x, size) && b != x
    ensures forall n | n in c :: n !in d
  {
  }

  /** The first node with the key, walking from the head. */
  method FindNode(head: Node?, key: Key, ghost c: seq<Node>) returns (ptr: Node?, ghost i: nat)
    requires Linked(head, c)
    ensures var k := Find(Entries(c), key); i == k && ptr == (if k < |c| then c[k] else null)
  {
    hide Find;
    ptr, i := head, 0;
    while ptr != null
      invariant i <= |c| && ptr == (if i < |c| then c[i] else null)
      invariant forall j | 0 <= j < i :: Entries(c)[j].key != key
      decreases |c| - i
    {
      if ptr.key == key {
        FindIs(Entries(c), key, i);
        return;
      }
      assert c[i].next == Successor(c, i);
      ptr, i := ptr.next, i + 1;
    }
    FindIs(Entries(c), key, i);
  }

  /** The node before the first one with the key, for a key the head does not have; the last node when
      none has it. */
  method FindBefore(head: Node, key: Key, ghost c: seq<Node>) returns (ptr: Node, ghost i: nat)
    requires Linked(head, c) && head.key != key
    ensures var k := Find(Entries(c), key); 0 < k <= |c| && i == k - 1 && ptr == c[k - 1]
  {
    hide Find;
    ptr, i := head, 0;
    while ptr.next != null
      invariant i < |c| && ptr == c[i]
      invariant forall j | 0 <= j <= i :: Entries(c)[j].key != key
      decreases |c| - i
    {
      assert c[i].next == Successor(c, i);
      if ptr.next.key == key {
        break;
      }
      ptr, i := ptr.next, i + 1;
    }
    assert c[i].next == Successor(c, i);
    FindIs(Entries(c), key, i + 1);
  }

  /** What the walk of put comes to as it is written, without doing it: which of the three ends it
      reaches and the node it would append behind. */
  method WalkOf(head: Node?, key: Key, ghost c: seq<Node>) returns (w: Walk)
    requires Linked(head, c)
    ensures w == WalkAsWritten(Entries(c), key)
  {
    if head == null {
      return Append;
    }
    var ptr: Node := head;
    ghost var i := 0;
    while true
      invariant 0 <= i < |c| && ptr == c[i]
      invariant WalkFrom(Entries(c), key, i) == WalkAsWritten(Entries(c), key)
      decreases |c| - i
    {
      assert Entries(c)[i].key == c[i].key;
      assert c[i].next == Successor(c, i);
      if ptr.key == key {
        return Reject;
      }
      if ptr.next == null {
        return Crash;
      }
      ptr, i := ptr.next, i + 1;
      assert c[i].next == Successor(c, i);
      if ptr.next == null {
        return Append;
      }
    }
  }

  lemma NodesDiffer(c: seq<Node>, i: nat, j: nat)
    requires Distinct(Entries(c)) && i < j < |c|
    ensures c[i] != c[j]
  {
  }

  /** Links a new node behind the last one of a chain, or as the only one. */
  method LinkLast(head: Node?, n: Node, ghost b: nat, ghost size: nat, ghost c: seq<Node>) returns (first: Node)
    requires BucketOk(head, c, b, size) && n !in c && n.next == null
    requires Hash(n.key) % size == b && Find(Entries(c), n.key) == |c|
    modifies (set n | n in c)`next
    ensures BucketOk(first, c + [n], b, size)
    ensures Entries(c + [n]) == old(Entries(c)) + [Entry(n.key, n.data)]
  {
    hide Find, Hash, Entries;
    ghost var d := c + [n];
    if head == null {
      first := n;
      assert n.next == Successor(d, 0);
    } else {
      var ptr, i := Last(head, c);
      assert Linked(head, c);
      forall j | 0 <= j < i
        ensures c[j] != ptr && c[j].next == Successor(d, j)
      {
        NodesDiffer(c, j, i);
        assert c[j].next == Successor(c, j);
      }
      ptr.next := n;
      first := head;
      assert Successor(d, i) == n && Successor(d, i + 1) == null;
    }
  }

  /** The last node of a chain. */
  method Last(head: Node, ghost c: seq<Node>) returns (ptr: Node, ghost i: nat)
    requires Linked(head, c)
    ensures c != [] && i == |c| - 1 && ptr == c[|c| - 1]
  {
    ptr, i := head, 0;
    while ptr.next != null
      invariant i < |c| && ptr == c[i]
      decreases |c| - i
    {
      assert c[i].next == Successor(c, i);
      ptr, i := ptr.next, i + 1;
    }
    assert c[i].next == Successor(c, i);
  }

  /** What is left of a chain without its i-th node. */
  ghost function Without(c: seq<Node>, i: nat): seq<Node>
    requires i < |c|
  {
    c[..i] + c[i + 1..]
  }

  lemma WithoutEntries(c: seq<Node>, i: nat, b: nat, size: nat)
    requires i < |c| && Distinct(Entries(c)) && KeysIn(c, b, size)
    ensures Distinct(Entries(Without(c, i))) && KeysIn(Without(c, i), b, size)
    ensures Entries(Without(c, i)) == Entries(c)[..i] + Entries(c)[i + 1..]
  {
    hide Entries, Without, Distinct, KeysIn;
    DropDistinct(Entries(c), i);
    DropEntries(c, i);
    DropKeys(c, i, b, size);
  }

  lemma DropEntries(c: seq<Node>, i: nat)
    requires i < |c|
    ensures Entries(Without(c, i)) == Entries(c)[..i] + Entries(c)[i + 1..]
  {
    hide Entries;
    var d := Without(c, i);
    forall k | 0 <= k < |d|
      ensures Entries(d)[k] == (Entries(c)[..i] + Entries(c)[i + 1..])[k]
    {
      assert d[k] == if k < i then c[k] else c[k + 1];
    }
  }

  lemma DropKeys(c: seq<Node>, i: nat, b: nat, size: nat)
    requires i < |c| && KeysIn(c, b, size)
    ensures KeysIn(Without(c, i), b, size)
  {
  }

  lemma DropDistinct(es: seq<Entry>, i: nat)
    requires i < |es| && Distinct(es)
    ensures Distinct(es[..i] + es[i + 1..])
  {
  }

  /** Takes the first node with the key out of the chain, which then starts at `first`; there is none to
      take when the key is not there. */
  method Unlink(head: Node?, key: Key, ghost b: nat, ghost size: nat, ghost c: seq<Node>)
    returns (first: Node?, removed: Node?, ghost i: nat)
    requires BucketOk(head, c, b, size)
    modifies (set n | n in c)`next
    ensures i == Find(Entries(c), key)
    ensures i == |c| ==> removed == null && first == head && BucketOk(head, c, b, size)
    ensures i < |c| ==>
              && removed == c[i] && BucketOk(first, Without(c, i), b, size)
              && Entries(Without(c, i)) == Entries(c)[..i] + Entries(c)[i + 1..]
  {
    hide Find, Hash, KeysIn, Distinct, Entries;
    first, removed, i := head, null, 0;
    if head == null {
      FindIs(Entries(c), key, 0);
    } else if head.key == key {
      FindIs(Entries(c), key, 0);
      removed, first := head, head.next;
      assert c[0].next == Successor(c, 0);
      StillLinked(c, 1, first);
      WithoutEntries(c, 0, b, size);
      assert Without(c, 0) == c[1..];
    } else {
      var ptr, j := FindBefore(head, key, c);
      i := j + 1;
      assert c[j].next == Successor(c, j);
      if ptr.next != null {
        removed := ptr.next;
        WithoutEntries(c, i, b, size);
        Bypass(ptr, j, c);
      }
    }
  }

  /** Makes the j-th node skip the next one. */
  method Bypass(ptr: Node, ghost j: nat, ghost c: seq<Node>)
    requires j + 1 < |c| && Linked(c[0], c) && Distinct(Entries(c)) && ptr == c[j]
    modifies ptr`next
    ensures Linked(c[0], Without(c, j + 1))
  {
    hide Distinct, Entries;
    ghost var d := Without(c, j + 1);
    assert c[j].next == Successor(c, j) && c[j + 1].next == Successor(c, j + 1);
    forall k | 0 <= k < |d| && k != j
      ensures d[k] != ptr && d[k].next == Successor(d, k)
    {
      ghost var m := if k < j then k else k + 1;
      assert d[k] == c[m] && c[m].next == Successor(c, m);
      NodesDiffer(c, if k < j then k else j, if k < j then j else m);
    }
    ptr.next := ptr.next.next;
    assert ptr.next == Successor(d, j);
  }

  method SetNode(ptr: Node, ghost i: nat, ghost c: seq<Node>, data: Ptr)
    requires i < |c| && ptr == c[i] && Distinct(Entries(c))
    modifies ptr`data
    ensures Entries(c) == old(Entries(c))[i := Entry(ptr.key, data)] && Distinct(Entries(c))
  {
    forall k | 0 <= k < |c| && k != i
      ensures c[k] != ptr
    {
      NodesDiffer(c, if k < i then k else i, if k < i then i else k);
    }
    ghost var es := Entries(c);
    ptr.data := data;
    assert Entries(c) == es[i := Entry(ptr.key, data)];
    assert forall k | 0 <= k < |c| :: Entries(c)[k].key == es[k].key;
  }

  lemma StillLinked(c: seq<Node>, k: nat, head: Node?)
    requires k <= |c| && (forall i {:trigger Successor(c, i)} | 0 <= i < |c| :: c[i].next == Successor(c, i))
    requires head == if k < |c| then c[k] else null
    ensures Linked(head, c[k..])
  {
    forall i | 0 <= i < |c| - k
      ensures c[k..][i].next == Successor(c[k..], i)
    {
      assert c[k + i].next == Successor(c, k + i);
    }
  }

  class HashTable {
    const size: nat
    const arr: array<Node?>
    ghost var chains: seq<seq<Node>>
    ghost var nodes: set<Node>
    ghost var freed: multiset<Ptr>

    constructor (size: nat)
      requires size > 0
      ensures Valid() && View() == Empty(size) && fresh(arr) && fresh(nodes)
    {
      this.size := size;
      arr := new Node?[size](_ => null);
      chains := seq(size, _ => []);
      nodes := {};
      freed := multiset{};
    }

    /** Every bucket is in order. Since a node's key fixes its bucket and is there once, the chains are
        acyclic and share no node. */
    ghost predicate Valid()
      reads this, arr, nodes
    {
      && size > 0 && arr.Length == |chains| == size
      && (forall b, n | 0 <= b < size && n in chains[b] :: n in nodes)
      && (forall b | 0 <= b < size :: BucketOk(arr[b], chains[b], b, size))
    }

    ghost function View(): Table
      requires Valid()
      reads this, arr, nodes
    {
      Table(AllEntries(chains, nodes), freed)
    }

    ghost predicate OthersOk(b: nat)
      reads this, arr, nodes
    {
      && size > 0 && arr.Length == |chains| == size && b < size
      && (forall x, n | 0 <= x < size && n in chains[x] :: n in nodes)
      && (forall x | 0 <= x < size && x != b :: BucketOk(arr[x], chains[x], x, size))
    }

    /** Gives bucket b the chain d, starting at the given head. */
    method SetBucket(b: nat, first: Node?, ghost d: seq<Node>)
      requires OthersOk(b) && BucketOk(first, d, b, size)
      modifies this`chains, this`nodes, arr
      ensures Valid() && chains == old(chains)[b := d]
      ensures nodes == old(nodes) + (set n | n in d)
    {
      hide BucketOk;
      arr[b] := first;
      chains := chains[b := d];
      nodes := nodes + (set n | n in d);
    }

    /** The data of the key's node, or NULL. */
    method Get(key: Key) returns (data: Ptr)
      requires Valid() && CKey(key)
      ensures data == Search(View(), key)
    {
      hide Find, Hash, Distinct;
      var h := HashOf(key);
      var index := h % size;
      var ptr, i := FindNode(arr[index], key, chains[index]);
      assert View().buckets[index] == Entries(chains[index]);
      data := if ptr != null then ptr.data else 0;
    }

    lemma BucketFacts(b: nat)
      requires Valid() && b < size
      ensures Linked(arr[b], chains[b]) && |Entries(chains[b])| == |chains[b]|
      ensures View().buckets[b] == Entries(chains[b])
    {
    }

    /** Frees a data pointer that is not NULL. */
    ghost method Free(data: Ptr)
      requires Valid()
      modifies this`freed
      ensures Valid() && View() == old(View()).(freed := Freed(old(View()), data))
    {
      freed := freed + One(data);
      assert View().buckets == old(View().buckets);
    }

    /** Links the node in its bucket. */
    method PutLast(b: nat, n: Node)
      requires Valid() && b < size && n !in nodes && n.next == null
      requires Hash(n.key) % size == b && Find(Entries(chains[b]), n.key) == |chains[b]|
      modifies this, arr, nodes
      ensures Valid() && nodes == old(nodes) + {n}
      ensures View() == old(View().(buckets := View().buckets[b := Entries(chains[b]) + [Entry(n.key, n.data)]]))
    {
      hide Find, Hash, KeysIn, Linked, Entries;
      ghost var c := chains[b];
      var first := LinkLast(arr[b], n, b, size, c);
      forall x | 0 <= x < size && x != b
        ensures BucketOk(arr[x], chains[x], x, size)
        ensures Entries(chains[x]) == old(Entries(chains[x]))
      {
        Apart(chains[x], x, c, b, size);
      }
      SetBucket(b, first, c + [n]);
    }

    /** Puts the data under a new key and answers 0, or frees it and answers -1 when the key is there.
        Every node of the key's chain is compared. */
    method Put(key: Key, data: Ptr) returns (r: int)
      requires Valid() && CKey(key)
      modifies this, arr, nodes
      ensures Valid() && fresh(nodes - old(nodes))
      ensures (View(), r) == TableModel.Put(old(View()), key, data)
    {
      hide Find, Hash, BucketOk, Entries;
      var h := HashOf(key);
      var index := h % size;
      ghost var c := chains[index];
      BucketFacts(index);
      var ptr, i := FindNode(arr[index], key, c);
      if ptr != null {
        Free(data);
        return -1;
      }
      var n := new Node(key, data);
      PutLast(index, n);
      return 0;
    }


    /** Takes the key out, frees its data and answers 0; -1, with nothing changed, when it is not there. */
    method Remove(key: Key) returns (r: int)
      requires Valid() && CKey(key)
      modifies this, arr, nodes
      ensures Valid() && nodes == old(nodes)
      ensures (View(), r) == TableModel.Remove(old(View()), key)
    {
      hide Find, Hash, BucketOk, Entries;
      var h := HashOf(key);
      var index := h % size;
      BucketFacts(index);
      var data := TakeOut(index, key);
      if data != None {
        Free(data.value);
        return 0;
      }
      return -1;
    }

    /** Takes the key's node out of its bucket and hands over its data. */
    method TakeOut(b: nat, key: Key) returns (data: Option<Ptr>)
      requires Valid() && b < size
      modifies this, arr, nodes
      ensures Valid() && nodes == old(nodes)
      ensures var es := old(Entries(chains[b]));
              var i := Find(es, key);
              && data == (if i < |es| then Some(es[i].data) else None)
              && View() == old(View()).(buckets :=
                   if i < |es| then old(View()).buckets[b := es[..i] + es[i + 1..]] else old(View()).buckets)
    {
      hide Find, Hash, KeysIn, Linked, Entries;
      ghost var c := chains[b];
      BucketFacts(b);
      var first, removed, i := Unlink(arr[b], key, b, size, c);
      forall x | 0 <= x < size && x != b
        ensures BucketOk(arr[x], chains[x], x, size)
      {
        Apart(chains[x], x, c, b, size);
      }
      if removed != null {
        SetBucket(b, first, Without(c, i));
        assert nodes == old(nodes);
        return Some(removed.data);
      }
      assert View() == old(View());
      return None;
    }

    /** Puts new data under a key that is there, frees the old and answers 0; otherwise frees the new
        data and answers -1. */
    method Replace(key: Key, newdata: Ptr) returns (r: int)
      requires Valid() && CKey(key)
      modifies this, nodes
      ensures Valid() && nodes == old(nodes)
      ensures (View(), r) == TableModel.Replace(old(View()), key, newdata)
    {
      hide Find, Hash, BucketOk, Entries, Linked, AllEntries;
      var h := HashOf(key);
      var index := h % size;
      BucketFacts(index);
      var ptr, i := FindNode(arr[index], key, chains[index]);
      if ptr != null {
        var was := ptr.data;
        SetData(index, i, ptr, newdata);
        Free(was);
        return 0;
      }
      Free(newdata);
      return -1;
    }

    method SetData(ghost b: nat, ghost i: nat, ptr: Node, newdata: Ptr)
      requires Valid() && b < size && i < |chains[b]| && ptr == chains[b][i]
      modifies nodes
      ensures Valid()
      ensures View() == old(View().(buckets :=
                View().buckets[b := Entries(chains[b])[i := Entry(ptr.key, newdata)]]))
    {
      hide Hash, KeysIn, Linked, Entries;
      ghost var c := chains[b];
      assert BucketOk(arr[b], c, b, size) && ptr in c;
      SetNode(ptr, i, c, newdata);
      forall x | 0 <= x < size && x != b
        ensures BucketOk(arr[x], chains[x], x, size)
        ensures Entries(chains[x]) == old(Entries(chains[x]))
      {
        Apart(chains[x], x, c, b, size);
      }
    }

    /** Takes the first node off a bucket. */
    method TakeFirst(b: nat) returns (node: Node)
      requires Valid() && b < size && chains[b] != []
      modifies this`chains, this`nodes, arr
      ensures Valid() && nodes == old(nodes) && node == old(chains[b])[0]
      ensures View() == old(View()).(buckets := old(View()).buckets[b := old(Entries(chains[b]))[1..]])
      ensures chains == old(chains)[b := old(chains[b])[1..]]
    {
      hide Hash, KeysIn, Distinct, Entries, Linked;
      ghost var c := chains[b];
      ghost var es := Entries(c);
      assert BucketOk(arr[b], c, b, size);
      FirstFacts(arr[b], c, b);
      node := arr[b];
      WithoutEntries(c, 0, b, size);
      assert Without(c, 0) == c[1..] && es[1..] == es[..0] + es[1..];
      SetBucket(b, node.next, c[1..]);
      assert nodes == old(nodes);
    }

    /** Frees the first node of a bucket and its data. */
    method FreeFirst(b: nat)
      requires Valid() && b < size && chains[b] != []
      modifies this, arr
      ensures Valid() && nodes == old(nodes) && chains == old(chains)[b := old(chains[b])[1..]]
      ensures View() == old(Table(View().buckets[b := Entries(chains[b])[1..]],
                                  Freed(View(), Entries(chains[b])[0].data)))
    {
      hide Entries, BucketOk;
      var node := TakeFirst(b);
      Free(node.data);
    }

    lemma FirstFacts(head: Node?, c: seq<Node>, b: nat)
      requires BucketOk(head, c, b, size) && c != []
      ensures head == c[0] && c[0].next == (if |c| > 1 then c[1] else null) && Linked(c[0].next, c[1..])
    {
      hide Hash, KeysIn, Distinct, Entries;
      assert c[0].next == Successor(c, 0);
      StillLinked(c, 1, c[0].next);
    }

    /** Frees everything in one bucket, from the front. */
    method FreeBucket(b: nat)
      requires Valid() && b < size
      modifies this, arr
      ensures Valid() && nodes == old(nodes) && arr[b] == null
      ensures View().buckets == old(View().buckets[b := []])
      ensures View().freed + Owned(View().buckets) == old(View().freed + Owned(View().buckets))
    {
      hide Entries, OwnedIn, Owned, BucketOk;
      BucketFacts(b);
      while arr[b] != null
        invariant Valid() && nodes == old(nodes)
        invariant arr[b] == null <==> chains[b] == []
        invariant View().buckets == old(View().buckets)[b := View().buckets[b]]
        invariant View().freed + Owned(View().buckets) == old(View().freed + Owned(View().buckets))
        decreases |chains[b]|
      {
        ghost var t := View();
        FreeFirst(b);
        FirstOwned(t, b);
        BucketFacts(b);
      }
    }

    /** Frees all nodes and their data, bucket by bucket. */
    method Destroy()
      requires Valid()
      modifies this, arr
      ensures Valid() && View() == Destroyed(old(View()))
    {
      hide Entries, OwnedIn, Owned, BucketOk;
      var i: nat := 0;
      while i < size
        invariant i <= size && Valid() && nodes == old(nodes)
        invariant |View().buckets| == size && forall b | 0 <= b < i :: View().buckets[b] == []
        invariant View().freed + Owned(View().buckets) == old(View().freed + Owned(View().buckets))
      {
        FreeBucket(i);
        i := i + 1;
      }
      assert View().buckets == Empty(size).buckets;
      EmptyOwnsNothing(size);
    }
  }

  /** Taking an entry off the front moves its data from the owned to the freed. */
  lemma FirstOwned(t: Table, b: nat)
    requires b < |t.buckets| && t.buckets[b] != []
    ensures var u := t.buckets[b := t.buckets[b][1..]];
            Freed(t, t.buckets[b][0].data) + Owned(u) == t.freed + Owned(t.buckets)
  {
    hide OwnedIn, Owned;
    var es := t.buckets[b];
    OwnedAround(es, 0);
    OwnedNone();
    assert es[..0] == [];
    var one, u := One(es[0].data), t.buckets[b := es[1..]];
    assert OwnedIn(es[1..]) + one == OwnedIn(es) + multiset{};
    BucketOwned(t, b, es[1..], one, multiset{});
    assert t.freed + one + Owned(u) == Owned(u) + (t.freed + one);
  }
}
