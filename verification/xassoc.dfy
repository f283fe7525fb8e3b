// oldXMenu/X*Assoc.c and insque.c: a hash table whose buckets are circular doubly linked lists, sorted
// by id, with a header each.

module AssocTables {
  import opened Arithmetic

  lemma {:induction false} BitAndBound(a: nat, b: nat)
    ensures BitAnd(a, b) <= b
  {
    if a != 0 && b != 0 { BitAndBound(a / 2, b / 2); }
  }

  /** For a power of two the hash is the remainder. */
  lemma {:induction false} MaskIsRemainder(a: nat, k: nat)
    ensures BitAnd(a, Pow2(k) - 1) == a % Pow2(k)
  {
    if k == 0 {
    } else if a == 0 {
    } else {
      var m := Pow2(k - 1);
      MaskIsRemainder(a / 2, k - 1);
      assert (2 * m - 1) / 2 == m - 1 && (2 * m - 1) % 2 == 1;
      HalfRemainder(a, m);
    }
  }

  lemma HalfRemainder(a: nat, m: nat)
    requires m > 0
    ensures a % (2 * m) == a % 2 + 2 * ((a / 2) % m)
  {
    var q, r := (a / 2) / m, (a / 2) % m;
    assert a / 2 == q * m + r;
    assert a == q * (2 * m) + (a % 2 + 2 * r);
    Remainder(a, 2 * m, q, a % 2 + 2 * r);
  }

  function Hash(id: nat, size: nat): nat
    requires size > 0
  {
    BitAnd(id, size - 1)
  }

  datatype Key = Key(display: nat, id: nat)

  /** XAssoc: a list element or a bucket header. */
  class Assoc {
    var next: Assoc?
    var prev: Assoc?
    var display: nat
    var id: nat
    var data: nat
    ghost var home: nat     // the bucket it belongs to

    constructor (display: nat, id: nat, data: nat, ghost home: nat)
      ensures this.display == display && this.id == id && this.data == data && this.home == home
    {
      this.display, this.id, this.data, this.home := display, id, data, home;
      next, prev := null, null;
    }
  }

  /** Element number i of the ring: the header, then the chain, then the header again. */
  function Node(hd: Assoc, c: seq<Assoc>, i: nat): Assoc
    requires i <= |c| + 1
  {
    if i == 0 || i == |c| + 1 then hd else c[i - 1]
  }

  ghost predicate Distinct(hd: Assoc, c: seq<Assoc>) {
    hd !in c && forall i: nat, j: nat :: i < j < |c| ==> c[i] != c[j]
  }

  /** A well-formed circular list. */
  ghost predicate Ring(hd: Assoc, c: seq<Assoc>)
    reads hd, c
  {
    && Distinct(hd, c)
    && forall i: nat :: i <= |c| ==>
      Node(hd, c, i).next == Node(hd, c, i + 1) && Node(hd, c, i + 1).prev == Node(hd, c, i)
  }

  /** Sorted by id, and no key twice. */
  ghost predicate Ordered(c: seq<Assoc>)
    reads c
  {
    forall i: nat, j: nat :: i < j < |c| ==>
      c[i].id <= c[j].id && Key(c[i].display, c[i].id) != Key(c[j].display, c[j].id)
  }

  // ---- insque and remque ----

  function Target(p: Assoc?): set<Assoc> { if p == null then {} else {p} }

  method Insque(elem: Assoc, prev: Assoc)
    requires elem != prev && elem != prev.next
    modifies elem`next, elem`prev, prev`next, Target(prev.next)`prev
    ensures prev.next == elem && elem.prev == prev && elem.next == old(prev.next)
    ensures elem.next != null ==> elem.next.prev == elem
    ensures elem.next != prev ==> prev.prev == old(prev.prev)
  {
    var next := prev.next;
    prev.next := elem;
    if next != null {
      next.prev := elem;
    }
    elem.next := next;
    elem.prev := prev;
  }

  method Remque(elem: Assoc)
    modifies Target(elem.next)`prev, Target(elem.prev)`next
    ensures old(elem.next) != null ==> old(elem.next).prev == old(elem.prev)
    ensures old(elem.prev) != null ==> old(elem.prev).next == old(elem.next)
  {
    var next := elem.next;
    var prev := elem.prev;
    if next != null {
      next.prev := prev;
    }
    if prev != null {
      prev.next := next;
    }
  }

  /** A new element goes into the ring before element number i of the chain. */
  method LinkBefore(ghost hd: Assoc, ghost c: seq<Assoc>, e: Assoc, entry: Assoc, ghost i: nat)
    requires Ring(hd, c) && i <= |c| && entry == Node(hd, c, i + 1) && e != hd && e !in c
    modifies e`next, e`prev, Target(entry.prev)`next, entry`prev
    ensures Ring(hd, c[..i] + [e] + c[i..])
  {
    ghost var c' := c[..i] + [e] + c[i..];
    assert entry.prev == Node(hd, c, i) && Node(hd, c, i).next == entry;
    NodesApart(hd, c, i);
    Insque(e, entry.prev);
    assert Distinct(hd, c');
    forall j: nat | j <= |c'|
      ensures Node(hd, c', j).next == Node(hd, c', j + 1) && Node(hd, c', j + 1).prev == Node(hd, c', j)
    {
      if j < i {
        assert Node(hd, c', j) == Node(hd, c, j) && Node(hd, c', j + 1) == Node(hd, c, j + 1);
        Apart(hd, c, j, i);
        Apart(hd, c, j + 1, i + 1);
      } else if j > i + 1 {
        assert Node(hd, c', j) == Node(hd, c, j - 1) && Node(hd, c', j + 1) == Node(hd, c, j);
        Apart(hd, c, i, j - 1);
        Apart(hd, c, i + 1, j);
      }
    }
  }

  /** As places to leave from (0 .. |c|), and as places to arrive at (1 .. |c| + 1), nodes are distinct. */
  lemma Apart(hd: Assoc, c: seq<Assoc>, i: nat, j: nat)
    requires Distinct(hd, c) && i < j
    ensures j <= |c| ==> Node(hd, c, i) != Node(hd, c, j)
    ensures 0 < i && j <= |c| + 1 ==> Node(hd, c, i) != Node(hd, c, j)
  {
  }

  lemma NodesApart(hd: Assoc, c: seq<Assoc>, i: nat)
    requires Distinct(hd, c) && i <= |c| + 1
    ensures Node(hd, c, i) == hd || Node(hd, c, i) in c
  {
  }

  /** Element number i of the chain is taken out of the ring. */
  method Unlink(ghost hd: Assoc, ghost c: seq<Assoc>, e: Assoc, ghost i: nat)
    requires Ring(hd, c) && i < |c| && e == c[i]
    modifies Target(e.next)`prev, Target(e.prev)`next
    ensures Ring(hd, c[..i] + c[i + 1..])
  {
    ghost var c' := c[..i] + c[i + 1..];
    assert Node(hd, c, i + 1) == e;
    assert e.prev == Node(hd, c, i) && e.next == Node(hd, c, i + 2);
    Remque(e);
    assert Distinct(hd, c');
    forall j: nat | j <= |c'|
      ensures Node(hd, c', j).next == Node(hd, c', j + 1) && Node(hd, c', j + 1).prev == Node(hd, c', j)
    {
      if j < i {
        assert Node(hd, c', j) == Node(hd, c, j) && Node(hd, c', j + 1) == Node(hd, c, j + 1);
        Apart(hd, c, j, i);
        Apart(hd, c, j + 1, i + 2);
      } else if j > i {
        assert Node(hd, c', j) == Node(hd, c, j + 1) && Node(hd, c', j + 1) == Node(hd, c, j + 2);
        Apart(hd, c, i, j + 1);
        Apart(hd, c, i + 2, j + 2);
      }
    }
  }

  // ---- the table ----

  ghost predicate KeyAt(n: Assoc, k: Key)
    reads n
  {
    n.display == k.display && n.id == k.id
  }

  ghost predicate ChainOk(c: seq<Assoc>, b: nat, size: nat, nodes: set<Assoc>, contents: map<Key, nat>)
    requires size > 0 && forall n :: n in c ==> n in nodes
    reads nodes
  {
    && Ordered(c)
    && (forall n :: n in c ==> n.home == b && Hash(n.id, size) == b)
    && (forall n :: n in c ==> Key(n.display, n.id) in contents && contents[Key(n.display, n.id)] == n.data)
  }

  ghost predicate Listed(c: seq<Assoc>, k: Key, nodes: set<Assoc>)
    requires forall n :: n in c ==> n in nodes
    reads nodes
  {
    exists n :: n in c && KeyAt(n, k)
  }

  lemma SameKey(n: Assoc, k: Key)
    requires n.display == k.display && n.id == k.id
    ensures KeyAt(n, k)
  {
  }

  lemma WithElement(c: seq<Assoc>, e: Assoc, i: nat)
    requires i <= |c|
    ensures forall n :: n in c[..i] + [e] + c[i..] <==> n == e || n in c
  {
  }

  /** Where an entry with a new key goes: behind the smaller ids, and no entry so far has its key. */
  ghost predicate PlaceFor(c: seq<Assoc>, k: Key, i: nat)
    reads c
  {
    && i <= |c|
    && (forall j: nat :: j < i ==> c[j].id <= k.id && !KeyAt(c[j], k))
    && (i < |c| ==> c[i].id > k.id)
  }

  /** Keys and bucket numbers of these nodes have not changed. */
  twostate predicate NamesKept(ns: set<Assoc>)
    reads ns
  {
    forall n :: n in ns ==> n.display == old(n.display) && n.id == old(n.id) && n.home == old(n.home)
  }

  twostate predicate DataKept(ns: set<Assoc>)
    reads ns
  {
    forall n :: n in ns ==> n.data == old(n.data)
  }

  /** Links and data outside bucket b have not changed. */
  twostate predicate KeptOutside(ns: set<Assoc>, b: nat)
    reads ns
  {
    forall n :: n in ns && old(n.home) != b ==> n.next == old(n.next) && n.prev == old(n.prev) && n.data == old(n.data)
  }

  twostate lemma PlaceKept(new ns: set<Assoc>, c: seq<Assoc>, new k: Key, new i: nat)
    requires (forall n :: n in c ==> n in ns)
      && (forall n :: n in c ==> n.display == old(n.display) && n.id == old(n.id))
    requires old(PlaceFor(c, k, i))
    ensures PlaceFor(c, k, i)
  {
  }

  /** XAssocTable. */
  class AssocTable {
    var buckets: array<Assoc>
    var size: nat
    ghost var chains: seq<seq<Assoc>>
    ghost var nodes: set<Assoc>
    ghost var contents: map<Key, nat>

    ghost predicate Closed()
      reads this, buckets
    {
      && buckets.Length == size > 0 && |chains| == size
      && (forall b: nat :: b < size ==> buckets[b] in nodes)
      && (forall b: nat, n :: b < size && n in chains[b] ==> n in nodes)
    }

    /** The bucket's list is well formed and holds the contents of its keys. */
    ghost predicate BucketOk(b: nat)
      requires Closed() && b < size
      reads this, buckets, nodes
    {
      && ChainOk(chains[b], b, size, nodes, contents)
      && buckets[b].home == b
      && Ring(buckets[b], chains[b])
    }

    ghost predicate Covered(k: Key)
      requires Closed()
      reads this, buckets, nodes
    {
      Hash(k.id, size) < size && Listed(chains[Hash(k.id, size)], k, nodes)
    }

    ghost predicate Valid()
      reads this, buckets, nodes
    {
      && Closed()
      && (forall b: nat :: b < size ==> BucketOk(b))
      && (forall k :: k in contents ==> Covered(k))
    }

    constructor (buckets: array<Assoc>, ghost nodes: set<Assoc>)
      ensures this.buckets == buckets && size == buckets.Length && this.nodes == nodes
      ensures chains == seq(buckets.Length, _ => []) && contents == map[]
    {
      this.buckets, size, this.nodes := buckets, buckets.Length, nodes;
      chains, contents := seq(buckets.Length, _ => []), map[];
    }

    /** The bucket an id belongs to, and what is known about it. */
    lemma BucketOf(id: nat)
      requires Valid()
      ensures Hash(id, size) < size == |chains| == buckets.Length
      ensures Ring(buckets[Hash(id, size)], chains[Hash(id, size)]) && Ordered(chains[Hash(id, size)])
      ensures forall n :: n in chains[Hash(id, size)] ==>
        Key(n.display, n.id) in contents && contents[Key(n.display, n.id)] == n.data
    {
      BitAndBound(id, size - 1);
      assert BucketOk(Hash(id, size));
    }

    /** A key that is not in its bucket is not in the table. */
    lemma NotThere(k: Key)
      requires Valid() && Hash(k.id, size) < size
      requires forall i: nat :: i < |chains[Hash(k.id, size)]| ==> !KeyAt(chains[Hash(k.id, size)][i], k)
      ensures k !in contents
    {
      assert k in contents ==> Covered(k);
    }

    method LookUp(dpy: nat, xId: nat) returns (data: nat)
      requires Valid()
      ensures data == if Key(dpy, xId) in contents then contents[Key(dpy, xId)] else 0
    {
      hide Ring, Hash, AssocTable.Valid;
      BucketOf(xId);
      var hash := Hash(xId, size);
      var bucket := buckets[hash];
      ghost var c, k, i := chains[hash], Key(dpy, xId), 0;
      PrevOf(bucket, c, 0);
      var entry := bucket.next;
      while entry != bucket
        invariant 0 <= i <= |c| && entry == Node(bucket, c, i + 1)
        invariant forall j: nat :: j < i ==> c[j].id <= xId && !KeyAt(c[j], k)
        decreases |c| - i
      {
        InChain(bucket, c, i);
        if entry.id == xId {
          if entry.display == dpy {
            return entry.data;
          }
        } else if entry.id > xId {
          NotThere(k);
          return 0;
        }
        entry := entry.next;
        i := i + 1;
      }
      AllSeen(bucket, c, i);
      NotThere(k);
      return 0;
    }

    /** Contents differ in key k at most. */
    twostate predicate OnlyKey(k: Key)
      reads this
    {
      forall k' :: k' != k ==>
        && (k' in contents <==> k' in old(contents))
        && (k' in contents ==> contents[k'] == old(contents)[k'])
    }

    /** A bucket nothing was written to is in order if the changed key does not belong there. */
    twostate lemma BucketKept(new d: nat, new b: nat, new k: Key)
      requires old(Valid()) && Closed() && size == old(size) && buckets == old(buckets)
      requires d < size && b < size && d != b && Hash(k.id, size) == b
      requires buckets[d] == old(buckets[d]) && chains[d] == old(chains)[d] && OnlyKey(k)
      requires NamesKept(old(nodes)) && KeptOutside(old(nodes), b)
      ensures BucketOk(d)
    {
      var hd, c := buckets[d], chains[d];
      assert old(BucketOk(d));
      OrderedKept(c);
    }

    twostate lemma OthersKept(new b: nat, new k: Key)
      requires old(Valid()) && Closed() && size == old(size) && buckets == old(buckets)
      requires b < size && Hash(k.id, size) == b && buckets[..] == old(buckets[..]) && OnlyKey(k)
      requires forall d: nat :: d < size && d != b ==> chains[d] == old(chains)[d]
      requires NamesKept(old(nodes)) && KeptOutside(old(nodes), b)
      ensures forall d: nat :: d < size && d != b ==> BucketOk(d)
    {
      hide AssocTable.Valid, AssocTable.BucketOk, AssocTable.OnlyKey, NamesKept, KeptOutside, Hash;
      forall d: nat | d < size && d != b
        ensures BucketOk(d)
      {
        assert buckets[d] == buckets[..][d] && old(buckets[d]) == old(buckets[..][d]);
        BucketKept(d, b, k);
      }
    }

    twostate lemma CoveredKept(new b: nat, new k: Key, new e: Assoc)
      requires old(Valid()) && Closed() && size == old(size)
      requires |chains| == |old(chains)| && b < size && Hash(k.id, size) == b && OnlyKey(k)
      requires forall d: nat :: d < size && d != b ==> chains[d] == old(chains)[d]
      requires forall n :: n in old(chains)[b] && n != e ==> n in chains[b]
      requires NamesKept(old(nodes)) && (e in old(nodes) ==> KeyAt(e, k))
      requires k in contents ==> exists n :: n in chains[b] && KeyAt(n, k)
      ensures forall k' :: k' in contents ==> Covered(k')
    {
      forall k' | k' in contents
        ensures Covered(k')
      {
        if k' != k {
          assert old(Covered(k'));
          var n :| n in old(chains)[Hash(k'.id, size)] && old(KeyAt(n, k'));
          assert n in chains[Hash(k'.id, size)] && KeyAt(n, k');
        }
      }
    }

    /** Overwriting the data of an entry. */
    method Overwrite(entry: Assoc, ghost b: nat, data: nat)
      requires Valid() && b < size && entry in chains[b]
      modifies this, nodes
      ensures Valid() && contents == old(contents)[Key(old(entry.display), old(entry.id)) := data]
      ensures buckets == old(buckets) && size == old(size) && nodes == old(nodes)
    {
      ghost var k := Key(entry.display, entry.id);
      assert BucketOk(b);
      assert KeyAt(entry, k);
      entry.data := data;
      contents := contents[k := data];
      OthersKept(b, k);
      OverwrittenOk(entry, b);
      assert KeyAt(entry, k);
      CoveredKept(b, k, entry);
    }

    twostate lemma OverwrittenOk(new entry: Assoc, new b: nat)
      requires old(Valid()) && Closed() && size == old(size) && buckets == old(buckets) && b < size
      requires buckets[b] == old(buckets[b]) && chains == old(chains) && entry in chains[b] && entry in old(nodes)
      requires forall n :: n in old(nodes) && n != entry ==> n.next == old(n.next)
      requires forall n :: n in old(nodes) && n != entry ==> n.prev == old(n.prev)
      requires forall n :: n in old(nodes) && n != entry ==> n.display == old(n.display)
      requires forall n :: n in old(nodes) && n != entry ==> n.id == old(n.id)
      requires forall n :: n in old(nodes) && n != entry ==> n.data == old(n.data)
      requires forall n :: n in old(nodes) && n != entry ==> n.home == old(n.home)
      requires entry.next == old(entry.next) && entry.prev == old(entry.prev) && entry.home == old(entry.home)
      requires entry.id == old(entry.id) && entry.display == old(entry.display)
      requires contents == old(contents)[Key(entry.display, entry.id) := entry.data]
      ensures BucketOk(b)
    {
      var c, hd := chains[b], buckets[b];
      assert old(BucketOk(b));
      assert Ordered(c);
      assert forall n :: n in c && n != entry ==> Key(n.display, n.id) != Key(entry.display, entry.id);
      forall i: nat | i <= |c|
        ensures Node(hd, c, i).next == Node(hd, c, i + 1) && Node(hd, c, i + 1).prev == Node(hd, c, i)
      {
        assert old(Node(hd, c, i).next) == Node(hd, c, i + 1) && old(Node(hd, c, i + 1).prev) == Node(hd, c, i);
      }
    }

    /** Links a new entry into bucket b before element number i; other buckets are not touched. */
    method AddNode(dpy: nat, xId: nat, data: nat, entry: Assoc, ghost b: nat, ghost i: nat) returns (e: Assoc)
      requires Valid() && b < size && i <= |chains[b]| && entry == Node(buckets[b], chains[b], i + 1)
      modifies nodes
      ensures fresh(e) && e.display == dpy && e.id == xId && e.data == data && e.home == b
      ensures Ring(buckets[b], chains[b][..i] + [e] + chains[b][i..])
      ensures NamesKept(nodes) && DataKept(nodes) && KeptOutside(nodes, b)
    {
      ghost var c, bucket := chains[b], buckets[b];
      assert BucketOk(b);
      e := new Assoc(dpy, xId, data, b);
      PrevOf(bucket, c, i);
      NodesApart(bucket, c, i);
      NodesApart(bucket, c, i + 1);
      LinkBefore(bucket, c, e, entry, i);
    }

    /** A new entry goes into the list before element number i. */
    method Insert(dpy: nat, xId: nat, data: nat, entry: Assoc, ghost b: nat, ghost i: nat)
      requires Valid() && b < size && b == Hash(xId, size) && i <= |chains[b]|
        && entry == Node(buckets[b], chains[b], i + 1)
      requires PlaceFor(chains[b], Key(dpy, xId), i)
      modifies this, nodes
      ensures Valid() && contents == old(contents)[Key(dpy, xId) := data]
      ensures buckets == old(buckets) && size == old(size) && fresh(nodes - old(nodes))
    {
      hide Ring, Ordered, Hash, Node, NamesKept, DataKept, KeptOutside, PlaceFor, KeyAt, Listed;
      hide AssocTable.Valid, AssocTable.BucketOk, AssocTable.Covered, AssocTable.OnlyKey;
      Known();
      ghost var k, c := Key(dpy, xId), chains[b];
      var e := AddNode(dpy, xId, data, entry, b, i);
      ghost var c' := c[..i] + [e] + c[i..];
      WithElement(c, e, i);
      chains := chains[b := c'];
      nodes := nodes + {e};
      contents := contents[k := data];
      KeySet(k, data);
      OthersKept(b, k);
      InsertedOk(b, e, i, k);
      SameKey(e, k);
      CoveredKept(b, k, e);
      AllOk(b);
    }

    lemma Known()
      requires Valid()
      ensures Closed() && |chains| == size
    {
    }

    lemma AllOk(b: nat)
      requires Closed() && b < size && BucketOk(b) && forall d: nat :: d < size && d != b ==> BucketOk(d)
      requires forall k :: k in contents ==> Covered(k)
      ensures Valid()
    {
    }

    twostate lemma KeySet(new k: Key, new data: nat)
      requires contents == old(contents)[k := data]
      ensures OnlyKey(k)
    {
    }

    twostate lemma InsertedOk(new b: nat, new e: Assoc, new i: nat, new k: Key)
      requires old(Valid()) && Closed() && size == old(size) && buckets == old(buckets) && b < size
      requires buckets[b] == old(buckets[b]) && e in nodes && e !in old(nodes) && i <= |old(chains)[b]|
      requires chains[b] == old(chains)[b][..i] + [e] + old(chains)[b][i..]
      requires forall n :: n in chains[b] <==> n == e || n in old(chains)[b]
      requires NamesKept(old(nodes)) && DataKept(old(nodes))
      requires contents == old(contents)[Key(e.display, e.id) := e.data] && Hash(e.id, size) == b == e.home
      requires Ring(buckets[b], chains[b])
      requires k == Key(e.display, e.id) && old(PlaceFor(chains[b], k, i))
      ensures BucketOk(b)
    {
      hide Ring, Hash, Node;
      var c := old(chains)[b];
      OldBucket(b);
      PlaceKept(old(nodes), c, k, i);
      OrderedKept(c);
      hide Ordered, PlaceFor, AssocTable.Valid;
      OrderedInsert(c, e, i);
      forall n | n in chains[b]
        ensures n.home == b && Hash(n.id, size) == b
        ensures Key(n.display, n.id) in contents && contents[Key(n.display, n.id)] == n.data
      {
        if n != e { assert n in c && !KeyAt(n, k); }
      }
    }

    /** What was known of bucket b. */
    twostate lemma OldBucket(new b: nat)
      requires old(Valid()) && b < old(size)
      ensures |old(chains)| == old(size) == old(buckets.Length) && old(buckets[b].home) == b && old(Ordered(chains[b]))
      ensures forall n :: n in old(chains)[b] ==> n in old(nodes) && old(n.home) == b && Hash(old(n.id), old(size)) == b
      ensures forall n :: n in old(chains)[b] ==> old(Key(n.display, n.id)) in old(contents)
      ensures forall n :: n in old(chains)[b] ==> old(contents)[old(Key(n.display, n.id))] == old(n.data)
    {
      hide Ring, Hash, Ordered;
      assert old(BucketOk(b));
    }

    method Make(dpy: nat, xId: nat, data: nat)
      requires Valid()
      modifies this, nodes
      ensures Valid() && contents == old(contents)[Key(dpy, xId) := data]
      ensures buckets == old(buckets) && size == old(size) && fresh(nodes - old(nodes))
    {
      hide Ring, Hash, AssocTable.Valid;
      BucketOf(xId);
      var hash := Hash(xId, size);
      var bucket := buckets[hash];
      ghost var c, k, i := chains[hash], Key(dpy, xId), 0;
      PrevOf(bucket, c, 0);
      var entry, found := bucket.next, false;
      while entry != bucket
        invariant 0 <= i <= |c| && entry == Node(bucket, c, i + 1)
        invariant forall j: nat :: j < i ==> c[j].id <= xId && !KeyAt(c[j], k)
        invariant !found
        modifies {}
        decreases |c| - i
      {
        InChain(bucket, c, i);
        if entry.id == xId {
          if entry.display == dpy {
            found := true;
            break;
          }
        } else if entry.id > xId {
          break;
        }
        entry := entry.next;
        i := i + 1;
      }
      if found {
        Overwrite(entry, hash, data);
      } else {
        if entry == bucket { AllSeen(bucket, c, i); } else { InChain(bucket, c, i); }
        Insert(dpy, xId, data, entry, hash, i);
      }
    }

    method Delete(dpy: nat, xId: nat)
      requires Valid()
      modifies this, nodes
      ensures Valid() && contents == old(contents) - {Key(dpy, xId)}
      ensures buckets == old(buckets) && size == old(size) && nodes <= old(nodes)
    {
      hide Ring, Hash, AssocTable.Valid;
      BucketOf(xId);
      var hash := Hash(xId, size);
      var bucket := buckets[hash];
      ghost var c, k, i := chains[hash], Key(dpy, xId), 0;
      PrevOf(bucket, c, 0);
      var entry, found := bucket.next, false;
      while entry != bucket
        invariant 0 <= i <= |c| && entry == Node(bucket, c, i + 1)
        invariant forall j: nat :: j < i ==> c[j].id <= xId && !KeyAt(c[j], k)
        invariant !found
        modifies {}
        decreases |c| - i
      {
        InChain(bucket, c, i);
        if entry.id == xId {
          if entry.display == dpy {
            found := true;
            break;
          }
        } else if entry.id > xId {
          NotThere(k);
          return;
        }
        entry := entry.next;
        i := i + 1;
      }
      if found {
        Remove(entry, hash, i);
      } else {
        AllSeen(bucket, c, i);
        NotThere(k);
      }
    }

    /** Takes an entry out of bucket b; other buckets are not touched. */
    method DropNode(entry: Assoc, ghost b: nat, ghost i: nat)
      requires Valid() && b < size && i < |chains[b]| && entry == chains[b][i]
      modifies nodes
      ensures Ring(buckets[b], chains[b][..i] + chains[b][i + 1..])
      ensures NamesKept(nodes) && DataKept(nodes) && KeptOutside(nodes, b)
    {
      ghost var c, bucket := chains[b], buckets[b];
      assert BucketOk(b);
      NodesApart(bucket, c, i);
      NodesApart(bucket, c, i + 2);
      PrevOf(bucket, c, i);
      PrevOf(bucket, c, i + 1);
      assert entry == Node(bucket, c, i + 1);
      Unlink(bucket, c, entry, i);
    }

    lemma OnlyOne(b: nat, i: nat)
      requires Valid() && b < size && i < |chains[b]|
      ensures forall n :: n in chains[b][..i] + chains[b][i + 1..] <==> n in chains[b] && n != chains[b][i]
    {
      assert BucketOk(b);
    }

    method Remove(entry: Assoc, ghost b: nat, ghost i: nat)
      requires Valid() && b < size && i < |chains[b]| && entry == chains[b][i]
      modifies this, nodes
      ensures Valid() && contents == old(contents) - {Key(old(entry.display), old(entry.id))}
      ensures buckets == old(buckets) && size == old(size) && nodes <= old(nodes)
    {
      hide Ring, Ordered, Hash, Node, NamesKept, DataKept, KeptOutside, PlaceFor;
      ghost var k, c := Key(entry.display, entry.id), chains[b];
      assert BucketOk(b);
      assert KeyAt(entry, k);
      OnlyOne(b, i);
      DropNode(entry, b, i);
      chains := chains[b := c[..i] + c[i + 1..]];
      contents := contents - {k};
      assert Closed();
      OthersKept(b, k);
      RemovedOk(b, entry, i);
      CoveredKept(b, k, entry);
    }

    twostate lemma RemovedOk(new b: nat, new e: Assoc, new i: nat)
      requires old(Valid()) && Closed() && size == old(size) && buckets == old(buckets) && b < size
      requires buckets[b] == old(buckets[b]) && i < |old(chains)[b]| && e == old(chains)[b][i]
      requires chains[b] == old(chains)[b][..i] + old(chains)[b][i + 1..]
      requires forall n :: n in chains[b] <==> n in old(chains)[b] && n != e
      requires NamesKept(old(nodes)) && DataKept(old(nodes))
      requires contents == old(contents) - {Key(e.display, e.id)}
      requires Ring(buckets[b], chains[b])
      ensures BucketOk(b)
    {
      var c := old(chains)[b];
      hide Ring, Hash;
      assert old(BucketOk(b));
      OrderedKept(c);
      OrderedWithout(c, i);
      hide Ordered;
    }
  }

  twostate lemma OrderedKept(c: seq<Assoc>)
    requires old(Ordered(c)) && forall n :: n in c ==> n.id == old(n.id) && n.display == old(n.display)
    ensures Ordered(c)
  {
  }

  /** What a cursor that has not come back to the header stands on. */
  lemma InChain(hd: Assoc, c: seq<Assoc>, i: nat)
    requires Ring(hd, c) && i <= |c| && Node(hd, c, i + 1) != hd
    ensures i < |c| && Node(hd, c, i + 1) == c[i] && c[i].next == Node(hd, c, i + 2)
  {
    PrevOf(hd, c, i + 1);
  }

  /** A cursor that has come back to the header has seen the whole chain. */
  lemma AllSeen(hd: Assoc, c: seq<Assoc>, i: nat)
    requires Ring(hd, c) && i <= |c| && Node(hd, c, i + 1) == hd
    ensures i == |c|
  {
    assert forall n :: n in c ==> n != hd;
  }

  lemma PrevOf(hd: Assoc, c: seq<Assoc>, i: nat)
    requires Ring(hd, c) && i <= |c|
    ensures Node(hd, c, i).next == Node(hd, c, i + 1) && Node(hd, c, i + 1).prev == Node(hd, c, i)
  {
  }

  lemma OrderedWithout(c: seq<Assoc>, i: nat)
    requires Ordered(c) && i < |c|
    ensures Ordered(c[..i] + c[i + 1..])
    ensures forall n :: n in c && n != c[i] ==> Key(n.display, n.id) != Key(c[i].display, c[i].id)
  {
  }

  lemma OrderedInsert(c: seq<Assoc>, e: Assoc, i: nat)
    requires Ordered(c) && PlaceFor(c, Key(e.display, e.id), i)
    ensures Ordered(c[..i] + [e] + c[i..])
    ensures forall j: nat :: j < |c| ==> !KeyAt(c[j], Key(e.display, e.id))
  {
    assert forall j: nat :: i < j < |c| ==> c[i].id <= c[j].id;
  }

  /** XCreateAssocTable. */
  method Create(size: nat) returns (table: AssocTable)
    requires size > 0
    ensures fresh(table) && fresh(table.buckets) && fresh(table.nodes) && table.Valid()
    ensures table.size == size && table.contents == map[]
  {
    var first := new Assoc(0, 0, 0, 0);
    var buckets := new Assoc[size](_ => first);
    ghost var nodes: set<Assoc> := {};
    var k := 0;
    while k < size
      invariant k <= size && fresh(nodes)
      invariant forall b: nat :: b < k ==> buckets[b] in nodes && buckets[b].home == b
      invariant forall b: nat :: b < k ==> Ring(buckets[b], [])
      modifies buckets, nodes
    {
      var bucket := new Assoc(0, 0, 0, k);
      bucket.prev := bucket;
      bucket.next := bucket;
      buckets[k] := bucket;
      nodes := nodes + {bucket};
      k := k + 1;
    }
    table := new AssocTable(buckets, nodes);
    forall b: nat | b < size
      ensures table.Closed() && table.BucketOk(b)
    {
    }
  }

  // ---- runs ----

  datatype Op = MakeOp(dpy: nat, id: nat, data: nat) | DeleteOp(dpy: nat, id: nat) | LookUpOp(dpy: nat, id: nat)

  /** What the calls do to a map; 0 stands for the NULL pointer. */
  function Applied(m: map<Key, nat>, op: Op): map<Key, nat> {
    match op
    case MakeOp(dpy, id, data) => m[Key(dpy, id) := data]
    case DeleteOp(dpy, id) => m - {Key(dpy, id)}
    case LookUpOp(_, _) => m
  }

  function Answer(m: map<Key, nat>, op: Op): seq<nat> {
    if op.LookUpOp? then [if Key(op.dpy, op.id) in m then m[Key(op.dpy, op.id)] else 0] else []
  }

  function Answers(m: map<Key, nat>, ops: seq<Op>): seq<nat>
    decreases |ops|
  {
    if ops == [] then [] else Answer(m, ops[0]) + Answers(Applied(m, ops[0]), ops[1..])
  }

  /** One call. */
  method DoOp(table: AssocTable, op: Op) returns (answer: seq<nat>)
    requires table.Valid()
    modifies table, table.nodes
    ensures table.Valid() && fresh(table.nodes - old(table.nodes))
    ensures table.contents == Applied(old(table.contents), op) && answer == Answer(old(table.contents), op)
  {
    hide AssocTable.Valid;
    answer := [];
    match op {
      case MakeOp(dpy, id, data) => table.Make(dpy, id, data);
      case DeleteOp(dpy, id) => table.Delete(dpy, id);
      case LookUpOp(dpy, id) =>
        var data := table.LookUp(dpy, id);
        answer := [data];
    }
  }

  /** Any sequence of calls on a new table answers as a map would. */
  method Run(size: nat, ops: seq<Op>) returns (answers: seq<nat>)
    requires size > 0
    ensures answers == Answers(map[], ops)
  {
    hide AssocTable.Valid, Applied, Answer, Answers;
    var table := Create(size);
    answers := [];
    var i := 0;
    AllOps(ops);
    while i < |ops|
      invariant 0 <= i <= |ops| && table.Valid() && fresh(table) && fresh(table.nodes)
      invariant answers + Answers(table.contents, ops[i..]) == Answers(map[], ops)
    {
      AnswersStep(table.contents, ops, i);
      var answer := DoOp(table, ops[i]);
      answers, i := answers + answer, i + 1;
    }
    NoMore(table.contents, ops);
  }

  lemma AllOps(ops: seq<Op>)
    ensures [] + Answers(map[], ops[0..]) == Answers(map[], ops)
  {
    assert ops[0..] == ops;
  }

  lemma NoMore(m: map<Key, nat>, ops: seq<Op>)
    ensures Answers(m, ops[|ops|..]) == []
  {
  }

  lemma AnswersStep(m: map<Key, nat>, ops: seq<Op>, i: nat)
    requires i < |ops|
    ensures Answers(m, ops[i..]) == Answer(m, ops[i]) + Answers(Applied(m, ops[i]), ops[i + 1..])
  {
    assert ops[i..][1..] == ops[i + 1..];
  }
}
