// Object graphs: what the packer is given and what the unpacker builds.

module ObjectGraph {
  import opened Bits
  import opened Bytes
  import opened Comparison
  import opened Maps

  // An object's address.
  type Ref = nat

  const NULL: Ref := 0

  // One object of each packable class. A list may hold null pointers.
  datatype Node =
    | IntN(i: int32)
    | LongN(l: int64)
    | StringN(s: text)
    | DataN(d: block)
    | ListN(items: seq<Ref>)
    | MapN(sorted: bool, entries: seq<(Ref, Ref)>)

  type Graph = map<Ref, Node>

  function NodeClass(n: Node): Class
  {
    match n
    case IntN(_) => MMInt
    case LongN(_) => MMLong
    case StringN(_) => MMString
    case DataN(_) => MMData
    case ListN(_) => MMList
    case MapN(_, _) => MMMap
  }

  function NodeName(n: Node): text { Name(NodeClass(n)) }

  function NonNull(items: seq<Ref>): (r: seq<Ref>)
    ensures NULL !in r
    ensures forall x :: x in r <==> x in items && x != NULL
  {
    if items == [] then []
    else if items[0] == NULL then NonNull(items[1..])
    else [items[0]] + NonNull(items[1..])
  }

  function Flat(entries: seq<(Ref, Ref)>): seq<Ref>
  {
    if entries == [] then [] else [entries[0].0, entries[0].1] + Flat(entries[1..])
  }

  // The objects a node refers to, in the order it names them.
  function Children(n: Node): seq<Ref>
  {
    match n
    case ListN(items) => NonNull(items)
    case MapN(_, entries) => Flat(entries)
    case _ => []
  }

  ghost predicate Closed(g: Graph)
  {
    NULL !in g && forall r, x :: r in g && x in Children(g[r]) ==> x in g
  }

  function KeyValue(n: Node): Value
    requires n.IntN? || n.LongN? || n.StringN?
  {
    match n
    case IntN(i) => IntV(i)
    case LongN(l) => LongV(l)
    case StringN(s) => StringV(s)
  }

  function KeyAt(g: Graph, r: Ref): Value
    requires IsPrimary(g, r)
  {
    KeyValue(g[r])
  }

  predicate IsPrimary(g: Graph, r: Ref) { r in g && (g[r].IntN? || g[r].LongN? || g[r].StringN?) }

  // The items of a map node as the map class holds them: key values and, for
  // each, the two objects.
  function KeyedItems(g: Graph, entries: seq<(Ref, Ref)>): (s: seq<Item<(Ref, Ref)>>)
    requires forall e | e in entries :: IsPrimary(g, e.0)
    ensures |s| == |entries|
    ensures forall j :: 0 <= j < |s| ==> s[j] == Item(KeyAt(g, entries[j].0), entries[j])
  {
    seq(|entries|, j requires 0 <= j < |entries| => Item(KeyAt(g, entries[j].0), entries[j]))
  }

  // What the map class asks of its keys: that they are of a primary class.
  ghost predicate KeysPrimary(g: Graph, n: Node)
  {
    n.MapN? ==> forall e | e in n.entries :: IsPrimary(g, e.0)
  }

  ghost predicate AllKeysPrimary(g: Graph)
  {
    forall r :: r in g ==> KeysPrimary(g, g[r])
  }

  // The entries as an empty map holds them after they were added one by one.
  function Arranged(g: Graph, sorted: bool, entries: seq<(Ref, Ref)>): (r: seq<(Ref, Ref)>)
    requires forall e | e in entries :: IsPrimary(g, e.0)
    ensures forall e | e in r :: e in entries
  {
    var items := Rebuilt(sorted, KeyedItems(g, entries));
    ValsOfItems(g, entries, items);
    Vals(items)
  }

  lemma ValsOfItems(g: Graph, entries: seq<(Ref, Ref)>, items: seq<Item<(Ref, Ref)>>)
    requires forall e | e in entries :: IsPrimary(g, e.0)
    requires forall x | x in items :: x in KeyedItems(g, entries)
    ensures forall e | e in Vals(items) :: e in entries
  {
    forall e | e in Vals(items) ensures e in entries {
      var j :| 0 <= j < |items| && Vals(items)[j] == e;
      assert items[j] in KeyedItems(g, entries);
    }
  }

  function Vals<V>(s: seq<Item<V>>): (r: seq<V>)
    ensures |r| == |s| && forall j :: 0 <= j < |s| ==> r[j] == s[j].val
  {
    seq(|s|, j requires 0 <= j < |s| => s[j].val)
  }

  // The node that unpacking makes of n, up to addresses: a map is rebuilt.
  function Settled(g: Graph, n: Node): Node
    requires KeysPrimary(g, n)
  {
    match n
    case MapN(sorted, entries) => MapN(sorted, Arranged(g, sorted, entries))
    case _ => n
  }

  // With keys of one class and no key twice, a map is rebuilt as it was if and
  // only if it is not sorted or its stored order is ascending.
  lemma SettledExactly(g: Graph, n: Node, c: Class)
    requires n.MapN? && KeysPrimary(g, n)
    requires Keyed(KeyedItems(g, n.entries), c) && Distinct(KeyedItems(g, n.entries))
    ensures Settled(g, n) == n <==> n.sorted ==> Ascending(KeyedItems(g, n.entries))
  {
    var s := KeyedItems(g, n.entries);
    RebuiltExactly(n.sorted, s, c);
    hide Rebuilt, Ascending, Keyed, Distinct;
    SameVals(g, n.entries, Rebuilt(n.sorted, s));
  }

  // Items are told by their entries: the key is that of the first object.
  lemma SameVals(g: Graph, entries: seq<(Ref, Ref)>, t: seq<Item<(Ref, Ref)>>)
    requires forall e | e in entries :: IsPrimary(g, e.0)
    requires forall x | x in t :: x in KeyedItems(g, entries)
    ensures Vals(t) == entries <==> t == KeyedItems(g, entries)
  {
    var s := KeyedItems(g, entries);
    assert Vals(s) == entries;
    if Vals(t) == entries {
      forall i | 0 <= i < |t| ensures t[i] == s[i] {
        assert t[i] in t && Vals(t)[i] == t[i].val;
      }
    }
  }

  // A map as its class keeps it while no comparison overflows.
  ghost predicate Ordinary(g: Graph, n: Node)
  {
    KeysPrimary(g, n) && (n.MapN? ==> exists c :: WellFormed(n.sorted, KeyedItems(g, n.entries), c))
  }

  // Sizes that fit the 32-bit lengths and the 20-bit numbers of the format.
  ghost predicate Small(n: Node)
  {
    match n
    case ListN(items) => |items| < UINT_MAX
    case MapN(_, entries) => 2 * |entries| < UINT_MAX
    case _ => true
  }

  ghost predicate Packable(g: Graph)
  {
    Closed(g) && AllKeysPrimary(g) && |g| <= 0x10_0000 && forall r :: r in g ==> Small(g[r])
  }

  // ----- Reachability

  // Who names whom.
  type Kids = map<Ref, seq<Ref>>

  function KidsOf(g: Graph): Kids { map r | r in g :: Children(g[r]) }

  ghost predicate Edge(kids: Kids, q: Ref, r: Ref) { q in kids && r in kids[q] }

  ghost predicate ReachedIn(kids: Kids, roots: set<Ref>, r: Ref, k: nat)
    decreases k
  {
    r in kids && if k == 0 then r in roots else exists q :: Edge(kids, q, r) && ReachedIn(kids, roots, q, k - 1)
  }

  ghost predicate Reachable(kids: Kids, roots: set<Ref>, r: Ref)
  {
    exists k: nat :: ReachedIn(kids, roots, r, k)
  }

  ghost predicate ClosedUnder(kids: Kids, s: set<Ref>)
  {
    forall q, r :: Edge(kids, q, r) && q in s ==> r in s
  }

  lemma RootIsReachable(kids: Kids, roots: set<Ref>, r: Ref)
    requires r in roots && r in kids
    ensures Reachable(kids, roots, r)
  {
    assert ReachedIn(kids, roots, r, 0);
  }

  lemma ChildIsReachable(kids: Kids, roots: set<Ref>, q: Ref, r: Ref)
    requires Reachable(kids, roots, q) && Edge(kids, q, r) && r in kids
    ensures Reachable(kids, roots, r)
  {
    var k: nat :| ReachedIn(kids, roots, q, k);
    assert ReachedIn(kids, roots, r, k + 1);
  }

  // A set that holds the roots and is closed under children holds all that is
  // reachable.
  lemma ReachableInClosedSet(kids: Kids, roots: set<Ref>, s: set<Ref>, r: Ref)
    requires Reachable(kids, roots, r)
    requires roots * kids.Keys <= s && ClosedUnder(kids, s)
    ensures r in s
  {
    var k: nat :| ReachedIn(kids, roots, r, k);
    ReachedInClosedSet(kids, roots, s, r, k);
  }

  lemma {:induction false} ReachedInClosedSet(kids: Kids, roots: set<Ref>, s: set<Ref>, r: Ref, k: nat)
    requires ReachedIn(kids, roots, r, k)
    requires roots * kids.Keys <= s && ClosedUnder(kids, s)
    ensures r in s
    decreases k
  {
    if k > 0 {
      var q :| Edge(kids, q, r) && ReachedIn(kids, roots, q, k - 1);
      ReachedInClosedSet(kids, roots, s, q, k - 1);
    }
  }

  // ----- Copies

  // The node with every reference replaced by what f makes of it, and the
  // nulls of a list dropped.
  function Renamed(n: Node, f: map<Ref, Ref>): Node
    requires forall x | x in Children(n) :: x in f
  {
    match n
    case ListN(items) => ListN(Images(NonNull(items), f))
    case MapN(sorted, entries) => EntriesOfFlat(entries); MapN(sorted, EntryImages(entries, f))
    case _ => n
  }

  function Images(items: seq<Ref>, f: map<Ref, Ref>): (r: seq<Ref>)
    requires forall x | x in items :: x in f
    ensures |r| == |items| && forall i :: 0 <= i < |r| ==> r[i] == f[items[i]]
  {
    seq(|items|, i requires 0 <= i < |items| => f[items[i]])
  }

  function EntryImages(entries: seq<(Ref, Ref)>, f: map<Ref, Ref>): (r: seq<(Ref, Ref)>)
    requires forall e | e in entries :: e.0 in f && e.1 in f
    ensures |r| == |entries| && forall i :: 0 <= i < |r| ==> r[i] == (f[entries[i].0], f[entries[i].1])
  {
    seq(|entries|, i requires 0 <= i < |entries| => (f[entries[i].0], f[entries[i].1]))
  }

  lemma {:induction false} FlatAt(entries: seq<(Ref, Ref)>, i: nat)
    requires i < |entries|
    ensures |Flat(entries)| >= 2 * i + 2
    ensures Flat(entries)[2 * i] == entries[i].0 && Flat(entries)[2 * i + 1] == entries[i].1
  {
    if i > 0 { FlatAt(entries[1..], i - 1); }
  }

  lemma {:induction false} FlatLength(entries: seq<(Ref, Ref)>)
    ensures |Flat(entries)| == 2 * |entries|
  {
    if entries != [] { FlatLength(entries[1..]); }
  }

  lemma EntriesOfFlat(entries: seq<(Ref, Ref)>)
    ensures forall e | e in entries :: e.0 in Flat(entries) && e.1 in Flat(entries)
  {
    forall e | e in entries ensures e.0 in Flat(entries) && e.1 in Flat(entries) {
      var i :| 0 <= i < |entries| && entries[i] == e;
      FlatAt(entries, i);
    }
  }

  lemma {:induction false} FlatMember(entries: seq<(Ref, Ref)>, x: Ref)
    requires x in Flat(entries)
    ensures exists e :: e in entries && (e.0 == x || e.1 == x)
  {
    if x == entries[0].0 || x == entries[0].1 {
      assert entries[0] in entries;
    } else {
      assert Flat(entries) == [entries[0].0, entries[0].1] + Flat(entries[1..]);
      FlatMember(entries[1..], x);
      var e :| e in entries[1..] && (e.0 == x || e.1 == x);
      assert e in entries;
    }
  }

  lemma SettledChildren(g: Graph, n: Node)
    requires KeysPrimary(g, n)
    ensures forall x | x in Children(Settled(g, n)) :: x in Children(n)
  {
    if n.MapN? {
      var entries := Arranged(g, n.sorted, n.entries);
      EntriesOfFlat(n.entries);
      forall x | x in Flat(entries) ensures x in Flat(n.entries) {
        FlatMember(entries, x);
      }
    }
  }

  // f carries the part of g reachable from the roots onto the whole of h, one
  // object to one object.
  ghost predicate Bijection(g: Graph, roots: set<Ref>, h: Graph, f: map<Ref, Ref>)
  {
    (forall r :: r in f <==> Reachable(KidsOf(g), roots, r))
    && (forall r, q :: r in f && q in f && f[r] == f[q] ==> r == q)
    && f.Values == h.Keys
  }

  // What f makes of an object is made of the images of its parts.
  ghost predicate Isomorphism(g: Graph, roots: set<Ref>, h: Graph, f: map<Ref, Ref>)
  {
    Bijection(g, roots, h, f)
    && (forall r :: r in f ==> r in g && (forall x | x in Children(g[r]) :: x in f) && h[f[r]] == Renamed(g[r], f))
  }

  // The same, except that maps are rebuilt.
  ghost predicate Rebuilding(g: Graph, roots: set<Ref>, h: Graph, f: map<Ref, Ref>)
  {
    Bijection(g, roots, h, f) && forall r :: r in f ==> SettledCopy(g, h, f, r)
  }

  // The image of r is the copy of r as unpacking makes it.
  ghost predicate SettledCopy(g: Graph, h: Graph, f: map<Ref, Ref>, r: Ref)
  {
    r in f && r in g && f[r] in h && KeysPrimary(g, g[r])
    && (forall x :: x in Children(g[r]) ==> x in f)
    && (forall x :: x in Children(Settled(g, g[r])) ==> x in f)
    && h[f[r]] == Renamed(Settled(g, g[r]), f)
  }

  ghost predicate KeptByRebuilding(g: Graph, r: Ref) { r in g && KeysPrimary(g, g[r]) && Settled(g, g[r]) == g[r] }

  // Rebuilding gives an isomorphic graph exactly when it keeps every map.
  lemma RebuildingIsIsomorphism(g: Graph, roots: set<Ref>, h: Graph, f: map<Ref, Ref>)
    requires Rebuilding(g, roots, h, f)
    ensures Isomorphism(g, roots, h, f) <==> forall r :: r in f ==> KeptByRebuilding(g, r)
  {
    hide Settled, KeysPrimary, Children, Reachable;
    forall r | r in f ensures SettledCopy(g, h, f, r) && (h[f[r]] == Renamed(g[r], f) <==> KeptByRebuilding(g, r)) {
      assert SettledCopy(g, h, f, r);
      if h[f[r]] == Renamed(g[r], f) {
        SameImage(g, g[r], f);
      }
    }
  }

  lemma OrdinaryMapsAreKept(g: Graph, r: Ref)
    requires r in g && Ordinary(g, g[r])
    ensures KeptByRebuilding(g, r)
  {
    if g[r].MapN? {
      var c :| WellFormed(g[r].sorted, KeyedItems(g, g[r].entries), c);
      SettledExactly(g, g[r], c);
    }
  }

  lemma SameImage(g: Graph, n: Node, f: map<Ref, Ref>)
    requires KeysPrimary(g, n) && forall r, q :: r in f && q in f && f[r] == f[q] ==> r == q
    requires forall x :: x in Children(n) ==> x in f
    requires forall x :: x in Children(Settled(g, n)) ==> x in f
    requires Renamed(Settled(g, n), f) == Renamed(n, f)
    ensures Settled(g, n) == n
  {
    if n.MapN? {
      var a, b := Arranged(g, n.sorted, n.entries), n.entries;
      EntriesOfFlat(a);
      EntriesOfFlat(b);
      assert EntryImages(a, f) == EntryImages(b, f);
      forall i | 0 <= i < |a| ensures a[i] == b[i] {
        assert a[i] in a && b[i] in b && EntryImages(a, f)[i] == EntryImages(b, f)[i];
      }
      assert a == b;
    }
  }
}
