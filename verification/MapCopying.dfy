// Rebuilding a map from copies of its keys and values, one entry at a time.

module MapCopying {
  import opened Comparison
  import opened Maps
  import opened ObjectGraph

  // The key has a complete copy, and the value a copy.
  ghost predicate EntryCopied(g: Graph, e: (Ref, Ref), heap: Graph, f: map<Ref, Ref>)
  {
    e.0 in f && e.1 in f && IsPrimary(g, e.0) && f[e.0] in heap && heap[f[e.0]] == g[e.0]
  }

  // addMMMapItem on the entries of a map object, as MMMap.AddItem does it.
  function AddedEntries(heap: Graph, sorted: bool, entries: seq<(Ref, Ref)>, k: Ref, v: Ref): seq<(Ref, Ref)>
    requires IsPrimary(heap, k) && forall e | e in entries :: IsPrimary(heap, e.0)
  {
    Vals(Added(sorted, KeyedItems(heap, entries), KeyAt(heap, k), (k, v)))
  }

  // Items with the same keys, for the copies of their objects.
  function ItemImages(s: seq<Item<(Ref, Ref)>>, f: map<Ref, Ref>): (r: seq<Item<(Ref, Ref)>>)
    requires forall x | x in s :: x.val.0 in f && x.val.1 in f
    ensures |r| == |s| && forall i :: 0 <= i < |r| ==> r[i] == Item(s[i].key, (f[s[i].val.0], f[s[i].val.1]))
  {
    seq(|s|, i requires 0 <= i < |s| => Item(s[i].key, (f[s[i].val.0], f[s[i].val.1])))
  }

  lemma ConsImages(x: Item<(Ref, Ref)>, s: seq<Item<(Ref, Ref)>>, f: map<Ref, Ref>)
    requires x.val.0 in f && x.val.1 in f && forall y | y in s :: y.val.0 in f && y.val.1 in f
    ensures forall y | y in [x] + s :: y.val.0 in f && y.val.1 in f
    ensures ItemImages([x] + s, f) == [Item(x.key, (f[x.val.0], f[x.val.1]))] + ItemImages(s, f)
  {}

  lemma {:induction false} WithoutImages(s: seq<Item<(Ref, Ref)>>, k: Value, f: map<Ref, Ref>)
    requires IsKey(k) && Hashable(s) && forall x | x in s :: x.val.0 in f && x.val.1 in f
    ensures Hashable(ItemImages(s, f)) && Without(ItemImages(s, f), k) == ItemImages(Without(s, k), f)
  {
    hide KeyBytes;
    if s != [] {
      WithoutImages(s[1..], k, f);
      assert ItemImages(s, f)[1..] == ItemImages(s[1..], f);
      hide Hashable;
      ConsImages(s[0], Without(s[1..], k), f);
    }
  }

  lemma {:induction false} InsertImages(s: seq<Item<(Ref, Ref)>>, x: Item<(Ref, Ref)>, f: map<Ref, Ref>)
    requires x.val.0 in f && x.val.1 in f && forall y | y in s :: y.val.0 in f && y.val.1 in f
    ensures Insert(ItemImages(s, f), Item(x.key, (f[x.val.0], f[x.val.1]))) == ItemImages(Insert(s, x), f)
  {
    hide Compare;
    if s != [] {
      InsertImages(s[1..], x, f);
      assert ItemImages(s, f)[1..] == ItemImages(s[1..], f);
      ConsImages(s[0], Insert(s[1..], x), f);
    }
    ConsImages(x, s, f);
  }

  // Adding looks at keys only.
  lemma AddedImages(sorted: bool, s: seq<Item<(Ref, Ref)>>, k: Value, e: (Ref, Ref), f: map<Ref, Ref>)
    requires IsKey(k) && Hashable(s) && e.0 in f && e.1 in f && forall x | x in s :: x.val.0 in f && x.val.1 in f
    ensures Hashable(ItemImages(s, f)) && (forall x | x in Added(sorted, s, k, e) :: x.val.0 in f && x.val.1 in f)
    ensures Added(sorted, ItemImages(s, f), k, (f[e.0], f[e.1])) == ItemImages(Added(sorted, s, k, e), f)
  {
    hide Without, Insert;
    WithoutImages(s, k, f);
    if sorted { InsertImages(Without(s, k), Item(k, e), f); }
  }

  // One more entry of the original, added to the items of those before.
  lemma OneMoreRebuilt(g: Graph, sorted: bool, entries: seq<(Ref, Ref)>, m: nat)
    requires m < |entries| && forall e | e in entries :: IsPrimary(g, e.0)
    ensures var r, e := Rebuilt(sorted, KeyedItems(g, entries[..m])), entries[m];
      Hashable(r) && Rebuilt(sorted, KeyedItems(g, entries[..m + 1])) == Added(sorted, r, KeyAt(g, e.0), e)
  {
    var t := KeyedItems(g, entries[..m + 1]);
    assert t[..m] == KeyedItems(g, entries[..m]) && t[m].key == KeyAt(g, entries[m].0) && t[m].val == entries[m];
    hide Added;
  }

  // The items of the copy: the same keys, since their copies hold the same values.
  lemma CopiedItems(g: Graph, r: seq<Item<(Ref, Ref)>>, heap: Graph, f: map<Ref, Ref>)
    requires forall x | x in r :: EntryCopied(g, x.val, heap, f) && x.key == KeyAt(g, x.val.0)
    ensures forall e | e in Vals(r) :: e.0 in f && e.1 in f
    ensures var es := EntryImages(Vals(r), f);
      (forall x | x in es :: IsPrimary(heap, x.0)) && KeyedItems(heap, es) == ItemImages(r, f)
  {
    forall e | e in Vals(r) ensures e.0 in f && e.1 in f {
      var j :| 0 <= j < |r| && Vals(r)[j] == e;
      assert r[j] in r;
    }
    var es := EntryImages(Vals(r), f);
    forall j | 0 <= j < |r| ensures IsPrimary(heap, es[j].0) && KeyAt(heap, es[j].0) == r[j].key {
      assert r[j] in r;
    }
  }

  lemma RebuiltEntries(g: Graph, sorted: bool, entries: seq<(Ref, Ref)>)
    requires forall e | e in entries :: IsPrimary(g, e.0)
    ensures forall x | x in Rebuilt(sorted, KeyedItems(g, entries)) :: x.val in entries && x.key == KeyAt(g, x.val.0)
  {
    hide Rebuilt;
    forall x | x in Rebuilt(sorted, KeyedItems(g, entries)) ensures x.val in entries && x.key == KeyAt(g, x.val.0) {
      assert x in KeyedItems(g, entries);
    }
  }

  // The next entry is added to the copy as it was to the original.
  lemma NextEntryAdded(g: Graph, n: Node, heap: Graph, f: map<Ref, Ref>, m: nat)
    requires n.MapN? && KeysPrimary(g, n) && m < |n.entries|
    requires EntryCopied(g, n.entries[m], heap, f) && forall e | e in n.entries[..m] :: EntryCopied(g, e, heap, f)
    ensures forall e | e in n.entries[..m + 1] :: e.0 in f && e.1 in f
    ensures var es, e := EntryImages(Arranged(g, n.sorted, n.entries[..m]), f), n.entries[m];
      (forall x | x in es :: IsPrimary(heap, x.0)) && IsPrimary(heap, f[e.0])
      && AddedEntries(heap, n.sorted, es, f[e.0], f[e.1]) == EntryImages(Arranged(g, n.sorted, n.entries[..m + 1]), f)
  {
    hide Rebuilt, Added;
    var e, before := n.entries[m], n.entries[..m];
    assert n.entries[..m + 1] == before + [e];
    var r := Rebuilt(n.sorted, KeyedItems(g, before));
    OneMoreRebuilt(g, n.sorted, n.entries, m);
    RebuiltEntries(g, n.sorted, before);
    AddedImages(n.sorted, r, KeyAt(g, e.0), e, f);
    CopiedItems(g, r, heap, f);
    var t := Added(n.sorted, r, KeyAt(g, e.0), e);
    assert EntryImages(Vals(t), f) == Vals(ItemImages(t, f));
  }
}
