// What holds between the unpacker's calls: f sends each original that has been
// materialised to its copy, and copies not being filled are complete.

module Unpacking {
  import opened Bytes
  import opened Comparison
  import opened ObjectGraph
  import opened Machines
  import opened Packing
  import opened PackRun
  import opened PackMeaning
  import opened MapCopying

  // The state of the unpacker between calls, and what it is unpacking.
  datatype State = State(store: seq<Cont>, objects: map<nat, ObjEntry>, heap: Graph)

  datatype Source = Source(g: Graph, ids: seq<Ref>)

  ghost predicate GoodSource(s: Source)
  {
    Numbered(s.ids, s.g) && ChildrenNumbered(s.ids, s.g, |s.ids|) && NULL !in s.g && AllKeysPrimary(s.g)
  }

  // The numbers of the children of object i.
  ghost function KidNums(s: Source, i: nat): seq<nat>
    requires GoodSource(s) && i < |s.ids|
  {
    assert ChildrenIn(s.ids, s.g, i);
    Numbers(s.ids, Children(s.g[s.ids[i]]))
  }

  // Entry i is the properties of an object not yet built, or its copy.
  ghost predicate EntryOk(t: State, s: Source, f: map<Ref, Ref>, i: nat)
    requires GoodSource(s) && i < |s.ids|
  {
    i in t.objects
    && match t.objects[i]
       case Props(_) => s.ids[i] !in f && BodyHeld(t.store, t.objects[i], s.g[s.ids[i]], KidNums(s, i))
       case Object(addr) => s.ids[i] in f && f[s.ids[i]] == addr
  }

  // The copy of r is complete: all children have copies, and it refers to them,
  // in the order in which a map is rebuilt.
  ghost predicate Built(heap: Graph, s: Source, f: map<Ref, Ref>, r: Ref)
  {
    SettledCopy(s.g, heap, f, r)
  }

  ghost predicate Injective(f: map<Ref, Ref>)
  {
    forall q, r :: q in f && r in f && q != r ==> f[q] != f[r]
  }

  // busy: the originals whose copies are being filled.
  ghost predicate Inv(t: State, s: Source, f: map<Ref, Ref>, busy: set<Ref>)
  {
    GoodSource(s)
    && (forall i :: i in t.objects ==> i < |s.ids|)
    && (forall i :: 0 <= i < |s.ids| ==> EntryOk(t, s, f, i))
    && Injective(f) && f.Values == t.heap.Keys && NULL !in t.heap
    && busy <= f.Keys && (forall r :: r in f ==> r in s.ids)
    && forall r :: r in f && r !in busy ==> Built(t.heap, s, f, r)
  }

  // Only lists and maps are being filled while other objects are unpacked.
  ghost predicate AreContainers(s: Source, rs: set<Ref>)
  {
    forall r :: r in rs && r in s.g ==> s.g[r].ListN? || s.g[r].MapN?
  }

  // f has only grown.
  ghost predicate Grows(f: map<Ref, Ref>, f': map<Ref, Ref>)
  {
    forall r :: r in f ==> r in f' && f'[r] == f[r]
  }

  lemma RenamedStays(n: Node, f: map<Ref, Ref>, f': map<Ref, Ref>)
    requires Grows(f, f') && forall x :: x in Children(n) ==> x in f
    ensures (forall x :: x in Children(n) ==> x in f') && Renamed(n, f') == Renamed(n, f)
  {
    match n
    case ListN(items) => assert Images(NonNull(items), f') == Images(NonNull(items), f);
    case MapN(_, entries) => EntriesOfFlat(entries); assert EntryImages(entries, f') == EntryImages(entries, f);
    case _ =>
  }

  // A new object is entered before its fields are read.
  lemma Enter(t: State, s: Source, f: map<Ref, Ref>, busy: set<Ref>, i: nat, a: Ref, blank: Node)
    requires Inv(t, s, f, busy) && i < |s.ids| && i in t.objects && t.objects[i].Props? && a != NULL && a !in t.heap
    ensures Inv(State(t.store, t.objects[i := Object(a)], t.heap[a := blank]), s, f[s.ids[i] := a], busy + {s.ids[i]})
    ensures s.ids[i] !in f && s.ids[i] !in busy && Kept(busy, f, t.heap, f[s.ids[i] := a], t.heap[a := blank])
  {
    hide Renamed, Settled, Children, BodyHeld, GoodSource;
    var r := s.ids[i];
    assert EntryOk(t, s, f, i) && r !in f;
    NothingHappened(t, s, f, busy);
    var f' := f[r := a];
    var t' := State(t.store, t.objects[i := Object(a)], t.heap[a := blank]);
    IdsDiffer(s);
    forall j | 0 <= j < |s.ids| ensures EntryOk(t', s, f', j) {
      assert EntryOk(t, s, f, j);
    }
    NewValue(f, r, a);
    forall q | q in f' && q !in busy + {r} ensures Built(t'.heap, s, f', q) {
      assert Built(t.heap, s, f, q) && f[q] in f.Values;
      RenamedStays(Settled(s.g, s.g[q]), f, f');
    }
  }

  lemma IdsDiffer(s: Source)
    requires GoodSource(s)
    ensures forall i, j :: 0 <= i < j < |s.ids| ==> s.ids[i] != s.ids[j]
  {}

  // The objects not yet built.
  ghost function Unmade(objects: map<nat, ObjEntry>): set<nat> { set i | i in objects && objects[i].Props? }

  lemma MadeOne(objects: map<nat, ObjEntry>, i: nat, a: Ref)
    requires i in objects && objects[i].Props?
    ensures Unmade(objects[i := Object(a)]) < Unmade(objects)
  {
    assert i in Unmade(objects) && i !in Unmade(objects[i := Object(a)]);
  }

  lemma NewValue(f: map<Ref, Ref>, r: Ref, a: Ref)
    requires r !in f && Injective(f) && a !in f.Values
    ensures Injective(f[r := a]) && f[r := a].Values == f.Values + {a}
  {
    var f' := f[r := a];
    assert f'[r] == a;
    forall x | x in f.Values ensures x in f'.Values {
      var q :| q in f && f[q] == x;
      assert f'[q] == x;
    }
  }

  // A copy that is being filled may be changed.
  lemma Fill(t: State, s: Source, f: map<Ref, Ref>, busy: set<Ref>, r: Ref, n: Node)
    requires Inv(t, s, f, busy) && r in busy
    ensures Inv(t.(heap := t.heap[f[r] := n]), s, f, busy)
  {
    var t' := t.(heap := t.heap[f[r] := n]);
    assert f[r] in f.Values;
    forall j | 0 <= j < |s.ids| ensures EntryOk(t', s, f, j) {
      assert EntryOk(t, s, f, j);
    }
    forall q | q in f && q !in busy ensures Built(t'.heap, s, f, q) {
      assert Built(t.heap, s, f, q);
    }
  }

  // A complete copy is no longer busy.
  lemma Leave(t: State, s: Source, f: map<Ref, Ref>, busy: set<Ref>, r: Ref)
    requires Inv(t, s, f, busy + {r}) && Built(t.heap, s, f, r)
    ensures Inv(t, s, f, busy)
  {
    forall q | q in f && q !in busy ensures Built(t.heap, s, f, q) {
      if q != r { assert q !in busy + {r}; }
    }
  }

  // The copies being filled were left alone.
  ghost predicate Kept(busy: set<Ref>, f: map<Ref, Ref>, heap: Graph, f': map<Ref, Ref>, heap': Graph)
  {
    Grows(f, f')
    && forall r :: r in busy ==> r in f && f[r] in heap && f[r] in heap' && heap'[f[r]] == heap[f[r]]
  }

  // Filling one more object, on top of what was done before.
  lemma KeptStep(busy: set<Ref>, r: Ref, f: map<Ref, Ref>, h: Graph, f1: map<Ref, Ref>, h1: Graph,
                 f2: map<Ref, Ref>, h2: Graph, n: Node)
    requires Kept(busy, f, h, f1, h1) && Kept(busy, f1, h1, f2, h2)
    requires r in f2 && r !in busy && Injective(f2)
    ensures Kept(busy, f, h, f2, h2[f2[r] := n])
  {
    forall q | q in busy ensures f2[q] != f2[r] {}
  }

  lemma KeptTwice(busy: set<Ref>, f: map<Ref, Ref>, h: Graph, f1: map<Ref, Ref>, h1: Graph, f2: map<Ref, Ref>,
                  h2: Graph)
    requires Kept(busy, f, h, f1, h1) && Kept(busy, f1, h1, f2, h2)
    ensures Kept(busy, f, h, f2, h2)
  {}

  lemma NothingHappened(t: State, s: Source, f: map<Ref, Ref>, busy: set<Ref>)
    requires Inv(t, s, f, busy)
    ensures Kept(busy, f, t.heap, f, t.heap)
  {
    forall r | r in busy ensures r in f && f[r] in t.heap { assert f[r] in f.Values; }
  }

  // Changing the copy of r leaves the other copies being filled alone.
  lemma FilledKept(t: State, s: Source, busy: set<Ref>, r: Ref, f: map<Ref, Ref>, n: Node)
    requires Inv(t, s, f, busy + {r}) && r !in busy && r in f
    ensures Kept(busy, f, t.heap, f, t.heap[f[r] := n])
  {
    NothingHappened(t, s, f, busy + {r});
    KeptStep(busy, r, f, t.heap, f, t.heap, f, t.heap, n);
  }

  // The first k items of a list have been filled in.
  ghost predicate ListPart(heap: Graph, f: map<Ref, Ref>, a: Ref, kids: seq<Ref>, k: nat)
  {
    k <= |kids| && a in heap && (forall x :: x in kids[..k] ==> x in f) && heap[a] == ListN(Images(kids[..k], f))
  }

  lemma ListStep(h: Graph, f: map<Ref, Ref>, h': Graph, f': map<Ref, Ref>, a: Ref, kids: seq<Ref>, k: nat)
    requires ListPart(h, f, a, kids, k) && k < |kids| && Grows(f, f') && kids[k] in f'
    requires a in h' && h'[a] == h[a]
    ensures ListPart(h'[a := ListN(h'[a].items + [f'[kids[k]]])], f', a, kids, k + 1)
  {
    assert kids[..k + 1] == kids[..k] + [kids[k]];
    assert Images(kids[..k + 1], f') == Images(kids[..k], f) + [f'[kids[k]]];
  }

  lemma ListDone(heap: Graph, s: Source, f: map<Ref, Ref>, r: Ref)
    requires r in s.g && s.g[r].ListN? && r in f
    requires ListPart(heap, f, f[r], Children(s.g[r]), |Children(s.g[r])|)
    ensures Built(heap, s, f, r)
  {
    var kids := Children(s.g[r]);
    assert kids[..|kids|] == kids;
  }

  // The first k entries of a map have been added.
  ghost predicate MapPart(heap: Graph, g: Graph, f: map<Ref, Ref>, a: Ref, n: Node, k: nat)
  {
    n.MapN? && KeysPrimary(g, n) && k <= |n.entries| && a in heap
    && (forall e | e in n.entries[..k] :: e.0 in f && e.1 in f)
    && heap[a] == MapN(n.sorted, EntryImages(Arranged(g, n.sorted, n.entries[..k]), f))
  }

  lemma MapStep(h: Graph, g: Graph, f: map<Ref, Ref>, h': Graph, f': map<Ref, Ref>, a: Ref, n: Node, k: nat)
    requires MapPart(h, g, f, a, n, k) && Grows(f, f') && a in h' && h'[a] == h[a]
    ensures MapPart(h', g, f', a, n, k)
  {
    var es := Arranged(g, n.sorted, n.entries[..k]);
    assert EntryImages(es, f') == EntryImages(es, f);
  }

  // The next entry is added to the copy of a map as it was to the map itself:
  // its key's copy is complete.
  lemma AddedAsBefore(t: State, s: Source, f: map<Ref, Ref>, busy: set<Ref>, r: Ref, a: Ref, m: nat)
    requires Inv(t, s, f, busy) && AreContainers(s, busy) && r in s.g && MapPart(t.heap, s.g, f, a, s.g[r], m)
    requires m < |s.g[r].entries|
    requires s.g[r].entries[m].0 in f && s.g[r].entries[m].1 in f
    ensures var n, es, e := s.g[r], t.heap[a].entries, s.g[r].entries[m];
      (forall x | x in es :: IsPrimary(t.heap, x.0)) && IsPrimary(t.heap, f[e.0])
      && MapPart(t.heap[a := MapN(n.sorted, AddedEntries(t.heap, n.sorted, es, f[e.0], f[e.1]))], s.g, f, a, n, m + 1)
  {
    var n := s.g[r];
    assert n.entries[..m + 1] == n.entries[..m] + [n.entries[m]];
    forall e | e in n.entries[..m + 1] ensures EntryCopied(s.g, e, t.heap, f) {
      assert e in n.entries;
      KeyBuilt(t, s, f, busy, e.0);
    }
    assert n.entries[m] in n.entries[..m + 1];
    NextEntryAdded(s.g, n, t.heap, f, m);
  }

  lemma KeyBuilt(t: State, s: Source, f: map<Ref, Ref>, busy: set<Ref>, k: Ref)
    requires Inv(t, s, f, busy) && AreContainers(s, busy) && k in f && IsPrimary(s.g, k)
    ensures f[k] in t.heap && t.heap[f[k]] == s.g[k]
  {
    assert Built(t.heap, s, f, k);
  }

  lemma MapDone(heap: Graph, s: Source, f: map<Ref, Ref>, r: Ref)
    requires r in s.g && s.g[r].MapN? && r in f
    requires MapPart(heap, s.g, f, f[r], s.g[r], |s.g[r].entries|)
    ensures Built(heap, s, f, r)
  {
    var es := s.g[r].entries;
    assert es[..|es|] == es;
    forall x | x in Flat(es) ensures x in f {
      FlatMember(es, x);
    }
    SettledChildren(s.g, s.g[r]);
  }

  // Item k is appended after it has been unpacked.
  lemma ItemFilled(t: State, s: Source, busy: set<Ref>, r: Ref, f0: map<Ref, Ref>, h0: Graph,
                   f1: map<Ref, Ref>, h1: Graph, f: map<Ref, Ref>, a: Ref, kids: seq<Ref>, k: nat)
    requires Inv(t, s, f, busy + {r}) && r !in busy && r in f1 && f1[r] == a
    requires Kept(busy, f0, h0, f1, h1) && Kept(busy + {r}, f1, h1, f, t.heap)
    requires ListPart(h1, f1, a, kids, k) && k < |kids| && kids[k] in f
    ensures r in f && f[r] == a && a in t.heap && t.heap[a].ListN?
    ensures var n := ListN(t.heap[a].items + [f[kids[k]]]);
      Kept(busy, f0, h0, f, t.heap[a := n]) && ListPart(t.heap[a := n], f, a, kids, k + 1)
  {
    assert r in busy + {r};
    KeptStep(busy, r, f0, h0, f1, h1, f, t.heap, ListN(t.heap[a].items + [f[kids[k]]]));
    ListStep(h1, f1, t.heap, f, a, kids, k);
  }

  // Between entries and values of a map, nothing else happens to it.
  lemma EntryUnpacked(t: State, s: Source, busy: set<Ref>, r: Ref, f0: map<Ref, Ref>, h0: Graph,
                      f1: map<Ref, Ref>, h1: Graph, f: map<Ref, Ref>, a: Ref, n: Node, k: nat)
    requires Inv(t, s, f, busy + {r}) && r !in busy && r in f0 && f0[r] == a
    requires Kept(busy + {r}, f0, h0, f1, h1) && Kept(busy + {r}, f1, h1, f, t.heap)
    requires MapPart(h0, s.g, f0, a, n, k)
    ensures r in f && f[r] == a && a in t.heap && forall x :: x in f1 ==> x in f && f[x] == f1[x]
    ensures Kept(busy, f0, h0, f, t.heap) && MapPart(t.heap, s.g, f, a, n, k)
  {
    assert r in busy + {r};
    MapStep(h0, s.g, f0, t.heap, f, a, n, k);
  }

  // Where an object's containers are.
  lemma BodyParts(store: seq<Cont>, e: ObjEntry, n: Node, nums: seq<nat>)
    requires BodyHeld(store, e, n, nums)
    ensures var l := e.loc;
      l + 1 < |store| && store[l] == PropsOf(NodeName(n), l + 1)
        && store[l + 1] == MapC(true, FieldInts(n, l + 2), map[])
      && (n.ListN? || n.MapN? ==> l + 2 < |store| && store[l + 2] == ListC(NumVals(nums)))
  {
    var cs := BodyConts(n, e.loc, nums);
    assert store[e.loc..e.loc + |cs|][0] == cs[0] && store[e.loc..e.loc + |cs|][1] == cs[1];
    if n.ListN? || n.MapN? { assert store[e.loc..e.loc + |cs|][2] == cs[2]; }
  }

  // The containers of an object not yet built.
  lemma Located(t: State, s: Source, f: map<Ref, Ref>, busy: set<Ref>, i: nat)
    requires Inv(t, s, f, busy) && i < |s.ids| && i in t.objects && t.objects[i].Props?
    ensures BodyHeld(t.store, t.objects[i], s.g[s.ids[i]], KidNums(s, i))
    ensures var l, name := t.objects[i].loc, NodeName(s.g[s.ids[i]]);
      l + 1 < |t.store| && t.store[l] == PropsOf(name, l + 1) && t.store[l + 1].MapC? && t.store[l + 1].tmp
      && name != CLASS_NAME
  {
    assert EntryOk(t, s, f, i);
    NamesDiffer(s.g[s.ids[i]]);
    BodyParts(t.store, t.objects[i], s.g[s.ids[i]], KidNums(s, i));
  }

  // The empty object of a class, as its init function starts from it.
  function Blank(name: text): Node
  {
    if name == Name(MMInt) then IntN(0)
    else if name == Name(MMLong) then LongN(0)
    else if name == Name(MMString) then StringN([])
    else if name == Name(MMData) then DataN([])
    else if name == Name(MMList) then ListN([])
    else MapN(false, [])
  }

  lemma BlankOfName(n: Node)
    ensures NodeClass(Blank(NodeName(n))) == NodeClass(n)
  {
    var s := NodeName(n);
    assert s[2] == Letters(NodeClass(n))[0] && s[3] == Letters(NodeClass(n))[1];
  }
}
