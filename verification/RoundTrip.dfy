// Packing any roots of an object graph, and unpacking them again.

module RoundTrips {
  import opened Bits
  import opened Bytes
  import opened DyBufs
  import opened Options
  import opened ObjectGraph
  import opened Records
  import opened Machines
  import opened Packing
  import opened PackMeaning
  import opened PackProperties
  import opened Packers
  import opened Unpacking
  import opened Unpackers

  ghost predicate DistinctKeys(roots: seq<Root>)
  {
    forall i, j :: 0 <= i < j < |roots| ==> roots[i].key != roots[j].key
  }

  // What the unpacker finds under a root's key.
  ghost predicate RootRead(ints: map<nat, Val>, ids: seq<Ref>, root: Root)
  {
    match root
    case IntRoot(key, v) => key in ints && ints[key] == LongVal(v)
    case ObjRoot(key, r) =>
      if r == NULL then key !in ints
      else key in ints && ints[key].NumVal? && ints[key].n < |ids| && ids[ints[key].n] == r
  }

  lemma {:induction false} RootsRead(g: Graph, roots: seq<Root>)
    requires Closed(g) && RootsIn(roots, g) && DistinctKeys(roots)
    ensures forall k :: k in RootInts(g, roots) ==> exists root :: root in roots && root.key == k
    ensures forall root :: root in roots ==> RootRead(RootInts(g, roots), PackAll(g, roots).ids, root)
  {
    if roots != [] {
      var before, last := roots[..|roots| - 1], roots[|roots| - 1];
      LastKeyIsNew(g, roots);
      RootsRead(g, before);
      hide PackAll, RootInts, Closed, RootsIn, DistinctKeys, Numbered;
      OneMoreKey(g, roots);
      LastRootRead(g, roots);
      var ints, ids := RootInts(g, before), PackAll(g, before).ids;
      var ints', ids' := RootInts(g, roots), PackAll(g, roots).ids;
      forall root | root in roots ensures RootRead(ints', ids', root) {
        if root != last { assert root in before && RootRead(ints, ids, root); }
      }
    }
  }

  lemma LastKeyIsNew(g: Graph, roots: seq<Root>)
    requires RootsIn(roots, g) && DistinctKeys(roots) && roots != []
    ensures var before, last := roots[..|roots| - 1], roots[|roots| - 1];
      roots == before + [last] && RootsIn(before, g) && DistinctKeys(before)
      && forall root :: root in before ==> root.key != last.key
  {
    var before := roots[..|roots| - 1];
    forall root | root in before ensures root.key != roots[|roots| - 1].key {
      var i :| 0 <= i < |before| && before[i] == root;
      assert roots[i].key != roots[|roots| - 1].key;
    }
  }

  // What the last root adds to the roots map, and that numbers stay.
  lemma OneMoreKey(g: Graph, roots: seq<Root>)
    requires Closed(g) && RootsIn(roots, g) && roots != [] && RootsIn(roots[..|roots| - 1], g)
    ensures PackAll(g, roots[..|roots| - 1]).ids <= PackAll(g, roots).ids
    ensures var ints, ints', key := RootInts(g, roots[..|roots| - 1]), RootInts(g, roots), roots[|roots| - 1].key;
      forall k :: k != key ==> (k in ints' <==> k in ints) && (k in ints ==> ints'[k] == ints[k])
  {
    hide Numbered, WithRef, Drained;
  }

  lemma LastRootRead(g: Graph, roots: seq<Root>)
    requires Closed(g) && RootsIn(roots, g) && roots != []
    requires roots[|roots| - 1].key !in RootInts(g, roots[..|roots| - 1])
    ensures RootRead(RootInts(g, roots), PackAll(g, roots).ids, roots[|roots| - 1])
  {
    var p, last := PackAll(g, roots[..|roots| - 1]), roots[|roots| - 1];
    if last.ObjRoot? && last.r != NULL {
      assert WithRef(p, last.key, last.r).ids <= PackAll(g, roots).ids;
    }
  }

  // Before anything is unpacked.
  lemma ReadyToUnpack(g: Graph, roots: seq<Root>, m: Machine, ints: map<nat, Val>)
    requires Packable(g) && RootsIn(roots, g)
    requires var q := PackAll(g, roots); Means(m, q, g, |q.ids|, ints)
    ensures Inv(State(m.store, m.objects, map[]), Source(g, PackAll(g, roots).ids), map[], {})
  {
    var ids := PackAll(g, roots).ids;
    var s, t := Source(g, ids), State(m.store, m.objects, map[]);
    forall i | 0 <= i < |ids| ensures EntryOk(t, s, map[], i) {
      assert Described(m, ids, g, i);
    }
  }

  // When all roots have been unpacked, exactly what is reachable has a copy.
  lemma Finished(t: State, g: Graph, roots: seq<Root>, f: map<Ref, Ref>)
    requires Closed(g) && RootsIn(roots, g)
    requires Inv(t, Source(g, PackAll(g, roots).ids), f, {})
    requires forall r :: r in RootRefs(roots) ==> r in f
    ensures Rebuilding(g, RootRefs(roots), t.heap, f)
  {
    var ids, rs := PackAll(g, roots).ids, RootRefs(roots);
    var s := Source(g, ids);
    forall r | r in f ensures Built(t.heap, s, f, r) {}
    forall r ensures r in f <==> Reachable(KidsOf(g), rs, r) {
      NumberedIffReachable(g, roots, r);
      if Reachable(KidsOf(g), rs, r) {
        assert ClosedUnder(KidsOf(g), f.Keys);
        ReachableInClosedSet(KidsOf(g), rs, f.Keys, r);
      }
    }
  }

  // A list that holds nulls is declared with its full length and copied
  // without them: the copy is item by item the original exactly when it holds
  // none.
  lemma {:induction false} ListsWithoutNullsAreCopied(items: seq<Ref>, f: map<Ref, Ref>)
    requires forall x :: x in NonNull(items) ==> x in f
    ensures |Renamed(ListN(items), f).items| <= |items|
    ensures |Renamed(ListN(items), f).items| == |items| <==> NULL !in items
    ensures NULL !in items ==> Renamed(ListN(items), f).items == Images(items, f)
  {
    if items != [] {
      assert items == [items[0]] + items[1..];
      ListsWithoutNullsAreCopied(items[1..], f);
      if NULL !in items { NoNulls(items); }
    }
  }

  lemma {:induction false} NoNulls(items: seq<Ref>)
    requires NULL !in items
    ensures NonNull(items) == items
  {
    if items != [] {
      assert items == [items[0]] + items[1..];
      NoNulls(items[1..]);
    }
  }

  // One root, packed by its own call.
  method PackRoot(packer: Packer, g: Graph, root: Root)
    requires packer.Valid() && packer.level == 0 && Closed(g) && Numbered(packer.p.ids, g)
    requires root.ObjRoot? && root.r != NULL ==> root.r in g
    modifies packer, packer.dyb, packer.dyb.data
    ensures packer.Valid() && packer.level == 0 && packer.p == WithRoot(old(packer.p), g, root)
    ensures packer.dyb.data == old(packer.dyb.data) || fresh(packer.dyb.data)
  {
    hide packer.Valid, Closed, Numbered, Drained, WithRef;
    match root
    case ObjRoot(key, r) => packer.PackObject(g, key, r);
    case IntRoot(key, v) => packer.Emit(VarInt(key, v));
  }

  lemma OneMoreRootPacked(g: Graph, roots: seq<Root>, i: nat)
    requires Closed(g) && RootsIn(roots, g) && i < |roots|
    ensures RootsIn(roots[..i], g) && RootsIn(roots[..i + 1], g)
    ensures roots[i].ObjRoot? && roots[i].r != NULL ==> roots[i].r in g
    ensures PackAll(g, roots[..i + 1]) == WithRoot(PackAll(g, roots[..i]), g, roots[i])
  {
    hide WithRoot, Closed;
    assert roots[..i + 1][..i] == roots[..i];
  }

  // The packed bytes: one call per root on a new packer.
  method PackSession(g: Graph, roots: seq<Root>) returns (bytes: array<byte>)
    requires Packable(g) && RootsIn(roots, g) && FitsBuffer(PackAll(g, roots).recs)
    ensures fresh(bytes) && bytes[..] == EncodeAll(PackAll(g, roots).recs)
    ensures 2 <= bytes.Length && bytes[..2] == [0x79, 0x01]
  {
    var packer := new Packer();
    NothingPacked(g, roots);
    hide packer.Valid, Closed, AllKeysPrimary, Numbered, Drained, WithRoot, PackAll, RootsIn, AllLegal;
    for i := 0 to |roots|
      invariant RootsIn(roots[..i], g)
      invariant packer.Valid() && packer.level == 0 && packer.p == PackAll(g, roots[..i])
      invariant fresh(packer) && fresh(packer.dyb) && fresh(packer.dyb.data)
    {
      OneMoreRootPacked(g, roots, i);
      PackRoot(packer, g, roots[i]);
    }
    assert roots[..|roots|] == roots;
    bytes := PackedBytes(packer);
    StartsWithVersion(g, roots);
  }

  // Whatever is packed, the first two bytes are the version record.
  lemma StartsWithVersion(g: Graph, roots: seq<Root>)
    requires Closed(g) && RootsIn(roots, g) && AllLegal(PackAll(g, roots).recs)
    ensures [0x79, 0x01] <= EncodeAll(PackAll(g, roots).recs)
  {
    SessionStartsWithVersion(g, roots);
    RecordBytes(Version(1));
    SmallNumber(1);
  }

  lemma NothingPacked(g: Graph, roots: seq<Root>)
    requires Closed(g)
    ensures RootsIn(roots[..0], g) && PackAll(g, roots[..0]) == FRESH
  {}

  method PackedBytes(packer: Packer) returns (bytes: array<byte>)
    requires packer.Valid() && FitsBuffer(packer.p.recs)
    ensures fresh(bytes) && bytes[..] == EncodeAll(packer.p.recs)
  {
    bytes := WrittenBytes(packer.dyb);
  }

  // dyb_get_data_before_current_position, into memory of its own.
  method WrittenBytes(d: DyBuf) returns (bytes: array<byte>)
    requires d.Valid()
    ensures fresh(bytes) && bytes[..] == d.Written()
  {
    bytes := new byte[d.position](
      i requires 0 <= i < d.position && d.position <= d.data.Length reads d, d.data => d.data[i]);
  }

  // One root, unpacked.
  method UnpackRoot(u: Unpacker, root: Root, ghost s: Source) returns (clone: Ref, v: int64)
    requires u.Ready(s, {}) && u.stack == [ROOTS] && u.store != [] && u.store[ROOTS].MapC?
    requires RootRead(u.store[ROOTS].ints, s.ids, root)
    modifies u
    ensures u.Ready(s, {}) && u.stack == old(u.stack) && u.store == old(u.store)
    ensures Grows(old(u.f), u.f)
    ensures match root
            case IntRoot(_, w) => v == w
            case ObjRoot(_, r) => if r == NULL then clone == NULL else r in u.f && clone == u.f[r]
  {
    hide Inv, Built;
    clone, v := NULL, 0;
    match root
    case IntRoot(key, _) => v := u.UnpackVarInt(key);
    case ObjRoot(key, _) => clone := u.UnpackObject(key, s, {});
  }

  // An unpacker over the packed bytes, with all records processed.
  method OpenSession(g: Graph, roots: seq<Root>, bytes: array<byte>, allocators: set<text>) returns (u: Unpacker)
    requires Packable(g) && RootsIn(roots, g) && FitsBuffer(PackAll(g, roots).recs)
    requires bytes[..] == EncodeAll(PackAll(g, roots).recs)
    requires forall r :: r in PackAll(g, roots).ids ==> NodeName(g[r]) in allocators
    ensures fresh(u) && u.Ready(Source(g, PackAll(g, roots).ids), {}) && u.f == map[]
    ensures u.stack == [ROOTS] && u.store != [] && u.store[ROOTS] == MapC(false, RootInts(g, roots), map[])
  {
    hide Inv, AllKeysPrimary, Closed, Means, RunOk, PackAll, RootInts, AllLegal, EncodeAll, Numbered;
    u := NewUnpacker(bytes, allocators);
    ghost var m := SessionMeans(g, roots);
    SessionEnd(g, roots, m);
    u.Process(PackAll(g, roots).recs, m);
    ReadyToUnpack(g, roots, m, RootInts(g, roots));
  }

  // An unpacker that is to read the bytes.
  method NewUnpacker(bytes: array<byte>, allocators: set<text>) returns (u: Unpacker)
    requires bytes.Length <= UINT_MAX
    ensures fresh(u) && fresh(u.dyb) && u.dyb.Valid() && u.dyb.Pending() == bytes[..]
    ensures u.M(None) == START && u.lastObjectNum == None && u.heap == map[] && u.nextAddr > 0 && u.f == map[]
    ensures u.allocators == allocators
  {
    var dyb := new DyBuf.Refer(bytes, false);
    u := new Unpacker(dyb, allocators);
  }

  // The machine at the end of a session.
  lemma SessionEnd(g: Graph, roots: seq<Root>, m: Machine)
    requires Packable(g) && RootsIn(roots, g)
    requires var q := PackAll(g, roots); Means(m, q, g, |q.ids|, RootInts(g, roots))
    ensures RunOk(START, PackAll(g, roots).recs, m) && m.cur.None? && m.stack == [ROOTS]
    ensures m.store != [] && m.store[ROOTS] == MapC(false, RootInts(g, roots), map[])
    ensures forall r :: r in PackAll(g, roots).ids ==> r in g
  {
    hide PackAll, RootInts, RunOk;
  }

  // Packing roots and unpacking them under the same keys copies exactly the
  // part of the graph reachable from them: one object becomes one object,
  // even when several roots, lists, maps or cycles refer to it. Maps are
  // rebuilt entry by entry, and the copy is isomorphic exactly when that keeps
  // all of them: SettledExactly says when it keeps one.
  method PackAndUnpack(g: Graph, roots: seq<Root>, allocators: set<text>)
    returns (h: Graph, clones: seq<Ref>, vs: seq<int64>, ghost f: map<Ref, Ref>)
    requires Packable(g) && RootsIn(roots, g) && DistinctKeys(roots) && KeysFit(roots)
    requires AllLegal(PackAll(g, roots).recs) ==> |EncodeAll(PackAll(g, roots).recs)| <= UINT_MAX
    requires forall r :: r in g ==> NodeName(g[r]) in allocators
    ensures Rebuilding(g, RootRefs(roots), h, f)
    ensures Isomorphism(g, RootRefs(roots), h, f) <==> forall r :: r in f ==> KeptByRebuilding(g, r)
    ensures (forall r :: r in f ==> r in g && Ordinary(g, g[r])) ==> Isomorphism(g, RootRefs(roots), h, f)
    ensures |clones| == |roots| == |vs|
    ensures forall k :: 0 <= k < |roots| ==>
      match roots[k]
      case IntRoot(_, v) => vs[k] == v
      case ObjRoot(_, r) => if r == NULL then clones[k] == NULL else r in f && clones[k] == f[r]
  {
    SessionIsLegal(g, roots);
    RootsRead(g, roots);
    hide Inv, GoodSource, Packable, RootRead, DistinctKeys, KeysFit, Grows, Isomorphism, Rebuilding, Ordinary,
      KeptByRebuilding, RootsDone, RootDone;
    var bytes := PackSession(g, roots);
    var u := OpenSession(g, roots, bytes, allocators);
    ghost var s := Source(g, PackAll(g, roots).ids);
    clones, vs := [], [];
    NoRoots(u.f);
    for i := 0 to |roots|
      invariant u.Ready(s, {}) && u.stack == [ROOTS] && u.store != []
      invariant u.store[ROOTS] == MapC(false, RootInts(g, roots), map[])
      invariant RootsDone(roots[..i], clones, vs, u.f)
    {
      ghost var f0 := u.f;
      var clone, v := UnpackRoot(u, roots[i], s);
      OneMoreRoot(roots, i, clones, vs, f0, clone, v, u.f);
      clones, vs := clones + [clone], vs + [v];
    }
    assert roots[..|roots|] == roots;
    RootsAsStated(roots, clones, vs, u.f);
    Finished(u.T(), g, roots, u.f);
    RebuildingIsIsomorphism(g, RootRefs(roots), u.heap, u.f);
    forall r | r in u.f && r in g && Ordinary(g, g[r]) ensures KeptByRebuilding(g, r) { OrdinaryMapsAreKept(g, r); }
    h, f := u.heap, u.f;
  }

  // The roots so far, each with its clone or its integer.
  ghost predicate RootsDone(roots: seq<Root>, clones: seq<Ref>, vs: seq<int64>, f: map<Ref, Ref>)
  {
    |clones| == |roots| == |vs| && forall k :: 0 <= k < |roots| ==> RootDone(roots[k], clones[k], vs[k], f)
  }

  lemma NoRoots(f: map<Ref, Ref>)
    ensures RootsDone([], [], [], f)
  {}

  lemma RootsAsStated(roots: seq<Root>, clones: seq<Ref>, vs: seq<int64>, f: map<Ref, Ref>)
    requires RootsDone(roots, clones, vs, f)
    ensures |clones| == |roots| == |vs|
    ensures forall k :: 0 <= k < |roots| ==>
      match roots[k]
      case IntRoot(_, v) => vs[k] == v
      case ObjRoot(_, r) => if r == NULL then clones[k] == NULL else r in f && clones[k] == f[r]
  {
    forall k | 0 <= k < |roots| ensures RootDone(roots[k], clones[k], vs[k], f) {}
  }

  lemma OneMoreRoot(roots: seq<Root>, i: nat, clones: seq<Ref>, vs: seq<int64>, f: map<Ref, Ref>,
                    clone: Ref, v: int64, f': map<Ref, Ref>)
    requires i < |roots| && RootsDone(roots[..i], clones, vs, f) && Grows(f, f') && RootDone(roots[i], clone, v, f')
    ensures RootsDone(roots[..i + 1], clones + [clone], vs + [v], f')
  {
    forall k | 0 <= k < i ensures RootDone(roots[k], clones[k], vs[k], f') {
      assert RootDone(roots[..i][k], clones[k], vs[k], f);
    }
  }

  ghost predicate RootDone(root: Root, clone: Ref, v: int64, f: map<Ref, Ref>)
  {
    match root
    case IntRoot(_, w) => v == w
    case ObjRoot(_, r) => if r == NULL then clone == NULL else r in f && clone == f[r]
  }
}
