// What a packer session numbers and emits: exactly the reachable objects, in
// order of first reference, each with one body, in records every header can hold.

module PackProperties {
  import opened Bits
  import opened Bytes
  import opened Options
  import opened ObjectGraph
  import opened Records
  import opened Packing
  import opened PackMeaning

  // ----- Reachability

  function RootRefs(roots: seq<Root>): set<Ref>
  {
    set root | root in roots && root.ObjRoot? && root.r != NULL :: root.r
  }

  ghost predicate AllReachable(g: Graph, rs: set<Ref>, ids: seq<Ref>)
  {
    forall r :: r in ids ==> Reachable(KidsOf(g), rs, r)
  }

  lemma {:induction false} AddAllMembers(ids: seq<Ref>, rs: seq<Ref>)
    ensures forall r :: r in AddAll(ids, rs) <==> r in ids || r in rs
    decreases rs
  {
    if rs != [] {
      AddAllMembers(AddOne(ids, rs[0]), rs[1..]);
      assert rs == [rs[0]] + rs[1..];
    }
  }

  lemma BodyReaches(p: Packed, g: Graph, i: nat, rs: set<Ref>)
    requires Closed(g) && Numbered(p.ids, g) && i < |p.ids| && AllReachable(g, rs, p.ids)
    ensures AllReachable(g, rs, WithBody(p, g, i).ids)
  {
    var q, kids := p.ids[i], Children(g[p.ids[i]]);
    AddAllMembers(p.ids, kids);
    assert q in p.ids;
    forall r | r in kids ensures Reachable(KidsOf(g), rs, r) {
      assert Edge(KidsOf(g), q, r);
      ChildIsReachable(KidsOf(g), rs, q, r);
    }
  }

  lemma {:induction false} DrainReaches(p: Packed, g: Graph, i: nat, rs: set<Ref>)
    requires Closed(g) && Numbered(p.ids, g) && i <= |p.ids| && AllReachable(g, rs, p.ids)
    ensures AllReachable(g, rs, Drained(p, g, i).ids)
    decreases |g| - i
  {
    hide AllReachable, Closed, Numbered, WithBody;
    NumberedBound(p.ids, g);
    if i < |p.ids| {
      BodyReaches(p, g, i, rs);
      DrainReaches(WithBody(p, g, i), g, i + 1, rs);
    }
  }

  lemma {:induction false} SessionReaches(g: Graph, roots: seq<Root>, rs: set<Ref>)
    requires Closed(g) && RootsIn(roots, g) && RootRefs(roots) <= rs
    ensures AllReachable(g, rs, PackAll(g, roots).ids)
  {
    hide Numbered, Drained, AllReachable;
    if roots == [] {
      NoneNumbered(g, rs);
    } else {
      var before, last := roots[..|roots| - 1], roots[|roots| - 1];
      assert RootRefs(before) <= RootRefs(roots);
      SessionReaches(g, before, rs);
      if last.ObjRoot? && last.r != NULL {
        assert last.r in RootRefs(roots);
        RootReaches(PackAll(g, before), g, last.key, last.r, rs);
      }
    }
  }

  lemma NoneNumbered(g: Graph, rs: set<Ref>)
    ensures AllReachable(g, rs, [])
  {}

  lemma RootReaches(p: Packed, g: Graph, key: nat, r: Ref, rs: set<Ref>)
    requires Closed(g) && Numbered(p.ids, g) && r != NULL && r in g && r in rs && AllReachable(g, rs, p.ids)
    ensures AllReachable(g, rs, Drained(WithRef(p, key, r), g, |p.ids|).ids)
  {
    RootIsReachable(KidsOf(g), rs, r);
    DrainReaches(WithRef(p, key, r), g, |p.ids|, rs);
  }

  lemma {:induction false} RootsAreNumbered(g: Graph, roots: seq<Root>)
    requires Closed(g) && RootsIn(roots, g)
    ensures forall r :: r in RootRefs(roots) ==> r in PackAll(g, roots).ids
  {
    if roots != [] {
      var before, last := roots[..|roots| - 1], roots[|roots| - 1];
      RootsAreNumbered(g, before);
      var p, q := PackAll(g, before), PackAll(g, roots);
      forall r | r in RootRefs(roots) ensures r in q.ids {
        if r in RootRefs(before) {
          PrefixHolds(p.ids, q.ids, r);
        } else {
          assert last == ObjRoot(last.key, r);
          PrefixHolds(AddOne(p.ids, r), q.ids, r);
        }
      }
    }
  }

  // The packer numbers exactly the objects reachable from its roots.
  lemma NumberedIffReachable(g: Graph, roots: seq<Root>, r: Ref)
    requires Closed(g) && RootsIn(roots, g)
    ensures r in PackAll(g, roots).ids <==> Reachable(KidsOf(g), RootRefs(roots), r)
  {
    var ids, rs := PackAll(g, roots).ids, RootRefs(roots);
    SessionReaches(g, roots, rs);
    if Reachable(KidsOf(g), rs, r) {
      RootsAreNumbered(g, roots);
      var m := SessionMeans(g, roots);
      var s := set x | x in ids;
      forall q, x | Edge(KidsOf(g), q, x) && q in s ensures x in s {
        var i :| 0 <= i < |ids| && ids[i] == q;
        assert ChildrenIn(ids, g, i);
      }
      ReachableInClosedSet(KidsOf(g), rs, s, r);
    }
  }

  // ----- Order

  // The numbers of the bodies, in the order in which they are written.
  function Bodies(rs: seq<Record>): seq<nat>
  {
    if rs == [] then []
    else (if rs[0].ObjStart? then [rs[0].num] else []) + Bodies(rs[1..])
  }

  // References name an object known before, or the next new number; c numbers
  // were known at the start, the result is how many are known at the end.
  function Known(rs: seq<Record>, c: nat): Option<nat>
    decreases rs
  {
    if rs == [] then Some(c)
    else if !rs[0].ObjRef? || rs[0].num < c then Known(rs[1..], c)
    else if rs[0].num == c then Known(rs[1..], c + 1)
    else None
  }

  lemma Associate(a: seq<nat>, b: seq<nat>, c: seq<nat>)
    ensures a + (b + c) == (a + b) + c
  {}

  lemma {:induction false} BodiesConcat(a: seq<Record>, b: seq<Record>)
    ensures Bodies(a + b) == Bodies(a) + Bodies(b)
  {
    if a == [] {
      assert a + b == b;
    } else {
      assert (a + b)[1..] == a[1..] + b && (a + b)[0] == a[0];
      BodiesConcat(a[1..], b);
      var own := if a[0].ObjStart? then [a[0].num] else [];
      assert Bodies(a) == own + Bodies(a[1..]) && Bodies(a + b) == own + Bodies(a[1..] + b);
      Associate(own, Bodies(a[1..]), Bodies(b));
    }
  }

  lemma {:induction false} KnownConcat(a: seq<Record>, b: seq<Record>, c: nat, c': nat)
    requires Known(a, c) == Some(c')
    ensures Known(a + b, c) == Known(b, c')
    decreases a
  {
    if a == [] {
      assert a + b == b;
    } else {
      assert (a + b)[1..] == a[1..] + b;
      KnownConcat(a[1..], b, if a[0].ObjRef? && a[0].num == c then c + 1 else c, c');
    }
  }

  // References to rs in turn.
  lemma {:induction false} RefsAreKnown(ids: seq<Ref>, rs: seq<Ref>, g: Graph, recs: seq<Record>)
    requires Numbered(ids, g) && forall r :: r in rs ==> r in g
    requires |recs| == |rs| && (forall r :: r in rs ==> r in AddAll(ids, rs))
    requires forall i :: 0 <= i < |rs| ==> recs[i].ObjRef? && recs[i].num == NumOf(AddAll(ids, rs), rs[i])
    ensures Known(recs, |ids|) == Some(|AddAll(ids, rs)|)
    decreases rs
  {
    if rs != [] {
      var ids' := AddOne(ids, rs[0]);
      AddAllExtends(ids', rs[1..]);
      NumOfStable(ids', AddAll(ids, rs), rs[0]);
      if rs[0] !in ids { NumOfLast(ids, rs[0]); } else { NumOfStable(ids, ids', rs[0]); }
      RefsAreKnown(ids', rs[1..], g, recs[1..]);
    }
  }

  lemma NothingKnown(rs: seq<Record>, c: nat)
    requires |rs| <= 2 && forall r :: r in rs ==> !r.ObjRef?
    ensures Known(rs, c) == Some(c)
  {
    if rs != [] { assert rs[0] in rs; }
    if |rs| == 2 { assert rs[1] in rs && rs[1..][0] == rs[1]; }
  }

  lemma {:induction false} NoBodies(rs: seq<Record>)
    requires forall r :: r in rs ==> !r.ObjStart?
    ensures Bodies(rs) == []
  {
    if rs != [] {
      assert rs[0] in rs;
      NoBodies(rs[1..]);
    }
  }

  lemma FieldsStartNothing(n: Node, nums: seq<nat>)
    ensures forall r :: r in FieldRecs(n, nums) ==> !r.ObjStart?
  {}

  lemma OneBody(n: Node, i: nat, cls: nat, nums: seq<nat>)
    ensures Bodies(BodyRecs(n, i, cls, nums)) == [i]
  {
    FieldsStartNothing(n, nums);
    hide FieldRecs;
    var rest := [NextContext(cls)] + FieldRecs(n, nums) + [ObjEnd(i)];
    assert BodyRecs(n, i, cls, nums) == [ObjStart(i, cls)] + rest;
    NoBodies(rest);
    BodiesConcat([ObjStart(i, cls)], rest);
    assert [ObjStart(i, cls)][1..] == [];
  }

  lemma KnownAround(a: seq<Record>, rs: seq<Record>, b: seq<Record>, c: nat, c': nat)
    requires |a| <= 2 && |b| <= 2 && (forall r :: r in a + b ==> !r.ObjRef?) && Known(rs, c) == Some(c')
    ensures Known(a + rs + b, c) == Some(c')
  {
    NothingKnown(a, c);
    NothingKnown(b, c');
    KnownConcat(a, rs, c, c);
    KnownConcat(a + rs, b, c, c');
  }

  lemma FieldsKnown(ids: seq<Ref>, n: Node, g: Graph, nums: seq<nat>)
    requires Numbered(ids, g) && (forall r :: r in Children(n) ==> r in g)
    requires (forall r :: r in Children(n) ==> r in AddAll(ids, Children(n)))
    requires nums == Numbers(AddAll(ids, Children(n)), Children(n))
    ensures Known(FieldRecs(n, nums), |ids|) == Some(|AddAll(ids, Children(n))|)
  {
    match n
    case ListN(items) =>
      RefsAreKnown(ids, Children(n), g, RefRecs(nums));
      KnownAround([ArrayStart(0, |items|)], RefRecs(nums), [ArrayEnd(0)], |ids|, |AddAll(ids, Children(n))|);
    case MapN(sorted, entries) =>
      RefsAreKnown(ids, Children(n), g, PairRecs(nums));
      KnownAround([VarInt(0, if sorted then 1 else 0), ArrayStart(1, 2 * |entries|)], PairRecs(nums), [ArrayEnd(1)],
                  |ids|, |AddAll(ids, Children(n))|);
    case _ => NothingKnown(FieldRecs(n, nums), |ids|);
  }

  lemma BodyKnown(ids: seq<Ref>, names: seq<text>, n: Node, i: nat, cls: nat, g: Graph, nums: seq<nat>)
    requires Numbered(ids, g) && (forall r :: r in Children(n) ==> r in g)
    requires (forall r :: r in Children(n) ==> r in AddAll(ids, Children(n)))
    requires nums == Numbers(AddAll(ids, Children(n)), Children(n))
    ensures Known(NameRecs(names, NodeName(n)) + BodyRecs(n, i, cls, nums), |ids|) == Some(|AddAll(ids, Children(n))|)
  {
    FieldsKnown(ids, n, g, nums);
    KnownAround([ObjStart(i, cls), NextContext(cls)], FieldRecs(n, nums), [ObjEnd(i)], |ids|,
                |AddAll(ids, Children(n))|);
    NothingKnown(NameRecs(names, NodeName(n)), |ids|);
    KnownConcat(NameRecs(names, NodeName(n)), BodyRecs(n, i, cls, nums), |ids|, |ids|);
  }

  // i bodies have been written, in order, and all references so far name known
  // objects or the next one.
  ghost predicate InOrder(p: Packed, i: nat)
  {
    |Bodies(p.recs)| == i && (forall j :: 0 <= j < i ==> Bodies(p.recs)[j] == j) && Known(p.recs, 0) == Some(|p.ids|)
  }

  lemma BodyInOrder(p: Packed, g: Graph, i: nat)
    requires Closed(g) && Numbered(p.ids, g) && i < |p.ids| && InOrder(p, i)
    ensures InOrder(WithBody(p, g, i), i + 1)
  {
    var n := g[p.ids[i]];
    AddAllNumbers(p.ids, Children(n), g);
    var names, ids := AddName(p.names, NodeName(n)), AddAll(p.ids, Children(n));
    var cls, nums := NameNum(names, NodeName(n)), Numbers(ids, Children(n));
    var a, b := NameRecs(p.names, NodeName(n)), BodyRecs(n, i, cls, nums);
    BodyKnown(p.ids, p.names, n, i, cls, g, nums);
    KnownConcat(p.recs, a + b, 0, |p.ids|);
    OneBody(n, i, cls, nums);
    NoBodies(a);
    BodiesConcat(a, b);
    BodiesConcat(p.recs, a + b);
  }

  lemma {:induction false} DrainInOrder(p: Packed, g: Graph, i: nat)
    requires Closed(g) && Numbered(p.ids, g) && i <= |p.ids| && InOrder(p, i)
    ensures InOrder(Drained(p, g, i), |Drained(p, g, i).ids|)
    decreases |g| - i
  {
    NumberedBound(p.ids, g);
    if i < |p.ids| {
      BodyInOrder(p, g, i);
      DrainInOrder(WithBody(p, g, i), g, i + 1);
    }
  }

  lemma RootRecInOrder(p: Packed, i: nat, key: nat, r: Ref)
    requires InOrder(p, i) && r != NULL
    ensures InOrder(WithRef(p, key, r), i)
  {
    var ids := AddOne(p.ids, r);
    var rec := ObjRef(key, NumOf(ids, r));
    if r !in p.ids { NumOfLast(p.ids, r); }
    OneRecord(p.recs, rec, |p.ids|);
  }

  lemma OneRecord(rs: seq<Record>, rec: Record, c: nat)
    requires Known(rs, 0) == Some(c) && !rec.ObjStart? && (rec.ObjRef? ==> rec.num <= c)
    ensures Known(rs + [rec], 0) == Some(if rec.ObjRef? && rec.num == c then c + 1 else c)
    ensures Bodies(rs + [rec]) == Bodies(rs)
  {
    KnownConcat(rs, [rec], 0, c);
    BodiesConcat(rs, [rec]);
    assert [rec][1..] == [];
  }

  // After every root all numbered objects have exactly one body, bodies are in
  // the order of their numbers, and numbers in the order of first references.
  lemma {:induction false} SessionInOrder(g: Graph, roots: seq<Root>)
    requires Closed(g) && RootsIn(roots, g)
    ensures var q := PackAll(g, roots); InOrder(q, |q.ids|)
  {
    if roots == [] {
      assert FRESH.recs[1..] == [];
    } else {
      var p, last := PackAll(g, roots[..|roots| - 1]), roots[|roots| - 1];
      SessionInOrder(g, roots[..|roots| - 1]);
      match last
      case IntRoot(key, v) => OneRecord(p.recs, VarInt(key, v), |p.ids|);
      case ObjRoot(key, r) =>
        if r != NULL {
          RootRecInOrder(p, |p.ids|, key, r);
          DrainInOrder(WithRef(p, key, r), g, |p.ids|);
        }
    }
  }

  lemma {:induction false} RefsBelow(rs: seq<Record>, c: nat, n: nat)
    requires Known(rs, c) == Some(n)
    ensures c <= n && forall r :: r in rs && r.ObjRef? ==> r.num < n
    decreases rs
  {
    if rs != [] {
      RefsBelow(rs[1..], if rs[0].ObjRef? && rs[0].num == c then c + 1 else c, n);
      assert rs == [rs[0]] + rs[1..];
    }
  }

  // When a call at the outermost level returns, every number ever written in a
  // reference has a body.
  lemma EveryReferenceHasABody(g: Graph, roots: seq<Root>, r: Record)
    requires Closed(g) && RootsIn(roots, g) && r in PackAll(g, roots).recs && r.ObjRef?
    ensures r.num in Bodies(PackAll(g, roots).recs)
  {
    var q := PackAll(g, roots);
    SessionInOrder(g, roots);
    RefsBelow(q.recs, 0, |q.ids|);
    assert Bodies(q.recs)[r.num] == r.num;
  }

  // ----- Legality

  // At most i class names, and no more objects than the graph has.
  ghost predicate Fits(p: Packed, g: Graph, i: nat)
  {
    Numbered(p.ids, g) && |p.names| <= i <= |g| && AllLegal(p.recs)
  }

  lemma LegalConcat(a: seq<Record>, b: seq<Record>)
    requires AllLegal(a) && AllLegal(b)
    ensures AllLegal(a + b)
  {}

  lemma RefsAreLegal(nums: seq<nat>)
    requires forall k :: k in nums ==> k < 0x10_0000
    ensures AllLegal(RefRecs(nums)) && AllLegal(PairRecs(nums))
  {
    forall i | 0 <= i < |nums| ensures RefRecs(nums)[i].Legal() && PairRecs(nums)[i].Legal() { assert nums[i] in nums; }
  }

  lemma FieldsAreLegal(n: Node, nums: seq<nat>)
    requires Small(n) && forall k :: k in nums ==> k < 0x10_0000
    ensures AllLegal(FieldRecs(n, nums))
  {
    RefsAreLegal(nums);
    match n
    case ListN(items) =>
      LegalConcat([ArrayStart(0, |items|)], RefRecs(nums));
      LegalConcat([ArrayStart(0, |items|)] + RefRecs(nums), [ArrayEnd(0)]);
    case MapN(sorted, entries) =>
      var a := [VarInt(0, if sorted then 1 else 0), ArrayStart(1, 2 * |entries|)];
      LegalConcat(a, PairRecs(nums));
      LegalConcat(a + PairRecs(nums), [ArrayEnd(1)]);
    case _ =>
  }

  lemma BodyIsLegal(names: seq<text>, n: Node, i: nat, cls: nat, nums: seq<nat>)
    requires Small(n) && (forall k :: k in nums ==> k < 0x10_0000)
    requires |names| < 0x10_0000 && i < 0x10_0000 && cls < 0x10_0000
    ensures AllLegal(NameRecs(names, NodeName(n)) + BodyRecs(n, i, cls, nums))
  {
    FieldsAreLegal(n, nums);
    LegalConcat([ObjStart(i, cls), NextContext(cls)], FieldRecs(n, nums));
    LegalConcat([ObjStart(i, cls), NextContext(cls)] + FieldRecs(n, nums), [ObjEnd(i)]);
    LegalConcat(NameRecs(names, NodeName(n)), BodyRecs(n, i, cls, nums));
  }

  lemma BodyFits(p: Packed, g: Graph, i: nat)
    requires Packable(g) && Fits(p, g, i) && i < |p.ids|
    ensures Fits(WithBody(p, g, i), g, i + 1)
  {
    hide AllLegal, AllKeysPrimary, Small;
    var n := g[p.ids[i]];
    AddAllNumbers(p.ids, Children(n), g);
    var names, ids := AddName(p.names, NodeName(n)), AddAll(p.ids, Children(n));
    var cls, nums := NameNum(names, NodeName(n)), Numbers(ids, Children(n));
    NumberedBound(p.ids, g);
    NumberedBound(ids, g);
    BodyIsLegal(p.names, n, i, cls, nums);
    LegalConcat(p.recs, NameRecs(p.names, NodeName(n)) + BodyRecs(n, i, cls, nums));
  }

  lemma RefFits(p: Packed, g: Graph, i: nat, key: nat, r: Ref)
    requires Packable(g) && Fits(p, g, i) && r != NULL && r in g && key <= 0xF_FFFF
    ensures Fits(WithRef(p, key, r), g, i)
  {
    var q := WithRef(p, key, r);
    assert Numbered(q.ids, g);
    NumberedBound(q.ids, g);
    LegalConcat(p.recs, [ObjRef(key, NumOf(q.ids, r))]);
  }

  lemma {:induction false} DrainFits(p: Packed, g: Graph, i: nat)
    requires Packable(g) && Fits(p, g, i) && i <= |p.ids|
    ensures Fits(Drained(p, g, i), g, |Drained(p, g, i).ids|)
    decreases |g| - i
  {
    hide Numbered, AllLegal, Closed, AllKeysPrimary, WithBody;
    NumberedBound(p.ids, g);
    if i < |p.ids| {
      BodyFits(p, g, i);
      DrainFits(WithBody(p, g, i), g, i + 1);
    }
  }

  ghost predicate KeysFit(roots: seq<Root>) { forall root :: root in roots ==> root.key <= 0xF_FFFF }

  lemma FreshFits(g: Graph)
    ensures Fits(FRESH, g, 0)
  {}

  lemma IntIsLegal(rs: seq<Record>, key: nat, v: int64)
    requires AllLegal(rs) && key <= 0xF_FFFF
    ensures AllLegal(rs + [VarInt(key, v)])
  {
    LegalConcat(rs, [VarInt(key, v)]);
  }

  // For a packable graph and 20-bit root keys every record can be written.
  lemma {:induction false} SessionIsLegal(g: Graph, roots: seq<Root>)
    requires Packable(g) && RootsIn(roots, g) && KeysFit(roots)
    ensures AllLegal(PackAll(g, roots).recs)
    ensures Fits(PackAll(g, roots), g, |PackAll(g, roots).ids|)
  {
    hide AllLegal, AllKeysPrimary, Small;
    if roots == [] {
      FreshFits(g);
    } else {
      var p, last := PackAll(g, roots[..|roots| - 1]), roots[|roots| - 1];
      SessionIsLegal(g, roots[..|roots| - 1]);
      match last
      case IntRoot(key, v) => IntIsLegal(p.recs, key, v);
      case ObjRoot(key, r) =>
        if r != NULL {
          RefFits(p, g, |p.ids|, key, r);
          DrainFits(WithRef(p, key, r), g, |p.ids|);
        }
    }
  }

  // ----- What is written

  // The version record is the first, and the only one.
  ghost predicate VersionFirst(rs: seq<Record>)
  {
    |rs| > 0 && rs[0] == Version(1) && forall i :: 1 <= i < |rs| ==> !rs[i].Version?
  }

  lemma VersionStays(rs: seq<Record>, more: seq<Record>)
    requires VersionFirst(rs) && forall i :: 0 <= i < |more| ==> !more[i].Version?
    ensures VersionFirst(rs + more)
  {}

  lemma {:induction false} DrainWritesNoVersion(p: Packed, g: Graph, i: nat)
    requires Closed(g) && Numbered(p.ids, g) && i <= |p.ids| && VersionFirst(p.recs)
    ensures VersionFirst(Drained(p, g, i).recs)
    decreases |g| - i
  {
    hide VersionFirst, Closed, Numbered, WithBody;
    NumberedBound(p.ids, g);
    if i < |p.ids| {
      var names, cls, fields := BodyIs(p, g, i);
      VersionStays(p.recs, names + [ObjStart(i, cls), NextContext(cls)] + fields + [ObjEnd(i)]);
      DrainWritesNoVersion(WithBody(p, g, i), g, i + 1);
    }
  }

  lemma RootWritesNoVersion(p: Packed, g: Graph, root: Root)
    requires Closed(g) && Numbered(p.ids, g) && (root.ObjRoot? && root.r != NULL ==> root.r in g)
    requires VersionFirst(p.recs)
    ensures VersionFirst(WithRoot(p, g, root).recs)
  {
    hide VersionFirst, Drained, Closed;
    match root
    case IntRoot(key, v) => VersionStays(p.recs, [VarInt(key, v)]);
    case ObjRoot(key, r) =>
      if r != NULL {
        VersionStays(p.recs, [ObjRef(key, NumOf(AddOne(p.ids, r), r))]);
        DrainWritesNoVersion(WithRef(p, key, r), g, |p.ids|);
      }
  }

  lemma {:induction false} SessionStartsWithVersion(g: Graph, roots: seq<Root>)
    requires Closed(g) && RootsIn(roots, g)
    ensures VersionFirst(PackAll(g, roots).recs)
  {
    if roots != [] {
      hide VersionFirst, WithRoot, Closed, Numbered;
      SessionStartsWithVersion(g, roots[..|roots| - 1]);
      RootWritesNoVersion(PackAll(g, roots[..|roots| - 1]), g, roots[|roots| - 1]);
    }
  }

  // The fields of a node, record by record: ids numbers its children.
  ghost predicate IsFields(rs: seq<Record>, n: Node, ids: seq<Ref>)
  {
    match n
    case IntN(i) => rs == [VarInt(0, i)]
    case LongN(l) => rs == [VarInt(0, l)]
    case StringN(s) => rs == [Raw(0, s + [0])]
    case DataN(d) => rs == [Raw(0, d)]
    case ListN(items) =>
      |rs| == |NonNull(items)| + 2 && rs[0] == ArrayStart(0, |items|) && rs[|rs| - 1] == ArrayEnd(0)
      && forall k :: 0 <= k < |NonNull(items)| ==> RefersTo(rs[k + 1], 0, ids, NonNull(items)[k])
    case MapN(sorted, entries) =>
      |rs| == 2 * |entries| + 3 && rs[0] == VarInt(0, if sorted then 1 else 0)
      && rs[1] == ArrayStart(1, 2 * |entries|) && rs[|rs| - 1] == ArrayEnd(1)
      && forall k :: 0 <= k < |entries| ==>
        RefersTo(rs[2 * k + 2], 0, ids, entries[k].0) && RefersTo(rs[2 * k + 3], 1, ids, entries[k].1)
  }

  ghost predicate RefersTo(rec: Record, key: nat, ids: seq<Ref>, r: Ref)
  {
    rec.ObjRef? && rec.key == key && rec.num < |ids| && ids[rec.num] == r
  }

  lemma ListFieldsAre(items: seq<Ref>, ids: seq<Ref>)
    requires forall r | r in NonNull(items) :: r in ids
    ensures IsFields(FieldRecs(ListN(items), Numbers(ids, NonNull(items))), ListN(items), ids)
  {
    hide NonNull, NumOf;
  }

  lemma MapFieldsAre(sorted: bool, entries: seq<(Ref, Ref)>, ids: seq<Ref>)
    requires forall r | r in Flat(entries) :: r in ids
    ensures IsFields(FieldRecs(MapN(sorted, entries), Numbers(ids, Flat(entries))), MapN(sorted, entries), ids)
  {
    hide Flat, NumOf;
    FlatLength(entries);
    var nums := Numbers(ids, Flat(entries));
    var rs := FieldRecs(MapN(sorted, entries), nums);
    forall k | 0 <= k < |entries|
      ensures RefersTo(rs[2 * k + 2], 0, ids, entries[k].0) && RefersTo(rs[2 * k + 3], 1, ids, entries[k].1) {
      FlatAt(entries, k);
      assert rs[2 * k + 2] == PairRecs(nums)[2 * k] && rs[2 * k + 3] == PairRecs(nums)[2 * k + 1];
      assert (2 * k) % 2 == 0 && (2 * k + 1) % 2 == 1;
    }
  }

  lemma FieldsAre(n: Node, ids: seq<Ref>)
    requires forall r | r in Children(n) :: r in ids
    ensures IsFields(FieldRecs(n, Numbers(ids, Children(n))), n, ids)
  {
    hide NonNull, Flat, NumOf, RefRecs, PairRecs, RefersTo;
    match n
    case ListN(items) => ListFieldsAre(items, ids);
    case MapN(sorted, entries) => MapFieldsAre(sorted, entries, ids);
    case _ =>
  }

  lemma FieldsAreNoVersion(n: Node, nums: seq<nat>)
    ensures forall j :: 0 <= j < |FieldRecs(n, nums)| ==> !FieldRecs(n, nums)[j].Version?
  {}

  // One turn of the worklist: the class name if it is new, the start, the
  // context, the fields, and the end.
  lemma BodyIs(p: Packed, g: Graph, i: nat) returns (names: seq<Record>, cls: nat, fields: seq<Record>)
    requires Closed(g) && Numbered(p.ids, g) && i < |p.ids|
    ensures var q := WithBody(p, g, i);
      q.recs == p.recs + (names + [ObjStart(i, cls), NextContext(cls)] + fields + [ObjEnd(i)])
      && IsFields(fields, g[p.ids[i]], q.ids) && IsName(p, q, NodeName(g[p.ids[i]]), names, cls)
    ensures forall j :: 0 <= j < |fields| ==> !fields[j].Version?
    ensures forall j :: 0 <= j < |names| ==> !names[j].Version?
  {
    hide IsFields, FieldRecs, Numbers, NodeName, Children, AddAll;
    var n := g[p.ids[i]];
    var ids := AddAll(p.ids, Children(n));
    AddAllNumbers(p.ids, Children(n), g);
    names := NameRecs(p.names, NodeName(n));
    cls := NameNum(AddName(p.names, NodeName(n)), NodeName(n));
    fields := FieldRecs(n, Numbers(ids, Children(n)));
    FieldsAre(n, ids);
    FieldsAreNoVersion(n, Numbers(ids, Children(n)));
    Between(names, [ObjStart(i, cls), NextContext(cls)], fields, [ObjEnd(i)]);
  }

  lemma Between(a: seq<Record>, b: seq<Record>, c: seq<Record>, d: seq<Record>)
    ensures a + (b + c + d) == a + b + c + d
  {}

  // A class name is written once, before it is first used, under the next
  // number; cls is its number from then on.
  ghost predicate IsName(p: Packed, q: Packed, name: text, names: seq<Record>, cls: nat)
  {
    cls < |q.names| && q.names[cls] == name
    && if name in p.names then names == [] && q.names == p.names
       else names == [ClassDb(|p.names|, name)] && q.names == p.names + [name]
  }
}
