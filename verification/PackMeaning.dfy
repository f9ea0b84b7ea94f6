// What a packer session means to the unpacker: after any number of roots, the
// records run without fault and leave every numbered object described.

module PackMeaning {
  import opened Bytes
  import opened ObjectGraph
  import opened Records
  import opened Machines
  import opened Packing
  import opened PackRun

  // The containers that describe a node, found from its entry.
  ghost predicate BodyHeld(store: seq<Cont>, e: ObjEntry, n: Node, nums: seq<nat>)
  {
    e.Props? && e.loc > 0
    && var cs := BodyConts(n, e.loc, nums);
       e.loc + |cs| <= |store| && store[e.loc..e.loc + |cs|] == cs
  }

  // Every object with a number below k has all its children numbered.
  ghost predicate ChildrenNumbered(ids: seq<Ref>, g: Graph, k: nat)
    requires Numbered(ids, g)
  {
    k <= |ids| && forall i :: 0 <= i < k ==> ChildrenIn(ids, g, i)
  }

  ghost predicate ChildrenIn(ids: seq<Ref>, g: Graph, i: nat)
    requires Numbered(ids, g) && i < |ids|
  {
    forall r :: r in Children(g[ids[i]]) ==> r in ids
  }

  ghost predicate Described(m: Machine, ids: seq<Ref>, g: Graph, i: nat)
    requires Numbered(ids, g) && i < |ids| && ChildrenIn(ids, g, i)
  {
    i in m.objects && BodyHeld(m.store, m.objects[i], g[ids[i]], Numbers(ids, Children(g[ids[i]])))
  }

  ghost predicate NamesMatch(m: Machine, names: seq<text>)
  {
    (forall k :: k in m.names <==> 0 <= k < |names|) && forall k :: 0 <= k < |names| ==> m.names[k] == names[k]
  }

  // m is the state after p's records, with the first k bodies written.
  ghost predicate Means(m: Machine, p: Packed, g: Graph, k: nat, ints: map<nat, Val>)
    requires Numbered(p.ids, g)
  {
    RunOk(START, p.recs, m) && Shaped(m) && m.cur.None? && m.store[ROOTS] == MapC(false, ints, map[])
    && NamesMatch(m, p.names)
    && ChildrenNumbered(p.ids, g, k)
    && (forall i :: i in m.objects ==> i < k)
    && forall i :: 0 <= i < k ==> Described(m, p.ids, g, i)
  }

  // ----- More numbers, more containers: what is described stays described

  lemma ChildrenStay(ids: seq<Ref>, ids': seq<Ref>, g: Graph, i: nat)
    requires Numbered(ids, g) && Numbered(ids', g) && ids <= ids' && i < |ids| && ChildrenIn(ids, g, i)
    ensures ChildrenIn(ids', g, i)
    ensures Numbers(ids', Children(g[ids'[i]])) == Numbers(ids, Children(g[ids[i]]))
  {
    assert ids'[i] == ids[i];
    NumbersStable(ids, ids', Children(g[ids[i]]));
  }

  lemma DescribedStays(m: Machine, m': Machine, ids: seq<Ref>, ids': seq<Ref>, g: Graph, i: nat)
    requires Numbered(ids, g) && Numbered(ids', g) && ids <= ids' && i < |ids| && ChildrenIn(ids, g, i)
    requires Described(m, ids, g, i)
    requires i in m'.objects && m'.objects[i] == m.objects[i]
    requires |m.store| <= |m'.store| && forall l :: 0 < l < |m.store| ==> m'.store[l] == m.store[l]
    ensures ChildrenIn(ids', g, i) && Described(m', ids', g, i)
  {
    ChildrenStay(ids, ids', g, i);
    assert ids'[i] == ids[i];
    HeldStays(m.store, m'.store, m.objects[i], g[ids[i]], Numbers(ids, Children(g[ids[i]])));
  }

  lemma HeldStays(s: seq<Cont>, s': seq<Cont>, e: ObjEntry, n: Node, nums: seq<nat>)
    requires BodyHeld(s, e, n, nums)
    requires |s| <= |s'| && forall l :: 0 < l < |s| ==> s'[l] == s[l]
    ensures BodyHeld(s', e, n, nums)
  {
    var end := e.loc + |BodyConts(n, e.loc, nums)|;
    assert s'[e.loc..end] == s[e.loc..end];
  }

  lemma AllStay(m: Machine, m': Machine, ids: seq<Ref>, ids': seq<Ref>, g: Graph, k: nat)
    requires Numbered(ids, g) && Numbered(ids', g) && ids <= ids' && ChildrenNumbered(ids, g, k)
    requires forall i :: 0 <= i < k ==> Described(m, ids, g, i)
    requires forall i :: 0 <= i < k && i in m.objects ==> i in m'.objects && m'.objects[i] == m.objects[i]
    requires |m.store| <= |m'.store| && forall l :: 0 < l < |m.store| ==> m'.store[l] == m.store[l]
    ensures ChildrenNumbered(ids', g, k)
    ensures forall i :: 0 <= i < k ==> Described(m', ids', g, i)
  {
    forall i | 0 <= i < k ensures ChildrenIn(ids', g, i) && Described(m', ids', g, i) {
      assert Described(m, ids, g, i);
      DescribedStays(m, m', ids, ids', g, i);
    }
  }

  // ----- One body

  // The class name record, if there is one.
  lemma RunName(m: Machine, names: seq<text>, name: text) returns (m': Machine)
    requires Shaped(m) && NamesMatch(m, names)
    ensures RunOk(m, NameRecs(names, name), m') && NamesMatch(m', AddName(names, name))
    ensures m' == m.(names := m'.names)
  {
    if name in names {
      m' := m;
    } else {
      m' := m.(names := m.names[|names| := name]);
      RunOne(m, ClassDb(|names|, name), m');
    }
  }

  lemma MeansBody(m: Machine, p: Packed, g: Graph, i: nat, ints: map<nat, Val>) returns (m': Machine)
    requires Closed(g) && Numbered(p.ids, g) && i < |p.ids| && Means(m, p, g, i, ints)
    ensures Means(m', WithBody(p, g, i), g, i + 1, ints)
  {
    EndIsShaped(START, p.recs, m);
    var n := g[p.ids[i]];
    var q := WithBody(p, g, i);
    var nums := Numbers(q.ids, Children(n));
    var m1 := RunName(m, p.names, NodeName(n));
    var cls := NameNum(q.names, NodeName(n));
    EndIsShaped(m, NameRecs(p.names, NodeName(n)), m1);
    RunBody(m1, n, i, cls, nums);
    m' := m1.(store := m.store + BodyConts(n, |m.store|, nums), objects := m.objects[i := Props(|m.store|)]);
    RunConcat(m, NameRecs(p.names, NodeName(n)), m1, BodyRecs(n, i, cls, nums), m');
    RunConcat(START, p.recs, m, NameRecs(p.names, NodeName(n)) + BodyRecs(n, i, cls, nums), m');
    AddAllNumbers(p.ids, Children(n), g);
    assert q.ids[i] == p.ids[i];
    BodyAdded(m, m', p.ids, q.ids, g, i);
  }

  lemma BodyAdded(m: Machine, m': Machine, ids: seq<Ref>, ids': seq<Ref>, g: Graph, i: nat)
    requires Numbered(ids, g) && Numbered(ids', g) && ids <= ids' && i < |ids| && ChildrenNumbered(ids, g, i)
    requires Shaped(m) && forall j :: 0 <= j < i ==> Described(m, ids, g, j)
    requires ids'[i] == ids[i] && ChildrenIn(ids', g, i)
    requires m'.store == m.store + BodyConts(g[ids'[i]], |m.store|, Numbers(ids', Children(g[ids'[i]])))
    requires m'.objects == m.objects[i := Props(|m.store|)]
    ensures ChildrenNumbered(ids', g, i + 1)
    ensures forall j :: 0 <= j < i + 1 ==> Described(m', ids', g, j)
  {
    hide NodeName, Numbers, BodyHeld, BodyConts, Children, Machines.Shaped, Described, ChildrenIn;
    OldStays(m, m', i);
    AllStay(m, m', ids, ids', g, i);
    NewIsDescribed(m, m', ids', g, i);
  }

  lemma NewIsDescribed(m: Machine, m': Machine, ids: seq<Ref>, g: Graph, i: nat)
    requires Numbered(ids, g) && Shaped(m) && i < |ids| && ChildrenIn(ids, g, i)
    requires m'.store == m.store + BodyConts(g[ids[i]], |m.store|, Numbers(ids, Children(g[ids[i]])))
    requires m'.objects == m.objects[i := Props(|m.store|)]
    ensures Described(m', ids, g, i)
  {
    hide NodeName, Numbers, BodyHeld, BodyConts, Children;
    NewBodyHeld(m.store, g[ids[i]], Numbers(ids, Children(g[ids[i]])));
  }

  lemma OldStays(m: Machine, m': Machine, i: nat)
    requires |m.store| <= |m'.store| && m.store <= m'.store && m'.objects == m.objects[i := Props(|m.store|)]
    ensures forall l :: 0 < l < |m.store| ==> m'.store[l] == m.store[l]
    ensures forall j :: 0 <= j < i && j in m.objects ==> j in m'.objects && m'.objects[j] == m.objects[j]
  {}

  lemma NewBodyHeld(s: seq<Cont>, n: Node, nums: seq<nat>)
    requires s != []
    ensures BodyHeld(s + BodyConts(n, |s|, nums), Props(|s|), n, nums)
  {
    var cs := BodyConts(n, |s|, nums);
    assert (s + cs)[|s|..|s| + |cs|] == cs;
  }

  // ----- The worklist

  lemma {:induction false} MeansDrained(m: Machine, p: Packed, g: Graph, i: nat, ints: map<nat, Val>)
    returns (m': Machine)
    requires Closed(g) && Numbered(p.ids, g) && i <= |p.ids| && Means(m, p, g, i, ints)
    ensures var q := Drained(p, g, i); Means(m', q, g, |q.ids|, ints)
    decreases |g| - i
  {
    hide Means, Numbered, Closed, WithBody;
    if i == |p.ids| {
      m' := m;
    } else {
      NumberedBound(p.ids, g);
      m' := MeansBody(m, p, g, i, ints);
      m' := MeansDrained(m', WithBody(p, g, i), g, i + 1, ints);
    }
  }

  // ----- Roots

  lemma MeansRootRecord(m: Machine, p: Packed, g: Graph, k: nat, ints: map<nat, Val>, key: nat, r: Record, v: Val,
                        ids': seq<Ref>) returns (m': Machine)
    requires Numbered(p.ids, g) && Numbered(ids', g) && p.ids <= ids' && Means(m, p, g, k, ints)
    requires (r.ObjRef? && r.key == key && v == NumVal(r.num)) || (r.VarInt? && r.key == key && v == LongVal(r.v))
    ensures Means(m', Packed(ids', p.names, p.recs + [r]), g, k, ints[key := v])
  {
    EndIsShaped(START, p.recs, m);
    assert m.stack == [ROOTS];
    m' := PutInt(m, key, v);
    RunOne(m, r, m');
    RunConcat(START, p.recs, m, [r], m');
    AllStay(m, m', p.ids, ids', g, k);
  }

  // What the roots map holds after a session: for each key the number of its
  // object, or its integer.
  ghost function RootInts(g: Graph, roots: seq<Root>): map<nat, Val>
    requires Closed(g) && RootsIn(roots, g)
  {
    if roots == [] then map[]
    else
      var before := roots[..|roots| - 1];
      var last := roots[|roots| - 1];
      var ints := RootInts(g, before);
      match last
      case IntRoot(key, v) => ints[key := LongVal(v)]
      case ObjRoot(key, r) =>
        if r == NULL then ints else ints[key := NumVal(NumOf(AddOne(PackAll(g, before).ids, r), r))]
  }

  // A session of any number of roots is accepted, and describes every object
  // it has numbered.
  lemma {:induction false} SessionMeans(g: Graph, roots: seq<Root>) returns (m: Machine)
    requires Closed(g) && RootsIn(roots, g)
    ensures var q := PackAll(g, roots); Means(m, q, g, |q.ids|, RootInts(g, roots))
  {
    if roots == [] {
      m := START;
      RunOne(START, Version(PACKER_VERSION_V1), START);
    } else {
      var before := roots[..|roots| - 1];
      var last := roots[|roots| - 1];
      m := SessionMeans(g, before);
      m := MeansRoot(m, PackAll(g, before), g, RootInts(g, before), last);
    }
  }

  lemma MeansRoot(m: Machine, p: Packed, g: Graph, ints: map<nat, Val>, root: Root) returns (m': Machine)
    requires Closed(g) && Numbered(p.ids, g) && Means(m, p, g, |p.ids|, ints)
    requires root.ObjRoot? && root.r != NULL ==> root.r in g
    ensures var q := WithRoot(p, g, root);
      Means(m', q, g, |q.ids|,
        if root.IntRoot? then ints[root.key := LongVal(root.v)]
        else if root.r == NULL then ints
        else ints[root.key := NumVal(NumOf(AddOne(p.ids, root.r), root.r))])
  {
    match root
    case IntRoot(key, v) =>
      m' := MeansRootRecord(m, p, g, |p.ids|, ints, key, VarInt(key, v), LongVal(v), p.ids);
    case ObjRoot(key, r) =>
      if r == NULL {
        m' := m;
      } else {
        var ids := AddOne(p.ids, r);
        var num := NumOf(ids, r);
        m' := MeansRootRecord(m, p, g, |p.ids|, ints, key, ObjRef(key, num), NumVal(num), ids);
        m' := MeansDrained(m', WithRef(p, key, r), g, |p.ids|, ints[key := NumVal(num)]);
      }
  }
}
